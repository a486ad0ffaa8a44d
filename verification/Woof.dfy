/**
 A WOOF: an append-only sequence of elements, of which a circular buffer retains the
 last `history`.  `tail` is -1 until the buffer wraps and the index of the oldest
 element from then on; index 0 is filled last.
 */
module WoofBuffer {
  import opened RingArithmetic
  import opened Wrappers

  class Woof<E(0)> {
    const history: nat
    const slots: array<E>
    var head: int
    var tail: int
    var seqNo: nat

    // everything ever appended, and the sequence number that each append returned
    ghost var contents: seq<E>
    ghost var numbers: seq<nat>

    ghost predicate Valid()
      reads this, slots
    {
      && 1 <= history == slots.Length
      && |numbers| == |contents| < seqNo
      && head == |contents| % history
      && tail == (if |contents| < history then -1 else (|contents| + 1) % history)
      && forall j | 0 <= j < |contents| && |contents| - history <= j :: slots[(j + 1) % history] == contents[j]
    }

    /** How many elements the buffer retains. */
    ghost function Window(): nat
      reads this
    {
      if |contents| < history then |contents| else history
    }

    /** Which append the sequence number s refers to: it counts back from the latest. */
    ghost function Position(s: int): int
      reads this
    {
      |contents| - (seqNo - s)
    }

    /** Sequence numbers still mean what the appends returned. */
    ghost predicate Stable()
      requires |numbers| == |contents|
      reads this
    {
      forall j | 0 <= j < |contents| :: numbers[j] == seqNo - (|contents| - j)
    }

    /** WooFCreate */
    constructor (historySize: nat)
      requires historySize >= 1
      ensures Valid() && Stable() && history == historySize && contents == [] && seqNo == 1
      ensures fresh(slots)
    {
      history := historySize;
      slots := new E[historySize];
      head, tail, seqNo := 0, -1, 1;
      contents, numbers := [], [];
    }

    /** WooFSetSeqno: numbers can only grow.  Once there are elements, moving the number
        renames all of them. */
    method SetSeqno(newSeqno: nat) returns (ok: bool)
      requires Valid()
      modifies this`seqNo
      ensures Valid()
      ensures ok <==> old(seqNo) <= newSeqno
      ensures seqNo == if ok then newSeqno else old(seqNo)
      ensures old(Stable()) ==> (Stable() <==> contents == [] || seqNo == old(seqNo))
    {
      ok := seqNo <= newSeqno;
      if ok {
        seqNo := newSeqno;
      }
      assert old(Stable()) && contents != [] ==> numbers[0] == old(seqNo) - |contents|;
    }

    /** The critical section of WooFAppendWithCause. */
    method Append(element: E) returns (s: nat)
      requires Valid()
      modifies this`head, this`tail, this`seqNo, this`contents, this`numbers, slots
      ensures Valid()
      ensures contents == old(contents) + [element] && numbers == old(numbers) + [s]
      ensures s == old(seqNo) && seqNo == s + 1
      ensures old(Stable()) ==> Stable()
    {
      ghost var k := |contents|;
      TailAfter(k, history);
      var next := (head + 1) % history;
      slots[next] := element;
      head := next;
      if next == 0 && tail == -1 {
        tail := 1 % history;
      } else if next == tail {
        tail := (tail + 1) % history;
      }
      s := seqNo;
      seqNo := seqNo + 1;
      contents := contents + [element];
      numbers := numbers + [s];
      assert head == |contents| % history;
      assert tail == if |contents| < history then -1 else (|contents| + 1) % history;
      forall j | 0 <= j < |contents| && |contents| - history <= j
        ensures slots[(j + 1) % history] == contents[j]
      {
        if j < k { ModDistinct(j + 1, k + 1, history); }
      }
    }

    /** WooFGetEarliest */
    method GetEarliest() returns (s: int)
      requires Valid()
      ensures s == seqNo - Window()
    {
      var latest := seqNo - 1;
      if tail != -1 {
        s := latest - history + 1;
      } else {
        s := latest - head + 1;
        SmallModulo(|contents|, history);
      }
    }

    /** WooFReadWithCause: a read of s > 0 succeeds exactly when s is one of the retained
        numbers, and then returns the element of that number; 0 stands for the latest. */
    method Read(s: nat) returns (r: Option<E>)
      requires Valid()
      ensures s == 0 ==> r == if contents == [] then None else Some(contents[|contents| - 1])
      ensures s > 0 ==> (r.Some? <==> seqNo - Window() <= s < seqNo)
      ensures s > 0 && r.Some? ==> 0 <= Position(s) < |contents| && r.value == contents[Position(s)]
      ensures s > 0 && r.Some? && Stable() ==> numbers[Position(s)] == s
    {
      var l := s;
      if s == 0 {
        if seqNo <= 1 {
          return None;
        }
        l := seqNo - 1;
      }
      var youngest := seqNo - 1;
      var lastValid := if tail == -1 then 1 + history else tail;
      var oldest := GetEarliest();
      if l < oldest || l > youngest {
        return None;
      }
      var ndx := (lastValid + (l - oldest)) % history;
      ReadIndex(|contents|, history, l - oldest);
      assert ndx == (Position(l) + 1) % history;
      r := Some(slots[ndx]);
    }
  }

  /** An element can be read back under the number that its append returned until as many
      elements as the buffer has slots have been appended after it, and then no longer. */
  method ReadBack<E(0)>(w: Woof<E>, element: E, others: seq<E>) returns (s: nat, r: Option<E>)
    requires w.Valid()
    modifies w`head, w`tail, w`seqNo, w`contents, w`numbers, w.slots
    ensures w.Valid() && w.contents == old(w.contents) + [element] + others
    ensures s > 0 && r == if |others| < w.history then Some(element) else None
  {
    s := w.Append(element);
    ghost var before := w.contents;
    for i := 0 to |others|
      invariant w.Valid() && w.contents == before + others[..i] && w.seqNo == s + 1 + i
    {
      var t := w.Append(others[i]);
    }
    assert others[..|others|] == others;
    r := w.Read(s);
  }

  /** How the tail moves with append number k + 1: it is set when slot 0 is filled for the first
      time, and goes on when the next slot is the tail. */
  lemma TailAfter(k: nat, n: nat)
    requires n >= 1
    ensures (k % n + 1) % n == (k + 1) % n
    ensures ((k + 1) % n + 1) % n == (k + 2) % n
    ensures k + 1 < n ==> (k + 1) % n != 0
    ensures k + 1 == n ==> (k + 1) % n == 0 && (k + 2) % n == 1 % n
  {
    ModShift(k, 1, n);
    ModShift(k + 1, 1, n);
    if k + 1 < n { SmallModulo(k + 1, n); }
    if k + 1 == n { ModStep(1, n); }
  }

  /** Counting forward from the oldest element leads to the right slot. */
  lemma ReadIndex(k: nat, n: nat, i: nat)
    requires n >= 1
    ensures (1 + n + i) % n == (i + 1) % n
    ensures k >= n ==> ((k + 1) % n + i) % n == (k - n + i + 1) % n
  {
    ModStep(i + 1, n);
    if k >= n {
      ModShift(k + 1, i, n);
      ModStep(k - n + i + 1, n);
    }
  }
}
