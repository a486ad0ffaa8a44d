/**
 The event log: a circular buffer that retains the last `size` - 1 events.  `tail` is
 the index just behind the oldest retained event, so that head == tail means empty.
 */
module EventLog {
  import opened RingArithmetic

  datatype EventType =
    UNKNOWN | FUNC | TRIGGER | TRIGGER_FIRING | FIRED | APPEND | READ | LATEST_SEQNO

  datatype Event = Event(
    kind: EventType,
    host: nat,
    seqNo: nat,
    causeHost: nat,
    causeSeqNo: nat,
    woofName: string,
    woofSeqNo: nat)

  /** EventCreate: everything but the type and the host is zero. */
  function EventCreate(kind: EventType, host: nat): Event {
    Event(kind, host, 0, 0, 0, "", 0)
  }

  /** Every event carries its own position, counting from 1. */
  ghost predicate CarryPositions(hist: seq<Event>) {
    forall j | 0 <= j < |hist| :: hist[j].seqNo == j + 1
  }

  /** How many of n events a buffer of this size retains. */
  ghost function RetainedOf(n: nat, size: nat): nat {
    if n < size then n else if size == 0 then 0 else size - 1
  }

  /** Event number q, counting from 1, is hist[q - 1]. */
  class Log {
    const size: nat
    const slots: array<Event>
    const hostId: nat
    var head: nat
    var tail: nat
    var seqNo: nat
    var lastChecked: int

    // everything ever added
    ghost var hist: seq<Event>

    ghost function Retained(): nat
      reads this
    {
      RetainedOf(|hist|, size)
    }

    ghost predicate Valid()
      reads this, slots
    {
      && 1 <= size == slots.Length
      && head == |hist| % size
      && tail == (|hist| - Retained()) % size
      && forall q | |hist| - Retained() < q <= |hist| :: slots[q % size] == hist[q - 1]
    }

    /** Every event was added by LogEvent. */
    ghost predicate Numbered()
      reads this
    {
      seqNo == |hist| + 1 && CarryPositions(hist)
    }

    /** LogCreate */
    constructor (hostId: nat, size: nat)
      requires size >= 1
      ensures Valid() && Numbered() && hist == [] && this.size == size && this.hostId == hostId
      ensures lastChecked == -1 && fresh(slots)
    {
      this.size := size;
      this.hostId := hostId;
      slots := new Event[size](_ => EventCreate(UNKNOWN, 0));
      head, tail, seqNo, lastChecked := 0, 0, 1, -1;
      hist := [];
    }

    /** LogAdd: the oldest event gives way when the buffer is full. */
    method LogAdd(event: Event)
      requires Valid()
      modifies this`head, this`tail, this`hist, slots
      ensures Valid() && hist == old(hist) + [event]
    {
      ghost var n := |hist|;
      TailMoves(n, size);
      var next := (head + 1) % size;
      if next == tail {
        tail := (tail + 1) % size;
      }
      slots[next] := event;
      head := next;
      hist := hist + [event];
      assert head == |hist| % size && tail == (|hist| - Retained()) % size;
      forall q | |hist| - Retained() < q <= |hist| ensures slots[q % size] == hist[q - 1] {
        if q <= n { ModDistinct(q, n + 1, size); }
      }
    }

    /** LogEvent, and LogEventNoLock when the caller already holds the mutex. */
    method LogEvent(event: Event) returns (s: nat)
      requires Valid()
      modifies this`head, this`tail, this`seqNo, this`hist, slots
      ensures Valid() && hist == old(hist) + [event.(seqNo := s)]
      ensures s == old(seqNo) && seqNo == s + 1
      ensures old(Numbered()) ==> Numbered()
    {
      s := seqNo;
      seqNo := seqNo + 1;
      LogAdd(event.(seqNo := s));
    }

    /** Nothing is retained exactly when head and tail are equal. */
    method IsEmpty() returns (empty: bool)
      requires Valid()
      ensures empty <==> Retained() == 0
    {
      if Retained() > 0 { ModDistinct(|hist| - Retained(), |hist|, size); }
      empty := head == tail;
    }

    /** How far back LogTail may go. */
    ghost function Oldest(maxSize: nat): nat
      reads this
    {
      if Retained() < maxSize then |hist| - Retained() else |hist| - maxSize
    }

    /** LogTail: the events from `earliest` on, newest first. */
    method LogTail(earliest: nat, maxSize: nat) returns (lt: Log?)
      requires Valid() && maxSize >= 1
      ensures lt == null <==> Retained() == 0
      ensures lt != null ==> fresh(lt) && fresh(lt.slots) && lt.Valid() && lt.size == maxSize
      ensures lt != null ==> lt.hist == Backwards(hist, |hist|, Oldest(maxSize), earliest)
    {
      ghost var n, lo, h := |hist|, Oldest(maxSize), hist;
      var empty := IsEmpty();
      if empty {
        return null;
      }
      lt := new Log(0, maxSize);
      var curr, count := head, 0;
      ghost var q := n;
      while slots[curr].seqNo >= earliest
        invariant lt.Valid() && lt.size == maxSize && fresh(lt) && fresh(lt.slots)
        invariant n - Retained() < q <= n && curr == q % size
        invariant count == n - q && count < maxSize
        invariant lt.hist + Backwards(h, q, lo, earliest) == Backwards(h, n, lo, earliest)
        decreases q
      {
        assert slots[curr] == h[q - 1];
        OneMore(lt.hist, h, q, lo, earliest);
        lt.LogAdd(slots[curr]);
        count := count + 1;
        q := q - 1;
        if count >= maxSize {
          break;
        }
        curr := StepBack(q, curr, size);
        if q > n - Retained() { ModDistinct(n - Retained(), q, size); }
        if curr == tail {
          break;
        }
      }
      assert Backwards(h, q, lo, earliest) == [];
    }
  }

  /** `curr - 1` on unsigned integers, wrapping to the end of the buffer. */
  method StepBack(ghost q: nat, curr: nat, size: nat) returns (next: nat)
    requires size >= 1 && curr == (q + 1) % size
    ensures next == q % size
  {
    ModShift(q, 1, size);
    next := if curr == 0 then size - 1 else curr - 1;
  }

  /** The buffer is full exactly when the next slot is the tail. */
  lemma TailMoves(n: nat, size: nat)
    requires size >= 1
    ensures var lo, lo' := n - RetainedOf(n, size), n + 1 - RetainedOf(n + 1, size);
      && (n % size + 1) % size == (n + 1) % size
      && if (n + 1) % size == lo % size then lo' % size == (lo % size + 1) % size else lo' % size == lo % size
  {
    var lo := n - RetainedOf(n, size);
    ModShift(n, 1, size);
    ModShift(lo, 1, size);
    if n < size - 1 {
      SmallModulo(n + 1, size);
      SmallModulo(lo, size);
    } else if n >= size {
      ModStep(lo, size);
    }
  }

  /** Events q, q - 1, ... down to but not including lo, while they are not too early. */
  ghost function Backwards(hist: seq<Event>, q: nat, lo: nat, earliest: nat): seq<Event>
    requires q <= |hist|
  {
    if q <= lo || hist[q - 1].seqNo < earliest then []
    else [hist[q - 1]] + Backwards(hist, q - 1, lo, earliest)
  }

  lemma OneMore(done: seq<Event>, hist: seq<Event>, q: nat, lo: nat, earliest: nat)
    requires lo < q <= |hist| && hist[q - 1].seqNo >= earliest
    ensures done + [hist[q - 1]] + Backwards(hist, q - 1, lo, earliest) == done + Backwards(hist, q, lo, earliest)
  {
  }

  /** On a log whose events carry their positions, LogTail gives exactly the retained
      events from `earliest` on, each once, in reverse. */
  lemma {:induction false} BackwardsIsReverse(hist: seq<Event>, q: nat, lo: nat, earliest: nat)
    requires lo <= q <= |hist|
    requires CarryPositions(hist)
    ensures var b := Backwards(hist, q, lo, earliest);
      && |b| == (if q < earliest then 0 else if earliest <= lo then q - lo else q - earliest + 1)
      && forall i | 0 <= i < |b| :: b[i] == hist[q - 1 - i] && b[i].seqNo == q - i
  {
    if q > lo && hist[q - 1].seqNo >= earliest {
      BackwardsIsReverse(hist, q - 1, lo, earliest);
    }
  }
}
