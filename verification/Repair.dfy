/**
 Repair: which events of the merged log depend on the elements of a woof that are to be
 repaired, and which of them the marking pass finds.  Event k of `evs` is the k-th retained
 event of the global log from the oldest on.
 */
module Repair {
  import opened EventLog

  type Id = (nat, nat)
  type Key = (nat, string, nat)

  /** KeyEventCause */
  function IdOf(e: Event): Id {
    (e.host, e.seqNo)
  }

  function CauseOf(e: Event): Id {
    (e.causeHost, e.causeSeqNo)
  }

  /** KeyReadFromCause */
  function KeyOf(e: Event): Key {
    (e.host, e.woofName, e.woofSeqNo)
  }

  predicate Writes(e: Event) {
    e.kind == TRIGGER || e.kind == APPEND
  }

  /** The elements to be repaired: some elements of one woof. */
  datatype Selection = Selection(host: nat, woof: string, seqNos: set<nat>)

  predicate Selected(e: Event, sel: Selection) {
    Writes(e) && e.host == sel.host && e.woofName == sel.woof && e.woofSeqNo in sel.seqNos
  }

  /** Event k reads what event j wrote. */
  ghost predicate ReadsFrom(evs: seq<Event>, k: int, j: int)
    requires 0 <= j < |evs| && 0 <= k < |evs|
  {
    evs[k].kind == READ && Writes(evs[j]) && KeyOf(evs[j]) == KeyOf(evs[k])
  }

  /** A record that stands for something outside the log: its own cause is not in the log,
      and nobody reads the element that it names.  The placeholders that GLogEvent makes are
      such records. */
  ghost predicate IsOutside(evs: seq<Event>, j: int)
    requires 0 <= j < |evs|
  {
    && (forall i | 0 <= i < |evs| :: IdOf(evs[i]) != CauseOf(evs[j]))
    && (forall k | 0 <= k < |evs| && evs[k].kind == READ :: KeyOf(evs[k]) != KeyOf(evs[j]))
  }

  /** Ids are unique; causes precede their effects and are writes or stand for something
      outside; an element is written before it is read. */
  ghost predicate LogOk(evs: seq<Event>) {
    && (forall j, k | 0 <= j < |evs| && 0 <= k < |evs| && IdOf(evs[j]) == IdOf(evs[k]) :: j == k)
    && (forall j, k | 0 <= j < |evs| && 0 <= k < |evs| && IdOf(evs[j]) == CauseOf(evs[k]) ::
          j < k && (Writes(evs[j]) || IsOutside(evs, j)))
    && (forall j, k | 0 <= j < |evs| && 0 <= k < |evs| && ReadsFrom(evs, k, j) :: j < k)
  }

  // ---------- Ancestors ----------

  /** The last event before i with this id, or -1. */
  ghost function Find(evs: seq<Event>, id: Id, i: int): (j: int)
    requires i <= |evs|
    ensures -1 <= j < |evs| && (j >= 0 ==> j < i && IdOf(evs[j]) == id)
  {
    if i <= 0 then -1 else if IdOf(evs[i - 1]) == id then i - 1 else Find(evs, id, i - 1)
  }

  /** The cause of event k, or -1 if it is not in the log. */
  ghost function Parent(evs: seq<Event>, k: int): (j: int)
    requires 0 <= k < |evs|
    ensures -1 <= j < k
  {
    Find(evs, CauseOf(evs[k]), k)
  }

  /** The first of the chain of causes that leads to event k. */
  ghost function Root(evs: seq<Event>, k: int): (r: int)
    requires 0 <= k < |evs|
    ensures 0 <= r <= k
  {
    if Parent(evs, k) == -1 then k else Root(evs, Parent(evs, k))
  }

  /** The first event of the chain that leads to event k: a record with sequence number 0, such
      as the placeholder of an append outside any handler, only stands for its cause. */
  ghost function Start(evs: seq<Event>, k: int): (r: int)
    requires 0 <= k < |evs|
    ensures 0 <= r <= k
  {
    var p := Parent(evs, k);
    if p == -1 || evs[p].seqNo == 0 then k else Start(evs, p)
  }

  /** The last event before i with sequence number 0, or -1. */
  ghost function LastZero(evs: seq<Event>, i: int): (z: int)
    requires i <= |evs|
    ensures -1 <= z && (z >= 0 ==> z < i && evs[z].seqNo == 0)
    ensures forall k | z < k < i :: 0 <= k && evs[k].seqNo != 0
  {
    if i <= 0 then -1 else if evs[i - 1].seqNo == 0 then i - 1 else LastZero(evs, i - 1)
  }

  /** The first of the chain that the scan for the root of event k gets to: it breaks off at
      an event with sequence number 0. */
  ghost function Top(evs: seq<Event>, k: int): (r: int)
    requires 0 <= k < |evs|
    ensures 0 <= r <= k
  {
    if Parent(evs, k) <= LastZero(evs, k) then k else Top(evs, Parent(evs, k))
  }

  /** One of the events that led to event k is selected. */
  ghost predicate Below(evs: seq<Event>, sel: Selection, k: int)
    requires 0 <= k < |evs|
  {
    var p := Parent(evs, k);
    p != -1 && (Selected(evs[p], sel) || Below(evs, sel, p))
  }

  lemma {:induction false} FindFirst(evs: seq<Event>, j: int, i: int)
    requires LogOk(evs) && 0 <= j < i <= |evs|
    ensures Find(evs, IdOf(evs[j]), i) == j
  {
    if IdOf(evs[i - 1]) != IdOf(evs[j]) { FindFirst(evs, j, i - 1); }
  }

  /** The parent is the one event with the id of the cause. */
  lemma ParentIs(evs: seq<Event>, j: int, k: int)
    requires LogOk(evs) && 0 <= j < |evs| && 0 <= k < |evs| && IdOf(evs[j]) == CauseOf(evs[k])
    ensures Parent(evs, k) == j
  {
    FindFirst(evs, j, k);
  }

  /** A cause writes, or stands for something outside and has no cause itself. */
  lemma ParentWrites(evs: seq<Event>, k: int)
    requires LogOk(evs) && 0 <= k < |evs| && Parent(evs, k) != -1
    ensures var q := Parent(evs, k);
      CauseOf(evs[k]) == IdOf(evs[q]) && (Writes(evs[q]) || (IsOutside(evs, q) && Parent(evs, q) == -1))
  {
  }

  /** The scan from where it has ended gets no further. */
  lemma {:induction false} TopOfTop(evs: seq<Event>, k: int)
    requires 0 <= k < |evs|
    ensures Top(evs, Top(evs, k)) == Top(evs, k)
  {
    if Parent(evs, k) > LastZero(evs, k) { TopOfTop(evs, Parent(evs, k)); }
  }

  /** Where the scan ends is another event or a cause. */
  lemma {:induction false} TopIsCause(evs: seq<Event>, k: int)
    requires LogOk(evs) && 0 <= k < |evs| && Top(evs, k) != k
    ensures Writes(evs[Top(evs, k)]) || IsOutside(evs, Top(evs, k))
  {
    ParentWrites(evs, k);
    if Top(evs, Parent(evs, k)) != Parent(evs, k) { TopIsCause(evs, Parent(evs, k)); }
  }

  /** The scan finds the root exactly if no event with sequence number 0 lies on its way. */
  lemma {:induction false} TopIsRootIff(evs: seq<Event>, k: int)
    requires 0 <= k < |evs|
    ensures Top(evs, k) == Root(evs, k) <==> forall i | Root(evs, k) <= i < k :: evs[i].seqNo != 0
  {
    var p := Parent(evs, k);
    if p != -1 {
      if p > LastZero(evs, k) {
        TopIsRootIff(evs, p);
      } else {
        assert Root(evs, k) <= p <= LastZero(evs, k) < k;
      }
    }
  }

  /** The scan finds the first event of the chain exactly if no record with sequence number 0
      lies on its way. */
  lemma {:induction false} TopIsStartIff(evs: seq<Event>, k: int)
    requires 0 <= k < |evs|
    ensures Top(evs, k) == Start(evs, k) <==> forall i | Start(evs, k) <= i < k :: evs[i].seqNo != 0
  {
    var p := Parent(evs, k);
    if p != -1 && evs[p].seqNo != 0 {
      if p > LastZero(evs, k) {
        TopIsStartIff(evs, p);
      } else {
        assert Start(evs, k) <= p <= LastZero(evs, k) < k;
      }
    }
  }

  /** GLogFindRootEvent: one scan back finds the whole chain, as causes precede effects,
      unless it meets an event with sequence number 0. */
  method FindRootEvent(evs: seq<Event>, ndx: nat) returns (first: nat)
    requires ndx < |evs|
    ensures first == Top(evs, ndx)
    ensures first == Start(evs, ndx) <==> forall k | Start(evs, ndx) <= k < ndx :: evs[k].seqNo != 0
    ensures first == Root(evs, ndx) <==> forall k | Root(evs, ndx) <= k < ndx :: evs[k].seqNo != 0
  {
    first := ndx;
    TopIsStartIff(evs, ndx);
    TopIsRootIff(evs, ndx);
    var cause := CauseOf(evs[ndx]);
    var curr := ndx;
    while curr > 0
      invariant 0 <= curr <= first <= ndx && cause == CauseOf(evs[first])
      invariant Top(evs, first) == Top(evs, ndx)
      invariant Find(evs, cause, curr) == Parent(evs, first) && LastZero(evs, curr) == LastZero(evs, first)
    {
      curr := curr - 1;
      if evs[curr].seqNo == 0 {
        break;
      } else if IdOf(evs[curr]) == cause {
        cause := CauseOf(evs[curr]);
        first := curr;
      }
    }
  }

  /** The log that GLogEvent makes of a trigger of host 1, one of host 2, and a read by the
      handler of the first; both triggers have causes outside the log.  The scan for the
      root of the read breaks off at the placeholder of host 2. */
  lemma ScanBreaksOff(evs: seq<Event>)
    requires evs == [Event(UNKNOWN, 1, 0, 0, 0, "", 0), Event(TRIGGER, 1, 1, 1, 0, "a", 1),
                     Event(UNKNOWN, 2, 0, 0, 0, "", 0), Event(TRIGGER, 2, 1, 2, 0, "b", 1),
                     Event(READ, 1, 2, 1, 1, "a", 1)]
    ensures LogOk(evs) && Root(evs, 4) == 0 && Start(evs, 4) == 1 && Top(evs, 4) == 4
  {
    assert KeyOf(evs[0]) != KeyOf(evs[4]) && KeyOf(evs[2]) != KeyOf(evs[4]) by { assert |""| != |"a"|; }
    assert KeyOf(evs[3]) != KeyOf(evs[4]);
    ParentIs(evs, 0, 1);
    ParentIs(evs, 1, 4);
    assert LastZero(evs, 4) == 2;
  }

  // ---------- What the pass is to find ----------

  /** A set of events that contains the selected events, with every event its effects, and
      with every write the first events of the chains of its readers. */
  ghost predicate Closed(evs: seq<Event>, sel: Selection, x: set<int>) {
    && (forall k {:trigger Selected(evs[k], sel)} | 0 <= k < |evs| && Selected(evs[k], sel) :: k in x)
    && (forall k {:trigger Parent(evs, k)} | 0 <= k < |evs| && Parent(evs, k) in x :: k in x)
    && (forall j, k | 0 <= j < |evs| && 0 <= k < |evs| && ReadsFrom(evs, k, j) && j in x :: Start(evs, k) in x)
  }

  ghost predicate LeastClosed(evs: seq<Event>, sel: Selection, x: set<int>) {
    Closed(evs, sel, x) && forall y: set<int> | Closed(evs, sel, y) :: x <= y
  }

  // ---------- What it does find ----------

  /** Two differences: a reader below a selected event does not count, and of a reader that
      does it is the top that is added. */
  ghost predicate ClosedAbove(evs: seq<Event>, sel: Selection, x: set<int>) {
    && (forall k {:trigger Selected(evs[k], sel)} | 0 <= k < |evs| && Selected(evs[k], sel) :: k in x)
    && (forall k {:trigger Parent(evs, k)} | 0 <= k < |evs| && Parent(evs, k) in x :: k in x)
    && (forall j, k | 0 <= j < |evs| && 0 <= k < |evs| && ReadsFrom(evs, k, j) && j in x && !Below(evs, sel, k) ::
          Top(evs, k) in x)
  }

  ghost predicate LeastClosedAbove(evs: seq<Event>, sel: Selection, x: set<int>) {
    ClosedAbove(evs, sel, x) && forall y: set<int> | ClosedAbove(evs, sel, y) :: x <= y
  }

  /** Event k is event a or one of its effects. */
  ghost predicate AtOrBelow(evs: seq<Event>, a: int, k: int)
    requires 0 <= k < |evs|
  {
    a == k || (Parent(evs, k) != -1 && AtOrBelow(evs, a, Parent(evs, k)))
  }

  /** Something written at or below event a is read, not below a selected event, by a reader
      whose top is t. */
  ghost predicate Leads(evs: seq<Event>, sel: Selection, a: int, t: int) {
    exists j, r :: 0 <= j < |evs| && 0 <= r < |evs|
                   && ReadsFrom(evs, r, j) && AtOrBelow(evs, a, j) && !Below(evs, sel, r) && Top(evs, r) == t
  }

  /** A path from a selected event over tops of readers. */
  ghost predicate IsPath(evs: seq<Event>, sel: Selection, path: seq<int>) {
    && path != []
    && (forall i | 0 <= i < |path| :: 0 <= path[i] < |evs|)
    && Selected(evs[path[0]], sel)
    && (forall i | 0 < i < |path| :: Leads(evs, sel, path[i - 1], path[i]))
  }

  /** Event a is selected, or a top that a path leads to. */
  ghost predicate Reached(evs: seq<Event>, sel: Selection, a: int) {
    exists path :: IsPath(evs, sel, path) && path[|path| - 1] == a
  }

  ghost predicate IsFound(evs: seq<Event>, sel: Selection, k: int)
    requires 0 <= k < |evs|
  {
    exists a :: Reached(evs, sel, a) && AtOrBelow(evs, a, k)
  }

  /** What can be reached over paths, with all its effects. */
  ghost function Found(evs: seq<Event>, sel: Selection): set<int> {
    set k | 0 <= k < |evs| && IsFound(evs, sel, k)
  }

  lemma ReachMore(evs: seq<Event>, sel: Selection, a: int, t: int)
    requires Reached(evs, sel, a) && Leads(evs, sel, a, t) && 0 <= t < |evs|
    ensures Reached(evs, sel, t)
  {
    var path :| IsPath(evs, sel, path) && path[|path| - 1] == a;
    var longer := path + [t];
    forall i | 0 < i < |longer| ensures Leads(evs, sel, longer[i - 1], longer[i]) {
      if i < |path| { assert Leads(evs, sel, path[i - 1], path[i]); }
    }
    assert IsPath(evs, sel, longer);
  }

  lemma FoundIsClosed(evs: seq<Event>, sel: Selection)
    ensures ClosedAbove(evs, sel, Found(evs, sel))
  {
    var x := Found(evs, sel);
    forall k | 0 <= k < |evs| && Selected(evs[k], sel) ensures k in x {
      assert IsPath(evs, sel, [k]);
      assert Reached(evs, sel, k) && AtOrBelow(evs, k, k);
    }
    forall k | 0 <= k < |evs| && Parent(evs, k) in x ensures k in x {
      var a :| Reached(evs, sel, a) && AtOrBelow(evs, a, Parent(evs, k));
      assert AtOrBelow(evs, a, k);
    }
    forall j, k | 0 <= j < |evs| && 0 <= k < |evs| && ReadsFrom(evs, k, j) && j in x && !Below(evs, sel, k)
      ensures Top(evs, k) in x
    {
      var a :| Reached(evs, sel, a) && AtOrBelow(evs, a, j);
      assert Leads(evs, sel, a, Top(evs, k));
      ReachMore(evs, sel, a, Top(evs, k));
      assert AtOrBelow(evs, Top(evs, k), Top(evs, k));
    }
  }

  lemma {:induction false} EffectsIn(evs: seq<Event>, sel: Selection, y: set<int>, a: int, k: int)
    requires ClosedAbove(evs, sel, y) && 0 <= k < |evs| && a in y && AtOrBelow(evs, a, k)
    ensures k in y
  {
    if a != k { EffectsIn(evs, sel, y, a, Parent(evs, k)); }
  }

  lemma {:induction false} PathIn(evs: seq<Event>, sel: Selection, y: set<int>, path: seq<int>)
    requires ClosedAbove(evs, sel, y) && IsPath(evs, sel, path)
    ensures path[|path| - 1] in y
  {
    if |path| == 1 {
      assert Selected(evs[path[0]], sel);
    } else {
      var a, t := path[|path| - 2], path[|path| - 1];
      PathIn(evs, sel, y, path[..|path| - 1]);
      assert Leads(evs, sel, a, t);
      var j, r :| 0 <= j < |evs| && 0 <= r < |evs|
                  && ReadsFrom(evs, r, j) && AtOrBelow(evs, a, j) && !Below(evs, sel, r) && Top(evs, r) == t;
      EffectsIn(evs, sel, y, a, j);
    }
  }

  /** The least set closed in this way is the set of what can be reached. */
  lemma FoundIsLeast(evs: seq<Event>, sel: Selection, x: set<int>)
    ensures LeastClosedAbove(evs, sel, x) <==> x == Found(evs, sel)
  {
    FoundIsClosed(evs, sel);
    forall y: set<int> | ClosedAbove(evs, sel, y) ensures Found(evs, sel) <= y {
      forall k | k in Found(evs, sel) ensures k in y {
        var a :| Reached(evs, sel, a) && AtOrBelow(evs, a, k);
        var path :| IsPath(evs, sel, path) && path[|path| - 1] == a;
        PathIn(evs, sel, y, path);
        EffectsIn(evs, sel, y, a, k);
      }
    }
  }

  // ---------- When the two are the same ----------

  /** A record with sequence number 0 lies on the way of the scan from event r. */
  ghost predicate BreaksOff(evs: seq<Event>, r: int)
    requires 0 <= r < |evs|
  {
    exists k :: Start(evs, r) <= k < r && evs[k].seqNo == 0
  }

  /** The scan from reader r does not get to the first event of its chain, or is not made. */
  ghost predicate Overlooked(evs: seq<Event>, sel: Selection, r: int)
    requires 0 <= r < |evs|
  {
    Below(evs, sel, r) || BreaksOff(evs, r)
  }

  /** Something at or below what can be reached is read by r. */
  ghost predicate ReadsFound(evs: seq<Event>, sel: Selection, r: int)
    requires 0 <= r < |evs|
  {
    exists j :: 0 <= j < |evs| && ReadsFrom(evs, r, j) && IsFound(evs, sel, j)
  }

  /** The first event of the chain of every such reader is at or below what another path
      reaches. */
  ghost predicate NoneMissed(evs: seq<Event>, sel: Selection) {
    forall r | 0 <= r < |evs| && ReadsFound(evs, sel, r) && Overlooked(evs, sel, r) ::
      IsFound(evs, sel, Start(evs, r))
  }

  lemma {:induction false} StartIsAbove(evs: seq<Event>, k: int)
    requires 0 <= k < |evs|
    ensures AtOrBelow(evs, Start(evs, k), k) && AtOrBelow(evs, Start(evs, k), Top(evs, k))
  {
    if Start(evs, k) != k { StartIsAbove(evs, Parent(evs, k)); }
  }

  lemma ClosedIsClosedAbove(evs: seq<Event>, sel: Selection, y: set<int>)
    requires Closed(evs, sel, y)
    ensures ClosedAbove(evs, sel, y)
  {
    forall j, k | 0 <= j < |evs| && 0 <= k < |evs| && ReadsFrom(evs, k, j) && j in y
      ensures Top(evs, k) in y
    {
      StartIsAbove(evs, k);
      EffectsClosed(evs, sel, y, Start(evs, k), Top(evs, k));
    }
  }

  lemma {:induction false} EffectsClosed(evs: seq<Event>, sel: Selection, y: set<int>, a: int, k: int)
    requires Closed(evs, sel, y) && 0 <= k < |evs| && a in y && AtOrBelow(evs, a, k)
    ensures k in y
  {
    if a != k { EffectsClosed(evs, sel, y, a, Parent(evs, k)); }
  }

  /** What the pass finds is the least set closed under cause, read-from and start-of-reader
      exactly if the first events of the chains of the overlooked readers of found elements are
      found by another way.  What is found is defined by paths in the log and the selection
      alone. */
  lemma FoundIsLeastClosedIff(evs: seq<Event>, sel: Selection)
    ensures LeastClosed(evs, sel, Found(evs, sel)) <==> NoneMissed(evs, sel)
  {
    FoundIsLeast(evs, sel, Found(evs, sel));
    forall y: set<int> | Closed(evs, sel, y) ensures Found(evs, sel) <= y { ClosedIsClosedAbove(evs, sel, y); }
    if NoneMissed(evs, sel) {
      AllStartsFound(evs, sel);
    } else {
      var r :| 0 <= r < |evs| && ReadsFound(evs, sel, r) && Overlooked(evs, sel, r)
               && !IsFound(evs, sel, Start(evs, r));
      var j :| 0 <= j < |evs| && ReadsFrom(evs, r, j) && IsFound(evs, sel, j);
      assert j in Found(evs, sel) && Start(evs, r) !in Found(evs, sel);
    }
  }

  lemma AllStartsFound(evs: seq<Event>, sel: Selection)
    requires NoneMissed(evs, sel)
    ensures Closed(evs, sel, Found(evs, sel))
  {
    FoundIsClosed(evs, sel);
    forall j, k | 0 <= j < |evs| && 0 <= k < |evs| && ReadsFrom(evs, k, j) && j in Found(evs, sel)
      ensures Start(evs, k) in Found(evs, sel)
    {
      assert ReadsFound(evs, sel, k);
      TopIsStartIff(evs, k);
    }
  }

  // ---------- The intended use ----------

  /** Every selected event is the first of its chain: an append outside any handler. */
  ghost predicate StartsSelected(evs: seq<Event>, sel: Selection) {
    forall k | 0 <= k < |evs| && Selected(evs[k], sel) :: Start(evs, k) == k
  }

  /** The scan from every reader gets to the first event of its chain. */
  ghost predicate ScansReach(evs: seq<Event>) {
    forall r | 0 <= r < |evs| && evs[r].kind == READ :: !BreaksOff(evs, r)
  }

  lemma {:induction false} StartBelowSelected(evs: seq<Event>, sel: Selection, k: int) returns (s: int)
    requires StartsSelected(evs, sel) && 0 <= k < |evs| && Below(evs, sel, k)
    ensures 0 <= s < |evs| && Selected(evs[s], sel) && AtOrBelow(evs, s, Start(evs, k))
  {
    var p := Parent(evs, k);
    if Selected(evs[p], sel) {
      s := p;
      assert Start(evs, p) == p;
    } else {
      s := StartBelowSelected(evs, sel, p);
      BelowToo(evs, p, s);
    }
  }

  /** An event is below whatever the first event of its chain is below. */
  lemma {:induction false} BelowToo(evs: seq<Event>, p: int, s: int)
    requires 0 <= p < |evs| && AtOrBelow(evs, s, Start(evs, p))
    ensures AtOrBelow(evs, s, p)
  {
    if Start(evs, p) != p { BelowToo(evs, Parent(evs, p), s); }
  }

  /** The pass finds the least closed set if only first events of chains are selected and no
      record with sequence number 0 lies on the way of the scan from a reader. */
  lemma StartsSelectedSuffice(evs: seq<Event>, sel: Selection)
    requires StartsSelected(evs, sel) && ScansReach(evs)
    ensures LeastClosed(evs, sel, Found(evs, sel))
  {
    forall r | 0 <= r < |evs| && ReadsFound(evs, sel, r) && Overlooked(evs, sel, r)
      ensures IsFound(evs, sel, Start(evs, r))
    {
      var s := StartBelowSelected(evs, sel, r);
      assert IsPath(evs, sel, [s]);
      assert Reached(evs, sel, s);
    }
    FoundIsLeastClosedIff(evs, sel);
  }

  /** An append outside any handler behind its placeholder, and a read by its handler: the
      placeholder is not part of what is to be found. */
  lemma PlaceholderIsNoCause(evs: seq<Event>, sel: Selection)
    requires evs == [Event(UNKNOWN, 1, 0, 0, 0, "", 0), Event(TRIGGER, 1, 1, 1, 0, "a", 1),
                     Event(READ, 1, 2, 1, 1, "a", 1)]
    requires sel == Selection(1, "a", {1})
    ensures LogOk(evs) && LeastClosed(evs, sel, {1, 2})
  {
    assert KeyOf(evs[0]) != KeyOf(evs[2]) by { assert |""| != |"a"|; }
    ChainOfTwo(evs, sel);
    assert Start(evs, 1) == 1 && Start(evs, 2) == 1;
    StartsSelectedSuffice(evs, sel);
  }

  /** Of three events, each the cause of the next, only the second is selected. */
  lemma ChainOfTwo(evs: seq<Event>, sel: Selection)
    requires |evs| == 3 && LogOk(evs) && IdOf(evs[0]) == CauseOf(evs[1]) && IdOf(evs[1]) == CauseOf(evs[2])
    requires !Selected(evs[0], sel) && Selected(evs[1], sel) && !Selected(evs[2], sel)
    requires forall r, j | 0 <= r < 3 && 0 <= j < 3 && ReadsFrom(evs, r, j) :: r == 2 && j == 1
    ensures Parent(evs, 0) == -1 && Parent(evs, 1) == 0 && Parent(evs, 2) == 1
    ensures Found(evs, sel) == {1, 2}
  {
    ParentIs(evs, 0, 1);
    ParentIs(evs, 1, 2);
    forall y: set<int> | ClosedAbove(evs, sel, y) ensures {1, 2} <= y {}
    FoundIsLeast(evs, sel, {1, 2});
  }

  /** A trigger, a second one by its handler, and a read of the second element by the handler
      of that.  If the second is selected, its reader is below it, so that the first trigger,
      with which the chain of the reader starts, is not found. */
  lemma RootCanBeMissed(evs: seq<Event>, sel: Selection)
    requires evs == [Event(TRIGGER, 1, 1, 0, 0, "a", 1), Event(TRIGGER, 1, 2, 1, 1, "w", 1),
                     Event(READ, 1, 3, 1, 2, "w", 1)]
    requires sel == Selection(1, "w", {1})
    ensures LogOk(evs) && Found(evs, sel) == {1, 2} && !Closed(evs, sel, {1, 2})
  {
    assert KeyOf(evs[0]) != KeyOf(evs[2]) by { assert "a"[0] != "w"[0]; }
    assert !Selected(evs[0], sel) by { assert "a"[0] != "w"[0]; }
    ChainOfTwo(evs, sel);
    assert Start(evs, 1) == 0 && Start(evs, 2) == 0;
    assert ReadsFrom(evs, 2, 1);
  }
}
