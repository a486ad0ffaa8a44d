/**
 The marking pass of the repair.  It runs over the log from the oldest to the newest event,
 sets the flags MARKED and ROOT in place, and starts again behind the top of a reader
 whenever a reader turns out to be affected.

 The `type` field of event k is the kind of evs[k] together with the flags in flags[k]:
 comparing `type` with READ, TRIGGER or APPEND therefore also tests that no flag is set.
 */
module RepairPass {
  import opened Counting
  import opened EventLog
  import opened Repair
  import opened RepairFields

  datatype Flags = Flags(marked: bool, root: bool)

  const UNFLAGGED := Flags(false, false)

  // ---------- The state of the pass ----------

  /** The flagged events, and those whose keys are in the two trees.  Events before `curr`
      have been dealt with since the last restart, events before `seen` at least once. */
  datatype Pass = Pass(marked: set<int>, roots: set<int>, causes: set<int>, curr: int, seen: int)
  {
    ghost function Flagged(): set<int> {
      marked + roots
    }
  }

  ghost predicate HasWriter(evs: seq<Event>, k: int, x: set<int>)
    requires 0 <= k < |evs|
  {
    exists j :: 0 <= j < |evs| && ReadsFrom(evs, k, j) && j in x
  }

  ghost predicate Shape(evs: seq<Event>, p: Pass) {
    && 0 <= p.curr <= p.seen <= |evs|
    && p.roots <= p.causes <= p.Flagged()
    && (forall k | k in p.Flagged() :: 0 <= k < p.seen)
    && (forall k | k in p.Flagged() && Writes(evs[k]) :: k in p.causes)
  }

  /** The scan from some reader ends at k. */
  ghost predicate IsTop(evs: seq<Event>, k: int) {
    exists r :: 0 <= r < |evs| && evs[r].kind == READ && Top(evs, r) == k
  }

  /** Why events are flagged. */
  ghost predicate Reasons(evs: seq<Event>, sel: Selection, p: Pass)
    requires Shape(evs, p)
  {
    && (forall k {:trigger Parent(evs, k)} | k in p.marked :: Parent(evs, k) in p.causes)
    && (forall k {:trigger Top(evs, k)} | k in p.roots :: Selected(evs[k], sel) || Top(evs, k) == k)
  }

  /** Only selected events and tops of readers are in x. */
  ghost predicate TopsOnly(evs: seq<Event>, sel: Selection, x: set<int>) {
    forall k {:trigger IsTop(evs, k)} | k in x :: 0 <= k < |evs| && (Selected(evs[k], sel) || IsTop(evs, k))
  }

  /** Nothing is in x that has no need to be. */
  ghost predicate Sound(evs: seq<Event>, sel: Selection, x: set<int>) {
    forall y: set<int> | ClosedAbove(evs, sel, y) :: x <= y
  }

  ghost predicate EffectsDone(evs: seq<Event>, sel: Selection, p: Pass)
    requires Shape(evs, p)
  {
    && (forall k {:trigger Selected(evs[k], sel)} | 0 <= k < p.seen && Selected(evs[k], sel) :: k in p.roots)
    && (forall k {:trigger Parent(evs, k)} | 0 <= k < p.curr && Parent(evs, k) in p.causes :: k in p.marked)
  }

  ghost predicate ReadersDone(evs: seq<Event>, sel: Selection, p: Pass)
    requires Shape(evs, p)
  {
    forall k {:trigger HasWriter(evs, k, p.causes)} |
      0 <= k < p.curr && HasWriter(evs, k, p.causes) && !Below(evs, sel, k) :: Top(evs, k) in p.Flagged()
  }

  ghost predicate Inv(evs: seq<Event>, sel: Selection, p: Pass) {
    && Shape(evs, p) && Reasons(evs, sel, p) && TopsOnly(evs, sel, p.roots) && Sound(evs, sel, p.Flagged())
    && EffectsDone(evs, sel, p) && ReadersDone(evs, sel, p)
  }

  /** The top of a flagged event that is not below a selected one is flagged. */
  lemma {:induction false} TopIsFlagged(evs: seq<Event>, sel: Selection, p: Pass, k: int)
    requires Shape(evs, p) && Reasons(evs, sel, p)
    requires k in p.Flagged() && !Selected(evs[k], sel) && !Below(evs, sel, k)
    ensures Top(evs, k) in p.Flagged()
  {
    if Top(evs, k) != k { TopIsFlagged(evs, sel, p, Parent(evs, k)); }
  }

  /** Up to `curr`, everything below a cause has been found. */
  lemma {:induction false} BelowIsFound(evs: seq<Event>, sel: Selection, p: Pass, k: int)
    requires LogOk(evs) && Shape(evs, p) && EffectsDone(evs, sel, p) && 0 <= k <= p.curr && k < |evs|
    requires Below(evs, sel, k) || (Top(evs, k) in p.causes && Top(evs, k) != k)
    ensures Parent(evs, k) in p.causes
  {
    var q := Parent(evs, k);
    ParentWrites(evs, k);
    if q !in p.causes { BelowIsFound(evs, sel, p, q); }
  }

  // ---------- Its steps ----------

  /** The current event is flagged if it is selected and has no flag yet. */
  ghost function Select(evs: seq<Event>, sel: Selection, p: Pass): Pass
    requires 0 <= p.curr < |evs|
  {
    var add := if Selected(evs[p.curr], sel) && p.curr !in p.Flagged() then {p.curr} else {};
    p.(roots := p.roots + add, causes := p.causes + add, seen := if p.seen == p.curr then p.curr + 1 else p.seen)
  }

  /** The current event is flagged if its cause is affected. */
  ghost function Mark(evs: seq<Event>, p: Pass): Pass
    requires 0 <= p.curr < |evs|
  {
    if Parent(evs, p.curr) in p.causes then
      p.(marked := p.marked + {p.curr}, causes := p.causes + if Writes(evs[p.curr]) then {p.curr} else {})
    else p
  }

  /** The current event is an affected reader: its top is flagged. */
  ghost function Restart(p: Pass, top: int): Pass {
    p.(roots := p.roots + {top}, causes := p.causes + {top}, curr := top + 1)
  }

  lemma SelectInv(evs: seq<Event>, sel: Selection, p: Pass)
    requires LogOk(evs) && Inv(evs, sel, p) && p.curr < |evs|
    ensures Inv(evs, sel, Select(evs, sel, p))
  {
    var p' := Select(evs, sel, p);
    ReadersKept(evs, sel, p, p', p.curr);
  }

  lemma MarkInv(evs: seq<Event>, sel: Selection, p: Pass)
    requires LogOk(evs) && Inv(evs, sel, p) && p.curr < p.seen
    ensures Inv(evs, sel, Mark(evs, p))
  {
    var p' := Mark(evs, p);
    MarkKeeps(evs, sel, p);
    ReadersKept(evs, sel, p, p', p.curr);
    if p' != p { EffectIsSound(evs, sel, p.Flagged(), p.curr, p'.Flagged()); }
  }

  lemma MarkKeeps(evs: seq<Event>, sel: Selection, p: Pass)
    requires Shape(evs, p) && Reasons(evs, sel, p) && EffectsDone(evs, sel, p) && p.curr < p.seen
    ensures var p' := Mark(evs, p); Shape(evs, p') && Reasons(evs, sel, p') && EffectsDone(evs, sel, p')
  {
  }

  lemma EffectIsSound(evs: seq<Event>, sel: Selection, x: set<int>, k: int, x': set<int>)
    requires Sound(evs, sel, x) && 0 <= k < |evs| && Parent(evs, k) in x && x' <= x + {k}
    ensures Sound(evs, sel, x')
  {
    forall y: set<int> | ClosedAbove(evs, sel, y) ensures x' <= y {
      assert x <= y;
    }
  }

  lemma TopIsSound(evs: seq<Event>, sel: Selection, x: set<int>, k: int, x': set<int>)
    requires Sound(evs, sel, x) && 0 <= k < |evs| && HasWriter(evs, k, x) && !Below(evs, sel, k)
    requires x' <= x + {Top(evs, k)}
    ensures Sound(evs, sel, x')
  {
    var j :| 0 <= j < |evs| && ReadsFrom(evs, k, j) && j in x;
    forall y: set<int> | ClosedAbove(evs, sel, y) ensures x' <= y {
      assert x <= y;
    }
  }

  /** A new cause at position c has no readers up to c. */
  lemma ReadersKept(evs: seq<Event>, sel: Selection, p: Pass, p': Pass, c: int)
    requires LogOk(evs) && Shape(evs, p) && Shape(evs, p') && ReadersDone(evs, sel, p)
    requires 0 <= c < |evs| && p'.causes <= p.causes + {c} && p.Flagged() <= p'.Flagged()
    requires p'.curr <= c + 1 && (p'.curr <= p.curr || (c == p.curr && Top(evs, c) in p'.Flagged()))
    ensures ReadersDone(evs, sel, p')
  {
    forall k | 0 <= k < p'.curr && HasWriter(evs, k, p'.causes) && !Below(evs, sel, k)
      ensures Top(evs, k) in p'.Flagged()
    {
      var j :| 0 <= j < |evs| && ReadsFrom(evs, k, j) && j in p'.causes;
      assert HasWriter(evs, k, p.causes);
    }
  }

  lemma RestartInv(evs: seq<Event>, sel: Selection, p: Pass)
    requires LogOk(evs) && Inv(evs, sel, p) && p.curr < p.seen
    requires p.curr !in p.Flagged() && Parent(evs, p.curr) !in p.causes && HasWriter(evs, p.curr, p.causes)
    requires evs[p.curr].kind == READ
    ensures Top(evs, p.curr) !in p.causes
    ensures Inv(evs, sel, Restart(p, Top(evs, p.curr)))
  {
    var top := Top(evs, p.curr);
    var p' := Restart(p, top);
    if Below(evs, sel, p.curr) || (top in p.causes && top != p.curr) { BelowIsFound(evs, sel, p, p.curr); }
    TopOfTop(evs, p.curr);
    RestartKeeps(evs, sel, p, top);
    ReadersKept(evs, sel, p, p', top);
    assert IsTop(evs, top);
    assert HasWriter(evs, p.curr, p.Flagged());
    TopIsSound(evs, sel, p.Flagged(), p.curr, p'.Flagged());
  }

  lemma RestartKeeps(evs: seq<Event>, sel: Selection, p: Pass, top: int)
    requires Shape(evs, p) && Reasons(evs, sel, p) && EffectsDone(evs, sel, p) && p.curr < p.seen
    requires 0 <= top <= p.curr && Top(evs, top) == top && Parent(evs, p.curr) !in p.causes
    ensures var p' := Restart(p, top); Shape(evs, p') && Reasons(evs, sel, p') && EffectsDone(evs, sel, p')
  {
  }

  lemma AdvanceInv(evs: seq<Event>, sel: Selection, p: Pass)
    requires LogOk(evs) && Inv(evs, sel, p) && p.curr < p.seen
    requires Parent(evs, p.curr) in p.causes ==> p.curr in p.marked
    requires p.curr in p.Flagged() || !HasWriter(evs, p.curr, p.causes)
    ensures Inv(evs, sel, p.(curr := p.curr + 1))
  {
    ReadersAdvance(evs, sel, p);
  }

  lemma ReadersAdvance(evs: seq<Event>, sel: Selection, p: Pass)
    requires Shape(evs, p) && Reasons(evs, sel, p) && ReadersDone(evs, sel, p) && p.curr < p.seen
    requires p.curr in p.Flagged() || !HasWriter(evs, p.curr, p.causes)
    ensures ReadersDone(evs, sel, p.(curr := p.curr + 1))
  {
    if HasWriter(evs, p.curr, p.causes) && !Below(evs, sel, p.curr) {
      TopIsFlagged(evs, sel, p, p.curr);
    }
  }

  /** At the end, what is flagged is what can be reached, and the two flags tell why. */
  lemma Finished(evs: seq<Event>, sel: Selection, p: Pass)
    requires LogOk(evs) && Inv(evs, sel, p) && p.curr == |evs|
    ensures p.Flagged() == Found(evs, sel)
    ensures forall k | 0 <= k < |evs| :: k in p.marked <==> Parent(evs, k) in p.Flagged()
    ensures forall k | 0 <= k < |evs| ::
              && (Selected(evs[k], sel) || (k in p.Flagged() && Parent(evs, k) !in p.Flagged()) ==> k in p.roots)
              && (k in p.roots ==> Selected(evs[k], sel) || (k in p.Flagged() && Top(evs, k) == k))
  {
    forall k | 0 <= k < |evs| && Parent(evs, k) in p.Flagged() ensures Parent(evs, k) in p.causes {
      ParentWrites(evs, k);
    }
    forall j, k | 0 <= j < |evs| && 0 <= k < |evs| && ReadsFrom(evs, k, j) && j in p.Flagged() && !Below(evs, sel, k)
      ensures Top(evs, k) in p.Flagged()
    {
      assert HasWriter(evs, k, p.causes);
    }
    FoundIsLeast(evs, sel, p.Flagged());
  }

  // ---------- The pass ----------

  ghost predicate FlagsAre(flags: seq<Flags>, p: Pass) {
    forall k | 0 <= k < |flags| :: flags[k] == Flags(k in p.marked, k in p.roots)
  }

  /** The tree event_cause. */
  ghost function Ids(evs: seq<Event>, x: set<int>): set<Id> {
    set k | k in x && 0 <= k < |evs| :: IdOf(evs[k])
  }

  /** The tree read_from_cause, as far as readers can tell: it holds the keys of the writes
      among the causes, and maybe keys that nobody reads. */
  ghost predicate KeysAre(evs: seq<Event>, rf: set<Key>, x: set<int>) {
    forall k | 0 <= k < |evs| && evs[k].kind == READ :: KeyOf(evs[k]) in rf <==> HasWriter(evs, k, x)
  }

  lemma AddCause(evs: seq<Event>, x: set<int>, k: int)
    requires 0 <= k < |evs|
    ensures Ids(evs, x + {k}) == Ids(evs, x) + {IdOf(evs[k])}
  {
    assert k in x + {k};
  }

  /** The key of a write, or one that makes no difference. */
  lemma AddKey(evs: seq<Event>, rf: set<Key>, x: set<int>, k: int)
    requires KeysAre(evs, rf, x) && 0 <= k < |evs|
    requires Writes(evs[k]) || IsOutside(evs, k) || (evs[k].kind == READ && KeyOf(evs[k]) in rf)
    ensures KeysAre(evs, rf + {KeyOf(evs[k])}, x + {k})
  {
    forall r | 0 <= r < |evs| && evs[r].kind == READ
      ensures HasWriter(evs, r, x + {k}) <==> HasWriter(evs, r, x) || ReadsFrom(evs, r, k)
    {
      if HasWriter(evs, r, x) {
        var j :| 0 <= j < |evs| && ReadsFrom(evs, r, j) && j in x;
        assert j in x + {k};
      }
      assert k in x + {k};
    }
  }

  lemma CauseIsKnown(evs: seq<Event>, x: set<int>, k: int)
    requires LogOk(evs) && 0 <= k < |evs| && -1 !in x
    ensures CauseOf(evs[k]) in Ids(evs, x) <==> Parent(evs, k) in x
  {
    if CauseOf(evs[k]) in Ids(evs, x) {
      var j :| j in x && 0 <= j < |evs| && IdOf(evs[j]) == CauseOf(evs[k]);
      ParentIs(evs, j, k);
    }
  }

  method SelectEvent(evs: seq<Event>, flags: array<Flags>, sel: Selection, ec: set<Id>, rf: set<Key>, curr: nat,
                     ghost p: Pass) returns (ec': set<Id>, rf': set<Key>)
    requires flags.Length == |evs| && FlagsAre(flags[..], p) && curr == p.curr < |evs|
    requires ec == Ids(evs, p.causes) && KeysAre(evs, rf, p.causes)
    modifies flags
    ensures var p' := Select(evs, sel, p);
            FlagsAre(flags[..], p') && ec' == Ids(evs, p'.causes) && KeysAre(evs, rf', p'.causes)
  {
    ec', rf' := ec, rf;
    if flags[curr] == UNFLAGGED && Selected(evs[curr], sel) {
      flags[curr] := flags[curr].(root := true);
      ec' := ec + {IdOf(evs[curr])};
      rf' := rf + {KeyOf(evs[curr])};
      AddCause(evs, p.causes, curr);
      AddKey(evs, rf, p.causes, curr);
    }
  }

  method MarkEvent(evs: seq<Event>, flags: array<Flags>, ec: set<Id>, rf: set<Key>, curr: nat,
                   ghost p: Pass) returns (ec': set<Id>, rf': set<Key>)
    requires LogOk(evs) && Shape(evs, p)
    requires flags.Length == |evs| && FlagsAre(flags[..], p) && curr == p.curr < |evs|
    requires ec == Ids(evs, p.causes) && KeysAre(evs, rf, p.causes)
    modifies flags
    ensures var p' := Mark(evs, p);
            FlagsAre(flags[..], p') && ec' == Ids(evs, p'.causes) && KeysAre(evs, rf', p'.causes)
  {
    ec', rf' := ec, rf;
    CauseIsKnown(evs, p.causes, curr);
    if CauseOf(evs[curr]) in ec {
      AddCause(evs, p.causes, curr);
      if flags[curr] == UNFLAGGED && Writes(evs[curr]) {
        AddKey(evs, rf, p.causes, curr);
        ec' := ec + {IdOf(evs[curr])};
        rf' := rf + {KeyOf(evs[curr])};
      }
      flags[curr] := flags[curr].(marked := true);
    }
  }

  method MarkTop(evs: seq<Event>, flags: array<Flags>, ec: set<Id>, rf: set<Key>, curr: nat, ghost p: Pass)
    returns (top: nat, ec': set<Id>, rf': set<Key>)
    requires LogOk(evs) && flags.Length == |evs| && FlagsAre(flags[..], p) && curr == p.curr < |evs|
    requires ec == Ids(evs, p.causes) && KeysAre(evs, rf, p.causes)
    requires evs[curr].kind == READ && KeyOf(evs[curr]) in rf
    modifies flags
    ensures top == Top(evs, curr)
    ensures var p' := Restart(p, top);
            FlagsAre(flags[..], p') && ec' == Ids(evs, p'.causes) && KeysAre(evs, rf', p'.causes)
  {
    top := FindRootEvent(evs, curr);
    if top != curr { TopIsCause(evs, curr); }
    AddCause(evs, p.causes, top);
    AddKey(evs, rf, p.causes, top);
    flags[top] := flags[top].(root := true);
    ec' := ec + {IdOf(evs[top])};
    rf' := rf + {KeyOf(evs[top])};
  }

  ghost function FlaggedIn(flags: seq<Flags>): set<int> {
    set k | 0 <= k < |flags| && flags[k] != UNFLAGGED
  }

  ghost function MarkedIn(flags: seq<Flags>): set<int> {
    set k | 0 <= k < |flags| && flags[k].marked
  }

  ghost function RootsIn(flags: seq<Flags>): set<int> {
    set k | 0 <= k < |flags| && flags[k].root
  }

  /** What is left to become a cause. */
  ghost function Others(evs: seq<Event>, x: set<int>): set<int> {
    set k | 0 <= k < |evs| && k !in x
  }

  ghost function Readers(evs: seq<Event>): set<int> {
    set k | 0 <= k < |evs| && evs[k].kind == READ
  }

  /** The first two parts of an iteration: selected events, then effects of affected events. */
  method Visit(evs: seq<Event>, flags: array<Flags>, sel: Selection, ec: set<Id>, rf: set<Key>, curr: nat,
               ghost p: Pass) returns (ec': set<Id>, rf': set<Key>, ghost p': Pass)
    requires LogOk(evs) && Inv(evs, sel, p)
    requires flags.Length == |evs| && FlagsAre(flags[..], p) && curr == p.curr < |evs|
    requires ec == Ids(evs, p.causes) && KeysAre(evs, rf, p.causes)
    modifies flags
    ensures Inv(evs, sel, p') && p'.curr == curr < p'.seen && p.causes <= p'.causes
    ensures FlagsAre(flags[..], p') && ec' == Ids(evs, p'.causes) && KeysAre(evs, rf', p'.causes)
    ensures Parent(evs, curr) in p'.causes ==> curr in p'.marked
  {
    ghost var q := Select(evs, sel, p);
    SelectInv(evs, sel, p);
    ec', rf' := SelectEvent(evs, flags, sel, ec, rf, curr, p);
    p' := Mark(evs, q);
    MarkInv(evs, sel, q);
    ec', rf' := MarkEvent(evs, flags, ec', rf', curr, q);
  }

  /** The last part: an unflagged reader of an affected element restarts the pass behind its top. */
  method Continue(evs: seq<Event>, flags: array<Flags>, sel: Selection, ec: set<Id>, rf: set<Key>, curr: nat,
                  ghost p: Pass) returns (restart: bool, next: nat, ec': set<Id>, rf': set<Key>, ghost p': Pass)
    requires LogOk(evs) && Inv(evs, sel, p) && p.curr == curr < p.seen
    requires Parent(evs, curr) in p.causes ==> curr in p.marked
    requires flags.Length == |evs| && FlagsAre(flags[..], p)
    requires ec == Ids(evs, p.causes) && KeysAre(evs, rf, p.causes)
    modifies flags
    ensures Inv(evs, sel, p') && p'.curr == next
    ensures FlagsAre(flags[..], p') && ec' == Ids(evs, p'.causes) && KeysAre(evs, rf', p'.causes)
    ensures !restart ==> p'.causes == p.causes && next == curr + 1
    ensures restart ==> evs[curr].kind == READ && next == Top(evs, curr) + 1
    ensures restart ==> Top(evs, curr) !in p.causes && p'.causes == p.causes + {Top(evs, curr)}
  {
    ec', rf' := ec, rf;
    if evs[curr].kind == READ && flags[curr] == UNFLAGGED && KeyOf(evs[curr]) in rf {
      RestartInv(evs, sel, p);
      var top;
      top, ec', rf' := MarkTop(evs, flags, ec, rf, curr, p);
      p' := Restart(p, top);
      return true, top + 1, ec', rf', p';
    }
    AdvanceInv(evs, sel, p);
    p' := p.(curr := curr + 1);
    restart, next := false, curr + 1;
  }

  /** One iteration: either one more event becomes a cause, or the pass moves on. */
  method Iterate(evs: seq<Event>, flags: array<Flags>, sel: Selection, ec: set<Id>, rf: set<Key>, curr: nat,
                 ghost p: Pass, ghost readers: set<int>)
    returns (restart: bool, next: nat, ec': set<Id>, rf': set<Key>, ghost p': Pass, ghost readers': set<int>)
    requires LogOk(evs) && Inv(evs, sel, p) && p.curr == curr < |evs|
    requires flags.Length == |evs| && FlagsAre(flags[..], p) && Restarted(evs, readers, p.causes)
    requires ec == Ids(evs, p.causes) && KeysAre(evs, rf, p.causes)
    modifies flags
    ensures Inv(evs, sel, p') && p'.curr == next
    ensures FlagsAre(flags[..], p') && ec' == Ids(evs, p'.causes) && KeysAre(evs, rf', p'.causes)
    ensures Others(evs, p'.causes) <= Others(evs, p.causes)
    ensures if restart then Others(evs, p'.causes) < Others(evs, p.causes) else next == curr + 1
    ensures Restarted(evs, readers', p'.causes) && |readers'| == |readers| + if restart then 1 else 0
  {
    ghost var q;
    ec', rf', q := Visit(evs, flags, sel, ec, rf, curr, p);
    restart, next, ec', rf', p' := Continue(evs, flags, sel, ec', rf', curr, q);
    if restart {
      FewerLeft(evs, p.causes, p'.causes, Top(evs, curr));
      NewReader(evs, readers, p.causes, p'.causes, curr);
      readers' := readers + {curr};
    } else {
      readers' := readers;
    }
  }

  /** GLogMarkWooFDownstream.  The flagged events are what can be reached from the selected
      events over tops of readers, with all effects; MARKED tells the effects, and ROOT the
      selected events and the tops. */
  method MarkWooFDownstream(evs: seq<Event>, flags: array<Flags>, sel: Selection) returns (restarts: nat)
    requires LogOk(evs) && flags.Length == |evs|
    requires forall k | 0 <= k < |evs| :: flags[k] == UNFLAGGED
    modifies flags
    ensures FlagsTell(evs, sel, flags[..])
    ensures FlagsMean(evs, sel, MarkedIn(flags[..]), RootsIn(flags[..]))
    ensures restarts <= |Readers(evs)|
  {
    restarts := 0;
    var ec, rf := {}, {};
    var curr := 0;
    ghost var p, readers: set<int> := Pass({}, {}, {}, 0, 0), {};
    StartInv(evs, sel, flags[..], p);
    while curr < |evs|
      invariant Inv(evs, sel, p) && p.curr == curr
      invariant FlagsAre(flags[..], p) && ec == Ids(evs, p.causes) && KeysAre(evs, rf, p.causes)
      invariant Restarted(evs, readers, p.causes) && |readers| == restarts
      decreases Others(evs, p.causes), |evs| - curr
    {
      var restart, next;
      restart, next, ec, rf, p, readers := Iterate(evs, flags, sel, ec, rf, curr, p, readers);
      if restart {
        restarts := restarts + 1;
      }
      curr := next;
    }
    Report(evs, sel, flags[..], p);
    TellsMeaning(evs, sel, flags[..]);
    SubsetSize(readers, Readers(evs));
  }

  /** The readers that have restarted the pass. */
  ghost predicate Restarted(evs: seq<Event>, readers: set<int>, causes: set<int>) {
    readers <= Readers(evs) && forall k | k in readers :: Top(evs, k) in causes
  }

  lemma NewReader(evs: seq<Event>, readers: set<int>, x: set<int>, y: set<int>, k: int)
    requires Restarted(evs, readers, x) && 0 <= k < |evs| && evs[k].kind == READ
    requires x <= y && Top(evs, k) !in x && Top(evs, k) in y
    ensures Restarted(evs, readers + {k}, y) && |readers + {k}| == |readers| + 1
  {
  }

  /** Event k is marked exactly if its cause is flagged, and a root if it is selected or flagged
      without its cause. */
  ghost predicate TellsAt(evs: seq<Event>, sel: Selection, flags: seq<Flags>, k: int)
    requires |flags| == |evs| && 0 <= k < |evs|
  {
    var x := FlaggedIn(flags);
    && (flags[k].marked <==> Parent(evs, k) in x)
    && (Selected(evs[k], sel) || (k in x && Parent(evs, k) !in x) ==> flags[k].root)
  }

  /** What the flags tell at the end. */
  ghost predicate FlagsTell(evs: seq<Event>, sel: Selection, flags: seq<Flags>)
    requires |flags| == |evs|
  {
    && FlaggedIn(flags) == Found(evs, sel)
    && (forall k | 0 <= k < |evs| :: TellsAt(evs, sel, flags, k))
    && TopsOnly(evs, sel, RootsIn(flags))
  }

  /** If no record with sequence number 0 lies on the way of the scan from a reader, ROOT tells
      exactly the selected events and the flagged events with which a chain starts. */
  lemma RootFlagIff(evs: seq<Event>, sel: Selection, flags: seq<Flags>, k: int)
    requires LogOk(evs) && |flags| == |evs| && FlagsTell(evs, sel, flags) && 0 <= k < |evs|
    requires ScansReach(evs) && forall i | 0 <= i < |evs| && Writes(evs[i]) :: evs[i].seqNo != 0
    ensures flags[k].root <==> Selected(evs[k], sel) || (k in FlaggedIn(flags) && Start(evs, k) == k)
  {
    var q := Parent(evs, k);
    assert TellsAt(evs, sel, flags, k);
    if flags[k].root {
      RootIsStart(evs, sel, RootsIn(flags), k);
    } else if q in FlaggedIn(flags) {
      ParentWrites(evs, k);
      assert TellsAt(evs, sel, flags, q);
      if q in RootsIn(flags) { RootIsNoStandIn(evs, sel, RootsIn(flags), k); }
    }
  }

  lemma RootIsStart(evs: seq<Event>, sel: Selection, x: set<int>, k: int)
    requires TopsOnly(evs, sel, x) && ScansReach(evs) && k in x
    ensures 0 <= k < |evs| && (Selected(evs[k], sel) || Start(evs, k) == k)
  {
    if IsTop(evs, k) {
      var r := TopIsStart(evs, k);
      StartIsFirst(evs, r);
    }
  }

  lemma TopIsStart(evs: seq<Event>, k: int) returns (r: int)
    requires IsTop(evs, k) && ScansReach(evs)
    ensures 0 <= r < |evs| && evs[r].kind == READ && Start(evs, r) == k
  {
    r :| 0 <= r < |evs| && evs[r].kind == READ && Top(evs, r) == k;
    TopIsStartIff(evs, r);
  }

  /** A chain starts with a reader, or with an event that does not only stand for one. */
  lemma {:induction false} StartIsFirst(evs: seq<Event>, k: int)
    requires 0 <= k < |evs|
    ensures Start(evs, Start(evs, k)) == Start(evs, k)
    ensures Start(evs, k) == k || evs[Start(evs, k)].seqNo != 0
  {
    if Start(evs, k) != k { StartIsFirst(evs, Parent(evs, k)); }
  }

  /** A cause that only stands for an event is neither selected nor a top. */
  lemma RootIsNoStandIn(evs: seq<Event>, sel: Selection, x: set<int>, k: int)
    requires LogOk(evs) && TopsOnly(evs, sel, x) && ScansReach(evs)
    requires 0 <= k < |evs| && Parent(evs, k) != -1 && Parent(evs, k) in x
    ensures Writes(evs[Parent(evs, k)]) || evs[Parent(evs, k)].seqNo != 0
  {
    var q := Parent(evs, k);
    if !Writes(evs[q]) {
      ParentWrites(evs, k);
      assert evs[q].kind != READ;
      assert IsTop(evs, q);
      var r := TopIsStart(evs, q);
      StartIsFirst(evs, r);
    }
  }

  lemma MarkedMeans(evs: seq<Event>, sel: Selection, flags: seq<Flags>, k: int)
    requires LogOk(evs) && |flags| == |evs| && FlagsTell(evs, sel, flags)
    ensures k in MarkedIn(flags) <==> exists j :: Causes(evs, j, k) && j in FlaggedIn(flags)
  {
    if 0 <= k < |evs| {
      assert TellsAt(evs, sel, flags, k);
      if k in MarkedIn(flags) { ParentCauses(evs, Parent(evs, k), k); }
      if j :| Causes(evs, j, k) && j in FlaggedIn(flags) { ParentCauses(evs, j, k); }
    }
  }

  lemma RootsMean(evs: seq<Event>, sel: Selection, x: set<int>, k: int)
    requires LogOk(evs) && TopsOnly(evs, sel, x) && k in x && !Picked(evs, sel, k)
    ensures IsTopOfReader(evs, k)
  {
    assert IsTop(evs, k);
    var r :| 0 <= r < |evs| && evs[r].kind == READ && Top(evs, r) == k;
    TopIff(evs, k, r);
  }

  /** The flags mean what the fields of the events say. */
  lemma TellsMeaning(evs: seq<Event>, sel: Selection, flags: seq<Flags>)
    requires LogOk(evs) && |flags| == |evs| && FlagsTell(evs, sel, flags)
    ensures FlagsMean(evs, sel, MarkedIn(flags), RootsIn(flags))
  {
    var marked, roots := MarkedIn(flags), RootsIn(flags);
    assert marked + roots == FlaggedIn(flags);
    FoundSpreads(evs, sel);
    forall k ensures k in marked <==> exists j :: Causes(evs, j, k) && j in marked + roots {
      MarkedMeans(evs, sel, flags, k);
    }
    forall k | Picked(evs, sel, k) ensures k in roots { assert TellsAt(evs, sel, flags, k); }
    forall k | k in roots && !Picked(evs, sel, k) ensures IsTopOfReader(evs, k) {
      RootsMean(evs, sel, roots, k);
    }
  }

  lemma StartInv(evs: seq<Event>, sel: Selection, flags: seq<Flags>, p: Pass)
    requires p == Pass({}, {}, {}, 0, 0) && forall k | 0 <= k < |flags| :: flags[k] == UNFLAGGED
    ensures Inv(evs, sel, p) && FlagsAre(flags, p) && Ids(evs, p.causes) == {} && KeysAre(evs, {}, p.causes)
  {
  }

  lemma Report(evs: seq<Event>, sel: Selection, flags: seq<Flags>, p: Pass)
    requires LogOk(evs) && Inv(evs, sel, p) && p.curr == |evs| == |flags| && FlagsAre(flags, p)
    ensures FlagsTell(evs, sel, flags)
  {
    Finished(evs, sel, p);
    assert FlaggedIn(flags) == p.Flagged() && RootsIn(flags) == p.roots;
  }

  lemma FewerLeft(evs: seq<Event>, x: set<int>, y: set<int>, k: int)
    requires x <= y && 0 <= k < |evs| && k in y && k !in x
    ensures Others(evs, y) < Others(evs, x)
  {
    assert k in Others(evs, x) && k !in Others(evs, y);
  }
}
