/**
 What the flags of the marking pass mean, said in the fields of events alone.
 */
module RepairFields {
  import opened EventLog
  import opened Repair

  // ---------- Relations between events ----------

  /** Event j is the cause of event k. */
  ghost predicate Causes(evs: seq<Event>, j: int, k: int) {
    && 0 <= j < |evs| && 0 <= k < |evs|
    && evs[j].host == evs[k].causeHost && evs[j].seqNo == evs[k].causeSeqNo
  }

  predicate IsWrite(e: Event) {
    e.kind == TRIGGER || e.kind == APPEND
  }

  predicate SameElement(e: Event, e': Event) {
    e.host == e'.host && e.woofName == e'.woofName && e.woofSeqNo == e'.woofSeqNo
  }

  /** Event r reads the element that event j wrote. */
  ghost predicate IsRead(evs: seq<Event>, j: int, r: int) {
    && 0 <= j < |evs| && 0 <= r < |evs|
    && evs[r].kind == READ && IsWrite(evs[j]) && SameElement(evs[j], evs[r])
  }

  /** Event k wrote one of the elements that are to be repaired. */
  ghost predicate Picked(evs: seq<Event>, sel: Selection, k: int) {
    && 0 <= k < |evs| && IsWrite(evs[k])
    && evs[k].host == sel.host && evs[k].woofName == sel.woof && evs[k].woofSeqNo in sel.seqNos
  }

  /** Each event of the chain is the cause of the next. */
  ghost predicate IsChain(evs: seq<Event>, chain: seq<int>, from: int, to: int) {
    && |chain| > 0 && chain[0] == from && chain[|chain| - 1] == to && 0 <= from < |evs|
    && forall i | 0 < i < |chain| :: Causes(evs, chain[i - 1], chain[i])
  }

  /** One of the events that led to event k is picked. */
  ghost predicate HasPickedCause(evs: seq<Event>, sel: Selection, k: int) {
    exists chain, from :: IsChain(evs, chain, from, k) && |chain| > 1 && Picked(evs, sel, from)
  }

  ghost predicate NoZero(evs: seq<Event>, lo: int, hi: int) {
    forall i | 0 <= i < |evs| && lo <= i < hi :: evs[i].seqNo != 0
  }

  /** A chain leads from event t to event k that no record with number 0 interrupts, and no
      longer one does. */
  ghost predicate IsTopOf(evs: seq<Event>, t: int, k: int) {
    && (exists chain :: IsChain(evs, chain, t, k)) && NoZero(evs, t, k)
    && forall j | Causes(evs, j, t) :: !NoZero(evs, j, t)
  }

  // ---------- Logs ----------

  /** Event j has no cause in the log, and nobody reads the element that it names. */
  ghost predicate StandsAlone(evs: seq<Event>, j: int)
    requires 0 <= j < |evs|
  {
    && (forall i :: !Causes(evs, i, j))
    && (forall r | 0 <= r < |evs| && evs[r].kind == READ :: !SameElement(evs[r], evs[j]))
  }

  /** No two events have the same host and number; a cause comes before its effects, and is a
      write or stands alone; an element is written before it is read. */
  ghost predicate InOrder(evs: seq<Event>) {
    && (forall j, k | 0 <= j < k < |evs| :: evs[j].host != evs[k].host || evs[j].seqNo != evs[k].seqNo)
    && (forall j, k | Causes(evs, j, k) :: j < k && (IsWrite(evs[j]) || StandsAlone(evs, j)))
    && (forall j, r | IsRead(evs, j, r) :: j < r)
  }

  lemma InOrderIsOk(evs: seq<Event>)
    ensures InOrder(evs) <==> LogOk(evs)
  {
    forall j | 0 <= j < |evs| ensures StandsAlone(evs, j) <==> IsOutside(evs, j) {
      AloneIsOutside(evs, j);
    }
    CauseIs(evs);
    ReadIs(evs);
  }

  lemma AloneIsOutside(evs: seq<Event>, j: int)
    requires 0 <= j < |evs|
    ensures StandsAlone(evs, j) <==> IsOutside(evs, j)
  {
    assert forall i | 0 <= i < |evs| :: IdOf(evs[i]) == CauseOf(evs[j]) <==> Causes(evs, i, j);
  }

  lemma CauseIs(evs: seq<Event>)
    ensures forall j, k | 0 <= j < |evs| && 0 <= k < |evs| :: IdOf(evs[j]) == CauseOf(evs[k]) <==> Causes(evs, j, k)
  {
  }

  lemma ReadIs(evs: seq<Event>)
    ensures forall j, r | 0 <= j < |evs| && 0 <= r < |evs| :: ReadsFrom(evs, r, j) <==> IsRead(evs, j, r)
  {
  }

  // ---------- Parents, tops and picked causes ----------

  lemma ParentCauses(evs: seq<Event>, j: int, k: int)
    requires LogOk(evs) && 0 <= k < |evs| && j != -1
    ensures Parent(evs, k) == j <==> Causes(evs, j, k)
  {
    if Causes(evs, j, k) { ParentIs(evs, j, k); }
  }

  lemma NoParent(evs: seq<Event>, k: int)
    requires LogOk(evs) && 0 <= k < |evs| && Parent(evs, k) == -1
    ensures forall j :: !Causes(evs, j, k)
  {
    forall j ensures !Causes(evs, j, k) {
      if Causes(evs, j, k) { ParentCauses(evs, j, k); }
    }
  }

  lemma Longer(evs: seq<Event>, chain: seq<int>, from: int, to: int, k: int)
    requires IsChain(evs, chain, from, to) && Causes(evs, to, k)
    ensures IsChain(evs, chain + [k], from, k)
  {
  }

  lemma Shorter(evs: seq<Event>, chain: seq<int>, from: int, k: int)
    requires IsChain(evs, chain, from, k) && |chain| > 1
    ensures IsChain(evs, chain[..|chain| - 1], from, chain[|chain| - 2]) && Causes(evs, chain[|chain| - 2], k)
  {
  }

  lemma {:induction false} ChainGoesOn(evs: seq<Event>, chain: seq<int>, from: int, to: int)
    requires LogOk(evs) && IsChain(evs, chain, from, to)
    ensures from <= to < |evs| && (from == to <==> |chain| == 1)
  {
    if |chain| > 1 {
      Shorter(evs, chain, from, to);
      ChainGoesOn(evs, chain[..|chain| - 1], from, chain[|chain| - 2]);
      CauseIs(evs);
    }
  }

  lemma {:induction false} BelowHasChain(evs: seq<Event>, sel: Selection, k: int)
    requires LogOk(evs) && 0 <= k < |evs| && Below(evs, sel, k)
    ensures HasPickedCause(evs, sel, k)
  {
    var p := Parent(evs, k);
    ParentCauses(evs, p, k);
    if Selected(evs[p], sel) {
      Longer(evs, [p], p, p, k);
      assert IsChain(evs, [p] + [k], p, k) && Picked(evs, sel, p);
    } else {
      BelowHasChain(evs, sel, p);
      var chain, from :| IsChain(evs, chain, from, p) && |chain| > 1 && Picked(evs, sel, from);
      Longer(evs, chain, from, p, k);
    }
  }

  lemma {:induction false} ChainIsBelow(evs: seq<Event>, sel: Selection, chain: seq<int>, from: int, k: int)
    requires LogOk(evs) && IsChain(evs, chain, from, k) && |chain| > 1 && Picked(evs, sel, from)
    ensures 0 <= k < |evs| && Below(evs, sel, k)
  {
    var p := chain[|chain| - 2];
    Shorter(evs, chain, from, k);
    ParentCauses(evs, p, k);
    if |chain| > 2 { ChainIsBelow(evs, sel, chain[..|chain| - 1], from, p); }
  }

  lemma BelowIff(evs: seq<Event>, sel: Selection, k: int)
    requires LogOk(evs) && 0 <= k < |evs|
    ensures Below(evs, sel, k) <==> HasPickedCause(evs, sel, k)
  {
    if Below(evs, sel, k) { BelowHasChain(evs, sel, k); }
    if HasPickedCause(evs, sel, k) {
      var chain, from :| IsChain(evs, chain, from, k) && |chain| > 1 && Picked(evs, sel, from);
      ChainIsBelow(evs, sel, chain, from, k);
    }
  }

  lemma {:induction false} TopHasChain(evs: seq<Event>, k: int) returns (chain: seq<int>)
    requires LogOk(evs) && 0 <= k < |evs|
    ensures IsChain(evs, chain, Top(evs, k), k) && NoZero(evs, Top(evs, k), k)
  {
    var p := Parent(evs, k);
    if p <= LastZero(evs, k) {
      chain := [k];
    } else {
      chain := TopHasChain(evs, p);
      ParentCauses(evs, p, k);
      Longer(evs, chain, Top(evs, k), p, k);
      chain := chain + [k];
    }
  }

  lemma TopIsTop(evs: seq<Event>, k: int)
    requires LogOk(evs) && 0 <= k < |evs|
    ensures IsTopOf(evs, Top(evs, k), k)
  {
    var t := Top(evs, k);
    var chain := TopHasChain(evs, k);
    TopOfTop(evs, k);
    forall j | Causes(evs, j, t) ensures !NoZero(evs, j, t) {
      ParentCauses(evs, j, t);
      assert j <= LastZero(evs, t);
    }
  }

  lemma {:induction false} ChainTop(evs: seq<Event>, chain: seq<int>, t: int, k: int)
    requires LogOk(evs) && IsChain(evs, chain, t, k) && NoZero(evs, t, k)
    requires forall j | Causes(evs, j, t) :: !NoZero(evs, j, t)
    ensures 0 <= k < |evs| && Top(evs, k) == t
  {
    ChainGoesOn(evs, chain, t, k);
    var p := Parent(evs, k);
    if |chain| == 1 {
      if p != -1 { ParentCauses(evs, p, k); }
    } else {
      var q := chain[|chain| - 2];
      Shorter(evs, chain, t, k);
      ParentCauses(evs, q, k);
      ChainGoesOn(evs, chain[..|chain| - 1], t, q);
      ChainTop(evs, chain[..|chain| - 1], t, q);
    }
  }

  lemma TopIff(evs: seq<Event>, t: int, k: int)
    requires LogOk(evs) && 0 <= k < |evs|
    ensures IsTopOf(evs, t, k) <==> Top(evs, k) == t
  {
    TopIsTop(evs, k);
    if IsTopOf(evs, t, k) {
      var chain :| IsChain(evs, chain, t, k);
      ChainTop(evs, chain, t, k);
    }
  }

  // ---------- What the flags are to mean ----------

  /** The set has all picked events, all effects of its events, and the tops of the readers of
      its elements, but for readers that a picked event has led to. */
  ghost predicate Spreads(evs: seq<Event>, sel: Selection, x: set<int>) {
    && (forall k | Picked(evs, sel, k) :: k in x)
    && (forall j, k | Causes(evs, j, k) && j in x :: k in x)
    && (forall j, r, t | IsRead(evs, j, r) && j in x && !HasPickedCause(evs, sel, r) && IsTopOf(evs, t, r) :: t in x)
  }

  /** What MARKED and ROOT mean: together the least such set; MARKED for effects of flagged
      events; ROOT for picked events, and otherwise only for tops of readers. */
  ghost predicate FlagsMean(evs: seq<Event>, sel: Selection, marked: set<int>, roots: set<int>) {
    && Spreads(evs, sel, marked + roots)
    && (forall y: set<int> | Spreads(evs, sel, y) :: marked + roots <= y)
    && (forall k :: k in marked <==> exists j :: Causes(evs, j, k) && j in marked + roots)
    && (forall k | Picked(evs, sel, k) :: k in roots)
    && (forall k | k in roots && !Picked(evs, sel, k) :: IsTopOfReader(evs, k))
  }

  ghost predicate IsTopOfReader(evs: seq<Event>, t: int) {
    exists r :: 0 <= r < |evs| && evs[r].kind == READ && IsTopOf(evs, t, r)
  }

  /** The events of the log in y. */
  ghost function Within(evs: seq<Event>, y: set<int>): set<int> {
    set k | 0 <= k < |evs| && k in y
  }

  lemma SpreadsIsClosed(evs: seq<Event>, sel: Selection, y: set<int>)
    requires LogOk(evs) && Spreads(evs, sel, y)
    ensures ClosedAbove(evs, sel, Within(evs, y))
  {
    var x := Within(evs, y);
    forall k | 0 <= k < |evs| && Selected(evs[k], sel) ensures k in x { assert Picked(evs, sel, k); }
    forall k | 0 <= k < |evs| && Parent(evs, k) in x ensures k in x { ParentCauses(evs, Parent(evs, k), k); }
    forall j, k | 0 <= j < |evs| && 0 <= k < |evs| && ReadsFrom(evs, k, j) && j in x && !Below(evs, sel, k)
      ensures Top(evs, k) in x
    {
      BelowIff(evs, sel, k);
      TopIff(evs, Top(evs, k), k);
      assert IsRead(evs, j, k);
    }
  }

  lemma ClosedSpreads(evs: seq<Event>, sel: Selection, x: set<int>)
    requires LogOk(evs) && ClosedAbove(evs, sel, x)
    ensures Spreads(evs, sel, x)
  {
    forall k | Picked(evs, sel, k) ensures k in x { assert Selected(evs[k], sel); }
    forall j, k | Causes(evs, j, k) && j in x ensures k in x { ParentCauses(evs, j, k); }
    forall j, r, t | IsRead(evs, j, r) && j in x && !HasPickedCause(evs, sel, r) && IsTopOf(evs, t, r)
      ensures t in x
    {
      BelowIff(evs, sel, r);
      TopIff(evs, t, r);
      assert ReadsFrom(evs, r, j);
    }
  }

  /** What can be reached over paths of readers is the least such set. */
  lemma FoundSpreads(evs: seq<Event>, sel: Selection)
    requires LogOk(evs)
    ensures Spreads(evs, sel, Found(evs, sel))
    ensures forall y: set<int> | Spreads(evs, sel, y) :: Found(evs, sel) <= y
  {
    FoundIsLeast(evs, sel, Found(evs, sel));
    ClosedSpreads(evs, sel, Found(evs, sel));
    forall y: set<int> | Spreads(evs, sel, y) ensures Found(evs, sel) <= y {
      SpreadsIsClosed(evs, sel, y);
      assert Found(evs, sel) <= Within(evs, y) <= y;
    }
  }
}
