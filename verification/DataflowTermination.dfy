/**
 Every run of a dataflow program ends: a handler makes at most four puts, a scan reads
 ever older records, and each source delivers one operand.
 */
module DataflowTermination {
  import opened DataflowModel
  import opened DataflowSafety
  import opened DataflowTheorems
  import opened Counting

  // ---------- Sums over the handlers ----------

  ghost function Sum(f: Handler -> nat, hs: seq<Handler>): nat {
    if hs == [] then 0 else Sum(f, hs[..|hs| - 1]) + f(hs[|hs| - 1])
  }

  lemma {:induction false} SumUpdate(f: Handler -> nat, hs: seq<Handler>, h: nat, x: Handler)
    requires h < |hs|
    ensures Sum(f, hs[h := x]) == Sum(f, hs) - f(hs[h]) + f(x)
  {
    var init := hs[..|hs| - 1];
    if h == |hs| - 1 {
      assert hs[h := x][..|hs| - 1] == init;
    } else {
      SumUpdate(f, init, h, x);
      assert hs[h := x][..|hs| - 1] == init[h := x];
    }
  }

  // ---------- The measure ----------

  ghost function AllSources(p: Program): set<Source> {
    (set i | 0 <= i < |p.ext| :: Ext(i)) + (set m | m in p.nodes :: Res(m))
  }

  ghost function SourcesOf(ops: seq<Operand>): set<Source> {
    set t | 0 <= t < |ops| :: ops[t].src
  }

  lemma {:induction false} DistinctSources(ops: seq<Operand>)
    requires forall i, j | 0 <= i < j < |ops| :: ops[i].src != ops[j].src
    ensures |SourcesOf(ops)| == |ops|
  {
    if ops != [] {
      var init := ops[..|ops| - 1];
      DistinctSources(init);
      assert SourcesOf(ops) == SourcesOf(init) + {ops[|ops| - 1].src};
    }
  }

  lemma OperandsBounded(p: Program, s: State)
    requires OperandsInv(p, s)
    ensures |s.ops| <= |AllSources(p)|
  {
    DistinctSources(s.ops);
    forall src | src in SourcesOf(s.ops) ensures src in AllSources(p) {
      var t :| 0 <= t < |s.ops| && s.ops[t].src == src;
      assert OperandOk(p, s.ops[t], s.hs[t]);
    }
    SubsetSize(SourcesOf(s.ops), AllSources(p));
  }

  /** Operands still to come. */
  ghost function Undelivered(p: Program, s: State): nat
    requires OperandsInv(p, s)
  {
    OperandsBounded(p, s);
    |AllSources(p)| - |s.ops|
  }

  /** Puts that a handler may still make. */
  ghost function Puts(h: Handler): nat {
    match h.ph
    case NoHandler => 0
    case Start => 4
    case Scan(_) => 3
    case Park(_) => 3
    case Future(_, _) => 2
    case Retire(_, _) => 2
    case Send(_, _) => 1
    case Exit(_) => 0
  }

  /** Reads that the present scan of a handler may still make. */
  ghost function Reads(h: Handler): nat {
    match h.ph
    case Scan(q) => if q < -1 then 0 else q + 2
    case Future(_, f) => if f < h.c then 0 else f - h.c + 1
    case _ => 0
  }

  ghost predicate Smaller(p: Program, s': State, s: State)
    requires OperandsInv(p, s) && OperandsInv(p, s')
  {
    || Undelivered(p, s') < Undelivered(p, s)
    || (Undelivered(p, s') == Undelivered(p, s) && Sum(Puts, s'.hs) < Sum(Puts, s.hs))
    || (Undelivered(p, s') == Undelivered(p, s) && Sum(Puts, s'.hs) == Sum(Puts, s.hs)
        && Sum(Reads, s'.hs) < Sum(Reads, s.hs))
  }

  /** A step either adds an operand or lets one handler come closer to its end. */
  lemma StepDecreases(p: Program, s: State, st: Step)
    requires WellFormed(p) && Inv(p, s) && Enabled(p, s, st)
    requires OperandsInv(p, Apply(p, s, st))
    ensures Smaller(p, Apply(p, s, st), s)
  {
    match st
    case Deliver(_) =>
    case Act(h) =>
      Known(p, s, h);
      ActShape(s, h);
      if !s.hs[h].ph.Send? {
        HandlerDecreases(p, s, h);
        SumsDecrease(s.hs, h, ActOf(s, h).hs);
      }
  }

  lemma SumsDecrease(hs: seq<Handler>, h: nat, hs': seq<Handler>)
    requires h < |hs| == |hs'| && forall i | 0 <= i < |hs| && i != h :: hs'[i] == hs[i]
    requires Closer(hs'[h], hs[h])
    ensures Sum(Puts, hs') < Sum(Puts, hs) || (Sum(Puts, hs') == Sum(Puts, hs) && Sum(Reads, hs') < Sum(Reads, hs))
  {
    assert hs' == hs[h := hs'[h]];
    SumUpdate(Puts, hs, h, hs'[h]);
    SumUpdate(Reads, hs, h, hs'[h]);
  }

  ghost predicate Closer(x': Handler, x: Handler) {
    Puts(x') < Puts(x) || (Puts(x') == Puts(x) && Reads(x') < Reads(x))
  }

  lemma HandlerDecreases(p: Program, s: State, h: nat)
    requires WellFormed(p) && h < |s.hs| == |s.ops| && s.ops[h].dst in p.nodes && HandlerInv(p, s, h)
    requires LogInv(p, s) && Enabled(p, s, Act(h)) && !s.hs[h].ph.Send?
    ensures Closer(ActOf(s, h).hs[h], s.hs[h])
  {
    if s.hs[h].ph.Scan? {
      OriginalBelow(p, s, s.ops[h].dst, s.hs[h].ph.seqno, s.hs[h].c - 1);
      assert s.hs[h].ph.seqno >= 0;
    }
    ActIsCloser(s, h);
  }

  lemma ActIsCloser(s: State, h: nat)
    requires h < |s.hs| == |s.ops| && !s.hs[h].ph.Send? && !s.hs[h].ph.NoHandler? && !s.hs[h].ph.Exit?
    requires s.hs[h].ph.Scan? ==> s.hs[h].ph.seqno >= 0
    ensures Closer(ActOf(s, h).hs[h], s.hs[h])
  {
  }

  /** There is no infinite run. */
  lemma EveryRunEnds(p: Program, run: nat -> State)
    requires WellFormed(p) && Init(p, run(0))
    ensures exists k: nat :: !Next(p, run(k), run(k + 1))
  {
    if forall k: nat :: Next(p, run(k), run(k + 1)) {
      InitInv(p, run(0));
      Descend(p, run, 0);
    }
  }

  lemma {:induction false} Descend(p: Program, run: nat -> State, k: nat)
    requires WellFormed(p) && Inv(p, run(k))
    requires forall k: nat :: Next(p, run(k), run(k + 1))
    ensures false
    decreases Undelivered(p, run(k)), Sum(Puts, run(k).hs), Sum(Reads, run(k).hs)
  {
    assert Next(p, run(k), run(k + 1));
    var st :| Enabled(p, run(k), st) && run(k + 1) == Apply(p, run(k), st);
    StepInv(p, run(k), st);
    StepDecreases(p, run(k), st);
    Descend(p, run, k + 1);
  }
}
