/**
 Schedules: runs of a dataflow program that hold back the two handlers of one node until
 nothing else is left to do, and then let them run one after the other, in either order.
 */
module DataflowSchedules {
  import opened DataflowModel
  import opened DataflowSafety
  import opened DataflowTheorems
  import opened DataflowTermination

  lemma Extend(p: Program, run: seq<State>, st: Step) returns (longer: seq<State>)
    requires IsRun(p, run) && Enabled(p, run[|run| - 1], st)
    ensures IsRun(p, longer) && longer[|longer| - 1] == Apply(p, run[|run| - 1], st)
  {
    longer := run + [Apply(p, run[|run| - 1], st)];
    assert Next(p, run[|run| - 1], Apply(p, run[|run| - 1], st));
    forall k | 0 < k < |longer| ensures Next(p, longer[k - 1], longer[k]) {
      if k < |run| { assert Next(p, run[k - 1], run[k]); }
    }
  }

  /** Operands are never taken back. */
  lemma OpsGrow(p: Program, s: State, st: Step)
    requires Enabled(p, s, st) && |s.hs| == |s.ops|
    ensures s.ops <= Apply(p, s, st).ops
  {
    if st.Act? { ActShape(s, st.h); }
  }

  // ---------- Running to the end ----------

  /** Every run can be continued until nothing is left to do. */
  lemma {:induction false} Finish(p: Program, run: seq<State>) returns (longer: seq<State>)
    requires WellFormed(p) && IsRun(p, run) && Inv(p, run[|run| - 1])
    ensures IsRun(p, longer) && Quiescent(p, longer[|longer| - 1])
    ensures run[|run| - 1].ops <= longer[|longer| - 1].ops
    decreases Undelivered(p, run[|run| - 1]), Sum(Puts, run[|run| - 1].hs), Sum(Reads, run[|run| - 1].hs)
  {
    var s := run[|run| - 1];
    if Quiescent(p, s) {
      longer := run;
    } else {
      var st :| Enabled(p, s, st);
      longer := Extend(p, run, st);
      StepInv(p, s, st);
      StepDecreases(p, s, st);
      OpsGrow(p, s, st);
      longer := Finish(p, longer);
    }
  }

  // ---------- Holding back the handlers of a node ----------

  /** No handler of node n has taken a step. */
  ghost predicate AllAtStart(s: State, n: int) {
    |s.hs| == |s.ops| && forall h | 0 <= h < |s.hs| && s.ops[h].dst == n :: s.hs[h].ph.Start?
  }

  ghost predicate IsHeldBack(s: State, st: Step, n: int) {
    st.Act? && st.h < |s.ops| && s.ops[st.h].dst == n
  }

  /** Nothing is left to do but for the handlers of node n. */
  ghost predicate OnlyHeldBack(p: Program, s: State, n: int) {
    forall st | Enabled(p, s, st) :: IsHeldBack(s, st, n)
  }

  lemma StartKept(p: Program, s: State, st: Step, n: int)
    requires Enabled(p, s, st) && AllAtStart(s, n) && !IsHeldBack(s, st, n) && n != 0
    ensures AllAtStart(Apply(p, s, st), n)
  {
    if st.Act? { ActShape(s, st.h); }
  }

  /** Everything but the handlers of node n can be run to the end. */
  lemma {:induction false} HoldBack(p: Program, run: seq<State>, n: int) returns (longer: seq<State>)
    requires WellFormed(p) && IsRun(p, run) && Inv(p, run[|run| - 1]) && n != 0 && AllAtStart(run[|run| - 1], n)
    ensures IsRun(p, longer) && Inv(p, longer[|longer| - 1]) && AllAtStart(longer[|longer| - 1], n)
    ensures OnlyHeldBack(p, longer[|longer| - 1], n)
    decreases Undelivered(p, run[|run| - 1]), Sum(Puts, run[|run| - 1].hs), Sum(Reads, run[|run| - 1].hs)
  {
    var s := run[|run| - 1];
    if OnlyHeldBack(p, s, n) {
      longer := run;
    } else {
      var st :| Enabled(p, s, st) && !IsHeldBack(s, st, n);
      longer := Extend(p, run, st);
      StepInv(p, s, st);
      StepDecreases(p, s, st);
      StartKept(p, s, st, n);
      longer := HoldBack(p, longer, n);
    }
  }

  lemma HeldBackIsQuiet(p: Program, rank: map<int, nat>, s: State, n: int)
    requires OnlyHeldBack(p, s, n) && n in rank
    ensures QuietBelow(p, rank, s, rank[n])
  {
    forall i: nat | i < |p.ext| ensures Delivered(s, Ext(i)) {
      if !Delivered(s, Ext(i)) { assert Enabled(p, s, Deliver(i)); }
    }
    forall h: nat | h < |s.hs| && h < |s.ops| && s.ops[h].dst != n ensures s.hs[h].ph.NoHandler? || s.hs[h].ph.Exit? {
      assert !IsHeldBack(s, Act(h), n);
    }
  }

  // ---------- One handler at a time ----------

  /** As long as its handlers have not started, the log has the original record of a node and
      no other. */
  lemma OnlyOriginal(p: Program, s: State, n: int) returns (k0: int)
    requires WellFormed(p) && Inv(p, s) && AllAtStart(s, n) && n in p.nodes
    ensures 0 <= k0 < |s.log| && s.log[k0].rec == OriginalNode(p, n)
    ensures forall k | 0 <= k < |s.log| && k != k0 :: s.log[k].rec.no != n
  {
    assert n in p.layout;
    k0 :| 0 <= k0 < |p.layout| && p.layout[k0] == n;
    forall k | 0 <= k < |s.log| && k != k0 ensures s.log[k].rec.no != n {
      if k >= |p.layout| {
        assert Owned(p, s, k);
        Known(p, s, s.log[k].writer);
      }
    }
  }

  ghost function With(s: State, i: nat, h: Handler): State
    requires i < |s.hs|
  {
    s.(hs := s.hs[i := h])
  }

  /** The scan goes down to the original record. */
  lemma {:induction false} ScanDown(p: Program, run: seq<State>, s: State, n: int, i: nat, q: int, c: int, k0: int)
    returns (longer: seq<State>)
    requires IsRun(p, run) && i < |s.hs| == |s.ops| && s.ops[i].dst == n && n in p.nodes
    requires run[|run| - 1] == With(s, i, Handler(Scan(q), c, 0, 0))
    requires 0 <= k0 < q < c && q <= |s.log| && s.log[k0].rec == OriginalNode(p, n)
    requires forall k | k0 < k < q :: s.log[k].rec.no != n
    ensures IsRun(p, longer)
    ensures longer[|longer| - 1] == With(s, i, Handler(Park(PartialNode(p, s.ops[i])), c, 0, 0))
    decreases q
  {
    longer := Extend(p, run, Act(i));
    if q - 1 > k0 {
      assert longer[|longer| - 1] == With(s, i, Handler(Scan(q - 1), c, 0, 0));
      longer := ScanDown(p, longer, s, n, i, q - 1, c, k0);
    } else {
      assert longer[|longer| - 1] == With(s, i, Handler(Park(PartialNode(p, s.ops[i])), c, 0, 0));
    }
  }

  /** The handler of operand i has run alone and has parked its value. */
  ghost function Halfway(p: Program, s: State, i: nat): State
    requires i < |s.hs| == |s.ops| && s.ops[i].dst in p.nodes
  {
    var o, c := s.ops[i], |s.log| + 1;
    State(s.log + [Entry(ClaimNode(o), i), Entry(PartialNode(p, o), i)], s.ops,
          s.hs[i := Handler(Exit(Parked), c, c + 1, 0)])
  }

  /** The first handler claims, finds the original node, parks its value and sees no future. */
  lemma RunFirst(p: Program, run: seq<State>, n: int, i: nat, k0: int) returns (longer: seq<State>)
    requires IsRun(p, run) && n in p.nodes
    requires var s := run[|run| - 1];
      && i < |s.hs| == |s.ops| && s.ops[i].dst == n && s.hs[i] == Handler(Start, 0, 0, 0)
      && 0 <= k0 < |s.log| && s.log[k0].rec == OriginalNode(p, n)
      && forall k | 0 <= k < |s.log| && k != k0 :: s.log[k].rec.no != n
    ensures IsRun(p, longer) && longer[|longer| - 1] == Halfway(p, run[|run| - 1], i)
  {
    var s := run[|run| - 1];
    var o, c := s.ops[i], |s.log| + 1;
    longer := Extend(p, run, Act(i));
    var s1 := State(s.log + [Entry(ClaimNode(o), i)], s.ops, s.hs);
    assert longer[|longer| - 1] == With(s1, i, Handler(Scan(|s.log|), c, 0, 0));
    longer := ScanDown(p, longer, s1, n, i, |s.log|, c, k0);
    longer := RunParked(p, longer, s, s1, i);
  }

  lemma RunParked(p: Program, run: seq<State>, s: State, s1: State, i: nat) returns (longer: seq<State>)
    requires IsRun(p, run) && i < |s.hs| == |s.ops| && s.ops[i].dst in p.nodes
    requires s1 == State(s.log + [Entry(ClaimNode(s.ops[i]), i)], s.ops, s.hs)
    requires run[|run| - 1] == With(s1, i, Handler(Park(PartialNode(p, s.ops[i])), |s.log| + 1, 0, 0))
    ensures IsRun(p, longer) && longer[|longer| - 1] == Halfway(p, s, i)
  {
    var part, c := PartialNode(p, s.ops[i]), |s.log| + 1;
    longer := Extend(p, run, Act(i));
    var s2 := State(s1.log + [Entry(part, i)], s.ops, s.hs);
    assert longer[|longer| - 1] == With(s2, i, Handler(Future(part, c), c, c + 1, 0));
    longer := Extend(p, longer, Act(i));
    assert s2.log == Halfway(p, s, i).log;
  }

  /** What node n computes if the handler of operand i runs before that of operand j. */
  ghost function ResultOf(p: Program, s: State, i: nat, j: nat): Operand
    requires i < |s.ops| && j < |s.ops| && s.ops[i].dst in p.nodes
  {
    var n := s.ops[i].dst;
    Operand(Res(n), PartialResult(PartialNode(p, s.ops[i]), s.ops[j]), p.nodes[n].dst, p.nodes[n].dstOrder)
  }

  /** The second handler claims, finds the partial, and fires with the operand that it serves. */
  lemma RunSecond(p: Program, run: seq<State>, s: State, n: int, i: nat, j: nat) returns (longer: seq<State>)
    requires IsRun(p, run) && i < |s.hs| == |s.ops| && j < |s.hs| && i != j && n in p.nodes
    requires s.ops[i].dst == n == s.ops[j].dst && run[|run| - 1] == Halfway(p, s, i)
    requires s.hs[j] == Handler(Start, 0, 0, 0)
    ensures IsRun(p, longer) && longer[|longer| - 1].ops == s.ops + [ResultOf(p, s, i, j)]
  {
    var o, part, c := s.ops[j], PartialNode(p, s.ops[i]), |s.log| + 1;
    var t := Halfway(p, s, i);
    longer := Extend(p, run, Act(j));
    var t1 := t.(log := t.log + [Entry(ClaimNode(o), j)]);
    assert longer[|longer| - 1] == With(t1, j, Handler(Scan(c + 1), c + 2, 0, 0));
    longer := Extend(p, longer, Act(j));
    var res := PartialResult(part, o);
    assert longer[|longer| - 1] == With(t1, j, Handler(Retire(part, res), c + 2, 0, 0));
    longer := Extend(p, longer, Act(j));
    assert longer[|longer| - 1].hs[j].ph == Send(part, res) && longer[|longer| - 1].ops == s.ops;
    longer := Extend(p, longer, Act(j));
  }

  /** From a state in which only handlers i and j of node n are left, they can be run one after
      the other, and then everything to the end. */
  lemma RunOneByOne(p: Program, run: seq<State>, n: int, i: nat, j: nat) returns (longer: seq<State>)
    requires WellFormed(p) && n in p.nodes && IsRun(p, run)
    requires Inv(p, run[|run| - 1]) && AllAtStart(run[|run| - 1], n)
    requires i < |run[|run| - 1].ops| && j < |run[|run| - 1].ops| && i != j
    requires run[|run| - 1].ops[i].dst == n == run[|run| - 1].ops[j].dst
    ensures IsRun(p, longer) && Quiescent(p, longer[|longer| - 1])
    ensures run[|run| - 1].ops + [ResultOf(p, run[|run| - 1], i, j)] <= longer[|longer| - 1].ops
  {
    var s := run[|run| - 1];
    var k0 := OnlyOriginal(p, s, n);
    Known(p, s, i);
    Known(p, s, j);
    longer := RunFirst(p, run, n, i, k0);
    longer := RunSecond(p, longer, s, n, i, j);
    RunInv(p, longer);
    longer := Finish(p, longer);
  }
}
