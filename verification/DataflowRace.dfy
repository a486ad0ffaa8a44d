/**
 When the results of a dataflow program depend on the interleaving: all complete runs agree
 on the results of all nodes exactly if every node is ordered.
 */
module DataflowRace {
  import opened DataflowModel
  import opened DataflowSafety
  import opened DataflowTheorems
  import opened DataflowSchedules

  ghost predicate Complete(p: Program, run: seq<State>) {
    IsRun(p, run) && Quiescent(p, run[|run| - 1])
  }

  /** The two runs end with the same result of node n. */
  ghost predicate Agree(p: Program, n: int, run: seq<State>, run': seq<State>)
    requires |run| > 0 && |run'| > 0
  {
    var s, s' := run[|run| - 1], run'[|run'| - 1];
    forall t, u | ResultAt(s, n, t) && ResultAt(s', n, u) :: s.ops[t].value == s'.ops[u].value
  }

  /** All complete runs end with the same result of node n. */
  ghost predicate AllAgree(p: Program, n: int) {
    forall run, run' | Complete(p, run) && Complete(p, run') :: Agree(p, n, run, run')
  }

  // ---------- Ordered programs ----------

  lemma OrderedAgree(p: Program, rank: map<int, nat>, n: int, run: seq<State>, run': seq<State>)
    requires WellFormed(p) && Acyclic(p, rank) && AllOrdered(p, rank) && n in p.nodes
    requires Complete(p, run) && Complete(p, run')
    ensures Agree(p, n, run, run')
  {
    var s, s' := run[|run| - 1], run'[|run'| - 1];
    forall t, u | ResultAt(s, n, t) && ResultAt(s', n, u) ensures s.ops[t].value == s'.ops[u].value {
      ResultsAreEvaluation(p, rank, run, n, t);
      ResultsAreEvaluation(p, rank, run', n, u);
    }
  }

  // ---------- Unordered nodes ----------

  /** An unordered node all of whose predecessors are ordered. */
  lemma {:induction false} LeastUnordered(p: Program, rank: map<int, nat>, m: int) returns (n: int)
    requires WellFormed(p) && Acyclic(p, rank) && m in p.nodes && !Ordered(p, rank, m)
    ensures n in p.nodes && !Ordered(p, rank, n) && OrderedBelow(p, rank, rank[n])
    decreases rank[m]
  {
    if k :| k in p.nodes && rank[k] < rank[m] && !Ordered(p, rank, k) {
      n := LeastUnordered(p, rank, k);
    } else {
      n := m;
    }
  }

  /** The state in which only the two handlers of node n are left to run. */
  lemma ReachFork(p: Program, rank: map<int, nat>, n: int, start: State)
    returns (run: seq<State>, i: nat, j: nat)
    requires WellFormed(p) && Acyclic(p, rank) && n in p.nodes && TwoSources(p, n) && Init(p, start)
    ensures IsRun(p, run) && Inv(p, run[|run| - 1]) && AllAtStart(run[|run| - 1], n)
    ensures i < |run[|run| - 1].ops| && j < |run[|run| - 1].ops|
    ensures run[|run| - 1].ops[i].src == p.first[n] && run[|run| - 1].ops[j].src == p.second[n]
    ensures run[|run| - 1].ops[i].dst == n == run[|run| - 1].ops[j].dst
  {
    InitInv(p, start);
    run := HoldBack(p, [start], n);
    var s := run[|run| - 1];
    HeldBackIsQuiet(p, rank, s, n);
    assert TwoSources(p, n);
    i := SourceDelivered(p, rank, s, n, p.first[n], rank[n]);
    j := SourceDelivered(p, rank, s, n, p.second[n], rank[n]);
  }

  /** An unordered node computes different values in the two orders. */
  lemma OrdersDiffer(p: Program, rank: map<int, nat>, n: int, s: State, i: nat, j: nat)
    requires WellFormed(p) && Acyclic(p, rank) && n in p.nodes && !Ordered(p, rank, n)
    requires i < |s.ops| && j < |s.ops| && s.ops[i].dst == n == s.ops[j].dst && TwoSources(p, n)
    requires s.ops[i].src == p.first[n] && s.ops[i].order == OrderOf(p, p.first[n])
    requires s.ops[j].src == p.second[n] && s.ops[j].order == OrderOf(p, p.second[n])
    requires s.ops[i].value == EvalSource(p, rank, n, p.first[n])
    requires s.ops[j].value == EvalSource(p, rank, n, p.second[n])
    ensures ResultOf(p, s, i, j).value != ResultOf(p, s, j, i).value
  {
  }

  /** Two complete runs that disagree on an unordered node. */
  lemma Disagree(p: Program, rank: map<int, nat>, n: int, start: State) returns (r1: seq<State>, r2: seq<State>)
    requires WellFormed(p) && Acyclic(p, rank) && Init(p, start)
    requires n in p.nodes && !Ordered(p, rank, n) && OrderedBelow(p, rank, rank[n])
    ensures Complete(p, r1) && Complete(p, r2) && !Agree(p, n, r1, r2)
  {
    assert TwoSources(p, n);
    var run, i, j := ReachFork(p, rank, n, start);
    var s := run[|run| - 1];
    OperandIsValue(p, rank, n, run, i);
    OperandIsValue(p, rank, n, run, j);
    OrdersDiffer(p, rank, n, s, i, j);
    r1 := RunOneByOne(p, run, n, i, j);
    r2 := RunOneByOne(p, run, n, j, i);
    assert ResultAt(r1[|r1| - 1], n, |s.ops|) && ResultAt(r2[|r2| - 1], n, |s.ops|);
  }

  /** There is an initial state. */
  lemma Beginning(p: Program) returns (start: State)
    requires WellFormed(p)
    ensures Init(p, start)
  {
    start := State(seq(|p.layout|, k requires 0 <= k < |p.layout| => Entry(OriginalNode(p, p.layout[k]), -1)), [], []);
  }

  /** All complete runs of an acyclic program agree on the results of all nodes exactly if in
      every node one operand alone has order 1, or the operation is the same both ways round. */
  lemma AllAgreeIff(p: Program, rank: map<int, nat>)
    requires WellFormed(p) && Acyclic(p, rank)
    ensures (forall n | n in p.nodes :: AllAgree(p, n)) <==> AllOrdered(p, rank)
  {
    if AllOrdered(p, rank) {
      forall n, run, run' | n in p.nodes && Complete(p, run) && Complete(p, run') ensures Agree(p, n, run, run') {
        OrderedAgree(p, rank, n, run, run');
      }
    } else {
      var m :| m in p.nodes && !Ordered(p, rank, m);
      var n := LeastUnordered(p, rank, m);
      var start := Beginning(p);
      var r1, r2 := Disagree(p, rank, n, start);
      assert !AllAgree(p, n);
    }
  }
}
