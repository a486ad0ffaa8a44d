/**
 The results about whole runs of a dataflow program: every node fires exactly once,
 every run ends, and the values delivered are those of the recursive evaluation of the
 program, whatever the interleaving.
 */
module DataflowTheorems {
  import opened DataflowModel
  import opened DataflowSafety

  // ---------- Exactly once ----------

  ghost predicate DoneAt(s: State, n: int, k: int) {
    0 <= k < |s.log| && s.log[k].rec.no == n && s.log[k].rec.state == DONE
  }

  ghost predicate ResultAt(s: State, n: int, t: int) {
    0 <= t < |s.ops| && s.ops[t].src == Res(n)
  }

  /** In every state of every run a node has at most one DONE record and at most one
      result, and no handler has taken one of the three error exits. */
  lemma FiredAtMostOnce(p: Program, run: seq<State>)
    requires WellFormed(p) && IsRun(p, run)
    ensures var s := run[|run| - 1];
      && (forall n, k, l | DoneAt(s, n, k) && DoneAt(s, n, l) :: k == l)
      && (forall n, t, u | ResultAt(s, n, t) && ResultAt(s, n, u) :: t == u)
      && (forall h | 0 <= h < |s.hs| :: s.hs[h].ph.Exit? ==> s.hs[h].ph.code in {Fired, Deferred, Parked})
  {
    RunInv(p, run);
    var s := run[|run| - 1];
    forall n, k, l | DoneAt(s, n, k) && DoneAt(s, n, l) ensures k == l {
      var i := DoneWriter(p, s, n, k);
      var j := DoneWriter(p, s, n, l);
      OneFires(p, s, i, j);
    }
    forall h | 0 <= h < |s.hs| && s.hs[h].ph.Exit?
      ensures s.hs[h].ph.code in {Fired, Deferred, Parked}
    {
      Known(p, s, h);
    }
  }

  lemma DoneWriter(p: Program, s: State, n: int, k: int) returns (i: int)
    requires WellFormed(p) && Inv(p, s) && DoneAt(s, n, k)
    ensures 0 <= i < |s.hs| && s.ops[i].dst == n && Firing(s.hs[i]) && s.hs[i].e == k + 1
  {
    assert |p.layout| <= k;
    assert Owned(p, s, k);
    i := s.log[k].writer;
    assert HandlerInv(p, s, i);
  }

  /** An acyclic program: a node ranks above the nodes that feed it. */
  ghost predicate Acyclic(p: Program, rank: map<int, nat>) {
    && (forall n | n in p.nodes :: n in rank)
    && (forall m {:trigger RanksBelow(p, rank, m)} | m in p.nodes :: RanksBelow(p, rank, m))
  }

  ghost predicate RanksBelow(p: Program, rank: map<int, nat>, m: int)
    requires m in p.nodes && m in rank && forall n | n in p.nodes :: n in rank
  {
    p.nodes[m].dst in p.nodes ==> rank[m] < rank[p.nodes[m].dst]
  }

  /** When nothing is left to do, every node of an acyclic program has fired: it has one
      DONE record and one result. */
  lemma FiredExactlyOnce(p: Program, rank: map<int, nat>, run: seq<State>, n: int)
    requires WellFormed(p) && Acyclic(p, rank) && IsRun(p, run) && n in p.nodes
    requires Quiescent(p, run[|run| - 1])
    ensures var s := run[|run| - 1];
      && (exists k :: DoneAt(s, n, k) && forall l | DoneAt(s, n, l) :: l == k)
      && (exists t :: ResultAt(s, n, t) && forall u | ResultAt(s, n, u) :: u == t)
  {
    var s := run[|run| - 1];
    FiredAtMostOnce(p, run);
    var k, t := FiredByEnd(p, rank, run, n);
    assert DoneAt(s, n, k) && ResultAt(s, n, t);
  }

  lemma FiredByEnd(p: Program, rank: map<int, nat>, run: seq<State>, n: int) returns (k: int, t: int)
    requires WellFormed(p) && Acyclic(p, rank) && IsRun(p, run) && n in p.nodes
    requires Quiescent(p, run[|run| - 1])
    ensures DoneAt(run[|run| - 1], n, k) && ResultAt(run[|run| - 1], n, t)
  {
    var s := run[|run| - 1];
    RunInv(p, run);
    QuiescentIsQuiet(p, rank, s, rank[n] + 1);
    var h := SomeHandlerFired(p, rank, s, n, rank[n] + 1);
    k, t := FiredRecords(p, s, n, h);
  }

  lemma FiredRecords(p: Program, s: State, n: int, h: int) returns (k: int, t: int)
    requires Inv(p, s) && n in p.nodes && 0 <= h < |s.hs| && s.ops[h].dst == n && s.hs[h].ph == Exit(Fired)
    ensures DoneAt(s, n, k) && ResultAt(s, n, t)
  {
    assert HandlerInv(p, s, h);
    k := s.hs[h].e - 1;
    t :| 0 <= t < |s.ops| && s.ops[t].src == Res(n);
  }

  /** Nothing is left to do for nodes of a rank below b. */
  ghost predicate QuietBelow(p: Program, rank: map<int, nat>, s: State, b: nat) {
    && (forall i: nat | i < |p.ext| :: Delivered(s, Ext(i)))
    && (forall h: nat | h < |s.hs| && h < |s.ops| && s.ops[h].dst in p.nodes && s.ops[h].dst in rank
                        && rank[s.ops[h].dst] < b :: s.hs[h].ph.NoHandler? || s.hs[h].ph.Exit?)
  }

  lemma QuiescentIsQuiet(p: Program, rank: map<int, nat>, s: State, b: nat)
    requires Quiescent(p, s)
    ensures QuietBelow(p, rank, s, b)
  {
    forall i: nat | i < |p.ext| ensures Delivered(s, Ext(i)) { assert !Enabled(p, s, Deliver(i)); }
    forall h: nat | h < |s.hs| && h < |s.ops| ensures s.hs[h].ph.NoHandler? || s.hs[h].ph.Exit? {
      assert !Enabled(p, s, Act(h));
    }
  }

  /** Both operands of a node have arrived, by induction on its rank. */
  lemma {:induction false} SourceDelivered(p: Program, rank: map<int, nat>, s: State, n: int, src: Source, b: nat)
    returns (t: int)
    requires WellFormed(p) && Acyclic(p, rank) && Inv(p, s) && QuietBelow(p, rank, s, b)
    requires n in p.nodes && rank[n] <= b && TwoSources(p, n) && (src == p.first[n] || src == p.second[n])
    ensures 0 <= t < |s.ops| && s.ops[t].src == src && s.ops[t].dst == n
    decreases rank[n], 0
  {
    match src
    case Ext(i) =>
      assert Delivered(s, Ext(i));
      t :| 0 <= t < |s.ops| && s.ops[t].src == src;
      assert OperandOk(p, s.ops[t], s.hs[t]);
    case Res(m) =>
      assert RanksBelow(p, rank, m);
      var h := SomeHandlerFired(p, rank, s, m, b);
      assert HandlerInv(p, s, h);
      t :| 0 <= t < |s.ops| && s.ops[t].src == src;
      assert OperandOk(p, s.ops[t], s.hs[t]);
  }

  /** One of the two handlers of a node has fired it. */
  lemma {:induction false} SomeHandlerFired(p: Program, rank: map<int, nat>, s: State, n: int, b: nat)
    returns (h: int)
    requires WellFormed(p) && Acyclic(p, rank) && Inv(p, s) && QuietBelow(p, rank, s, b) && n in p.nodes && rank[n] < b
    ensures 0 <= h < |s.hs| && s.ops[h].dst == n && s.hs[h].ph == Exit(Fired)
    decreases rank[n], 1
  {
    assert TwoSources(p, n);
    var i := SourceDelivered(p, rank, s, n, p.first[n], b);
    var j := SourceDelivered(p, rank, s, n, p.second[n], b);
    h := OneOfTwoFired(p, rank, s, i, j, b);
  }

  lemma OneOfTwoFired(p: Program, rank: map<int, nat>, s: State, i: int, j: int, b: nat) returns (h: int)
    requires WellFormed(p) && Inv(p, s) && QuietBelow(p, rank, s, b)
    requires 0 <= i < |s.hs| && 0 <= j < |s.hs| && i != j && s.ops[i].dst == s.ops[j].dst
    requires s.ops[i].dst in p.nodes && s.ops[i].dst in rank && rank[s.ops[i].dst] < b
    ensures (h == i || h == j) && s.hs[h].ph == Exit(Fired)
  {
    HasExited(p, rank, s, i, b);
    HasExited(p, rank, s, j, b);
    if s.hs[i].c < s.hs[j].c { FirstOrSecondFired(p, s, i, j); } else { FirstOrSecondFired(p, s, j, i); }
    h := if s.hs[i].ph == Exit(Fired) then i else j;
  }

  lemma HasExited(p: Program, rank: map<int, nat>, s: State, i: int, b: nat)
    requires WellFormed(p) && Inv(p, s) && QuietBelow(p, rank, s, b)
    requires 0 <= i < |s.hs| && s.ops[i].dst in p.nodes && s.ops[i].dst in rank && rank[s.ops[i].dst] < b
    ensures s.hs[i].ph.Exit? && s.hs[i].ph.code in {Fired, Deferred, Parked} && s.hs[i].c > 0
    ensures s.hs[i].c <= |s.log| && s.log[s.hs[i].c - 1].writer == i
  {
    assert OperandOk(p, s.ops[i], s.hs[i]);
    Known(p, s, i);
  }

  /** The handler that claimed first fires and the second defers to it, or the first parks its
      value and the second fires. */
  lemma FirstOrSecondFired(p: Program, s: State, i: int, j: int)
    requires WellFormed(p) && Inv(p, s) && 0 <= i < |s.hs| && 0 <= j < |s.hs| && i != j
    requires s.ops[i].dst == s.ops[j].dst && s.ops[i].dst in p.nodes && 0 < s.hs[i].c < s.hs[j].c
    requires s.hs[i].ph.Exit? && s.hs[j].ph.Exit?
    ensures || (s.hs[i].ph == Exit(Fired) && s.hs[j].ph == Exit(Deferred))
            || (s.hs[i].ph == Exit(Parked) && s.hs[j].ph == Exit(Fired))
  {
    Known(p, s, i);
    Known(p, s, j);
    assert PairInv(s, i, j);
    if s.hs[i].ph == Exit(Deferred) {
      // an older claim would belong to a third handler
      var k :| Partner(s, i, k) && s.hs[k].c < s.hs[i].c;
      AtMostTwo(p, s, i, j, k);
      assert false;
    }
  }

  // ---------- What a result is computed from ----------

  /** The operation of their node on operands a and b, where b fires the node. */
  ghost function Combined(p: Program, a: Operand, b: Operand): Num
    requires a.dst in p.nodes
  {
    var opcode := p.nodes[a.dst].opcode;
    if a.order == 1 then DFOperation(opcode, a.value, b.value) else DFOperation(opcode, b.value, a.value)
  }

  ghost predicate Combines(p: Program, ops: seq<Operand>, n: int, i: int, h: int, r: Num) {
    && n in p.nodes && 0 <= i < |ops| && 0 <= h < |ops| && i != h
    && ops[i].dst == n == ops[h].dst && r == Combined(p, ops[i], ops[h])
  }

  /** Value r is the operation of node n on its two operands. */
  ghost predicate Computed(p: Program, ops: seq<Operand>, n: int, r: Num) {
    exists i, h :: Combines(p, ops, n, i, h, r)
  }

  /** All results, put and under way, have been computed from two operands of their node. */
  ghost predicate ComputedInv(p: Program, s: State) {
    && |s.hs| == |s.ops|
    && (forall t | 0 <= t < |s.ops| :: s.ops[t].src.Res? ==> Computed(p, s.ops, s.ops[t].src.m, s.ops[t].value))
    && (forall h | 0 <= h < |s.hs| :: PhaseComputed(p, s.ops, s.ops[h].dst, s.hs[h].ph))
  }

  ghost predicate PhaseComputed(p: Program, ops: seq<Operand>, n: int, ph: Phase) {
    ph.Retire? || ph.Send? ==> Computed(p, ops, n, ph.result)
  }

  lemma ComputedStable(p: Program, ops: seq<Operand>, ops': seq<Operand>, n: int, r: Num)
    requires ops <= ops' && Computed(p, ops, n, r)
    ensures Computed(p, ops', n, r)
  {
    var i, h :| Combines(p, ops, n, i, h, r);
    assert Combines(p, ops', n, i, h, r);
  }

  /** A partial found at q belongs to the other operand. */
  lemma ScanComputes(p: Program, s: State, h: nat)
    requires WellFormed(p) && Inv(p, s) && h < |s.hs| && s.hs[h].ph.Scan?
    ensures PhaseComputed(p, s.ops, s.ops[h].dst, ActOf(s, h).hs[h].ph)
  {
    Known(p, s, h);
    var n, hd := s.ops[h].dst, s.hs[h];
    OriginalBelow(p, s, n, hd.ph.seqno, hd.c - 1);
    var k := hd.ph.seqno - 1;
    if |p.layout| <= k && s.log[k].rec.no == n && s.log[k].rec.ready == 1 {
      var i := OlderRecord(p, s, h, k);
      assert Combines(p, s.ops, n, i, h, PartialResult(s.log[k].rec, s.ops[h]));
    }
  }

  /** The claim found at f belongs to the other operand. */
  lemma FutureComputes(p: Program, s: State, h: nat)
    requires WellFormed(p) && Inv(p, s) && h < |s.hs| && s.hs[h].ph.Future?
    ensures PhaseComputed(p, s.ops, s.ops[h].dst, ActOf(s, h).hs[h].ph)
  {
    Known(p, s, h);
    var n, hd := s.ops[h].dst, s.hs[h];
    if hd.c < hd.ph.f {
      var k := hd.ph.f - 1;
      if s.log[k].rec.no == n && s.log[k].rec.state == CLAIM {
        var i := YoungerClaim(p, s, h, k);
        assert Combines(p, s.ops, n, i, h, FutureResult(hd.ph.node, s.log[k].rec, s.ops[h]));
      }
    }
  }

  /** What one step of handler h can change. */
  lemma ActShape(s: State, h: nat)
    requires h < |s.hs| == |s.ops|
    ensures var s' := ActOf(s, h);
      && |s'.hs| == |s'.ops| && |s.hs| <= |s'.hs| <= |s.hs| + 1 && s.ops <= s'.ops
      && (forall i | 0 <= i < |s.hs| && i != h :: s'.hs[i] == s.hs[i])
      && (|s'.hs| == |s.hs| + 1 ==>
            && s.hs[h].ph.Send? && (s'.hs[|s.hs|].ph.Start? || s'.hs[|s.hs|].ph.NoHandler?)
            && s'.ops[|s.ops|].src == Res(s.hs[h].ph.node.no) && s'.ops[|s.ops|].value == s.hs[h].ph.result)
  {
  }

  /** A firing handler keeps the value that it has computed. */
  lemma ActComputes(p: Program, s: State, h: nat)
    requires WellFormed(p) && Inv(p, s) && ComputedInv(p, s) && Enabled(p, s, Act(h))
    ensures PhaseComputed(p, s.ops, s.ops[h].dst, ActOf(s, h).hs[h].ph)
  {
    if s.hs[h].ph.Scan? {
      ScanComputes(p, s, h);
    } else if s.hs[h].ph.Future? {
      FutureComputes(p, s, h);
    } else {
      assert PhaseComputed(p, s.ops, s.ops[h].dst, s.hs[h].ph);
    }
  }

  lemma PhaseStable(p: Program, ops: seq<Operand>, ops': seq<Operand>, n: int, ph: Phase)
    requires ops <= ops' && PhaseComputed(p, ops, n, ph)
    ensures PhaseComputed(p, ops', n, ph)
  {
    if ph.Retire? || ph.Send? { ComputedStable(p, ops, ops', n, ph.result); }
  }

  lemma ActStays(p: Program, s: State, h: nat)
    requires WellFormed(p) && Inv(p, s) && ComputedInv(p, s) && Enabled(p, s, Act(h))
    ensures ComputedInv(p, ActOf(s, h))
  {
    var s' := ActOf(s, h);
    Known(p, s, h);
    ActShape(s, h);
    ActComputes(p, s, h);
    assert PhaseComputed(p, s.ops, s.ops[h].dst, s.hs[h].ph);
    forall t | 0 <= t < |s'.ops| && s'.ops[t].src.Res? ensures Computed(p, s'.ops, s'.ops[t].src.m, s'.ops[t].value) {
      ComputedStable(p, s.ops, s'.ops, s'.ops[t].src.m, s'.ops[t].value);
    }
    forall i | 0 <= i < |s'.hs| ensures PhaseComputed(p, s'.ops, s'.ops[i].dst, s'.hs[i].ph) {
      if i < |s.hs| { PhaseStable(p, s.ops, s'.ops, s.ops[i].dst, s'.hs[i].ph); }
    }
  }

  lemma DeliverStays(p: Program, s: State, i: nat)
    requires ComputedInv(p, s) && Enabled(p, s, Deliver(i))
    ensures ComputedInv(p, Apply(p, s, Deliver(i)))
  {
    var s' := Apply(p, s, Deliver(i));
    forall t | 0 <= t < |s'.ops| && s'.ops[t].src.Res? ensures Computed(p, s'.ops, s'.ops[t].src.m, s'.ops[t].value) {
      ComputedStable(p, s.ops, s'.ops, s'.ops[t].src.m, s'.ops[t].value);
    }
    forall h | 0 <= h < |s'.hs| ensures PhaseComputed(p, s'.ops, s'.ops[h].dst, s'.hs[h].ph) {
      if h < |s.hs| { PhaseStable(p, s.ops, s'.ops, s.ops[h].dst, s'.hs[h].ph); }
    }
  }

  /** In every state of every run, whether the program is acyclic and its nodes are ordered or
      not, every result is the operation of its node on the two operands of the node. */
  lemma {:induction false} RunComputes(p: Program, run: seq<State>)
    requires WellFormed(p) && IsRun(p, run)
    ensures ComputedInv(p, run[|run| - 1])
  {
    if |run| > 1 {
      var s, before := run[|run| - 2], run[..|run| - 1];
      RunComputes(p, before);
      RunInv(p, before);
      assert Next(p, s, run[|run| - 1]);
      var st :| Enabled(p, s, st) && run[|run| - 1] == Apply(p, s, st);
      match st
      case Deliver(i) => DeliverStays(p, s, i);
      case Act(h) => ActStays(p, s, h);
    }
  }

  /** The operation of node n on x and y, the values of its first and its second source, if the
      second or if the first of the two fires the node. */
  ghost predicate EitherWay(p: Program, n: int, x: Num, y: Num, r: Num)
    requires n in p.nodes && TwoSources(p, n)
  {
    var opcode := p.nodes[n].opcode;
    || r == (if OrderOf(p, p.first[n]) == 1 then DFOperation(opcode, x, y) else DFOperation(opcode, y, x))
    || r == (if OrderOf(p, p.second[n]) == 1 then DFOperation(opcode, y, x) else DFOperation(opcode, x, y))
  }

  /** A result and the operands that it was computed from. */
  lemma ResultFrom(p: Program, run: seq<State>, n: int, t: int) returns (i: int, j: int)
    requires WellFormed(p) && IsRun(p, run) && n in p.nodes && TwoSources(p, n) && ResultAt(run[|run| - 1], n, t)
    ensures var ops := run[|run| - 1].ops;
      && 0 <= i < |ops| && ops[i].src == p.first[n] && 0 <= j < |ops| && ops[j].src == p.second[n]
      && EitherWay(p, n, ops[i].value, ops[j].value, ops[t].value)
  {
    var s := run[|run| - 1];
    RunInv(p, run);
    RunComputes(p, run);
    var a, b :| Combines(p, s.ops, n, a, b, s.ops[t].value);
    assert OperandOk(p, s.ops[a], s.hs[a]) && OperandOk(p, s.ops[b], s.hs[b]) && s.ops[a].src != s.ops[b].src;
    i, j := if s.ops[a].src == p.first[n] then a else b, if s.ops[a].src == p.first[n] then b else a;
  }

  // ---------- Values ----------

  /** The recursive evaluation of an acyclic program. */
  ghost function Eval(p: Program, rank: map<int, nat>, n: int): Num
    requires WellFormed(p) && Acyclic(p, rank) && n in p.nodes
    decreases rank[n], 1
  {
    assert TwoSources(p, n);
    var a, b := EvalSource(p, rank, n, p.first[n]), EvalSource(p, rank, n, p.second[n]);
    if OrderOf(p, p.first[n]) == 1
    then DFOperation(p.nodes[n].opcode, a, b)
    else DFOperation(p.nodes[n].opcode, b, a)
  }

  ghost function EvalSource(p: Program, rank: map<int, nat>, n: int, src: Source): Num
    requires WellFormed(p) && Acyclic(p, rank) && n in p.nodes && ValidSource(p, src) && DstOf(p, src) == n
    decreases rank[n], 0
  {
    match src
    case Ext(i) => p.ext[i].value
    case Res(m) => assert RanksBelow(p, rank, m); Eval(p, rank, m)
  }

  /** Exactly one of the two operands of n is to come first, or it does not matter which does. */
  ghost predicate Ordered(p: Program, rank: map<int, nat>, n: int)
    requires WellFormed(p) && Acyclic(p, rank) && n in p.nodes
  {
    assert TwoSources(p, n);
    var a, b := EvalSource(p, rank, n, p.first[n]), EvalSource(p, rank, n, p.second[n]);
    || (OrderOf(p, p.first[n]) == 1) != (OrderOf(p, p.second[n]) == 1)
    || DFOperation(p.nodes[n].opcode, a, b) == DFOperation(p.nodes[n].opcode, b, a)
  }

  ghost predicate AllOrdered(p: Program, rank: map<int, nat>)
    requires WellFormed(p) && Acyclic(p, rank)
  {
    forall n | n in p.nodes :: Ordered(p, rank, n)
  }

  /** All nodes of a rank below b are ordered. */
  ghost predicate OrderedBelow(p: Program, rank: map<int, nat>, b: nat)
    requires WellFormed(p) && Acyclic(p, rank)
  {
    forall n | n in p.nodes && rank[n] < b :: Ordered(p, rank, n)
  }

  /** Additions and multiplications are ordered whatever their operands are. */
  lemma CommutativeOpcodes(p: Program, rank: map<int, nat>, n: int)
    requires WellFormed(p) && Acyclic(p, rank) && n in p.nodes && p.nodes[n].opcode in {ADD, MUL}
    ensures Ordered(p, rank, n)
  {
    assert TwoSources(p, n);
    var a, b := EvalSource(p, rank, n, p.first[n]), EvalSource(p, rank, n, p.second[n]);
    if a.Fin? && b.Fin? { assert a.r * b.r == b.r * a.r; }
  }

  ghost function ValueOf(p: Program, rank: map<int, nat>, src: Source): Num
    requires WellFormed(p) && Acyclic(p, rank) && ValidSource(p, src)
  {
    match src
    case Ext(i) => p.ext[i].value
    case Res(m) => Eval(p, rank, m)
  }

  /** What nodes of a rank below b deliver are their values. */
  ghost predicate ValueInv(p: Program, rank: map<int, nat>, s: State, b: nat)
    requires WellFormed(p) && Acyclic(p, rank)
  {
    && |s.hs| == |s.ops|
    && (forall t | 0 <= t < |s.ops| :: OperandValue(p, rank, s.ops[t], b))
    && (forall h | 0 <= h < |s.hs| :: ResultValue(p, rank, s.ops[h].dst, s.hs[h].ph, b))
  }

  ghost predicate OperandValue(p: Program, rank: map<int, nat>, o: Operand, b: nat)
    requires WellFormed(p) && Acyclic(p, rank)
  {
    ValidSource(p, o.src) && (o.src.Res? ==> rank[o.src.m] < b) ==> o.value == ValueOf(p, rank, o.src)
  }

  ghost predicate ResultValue(p: Program, rank: map<int, nat>, n: int, ph: Phase, b: nat)
    requires WellFormed(p) && Acyclic(p, rank)
  {
    (ph.Retire? || ph.Send?) && n in p.nodes && rank[n] < b ==> ph.result == Eval(p, rank, n)
  }

  /** Whichever operand is in the log and whichever way it was found, the result is the
      value of the node. */
  lemma CombineValue(p: Program, rank: map<int, nat>, n: int, a: Operand, b: Operand)
    requires WellFormed(p) && Acyclic(p, rank) && n in p.nodes && Ordered(p, rank, n)
    requires ValidSource(p, a.src) && DstOf(p, a.src) == n == a.dst && a.order == OrderOf(p, a.src)
    requires ValidSource(p, b.src) && DstOf(p, b.src) == n == b.dst && b.order == OrderOf(p, b.src)
    requires a.src != b.src && a.value == ValueOf(p, rank, a.src) && b.value == ValueOf(p, rank, b.src)
    ensures Combined(p, a, b) == Eval(p, rank, n)
    ensures PartialResult(PartialNode(p, a), b) == Eval(p, rank, n)
    ensures FutureResult(PartialNode(p, a), ClaimNode(b), a) == Eval(p, rank, n)
  {
    assert TwoSources(p, n);
    assert EvalSource(p, rank, n, a.src) == a.value && EvalSource(p, rank, n, b.src) == b.value;
  }

  /** What is computed from operands of node n is its value, by induction on its rank. */
  lemma {:induction false} ComputedIsValue(p: Program, rank: map<int, nat>, run: seq<State>, n: int, r: Num)
    requires WellFormed(p) && Acyclic(p, rank) && n in p.nodes && OrderedBelow(p, rank, rank[n] + 1)
    requires IsRun(p, run) && Computed(p, run[|run| - 1].ops, n, r)
    ensures r == Eval(p, rank, n)
    decreases rank[n], 1
  {
    var s := run[|run| - 1];
    var i, h :| Combines(p, s.ops, n, i, h, r);
    OperandIsValue(p, rank, n, run, i);
    OperandIsValue(p, rank, n, run, h);
    RunInv(p, run);
    assert s.ops[i].src != s.ops[h].src;
    CombineValue(p, rank, n, s.ops[i], s.ops[h]);
  }

  /** The operands of node n that have been delivered are the values of its sources. */
  lemma {:induction false} OperandIsValue(p: Program, rank: map<int, nat>, n: int, run: seq<State>, t: nat)
    requires WellFormed(p) && Acyclic(p, rank) && n in p.nodes && OrderedBelow(p, rank, rank[n])
    requires IsRun(p, run) && t < |run[|run| - 1].ops| && run[|run| - 1].ops[t].dst == n
    ensures var o := run[|run| - 1].ops[t];
      ValidSource(p, o.src) && DstOf(p, o.src) == n && o.order == OrderOf(p, o.src)
      && o.value == EvalSource(p, rank, n, o.src)
    decreases rank[n], 0
  {
    var s := run[|run| - 1];
    RunInv(p, run);
    assert OperandOk(p, s.ops[t], s.hs[t]);
    if s.ops[t].src.Res? {
      assert RanksBelow(p, rank, s.ops[t].src.m);
      RunComputes(p, run);
      ComputedIsValue(p, rank, run, s.ops[t].src.m, s.ops[t].value);
    }
  }

  /** If the nodes of a rank below b are ordered, all their results and all operands that come
      from them or from outside are values of the recursive evaluation. */
  lemma RunValue(p: Program, rank: map<int, nat>, run: seq<State>, b: nat)
    requires WellFormed(p) && Acyclic(p, rank) && OrderedBelow(p, rank, b)
    requires IsRun(p, run)
    ensures ValueInv(p, rank, run[|run| - 1], b)
  {
    var s := run[|run| - 1];
    RunInv(p, run);
    RunComputes(p, run);
    forall t | 0 <= t < |s.ops| ensures OperandValue(p, rank, s.ops[t], b) {
      assert OperandOk(p, s.ops[t], s.hs[t]);
      if s.ops[t].src.Res? && rank[s.ops[t].src.m] < b {
        ComputedIsValue(p, rank, run, s.ops[t].src.m, s.ops[t].value);
      }
    }
    forall h | 0 <= h < |s.hs| ensures ResultValue(p, rank, s.ops[h].dst, s.hs[h].ph, b) {
      var n, ph := s.ops[h].dst, s.hs[h].ph;
      assert PhaseComputed(p, s.ops, n, ph);
      if (ph.Retire? || ph.Send?) && n in p.nodes && rank[n] < b {
        ComputedIsValue(p, rank, run, n, ph.result);
      }
    }
  }

  /** In every state of every run every result that has been put, for a node or for the
      final destination 0, is the value of its node. */
  lemma ResultsAreEvaluation(p: Program, rank: map<int, nat>, run: seq<State>, n: int, t: int)
    requires WellFormed(p) && Acyclic(p, rank) && n in p.nodes && OrderedBelow(p, rank, rank[n] + 1)
    requires IsRun(p, run) && ResultAt(run[|run| - 1], n, t)
    ensures run[|run| - 1].ops[t].value == Eval(p, rank, n)
    ensures run[|run| - 1].ops[t].dst == p.nodes[n].dst
  {
    var s := run[|run| - 1];
    RunInv(p, run);
    RunComputes(p, run);
    assert OperandOk(p, s.ops[t], s.hs[t]);
    ComputedIsValue(p, rank, run, n, s.ops[t].value);
  }

  /** A complete run of an acyclic, ordered program delivers to the destination of each
      node, destination 0 included, one result: the value of the node. */
  lemma CompleteRunEvaluates(p: Program, rank: map<int, nat>, run: seq<State>, n: int)
    requires WellFormed(p) && Acyclic(p, rank) && AllOrdered(p, rank) && n in p.nodes
    requires IsRun(p, run) && Quiescent(p, run[|run| - 1])
    ensures var s := run[|run| - 1];
      exists t :: ResultAt(s, n, t) && s.ops[t].value == Eval(p, rank, n) && s.ops[t].dst == p.nodes[n].dst
                  && forall u | ResultAt(s, n, u) :: u == t
  {
    var s := run[|run| - 1];
    FiredExactlyOnce(p, rank, run, n);
    var t :| ResultAt(s, n, t) && forall u | ResultAt(s, n, u) :: u == t;
    ResultsAreEvaluation(p, rank, run, n, t);
  }
}
