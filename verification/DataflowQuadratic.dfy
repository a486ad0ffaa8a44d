/**
 The example program that solves a quadratic equation, as its script sets it up.
 */
module DataflowQuadratic {
  import opened DataflowModel
  import opened DataflowTheorems
  import opened DataflowRace

  /** (-b + sqrt(b^2 - 4ac)) / 2a.  Node 5 takes the square root of the result of node 6; its
      second operand, 1, is there because every node needs two and is meant to be ignored. */
  ghost function Quadratic(a: real, b: real, c: real): Program {
    Program(
      map[1 := NodeDef(DIV, 0, 0), 2 := NodeDef(MUL, 1, 0), 3 := NodeDef(MUL, 4, 0),
          4 := NodeDef(ADD, 1, 1), 5 := NodeDef(SQR, 4, 1), 6 := NodeDef(SUB, 5, 0),
          7 := NodeDef(MUL, 6, 1), 8 := NodeDef(MUL, 6, 0), 9 := NodeDef(MUL, 8, 0)],
      [1, 2, 3, 4, 5, 6, 7, 8, 9],
      [Input(Fin(b), 7, 0), Input(Fin(b), 7, 0), Input(Fin(4.0), 8, 0), Input(Fin(a), 9, 0), Input(Fin(c), 9, 0),
       Input(Fin(-1.0), 3, 0), Input(Fin(b), 3, 0), Input(Fin(2.0), 2, 0), Input(Fin(a), 2, 0), Input(Fin(1.0), 5, 0)],
      map[1 := Res(2), 2 := Ext(7), 3 := Ext(5), 4 := Res(3), 5 := Res(6), 6 := Res(7), 7 := Ext(0), 8 := Ext(2),
          9 := Ext(3)],
      map[1 := Res(4), 2 := Ext(8), 3 := Ext(6), 4 := Res(5), 5 := Ext(9), 6 := Res(8), 7 := Ext(1), 8 := Res(9),
          9 := Ext(4)])
  }

  function Ranks(): map<int, nat> {
    map[1 := 5, 2 := 0, 3 := 0, 4 := 4, 5 := 3, 6 := 2, 7 := 1, 8 := 1, 9 := 0]
  }

  lemma SourceOf(p: Program, a: real, b: real, c: real, src: Source)
    requires p == Quadratic(a, b, c) && ValidSource(p, src)
    ensures DstOf(p, src) in p.nodes ==> src == p.first[DstOf(p, src)] || src == p.second[DstOf(p, src)]
    ensures src.Ext? ==> DstOf(p, src) in p.nodes
  {
    match src
    case Ext(i) =>
      assert i == 0 || i == 1 || i == 2 || i == 3 || i == 4 || i == 5 || i == 6 || i == 7 || i == 8 || i == 9;
    case Res(m) =>
      assert m == 1 || m == 2 || m == 3 || m == 4 || m == 5 || m == 6 || m == 7 || m == 8 || m == 9;
  }

  lemma NodeOf(p: Program, a: real, b: real, c: real, n: int)
    requires p == Quadratic(a, b, c) && n in p.nodes
    ensures n in p.first && n in p.second && p.first[n] != p.second[n]
    ensures ValidSource(p, p.first[n]) && DstOf(p, p.first[n]) == n
    ensures ValidSource(p, p.second[n]) && DstOf(p, p.second[n]) == n
    ensures p.nodes[n].dst == 0 || (p.nodes[n].dst in p.nodes && Ranks()[n] < Ranks()[p.nodes[n].dst])
  {
    assert n == 1 || n == 2 || n == 3 || n == 4 || n == 5 || n == 6 || n == 7 || n == 8 || n == 9;
  }

  lemma HasTwoSources(p: Program, a: real, b: real, c: real, n: int)
    requires p == Quadratic(a, b, c) && n in p.nodes
    ensures TwoSources(p, n)
  {
    NodeOf(p, a, b, c, n);
    forall src | ValidSource(p, src) && DstOf(p, src) == n ensures src == p.first[n] || src == p.second[n] {
      SourceOf(p, a, b, c, src);
    }
  }

  lemma LayoutOf(p: Program, a: real, b: real, c: real)
    requires p == Quadratic(a, b, c)
    ensures |p.layout| == 9 && forall k | 0 <= k < 9 :: p.layout[k] == k + 1
    ensures forall n :: n in p.nodes <==> 1 <= n <= 9
  {
    forall k | 0 <= k < 9 ensures p.layout[k] == k + 1 {
      assert k == 0 || k == 1 || k == 2 || k == 3 || k == 4 || k == 5 || k == 6 || k == 7 || k == 8;
    }
  }

  lemma Assemble(p: Program)
    requires |p.layout| == 9 && (forall k | 0 <= k < 9 :: p.layout[k] == k + 1)
    requires forall n :: n in p.nodes <==> 1 <= n <= 9
    requires forall n | n in p.nodes :: TwoSources(p, n) && (p.nodes[n].dst == 0 || p.nodes[n].dst in p.nodes)
    requires forall i | 0 <= i < |p.ext| :: p.ext[i].dst in p.nodes
    ensures WellFormed(p)
  {
    forall n | n in p.nodes ensures n in p.layout { assert p.layout[n - 1] == n; }
  }

  lemma IsWellFormed(p: Program, a: real, b: real, c: real)
    requires p == Quadratic(a, b, c)
    ensures WellFormed(p) && Acyclic(p, Ranks())
  {
    LayoutOf(p, a, b, c);
    forall n | n in p.nodes
      ensures TwoSources(p, n) && n in Ranks()
      ensures p.nodes[n].dst == 0 || (p.nodes[n].dst in p.nodes && Ranks()[n] < Ranks()[p.nodes[n].dst])
    {
      HasTwoSources(p, a, b, c, n);
      NodeOf(p, a, b, c, n);
    }
    forall i | 0 <= i < |p.ext| ensures p.ext[i].dst in p.nodes { SourceOf(p, a, b, c, Ext(i)); }
    Assemble(p);
  }

  // ---------- Its nodes ----------

  lemma EvalIs(p: Program, rank: map<int, nat>, n: int, x: Num, y: Num)
    requires WellFormed(p) && Acyclic(p, rank) && n in p.nodes && TwoSources(p, n)
    requires EvalSource(p, rank, n, p.first[n]) == x && EvalSource(p, rank, n, p.second[n]) == y
    ensures Eval(p, rank, n) == if OrderOf(p, p.first[n]) == 1 then DFOperation(p.nodes[n].opcode, x, y)
                                else DFOperation(p.nodes[n].opcode, y, x)
  {
  }

  /** Node n computes `op` of the sources src1 and src2, of which the first has this order. */
  ghost predicate NodeIs(p: Program, n: int, op: int, src1: Source, order: int, src2: Source) {
    && n in p.nodes && p.nodes[n].opcode == op && TwoSources(p, n)
    && p.first[n] == src1 && OrderOf(p, src1) == order && p.second[n] == src2
  }

  /** The part of the program that computes the discriminant. */
  ghost predicate Upstream(p: Program, a: real, b: real, c: real) {
    && NodeIs(p, 6, SUB, Res(7), 1, Res(8)) && NodeIs(p, 7, MUL, Ext(0), 0, Ext(1))
    && NodeIs(p, 8, MUL, Ext(2), 0, Res(9)) && NodeIs(p, 9, MUL, Ext(3), 0, Ext(4))
    && |p.ext| == 10 && p.ext[0].value == Fin(b) == p.ext[1].value && p.ext[2].value == Fin(4.0)
    && p.ext[3].value == Fin(a) && p.ext[4].value == Fin(c)
  }

  lemma UpstreamIs(p: Program, a: real, b: real, c: real)
    requires p == Quadratic(a, b, c) && WellFormed(p)
    ensures Upstream(p, a, b, c)
  {
    assert TwoSources(p, 6) && TwoSources(p, 7) && TwoSources(p, 8) && TwoSources(p, 9);
  }

  lemma NodeValue(p: Program, rank: map<int, nat>, n: int, op: int, src1: Source, order: int, src2: Source)
    requires WellFormed(p) && Acyclic(p, rank) && NodeIs(p, n, op, src1, order, src2)
    ensures ValidSource(p, src1) && ValidSource(p, src2)
    ensures var x, y := ValueOf(p, rank, src1), ValueOf(p, rank, src2);
      Eval(p, rank, n) == if order == 1 then DFOperation(op, x, y) else DFOperation(op, y, x)
  {
    EvalIs(p, rank, n, ValueOf(p, rank, src1), ValueOf(p, rank, src2));
  }

  /** Node 6 computes the discriminant. */
  lemma DiscriminantIs(p: Program, rank: map<int, nat>, a: real, b: real, c: real)
    requires WellFormed(p) && Acyclic(p, rank) && Upstream(p, a, b, c)
    ensures Eval(p, rank, 6) == Fin(b * b - 4.0 * (a * c))
  {
    ProductIs(p, rank, 7, Ext(0), Ext(1), b, b);
    ProductIs(p, rank, 9, Ext(3), Ext(4), a, c);
    ProductIs(p, rank, 8, Ext(2), Res(9), 4.0, a * c);
    NodeValue(p, rank, 6, SUB, Res(7), 1, Res(8));
  }

  lemma ProductIs(p: Program, rank: map<int, nat>, n: int, src1: Source, src2: Source, x: real, y: real)
    requires WellFormed(p) && Acyclic(p, rank) && NodeIs(p, n, MUL, src1, 0, src2)
    requires ValidSource(p, src1) && ValueOf(p, rank, src1) == Fin(x)
    requires ValidSource(p, src2) && ValueOf(p, rank, src2) == Fin(y)
    ensures Eval(p, rank, n) == Fin(x * y)
  {
    NodeValue(p, rank, n, MUL, src1, 0, src2);
    assert x * y == y * x;
  }

  lemma KindOf(p: Program, a: real, b: real, c: real, n: int)
    requires p == Quadratic(a, b, c) && n in p.nodes && n != 5 && TwoSources(p, n)
    ensures p.nodes[n].opcode in {ADD, MUL} || (OrderOf(p, p.first[n]) == 1) != (OrderOf(p, p.second[n]) == 1)
  {
    assert n == 1 || n == 2 || n == 3 || n == 4 || n == 6 || n == 7 || n == 8 || n == 9;
  }

  /** The nodes other than the square root are ordered. */
  lemma OthersOrdered(p: Program, a: real, b: real, c: real, n: int)
    requires p == Quadratic(a, b, c) && WellFormed(p) && Acyclic(p, Ranks()) && n in p.nodes && n != 5
    ensures Ordered(p, Ranks(), n)
  {
    assert TwoSources(p, n);
    KindOf(p, a, b, c, n);
    EitherOrdered(p, Ranks(), n);
  }

  lemma EitherOrdered(p: Program, rank: map<int, nat>, n: int)
    requires WellFormed(p) && Acyclic(p, rank) && n in p.nodes && TwoSources(p, n)
    requires p.nodes[n].opcode in {ADD, MUL} || (OrderOf(p, p.first[n]) == 1) != (OrderOf(p, p.second[n]) == 1)
    ensures Ordered(p, rank, n)
  {
    if p.nodes[n].opcode in {ADD, MUL} { CommutativeOpcodes(p, rank, n); }
  }

  lemma RootOrderedIff(p: Program, a: real, b: real, c: real)
    requires p == Quadratic(a, b, c) && WellFormed(p) && Acyclic(p, Ranks())
    ensures Ordered(p, Ranks(), 5) <==> b * b - 4.0 * (a * c) == 1.0
  {
    var d := b * b - 4.0 * (a * c);
    assert TwoSources(p, 5);
    UpstreamIs(p, a, b, c);
    DiscriminantIs(p, Ranks(), a, b, c);
    assert IsSquareRoot(1.0, 1.0);
    RootIsUnique(1.0, 1.0);
    assert DFOperation(SQR, Fin(1.0), Fin(d)) == Fin(1.0);
    assert DFOperation(SQR, Fin(d), Fin(1.0)) == Fin(1.0) <==> d == 1.0;
  }

  lemma RootIsUnique(y: real, r: real)
    requires IsSquareRoot(y, r)
    ensures forall x | IsSquareRoot(x, r) :: x == y
  {
    forall x | IsSquareRoot(x, r) ensures x == y {
      if x < y { SquareIsMonotone(x, y); }
      if y < x { SquareIsMonotone(y, x); }
    }
  }

  lemma SquareIsMonotone(x: real, y: real)
    requires 0.0 <= x < y
    ensures x * x < y * y
  {
    var d := y - x;
    assert y * y == x * x + 2.0 * x * d + d * d;
    assert 0.0 <= x * d && 0.0 < d * d;
  }

  /** All complete runs of the program agree on the results of all nodes exactly if the
      discriminant is 1: otherwise the square root may be taken of the 1 that is meant to be
      ignored. */
  lemma QuadraticRace(p: Program, a: real, b: real, c: real)
    requires p == Quadratic(a, b, c)
    ensures (forall n | n in p.nodes :: AllAgree(p, n)) <==> b * b - 4.0 * (a * c) == 1.0
  {
    IsWellFormed(p, a, b, c);
    forall n | n in p.nodes && n != 5 ensures Ordered(p, Ranks(), n) { OthersOrdered(p, a, b, c, n); }
    RootOrderedIff(p, a, b, c);
    AllAgreeIff(p, Ranks());
  }

  // ---------- The final result ----------

  /** The nodes that use the square root. */
  ghost predicate FinalNodes(p: Program) {
    && NodeIs(p, 1, DIV, Res(2), 0, Res(4)) && OrderOf(p, Res(4)) == 1
    && NodeIs(p, 4, ADD, Res(3), 0, Res(5)) && 5 in p.nodes
  }

  /** The nodes that compute 2a and -b. */
  ghost predicate CoefficientNodes(p: Program, a: real, b: real) {
    && NodeIs(p, 2, MUL, Ext(7), 0, Ext(8)) && NodeIs(p, 3, MUL, Ext(5), 0, Ext(6)) && |p.ext| == 10
    && p.ext[7].value == Fin(2.0) && p.ext[8].value == Fin(a) && p.ext[5].value == Fin(-1.0) && p.ext[6].value == Fin(b)
  }

  /** The definition of node n, with its sources. */
  ghost predicate Defined(p: Program, n: int, def: NodeDef, src1: Source, src2: Source) {
    n in p.nodes && p.nodes[n] == def && n in p.first && p.first[n] == src1 && n in p.second && p.second[n] == src2
  }

  lemma Definitions(p: Program, a: real, b: real, c: real)
    requires p == Quadratic(a, b, c)
    ensures Defined(p, 1, NodeDef(DIV, 0, 0), Res(2), Res(4)) && Defined(p, 4, NodeDef(ADD, 1, 1), Res(3), Res(5))
    ensures Defined(p, 2, NodeDef(MUL, 1, 0), Ext(7), Ext(8)) && Defined(p, 3, NodeDef(MUL, 4, 0), Ext(5), Ext(6))
    ensures 5 in p.nodes
  {
  }

  lemma Inputs(p: Program, a: real, b: real, c: real)
    requires p == Quadratic(a, b, c)
    ensures |p.ext| == 10 && p.ext[5] == Input(Fin(-1.0), 3, 0) && p.ext[6] == Input(Fin(b), 3, 0)
    ensures p.ext[7] == Input(Fin(2.0), 2, 0) && p.ext[8] == Input(Fin(a), 2, 0)
  {
  }

  lemma FinalNodesAre(p: Program)
    requires WellFormed(p) && 5 in p.nodes
    requires 2 in p.nodes && p.nodes[2].dstOrder == 0 && 3 in p.nodes && p.nodes[3].dstOrder == 0
    requires Defined(p, 1, NodeDef(DIV, 0, 0), Res(2), Res(4)) && Defined(p, 4, NodeDef(ADD, 1, 1), Res(3), Res(5))
    ensures FinalNodes(p)
  {
    assert TwoSources(p, 1) && TwoSources(p, 4);
  }

  lemma CoefficientNodesAre(p: Program, a: real, b: real)
    requires WellFormed(p) && |p.ext| == 10
    requires p.ext[5] == Input(Fin(-1.0), 3, 0) && p.ext[6] == Input(Fin(b), 3, 0)
    requires p.ext[7] == Input(Fin(2.0), 2, 0) && p.ext[8] == Input(Fin(a), 2, 0)
    requires Defined(p, 2, NodeDef(MUL, 1, 0), Ext(7), Ext(8)) && Defined(p, 3, NodeDef(MUL, 4, 0), Ext(5), Ext(6))
    ensures CoefficientNodes(p, a, b)
  {
    assert TwoSources(p, 2) && TwoSources(p, 3);
  }

  lemma CoefficientsAre(p: Program, rank: map<int, nat>, a: real, b: real)
    requires WellFormed(p) && Acyclic(p, rank) && CoefficientNodes(p, a, b)
    ensures Eval(p, rank, 2) == Fin(2.0 * a) && Eval(p, rank, 3) == Fin(-b)
  {
    ProductIs(p, rank, 2, Ext(7), Ext(8), 2.0, a);
    ProductIs(p, rank, 3, Ext(5), Ext(6), -1.0, b);
  }

  /** All nodes but the square root are ordered. */
  ghost predicate OtherNodesOrdered(p: Program, rank: map<int, nat>)
    requires WellFormed(p) && Acyclic(p, rank)
  {
    forall n | n in p.nodes && n != 5 :: Ordered(p, rank, n)
  }

  /** The program with what its nodes compute. */
  ghost predicate Solves(p: Program, rank: map<int, nat>, a: real, b: real) {
    && WellFormed(p) && Acyclic(p, rank) && FinalNodes(p)
    && Eval(p, rank, 2) == Fin(2.0 * a) && Eval(p, rank, 3) == Fin(-b)
    && OtherNodesOrdered(p, rank) && rank[2] < rank[5] && rank[3] < rank[5]
  }

  /** (-b + x) / 2a */
  ghost function FromRoot(a: real, b: real, x: Num): Num {
    if x.Fin? && a != 0.0 then Fin((-b + x.r) / (2.0 * a)) else NaN
  }

  lemma FinalIsQuotient(p: Program, run: seq<State>, u: int) returns (i: int, j: int)
    requires WellFormed(p) && FinalNodes(p) && IsRun(p, run) && ResultAt(run[|run| - 1], 1, u)
    ensures ResultAt(run[|run| - 1], 2, i) && ResultAt(run[|run| - 1], 4, j)
    ensures var ops := run[|run| - 1].ops; ops[u].value == DFOperation(DIV, ops[j].value, ops[i].value)
  {
    i, j := ResultFrom(p, run, 1, u);
  }

  lemma NumeratorIsSum(p: Program, run: seq<State>, j: int) returns (k: int, t: int)
    requires WellFormed(p) && FinalNodes(p) && IsRun(p, run) && ResultAt(run[|run| - 1], 4, j)
    ensures ResultAt(run[|run| - 1], 3, k) && ResultAt(run[|run| - 1], 5, t)
    ensures var ops := run[|run| - 1].ops; ops[j].value == DFOperation(ADD, ops[k].value, ops[t].value)
  {
    k, t := ResultFrom(p, run, 4, j);
  }

  /** In every run the final result is (-b + x) / 2a with the result x of the square root node. */
  lemma FinalFromRoot(p: Program, rank: map<int, nat>, a: real, b: real, run: seq<State>, u: int) returns (t: int)
    requires Solves(p, rank, a, b) && IsRun(p, run) && ResultAt(run[|run| - 1], 1, u)
    ensures ResultAt(run[|run| - 1], 5, t)
    ensures run[|run| - 1].ops[u].value == FromRoot(a, b, run[|run| - 1].ops[t].value)
  {
    var i, j := FinalIsQuotient(p, run, u);
    var k;
    k, t := NumeratorIsSum(p, run, j);
    ResultsAreEvaluation(p, rank, run, 2, i);
    ResultsAreEvaluation(p, rank, run, 3, k);
    QuotientIs(a, b, run[|run| - 1].ops[t].value);
  }

  lemma QuotientIs(a: real, b: real, x: Num)
    ensures DFOperation(DIV, DFOperation(ADD, Fin(-b), x), Fin(2.0 * a)) == FromRoot(a, b, x)
  {
  }

  lemma FromRootInjective(a: real, b: real, x: Num, y: Num)
    requires a != 0.0 && FromRoot(a, b, x) == FromRoot(a, b, y)
    ensures x == y
  {
    if x.Fin? && y.Fin? {
      var d := 2.0 * a;
      assert (-b + x.r) / d * d == -b + x.r && (-b + y.r) / d * d == -b + y.r;
    }
  }

  /** Different square roots lead to different final results, unless a is 0. */
  lemma RunsDiffer(p: Program, rank: map<int, nat>, a: real, b: real)
    requires Solves(p, rank, a, b) && !Ordered(p, rank, 5) && OrderedBelow(p, rank, rank[5]) && a != 0.0
    ensures !AllAgree(p, 1)
  {
    var start := Beginning(p);
    var r1, r2 := Disagree(p, rank, 5, start);
    var k, u := FiredByEnd(p, rank, r1, 1);
    var k', u' := FiredByEnd(p, rank, r2, 1);
    var t := FinalFromRoot(p, rank, a, b, r1, u);
    var t' := FinalFromRoot(p, rank, a, b, r2, u');
    RootsDiffer(p, r1, r2, t, t');
    var x, y := r1[|r1| - 1].ops[t].value, r2[|r2| - 1].ops[t'].value;
    if FromRoot(a, b, x) == FromRoot(a, b, y) { FromRootInjective(a, b, x, y); }
    assert !Agree(p, 1, r1, r2);
  }

  lemma RootsDiffer(p: Program, r1: seq<State>, r2: seq<State>, t: int, t': int)
    requires WellFormed(p) && IsRun(p, r1) && IsRun(p, r2) && !Agree(p, 5, r1, r2)
    requires ResultAt(r1[|r1| - 1], 5, t) && ResultAt(r2[|r2| - 1], 5, t')
    ensures r1[|r1| - 1].ops[t].value != r2[|r2| - 1].ops[t'].value
  {
    FiredAtMostOnce(p, r1);
    FiredAtMostOnce(p, r2);
  }

  lemma NeverANumber(p: Program, rank: map<int, nat>, a: real, b: real, run: seq<State>, u: int)
    requires Solves(p, rank, a, b) && a == 0.0 && IsRun(p, run) && ResultAt(run[|run| - 1], 1, u)
    ensures run[|run| - 1].ops[u].value == NaN
  {
    var t := FinalFromRoot(p, rank, a, b, run, u);
    NotANumber(b, run[|run| - 1].ops[t].value);
  }

  lemma NotANumber(b: real, x: Num)
    ensures FromRoot(0.0, b, x) == NaN
  {
  }

  lemma SameWithoutNumber(p: Program, rank: map<int, nat>, a: real, b: real, run: seq<State>, run': seq<State>)
    requires Solves(p, rank, a, b) && a == 0.0 && IsRun(p, run) && IsRun(p, run')
    ensures Agree(p, 1, run, run')
  {
    var s, s' := run[|run| - 1], run'[|run'| - 1];
    forall t, u | ResultAt(s, 1, t) && ResultAt(s', 1, u) ensures s.ops[t].value == s'.ops[u].value {
      NeverANumber(p, rank, a, b, run, t);
      NeverANumber(p, rank, a, b, run', u);
    }
  }

  lemma FinalAgreeIff(p: Program, rank: map<int, nat>, a: real, b: real)
    requires Solves(p, rank, a, b)
    ensures AllAgree(p, 1) <==> Ordered(p, rank, 5) || a == 0.0
  {
    if Ordered(p, rank, 5) {
      assert AllOrdered(p, rank);
      AllAgreeIff(p, rank);
    } else if a == 0.0 {
      forall run, run' | Complete(p, run) && Complete(p, run') ensures Agree(p, 1, run, run') {
        SameWithoutNumber(p, rank, a, b, run, run');
      }
    } else {
      RunsDiffer(p, rank, a, b);
    }
  }

  lemma SolvesQuadratic(p: Program, a: real, b: real, c: real)
    requires p == Quadratic(a, b, c)
    ensures Solves(p, Ranks(), a, b)
  {
    IsWellFormed(p, a, b, c);
    forall n | n in p.nodes && n != 5 ensures Ordered(p, Ranks(), n) { OthersOrdered(p, a, b, c, n); }
    Definitions(p, a, b, c);
    Inputs(p, a, b, c);
    AssembleSolves(p, a, b);
  }

  lemma AssembleSolves(p: Program, a: real, b: real)
    requires WellFormed(p) && Acyclic(p, Ranks()) && OtherNodesOrdered(p, Ranks()) && 5 in p.nodes
    requires Defined(p, 1, NodeDef(DIV, 0, 0), Res(2), Res(4)) && Defined(p, 4, NodeDef(ADD, 1, 1), Res(3), Res(5))
    requires Defined(p, 2, NodeDef(MUL, 1, 0), Ext(7), Ext(8)) && Defined(p, 3, NodeDef(MUL, 4, 0), Ext(5), Ext(6))
    requires |p.ext| == 10 && p.ext[5] == Input(Fin(-1.0), 3, 0) && p.ext[6] == Input(Fin(b), 3, 0)
    requires p.ext[7] == Input(Fin(2.0), 2, 0) && p.ext[8] == Input(Fin(a), 2, 0)
    ensures Solves(p, Ranks(), a, b)
  {
    FinalNodesAre(p);
    CoefficientNodesAre(p, a, b);
    CoefficientsAre(p, Ranks(), a, b);
  }

  lemma RootDecides(p: Program, a: real, b: real, c: real)
    requires p == Quadratic(a, b, c)
    ensures WellFormed(p) && Acyclic(p, Ranks()) && 5 in p.nodes
    ensures AllAgree(p, 1) <==> Ordered(p, Ranks(), 5) || a == 0.0
  {
    SolvesQuadratic(p, a, b, c);
    FinalAgreeIff(p, Ranks(), a, b);
  }

  /** All complete runs of the program deliver the same final result exactly if the discriminant
      is 1, or if a is 0, when the final result is never a number. */
  lemma FinalResultRace(p: Program, a: real, b: real, c: real)
    requires p == Quadratic(a, b, c)
    ensures p.nodes[1].dst == 0
    ensures AllAgree(p, 1) <==> b * b - 4.0 * (a * c) == 1.0 || a == 0.0
  {
    Definitions(p, a, b, c);
    RootDecides(p, a, b, c);
    RootOrderedIff(p, a, b, c);
  }
}
