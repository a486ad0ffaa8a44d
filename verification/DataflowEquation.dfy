/**
 What the final result of the example program has to do with the equation a x^2 + b x + c = 0.
 */
module DataflowEquation {
  import opened DataflowModel
  import opened DataflowTheorems
  import opened DataflowRace
  import opened DataflowQuadratic

  ghost predicate IsSolution(a: real, b: real, c: real, v: Num) {
    v.Fin? && a * v.r * v.r + b * v.r + c == 0.0
  }

  /** With 2 a r = -b + x, r solves the equation exactly if x is a root of the discriminant. */
  lemma SolutionIff(a: real, b: real, c: real, x: real, r: real)
    requires a != 0.0 && r * (2.0 * a) == -b + x
    ensures a * r * r + b * r + c == 0.0 <==> x * x == b * b - 4.0 * (a * c)
  {
    var e, y := a * r * r + b * r + c, r * (2.0 * a);
    assert (4.0 * a) * e == y * y + 2.0 * (b * y) + 4.0 * (a * c) by {
      assert (4.0 * a) * (a * r * r) == y * y;
      assert (4.0 * a) * (b * r) == 2.0 * (b * y);
    }
    assert y * y + 2.0 * (b * y) == x * x - b * b;
    ZeroProduct(4.0 * a, e);
  }

  lemma ZeroProduct(d: real, e: real)
    requires d != 0.0
    ensures d * e == 0.0 <==> e == 0.0
  {
  }

  lemma FinalSolvesIff(a: real, b: real, c: real, x: Num)
    requires a != 0.0
    ensures IsSolution(a, b, c, FromRoot(a, b, x)) <==> x.Fin? && x.r * x.r == b * b - 4.0 * (a * c)
  {
    if x.Fin? {
      var r := (-b + x.r) / (2.0 * a);
      assert r * (2.0 * a) == -b + x.r;
      SolutionIff(a, b, c, x.r, r);
    }
  }

  // ---------- The square-root node ----------

  /** Whichever of its operands the node takes, its result is a square root. */
  lemma RootNotNegative(p: Program, run: seq<State>, t: int)
    requires WellFormed(p) && IsRun(p, run) && 5 in p.nodes && p.nodes[5].opcode == SQR
    requires ResultAt(run[|run| - 1], 5, t)
    ensures var v := run[|run| - 1].ops[t].value; v.Fin? ==> v.r >= 0.0
  {
    assert TwoSources(p, 5);
    var i, j := ResultFrom(p, run, 5, t);
  }

  lemma RootDefined(p: Program, a: real, b: real, c: real)
    requires p == Quadratic(a, b, c)
    ensures Defined(p, 5, NodeDef(SQR, 4, 1), Res(6), Ext(9)) && 6 in p.nodes && p.nodes[6].dstOrder == 0
    ensures |p.ext| == 10 && p.ext[9].value == Fin(1.0)
  {
  }

  /** The node is evaluated with the operand that is meant to be ignored. */
  lemma RootIsOne(p: Program, rank: map<int, nat>)
    requires WellFormed(p) && Acyclic(p, rank) && Defined(p, 5, NodeDef(SQR, 4, 1), Res(6), Ext(9))
    requires 6 in p.nodes && p.nodes[6].dstOrder == 0 && |p.ext| == 10 && p.ext[9].value == Fin(1.0)
    ensures Eval(p, rank, 5) == Fin(1.0)
  {
    assert TwoSources(p, 5);
    NodeValue(p, rank, 5, SQR, Res(6), 0, Ext(9));
    assert IsSquareRoot(1.0, 1.0);
    RootIsUnique(1.0, 1.0);
  }

  // ---------- When the program solves the equation ----------

  /** All final results in state s solve the equation. */
  ghost predicate AllSolutions(s: State, a: real, b: real, c: real) {
    forall u | ResultAt(s, 1, u) :: IsSolution(a, b, c, s.ops[u].value)
  }

  ghost predicate AlwaysSolves(p: Program, a: real, b: real, c: real) {
    forall run | Complete(p, run) :: AllSolutions(run[|run| - 1], a, b, c)
  }

  lemma OrderedSolves(p: Program, rank: map<int, nat>, a: real, b: real, c: real, run: seq<State>)
    requires Solves(p, rank, a, b) && Ordered(p, rank, 5) && Eval(p, rank, 5) == Fin(1.0)
    requires a != 0.0 && b * b - 4.0 * (a * c) == 1.0 && IsRun(p, run)
    ensures AllSolutions(run[|run| - 1], a, b, c)
  {
    var s := run[|run| - 1];
    forall u | ResultAt(s, 1, u) ensures IsSolution(a, b, c, s.ops[u].value) {
      var t := FinalFromRoot(p, rank, a, b, run, u);
      ResultsAreEvaluation(p, rank, run, 5, t);
      FinalSolvesIff(a, b, c, Fin(1.0));
    }
  }

  lemma RootSquared(p: Program, rank: map<int, nat>, a: real, b: real, c: real, run: seq<State>) returns (t: int)
    requires Solves(p, rank, a, b) && p.nodes[5].opcode == SQR && a != 0.0
    requires Complete(p, run) && AllSolutions(run[|run| - 1], a, b, c)
    ensures ResultAt(run[|run| - 1], 5, t)
    ensures var v := run[|run| - 1].ops[t].value; v.Fin? && IsSquareRoot(v.r, b * b - 4.0 * (a * c))
  {
    var k, u := FiredByEnd(p, rank, run, 1);
    t := FinalFromRoot(p, rank, a, b, run, u);
    FinalSolvesIff(a, b, c, run[|run| - 1].ops[t].value);
    RootNotNegative(p, run, t);
  }

  lemma UnorderedFails(p: Program, rank: map<int, nat>, a: real, b: real, c: real)
    requires Solves(p, rank, a, b) && p.nodes[5].opcode == SQR && a != 0.0
    requires !Ordered(p, rank, 5) && OrderedBelow(p, rank, rank[5])
    ensures !AlwaysSolves(p, a, b, c)
  {
    if AlwaysSolves(p, a, b, c) {
      var start := Beginning(p);
      var r1, r2 := Disagree(p, rank, 5, start);
      var t1 := RootSquared(p, rank, a, b, c, r1);
      var t2 := RootSquared(p, rank, a, b, c, r2);
      RootsDiffer(p, r1, r2, t1, t2);
      RootIsUnique(r1[|r1| - 1].ops[t1].value.r, b * b - 4.0 * (a * c));
      assert false;
    }
  }

  /** For a != 0, every complete run delivers a solution of a x^2 + b x + c = 0 exactly if the
      discriminant is 1. */
  lemma AlwaysSolvesIff(p: Program, a: real, b: real, c: real)
    requires p == Quadratic(a, b, c) && a != 0.0
    ensures AlwaysSolves(p, a, b, c) <==> b * b - 4.0 * (a * c) == 1.0
  {
    RootDefined(p, a, b, c);
    SolvesQuadratic(p, a, b, c);
    RootOrderedIff(p, a, b, c);
    RootIsOne(p, Ranks());
    SolvesIffOrdered(p, Ranks(), a, b, c);
  }

  lemma SolvesIffOrdered(p: Program, rank: map<int, nat>, a: real, b: real, c: real)
    requires Solves(p, rank, a, b) && p.nodes[5].opcode == SQR && a != 0.0 && Eval(p, rank, 5) == Fin(1.0)
    requires Ordered(p, rank, 5) <==> b * b - 4.0 * (a * c) == 1.0
    ensures AlwaysSolves(p, a, b, c) <==> Ordered(p, rank, 5)
  {
    if Ordered(p, rank, 5) {
      forall run | Complete(p, run) ensures AllSolutions(run[|run| - 1], a, b, c) {
        OrderedSolves(p, rank, a, b, c, run);
      }
    } else {
      UnorderedFails(p, rank, a, b, c);
    }
  }
}
