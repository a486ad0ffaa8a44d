/**
 Exactly-once firing: in every interleaving, the log order of the two CLAIM records of
 a node and of the partial between them decides which one of its two handlers fires.
 */
module DataflowSafety {
  import opened DataflowModel

  // ---------- The invariant ----------

  /** The partial that the handler of `o` writes. */
  ghost function PartialNode(p: Program, o: Operand): Node
    requires o.dst in p.nodes
  {
    OriginalNode(p, o.dst).(ready := 1, value := o.value, order := o.order)
  }

  ghost predicate OperandOk(p: Program, o: Operand, h: Handler) {
    && ValidSource(p, o.src)
    && o.dst == DstOf(p, o.src)
    && o.order == OrderOf(p, o.src)
    && (o.src.Ext? ==> o.value == p.ext[o.src.i].value)
    && (h.ph.NoHandler? <==> o.dst == 0)
  }

  ghost predicate OperandsInv(p: Program, s: State) {
    && |s.hs| == |s.ops|
    && (forall i | 0 <= i < |s.ops| :: OperandOk(p, s.ops[i], s.hs[i]))
    && (forall i, j | 0 <= i < j < |s.ops| :: s.ops[i].src != s.ops[j].src)
  }

  /** `node` is a partial of node n, whoever's value it holds. */
  ghost predicate IsPartial(p: Program, n: int, node: Node) {
    && n in p.nodes && node.no == n && node.ready == 1 && node.opcode == p.nodes[n].opcode
    && node.dst == p.nodes[n].dst && node.dstOrder == p.nodes[n].dstOrder && node.state == WAITING
  }

  ghost predicate IsDone(p: Program, n: int, node: Node) {
    node.no == n && node.ready == 2 && node.state == DONE
  }

  /** Record k was written by the handler that claims it. */
  ghost predicate Owned(p: Program, s: State, k: int)
    requires 0 <= k < |s.log|
  {
    var e := s.log[k];
    && 0 <= e.writer < |s.hs| && |s.hs| == |s.ops| && s.ops[e.writer].dst in p.nodes
    && var h, o := s.hs[e.writer], s.ops[e.writer];
       || (k + 1 == h.c && e.rec == ClaimNode(o))
       || (k + 1 == h.d && e.rec == PartialNode(p, o))
       || (k + 1 == h.e && IsDone(p, o.dst, e.rec))
  }

  ghost predicate LogInv(p: Program, s: State) {
    && |p.layout| <= |s.log|
    && (forall k | 0 <= k < |p.layout| ::
          p.layout[k] in p.nodes && s.log[k] == Entry(OriginalNode(p, p.layout[k]), -1))
    && (forall k | |p.layout| <= k < |s.log| :: Owned(p, s, k))
  }

  /** Nothing about node n has a sequence number above lo and at most hi. */
  ghost predicate NoRecord(s: State, n: int, lo: int, hi: int) {
    forall k | 0 <= k < |s.log| && lo <= k < hi :: s.log[k].rec.no != n
  }

  /** No claim of node n has a sequence number above lo and at most hi. */
  ghost predicate NoClaim(s: State, n: int, lo: int, hi: int) {
    forall k | 0 <= k < |s.log| && lo <= k < hi :: s.log[k].rec.no == n ==> s.log[k].rec.state != CLAIM
  }

  /** Handlers i and j serve the two operands of one node, and j has put its claim. */
  ghost predicate Partner(s: State, i: int, j: int)
    requires 0 <= i < |s.hs| == |s.ops|
  {
    0 <= j < |s.hs| && j != i && s.ops[j].dst == s.ops[i].dst && s.hs[j].c > 0
  }

  /** No handler of node n other than i claimed before i. */
  ghost predicate ClaimedFirst(p: Program, s: State, i: int)
    requires 0 <= i < |s.hs| == |s.ops|
  {
    NoRecord(s, s.ops[i].dst, |p.layout|, s.hs[i].c - 1)
  }

  ghost predicate Firing(h: Handler) {
    h.ph.Retire? || h.ph.Send? || h.ph == Exit(Fired)
  }

  ghost predicate PhaseInv(p: Program, s: State, i: int)
    requires 0 <= i < |s.hs| == |s.ops| && s.ops[i].dst in p.nodes
  {
    var h, o, n := s.hs[i], s.ops[i], s.ops[i].dst;
    match h.ph
    case NoHandler => false
    case Start => h.c == 0 && h.d == 0 && h.e == 0
    case Scan(q) => h.d == 0 && h.e == 0 && q < h.c && NoRecord(s, n, q, h.c - 1)
    case Park(node) => h.d == 0 && h.e == 0 && node == PartialNode(p, o) && ClaimedFirst(p, s, i)
    case Future(node, f) =>
      h.d > 0 && h.e == 0 && node == PartialNode(p, o) && h.c <= f < h.d && NoClaim(s, n, f, h.d - 1)
    case Retire(node, _) => h.e == 0 && IsPartial(p, n, node) && exists j :: Partner(s, i, j)
    case Send(node, _) => h.e > 0 && IsPartial(p, n, node) && exists j :: Partner(s, i, j)
    case Exit(code) =>
      match code
      case Fired => h.e > 0 && (exists j :: Partner(s, i, j)) && Delivered(s, Res(n))
      case Deferred => h.d == 0 && h.e == 0 && exists j :: Partner(s, i, j) && s.hs[j].c < h.c
      case Parked => h.d > 0 && h.e == 0 && NoClaim(s, n, h.c, h.d - 1)
      case _ => false
  }

  /** What handler i has put in the log, and what it knows in its present phase. */
  ghost predicate HandlerInv(p: Program, s: State, i: int)
    requires 0 <= i < |s.hs| == |s.ops|
  {
    var h, o := s.hs[i], s.ops[i];
    if o.dst !in p.nodes then h.ph.NoHandler? && h.c == h.d == h.e == 0 else
    && (h.c != 0 ==> |p.layout| < h.c <= |s.log| && s.log[h.c - 1] == Entry(ClaimNode(o), i))
    && (!h.ph.Start? ==> h.c != 0)
    && (h.d != 0 ==> 0 < h.c < h.d <= |s.log| && s.log[h.d - 1] == Entry(PartialNode(p, o), i)
                     && ClaimedFirst(p, s, i))
    && (h.e != 0 ==> 0 < h.c < h.e <= |s.log| && h.d < h.e && s.log[h.e - 1].writer == i
                     && IsDone(p, o.dst, s.log[h.e - 1].rec) && Firing(h))
    && PhaseInv(p, s, i)
  }

  /** How the order of c_i, c_j and d_i decides between two handlers of one node. */
  ghost predicate PairInv(s: State, i: int, j: int)
    requires 0 <= i < |s.hs| == |s.ops| && 0 <= j < |s.hs|
  {
    var hi, hj := s.hs[i], s.hs[j];
    i != j && s.ops[i].dst == s.ops[j].dst && 0 < hi.c < hj.c ==>
      && (hj.ph == Exit(Deferred) ==> !(0 < hi.d < hj.c))
      && (hi.ph == Exit(Parked) ==> hi.d < hj.c)
      && (Firing(hj) ==> 0 < hi.d < hj.c)
      && (Firing(hi) ==> hj.c < hi.d)
  }

  /** A result was put only by a handler that has finished firing. */
  ghost predicate ResultInv(s: State)
    requires |s.hs| == |s.ops|
  {
    forall t | 0 <= t < |s.ops| && s.ops[t].src.Res? :: ProducedBySome(s, s.ops[t].src.m)
  }

  ghost predicate ProducedBySome(s: State, m: int)
    requires |s.hs| == |s.ops|
  {
    exists i :: 0 <= i < |s.hs| && s.ops[i].dst == m && s.hs[i].ph == Exit(Fired)
  }

  ghost predicate ProtocolInv(p: Program, s: State) {
    && OperandsInv(p, s)
    && LogInv(p, s)
    && (forall i | 0 <= i < |s.hs| :: HandlerInv(p, s, i))
    && (forall i, j | 0 <= i < |s.hs| && 0 <= j < |s.hs| :: PairInv(s, i, j))
  }

  ghost predicate Inv(p: Program, s: State) {
    ProtocolInv(p, s) && ResultInv(s)
  }

  // ---------- Consequences of the invariant ----------

  /** A node has two operands, so three handlers of one node are not three. */
  lemma AtMostTwo(p: Program, s: State, i: int, j: int, k: int)
    requires WellFormed(p) && OperandsInv(p, s)
    requires 0 <= i < |s.ops| && 0 <= j < |s.ops| && 0 <= k < |s.ops|
    requires s.ops[i].dst == s.ops[j].dst == s.ops[k].dst != 0
    ensures i == j || j == k || i == k
  {
    var n := s.ops[i].dst;
    assert OperandOk(p, s.ops[i], s.hs[i]) && OperandOk(p, s.ops[j], s.hs[j]) && OperandOk(p, s.ops[k], s.hs[k]);
    Destination(p, s.ops[i].src);
    assert TwoSources(p, n);
  }

  /** Two handlers of one node never both fire. */
  lemma OneFires(p: Program, s: State, i: int, j: int)
    requires Inv(p, s) && 0 <= i < |s.hs| && 0 <= j < |s.hs|
    requires s.ops[i].dst == s.ops[j].dst && Firing(s.hs[i]) && Firing(s.hs[j])
    ensures i == j
  {
    assert HandlerInv(p, s, i) && HandlerInv(p, s, j);
    assert PairInv(s, i, j) && PairInv(s, j, i);
  }

  /** The original record of a node is in the log before every claim. */
  lemma OriginalBelow(p: Program, s: State, n: int, q: int, hi: int)
    requires WellFormed(p) && LogInv(p, s) && n in p.nodes
    requires NoRecord(s, n, q, hi) && |p.layout| <= hi
    ensures q >= 1
  {
    assert n in p.layout;
    var k :| 0 <= k < |p.layout| && p.layout[k] == n;
    assert s.log[k].rec.no == n;
  }

  // ---------- Stability: the log only grows ----------

  ghost predicate Evolves(h: Handler, h': Handler) {
    && (h.c != 0 ==> h'.c == h.c)
    && (h.d != 0 ==> h'.d == h.d)
    && (h.e != 0 ==> h'.e == h.e)
  }

  ghost predicate Extends(s: State, s': State) {
    && s.log <= s'.log && s.ops <= s'.ops
    && |s.hs| == |s.ops| && |s'.hs| == |s'.ops|
    && forall i | 0 <= i < |s.hs| :: Evolves(s.hs[i], s'.hs[i])
  }

  lemma OwnedStable(p: Program, s: State, s': State, k: int)
    requires Extends(s, s') && 0 <= k < |s.log| && Owned(p, s, k)
    ensures Owned(p, s', k)
  {
    assert Evolves(s.hs[s.log[k].writer], s'.hs[s.log[k].writer]);
  }

  lemma PartnerStable(s: State, s': State, i: int, j: int)
    requires Extends(s, s') && 0 <= i < |s.hs| && Partner(s, i, j)
    ensures Partner(s', i, j) && s'.hs[j].c == s.hs[j].c
  {
    assert Evolves(s.hs[j], s'.hs[j]);
  }

  lemma HandlerStable(p: Program, s: State, s': State, i: int)
    requires Extends(s, s') && 0 <= i < |s.hs| && s'.hs[i] == s.hs[i] && HandlerInv(p, s, i)
    ensures HandlerInv(p, s', i)
  {
    var h, n := s.hs[i], s.ops[i].dst;
    assert s'.ops[i] == s.ops[i];
    if n in p.nodes {
      if Firing(h) || h.ph == Exit(Deferred) {
        var j :| Partner(s, i, j) && (h.ph == Exit(Deferred) ==> s.hs[j].c < h.c);
        PartnerStable(s, s', i, j);
      }
      if h.ph == Exit(Fired) {
        var t :| 0 <= t < |s.ops| && s.ops[t].src == Res(n);
        assert s'.ops[t].src == Res(n);
      }
    }
  }

  // ---------- Each step preserves the invariant ----------

  lemma InitInv(p: Program, s: State)
    requires WellFormed(p) && Init(p, s)
    ensures Inv(p, s)
  {
  }

  /** What a step must show when it changes only handler h, possibly adding one record. */
  lemma Preserve(p: Program, s: State, s': State, h: int)
    requires ProtocolInv(p, s) && Extends(s, s') && 0 <= h < |s.hs| && s'.ops == s.ops
    requires forall i | 0 <= i < |s.hs| && i != h :: s'.hs[i] == s.hs[i]
    requires s'.hs[h].ph.NoHandler? <==> s.hs[h].ph.NoHandler?
    requires |s'.log| == |s.log| || (|s'.log| == |s.log| + 1 && Owned(p, s', |s.log|))
    requires HandlerInv(p, s', h)
    requires forall j | 0 <= j < |s.hs| :: PairInv(s', h, j) && PairInv(s', j, h)
    ensures ProtocolInv(p, s')
    ensures ResultInv(s) && s.hs[h].ph != Exit(Fired) ==> ResultInv(s')
  {
    forall i | 0 <= i < |s'.ops| ensures OperandOk(p, s'.ops[i], s'.hs[i]) {
      assert OperandOk(p, s.ops[i], s.hs[i]);
    }
    forall k | |p.layout| <= k < |s'.log| ensures Owned(p, s', k) {
      if k < |s.log| { OwnedStable(p, s, s', k); }
    }
    forall i | 0 <= i < |s'.hs| ensures HandlerInv(p, s', i) {
      if i != h { HandlerStable(p, s, s', i); }
    }
    forall i, j | 0 <= i < |s'.hs| && 0 <= j < |s'.hs| ensures PairInv(s', i, j) {
      if i != h && j != h { assert PairInv(s, i, j); }
    }
    if ResultInv(s) && s.hs[h].ph != Exit(Fired) {
      forall t | 0 <= t < |s'.ops| && s'.ops[t].src.Res? ensures ProducedBySome(s', s'.ops[t].src.m) {
        ProducedStable(s, s', s.ops[t].src.m);
      }
    }
  }

  lemma ProducedStable(s: State, s': State, m: int)
    requires |s.hs| == |s.ops| && |s'.hs| == |s'.ops| && s.ops <= s'.ops && ProducedBySome(s, m)
    requires forall i | 0 <= i < |s.hs| && s.hs[i].ph == Exit(Fired) :: s'.hs[i].ph == Exit(Fired)
    ensures ProducedBySome(s', m)
  {
    var i :| 0 <= i < |s.hs| && s.ops[i].dst == m && s.hs[i].ph == Exit(Fired);
    assert s'.ops[i].dst == m && s'.hs[i].ph == Exit(Fired);
  }

  /** A get: handler h goes from one phase to another, the log stays. */
  lemma GotoInv(p: Program, s: State, h: nat, ph: Phase)
    requires Inv(p, s) && h < |s.hs| && s.ops[h].dst in p.nodes
    requires s.hs[h].ph.Scan? || s.hs[h].ph.Future?
    requires !ph.NoHandler? && !ph.Start?
    requires PhaseInv(p, Goto(s, h, ph), h)
    requires forall j | 0 <= j < |s.hs| :: PairInv(Goto(s, h, ph), h, j) && PairInv(Goto(s, h, ph), j, h)
    ensures Inv(p, Goto(s, h, ph))
  {
    var s' := Goto(s, h, ph);
    assert HandlerInv(p, s, h);
    assert HandlerInv(p, s', h);
    Preserve(p, s, s', h);
  }

  /** What a handler that has not exited knows about itself. */
  lemma Known(p: Program, s: State, h: nat)
    requires WellFormed(p) && ProtocolInv(p, s) && h < |s.hs| && !s.hs[h].ph.NoHandler?
    ensures s.ops[h].dst in p.nodes && HandlerInv(p, s, h) && PhaseInv(p, s, h)
  {
    assert OperandOk(p, s.ops[h], s.hs[h]);
    assert HandlerInv(p, s, h);
  }

  lemma StartInv(p: Program, s: State, h: nat)
    requires WellFormed(p) && Inv(p, s) && h < |s.hs| && s.hs[h].ph.Start?
    ensures Inv(p, ActOf(s, h))
  {
    var s' := ActOf(s, h);
    var c := |s.log| + 1;
    Known(p, s, h);
    forall j | 0 <= j < |s.hs| ensures PairInv(s', h, j) && PairInv(s', j, h) {
      assert HandlerInv(p, s, j);
      if j != h && s.ops[j].dst == s.ops[h].dst && Firing(s.hs[j]) {
        // j found a partner, and there is no third handler
        var k :| Partner(s, j, k);
        assert OperandOk(p, s.ops[j], s.hs[j]) && OperandOk(p, s.ops[k], s.hs[k]);
        AtMostTwo(p, s, j, h, k);
        assert false;
      }
    }
    Preserve(p, s, s', h);
  }

  /** A record about node n that is older than the claim of h is a claim or a partial of
      the other handler of n; it is never a DONE. */
  lemma OlderRecord(p: Program, s: State, h: nat, k: int) returns (i: int)
    requires WellFormed(p) && Inv(p, s) && h < |s.hs| && s.ops[h].dst in p.nodes
    requires |p.layout| <= k < |s.log| && k + 1 < s.hs[h].c && s.log[k].rec.no == s.ops[h].dst
    ensures Partner(s, h, i) && s.hs[i].c < s.hs[h].c
    ensures || (k + 1 == s.hs[i].c && s.log[k].rec == ClaimNode(s.ops[i]))
            || (k + 1 == s.hs[i].d && s.log[k].rec == PartialNode(p, s.ops[i]))
  {
    assert Owned(p, s, k);
    i := s.log[k].writer;
    assert HandlerInv(p, s, i) && HandlerInv(p, s, h);
    assert PairInv(s, i, h);
  }

  /** A step of h that changes nothing but its phase, from one in which h is undecided. */
  lemma PairsStayUndecided(p: Program, s: State, h: nat, ph: Phase)
    requires Inv(p, s) && h < |s.hs|
    requires ph.Scan? || ph.Park? || ph.Future?
    ensures forall j | 0 <= j < |s.hs| :: PairInv(Goto(s, h, ph), h, j) && PairInv(Goto(s, h, ph), j, h)
  {
    forall j | 0 <= j < |s.hs|
      ensures PairInv(Goto(s, h, ph), h, j) && PairInv(Goto(s, h, ph), j, h)
    {
      assert PairInv(s, h, j) && PairInv(s, j, h);
    }
  }

  /** If the pair with the only other handler of the node is all right, all pairs are. */
  lemma PairsOfTwo(p: Program, s: State, h: nat, i: int, ph: Phase)
    requires WellFormed(p) && Inv(p, s) && h < |s.hs| && s.ops[h].dst in p.nodes && Partner(s, h, i)
    requires PairInv(Goto(s, h, ph), h, i) && PairInv(Goto(s, h, ph), i, h)
    ensures forall j | 0 <= j < |s.hs| :: PairInv(Goto(s, h, ph), h, j) && PairInv(Goto(s, h, ph), j, h)
  {
    forall j | 0 <= j < |s.hs|
      ensures PairInv(Goto(s, h, ph), h, j) && PairInv(Goto(s, h, ph), j, h)
    {
      if j != h && s.ops[j].dst == s.ops[h].dst {
        AtMostTwo(p, s, h, i, j);
      }
    }
  }

  /** The scan of h reads the original record, so h claimed first. */
  lemma ScanOriginalInv(p: Program, s: State, h: nat)
    requires WellFormed(p) && Inv(p, s) && h < |s.hs| && s.hs[h].ph.Scan?
    requires 1 <= s.hs[h].ph.seqno <= |p.layout|
    requires s.log[s.hs[h].ph.seqno - 1].rec.no == s.ops[h].dst
    ensures Inv(p, Goto(s, h, ScanNext(s.hs[h].ph.seqno, s.hs[h].c, s.ops[h], s.log[s.hs[h].ph.seqno - 1].rec)))
  {
    Known(p, s, h);
    var ph := Park(PartialNode(p, s.ops[h]));
    PairsStayUndecided(p, s, h, ph);
    GotoInv(p, s, h, ph);
  }

  /** The scan of h reads the claim or the partial of the other handler. */
  lemma ScanOtherInv(p: Program, s: State, h: nat)
    requires WellFormed(p) && Inv(p, s) && h < |s.hs| && s.hs[h].ph.Scan?
    requires |p.layout| < s.hs[h].ph.seqno <= |s.log|
    requires s.log[s.hs[h].ph.seqno - 1].rec.no == s.ops[h].dst
    ensures Inv(p, Goto(s, h, ScanNext(s.hs[h].ph.seqno, s.hs[h].c, s.ops[h], s.log[s.hs[h].ph.seqno - 1].rec)))
  {
    Known(p, s, h);
    var q := s.hs[h].ph.seqno;
    var i := OlderRecord(p, s, h, q - 1);
    if s.log[q - 1].rec.ready == 1 {
      FirePartialInv(p, s, h, i);
    } else {
      DeferInv(p, s, h, i);
    }
  }

  /** h finds the partial of i: it lies between the two claims. */
  lemma FirePartialInv(p: Program, s: State, h: nat, i: int)
    requires WellFormed(p) && Inv(p, s) && h < |s.hs| && s.hs[h].ph.Scan? && s.ops[h].dst in p.nodes
    requires Partner(s, h, i) && s.hs[i].c < s.hs[h].c && 0 < s.hs[i].d < s.hs[h].c
    ensures var node := PartialNode(p, s.ops[i]);
            Inv(p, Goto(s, h, Retire(node, PartialResult(node, s.ops[h]))))
  {
    Known(p, s, h);
    var node := PartialNode(p, s.ops[i]);
    var ph := Retire(node, PartialResult(node, s.ops[h]));
    assert Partner(Goto(s, h, ph), h, i);
    assert PairInv(s, i, h) && PairInv(s, h, i);
    PairsOfTwo(p, s, h, i, ph);
    GotoInv(p, s, h, ph);
  }

  /** h finds the claim of i and no partial after it. */
  lemma DeferInv(p: Program, s: State, h: nat, i: int)
    requires WellFormed(p) && Inv(p, s) && h < |s.hs| && s.hs[h].ph.Scan? && s.ops[h].dst in p.nodes
    requires Partner(s, h, i) && s.hs[i].c < s.hs[h].c && s.hs[h].ph.seqno == s.hs[i].c
    ensures Inv(p, Goto(s, h, Exit(Deferred)))
  {
    Known(p, s, h);
    assert Partner(Goto(s, h, Exit(Deferred)), h, i);
    DeferPair(p, s, h, i);
    PairsOfTwo(p, s, h, i, Exit(Deferred));
    GotoInv(p, s, h, Exit(Deferred));
  }

  lemma DeferPair(p: Program, s: State, h: nat, i: int)
    requires WellFormed(p) && Inv(p, s) && h < |s.hs| && s.hs[h].ph.Scan? && s.ops[h].dst in p.nodes
    requires Partner(s, h, i) && s.hs[i].c < s.hs[h].c && s.hs[h].ph.seqno == s.hs[i].c
    ensures var s' := Goto(s, h, Exit(Deferred)); PairInv(s', h, i) && PairInv(s', i, h)
  {
    assert HandlerInv(p, s, h) && HandlerInv(p, s, i) && PairInv(s, i, h);
    if s.hs[i].d != 0 { assert s.log[s.hs[i].d - 1].rec.no == s.ops[h].dst; }
  }

  lemma ScanInv(p: Program, s: State, h: nat)
    requires WellFormed(p) && Inv(p, s) && h < |s.hs| && s.hs[h].ph.Scan?
    ensures Inv(p, ActOf(s, h))
  {
    Known(p, s, h);
    var q := s.hs[h].ph.seqno;
    OriginalBelow(p, s, s.ops[h].dst, q, s.hs[h].c - 1);
    assert ActOf(s, h) == Goto(s, h, ScanNext(q, s.hs[h].c, s.ops[h], s.log[q - 1].rec));
    if s.log[q - 1].rec.no != s.ops[h].dst {
      ScanMissInv(p, s, h);
    } else if q <= |p.layout| {
      ScanOriginalInv(p, s, h);
    } else {
      ScanOtherInv(p, s, h);
    }
  }

  lemma ScanMissInv(p: Program, s: State, h: nat)
    requires WellFormed(p) && Inv(p, s) && h < |s.hs| && s.hs[h].ph.Scan?
    requires 1 <= s.hs[h].ph.seqno <= |s.log| && s.log[s.hs[h].ph.seqno - 1].rec.no != s.ops[h].dst
    ensures Inv(p, Goto(s, h, Scan(s.hs[h].ph.seqno - 1)))
  {
    Known(p, s, h);
    var ph := Scan(s.hs[h].ph.seqno - 1);
    PairsStayUndecided(p, s, h, ph);
    GotoInv(p, s, h, ph);
  }

  lemma ParkInv(p: Program, s: State, h: nat)
    requires WellFormed(p) && Inv(p, s) && h < |s.hs| && s.hs[h].ph.Park?
    ensures Inv(p, ActOf(s, h))
  {
    Known(p, s, h);
    var s' := ActOf(s, h);
    ParkHandler(p, s, s', h);
    forall j | 0 <= j < |s.hs| ensures PairInv(s', h, j) && PairInv(s', j, h) {
      assert HandlerInv(p, s, j) && PairInv(s, h, j) && PairInv(s, j, h);
      ParkPair(p, s, s', h, j);
    }
    Preserve(p, s, s', h);
  }

  lemma ParkPair(p: Program, s: State, s': State, h: nat, j: int)
    requires |s.hs| == |s.ops| && h < |s.hs| && 0 <= j < |s.hs| && s.hs[h].ph.Park? && s.hs[h].d == 0
    requires s.hs[j].c <= |s.log|
    requires s' == Put(s, h, s.hs[h].ph.node,
                       Handler(Future(s.hs[h].ph.node, |s.log|), s.hs[h].c, |s.log| + 1, s.hs[h].e))
    requires PairInv(s, h, j) && PairInv(s, j, h)
    ensures PairInv(s', h, j) && PairInv(s', j, h)
  {
  }

  lemma ParkHandler(p: Program, s: State, s': State, h: nat)
    requires h < |s.hs| == |s.ops| && s.hs[h].ph.Park? && s.ops[h].dst in p.nodes && HandlerInv(p, s, h)
    requires s' == Put(s, h, s.hs[h].ph.node,
                       Handler(Future(s.hs[h].ph.node, |s.log|), s.hs[h].c, |s.log| + 1, s.hs[h].e))
    ensures HandlerInv(p, s', h) && Owned(p, s', |s.log|) && Extends(s, s')
  {
  }

  /** A claim of node n that is younger than that of h is the claim of the other handler. */
  lemma YoungerClaim(p: Program, s: State, h: nat, k: int) returns (i: int)
    requires WellFormed(p) && Inv(p, s) && h < |s.hs| && s.ops[h].dst in p.nodes
    requires |p.layout| <= k < |s.log| && 0 < s.hs[h].c < k + 1
    requires s.log[k].rec.no == s.ops[h].dst && s.log[k].rec.state == CLAIM
    ensures Partner(s, h, i) && s.hs[i].c == k + 1 && s.log[k].rec == ClaimNode(s.ops[i])
  {
    assert Owned(p, s, k);
    i := s.log[k].writer;
    assert HandlerInv(p, s, i);
  }

  /** The scan for a future finds the claim of the other handler. */
  lemma FutureHitInv(p: Program, s: State, h: nat)
    requires WellFormed(p) && Inv(p, s) && h < |s.hs| && s.hs[h].ph.Future?
    requires 0 < s.hs[h].c < s.hs[h].ph.f <= |s.log|
    requires s.log[s.hs[h].ph.f - 1].rec.no == s.ops[h].dst && s.log[s.hs[h].ph.f - 1].rec.state == CLAIM
    ensures var node := s.hs[h].ph.node;
            Inv(p, Goto(s, h, Retire(node, FutureResult(node, s.log[s.hs[h].ph.f - 1].rec, s.ops[h]))))
  {
    Known(p, s, h);
    var f := s.hs[h].ph.f;
    var i := YoungerClaim(p, s, h, f - 1);
    var ph := Retire(s.hs[h].ph.node, FutureResult(s.hs[h].ph.node, s.log[f - 1].rec, s.ops[h]));
    assert Partner(Goto(s, h, ph), h, i);
    assert PairInv(s, h, i) && PairInv(s, i, h);
    PairsOfTwo(p, s, h, i, ph);
    GotoInv(p, s, h, ph);
  }

  /** The scan for a future has come back to the claim of h. */
  lemma FutureEndInv(p: Program, s: State, h: nat)
    requires WellFormed(p) && Inv(p, s) && h < |s.hs| && s.hs[h].ph.Future? && s.hs[h].ph.f == s.hs[h].c
    ensures Inv(p, Goto(s, h, Exit(Parked)))
  {
    Known(p, s, h);
    var s' := Goto(s, h, Exit(Parked));
    forall j | 0 <= j < |s.hs| ensures PairInv(s', h, j) && PairInv(s', j, h) {
      assert HandlerInv(p, s, j) && PairInv(s, h, j) && PairInv(s, j, h);
    }
    GotoInv(p, s, h, Exit(Parked));
  }

  lemma FutureInv(p: Program, s: State, h: nat)
    requires WellFormed(p) && Inv(p, s) && h < |s.hs| && s.hs[h].ph.Future?
    ensures Inv(p, ActOf(s, h))
  {
    Known(p, s, h);
    var f, node := s.hs[h].ph.f, s.hs[h].ph.node;
    if f == s.hs[h].c {
      FutureEndInv(p, s, h);
    } else if s.log[f - 1].rec.no == s.ops[h].dst && s.log[f - 1].rec.state == CLAIM {
      FutureHitInv(p, s, h);
    } else {
      FutureMissInv(p, s, h);
    }
  }

  lemma FutureMissInv(p: Program, s: State, h: nat)
    requires WellFormed(p) && Inv(p, s) && h < |s.hs| && s.hs[h].ph.Future?
    requires 0 < s.hs[h].c < s.hs[h].ph.f <= |s.log|
    requires s.log[s.hs[h].ph.f - 1].rec.no == s.ops[h].dst ==> s.log[s.hs[h].ph.f - 1].rec.state != CLAIM
    ensures Inv(p, Goto(s, h, Future(s.hs[h].ph.node, s.hs[h].ph.f - 1)))
  {
    Known(p, s, h);
    var ph := Future(s.hs[h].ph.node, s.hs[h].ph.f - 1);
    PairsStayUndecided(p, s, h, ph);
    GotoInv(p, s, h, ph);
  }

  lemma RetireInv(p: Program, s: State, h: nat)
    requires WellFormed(p) && Inv(p, s) && h < |s.hs| && s.hs[h].ph.Retire?
    ensures Inv(p, ActOf(s, h))
  {
    var node, r := s.hs[h].ph.node, s.hs[h].ph.result;
    var s' := Put(s, h, node.(ready := 2, state := DONE), Handler(Send(node, r), s.hs[h].c, s.hs[h].d, |s.log| + 1));
    assert ActOf(s, h) == s';
    Known(p, s, h);
    RetireHandler(p, s, s', h);
    forall j | 0 <= j < |s.hs| ensures PairInv(s', h, j) && PairInv(s', j, h) {
      assert PairInv(s, h, j) && PairInv(s, j, h);
    }
    Preserve(p, s, s', h);
  }

  lemma RetireHandler(p: Program, s: State, s': State, h: nat)
    requires h < |s.hs| == |s.ops| && s.hs[h].ph.Retire? && s.ops[h].dst in p.nodes && HandlerInv(p, s, h)
    requires var node, r := s.hs[h].ph.node, s.hs[h].ph.result;
             s' == Put(s, h, node.(ready := 2, state := DONE),
                       Handler(Send(node, r), s.hs[h].c, s.hs[h].d, |s.log| + 1))
    ensures HandlerInv(p, s', h) && Owned(p, s', |s.log|) && Extends(s, s')
    ensures !s'.hs[h].ph.NoHandler?
  {
    var j :| Partner(s, h, j);
    assert Partner(s', h, j);
  }

  /** The result of a node is put by the one handler that fires it, so it is new. */
  lemma SendFresh(p: Program, s: State, h: nat)
    requires WellFormed(p) && Inv(p, s) && h < |s.hs| && s.hs[h].ph.Send?
    ensures !Delivered(s, Res(s.ops[h].dst))
  {
    var n := s.ops[h].dst;
    if Delivered(s, Res(n)) {
      var t :| 0 <= t < |s.ops| && s.ops[t].src == Res(n);
      assert ProducedBySome(s, n);
      var i :| 0 <= i < |s.hs| && s.ops[i].dst == n && s.hs[i].ph == Exit(Fired);
      OneFires(p, s, h, i);
      assert false;
    }
  }

  /** Adding one fresh operand with its handler. */
  lemma DeliverInv(p: Program, s: State, s': State, o: Operand)
    requires WellFormed(p) && ProtocolInv(p, s)
    requires ValidSource(p, o.src) && o.dst == DstOf(p, o.src) && o.order == OrderOf(p, o.src)
    requires o.src.Ext? ==> o.value == p.ext[o.src.i].value
    requires !Delivered(s, o.src)
    requires s' == s.(ops := s.ops + [o], hs := s.hs + [Handler(if o.dst == 0 then NoHandler else Start, 0, 0, 0)])
    ensures ProtocolInv(p, s')
  {
    Destination(p, o.src);
    forall i | 0 <= i < |s'.ops| ensures OperandOk(p, s'.ops[i], s'.hs[i]) {
      if i < |s.ops| { assert OperandOk(p, s.ops[i], s.hs[i]); }
    }
    forall k | |p.layout| <= k < |s'.log| ensures Owned(p, s', k) {
      OwnedStable(p, s, s', k);
    }
    forall i | 0 <= i < |s'.hs| ensures HandlerInv(p, s', i) {
      if i < |s.hs| { HandlerStable(p, s, s', i); }
    }
    forall i, j | 0 <= i < |s'.hs| && 0 <= j < |s'.hs| ensures PairInv(s', i, j) {
      if i < |s.hs| && j < |s.hs| { assert PairInv(s, i, j); }
    }
  }

  lemma ExternalInv(p: Program, s: State, i: nat)
    requires WellFormed(p) && Inv(p, s) && Enabled(p, s, Deliver(i))
    ensures Inv(p, Apply(p, s, Deliver(i)))
  {
    var s' := Apply(p, s, Deliver(i));
    DeliverInv(p, s, s', s'.ops[|s.ops|]);
    forall t | 0 <= t < |s'.ops| && s'.ops[t].src.Res? ensures ProducedBySome(s', s'.ops[t].src.m) {
      ProducedStable(s, s', s.ops[t].src.m);
    }
  }

  lemma SendInv(p: Program, s: State, h: nat)
    requires WellFormed(p) && Inv(p, s) && h < |s.hs| && s.hs[h].ph.Send?
    ensures Inv(p, ActOf(s, h))
  {
    Known(p, s, h);
    SendFresh(p, s, h);
    // first put the operand, then let h exit
    var n, node := s.ops[h].dst, s.hs[h].ph.node;
    var o := Operand(Res(n), s.hs[h].ph.result, node.dst, node.dstOrder);
    var mid := s.(ops := s.ops + [o], hs := s.hs + [Handler(if o.dst == 0 then NoHandler else Start, 0, 0, 0)]);
    DeliverInv(p, s, mid, o);
    SendExitInv(p, mid, h, |s.ops|);
    var s' := Goto(mid, h, Exit(Fired));
    assert ActOf(s, h) == s';
    SendResult(s, s', h);
  }

  lemma SendResult(s: State, s': State, h: nat)
    requires |s.hs| == |s.ops| && |s'.hs| == |s'.ops| == |s.ops| + 1 && s.ops <= s'.ops && ResultInv(s)
    requires h < |s.hs| && s'.hs[h].ph == Exit(Fired) && s'.ops[|s.ops|].src == Res(s.ops[h].dst)
    requires forall i | 0 <= i < |s.hs| && i != h :: s'.hs[i] == s.hs[i]
    ensures ResultInv(s')
  {
    forall t | 0 <= t < |s'.ops| && s'.ops[t].src.Res? ensures ProducedBySome(s', s'.ops[t].src.m) {
      if t == |s.ops| {
        assert s'.ops[h].dst == s.ops[h].dst;
      } else {
        ProducedStable(s, s', s.ops[t].src.m);
      }
    }
  }

  lemma SendExitInv(p: Program, s: State, h: nat, t: nat)
    requires WellFormed(p) && ProtocolInv(p, s) && h < |s.hs| && s.hs[h].ph.Send?
    requires t < |s.ops| && s.ops[t].src == Res(s.ops[h].dst)
    ensures ProtocolInv(p, Goto(s, h, Exit(Fired)))
  {
    var s' := Goto(s, h, Exit(Fired));
    Known(p, s, h);
    SendHandler(p, s, h, t);
    forall j | 0 <= j < |s.hs| ensures PairInv(s', h, j) && PairInv(s', j, h) {
      assert PairInv(s, h, j) && PairInv(s, j, h);
    }
    Preserve(p, s, s', h);
  }

  lemma SendHandler(p: Program, s: State, h: nat, t: nat)
    requires h < |s.hs| == |s.ops| && s.hs[h].ph.Send? && s.ops[h].dst in p.nodes && HandlerInv(p, s, h)
    requires t < |s.ops| && s.ops[t].src == Res(s.ops[h].dst)
    ensures HandlerInv(p, Goto(s, h, Exit(Fired)), h) && Extends(s, Goto(s, h, Exit(Fired)))
  {
    var s' := Goto(s, h, Exit(Fired));
    var j :| Partner(s, h, j);
    assert Partner(s', h, j);
    assert s'.ops[t].src == Res(s.ops[h].dst);
  }

  lemma StepInv(p: Program, s: State, st: Step)
    requires WellFormed(p) && Inv(p, s) && Enabled(p, s, st)
    ensures Inv(p, Apply(p, s, st))
  {
    match st
    case Deliver(i) => ExternalInv(p, s, i);
    case Act(h) =>
      match s.hs[h].ph
      case Start => StartInv(p, s, h);
      case Scan(_) => ScanInv(p, s, h);
      case Park(_) => ParkInv(p, s, h);
      case Future(_, _) => FutureInv(p, s, h);
      case Retire(_, _) => RetireInv(p, s, h);
      case Send(_, _) => SendInv(p, s, h);
  }

  lemma {:induction false} RunInv(p: Program, run: seq<State>)
    requires WellFormed(p) && IsRun(p, run)
    ensures Inv(p, run[|run| - 1])
  {
    if |run| == 1 {
      InitInv(p, run[0]);
    } else {
      var before := run[..|run| - 1];
      RunInv(p, before);
      assert Next(p, run[|run| - 2], run[|run| - 1]);
      var st :| Enabled(p, run[|run| - 2], st) && run[|run| - 1] == Apply(p, run[|run| - 2], st);
      StepInv(p, run[|run| - 2], st);
    }
  }
}
