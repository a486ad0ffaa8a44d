/**
 The dataflow application: a program woof holding nodes, an operand woof holding
 operands, and one handler per operand.  The handlers share nothing but the program
 woof, whose only operations are "append a record and learn its sequence number" and
 "read an old record".  The model is a step system in which every step is one such
 append or read, so that a run is an arbitrary interleaving of any number of handlers.

 Three pieces of state are history only and are never tested by a step: the source of
 an operand (`src`), the writer of a log record (`writer`), and the sequence number of the
 DONE record of a handler (`e`).
 */
module DataflowModel {

  // ---------- Values and the operations on them ----------

  /** A double, with rounding ignored; everything that is not finite is `NaN`. */
  datatype Num = Fin(r: real) | NaN

  const ADD := 1
  const SUB := 2
  const MUL := 3
  const DIV := 4
  const SQR := 5

  ghost predicate IsSquareRoot(x: real, r: real) {
    x >= 0.0 && x * x == r
  }

  ghost function DFOperation(opcode: int, op1: Num, op2: Num): Num {
    if opcode == SQR then
      if op1.Fin? && exists x :: IsSquareRoot(x, op1.r)
      then var x :| IsSquareRoot(x, op1.r); Fin(x)
      else NaN
    else if op1.NaN? || op2.NaN? then NaN
    else if opcode == ADD then Fin(op1.r + op2.r)
    else if opcode == SUB then Fin(op1.r - op2.r)
    else if opcode == MUL then Fin(op1.r * op2.r)
    else if opcode == DIV && op2.r != 0.0 then Fin(op1.r / op2.r)
    else NaN
  }

  /** What the opcodes of the header file stand for, on numbers.  A quotient is what gives x
      when it is multiplied by y; a square root of x is found whenever any z has the square x. */
  lemma Operations(x: real, y: real, z: real)
    ensures DFOperation(1, Fin(x), Fin(y)) == Fin(x + y)
    ensures DFOperation(2, Fin(x), Fin(y)) == Fin(x - y)
    ensures DFOperation(3, Fin(x), Fin(y)) == Fin(x * y)
    ensures var q := DFOperation(4, Fin(x), Fin(y)); if y != 0.0 then q.Fin? && q.r * y == x else q.NaN?
    ensures var r := DFOperation(5, Fin(x), Fin(y)); r.Fin? ==> r.r >= 0.0 && r.r * r.r == x
    ensures z * z == x ==> DFOperation(5, Fin(x), Fin(y)).Fin?
  {
    if y != 0.0 { assert x / y * y == x; }
    if z * z == x { assert IsSquareRoot(if z >= 0.0 then z else -z, x); }
  }

  /** What is not a number gives nothing that is, but for the second operand of a square root;
      nor do other opcodes. */
  lemma NoNumber(opcode: int, v: Num)
    ensures DFOperation(opcode, NaN, v) == NaN
    ensures opcode != 5 ==> DFOperation(opcode, v, NaN) == NaN
    ensures opcode == 5 ==> forall w :: DFOperation(opcode, v, w) == DFOperation(opcode, v, NaN)
    ensures !(1 <= opcode <= 5) ==> forall w :: DFOperation(opcode, v, w) == NaN
  {
  }

  // ---------- Programs ----------

  /** Where an operand comes from: the outside, or the firing of a node. */
  datatype Source = Ext(i: nat) | Res(m: int)

  datatype NodeDef = NodeDef(opcode: int, dst: int, dstOrder: int)
  datatype Input = Input(value: Num, dst: int, order: int)

  /** A program: its nodes, the order in which they were put in the program woof, the
      operands put from outside, and the two sources that feed each node. */
  datatype Program = Program(
    nodes: map<int, NodeDef>,
    layout: seq<int>,
    ext: seq<Input>,
    first: map<int, Source>,
    second: map<int, Source>)

  predicate ValidSource(p: Program, src: Source) {
    match src
    case Ext(i) => i < |p.ext|
    case Res(m) => m in p.nodes
  }

  function DstOf(p: Program, src: Source): int
    requires ValidSource(p, src)
  {
    match src
    case Ext(i) => p.ext[i].dst
    case Res(m) => p.nodes[m].dst
  }

  function OrderOf(p: Program, src: Source): int
    requires ValidSource(p, src)
  {
    match src
    case Ext(i) => p.ext[i].order
    case Res(m) => p.nodes[m].dstOrder
  }

  /** Every node has exactly the two sources `first[n]` and `second[n]`. */
  ghost predicate TwoSources(p: Program, n: int) {
    && n in p.first && n in p.second && p.first[n] != p.second[n]
    && ValidSource(p, p.first[n]) && DstOf(p, p.first[n]) == n
    && ValidSource(p, p.second[n]) && DstOf(p, p.second[n]) == n
    && forall src | ValidSource(p, src) && DstOf(p, src) == n :: src == p.first[n] || src == p.second[n]
  }

  /** The result of node n goes to another node, or it is the final result. */
  ghost predicate LeadsOn(p: Program, n: int)
    requires n in p.nodes
  {
    p.nodes[n].dst == 0 || p.nodes[n].dst in p.nodes
  }

  /** Destination 0 is the final result; all other destinations are nodes that are in
      the program woof exactly once and receive exactly two operands. */
  ghost predicate WellFormed(p: Program) {
    && 0 !in p.nodes
    && (forall k | 0 <= k < |p.layout| :: p.layout[k] in p.nodes)
    && (forall n {:trigger n in p.layout} | n in p.nodes :: n in p.layout)
    && (forall k, l | 0 <= k < l < |p.layout| :: p.layout[k] != p.layout[l])
    && (forall n {:trigger LeadsOn(p, n)} | n in p.nodes :: LeadsOn(p, n))
    && (forall i | 0 <= i < |p.ext| :: p.ext[i].dst in p.nodes)
    && (forall n {:trigger TwoSources(p, n)} | n in p.nodes :: TwoSources(p, n))
  }

  lemma Destination(p: Program, src: Source)
    requires WellFormed(p) && ValidSource(p, src)
    ensures DstOf(p, src) == 0 || DstOf(p, src) in p.nodes
  {
    if src.Res? { assert LeadsOn(p, src.m); }
  }

  // ---------- State ----------

  datatype NodeState = WAITING | CLAIM | DONE

  /** A record of the program woof. */
  datatype Node = Node(
    opcode: int, ready: int, value: Num, order: int,
    no: int, dst: int, dstOrder: int, state: NodeState)

  datatype Entry = Entry(rec: Node, writer: int)

  /** A record of the operand woof. */
  datatype Operand = Operand(src: Source, value: Num, dst: int, order: int)

  datatype ExitCode = Fired | Deferred | Parked | TooManyInputs | NodeNotFound | ReadFailed

  datatype Phase =
    | NoHandler                        // operand for destination 0, put without a handler
    | Start                            // about to put the CLAIM
    | Scan(seqno: int)                 // main log scan, about to read seqno
    | Park(node: Node)                 // about to put the partial
    | Future(node: Node, f: int)       // scan for a future, about to test f
    | Retire(node: Node, result: Num)  // in dfFireNode, about to put DONE
    | Send(node: Node, result: Num)    // in dfFireNode, about to put the result operand
    | Exit(code: ExitCode)

  /** `c` and `d` are the handler's c_seqno and d_seqno, 0 until they are assigned. */
  datatype Handler = Handler(ph: Phase, c: int, d: int, e: int)

  /** Record k of `log` has sequence number k + 1; handler i serves operand i. */
  datatype State = State(log: seq<Entry>, ops: seq<Operand>, hs: seq<Handler>)

  function OriginalNode(p: Program, n: int): Node
    requires n in p.nodes
  {
    Node(p.nodes[n].opcode, 0, Fin(0.0), 0, n, p.nodes[n].dst, p.nodes[n].dstOrder, WAITING)
  }

  function ClaimNode(o: Operand): Node {
    Node(0, 0, o.value, o.order, o.dst, 0, 0, CLAIM)
  }

  ghost predicate Init(p: Program, s: State) {
    && s.ops == [] && s.hs == []
    && |s.log| == |p.layout|
    && forall k | 0 <= k < |p.layout| ::
         p.layout[k] in p.nodes && s.log[k] == Entry(OriginalNode(p, p.layout[k]), -1)
  }

  // ---------- Steps ----------

  datatype Step = Deliver(i: nat) | Act(h: nat)

  predicate Delivered(s: State, src: Source) {
    exists t :: 0 <= t < |s.ops| && s.ops[t].src == src
  }

  predicate Enabled(p: Program, s: State, st: Step) {
    match st
    case Deliver(i) => i < |p.ext| && !Delivered(s, Ext(i))
    case Act(h) => h < |s.hs| && h < |s.ops| && !s.hs[h].ph.NoHandler? && !s.hs[h].ph.Exit?
  }

  /** The program woof is large enough to retain everything that was put in it. */
  predicate Readable(s: State, seqno: int) {
    0 <= seqno <= |s.log| && s.log != []
  }

  /** A read of sequence number 0 returns the latest record. */
  function Get(s: State, seqno: int): Node
    requires Readable(s, seqno)
  {
    if seqno == 0 then s.log[|s.log| - 1].rec else s.log[seqno - 1].rec
  }

  /** The partial `node` was found by the handler of `o`. */
  ghost function PartialResult(node: Node, o: Operand): Num {
    if node.order == 1
    then DFOperation(node.opcode, node.value, o.value)
    else DFOperation(node.opcode, o.value, node.value)
  }

  /** The handler of `o` wrote the partial `node` and then found the claim `fnode`. */
  ghost function FutureResult(node: Node, fnode: Node, o: Operand): Num {
    if fnode.order == 1
    then DFOperation(node.opcode, fnode.value, o.value)
    else DFOperation(node.opcode, o.value, fnode.value)
  }

  function Put(s: State, h: nat, rec: Node, next: Handler): State
    requires h < |s.hs|
  {
    s.(log := s.log + [Entry(rec, h)], hs := s.hs[h := next])
  }

  function Goto(s: State, h: nat, ph: Phase): State
    requires h < |s.hs|
  {
    s.(hs := s.hs[h := s.hs[h].(ph := ph)])
  }

  /** One iteration of the main log scan, after the read returned `node`. */
  ghost function ScanNext(seqno: int, c: int, o: Operand, node: Node): Phase {
    if node.no == o.dst && node.ready >= 2 then Exit(TooManyInputs)
    else if node.no == o.dst && node.ready == 1 then Retire(node, PartialResult(node, o))
    else if node.no == o.dst && node.state == CLAIM && seqno < c then Exit(Deferred)
    else if node.no == o.dst && node.state != CLAIM && node.ready == 0 then
      Park(node.(ready := 1, value := o.value, order := o.order))
    else Scan(seqno - 1)
  }

  /** One iteration of the scan for a future, after the read returned `fnode`. */
  ghost function FutureNext(node: Node, f: int, o: Operand, fnode: Node): Phase {
    if fnode.no == o.dst && fnode.state == CLAIM
    then Retire(node, FutureResult(node, fnode, o))
    else Future(node, f - 1)
  }

  /** The next put or get of handler h. */
  ghost function ActOf(s: State, h: nat): State
    requires h < |s.hs| && h < |s.ops|
  {
    var o, hd := s.ops[h], s.hs[h];
    var next := |s.log| + 1;
    match hd.ph
    case Start => Put(s, h, ClaimNode(o), Handler(Scan(next - 1), next, hd.d, hd.e))
    case Scan(seqno) =>
      if seqno == -1 then Goto(s, h, Exit(NodeNotFound))
      else if !Readable(s, seqno) then Goto(s, h, Exit(ReadFailed))
      else Goto(s, h, ScanNext(seqno, hd.c, o, Get(s, seqno)))
    case Park(node) => Put(s, h, node, Handler(Future(node, next - 1), hd.c, next, hd.e))
    case Future(node, f) =>
      if f <= hd.c then Goto(s, h, Exit(Parked))
      else if !Readable(s, f) then Goto(s, h, Exit(ReadFailed))
      else Goto(s, h, FutureNext(node, f, o, Get(s, f)))
    case Retire(node, result) =>
      Put(s, h, node.(ready := 2, state := DONE), Handler(Send(node, result), hd.c, hd.d, next))
    case Send(node, result) =>
      var done := Goto(s, h, Exit(Fired));
      var first := if node.dst == 0 then NoHandler else Start;
      done.(ops := s.ops + [Operand(Res(node.no), result, node.dst, node.dstOrder)],
            hs := done.hs + [Handler(first, 0, 0, 0)])
    case _ => s
  }

  ghost function Apply(p: Program, s: State, st: Step): State
    requires Enabled(p, s, st)
  {
    match st
    case Deliver(i) =>
      s.(ops := s.ops + [Operand(Ext(i), p.ext[i].value, p.ext[i].dst, p.ext[i].order)],
         hs := s.hs + [Handler(Start, 0, 0, 0)])
    case Act(h) => ActOf(s, h)
  }

  ghost predicate Next(p: Program, s: State, s': State) {
    exists st :: Enabled(p, s, st) && s' == Apply(p, s, st)
  }

  /** A run: any interleaving of operand deliveries and handler steps. */
  ghost predicate IsRun(p: Program, run: seq<State>) {
    && |run| > 0
    && Init(p, run[0])
    && forall k | 0 < k < |run| :: Next(p, run[k - 1], run[k])
  }

  /** Nothing is left to do. */
  ghost predicate Quiescent(p: Program, s: State) {
    forall st :: !Enabled(p, s, st)
  }
}
