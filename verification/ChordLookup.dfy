/**
 Lookup in the distributed hash table: each node answers from its successor list, or
 forwards the request to a finger or a successor between itself and the key.
 Identifiers are numbers below m, as module ChordRing justifies; 0 stands for an empty
 entry and is no node's identifier.
 */
module ChordLookup {
  import opened ChordRing
  import opened Counting
  import opened RingArithmetic

  ghost predicate NodesOk(nodes: set<nat>, m: nat) {
    nodes != {} && forall x | x in nodes :: 0 < x < m
  }

  /** The node that is responsible for the key: the first at or after it. */
  ghost predicate IsSuccessor(nodes: set<nat>, key: nat, s: nat, m: nat) {
    s in nodes && forall x | x in nodes :: Dist(key, s, m) <= Dist(key, x, m)
  }

  /** The first node after n, which is n itself if there is no other. */
  ghost predicate IsNext(nodes: set<nat>, n: nat, s: nat, m: nat) {
    s in nodes && forall x | x in nodes :: Span(n, s, m) <= Span(n, x, m)
  }

  /** The node, or the entry before entry i of its successor list. */
  function Before(n: nat, succ: seq<nat>, i: nat): nat
    requires i <= |succ|
  {
    if i == 0 then n else succ[i - 1]
  }

  /** A correct successor list has at least one entry; unused entries are empty. */
  ghost predicate SuccessorsOk(nodes: set<nat>, n: nat, succ: seq<nat>, len: nat, m: nat) {
    && 1 <= len <= |succ|
    && (forall i {:trigger Before(n, succ, i)} | 0 <= i < len :: IsNext(nodes, Before(n, succ, i), succ[i], m))
    && (forall i | len <= i < |succ| :: succ[i] == 0)
  }

  /** A finger: a hash, and whether it comes with the address of a replica leader. */
  datatype Finger = Finger(hash: nat, leader: bool)

  /** Fingers point to nodes, not necessarily to the right ones, or are empty. */
  ghost predicate FingersOk(nodes: set<nat>, fingers: seq<Finger>) {
    forall i | 0 <= i < |fingers| :: fingers[i].hash == 0 || fingers[i].hash in nodes
  }

  // ---------- Geometry ----------

  lemma KeyBeforeNext(nodes: set<nat>, prev: nat, s: nat, key: nat, m: nat)
    requires NodesOk(nodes, m) && prev in nodes && IsNext(nodes, prev, s, m) && key < m
    requires InArc(key, prev, s, m) || key == s
    ensures IsSuccessor(nodes, key, s, m)
  {
    forall x | x in nodes ensures Dist(key, s, m) <= Dist(key, x, m) {
      assert Span(prev, s, m) <= Span(prev, x, m);
    }
  }

  lemma NextBeforeKey(nodes: set<nat>, n: nat, s: nat, key: nat, m: nat)
    requires NodesOk(nodes, m) && n in nodes && s in nodes && key < m
    requires !InArc(key, n, s, m) && key != s
    ensures InArc(s, n, key, m)
  {
  }

  lemma ForwardIsCloser(n: nat, f: nat, key: nat, m: nat)
    requires n < m && f < m && key < m && InArc(f, n, key, m)
    ensures Span(f, key, m) < Span(n, key, m)
  {
  }

  /** There is one node responsible for each key. */
  lemma SuccessorUnique(nodes: set<nat>, key: nat, s: nat, t: nat, m: nat)
    requires NodesOk(nodes, m) && key < m && IsSuccessor(nodes, key, s, m) && IsSuccessor(nodes, key, t, m)
    ensures s == t
  {
    assert Dist(key, s, m) == Dist(key, t, m);
  }

  lemma SuccessorIsNode(nodes: set<nat>, n: nat, succ: seq<nat>, len: nat, m: nat, i: nat)
    requires SuccessorsOk(nodes, n, succ, len, m) && i < |succ| && (i == 0 || succ[i] != 0)
    ensures succ[i] in nodes
  {
    assert IsNext(nodes, Before(n, succ, i), succ[i], m);
  }

  lemma EntriesAreNodes(nodes: set<nat>, n: nat, succ: seq<nat>, len: nat, m: nat)
    requires NodesOk(nodes, m) && SuccessorsOk(nodes, n, succ, len, m)
    ensures forall i | 0 <= i < len :: succ[i] in nodes && succ[i] != 0
  {
    forall i | 0 <= i < len ensures succ[i] in nodes && succ[i] != 0 {
      assert IsNext(nodes, Before(n, succ, i), succ[i], m);
    }
  }

  // ---------- One node ----------

  datatype Reply = Found(id: nat) | Forward(to: nat) | SelfForward

  /** The key lies between entry i of the successor list and what precedes it. */
  predicate KeyAt(n: nat, succ: seq<nat>, key: nat, m: nat, i: nat)
    requires i < |succ|
  {
    InArc(key, Before(n, succ, i), succ[i], m) || key == succ[i]
  }

  /** The search of the successor list: is the key in (previous, successor]? */
  method FromSuccessors(n: nat, succ: seq<nat>, key: nat, m: nat,
                        ghost nodes: set<nat>, ghost len: nat) returns (r: Reply)
    requires NodesOk(nodes, m) && n in nodes && key < m && SuccessorsOk(nodes, n, succ, len, m)
    ensures r.Found? ==> IsSuccessor(nodes, key, r.id, m)
    ensures r.Found? <==> exists i :: 0 <= i < len && KeyAt(n, succ, key, m, i)
    ensures !r.Found? ==> r == SelfForward && InArc(succ[0], n, key, m)
  {
    EntriesAreNodes(nodes, n, succ, len, m);
    var i := 0;
    while i < |succ| && succ[i] != 0
      invariant 0 <= i <= len
      invariant Before(n, succ, i) in nodes
      invariant forall j | 0 <= j < i :: !KeyAt(n, succ, key, m, j)
    {
      var prev := Before(n, succ, i);
      assert IsNext(nodes, prev, succ[i], m);
      if KeyAt(n, succ, key, m, i) {
        KeyBeforeNext(nodes, prev, succ[i], key, m);
        return Found(succ[i]);
      }
      i := i + 1;
    }
    assert i == len && !KeyAt(n, succ, key, m, 0);
    NextBeforeKey(nodes, n, succ[0], key, m);
    r := SelfForward;
  }

  /** invalidate_fingers */
  function Invalidate(fingers: seq<Finger>, f: nat): seq<Finger> {
    seq(|fingers|, i requires 0 <= i < |fingers| => if fingers[i].hash == f then Finger(0, false) else fingers[i])
  }

  /** The fingers without those that have one of the hashes `gone`. */
  ghost function Without(fingers: seq<Finger>, gone: set<nat>): seq<Finger> {
    seq(|fingers|, i requires 0 <= i < |fingers| => if fingers[i].hash in gone then Finger(0, false) else fingers[i])
  }

  lemma InvalidateOne(fingers: seq<Finger>, gone: set<nat>, f: nat)
    requires f != 0
    ensures Invalidate(Without(fingers, gone), f) == Without(fingers, gone + {f})
  {
  }

  /** A finger that the request may be forwarded to. */
  predicate Candidate(f: Finger, n: nat, key: nat, m: nat) {
    f.hash != 0 && f.leader && InArc(f.hash, n, key, m)
  }

  /** No finger with an index above j precedes the key, has the address of a leader and accepts
      requests. */
  ghost predicate NoneAbove(fingers: seq<Finger>, j: int, n: nat, key: nat, m: nat, up: set<nat>) {
    forall l | 0 <= l < |fingers| && j < l ::
      fingers[l].hash != 0 && fingers[l].leader && InArc(fingers[l].hash, n, key, m) ==> fingers[l].hash !in up
  }

  /** `to` has the address of a leader in the table, and none with a higher index would do. */
  ghost predicate IsHighest(fingers: seq<Finger>, to: nat, n: nat, key: nat, m: nat, up: set<nat>) {
    exists j :: 0 <= j < |fingers| && fingers[j] == Finger(to, true) && NoneAbove(fingers, j, n, key, m, up)
  }

  /** The one that was chosen is the highest that would do, if any would. */
  ghost predicate Highest(fingers: seq<Finger>, to: nat, n: nat, key: nat, m: nat, up: set<nat>) {
    NoneAbove(fingers, -1, n, key, m, up) || IsHighest(fingers, to, n, key, m, up)
  }

  /** Hashes of fingers before the key that have the address of a leader but do not accept
      requests. */
  ghost predicate AllDown(fingers: seq<Finger>, gone: set<nat>, n: nat, key: nat, m: nat, up: set<nat>) {
    forall x | x in gone :: x !in up && InArc(x, n, key, m) && Finger(x, true) in fingers
  }

  /** The fingers with these hashes are empty, and no others are changed. */
  ghost predicate Emptied(fingers: seq<Finger>, gone: set<nat>, fingers': seq<Finger>) {
    && |fingers'| == |fingers|
    && (forall i | 0 <= i < |fingers| && fingers[i].hash in gone :: fingers'[i].hash == 0)
    && (forall i | 0 <= i < |fingers| && fingers[i].hash !in gone :: fingers'[i] == fingers[i])
  }

  /** The closest preceding finger that accepts the request; those tried before are invalidated. */
  method FromFingers(n: nat, fingers: seq<Finger>, key: nat, m: nat, up: set<nat>, ghost nodes: set<nat>)
    returns (r: Reply, fingers': seq<Finger>, ghost gone: set<nat>)
    requires FingersOk(nodes, fingers)
    ensures Emptied(fingers, gone, fingers') && AllDown(fingers, gone, n, key, m, up)
    ensures r.Forward? || r.SelfForward?
    ensures r.Forward? ==> r.to in nodes && r.to in up && InArc(r.to, n, key, m)
    ensures r.Forward? ==> IsHighest(fingers, r.to, n, key, m, up)
    ensures !r.Forward? ==> forall l | 0 <= l < |fingers| && fingers[l].hash != 0 && fingers[l].leader ::
              InArc(fingers[l].hash, n, key, m) ==> fingers[l].hash !in up
  {
    fingers', gone := fingers, {};
    var i := |fingers|;
    while i > 0
      invariant 0 <= i <= |fingers| && fingers' == Without(fingers, gone) && AllDown(fingers, gone, n, key, m, up)
      invariant NoneAbove(fingers, i - 1, n, key, m, up)
    {
      i := i - 1;
      var f := fingers'[i];
      if Candidate(f, n, key, m) {
        if f.hash in up {
          return Forward(f.hash), fingers', gone;
        }
        InvalidateOne(fingers, gone, f.hash);
        fingers', gone := Invalidate(fingers', f.hash), gone + {f.hash};
      }
    }
    r := SelfForward;
  }

  /** The fallback: any successor before the key that accepts the request. */
  method FromSuccessorsBefore(n: nat, succ: seq<nat>, key: nat, m: nat, up: set<nat>,
                              ghost nodes: set<nat>, ghost len: nat) returns (r: Reply)
    requires NodesOk(nodes, m) && SuccessorsOk(nodes, n, succ, len, m) && InArc(succ[0], n, key, m)
    ensures r.Forward? || r.SelfForward?
    ensures r.Forward? ==> r.to in nodes && r.to in up && InArc(r.to, n, key, m)
    ensures succ[0] in up ==> !r.SelfForward?
  {
    SuccessorIsNode(nodes, n, succ, len, m, 0);
    for i := 0 to |succ|
      invariant i > 0 ==> succ[0] !in up
    {
      if succ[i] != 0 && InArc(succ[i], n, key, m) && succ[i] in up {
        SuccessorIsNode(nodes, n, succ, len, m, i);
        return Forward(succ[i]);
      }
    }
    r := SelfForward;
  }

  /** resolve_thread.  The node answers with the true successor of the key, if its successor
      list covers the key, and otherwise forwards the request closer to the key; it never has
      to send it to itself as long as its first successor accepts requests. */
  method Resolve(n: nat, succ: seq<nat>, fingers: seq<Finger>, key: nat, m: nat, up: set<nat>,
                 ghost nodes: set<nat>, ghost len: nat) returns (r: Reply, fingers': seq<Finger>, ghost gone: set<nat>)
    requires NodesOk(nodes, m) && n in nodes && key < m
    requires SuccessorsOk(nodes, n, succ, len, m) && FingersOk(nodes, fingers)
    ensures Emptied(fingers, gone, fingers') && AllDown(fingers, gone, n, key, m, up)
    ensures r.Found? <==> exists i :: 0 <= i < len && KeyAt(n, succ, key, m, i)
    ensures r.Found? ==> IsSuccessor(nodes, key, r.id, m)
    ensures r.Forward? ==> r.to in nodes && r.to in up && InArc(r.to, n, key, m)
    ensures r.Forward? ==> Span(r.to, key, m) < Span(n, key, m)
    ensures succ[0] in up ==> !r.SelfForward?
    ensures r.Forward? ==> Highest(fingers, r.to, n, key, m, up)
  {
    fingers', gone := fingers, {};
    r := FromSuccessors(n, succ, key, m, nodes, len);
    if r.Found? {
      return;
    }
    r, fingers', gone := FromFingers(n, fingers, key, m, up, nodes);
    if !r.Forward? {
      r := FromSuccessorsBefore(n, succ, key, m, up, nodes, len);
    }
    if r.Forward? {
      ForwardIsCloser(n, r.to, key, m);
    }
  }

  // ---------- The whole lookup ----------

  /** A ring of nodes with correct successor lists.  `fingers` gives the fingers that a node
      happens to have at a given hop: any nodes, right or wrong, fresh or stale. */
  ghost predicate NetworkOk(nodes: set<nat>, succs: map<nat, seq<nat>>, lens: map<nat, nat>,
                            fingers: (nat, nat) -> seq<Finger>, m: nat) {
    && NodesOk(nodes, m)
    && (forall n | n in nodes :: n in succs && n in lens && SuccessorsOk(nodes, n, succs[n], lens[n], m))
    && (forall h: nat, n: nat :: FingersOk(nodes, fingers(h, n)))
  }

  /** r entries of a correct successor list of n. */
  ghost predicate IsList(nodes: set<nat>, n: nat, succ: seq<nat>, r: nat, m: nat) {
    |succ| == r && forall i {:trigger Before(n, succ, i)} | 0 <= i < r :: IsNext(nodes, Before(n, succ, i), succ[i], m)
  }

  lemma {:induction false} Closest(nodes: set<nat>, n: nat, m: nat) returns (s: nat)
    requires nodes != {}
    ensures s in nodes && forall x | x in nodes :: Span(n, s, m) <= Span(n, x, m)
  {
    var y :| y in nodes;
    s := y;
    if nodes != {y} {
      var z := Closest(nodes - {y}, n, m);
      if Span(n, z, m) < Span(n, y, m) { s := z; }
    }
  }

  lemma {:induction false} ListExists(nodes: set<nat>, n: nat, r: nat, m: nat)
    requires nodes != {}
    ensures exists succ :: IsList(nodes, n, succ, r, m)
  {
    if r == 0 {
      assert IsList(nodes, n, [], 0, m);
    } else {
      ListExists(nodes, n, r - 1, m);
      var succ :| IsList(nodes, n, succ, r - 1, m);
      var s := Closest(nodes, Before(n, succ, r - 1), m);
      var longer := succ + [s];
      forall i | 0 <= i < r ensures IsNext(nodes, Before(n, longer, i), longer[i], m) {
        assert Before(n, longer, i) == Before(n, succ, i);
      }
      assert IsList(nodes, n, longer, r, m);
    }
  }

  ghost function ListOf(nodes: set<nat>, n: nat, r: nat, m: nat): (succ: seq<nat>)
    requires nodes != {}
    ensures IsList(nodes, n, succ, r, m)
  {
    ListExists(nodes, n, r, m);
    var succ :| IsList(nodes, n, succ, r, m);
    succ
  }

  /** Any non-empty set of identifiers forms such a ring, with successor lists of any length
      and with any fingers that point to nodes or are empty. */
  lemma RingExists(nodes: set<nat>, r: nat, fingers: (nat, nat) -> seq<Finger>, m: nat)
    returns (succs: map<nat, seq<nat>>, lens: map<nat, nat>)
    requires nodes != {} && (forall x | x in nodes :: 0 < x < m) && r >= 1
    requires forall h: nat, n: nat, i | 0 <= i < |fingers(h, n)| ::
               fingers(h, n)[i].hash == 0 || fingers(h, n)[i].hash in nodes
    ensures NetworkOk(nodes, succs, lens, fingers, m)
    ensures forall n | n in nodes :: |succs[n]| == r == lens[n]
  {
    succs := map n | n in nodes :: ListOf(nodes, n, r, m);
    lens := map n | n in nodes :: r;
  }

  /** Finger k of n, counted from 0, is the successor of n + 2^k. */
  ghost predicate FingersCorrect(nodes: set<nat>, n: nat, fingers: seq<Finger>, m: nat) {
    m > 0 && forall k | 0 <= k < |fingers| ::
      fingers[k].leader && IsSuccessor(nodes, FingerId(n, k + 1, m), fingers[k].hash, m)
  }

  ghost predicate AllFingersCorrect(nodes: set<nat>, fingers: (nat, nat) -> seq<Finger>, m: nat, bits: nat) {
    forall h: nat, n: nat | n in nodes ::
      |fingers(h, n)| == bits && FingersCorrect(nodes, n, fingers(h, n), m)
  }

  /** One node of a ring in which every node accepts requests; e bounds the distance to the
      last node before the key. */
  method Hop(n: nat, succ: seq<nat>, fingers: seq<Finger>, key: nat, m: nat, nodes: set<nat>, ghost len: nat,
             ghost p: nat, ghost bits: nat, ghost e: nat) returns (r: Reply)
    requires NodesOk(nodes, m) && n in nodes && key < m == Pow2(bits) && e <= bits
    requires SuccessorsOk(nodes, n, succ, len, m) && FingersOk(nodes, fingers) && IsPredecessor(nodes, key, p, m)
    ensures r.Found? || r.Forward?
    ensures r.Found? ==> IsSuccessor(nodes, key, r.id, m)
    ensures r.Forward? ==> r.to in nodes && Span(r.to, key, m) < Span(n, key, m)
    ensures r.Forward? && FingersCorrect(nodes, n, fingers, m) && |fingers| == bits && Dist(n, p, m) < Pow2(e) ==>
              e > 0 && Dist(r.to, p, m) < Pow2(e - 1)
  {
    SuccessorIsNode(nodes, n, succ, len, m, 0);
    ghost var fingers', gone;
    r, fingers', gone := Resolve(n, succ, fingers, key, m, nodes, nodes, len);
    if r.Forward? && FingersCorrect(nodes, n, fingers, m) && |fingers| == bits && Dist(n, p, m) < Pow2(e) {
      Halve(nodes, n, p, r.to, key, m, fingers, bits, e);
    }
  }

  /** From any node and for any key the request reaches the true successor of the key without
      visiting a node twice, whatever the fingers are; with correct fingers the number of hops
      is at most the number of bits of an identifier. */
  method Lookup(start: nat, key: nat, m: nat, nodes: set<nat>, succs: map<nat, seq<nat>>,
                ghost lens: map<nat, nat>, fingers: (nat, nat) -> seq<Finger>, ghost bits: nat)
    returns (owner: nat, hops: nat)
    requires NetworkOk(nodes, succs, lens, fingers, m) && start in nodes && key < m == Pow2(bits)
    ensures IsSuccessor(nodes, key, owner, m)
    ensures hops < |nodes|
    ensures AllFingersCorrect(nodes, fingers, m, bits) ==> hops <= bits
  {
    var n := start;
    hops := 0;
    ghost var visited: set<nat> := {};
    ghost var p := Predecessor(nodes, key, m);
    ghost var correct := AllFingersCorrect(nodes, fingers, m, bits);
    while true
      invariant n in nodes && visited <= nodes && |visited| == hops
      invariant AllFarther(visited, n, key, m)
      invariant correct ==> hops <= bits && Dist(n, p, m) < Pow2(bits - hops)
      decreases Span(n, key, m)
    {
      FewerThanAll(visited, nodes, n);
      ghost var e := if correct then bits - hops else 0;
      var r := Hop(n, succs[n], fingers(hops, n), key, m, nodes, lens[n], p, bits, e);
      if r.Found? {
        return r.id, hops;
      }
      visited := visited + {n};
      n := r.to;
      hops := hops + 1;
    }
  }

  ghost predicate AllFarther(visited: set<nat>, n: nat, key: nat, m: nat) {
    forall v | v in visited :: Span(v, key, m) > Span(n, key, m)
  }

  lemma FewerThanAll(visited: set<nat>, nodes: set<nat>, n: nat)
    requires visited <= nodes && n in nodes && n !in visited
    ensures |visited| < |nodes| && |visited + {n}| == |visited| + 1
  {
    SubsetSize(visited, nodes - {n});
  }

  // ---------- Halving ----------

  /** The last node before the key. */
  ghost predicate IsPredecessor(nodes: set<nat>, key: nat, p: nat, m: nat) {
    p in nodes && forall x | x in nodes :: Span(p, key, m) <= Span(x, key, m)
  }

  lemma {:induction false} Predecessor(nodes: set<nat>, key: nat, m: nat) returns (p: nat)
    requires nodes != {}
    ensures IsPredecessor(nodes, key, p, m)
  {
    p :| p in nodes;
    if nodes != {p} {
      var q := Predecessor(nodes - {p}, key, m);
      assert forall x | x in nodes :: x == p || x in nodes - {p};
      p := if Span(p, key, m) <= Span(q, key, m) then p else q;
    }
  }

  lemma {:induction false} Log2(d: nat, e: nat) returns (k: nat)
    requires 1 <= d < Pow2(e)
    ensures k < e && Pow2(k) <= d < 2 * Pow2(k)
  {
    if d >= Pow2(e - 1) {
      k := e - 1;
    } else {
      k := Log2(d, e - 1);
    }
  }

  lemma {:induction false} Pow2Grows(a: nat, b: nat)
    requires a <= b
    ensures Pow2(a) <= Pow2(b)
  {
    if a < b { Pow2Grows(a, b - 1); }
  }

  /** Finger k is 2^k away from the node. */
  lemma FingerDistance(n: nat, k: nat, m: nat)
    requires n < m && Pow2(k) < m
    ensures FingerId(n, k + 1, m) < m && Dist(n, FingerId(n, k + 1, m), m) == Pow2(k)
  {
    Wrap(n, Pow2(k), m);
  }

  lemma Wrap(n: nat, d: nat, m: nat)
    requires n < m && d < m
    ensures (n + d) % m == if n + d < m then n + d else n + d - m
  {
    if n + d < m { SmallModulo(n + d, m); } else { WrapOnce(n + d, m); }
  }

  lemma WrapOnce(x: nat, m: nat)
    requires m <= x < 2 * m
    ensures x % m == x - m
  {
    ModStep(x - m, m);
  }

  /** A correct finger lies no nearer than its distance, and is the nearest node that does;
      it is the node itself if there is no such node. */
  lemma FingerReach(nodes: set<nat>, n: nat, id: nat, d: nat, f: nat, m: nat)
    requires NodesOk(nodes, m) && n in nodes && id < m && 0 < d < m && Dist(n, id, m) == d
    requires IsSuccessor(nodes, id, f, m)
    ensures f == n || Dist(n, f, m) >= d
    ensures forall x | x in nodes && Dist(n, x, m) >= d :: f != n && Dist(n, f, m) <= Dist(n, x, m)
  {
    assert Dist(id, f, m) <= Dist(id, n, m);
    forall x | x in nodes && Dist(n, x, m) >= d
      ensures f != n && Dist(n, f, m) <= Dist(n, x, m)
    {
      assert Dist(id, f, m) <= Dist(id, x, m);
    }
  }

  /** One hop takes at least the half of what is left to the predecessor of the key. */
  lemma Halve(nodes: set<nat>, n: nat, p: nat, to: nat, key: nat, m: nat, fingers: seq<Finger>, bits: nat, e: nat)
    requires NodesOk(nodes, m) && n in nodes && key < m == Pow2(bits) && e <= bits == |fingers|
    requires IsPredecessor(nodes, key, p, m) && FingersCorrect(nodes, n, fingers, m)
    requires to in nodes && InArc(to, n, key, m) && Highest(fingers, to, n, key, m, nodes)
    requires Dist(n, p, m) < Pow2(e)
    ensures e > 0 && Dist(to, p, m) < Pow2(e - 1)
  {
    Ordered(n, to, p, key, m);
    var k := Log2(Dist(n, p, m), e);
    CorrectFinger(nodes, n, k, key, p, m, fingers, bits);
    var j :| 0 <= j < |fingers| && fingers[j] == Finger(to, true) && NoneAbove(fingers, j, n, key, m, nodes);
    Reach(nodes, n, j, to, m, fingers, bits);
    Half(Dist(n, p, m), Dist(n, to, m), k, j, e);
  }

  lemma Half(d: nat, q: nat, k: nat, j: nat, e: nat)
    requires k < e && k <= j && Pow2(j) <= q <= d < 2 * Pow2(k)
    ensures d - q < Pow2(e - 1)
  {
    Pow2Grows(k, j);
    Pow2Grows(k, e - 1);
  }

  lemma Reach(nodes: set<nat>, n: nat, j: nat, to: nat, m: nat, fingers: seq<Finger>, bits: nat)
    requires NodesOk(nodes, m) && n in nodes && m == Pow2(bits) && j < bits == |fingers|
    requires FingersCorrect(nodes, n, fingers, m) && fingers[j].hash == to
    ensures to == n || Dist(n, to, m) >= Pow2(j)
  {
    FingerLength(j, bits);
    FingerDistance(n, j, m);
    FingerReach(nodes, n, FingerId(n, j + 1, m), Pow2(j), to, m);
  }

  /** The node, a node before the key and the last node before the key, in this order. */
  lemma Ordered(n: nat, to: nat, p: nat, key: nat, m: nat)
    requires n < m && to < m && p < m && key < m
    requires InArc(to, n, key, m) && Span(p, key, m) <= Span(to, key, m)
    ensures 1 <= Dist(n, to, m) <= Dist(n, p, m) && InArc(p, n, key, m)
    ensures Dist(to, p, m) == Dist(n, p, m) - Dist(n, to, m)
  {
  }

  lemma FingerLength(k: nat, bits: nat)
    requires k < bits
    ensures Pow2(k) < Pow2(bits)
  {
    Pow2Grows(k + 1, bits);
  }

  /** The finger that reaches no farther than the last node before the key is a candidate. */
  lemma CorrectFinger(nodes: set<nat>, n: nat, k: nat, key: nat, p: nat, m: nat, fingers: seq<Finger>, bits: nat)
    requires NodesOk(nodes, m) && n in nodes && p in nodes && key < m == Pow2(bits) && k < bits == |fingers|
    requires FingersCorrect(nodes, n, fingers, m) && InArc(p, n, key, m) && Pow2(k) <= Dist(n, p, m)
    ensures Candidate(fingers[k], n, key, m) && fingers[k].hash in nodes
  {
    FingerLength(k, bits);
    FingerDistance(n, k, m);
    FingerReach(nodes, n, FingerId(n, k + 1, m), Pow2(k), fingers[k].hash, m);
  }

  // ---------- Fixing fingers ----------

  /** Whether d_fix_finger takes the finger before for finger i as well. */
  predicate Covered(n: nat, i: nat, f: nat, m: nat)
    requires i >= 1 && m > 0
  {
    InArc(FingerId(n, i, m), n, f, m) || FingerId(n, i, m) == n
  }

  /** If the finger before is correct, it is taken exactly when it is correct here too,
      except that a finger exactly at its place is looked up again. */
  lemma CoveredIff(nodes: set<nat>, n: nat, i: nat, f: nat, m: nat, bits: nat)
    requires NodesOk(nodes, m) && n in nodes && 1 < i <= bits && m == Pow2(bits)
    requires IsSuccessor(nodes, FingerId(n, i - 1, m), f, m)
    ensures Covered(n, i, f, m) <==> IsSuccessor(nodes, FingerId(n, i, m), f, m) && f != FingerId(n, i, m)
  {
    FingerLength(i - 1, bits);
    FingerLength(i - 2, bits);
    FingerDistance(n, i - 1, m);
    FingerDistance(n, i - 2, m);
    var a, b := FingerId(n, i - 1, m), FingerId(n, i, m);
    if Covered(n, i, f, m) {
      forall x | x in nodes ensures Dist(b, f, m) <= Dist(b, x, m) {
        assert Dist(a, f, m) <= Dist(a, x, m);
      }
    } else if IsSuccessor(nodes, b, f, m) {
      FingerReach(nodes, n, b, Pow2(i - 1), f, m);
    }
  }

  /** The condition cannot be dropped: an empty finger, whose hash is 0, is taken for the end
      of an arc, and is copied to every following finger that does not wrap past zero. */
  lemma EmptyFingerSpreads(n: nat, i: nat, m: nat, bits: nat)
    requires 0 < n < m == Pow2(bits) && 1 <= i <= bits
    ensures Covered(n, i, 0, m) <==> n + Pow2(i - 1) < m
  {
    FingerLength(i - 1, bits);
    FingerDistance(n, i - 1, m);
  }

  /** d_fix_finger has copied finger `last` to finger j before it came to finger i. */
  ghost predicate Copied(last: nat, i: nat, j: nat) {
    1 <= last < j && (j < i || i == 1)
  }

  /** d_fix_finger.  Returns the number of the next finger to look up; on the way there it
      copies finger `last` as long as that covers the next place, and so, if the finger is
      correct, only to where it is correct. */
  method FixFinger(n: nat, fingers: array<nat>, last: nat, m: nat, bits: nat, ghost nodes: set<nat>)
    returns (i: nat)
    requires NodesOk(nodes, m) && n in nodes && 1 <= bits && m == Pow2(bits)
    requires fingers.Length == bits + 1 && last <= bits
    modifies fingers
    ensures 1 <= i <= bits && (last == 0 ==> i == 1)
    ensures i > 1 ==> !Covered(n, i, fingers[i - 1], m)
    ensures forall j | 0 <= j <= bits :: fingers[j] == old(fingers[if Copied(last, i, j) then last else j])
    ensures forall j | 1 <= j <= bits && Copied(last, i, j) :: Covered(n, j, fingers[j], m)
    ensures 1 <= last && IsSuccessor(nodes, FingerId(n, last, m), old(fingers[last]), m) ==>
              forall j | 1 <= j <= bits && Copied(last, i, j) :: IsSuccessor(nodes, FingerId(n, j, m), fingers[j], m)
  {
    i := last + 1;
    if i > bits {
      i := 1;
    }
    ghost var correct := 1 <= last && IsSuccessor(nodes, FingerId(n, last, m), fingers[last], m);
    while i > 1 && Covered(n, i, fingers[i - 1], m)
      invariant 1 <= i <= bits && (i == 1 || last < i) && (last == 0 ==> i == 1)
      invariant forall j | 0 <= j <= bits :: fingers[j] == old(fingers[if Copied(last, i, j) then last else j])
      invariant forall j | 1 <= j <= bits && Copied(last, i, j) :: Covered(n, j, fingers[j], m)
      invariant correct ==> forall j | 1 <= j <= bits && (j == last || Copied(last, i, j)) ::
                  IsSuccessor(nodes, FingerId(n, j, m), fingers[j], m)
      decreases if i == 1 then 0 else bits + 1 - i
    {
      if correct { CoveredIff(nodes, n, i, fingers[i - 1], m, bits); }
      fingers[i] := fingers[i - 1];
      i := i + 1;
      if i > bits {
        i := 1;
      }
    }
  }
}
