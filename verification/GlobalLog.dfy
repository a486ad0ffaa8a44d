/**
 The global log: events of many hosts are merged so that an event is logged only when
 its cause is believed to be in the log already; until then it is pending.  The host
 list and the pending set are used through the maps that modules HostTable and Pending
 prove them to implement, and the log through the sequence of everything ever added.
 */
module GlobalLog {
  import opened EventLog
  import opened Pending
  import opened Wrappers

  // ---------- What is kept about hosts and committed records ----------

  datatype HostInfo = HostInfo(maxSeen: nat, horizon: nat)

  type Hosts = map<nat, HostInfo>

  /** Why a record was committed: history only. */
  datatype Why =
    | Placeholder           // stands for the unseen cause of the first event from a host
    | FirstOfHost           // the first event of a new host, logged unconditionally
    | Anchor                // its own cause
    | BySeen                // max_seen of the cause host had reached the cause
    | ByHorizon(eh: nat)    // event_horizon of the cause host had

  datatype Commit = Commit(ev: Event, why: Why)

  predicate IsAnchor(e: Event) {
    e.host == e.causeHost && e.seqNo == e.causeSeqNo
  }

  ghost predicate NoneBefore(log: seq<Commit>, k: int, host: nat)
    requires 0 <= k <= |log|
  {
    forall j | 0 <= j < k :: log[j].ev.host != host
  }

  ghost predicate SeenBefore(log: seq<Commit>, k: int, host: nat, seqNo: nat)
    requires 0 <= k <= |log|
  {
    exists j :: 0 <= j < k && log[j].ev.host == host && log[j].ev.seqNo >= seqNo
  }

  /** Record k was entitled to be committed when it was. */
  ghost predicate Justified(hosts: Hosts, log: seq<Commit>, k: int)
    requires 0 <= k < |log|
  {
    var e := log[k].ev;
    match log[k].why
    case Placeholder => e.kind == UNKNOWN && NoneBefore(log, k, e.host)
    case FirstOfHost => NoneBefore(log, k, e.host)
    case Anchor => IsAnchor(e)
    case BySeen => SeenBefore(log, k, e.causeHost, e.causeSeqNo)
    case ByHorizon(eh) => e.causeSeqNo <= eh && e.causeHost in hosts && eh <= hosts[e.causeHost].horizon
  }

  /** max_seen is the greatest sequence number that the log holds for the host. */
  ghost predicate MaxSeenOk(hosts: Hosts, log: seq<Commit>) {
    && (forall k | 0 <= k < |log| :: log[k].ev.host in hosts && log[k].ev.seqNo <= hosts[log[k].ev.host].maxSeen)
    && (forall h {:trigger SeenBefore(log, |log|, h, hosts[h].maxSeen)} |
          h in hosts :: SeenBefore(log, |log|, h, hosts[h].maxSeen))
  }

  ghost predicate LogOk(hosts: Hosts, log: seq<Commit>) {
    MaxSeenOk(hosts, log) && forall k | 0 <= k < |log| :: Justified(hosts, log, k)
  }

  /** Hosts are never forgotten and their marks never go down. */
  ghost predicate Advanced(hosts: Hosts, hosts': Hosts) {
    forall h | h in hosts ::
      h in hosts' && hosts[h].maxSeen <= hosts'[h].maxSeen && hosts[h].horizon <= hosts'[h].horizon
  }

  function Bump(hosts: Hosts, h: nat, s: nat): Hosts
    requires h in hosts
  {
    if hosts[h].maxSeen < s then hosts[h := hosts[h].(maxSeen := s)] else hosts
  }

  lemma JustifiedStable(hosts: Hosts, hosts': Hosts, log: seq<Commit>, c: Commit, k: int)
    requires Advanced(hosts, hosts') && 0 <= k < |log| && Justified(hosts, log, k)
    ensures Justified(hosts', log + [c], k)
  {
    if log[k].why.BySeen? {
      var e := log[k].ev;
      var j :| 0 <= j < k && log[j].ev.host == e.causeHost && log[j].ev.seqNo >= e.causeSeqNo;
      assert (log + [c])[j] == log[j];
    }
  }

  lemma SeenStable(log: seq<Commit>, c: Commit, host: nat, seqNo: nat)
    requires SeenBefore(log, |log|, host, seqNo)
    ensures SeenBefore(log + [c], |log|, host, seqNo) && SeenBefore(log + [c], |log| + 1, host, seqNo)
  {
    var j :| 0 <= j < |log| && log[j].ev.host == host && log[j].ev.seqNo >= seqNo;
    assert (log + [c])[j] == log[j];
  }

  /** Commit an event of a known host. */
  lemma CommitOk(hosts: Hosts, log: seq<Commit>, c: Commit)
    requires LogOk(hosts, log) && c.ev.host in hosts
    requires Justified(Bump(hosts, c.ev.host, c.ev.seqNo), log + [c], |log|)
    ensures LogOk(Bump(hosts, c.ev.host, c.ev.seqNo), log + [c])
  {
    var hosts', log' := Bump(hosts, c.ev.host, c.ev.seqNo), log + [c];
    forall k | 0 <= k < |log'| ensures Justified(hosts', log', k) {
      if k < |log| { JustifiedStable(hosts, hosts', log, c, k); }
    }
    forall h | h in hosts' ensures SeenBefore(log', |log'|, h, hosts'[h].maxSeen) {
      if hosts'[h] == hosts[h] {
        SeenStable(log, c, h, hosts[h].maxSeen);
      } else {
        assert log'[|log|].ev.host == h;
      }
    }
  }

  /** Commit the first record of a new host. */
  lemma CommitNewOk(hosts: Hosts, log: seq<Commit>, c: Commit)
    requires LogOk(hosts, log) && c.ev.host !in hosts
    requires c.why.FirstOfHost? || (c.why.Placeholder? && c.ev.kind == UNKNOWN)
    ensures LogOk(hosts[c.ev.host := HostInfo(c.ev.seqNo, 0)], log + [c])
  {
    var hosts', log' := hosts[c.ev.host := HostInfo(c.ev.seqNo, 0)], log + [c];
    forall k | 0 <= k < |log'| ensures Justified(hosts', log', k) {
      if k < |log| { JustifiedStable(hosts, hosts', log, c, k); }
    }
    forall h | h in hosts' ensures SeenBefore(log', |log'|, h, hosts'[h].maxSeen) {
      if h != c.ev.host {
        SeenStable(log, c, h, hosts[h].maxSeen);
      } else {
        assert log'[|log|].ev.host == h;
      }
    }
  }

  /** An event whose cause max_seen has reached may be committed. */
  lemma SeenJustifies(hosts: Hosts, log: seq<Commit>, e: Event, hosts': Hosts)
    requires LogOk(hosts, log) && e.causeHost in hosts && hosts[e.causeHost].maxSeen >= e.causeSeqNo
    ensures Justified(hosts', log + [Commit(e, BySeen)], |log|)
  {
    var c := Commit(e, BySeen);
    assert SeenBefore(log, |log|, e.causeHost, hosts[e.causeHost].maxSeen);
    var j :| 0 <= j < |log| && log[j].ev.host == e.causeHost && log[j].ev.seqNo >= hosts[e.causeHost].maxSeen;
    assert (log + [c])[j] == log[j];
  }

  // ---------- What becomes of an offered event ----------

  datatype Outcome = First | Skip | Pend | Log

  ghost function Registered(hosts: Hosts, e: Event): Hosts {
    if e.causeHost in hosts then hosts else hosts[e.causeHost := HostInfo(e.causeSeqNo, 0)]
  }

  /** The placeholder for the cause of the first event from an unknown cause host. */
  function PlaceholderOf(e: Event): Event {
    EventCreate(UNKNOWN, e.causeHost).(seqNo := e.causeSeqNo)
  }

  ghost function Placeholders(hosts: Hosts, e: Event): seq<Commit> {
    if e.causeHost in hosts then [] else [Commit(PlaceholderOf(e), Placeholder)]
  }

  ghost predicate CauseReached(hosts: Hosts, e: Event)
    requires e.causeHost in hosts
  {
    e.causeSeqNo <= hosts[e.causeHost].maxSeen || e.causeSeqNo <= hosts[e.causeHost].horizon
  }

  /** What GLogEvent decides, once the cause host is registered. */
  ghost function Decide(hosts: Hosts, pending: map<Id, Event>, e: Event): Outcome
    requires e.causeHost in hosts
  {
    if e.host !in hosts then First
    else if hosts[e.host].maxSeen >= e.seqNo then Skip
    else if IsAnchor(e) then Log
    else if CauseOf(e) in pending || !CauseReached(hosts, e) then Pend
    else Log
  }

  /** A pending event that the walk may commit. */
  ghost predicate Satisfied(hosts: Hosts, e: Event) {
    e.causeHost in hosts && hosts[e.causeHost].maxSeen >= e.causeSeqNo
  }

  ghost function IdsOf(commits: seq<Commit>): set<Id> {
    set i | 0 <= i < |commits| :: IdOf(commits[i].ev)
  }

  ghost predicate FromPending(pending: map<Id, Event>, moved: seq<Commit>) {
    forall i | 0 <= i < |moved| ::
      IdOf(moved[i].ev) in pending && pending[IdOf(moved[i].ev)] == moved[i].ev && moved[i].why == BySeen
  }

  ghost predicate DifferentIds(moved: seq<Commit>) {
    forall i, j | 0 <= i < j < |moved| :: IdOf(moved[i].ev) != IdOf(moved[j].ev)
  }

  /** `moved` are different pending events, and `pending'` is what is left of `pending`. */
  ghost predicate Moved(pending: map<Id, Event>, moved: seq<Commit>, pending': map<Id, Event>) {
    FromPending(pending, moved) && DifferentIds(moved) && pending' == pending - IdsOf(moved)
  }

  lemma MoveOne(pending: map<Id, Event>, moved: seq<Commit>, pending': map<Id, Event>, e: Event)
    requires Moved(pending, moved, pending') && IdOf(e) in pending' && pending'[IdOf(e)] == e
    ensures Moved(pending, moved + [Commit(e, BySeen)], pending' - {IdOf(e)})
    ensures |pending' - {IdOf(e)}| < |pending'|
  {
    var c := Commit(e, BySeen);
    RemoveKey(pending', IdOf(e));
    NotMovedYet(pending, moved, pending', IdOf(e));
    AppendFrom(pending, moved, c);
    AppendDifferent(moved, c);
    IdsAppend(moved, c);
    MinusMinus(pending, IdsOf(moved), IdOf(e));
  }

  lemma AppendFrom(pending: map<Id, Event>, moved: seq<Commit>, c: Commit)
    requires FromPending(pending, moved) && c.why == BySeen && IdOf(c.ev) in pending && pending[IdOf(c.ev)] == c.ev
    ensures FromPending(pending, moved + [c])
  {
  }

  lemma AppendDifferent(moved: seq<Commit>, c: Commit)
    requires DifferentIds(moved) && forall i | 0 <= i < |moved| :: IdOf(moved[i].ev) != IdOf(c.ev)
    ensures DifferentIds(moved + [c])
  {
  }

  lemma NotMovedYet(pending: map<Id, Event>, moved: seq<Commit>, pending': map<Id, Event>, id: Id)
    requires pending' == pending - IdsOf(moved) && id in pending'
    ensures id in pending && pending'[id] == pending[id]
    ensures forall i | 0 <= i < |moved| :: IdOf(moved[i].ev) != id
  {
    forall i | 0 <= i < |moved| ensures IdOf(moved[i].ev) != id {
      assert IdOf(moved[i].ev) in IdsOf(moved);
    }
  }

  lemma MinusMinus(m: map<Id, Event>, a: set<Id>, id: Id)
    ensures m - (a + {id}) == m - a - {id}
  {
  }

  lemma IdsAppend(moved: seq<Commit>, c: Commit)
    ensures IdsOf(moved + [c]) == IdsOf(moved) + {IdOf(c.ev)}
  {
    var moved' := moved + [c];
    forall id | id in IdsOf(moved) ensures id in IdsOf(moved') {
      var i :| 0 <= i < |moved| && IdOf(moved[i].ev) == id;
      assert moved'[i] == moved[i];
    }
    assert moved'[|moved|] == c;
  }

  ghost predicate PendingOk(hosts: Hosts, pending: map<Id, Event>) {
    forall id | id in pending ::
      && IdOf(pending[id]) == id && Pendable(pending[id])
      && pending[id].host in hosts && pending[id].causeHost in hosts
  }

  /** Events as they come from the logs of hosts with non-zero ids. */
  predicate Offerable(e: Event) {
    Pendable(e) && e.host != 0 && e.causeHost != 0
  }

  /** Why an event that Decide lets through is committed. */
  function WhyLogged(hosts: Hosts, e: Event): Why
    requires e.causeHost in hosts
  {
    if IsAnchor(e) then Anchor
    else if hosts[e.causeHost].maxSeen >= e.causeSeqNo then BySeen
    else ByHorizon(hosts[e.causeHost].horizon)
  }

  /** An anchor takes the place of a pending event with the same id. */
  function WithoutAnchor(pending: map<Id, Event>, e: Event): map<Id, Event> {
    if IsAnchor(e) then pending - {IdOf(e)} else pending
  }

  /** The same hosts with the same horizons, and nothing seen is unseen. */
  ghost predicate Walked(hosts: Hosts, hosts': Hosts) {
    && hosts'.Keys == hosts.Keys
    && forall h | h in hosts :: hosts[h].maxSeen <= hosts'[h].maxSeen && hosts'[h].horizon == hosts[h].horizon
  }

  /** Horizons are as before, and those of new hosts are 0. */
  ghost predicate SameHorizons(hosts: Hosts, hosts': Hosts) {
    forall h | h in hosts' :: hosts'[h].horizon == if h in hosts then hosts[h].horizon else 0
  }

  // ---------- The state of the global log ----------

  /** host_list, pending and log. */
  datatype State = State(hosts: Hosts, pending: map<Id, Event>, log: seq<Commit>)

  /** Sizes of the host list and the pending set. */
  datatype Caps = Caps(hosts: nat, pending: nat)

  ghost predicate HostsOk(hosts: Hosts, capacity: nat) {
    0 !in hosts && |hosts| < capacity && forall h | h in hosts :: InRange(h, hosts[h].horizon)
  }

  ghost predicate Ok(g: State, caps: Caps) {
    && HostsOk(g.hosts, caps.hosts)
    && |g.pending| <= caps.pending
    && PendingOk(g.hosts, g.pending)
    && LogOk(g.hosts, g.log)
  }

  lemma BumpKeeps(hosts: Hosts, h: nat, s: nat, capacity: nat, pending: map<Id, Event>)
    requires h in hosts && HostsOk(hosts, capacity) && PendingOk(hosts, pending)
    ensures Walked(hosts, Bump(hosts, h, s)) && Bump(hosts, h, s)[h].maxSeen >= s
    ensures HostsOk(Bump(hosts, h, s), capacity) && PendingOk(Bump(hosts, h, s), pending)
  {
    assert Bump(hosts, h, s).Keys == hosts.Keys;
    assert |Bump(hosts, h, s)| == |Bump(hosts, h, s).Keys|;
  }

  lemma NewHostKeeps(hosts: Hosts, h: nat, s: nat, capacity: nat, pending: map<Id, Event>)
    requires h !in hosts && h != 0 && h < TWO_32 && |hosts| + 1 < capacity
    requires HostsOk(hosts, capacity) && PendingOk(hosts, pending)
    ensures HostsOk(hosts[h := HostInfo(s, 0)], capacity) && PendingOk(hosts[h := HostInfo(s, 0)], pending)
    ensures Advanced(hosts, hosts[h := HostInfo(s, 0)])
  {
    assert hosts[h := HostInfo(s, 0)].Keys == hosts.Keys + {h};
  }

  /** Commit an event of a known host; `pending'` is part of what was pending. */
  lemma CommitKeeps(g: State, caps: Caps, c: Commit, pending': map<Id, Event>)
    requires Ok(g, caps) && c.ev.host in g.hosts
    requires Justified(Bump(g.hosts, c.ev.host, c.ev.seqNo), g.log + [c], |g.log|)
    requires |pending'| <= |g.pending| && PendingOk(g.hosts, pending')
    ensures Ok(State(Bump(g.hosts, c.ev.host, c.ev.seqNo), pending', g.log + [c]), caps)
  {
    CommitOk(g.hosts, g.log, c);
    BumpKeeps(g.hosts, c.ev.host, c.ev.seqNo, caps.hosts, pending');
  }

  lemma RemoveKeeps(hosts: Hosts, pending: map<Id, Event>, id: Id)
    requires PendingOk(hosts, pending)
    ensures PendingOk(hosts, pending - {id}) && |pending - {id}| <= |pending|
  {
    RemoveKey(pending, id);
  }

  // ---------- The parts of GLogEvent ----------

  /** An unknown cause host is added, with a placeholder for the cause. */
  method RegisterCause(g: State, caps: Caps, e: Event) returns (ok: bool, g': State)
    requires Ok(g, caps) && Offerable(e)
    ensures Ok(g', caps) && Advanced(g.hosts, g'.hosts)
    ensures ok <==> e.causeHost in g.hosts || |g.hosts| + 1 < caps.hosts
    ensures g' == if ok then State(Registered(g.hosts, e), g.pending, g.log + Placeholders(g.hosts, e)) else g
  {
    if e.causeHost in g.hosts {
      assert g.log + [] == g.log;
      return true, g;
    }
    if |g.hosts| + 1 >= caps.hosts {
      return false, g;
    }
    var c := Commit(PlaceholderOf(e), Placeholder);
    CommitNewOk(g.hosts, g.log, c);
    NewHostKeeps(g.hosts, e.causeHost, e.causeSeqNo, caps.hosts, g.pending);
    g' := State(g.hosts[e.causeHost := HostInfo(e.causeSeqNo, 0)], g.pending, g.log + [c]);
    ok := true;
  }

  /** The first event of a new host is logged whatever its cause. */
  method LogFirst(g: State, caps: Caps, e: Event) returns (ok: bool, g': State)
    requires Ok(g, caps) && Offerable(e) && e.host !in g.hosts
    ensures Ok(g', caps) && Advanced(g.hosts, g'.hosts) && SameHorizons(g.hosts, g'.hosts)
    ensures ok <==> |g.hosts| + 1 < caps.hosts
    ensures g' == if !ok then g
                  else State(g.hosts[e.host := HostInfo(e.seqNo, 0)], g.pending, g.log + [Commit(e, FirstOfHost)])
  {
    if |g.hosts| + 1 >= caps.hosts {
      return false, g;
    }
    var c := Commit(e, FirstOfHost);
    CommitNewOk(g.hosts, g.log, c);
    NewHostKeeps(g.hosts, e.host, e.seqNo, caps.hosts, g.pending);
    g' := State(g.hosts[e.host := HostInfo(e.seqNo, 0)], g.pending, g.log + [c]);
    ok := true;
  }

  /** PendingAddEvent, as module Pending specifies it. */
  method PendingAdd(g: State, caps: Caps, e: Event) returns (ok: bool, g': State)
    requires Ok(g, caps) && Offerable(e) && e.host in g.hosts && e.causeHost in g.hosts
    ensures Ok(g', caps)
    ensures ok <==> IdOf(e) !in g.pending && |g.pending| < caps.pending
    ensures g' == if ok then g.(pending := g.pending[IdOf(e) := e]) else g
  {
    ok := IdOf(e) !in g.pending && |g.pending| < caps.pending;
    g' := if ok then g.(pending := g.pending[IdOf(e) := e]) else g;
  }

  /** PendingFindCause, as module Pending specifies it. */
  method FindCause(pending: map<Id, Event>, id: Id) returns (r: Option<Event>)
    requires forall k | k in pending :: IdOf(pending[k]) == k
    ensures r.Some? ==> IdOf(r.value) in pending && pending[IdOf(r.value)] == r.value && CauseOf(r.value) == id
    ensures r.None? ==> NoneCausedBy(pending, id)
  {
    if k :| k in pending && CauseOf(pending[k]) == id {
      r := Some(pending[k]);
    } else {
      r := None;
    }
  }

  /** GLogPendingSatisfied: the first pending event, in the order of the index, whose
      cause max_seen has reached. */
  method PendingSatisfied(hosts: Hosts, pending: map<Id, Event>) returns (r: Option<Event>)
    requires PendingOk(hosts, pending)
    ensures r.Some? ==> IdOf(r.value) in pending && pending[IdOf(r.value)] == r.value && Satisfied(hosts, r.value)
    ensures r.Some? ==> forall k | k in pending && Satisfied(hosts, pending[k]) ::
              AliveKey(r.value) <= AliveKey(pending[k])
    ensures r.None? ==> forall k | k in pending :: !Satisfied(hosts, pending[k])
  {
    var todo := pending.Keys;
    r := None;
    while todo != {}
      invariant todo <= pending.Keys
      invariant r.None? ==> forall k | k in pending && k !in todo :: !Satisfied(hosts, pending[k])
      invariant r.Some? ==> IdOf(r.value) in pending && pending[IdOf(r.value)] == r.value && Satisfied(hosts, r.value)
      invariant r.Some? ==> forall k | k in pending && k !in todo && Satisfied(hosts, pending[k]) ::
                  AliveKey(r.value) <= AliveKey(pending[k])
      decreases todo
    {
      var k :| k in todo;
      todo := todo - {k};
      var e := pending[k];
      if hosts[e.causeHost].maxSeen >= e.causeSeqNo && (r.None? || AliveKey(e) < AliveKey(r.value)) {
        r := Some(e);
      }
    }
  }

  /** One round of the walk: a satisfied pending event goes to the log. */
  method CommitPending(g: State, ghost caps: Caps, e: Event) returns (g': State)
    requires Ok(g, caps) && IdOf(e) in g.pending && g.pending[IdOf(e)] == e && Satisfied(g.hosts, e)
    ensures Ok(g', caps) && Walked(g.hosts, g'.hosts) && g'.hosts[e.host].maxSeen >= e.seqNo
    ensures g' == Committed(g, e)
  {
    SeenJustifies(g.hosts, g.log, e, Bump(g.hosts, e.host, e.seqNo));
    RemoveKeeps(g.hosts, g.pending, IdOf(e));
    CommitKeeps(g, caps, Commit(e, BySeen), g.pending - {IdOf(e)});
    BumpKeeps(g.hosts, e.host, e.seqNo, caps.hosts, g.pending);
    g' := Committed(g, e);
  }

  /** The event that the walk considers is pending and satisfied. */
  ghost predicate Considered(g: State, r: Option<Event>) {
    r.Some? ==> IdOf(r.value) in g.pending && g.pending[IdOf(r.value)] == r.value && Satisfied(g.hosts, r.value)
  }

  ghost predicate NoneCausedBy(pending: map<Id, Event>, id: Id) {
    forall k | k in pending :: CauseOf(pending[k]) != id
  }

  /** max_seen after these events have been committed. */
  ghost function BumpAll(hosts: Hosts, moved: seq<Commit>): Hosts {
    if moved == [] then hosts
    else
      var before, e := BumpAll(hosts, moved[..|moved| - 1]), moved[|moved| - 1].ev;
      if e.host in before then Bump(before, e.host, e.seqNo) else before
  }

  /** After event `prev` comes an event that it caused or, if nothing pending is, the first
      satisfied one in the order of the index. */
  ghost predicate ComesAfter(hosts: Hosts, rest: map<Id, Event>, prev: Id, e: Event) {
    || CauseOf(e) == prev
    || (&& NoneCausedBy(rest, prev)
        && forall k | k in rest && Satisfied(hosts, rest[k]) :: AliveKey(e) <= AliveKey(rest[k]))
  }

  ghost predicate OrderAt(hosts: Hosts, pending: map<Id, Event>, moved: seq<Commit>, i: int)
    requires 0 < i < |moved|
  {
    ComesAfter(BumpAll(hosts, moved[..i]), pending - IdsOf(moved[..i]), IdOf(moved[i - 1].ev), moved[i].ev)
  }

  ghost predicate InOrder(hosts: Hosts, pending: map<Id, Event>, moved: seq<Commit>) {
    forall i | 0 < i < |moved| :: OrderAt(hosts, pending, moved, i)
  }

  lemma InOrderAppend(hosts: Hosts, pending: map<Id, Event>, moved: seq<Commit>,
                      hosts': Hosts, pending': map<Id, Event>, c: Commit)
    requires InOrder(hosts, pending, moved) && hosts' == BumpAll(hosts, moved) && pending' == pending - IdsOf(moved)
    requires moved != [] ==> ComesAfter(hosts', pending', IdOf(moved[|moved| - 1].ev), c.ev)
    requires c.ev.host in hosts'
    ensures InOrder(hosts, pending, moved + [c])
    ensures BumpAll(hosts, moved + [c]) == Bump(hosts', c.ev.host, c.ev.seqNo)
  {
    var longer := moved + [c];
    assert longer[..|moved|] == moved;
    forall i | 0 < i < |longer| ensures OrderAt(hosts, pending, longer, i) {
      if i < |moved| {
        assert OrderAt(hosts, pending, moved, i);
        assert longer[..i] == moved[..i];
      }
    }
  }

  /** The walk from `start` moves nothing exactly if nothing pending has `start` as its cause;
      otherwise it begins with such an event, goes on from each to the next, and leaves
      nothing that is satisfied. */
  ghost predicate Drained(hosts: Hosts, pending: map<Id, Event>, g': State, start: Id, moved: seq<Commit>) {
    && (moved == [] <==> NoneCausedBy(pending, start))
    && (moved != [] ==> CauseOf(moved[0].ev) == start)
    && InOrder(hosts, pending, moved)
    && (moved != [] ==> forall k | k in g'.pending :: !Satisfied(g'.hosts, g'.pending[k]))
  }

  /** Which event the walk considers next. */
  method NextEvent(g: State, ghost caps: Caps, id: Id) returns (r: Option<Event>)
    requires Ok(g, caps) && id.host in g.hosts && g.hosts[id.host].maxSeen >= id.seqNo
    ensures Considered(g, r)
    ensures r.Some? ==> ComesAfter(g.hosts, g.pending, id, r.value)
    ensures r.None? ==> forall k | k in g.pending :: !Satisfied(g.hosts, g.pending[k])
  {
    r := FindCause(g.pending, id);
    if r.None? {
      r := PendingSatisfied(g.hosts, g.pending);
    }
  }

  /** How far the walk from g has come. */
  ghost predicate Walking(g: State, g': State, moved: seq<Commit>) {
    && Moved(g.pending, moved, g'.pending) && g'.log == g.log + moved
    && InOrder(g.hosts, g.pending, moved) && g'.hosts == BumpAll(g.hosts, moved)
  }

  /** The event considered comes after what has been moved. */
  ghost predicate IsNext(g': State, start: Id, moved: seq<Commit>, e: Event) {
    if moved == [] then CauseOf(e) == start
    else CauseOf(moved[0].ev) == start && ComesAfter(g'.hosts, g'.pending, IdOf(moved[|moved| - 1].ev), e)
  }

  function Committed(g: State, e: Event): State
    requires e.host in g.hosts
  {
    State(Bump(g.hosts, e.host, e.seqNo), g.pending - {IdOf(e)}, g.log + [Commit(e, BySeen)])
  }

  lemma WalkOne(g: State, g': State, start: Id, moved: seq<Commit>, e: Event)
    requires Walking(g, g', moved) && Considered(g', Some(e)) && e.host in g'.hosts && IsNext(g', start, moved, e)
    ensures Walking(g, Committed(g', e), moved + [Commit(e, BySeen)])
    ensures |Committed(g', e).pending| < |g'.pending| && CauseOf((moved + [Commit(e, BySeen)])[0].ev) == start
  {
    MoveOne(g.pending, moved, g'.pending, e);
    InOrderAppend(g.hosts, g.pending, moved, g'.hosts, g'.pending, Commit(e, BySeen));
    Associate(g.log, moved, Commit(e, BySeen));
  }

  /** Log the pending events that have become satisfied, first those caused by the event
      just logged.  The event considered always is satisfied, so that the walk never meets
      an unknown cause host and never breaks off; and it ends because each round takes an
      event from the pending set. */
  method Walk(g: State, ghost caps: Caps, start: Id) returns (g': State, ghost moved: seq<Commit>)
    requires Ok(g, caps) && start.host in g.hosts && g.hosts[start.host].maxSeen >= start.seqNo
    ensures Ok(g', caps) && Walked(g.hosts, g'.hosts)
    ensures Moved(g.pending, moved, g'.pending) && g'.log == g.log + moved
    ensures Drained(g.hosts, g.pending, g', start, moved)
  {
    g', moved := g, [];
    NothingMoved(g.pending, g.log);
    var considered := FindCause(g.pending, start);
    while considered.Some?
      invariant Ok(g', caps) && Walked(g.hosts, g'.hosts) && Walking(g, g', moved)
      invariant Considered(g', considered) && (considered.Some? ==> IsNext(g', start, moved, considered.value))
      invariant considered.None? ==> Drained(g.hosts, g.pending, g', start, moved)
      decreases |g'.pending|
    {
      var e := considered.value;
      WalkOne(g, g', start, moved, e);
      WalkedTwice(g.hosts, g'.hosts, Bump(g'.hosts, e.host, e.seqNo));
      g' := CommitPending(g', caps, e);
      moved := moved + [Commit(e, BySeen)];
      considered := NextEvent(g', caps, IdOf(e));
      if considered.None? { NowDrained(g, g', start, moved); }
    }
  }

  lemma NowDrained(g: State, g': State, start: Id, moved: seq<Commit>)
    requires Walking(g, g', moved) && moved != [] && CauseOf(moved[0].ev) == start
    requires forall k | k in g'.pending :: !Satisfied(g'.hosts, g'.pending[k])
    ensures Drained(g.hosts, g.pending, g', start, moved)
  {
  }

  lemma NothingMoved(pending: map<Id, Event>, log: seq<Commit>)
    ensures Moved(pending, [], pending) && log == log + []
  {
    assert IdsOf([]) == {};
    assert pending - {} == pending;
  }

  lemma Associate(log: seq<Commit>, moved: seq<Commit>, c: Commit)
    ensures log + moved + [c] == log + (moved + [c])
  {
  }

  lemma WalkedTwice(a: Hosts, b: Hosts, c: Hosts)
    requires Walked(a, b)
    ensures Walked(b, c) ==> Walked(a, c)
    ensures Walked(b, c) ==> Advanced(b, c) && SameHorizons(b, c)
  {
  }

  /** Log an event that is enabled, and then what it enables. */
  method LogEnabled(g: State, ghost caps: Caps, e: Event) returns (g': State, ghost moved: seq<Commit>)
    requires Ok(g, caps) && Offerable(e) && e.causeHost in g.hosts && Decide(g.hosts, g.pending, e) == Log
    ensures Ok(g', caps) && Walked(g.hosts, g'.hosts)
    ensures Moved(WithoutAnchor(g.pending, e), moved, g'.pending)
    ensures g'.log == g.log + [Commit(e, WhyLogged(g.hosts, e))] + moved
    ensures Drained(Bump(g.hosts, e.host, e.seqNo), WithoutAnchor(g.pending, e), g', IdOf(e), moved)
  {
    var c := Commit(e, WhyLogged(g.hosts, e));
    LoggedIsJustified(g, caps, e);
    RemoveKeeps(g.hosts, g.pending, IdOf(e));
    CommitKeeps(g, caps, c, WithoutAnchor(g.pending, e));
    BumpKeeps(g.hosts, e.host, e.seqNo, caps.hosts, g.pending);
    var g1 := State(Bump(g.hosts, e.host, e.seqNo), WithoutAnchor(g.pending, e), g.log + [c]);
    g', moved := Walk(g1, caps, IdOf(e));
    WalkedTwice(g.hosts, g1.hosts, g'.hosts);
  }

  lemma LoggedIsJustified(g: State, caps: Caps, e: Event)
    requires Ok(g, caps) && e.causeHost in g.hosts && Decide(g.hosts, g.pending, e) == Log
    ensures Justified(Bump(g.hosts, e.host, e.seqNo), g.log + [Commit(e, WhyLogged(g.hosts, e))], |g.log|)
  {
    var c := Commit(e, WhyLogged(g.hosts, e));
    if c.why == BySeen { SeenJustifies(g.hosts, g.log, e, Bump(g.hosts, e.host, e.seqNo)); }
    if c.why.ByHorizon? { assert (g.log + [c])[|g.log|] == c; }
  }
}
