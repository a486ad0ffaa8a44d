/**
 The fast-forward past an event horizon, the import of the tail of a host's own log, and
 the global log as an object.
 */
module GlobalLogImport {
  import opened EventLog
  import opened Pending
  import opened GlobalLog
  import opened GlobalLogEvent
  import opened GlobalLogMeaning
  import opened RingArithmetic
  import opened Wrappers
  import HostTable

  // ---------- GLogFastForward ----------

  /** Pending events that wait for something of `remote` that will not come any more. */
  ghost function Behind(g: State, remote: nat): set<Id> {
    set id | id in g.pending && IsBehind(g, remote, g.pending[id])
  }

  predicate IsBehind(g: State, remote: nat, e: Event) {
    remote in g.hosts && e.causeHost == remote && e.causeSeqNo < g.hosts[remote].horizon
  }

  /** The event with its cause moved to the horizon; the rest of the payload is not kept. */
  function Terminated(e: Event, horizon: nat): Event {
    EventCreate(e.kind, e.host).(seqNo := e.seqNo, causeHost := e.causeHost, causeSeqNo := horizon)
  }

  /** LogResolveHorizon.  The event is logged, or waits for the event at the horizon, or is
      dropped because its host has already been seen further on. */
  method Resolve(g: State, caps: Caps, e: Event) returns (ok: bool, g': State)
    requires Ok(g, caps) && IdOf(e) in g.pending && g.pending[IdOf(e)] == e && IsBehind(g, e.causeHost, e)
    ensures ok && Ok(g', caps) && Walked(g.hosts, g'.hosts) && Kept(g, g') && NothingNew(g, g')
    ensures Behind(g', e.causeHost) < Behind(g, e.causeHost)
    ensures e.host in g.hosts && OthersStay(g, g', e.causeHost, g.hosts[e.causeHost].horizon)
    ensures Resolved(g, e, Event(e.kind, e.host, e.seqNo, e.causeHost, g.hosts[e.causeHost].horizon, "", 0), g')
  {
    WithoutKeeps(g, caps, e);
    ghost var out, moved;
    ok, g', out, moved := LogOrPendKnown(Without(g, e), caps, Terminated(e, g.hosts[e.causeHost].horizon));
    ResolveShrinks(g, caps, e, ok, g', out, moved);
    ResolveFate(g, caps, e, ok, g', out, moved);
    ResolveKeeps(g, caps, e, ok, g', out, moved);
    ResolveUnique(g, caps, e, ok, g', out, moved);
    ResolveOthers(g, caps, e, ok, g', out, moved);
  }

  lemma ResolveOthers(g: State, caps: Caps, e: Event, ok: bool, g': State, out: Outcome, moved: seq<Commit>)
    requires IdOf(e) in g.pending && g.pending[IdOf(e)] == e && IsBehind(g, e.causeHost, e)
    requires OfferedKnown(Without(g, e), caps, Terminated(e, g.hosts[e.causeHost].horizon), ok, g', out, moved)
    ensures OthersStay(g, g', e.causeHost, g.hosts[e.causeHost].horizon)
  {
  }

  /** What is still pending is as it was, or waited for an event of the remote host that lies
      behind the horizon. */
  ghost predicate OthersStay(g: State, g': State, remote: nat, horizon: nat) {
    forall id | id in g'.pending ::
      id in g.pending && (g'.pending[id] == g.pending[id]
                          || (g.pending[id].causeHost == remote && g.pending[id].causeSeqNo < horizon))
  }

  /** No other events are pending than before, and nothing has been logged twice. */
  ghost predicate NothingNew(g: State, g': State) {
    g'.pending.Keys <= g.pending.Keys && (Unique(g) ==> Unique(g'))
  }

  lemma ResolveUnique(g: State, caps: Caps, e: Event, ok: bool, g': State, out: Outcome, moved: seq<Commit>)
    requires Ok(Without(g, e), caps) && Advanced(g.hosts, g'.hosts)
    requires IdOf(e) in g.pending && e.host in g.hosts && e.causeHost in g.hosts && ok
    requires OfferedKnown(Without(g, e), caps, Terminated(e, g.hosts[e.causeHost].horizon), ok, g', out, moved)
    ensures NothingNew(g, g')
  {
    var w, t := Without(g, e), Terminated(e, g.hosts[e.causeHost].horizon);
    ResolveOffers(w, caps, t, ok, g', out, moved);
    if Unique(g) { UniqueIff(w, caps, t, ok, g', out, moved); }
  }

  /** With its cause host known, an event is offered without any registration. */
  lemma ResolveOffers(w: State, caps: Caps, t: Event, ok: bool, g': State, out: Outcome, moved: seq<Commit>)
    requires t.causeHost in w.hosts && Advanced(w.hosts, g'.hosts) && OfferedKnown(w, caps, t, ok, g', out, moved)
    ensures Offered(w, caps, t, ok, g', out, moved)
  {
    Concat(w.log, [], []);
    Glue(w, caps, t, ok, w, g', out, moved);
  }

  lemma ResolveKeeps(g: State, caps: Caps, e: Event, ok: bool, g': State, out: Outcome, moved: seq<Commit>)
    requires Ok(Without(g, e), caps) && Ok(g', caps) && Advanced(g.hosts, g'.hosts)
    requires e.host in g.hosts && e.causeHost in g.hosts && ok
    requires OfferedKnown(Without(g, e), caps, Terminated(e, g.hosts[e.causeHost].horizon), ok, g', out, moved)
    ensures Kept(g, g')
  {
    var w, t := Without(g, e), Terminated(e, g.hosts[e.causeHost].horizon);
    ResolveOffers(w, caps, t, ok, g', out, moved);
    OfferedIsAccounted(w, caps, t, ok, g', out, moved);
    KeptWith(g, e, g');
  }

  lemma KeptWith(g: State, e: Event, g': State)
    requires Kept(Without(g, e), g') && Accounted(g', IdOf(e))
    ensures Kept(g, g')
  {
    assert forall id | Accounted(g, id) :: id == IdOf(e) || Accounted(Without(g, e), id);
  }

  /** The state with event e taken off the pending set. */
  function Without(g: State, e: Event): State {
    g.(pending := g.pending - {IdOf(e)})
  }

  lemma WithoutKeeps(g: State, caps: Caps, e: Event)
    requires Ok(g, caps) && IdOf(e) in g.pending && g.pending[IdOf(e)] == e && IsBehind(g, e.causeHost, e)
    ensures Ok(Without(g, e), caps) && |Without(g, e).pending| < |g.pending| && e.host in g.hosts
    ensures Offerable(Terminated(e, g.hosts[e.causeHost].horizon))
  {
    RemoveKeeps(g.hosts, g.pending, IdOf(e));
    RemoveKey(g.pending, IdOf(e));
  }

  /** What has become of a pending event e that was resolved as t. */
  ghost predicate Resolved(g: State, e: Event, t: Event, g': State)
    requires e.host in g.hosts
  {
    || (exists k :: |g.log| <= k < |g'.log| && g'.log[k].ev == t)
    || (IdOf(e) in g'.pending && g'.pending[IdOf(e)] == t)
    || g.hosts[e.host].maxSeen >= e.seqNo
  }

  lemma ResolveFate(g: State, caps: Caps, e: Event, ok: bool, g': State, out: Outcome, moved: seq<Commit>)
    requires e.host in g.hosts && e.causeHost in g.hosts
    requires OfferedKnown(Without(g, e), caps, Terminated(e, g.hosts[e.causeHost].horizon), ok, g', out, moved)
    requires |Without(g, e).pending| < caps.pending
    ensures ok && Walked(g.hosts, g'.hosts) && Resolved(g, e, Terminated(e, g.hosts[e.causeHost].horizon), g')
  {
    RemoveKey(g.pending, IdOf(e));
    if out == Log { assert g'.log[|g.log|].ev == Terminated(e, g.hosts[e.causeHost].horizon); }
  }

  lemma ResolveShrinks(g: State, caps: Caps, e: Event, ok: bool, g': State, out: Outcome, moved: seq<Commit>)
    requires IdOf(e) in g.pending && g.pending[IdOf(e)] == e && IsBehind(g, e.causeHost, e) && e.host in g.hosts
    requires OfferedKnown(Without(g, e), caps, Terminated(e, g.hosts[e.causeHost].horizon), ok, g', out, moved)
    requires |Without(g, e).pending| < caps.pending
    ensures Behind(g', e.causeHost) < Behind(g, e.causeHost)
  {
    ResolveFate(g, caps, e, ok, g', out, moved);
    forall id | id in Behind(g', e.causeHost) ensures id in Behind(g, e.causeHost) && id != IdOf(e) {
      assert id in g'.pending && g'.pending[id] != Terminated(e, g.hosts[e.causeHost].horizon);
    }
    assert IdOf(e) in Behind(g, e.causeHost);
  }

  /** The first pending event, in the order of the index, that is behind the horizon. */
  method FirstBehind(g: State, ghost caps: Caps, remote: nat) returns (r: Option<Event>)
    requires Ok(g, caps)
    ensures r.Some? ==> IdOf(r.value) in Behind(g, remote) && g.pending[IdOf(r.value)] == r.value
    ensures r.Some? ==> forall k | k in Behind(g, remote) :: AliveKey(r.value) <= AliveKey(g.pending[k])
    ensures r.None? ==> Behind(g, remote) == {}
  {
    var todo := g.pending.Keys;
    r := None;
    while todo != {}
      invariant todo <= g.pending.Keys
      invariant r.None? ==> forall k | k in Behind(g, remote) :: k in todo
      invariant r.Some? ==> IdOf(r.value) in Behind(g, remote) && g.pending[IdOf(r.value)] == r.value
      invariant r.Some? ==> forall k | k in Behind(g, remote) && k !in todo ::
                  AliveKey(r.value) <= AliveKey(g.pending[k])
      decreases todo
    {
      var k :| k in todo;
      todo := todo - {k};
      var e := g.pending[k];
      if IsBehind(g, remote, e) && (r.None? || AliveKey(e) < AliveKey(r.value)) {
        r := Some(e);
      }
    }
  }

  /** GLogFastForward.  Each round restarts at the front of the pending set; it ends because
      each round leaves fewer events behind the horizon, and at the end there are none. */
  method FastForward(g: State, caps: Caps, remote: nat) returns (ok: bool, g': State)
    requires Ok(g, caps)
    ensures ok && Ok(g', caps) && Walked(g.hosts, g'.hosts) && Kept(g, g') && NothingNew(g, g')
    ensures remote in g.hosts && g.hosts[remote].maxSeen < g.hosts[remote].horizon ==>
              forall id | id in g'.pending && g'.pending[id].causeHost == remote ::
                g.hosts[remote].horizon <= g'.pending[id].causeSeqNo
    ensures !(remote in g.hosts && g.hosts[remote].maxSeen < g.hosts[remote].horizon) ==> g' == g
    ensures remote in g.hosts ==> OthersStay(g, g', remote, g.hosts[remote].horizon)
  {
    ok, g' := true, g;
    if remote !in g.hosts || g.hosts[remote].maxSeen >= g.hosts[remote].horizon {
      return;
    }
    var next := FirstBehind(g', caps, remote);
    while next.Some?
      invariant ok && Ok(g', caps) && Walked(g.hosts, g'.hosts) && Kept(g, g') && NothingNew(g, g')
      invariant next.Some? ==> IdOf(next.value) in Behind(g', remote) && g'.pending[IdOf(next.value)] == next.value
      invariant next.None? ==> Behind(g', remote) == {}
      invariant OthersStay(g, g', remote, g.hosts[remote].horizon)
      decreases Behind(g', remote)
    {
      ghost var before := g';
      ok, g' := Resolve(g', caps, next.value);
      WalkedTwice(g.hosts, before.hosts, g'.hosts);
      KeptTwice(g, before, g');
      next := FirstBehind(g', caps, remote);
    }
    assert forall id | id in g'.pending && IsBehind(g', remote, g'.pending[id]) :: id in Behind(g', remote);
  }

  // ---------- ImportLogTail ----------

  /** The event horizon of a host may only rise. */
  lemma RaiseHorizon(g: State, caps: Caps, h: nat, eh: nat)
    requires Ok(g, caps) && h in g.hosts && eh < TWO_32 && g.hosts[h].horizon <= eh
    ensures var hosts' := g.hosts[h := g.hosts[h].(horizon := eh)];
            Ok(g.(hosts := hosts'), caps) && Advanced(g.hosts, hosts')
  {
    var hosts' := g.hosts[h := g.hosts[h].(horizon := eh)];
    assert hosts'.Keys == g.hosts.Keys;
    assert |hosts'| == |hosts'.Keys|;
    forall k | 0 <= k < |g.log| ensures Justified(hosts', g.log, k) {
      assert Justified(g.hosts, g.log, k);
    }
  }

  /** How many of the last r events have a sequence number of at least `earliest`. */
  ghost function CountFrom(n: nat, r: nat, earliest: nat): nat
    requires r <= n
  {
    if earliest > n then 0 else if earliest <= n - r then r else n - earliest + 1
  }

  /** The last r events, from sequence number `earliest` on. */
  ghost function RetainedFrom(hist: seq<Event>, r: nat, earliest: nat): seq<Event>
    requires r <= |hist|
  {
    hist[|hist| - CountFrom(|hist|, r, earliest)..]
  }

  ghost function Reverse(s: seq<Event>): seq<Event> {
    if s == [] then [] else [s[|s| - 1]] + Reverse(s[..|s| - 1])
  }

  lemma {:induction false} ReverseAt(s: seq<Event>, i: int)
    requires 0 <= i < |s|
    ensures |Reverse(s)| == |s| && Reverse(s)[i] == s[|s| - 1 - i]
  {
    if |s| > 1 { ReverseAt(s[..|s| - 1], if i == 0 then 0 else i - 1); }
  }

  /** A tail offered last one first is the retained part of the log in order. */
  lemma ReversedTail(hist: seq<Event>, r: nat, earliest: nat, tail: seq<Event>)
    requires CarryPositions(hist) && r <= |hist|
    requires tail == Backwards(hist, |hist|, |hist| - r, earliest)
    requires forall j | 0 <= j < |hist| :: Offerable(hist[j])
    ensures |tail| <= r && Reverse(tail) == RetainedFrom(hist, r, earliest)
    ensures forall j | 0 <= j < |tail| :: Offerable(tail[j]) && tail[j].seqNo >= earliest
  {
    BackwardsIsReverse(hist, |hist|, |hist| - r, earliest);
    ReverseIs(tail, RetainedFrom(hist, r, earliest));
  }

  lemma {:induction false} ReverseIs(s: seq<Event>, t: seq<Event>)
    requires |s| == |t| && forall i | 0 <= i < |s| :: s[i] == t[|s| - 1 - i]
    ensures Reverse(s) == t
  {
    if s != [] {
      var init := s[..|s| - 1];
      assert forall i | 0 <= i < |init| :: init[i] == t[1..][|init| - 1 - i];
      ReverseIs(init, t[1..]);
      assert t == [t[0]] + t[1..];
    }
  }

  /** The event of a tail that is offered at the index curr. */
  method Peek(lt: Log, curr: nat, ghost q: nat) returns (e: Event)
    requires lt.Valid() && 0 < q <= |lt.hist| < lt.size && curr == q % lt.size
    ensures e == lt.hist[q - 1]
  {
    e := lt.slots[curr];
  }

  /** The index after that one, and the event there unless it is behind the oldest event. */
  method Retreat(lt: Log, curr: nat, ghost q: nat) returns (next: nat, e: Option<Event>)
    requires lt.Valid() && 0 < q <= |lt.hist| < lt.size && curr == q % lt.size
    ensures next == (q - 1) % lt.size
    ensures e == if q == 1 then None else Some(lt.hist[q - 2])
  {
    next := StepBack(q - 1, curr, lt.size);
    if q > 1 { ModDistinct(0, q - 1, lt.size); }
    e := if next == lt.tail then None else Some(lt.slots[next]);
  }

  ghost predicate AllAccounted(g: State, offered: seq<Event>) {
    forall i | 0 <= i < |offered| :: Accounted(g, IdOf(offered[i]))
  }

  /** Between g and g' all of `offered` has been taken in, and nothing has been forgotten. */
  ghost predicate TakenIn(g: State, g': State, offered: seq<Event>) {
    Advanced(g.hosts, g'.hosts) && Kept(g, g') && AllAccounted(g', offered)
  }

  /** A successful call of GLogEvent. */
  ghost predicate Call(g: State, caps: Caps, e: Event, g': State) {
    Ok(g, caps) && exists out, moved :: Offered(g, caps, e, true, g', out, moved)
  }

  /** The states between the calls of GLogEvent by which `offered` was offered. */
  ghost predicate Calls(trace: seq<State>, caps: Caps, offered: seq<Event>) {
    |trace| == |offered| + 1 && forall i | 0 <= i < |offered| :: CallAt(trace, caps, offered, i)
  }

  ghost predicate CallAt(trace: seq<State>, caps: Caps, offered: seq<Event>, i: int)
    requires 0 <= i < |offered| && |trace| == |offered| + 1
  {
    Call(trace[i], caps, offered[i], trace[i + 1])
  }

  /** None of the calls is the exception. */
  ghost predicate NoneAgain(trace: seq<State>, offered: seq<Event>)
    requires |offered| < |trace|
  {
    forall i | 0 <= i < |offered| :: !Again(trace[i], offered[i])
  }

  lemma OneMoreCall(trace: seq<State>, caps: Caps, offered: seq<Event>, e: Event, g': State)
    requires Calls(trace, caps, offered) && Call(trace[|offered|], caps, e, g')
    ensures Calls(trace + [g'], caps, offered + [e])
  {
    forall i | 0 <= i < |offered| + 1 ensures CallAt(trace + [g'], caps, offered + [e], i) {
      if i < |offered| { assert CallAt(trace, caps, offered, i); }
    }
  }

  lemma UniqueCall(g: State, caps: Caps, e: Event, g': State)
    requires Call(g, caps, e, g')
    ensures Unique(g') <==> Unique(g) && !Again(g, e)
  {
    var out, moved :| Offered(g, caps, e, true, g', out, moved);
    if Unique(g) {
      UniqueIff(g, caps, e, true, g', out, moved);
    } else {
      StaysDouble(g, caps, e, true, g', out, moved);
    }
  }

  lemma UniqueAt(trace: seq<State>, caps: Caps, offered: seq<Event>, i: nat)
    requires Calls(trace, caps, offered) && i < |offered|
    ensures Unique(trace[i + 1]) <==> Unique(trace[i]) && !Again(trace[i], offered[i])
  {
    assert CallAt(trace, caps, offered, i);
    UniqueCall(trace[i], caps, offered[i], trace[i + 1]);
  }

  lemma {:induction false} Chain(good: seq<bool>, bad: seq<bool>, n: nat)
    requires StepByStep(good, bad) && n <= |bad| && good[0]
    ensures good[n] <==> forall i | 0 <= i < n :: !bad[i]
  {
    if n > 0 {
      Chain(good, bad, n - 1);
      assert good[n] <==> good[n - 1] && !bad[n - 1];
    }
  }

  ghost function Uniques(trace: seq<State>): seq<bool> {
    seq(|trace|, i requires 0 <= i < |trace| => Unique(trace[i]))
  }

  ghost function Agains(trace: seq<State>, offered: seq<Event>): seq<bool>
    requires |offered| <= |trace|
  {
    seq(|offered|, i requires 0 <= i < |offered| => Again(trace[i], offered[i]))
  }

  ghost predicate StepByStep(good: seq<bool>, bad: seq<bool>) {
    && |good| == |bad| + 1
    && forall i {:trigger bad[i]} | 0 <= i < |bad| :: good[i + 1] <==> good[i] && !bad[i]
  }

  lemma UniqueSteps(trace: seq<State>, caps: Caps, offered: seq<Event>)
    requires Calls(trace, caps, offered)
    ensures StepByStep(Uniques(trace), Agains(trace, offered))
  {
    forall i | 0 <= i < |offered|
      ensures Uniques(trace)[i + 1] <==> Uniques(trace)[i] && !Agains(trace, offered)[i]
    {
      UniqueAt(trace, caps, offered, i);
    }
  }

  lemma UniqueFromSteps(trace: seq<State>, offered: seq<Event>)
    requires |trace| == |offered| + 1 && StepByStep(Uniques(trace), Agains(trace, offered)) && Unique(trace[0])
    ensures Unique(trace[|offered|]) <==> NoneAgain(trace, offered)
  {
    assert Uniques(trace)[0];
    Chain(Uniques(trace), Agains(trace, offered), |offered|);
    assert Uniques(trace)[|offered|] <==> Unique(trace[|offered|]);
    NoneAgainIs(trace, offered);
  }

  /** Nothing is logged twice by a series of calls exactly if none of them is the exception. */
  lemma UniqueCalls(trace: seq<State>, caps: Caps, offered: seq<Event>)
    requires Calls(trace, caps, offered) && Unique(trace[0])
    ensures Unique(trace[|offered|]) <==> NoneAgain(trace, offered)
  {
    UniqueSteps(trace, caps, offered);
    UniqueFromSteps(trace, offered);
  }

  lemma NoneAgainIs(trace: seq<State>, offered: seq<Event>)
    requires |offered| < |trace|
    ensures NoneAgain(trace, offered) <==>
            forall i | 0 <= i < |Agains(trace, offered)| :: !Agains(trace, offered)[i]
  {
    assert forall i | 0 <= i < |offered| :: Agains(trace, offered)[i] <==> Again(trace[i], offered[i]);
  }

  lemma PendingAfterCall(trace: seq<State>, caps: Caps, offered: seq<Event>, i: nat)
    requires Calls(trace, caps, offered) && i < |offered|
    ensures trace[i + 1].pending.Keys <= trace[i].pending.Keys + {IdOf(offered[i])}
  {
    var g, e, g' := trace[i], offered[i], trace[i + 1];
    assert CallAt(trace, caps, offered, i);
    var out, moved :| Offered(g, caps, e, true, g', out, moved);
  }

  ghost function Pendings(trace: seq<State>): seq<set<Id>> {
    seq(|trace|, i requires 0 <= i < |trace| => trace[i].pending.Keys)
  }

  ghost function Ids(offered: seq<Event>): seq<Id> {
    seq(|offered|, i requires 0 <= i < |offered| => IdOf(offered[i]))
  }

  ghost predicate OneByOne(keys: seq<set<Id>>, ids: seq<Id>) {
    && |keys| == |ids| + 1
    && forall i {:trigger ids[i]} | 0 <= i < |ids| :: keys[i + 1] <= keys[i] + {ids[i]}
  }

  lemma {:induction false} KeysGrow(keys: seq<set<Id>>, ids: seq<Id>, n: nat)
    requires OneByOne(keys, ids) && n <= |ids|
    ensures forall id | id in keys[n] :: id in keys[0] || id in ids[..n]
  {
    if n > 0 {
      KeysGrow(keys, ids, n - 1);
      assert keys[n] <= keys[n - 1] + {ids[n - 1]};
    }
  }

  lemma PendingSteps(trace: seq<State>, caps: Caps, offered: seq<Event>)
    requires Calls(trace, caps, offered)
    ensures OneByOne(Pendings(trace), Ids(offered))
  {
    forall i | 0 <= i < |offered| ensures Pendings(trace)[i + 1] <= Pendings(trace)[i] + {Ids(offered)[i]} {
      PendingAfterCall(trace, caps, offered, i);
    }
  }

  /** An event that was not pending at first and has not been offered is not pending. */
  lemma NotOfferedYet(keys: seq<set<Id>>, ids: seq<Id>, i: nat)
    requires OneByOne(keys, ids) && i < |ids| && ids[i] !in keys[0]
    requires forall j, k | 0 <= j < k < |ids| :: ids[j] != ids[k]
    ensures ids[i] !in keys[i]
  {
    KeysGrow(keys, ids, i);
  }

  /** In particular if none of the events is pending before: a tail that is offered for the
      first time does not log anything twice. */
  lemma FirstTimeIsOnce(trace: seq<State>, caps: Caps, offered: seq<Event>)
    requires Calls(trace, caps, offered)
    requires forall i | 0 <= i < |offered| :: IdOf(offered[i]) !in trace[0].pending
    requires forall i, j | 0 <= i < j < |offered| :: IdOf(offered[i]) != IdOf(offered[j])
    ensures NoneAgain(trace, offered)
  {
    PendingSteps(trace, caps, offered);
    NoneAgainFromSteps(trace, offered);
  }

  lemma NoneAgainFromSteps(trace: seq<State>, offered: seq<Event>)
    requires |trace| == |offered| + 1 && OneByOne(Pendings(trace), Ids(offered))
    requires forall i | 0 <= i < |offered| :: IdOf(offered[i]) !in trace[0].pending
    requires forall i, j | 0 <= i < j < |offered| :: IdOf(offered[i]) != IdOf(offered[j])
    ensures NoneAgain(trace, offered)
  {
    var keys, ids := Pendings(trace), Ids(offered);
    forall i | 0 <= i < |offered| ensures !Again(trace[i], offered[i]) {
      NotOfferedYet(keys, ids, i);
    }
  }

  /** The events have been offered in order, all of them or up to one that was refused. */
  ghost predicate OfferedUpTo(code: int, offered: seq<Event>, all: seq<Event>, g: State, caps: Caps) {
    && offered <= all
    && (code == 1 || code == 0)
    && (code == 1 ==> offered == all != [])
    && (code == 0 && all != [] ==> |offered| < |all| && Refused(g, caps, all[|offered|]))
  }

  /** `offered` are the last events of h down to but not including number q. */
  ghost predicate Remaining(h: seq<Event>, q: nat, offered: seq<Event>)
    requires q <= |h|
  {
    offered + Reverse(h[..q]) == Reverse(h)
  }

  lemma RemainingAll(h: seq<Event>)
    ensures Remaining(h, |h|, [])
  {
    assert h[..|h|] == h;
    assert [] + Reverse(h) == Reverse(h);
  }

  /** The next event to be offered. */
  lemma RemainingNext(h: seq<Event>, q: nat, offered: seq<Event>)
    requires 0 < q <= |h| && Remaining(h, q, offered)
    ensures offered <= Reverse(h) && |offered| < |Reverse(h)| && Reverse(h)[|offered|] == h[q - 1]
    ensures Remaining(h, q - 1, offered + [h[q - 1]])
    ensures q == 1 ==> offered + [h[q - 1]] == Reverse(h)
  {
    assert h[..q][..q - 1] == h[..q - 1];
    assert offered + ([h[q - 1]] + Reverse(h[..q - 1])) == offered + [h[q - 1]] + Reverse(h[..q - 1]);
  }

  /** From g the calls of `trace` have led to g'. */
  ghost predicate Offering(g: State, g': State, caps: Caps, offered: seq<Event>, trace: seq<State>) {
    && TakenIn(g, g', offered) && SameHorizons(g.hosts, g'.hosts)
    && Calls(trace, caps, offered) && trace[0] == g && trace[|offered|] == g'
  }

  /** Offer the events of a tail to GLogEvent, last one first. */
  method OfferAll(g: State, caps: Caps, lt: Log, earliest: nat)
    returns (code: int, g': State, ghost offered: seq<Event>, ghost trace: seq<State>)
    requires Ok(g, caps) && lt.Valid() && 0 < |lt.hist| < lt.size
    requires forall j | 0 <= j < |lt.hist| :: Offerable(lt.hist[j]) && lt.hist[j].seqNo >= earliest
    ensures Ok(g', caps) && TakenIn(g, g', offered) && SameHorizons(g.hosts, g'.hosts)
    ensures OfferedUpTo(code, offered, Reverse(lt.hist), g', caps)
    ensures Calls(trace, caps, offered) && trace[0] == g && (Unique(g') <==> Unique(trace[|offered|]))
  {
    var curr := lt.head;
    ghost var q, h := |lt.hist|, lt.hist;
    g', offered, trace := g, [], [g];
    RemainingAll(h);
    var e := Peek(lt, curr, q);
    while e.seqNo >= earliest
      invariant Ok(g', caps) && Offering(g, g', caps, offered, trace)
      invariant 0 < q <= |h| && curr == q % lt.size && e == h[q - 1] && Remaining(h, q, offered)
      decreases q
    {
      var ok, next;
      RemainingNext(h, q, offered);
      ghost var trace';
      ok, g', trace' := Offer(g', caps, e, g, offered, trace);
      if !ok {
        code := 0;
        return;
      }
      offered, trace := offered + [e], trace';
      curr, next := Retreat(lt, curr, q);
      q := q - 1;
      if next.None? {
        break;
      }
      e := next.value;
    }
    code := 1;
  }

  /** One call of GLogEvent. */
  method Offer(g: State, caps: Caps, e: Event, ghost origin: State, ghost offered: seq<Event>, ghost trace: seq<State>)
    returns (ok: bool, g': State, ghost trace': seq<State>)
    requires Ok(g, caps) && Offerable(e) && Offering(origin, g, caps, offered, trace)
    ensures Ok(g', caps) && TakenIn(origin, g', offered) && SameHorizons(origin.hosts, g'.hosts)
    ensures if ok then Offering(origin, g', caps, offered + [e], trace')
            else Refused(g', caps, e) && (Unique(g') <==> Unique(g))
  {
    ghost var out, moved;
    ok, g', out, moved := LogOrPend(g, caps, e);
    trace' := trace + [g'];
    OfferedIsAccounted(g, caps, e, ok, g', out, moved);
    TakeIn(origin, g, g', offered);
    if ok {
      TakeInOne(origin, g', offered, e);
      OneMoreCall(trace, caps, offered, e, g');
    } else {
      RefusedAgain(g, caps, e, ok, g', out, moved);
      StillUnique(g, caps, e, g', out, moved);
    }
  }

  lemma StillUnique(g: State, caps: Caps, e: Event, g': State, out: Outcome, moved: seq<Commit>)
    requires Ok(g, caps) && Offered(g, caps, e, false, g', out, moved)
    ensures Unique(g') <==> Unique(g)
  {
    if Unique(g) {
      UniqueIff(g, caps, e, false, g', out, moved);
    } else {
      StaysDouble(g, caps, e, false, g', out, moved);
    }
  }

  lemma TakeIn(origin: State, g: State, g': State, offered: seq<Event>)
    requires TakenIn(origin, g, offered) && Advanced(g.hosts, g'.hosts) && Kept(g, g')
    requires SameHorizons(origin.hosts, g.hosts) && SameHorizons(g.hosts, g'.hosts)
    ensures TakenIn(origin, g', offered) && SameHorizons(origin.hosts, g'.hosts)
  {
  }

  lemma TakeInOne(origin: State, g: State, offered: seq<Event>, e: Event)
    requires TakenIn(origin, g, offered) && Accounted(g, IdOf(e))
    ensures TakenIn(origin, g, offered + [e])
  {
  }

  /** Only the horizon of the remote host, if it was known, has moved, and only upwards. */
  ghost predicate HorizonsRaised(hosts: Hosts, hosts': Hosts, remote: nat, oldest: nat) {
    forall h | h in hosts' ::
      hosts'[h].horizon == if h !in hosts then 0
                           else if h == remote && oldest > hosts[h].horizon then oldest
                           else hosts[h].horizon
  }

  /** The horizon of a known remote host moves up to the oldest event of the imported tail,
      which goes back no further than max_seen, and pending events that wait for older ones
      are resolved. */
  method SetHorizon(g: State, caps: Caps, remote: nat, oldest: nat) returns (g': State)
    requires Ok(g, caps) && remote in g.hosts && oldest < TWO_32
    ensures Ok(g', caps) && Advanced(g.hosts, g'.hosts) && Kept(g, g') && NothingNew(g, g')
    ensures HorizonsRaised(g.hosts, g'.hosts, remote, oldest)
    ensures remote in g'.hosts && (g.hosts[remote].maxSeen < g'.hosts[remote].horizon ==>
              forall id | id in g'.pending && g'.pending[id].causeHost == remote ::
                g'.hosts[remote].horizon <= g'.pending[id].causeSeqNo)
  {
    g' := g;
    if oldest > g.hosts[remote].horizon {
      RaiseHorizon(g, caps, remote, oldest);
      g' := g.(hosts := g.hosts[remote := g.hosts[remote].(horizon := oldest)]);
    }
    ghost var raised := g';
    var ok;
    ok, g' := FastForward(g', caps, remote);
    Raised(g, raised, g', remote, oldest);
  }

  lemma Raised(g: State, raised: State, g': State, remote: nat, oldest: nat)
    requires remote in g.hosts && raised.pending == g.pending
    requires raised.hosts == if oldest > g.hosts[remote].horizon
                             then g.hosts[remote := g.hosts[remote].(horizon := oldest)] else g.hosts
    requires Walked(raised.hosts, g'.hosts) && Kept(raised, g')
    ensures Advanced(g.hosts, g'.hosts) && Kept(g, g') && HorizonsRaised(g.hosts, g'.hosts, remote, oldest)
  {
    assert Kept(g, raised);
  }

  /** The effect of importing `all` from the remote host: a series of calls of GLogEvent that
      starts once the horizon has been moved.  It logs an event twice, or leaves one pending
      that is logged, exactly if one of these calls is the exception. */
  ghost predicate Imported(g: State, g': State, caps: Caps, remote: nat, all: seq<Event>, code: int,
                           offered: seq<Event>, trace: seq<State>) {
    && TakenIn(g, g', offered)
    && OfferedUpTo(code, offered, all, g', caps)
    && HorizonsRaised(g.hosts, g'.hosts, remote, if all == [] then 0 else all[0].seqNo)
    && Calls(trace, caps, offered) && trace[0].pending.Keys <= g.pending.Keys
    && (Unique(g) ==> (Unique(g') <==> NoneAgain(trace, offered)))
  }

  lemma Combine(g: State, g': State, caps: Caps, remote: nat, oldest: nat, all: seq<Event>, code: int,
                offered: seq<Event>, trace: seq<State>)
    requires Calls(trace, caps, offered) && (Unique(g') <==> Unique(trace[|offered|])) && NothingNew(g, trace[0])
    requires Advanced(g.hosts, trace[0].hosts) && Kept(g, trace[0]) && TakenIn(trace[0], g', offered)
    requires OfferedUpTo(code, offered, all, g', caps) && all != [] && all[0].seqNo == oldest
    requires HorizonsRaised(g.hosts, trace[0].hosts, remote, oldest) && SameHorizons(trace[0].hosts, g'.hosts)
    ensures Imported(g, g', caps, remote, all, code, offered, trace)
  {
    if Unique(g) { UniqueCalls(trace, caps, offered); }
  }

  lemma NothingImported(g: State, caps: Caps, remote: nat)
    ensures Imported(g, g, caps, remote, [], 0, [], [g])
  {
  }

  // ---------- What an import brings ----------

  /** Event j of the log of the remote host is among the last r and not below max_seen. */
  ghost predicate IsUnseen(g: State, remote: nat, hist: seq<Event>, r: nat, j: int) {
    && 0 <= j < |hist| && |hist| - r <= j
    && (remote in g.hosts ==> g.hosts[remote].maxSeen <= hist[j].seqNo)
  }

  /** The horizon after an import. */
  ghost predicate HorizonAt(g: State, g': State, remote: nat, s: nat) {
    remote in g.hosts ==>
      && remote in g'.hosts
      && g'.hosts[remote].horizon == if g.hosts[remote].horizon < s then s else g.hosts[remote].horizon
  }

  ghost predicate InTail(g: State, remote: nat, hist: seq<Event>, r: nat, e: Event) {
    exists j :: IsUnseen(g, remote, hist, r, j) && e == hist[j]
  }

  /** Only such events are offered, in increasing order. */
  ghost predicate OffersUnseen(g: State, remote: nat, hist: seq<Event>, r: nat, offered: seq<Event>) {
    && (forall i | 0 <= i < |offered| :: InTail(g, remote, hist, r, offered[i]))
    && (forall i | 0 < i < |offered| :: offered[i].seqNo == offered[i - 1].seqNo + 1)
  }

  /** There is no room for event j or for one before it. */
  ghost predicate Blocked(g: State, g': State, caps: Caps, remote: nat, hist: seq<Event>, r: nat, j: int) {
    exists l :: l <= j && IsUnseen(g, remote, hist, r, l) && !HasRoom(g', caps, hist[l])
  }

  /** All of them are offered, or those up to one for which there is no room. */
  ghost predicate OffersAll(g: State, g': State, caps: Caps, remote: nat, hist: seq<Event>, r: nat, code: int,
                            offered: seq<Event>) {
    forall j | IsUnseen(g, remote, hist, r, j) ::
      hist[j] in offered || (code == 0 && Blocked(g, g', caps, remote, hist, r, j))
  }

  /** The horizon goes up to the first of them. */
  ghost predicate MovesHorizon(g: State, g': State, remote: nat, hist: seq<Event>, r: nat) {
    forall j {:trigger hist[j]} | IsUnseen(g, remote, hist, r, j) && !IsUnseen(g, remote, hist, r, j - 1) ::
      HorizonAt(g, g', remote, hist[j].seqNo)
  }

  ghost predicate Brings(g: State, g': State, caps: Caps, remote: nat, hist: seq<Event>, r: nat, code: int,
                         offered: seq<Event>) {
    && OffersUnseen(g, remote, hist, r, offered)
    && OffersAll(g, g', caps, remote, hist, r, code, offered)
    && MovesHorizon(g, g', remote, hist, r)
  }

  /** Event e is pending, or its host has been seen at least that far. */
  ghost predicate IsKnown(g: State, e: Event) {
    e.host in g.hosts && (Id(e.host, e.seqNo) in g.pending || e.seqNo <= g.hosts[e.host].maxSeen)
  }

  /** If the log holds only its own host's events, all of the last r are pending or seen. */
  ghost predicate MissesNothing(g: State, remote: nat, hist: seq<Event>, r: nat) {
    (forall j | 0 <= j < |hist| :: hist[j].host == remote) ==>
      forall j | 0 <= j < |hist| && |hist| - r <= j :: IsKnown(g, hist[j])
  }

  /** A full import misses nothing. */
  lemma NothingMissed(g: State, g': State, caps: Caps, remote: nat, hist: seq<Event>, r: nat, code: int,
                      offered: seq<Event>)
    requires Brings(g, g', caps, remote, hist, r, code, offered) && code == 1 && r <= |hist|
    requires Advanced(g.hosts, g'.hosts) && AllAccounted(g', offered)
    ensures MissesNothing(g', remote, hist, r)
  {
    forall j | 0 <= j < |hist| && |hist| - r <= j && hist[j].host == remote ensures IsKnown(g', hist[j]) {
      if IsUnseen(g, remote, hist, r, j) {
        var i :| 0 <= i < |offered| && offered[i] == hist[j];
        assert Accounted(g', IdOf(offered[i]));
      }
    }
  }

  lemma TailIndex(hist: seq<Event>, r: nat, earliest: nat, j: int)
    requires CarryPositions(hist) && r <= |hist|
    ensures 0 <= j < |hist| && |hist| - r <= j && earliest <= j + 1 <==>
            |hist| - CountFrom(|hist|, r, earliest) <= j < |hist|
  {
  }

  /** The events to be offered are those from position lo on. */
  ghost predicate UnseenFrom(g: State, remote: nat, hist: seq<Event>, r: nat, lo: int) {
    0 <= lo <= |hist| && forall j :: IsUnseen(g, remote, hist, r, j) <==> lo <= j < |hist|
  }

  /** The part of a log that is imported. */
  ghost function TailFor(g: State, remote: nat, hist: seq<Event>, r: nat): seq<Event>
    requires r <= |hist|
  {
    RetainedFrom(hist, r, if remote in g.hosts then g.hosts[remote].maxSeen else 0)
  }

  /** Where it starts. */
  lemma UnseenStart(g: State, remote: nat, hist: seq<Event>, r: nat) returns (lo: nat)
    requires CarryPositions(hist) && r <= |hist|
    ensures lo <= |hist| && UnseenFrom(g, remote, hist, r, lo) && TailFor(g, remote, hist, r) == hist[lo..]
  {
    var earliest := if remote in g.hosts then g.hosts[remote].maxSeen else 0;
    lo := |hist| - CountFrom(|hist|, r, earliest);
    forall j ensures IsUnseen(g, remote, hist, r, j) <==> lo <= j < |hist| { TailIndex(hist, r, earliest, j); }
  }

  lemma OnlyUnseen(g: State, remote: nat, hist: seq<Event>, r: nat, lo: int, offered: seq<Event>)
    requires CarryPositions(hist) && UnseenFrom(g, remote, hist, r, lo) && offered <= hist[lo..]
    ensures OffersUnseen(g, remote, hist, r, offered)
  {
    forall i | 0 <= i < |offered| ensures InTail(g, remote, hist, r, offered[i]) {
      assert offered[i] == hist[lo + i] && IsUnseen(g, remote, hist, r, lo + i);
    }
  }

  lemma AllUnseen(g: State, g': State, caps: Caps, remote: nat, hist: seq<Event>, r: nat, lo: int, code: int,
                  offered: seq<Event>)
    requires UnseenFrom(g, remote, hist, r, lo) && offered <= hist[lo..]
    requires |offered| < |hist| - lo ==> code == 0 && !HasRoom(g', caps, hist[lo + |offered|])
    ensures OffersAll(g, g', caps, remote, hist, r, code, offered)
  {
    forall j | IsUnseen(g, remote, hist, r, j)
      ensures hist[j] in offered || (code == 0 && Blocked(g, g', caps, remote, hist, r, j))
    {
      if j - lo < |offered| {
        assert offered[j - lo] == hist[j];
      } else {
        assert IsUnseen(g, remote, hist, r, lo + |offered|);
      }
    }
  }

  lemma HorizonMoved(g: State, g': State, remote: nat, hist: seq<Event>, r: nat, lo: int)
    requires 0 <= lo < |hist| ==> HorizonAt(g, g', remote, hist[lo].seqNo)
    requires UnseenFrom(g, remote, hist, r, lo)
    ensures MovesHorizon(g, g', remote, hist, r)
  {
  }

  lemma BringsTail(g: State, g': State, caps: Caps, remote: nat, hist: seq<Event>, r: nat, code: int,
                   offered: seq<Event>, trace: seq<State>)
    requires CarryPositions(hist) && r <= |hist| && Ok(g', caps)
    requires Imported(g, g', caps, remote, TailFor(g, remote, hist, r), code, offered, trace)
    ensures Brings(g, g', caps, remote, hist, r, code, offered)
  {
    var all := TailFor(g, remote, hist, r);
    var lo := UnseenStart(g, remote, hist, r);
    OnlyUnseen(g, remote, hist, r, lo, offered);
    if |offered| < |all| {
      assert all[|offered|] == hist[lo + |offered|];
      RoomIs(g', caps, all[|offered|]);
    }
    AllUnseen(g, g', caps, remote, hist, r, lo, code, offered);
    if lo < |hist| { assert all[0] == hist[lo]; }
    HorizonMoved(g, g', remote, hist, r, lo);
  }

  class GLog {
    const caps: Caps
    var st: State

    ghost predicate Valid()
      reads this
    {
      Ok(st, caps)
    }

    /** GLogCreate: the pending set is five times as large as the log. */
    constructor (size: nat)
      ensures Valid() && st == State(map[], map[], []) && caps == Caps(HostTable.HASHCOUNT, 5 * size)
    {
      caps := Caps(HostTable.HASHCOUNT, 5 * size);
      st := State(map[], map[], []);
    }

    method GLogEvent(e: Event) returns (ok: bool, ghost out: Outcome, ghost moved: seq<Commit>)
      requires Valid() && Offerable(e)
      modifies this
      ensures Valid() && Advanced(old(st).hosts, st.hosts)
      ensures Offered(old(st), caps, e, ok, st, out, moved)
      ensures Decided(old(st), caps, e, ok, st) && Releases(old(st), e, ok, st) && AllEntitled(st)
    {
      ghost var g := st;
      ok, st, out, moved := LogOrPend(st, caps, e);
      OfferedIsDecided(g, caps, e, ok, st, out, moved);
      OfferedReleases(g, caps, e, ok, st, out, moved);
      CausesFirst(st, caps);
    }

    /** ImportLogTail: the events that the host's log retains from max_seen on are offered
        to GLogEvent once each, in increasing order, until one is refused. */
    method ImportLogTail(ll: Log) returns (code: int, ghost offered: seq<Event>, ghost trace: seq<State>)
      requires Valid() && ll.Valid() && ll.Numbered()
      requires forall j | 0 <= j < |ll.hist| :: Offerable(ll.hist[j])
      modifies this
      ensures Valid()
      ensures Imported(old(st), st, caps, ll.hostId, TailFor(old(st), ll.hostId, ll.hist, ll.Retained()),
                       code, offered, trace)
      ensures AllEntitled(st) && Brings(old(st), st, caps, ll.hostId, ll.hist, ll.Retained(), code, offered)
      ensures code == 1 ==> MissesNothing(st, ll.hostId, ll.hist, ll.Retained())
    {
      ghost var g := st;
      code, offered, trace := ImportRetained(ll);
      BringsTail(g, st, caps, ll.hostId, ll.hist, ll.Retained(), code, offered, trace);
      if code == 1 { NothingMissed(g, st, caps, ll.hostId, ll.hist, ll.Retained(), code, offered); }
      CausesFirst(st, caps);
    }

    method ImportRetained(ll: Log) returns (code: int, ghost offered: seq<Event>, ghost trace: seq<State>)
      requires Valid() && ll.Valid() && ll.Numbered()
      requires forall j | 0 <= j < |ll.hist| :: Offerable(ll.hist[j])
      modifies this
      ensures Valid()
      ensures Imported(old(st), st, caps, ll.hostId, TailFor(old(st), ll.hostId, ll.hist, ll.Retained()),
                       code, offered, trace)
    {
      var remote := ll.hostId;
      var earliest := if remote in st.hosts then st.hosts[remote].maxSeen else 0;
      ghost var all := TailFor(st, remote, ll.hist, ll.Retained());
      code, offered, trace := 0, [], [st];
      NothingImported(st, caps, remote);
      var lt := ll.LogTail(earliest, ll.size);
      if lt == null {
        assert all == [];
        return;
      }
      ReversedTail(ll.hist, ll.Retained(), earliest, lt.hist);
      assert Reverse(lt.hist) == all;
      var empty := lt.IsEmpty();
      if !empty {
        code, offered, trace := ImportTail(remote, lt, earliest);
      }
    }

    /** The rest of ImportLogTail: move the horizon, then offer the events of the tail. */
    method ImportTail(remote: nat, lt: Log, earliest: nat)
      returns (code: int, ghost offered: seq<Event>, ghost trace: seq<State>)
      requires Valid() && lt.Valid() && 0 < |lt.hist| < lt.size
      requires forall j | 0 <= j < |lt.hist| :: Offerable(lt.hist[j]) && lt.hist[j].seqNo >= earliest
      modifies this
      ensures Valid() && Imported(old(st), st, caps, remote, Reverse(lt.hist), code, offered, trace)
    {
      ReverseAt(lt.hist, 0);
      var g := st;
      if remote in st.hosts {
        var oldest := Peek(lt, lt.head, |lt.hist|);
        g := SetHorizon(g, caps, remote, oldest.seqNo);
      }
      code, g, offered, trace := OfferAll(g, caps, lt, earliest);
      Combine(st, g, caps, remote, lt.hist[|lt.hist| - 1].seqNo, Reverse(lt.hist), code, offered, trace);
      st := g;
    }
  }

  // ---------- The exception does happen ----------

  function Ev(host: nat, seqNo: nat, causeHost: nat, causeSeqNo: nat): Event {
    EventCreate(TRIGGER, host).(seqNo := seqNo, causeHost := causeHost, causeSeqNo := causeSeqNo)
  }

  /** Hosts 1 and 2 have been seen up to 4 and s. */
  ghost predicate Seen(g: State, s: nat) {
    && 1 in g.hosts && g.hosts[1].maxSeen == 4
    && 2 in g.hosts && g.hosts[2].maxSeen == s && g.hosts[2].horizon == 0
  }

  lemma FirstCall(g: State, caps: Caps, ok: bool, g': State, out: Outcome, moved: seq<Commit>)
    requires g == State(map[], map[], []) && caps.hosts > 2 && Ok(g', caps)
    requires Offered(g, caps, Ev(1, 4, 2, 3), ok, g', out, moved)
    ensures Seen(g', 3) && g'.pending == map[]
  {
    var e := Ev(1, 4, 2, 3);
    assert Registered(g.hosts, e) == map[2 := HostInfo(3, 0)];
    assert g'.log == [Commit(PlaceholderOf(e), Placeholder), Commit(e, FirstOfHost)];
    assert g'.log[0].ev.host == 2 && g'.log[1].ev.host == 1;
    SeenIs(g', caps, 1);
    SeenIs(g', caps, 2);
  }

  /** max_seen is the number of a record of the host. */
  lemma SeenIs(g: State, caps: Caps, h: nat)
    requires Ok(g, caps) && h in g.hosts
    ensures exists k :: 0 <= k < |g.log| && g.log[k].ev.host == h && g.log[k].ev.seqNo == g.hosts[h].maxSeen
  {
    assert SeenBefore(g.log, |g.log|, h, g.hosts[h].maxSeen);
  }

  lemma SecondCall(g: State, caps: Caps, ok: bool, g': State, out: Outcome, moved: seq<Commit>)
    requires Seen(g, 3) && g.pending == map[] && caps.pending > 0 && Ok(g, caps) && Ok(g', caps)
    requires Offered(g, caps, Ev(1, 5, 2, 20), ok, g', out, moved)
    ensures Seen(g', 3) && g'.pending == map[Id(1, 5) := Ev(1, 5, 2, 20)]
  {
    var e := Ev(1, 5, 2, 20);
    assert out == Pend && ok;
    assert g'.log == g.log;
    SameSeen(g, caps, g', 1);
    SameSeen(g, caps, g', 2);
  }

  /** max_seen does not change without a new record of the host. */
  lemma SameSeen(g: State, caps: Caps, g': State, h: nat)
    requires Ok(g, caps) && Ok(g', caps) && h in g.hosts && h in g'.hosts && g.log <= g'.log
    requires forall k | |g.log| <= k < |g'.log| :: g'.log[k].ev.host != h
    ensures g'.hosts[h].maxSeen == g.hosts[h].maxSeen
  {
    SeenIs(g, caps, h);
    SeenIs(g', caps, h);
    var k :| 0 <= k < |g.log| && g.log[k].ev.host == h && g.log[k].ev.seqNo == g.hosts[h].maxSeen;
    assert g'.log[k] == g.log[k];
  }

  lemma ThirdCall(g: State, caps: Caps, ok: bool, g': State, out: Outcome, moved: seq<Commit>)
    requires Seen(g, 3) && g.pending == map[Id(1, 5) := Ev(1, 5, 2, 20)] && Ok(g, caps) && Ok(g', caps)
    requires Offered(g, caps, Ev(2, 25, 1, 4), ok, g', out, moved)
    ensures Seen(g', 25) && g'.pending == g.pending
  {
    var e := Ev(2, 25, 1, 4);
    assert out == Outcome.Log && ok;
    assert moved == [];
    var c := Commit(e, WhyLogged(g.hosts, e));
    assert g'.log == g.log + [c];
    assert g'.log[|g.log|] == c;
    SameSeen(g, caps, g', 1);
    SeenIs(g', caps, 2);
    assert g'.pending == g.pending by { NothingMoved(g.pending, g.log); }
  }

  /** Two calls of GLogEvent after which an event waits for event 20 of host 2. */
  method WaitsForTwo(size: nat) returns (gl: GLog)
    requires size >= 1
    ensures fresh(gl) && gl.Valid() && Seen(gl.st, 3) && gl.st.pending == map[Id(1, 5) := Ev(1, 5, 2, 20)]
  {
    gl := new GLog(size);
    var ok;
    ghost var out, moved, g;
    g := gl.st;
    ok, out, moved := gl.GLogEvent(Ev(1, 4, 2, 3));
    FirstCall(g, gl.caps, ok, gl.st, out, moved);
    g := gl.st;
    ok, out, moved := gl.GLogEvent(Ev(1, 5, 2, 20));
    SecondCall(g, gl.caps, ok, gl.st, out, moved);
  }

  /** Four calls of GLogEvent after which an event is logged and still pending: the third
      satisfies it, but as nothing has the event of the third call as its cause the walk does
      not look for satisfied events, and the fourth call, which offers it again, logs it. */
  method LoggedAndPending(size: nat) returns (gl: GLog, e: Event)
    requires size >= 1
    ensures fresh(gl) && gl.Valid() && IdOf(e) in gl.st.pending && !Unique(gl.st)
  {
    e := Ev(1, 5, 2, 20);
    gl := WaitsForTwo(size);
    var ok;
    ghost var out, moved, g;
    g := gl.st;
    ok, out, moved := gl.GLogEvent(Ev(2, 25, 1, 4));
    ThirdCall(g, gl.caps, ok, gl.st, out, moved);
    g := gl.st;
    ok, out, moved := gl.GLogEvent(e);
    FourthCall(g, gl.caps, ok, gl.st, out, moved);
  }

  lemma FourthCall(g: State, caps: Caps, ok: bool, g': State, out: Outcome, moved: seq<Commit>)
    requires Seen(g, 25) && g.pending == map[Id(1, 5) := Ev(1, 5, 2, 20)]
    requires Offered(g, caps, Ev(1, 5, 2, 20), ok, g', out, moved)
    ensures Again(g, Ev(1, 5, 2, 20)) && !Unique(g') && Id(1, 5) in g'.pending
  {
    var e := Ev(1, 5, 2, 20);
    assert out == Outcome.Log && ok;
    assert moved == [];
    LoggedAgain(g, e, g', moved);
    NothingMoved(g.pending, g.log);
  }
}
