/**
 What GLogEvent decides and what the log guarantees, said in the fields of events, hosts and
 pending events alone.
 */
module GlobalLogMeaning {
  import opened EventLog
  import opened Pending
  import opened GlobalLog
  import opened GlobalLogEvent

  // ---------- The log ----------

  /** Record k is the first of its host, or its own cause, or comes after a record of the cause
      host with at least the number of the cause, or its cause lies behind the horizon. */
  ghost predicate Entitled(hosts: Hosts, log: seq<Commit>, k: int)
    requires 0 <= k < |log|
  {
    var e := log[k].ev;
    || (forall j | 0 <= j < k :: log[j].ev.host != e.host)
    || (e.causeHost == e.host && e.causeSeqNo == e.seqNo)
    || (exists j :: 0 <= j < k && log[j].ev.host == e.causeHost && log[j].ev.seqNo >= e.causeSeqNo)
    || (e.causeHost in hosts && e.causeSeqNo <= hosts[e.causeHost].horizon)
  }

  ghost predicate AllEntitled(g: State) {
    forall k | 0 <= k < |g.log| :: Entitled(g.hosts, g.log, k)
  }

  /** No effect is logged before its cause. */
  lemma CausesFirst(g: State, caps: Caps)
    requires Ok(g, caps)
    ensures AllEntitled(g)
  {
    forall k | 0 <= k < |g.log| ensures Entitled(g.hosts, g.log, k) {
      assert Justified(g.hosts, g.log, k);
    }
  }

  // ---------- The decision ----------

  /** Neither the host of e nor the host of its cause, if that is the same, has been heard of. */
  ghost predicate IsNewHost(g: State, e: Event) {
    e.host !in g.hosts && e.host != e.causeHost
  }

  /** The host of e has been seen at least as far as e; an unknown cause host counts as seen as
      far as the cause. */
  ghost predicate IsOld(g: State, e: Event) {
    if e.host in g.hosts then e.seqNo <= g.hosts[e.host].maxSeen
    else e.host == e.causeHost && e.seqNo <= e.causeSeqNo
  }

  /** The cause of e is pending. */
  ghost predicate CauseIsPending(g: State, e: Event) {
    exists id :: id in g.pending && g.pending[id].host == e.causeHost && g.pending[id].seqNo == e.causeSeqNo
  }

  /** The cause of e is of a host not heard of, or of one that has been seen that far, or lies
      behind the horizon. */
  ghost predicate CauseIsSeen(g: State, e: Event) {
    e.causeHost in g.hosts ==>
      e.causeSeqNo <= g.hosts[e.causeHost].maxSeen || e.causeSeqNo <= g.hosts[e.causeHost].horizon
  }

  /** Event e is to be logged at once. */
  ghost predicate IsDue(g: State, e: Event) {
    || IsNewHost(g, e)
    || (!IsOld(g, e) && e.causeHost == e.host && e.causeSeqNo == e.seqNo)
    || (!IsOld(g, e) && !CauseIsPending(g, e) && CauseIsSeen(g, e))
  }

  /** How many host records a call adds. */
  ghost function NewHosts(g: State, e: Event): nat {
    (if e.causeHost in g.hosts then 0 else 1) + (if IsNewHost(g, e) then 1 else 0)
  }

  /** There is a slot left for every new host and for an event that has to wait. */
  ghost predicate HasRoom(g: State, caps: Caps, e: Event) {
    && (NewHosts(g, e) > 0 ==> |g.hosts| + NewHosts(g, e) < caps.hosts)
    && (!IsDue(g, e) && !IsOld(g, e) ==>
          |g.pending| < caps.pending && forall id | id in g.pending ::
            !(g.pending[id].host == e.host && g.pending[id].seqNo == e.seqNo))
  }

  /** The decision of GLogEvent. */
  ghost predicate Decided(g: State, caps: Caps, e: Event, ok: bool, g': State) {
    && (ok <==> HasRoom(g, caps, e))
    && (ok ==> (LoggedSince(g, g', e) <==> IsDue(g, e)))
    && (ok && !IsDue(g, e) && !IsOld(g, e) ==> g'.pending == g.pending[Id(e.host, e.seqNo) := e])
    && (!ok || (!IsDue(g, e) && IsOld(g, e)) ==> g'.pending == g.pending)
  }

  lemma PendingCause(g: State, caps: Caps, e: Event)
    requires Ok(g, caps)
    ensures CauseOf(e) in g.pending <==> CauseIsPending(g, e)
    ensures e.causeHost !in g.hosts ==> !CauseIsPending(g, e)
    ensures IdOf(e) in g.pending <==>
              exists id :: id in g.pending && g.pending[id].host == e.host && g.pending[id].seqNo == e.seqNo
  {
    if CauseOf(e) in g.pending { assert g.pending[CauseOf(e)].host == e.causeHost; }
    if IdOf(e) in g.pending { assert g.pending[IdOf(e)].host == e.host; }
  }

  lemma DecidesDue(g: State, caps: Caps, e: Event)
    requires Ok(g, caps)
    ensures var out := Decide(Registered(g.hosts, e), g.pending, e);
      && (out == First <==> IsNewHost(g, e))
      && (out == Skip <==> !IsNewHost(g, e) && IsOld(g, e))
      && (out == First || out == Log <==> IsDue(g, e))
  {
    PendingCause(g, caps, e);
  }

  lemma RegisteredSize(hosts: Hosts, e: Event)
    ensures |Registered(hosts, e)| == |hosts| + if e.causeHost in hosts then 0 else 1
  {
    if e.causeHost !in hosts { assert Registered(hosts, e).Keys == hosts.Keys + {e.causeHost}; }
    assert |Registered(hosts, e)| == |Registered(hosts, e).Keys| && |hosts| == |hosts.Keys|;
  }

  lemma RoomIs(g: State, caps: Caps, e: Event)
    requires Ok(g, caps)
    ensures Room(g, caps, e, Decide(Registered(g.hosts, e), g.pending, e)) <==> HasRoom(g, caps, e)
  {
    DecidesDue(g, caps, e);
    PendingCause(g, caps, e);
    RegisteredSize(g.hosts, e);
    RoomFor(g, caps, e, Decide(Registered(g.hosts, e), g.pending, e));
  }

  lemma RoomFor(g: State, caps: Caps, e: Event, out: Outcome)
    requires out == First <==> IsNewHost(g, e)
    requires out == Pend <==> !IsDue(g, e) && !IsOld(g, e)
    requires |Registered(g.hosts, e)| == |g.hosts| + if e.causeHost in g.hosts then 0 else 1
    requires IdOf(e) in g.pending <==>
               exists id :: id in g.pending && g.pending[id].host == e.host && g.pending[id].seqNo == e.seqNo
    ensures Room(g, caps, e, out) <==> HasRoom(g, caps, e)
  {
  }

  lemma PlaceholderIsOther(e: Event)
    requires Offerable(e)
    ensures PlaceholderOf(e) != e
  {
  }

  /** What is logged when e is not due is only a placeholder. */
  lemma NotLoggedUnlessDue(g: State, caps: Caps, e: Event, ok: bool, g': State, out: Outcome, moved: seq<Commit>)
    requires Ok(g, caps) && Offerable(e) && Offered(g, caps, e, ok, g', out, moved)
    requires ok && (out == Skip || out == Pend)
    ensures !LoggedSince(g, g', e)
  {
    PlaceholderIsOther(e);
    forall k | |g.log| <= k < |g'.log| ensures g'.log[k].ev != e {
      assert g'.log[k] == AllAdded(g, e, out, moved)[k - |g.log|];
    }
  }

  /** GLogEvent decides as the fields say. */
  lemma OfferedIsDecided(g: State, caps: Caps, e: Event, ok: bool, g': State, out: Outcome, moved: seq<Commit>)
    requires Ok(g, caps) && Offerable(e) && Offered(g, caps, e, ok, g', out, moved)
    ensures Decided(g, caps, e, ok, g')
  {
    DecidesDue(g, caps, e);
    RoomIs(g, caps, e);
    if ok && (out == First || out == Log) {
      assert g'.log[|g.log| + |Placeholders(g.hosts, e)|].ev == e;
    } else if ok {
      NotLoggedUnlessDue(g, caps, e, ok, g', out, moved);
    }
  }

  // ---------- The walk ----------

  /** Event p waits for event e. */
  ghost predicate WaitsFor(p: Event, e: Event) {
    p.causeHost == e.host && p.causeSeqNo == e.seqNo
  }

  /** The cause of p has been seen. */
  ghost predicate MayGo(hosts: Hosts, p: Event) {
    p.causeHost in hosts && p.causeSeqNo <= hosts[p.causeHost].maxSeen
  }

  /** Nothing pending waits for e, but maybe for itself in the place that e takes. */
  ghost predicate NobodyWaits(g: State, e: Event) {
    forall id | id in g.pending && !(WaitsFor(e, e) && id == Id(e.host, e.seqNo)) :: !WaitsFor(g.pending[id], e)
  }

  ghost predicate NobodyMayGo(g: State) {
    forall id | id in g.pending :: !MayGo(g.hosts, g.pending[id])
  }

  /** Every record that a call adds is the event, the placeholder for its cause, or was pending
      and may go. */
  ghost predicate OnlyReleased(g: State, e: Event, g': State) {
    forall k | |g.log| <= k < |g'.log| :: Released(g, e, g', g'.log[k].ev)
  }

  ghost predicate Released(g: State, e: Event, g': State, r: Event) {
    || r == e
    || (e.causeHost !in g.hosts && r == Event(UNKNOWN, e.causeHost, e.causeSeqNo, 0, 0, "", 0))
    || (MayGo(g'.hosts, r) && Id(r.host, r.seqNo) in g.pending && g.pending[Id(r.host, r.seqNo)] == r)
  }

  /** What a call of GLogEvent releases. */
  ghost predicate Releases(g: State, e: Event, ok: bool, g': State) {
    && OnlyReleased(g, e, g')
    && (ok && IsDue(g, e) && !IsNewHost(g, e) ==>
          if NobodyWaits(g, e) then |g'.log| == |g.log| + 1 + NewHosts(g, e) else NobodyMayGo(g'))
  }

  lemma RecordMayGo(g: State, caps: Caps, k: int)
    requires Ok(g, caps) && 0 <= k < |g.log| && g.log[k].why == BySeen
    ensures MayGo(g.hosts, g.log[k].ev)
  {
    assert Justified(g.hosts, g.log, k);
  }

  lemma RecordReleased(g: State, caps: Caps, e: Event, ok: bool, g': State, out: Outcome, moved: seq<Commit>, k: int)
    requires Offered(g, caps, e, ok, g', out, moved) && Ok(g', caps) && |g.log| <= k < |g'.log|
    ensures Released(g, e, g', g'.log[k].ev)
  {
    if ok {
      var c := AllAdded(g, e, out, moved)[k - |g.log|];
      AddedIs(g, e, out, moved, k - |g.log|);
      assert g'.log[k] == c;
      if c in moved { MovedReleased(g, caps, e, g', moved, k); }
    }
  }

  /** What a call adds is a placeholder, the event or a moved record. */
  lemma AddedIs(g: State, e: Event, out: Outcome, moved: seq<Commit>, i: int)
    requires 0 <= i < |AllAdded(g, e, out, moved)|
    ensures var c := AllAdded(g, e, out, moved)[i];
      || c.ev == e
      || (e.causeHost !in g.hosts && c.ev == Event(UNKNOWN, e.causeHost, e.causeSeqNo, 0, 0, "", 0))
      || (out == Log && c in moved)
  {
    var n := |Placeholders(g.hosts, e)|;
    if i > n && out == Log { assert AllAdded(g, e, out, moved)[i] == moved[i - n - 1]; }
  }

  lemma MovedReleased(g: State, caps: Caps, e: Event, g': State, moved: seq<Commit>, k: int)
    requires Ok(g', caps) && 0 <= k < |g'.log| && g'.log[k] in moved && FromPending(WithoutAnchor(g.pending, e), moved)
    ensures Released(g, e, g', g'.log[k].ev)
  {
    var j :| 0 <= j < |moved| && moved[j] == g'.log[k];
    RecordMayGo(g', caps, k);
  }

  lemma WaitingIs(g: State, e: Event)
    requires forall id | id in g.pending :: IdOf(g.pending[id]) == id
    ensures NobodyWaits(g, e) <==> NoneCausedBy(WithoutAnchor(g.pending, e), IdOf(e))
  {
    var rest := WithoutAnchor(g.pending, e);
    assert forall id | id in g.pending && !(WaitsFor(e, e) && id == Id(e.host, e.seqNo)) :: id in rest;
  }

  lemma OfferedReleases(g: State, caps: Caps, e: Event, ok: bool, g': State, out: Outcome, moved: seq<Commit>)
    requires Ok(g, caps) && Ok(g', caps) && Offered(g, caps, e, ok, g', out, moved)
    ensures Releases(g, e, ok, g')
  {
    AddsReleased(g, caps, e, ok, g', out, moved);
    DecidesDue(g, caps, e);
    if ok && out == Log { WalkReleases(g, caps, e, g', moved); }
  }

  lemma AddsReleased(g: State, caps: Caps, e: Event, ok: bool, g': State, out: Outcome, moved: seq<Commit>)
    requires Offered(g, caps, e, ok, g', out, moved) && Ok(g', caps)
    ensures OnlyReleased(g, e, g')
  {
    forall k | |g.log| <= k < |g'.log| ensures Released(g, e, g', g'.log[k].ev) {
      RecordReleased(g, caps, e, ok, g', out, moved, k);
    }
  }

  lemma WalkReleases(g: State, caps: Caps, e: Event, g': State, moved: seq<Commit>)
    requires PendingOk(g.hosts, g.pending) && Offered(g, caps, e, true, g', Log, moved) && !IsNewHost(g, e)
    ensures if NobodyWaits(g, e) then |g'.log| == |g.log| + 1 + NewHosts(g, e) else NobodyMayGo(g')
  {
    WaitingIs(g, e);
    if !NobodyWaits(g, e) { assert forall id | id in g'.pending :: !Satisfied(g'.hosts, g'.pending[id]); }
  }
}
