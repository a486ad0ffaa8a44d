/**
 A log that three calls of GLogEvent make, and the scan for a root in it.
 */
module RepairMerged {
  import opened EventLog
  import opened Pending
  import opened GlobalLog
  import opened GlobalLogEvent
  import opened GlobalLogImport
  import Repair

  ghost function EventsOf(log: seq<Commit>): seq<Event> {
    seq(|log|, i requires 0 <= i < |log| => log[i].ev)
  }

  ghost predicate IsEnabled(hosts: Hosts, e: Event) {
    && e.host in hosts && hosts[e.host].maxSeen < e.seqNo
    && e.causeHost in hosts && e.causeSeqNo <= hosts[e.causeHost].maxSeen
  }

  /** An event of a new host that this host has caused is enabled by its placeholder. */
  lemma NewHost(g: State, e: Event)
    requires e.host == e.causeHost && e.host !in g.hosts && e.causeSeqNo < e.seqNo
    ensures IsEnabled(Registered(g.hosts, e), e) && Registered(g.hosts, e).Keys == g.hosts.Keys + {e.host}
  {
  }

  /** An enabled event is logged behind its placeholder, and nothing else happens if nothing
      is pending. */
  lemma LoggedAlone(g: State, caps: Caps, e: Event, ok: bool, g': State, out: Outcome, moved: seq<Commit>)
    requires Ok(g, caps) && g.pending == map[] && |g.hosts| + 2 < caps.hosts && Ok(g', caps)
    requires Offered(g, caps, e, ok, g', out, moved)
    requires IsEnabled(Registered(g.hosts, e), e)
    ensures g'.pending == map[] && g'.hosts.Keys == Registered(g.hosts, e).Keys
    ensures EventsOf(g'.log) == EventsOf(g.log) + (if e.causeHost in g.hosts then [] else [PlaceholderOf(e)]) + [e]
  {
    assert out == Outcome.Log && ok && moved == [];
    NothingMoved(g.pending, g.log);
    RemoveKey(g.pending, IdOf(e));
    AddedEvents(g, e);
  }

  lemma AddedEvents(g: State, e: Event)
    ensures EventsOf(g.log + AllAdded(g, e, Outcome.Log, []))
            == EventsOf(g.log) + (if e.causeHost in g.hosts then [] else [PlaceholderOf(e)]) + [e]
  {
  }

  /** max_seen of a host whose last record this is. */
  lemma LastSeen(g: State, caps: Caps, h: nat, s: nat)
    requires Ok(g, caps) && s in Numbers(g.log, h) && forall x | x in Numbers(g.log, h) :: x <= s
    ensures h in g.hosts && g.hosts[h].maxSeen == s
  {
    var k :| 0 <= k < |g.log| && g.log[k].ev.host == h && g.log[k].ev.seqNo == s;
    SeenIs(g, caps, h);
    var j :| 0 <= j < |g.log| && g.log[j].ev.host == h && g.log[j].ev.seqNo == g.hosts[h].maxSeen;
    assert g.log[j].ev.seqNo in Numbers(g.log, h);
  }

  ghost function Numbers(log: seq<Commit>, h: nat): set<nat> {
    set k | 0 <= k < |log| && log[k].ev.host == h :: log[k].ev.seqNo
  }

  method LogAlone(gl: GLog, e: Event)
    requires gl.Valid() && Offerable(e) && gl.st.pending == map[] && |gl.st.hosts| + 2 < gl.caps.hosts
    requires IsEnabled(Registered(gl.st.hosts, e), e)
    modifies gl
    ensures gl.Valid() && gl.st.pending == map[] && gl.st.hosts.Keys == Registered(old(gl.st).hosts, e).Keys
    ensures EventsOf(gl.st.log) == EventsOf(old(gl.st).log)
            + (if e.causeHost in old(gl.st).hosts then [] else [PlaceholderOf(e)]) + [e]
  {
    ghost var g := gl.st;
    var ok;
    ghost var out, moved;
    ok, out, moved := gl.GLogEvent(e);
    LoggedAlone(g, gl.caps, e, ok, gl.st, out, moved);
  }

  /** The log after one event of each of two hosts with a cause outside it. */
  ghost function TwoTriggers(a: Event, b: Event): seq<Event> {
    [PlaceholderOf(a), a, PlaceholderOf(b), b]
  }

  method LogTwo(gl: GLog, a: Event, b: Event)
    requires gl.Valid() && Offerable(a) && Offerable(b) && gl.caps.hosts > 3
    requires gl.st.pending == map[] && gl.st.hosts == map[] && gl.st.log == []
    requires a.host == a.causeHost != b.host == b.causeHost && a.causeSeqNo < a.seqNo && b.causeSeqNo < b.seqNo
    modifies gl
    ensures gl.Valid() && gl.st.pending == map[] && gl.st.hosts.Keys == {a.host, b.host}
    ensures EventsOf(gl.st.log) == TwoTriggers(a, b)
  {
    NewHost(gl.st, a);
    LogAlone(gl, a);
    Size(gl.st.hosts, {a.host});
    NewHost(gl.st, b);
    LogAlone(gl, b);
  }

  /** A trigger of host 1, one of host 2, both with causes outside the log, and a read by the
      handler of the first: the scan for its root breaks off at the placeholder of host 2. */
  method MergedLog(size: nat) returns (gl: GLog)
    requires size >= 1
    ensures gl.Valid() && Repair.LogOk(EventsOf(gl.st.log)) && |gl.st.log| == 5
    ensures Repair.Start(EventsOf(gl.st.log), 4) == 1 && Repair.Top(EventsOf(gl.st.log), 4) == 4
    ensures Repair.Root(EventsOf(gl.st.log), 4) == 0
  {
    var a, b := Event(TRIGGER, 1, 1, 1, 0, "a", 1), Event(TRIGGER, 2, 1, 2, 0, "b", 1);
    var r := Event(READ, 1, 2, 1, 1, "a", 1);
    gl := new GLog(size);
    LogTwo(gl, a, b);
    Size(gl.st.hosts, {1, 2});
    HostOneSeen(gl.st, gl.caps, a, b);
    LogAlone(gl, r);
    Repair.ScanBreaksOff(EventsOf(gl.st.log));
  }

  lemma Size(hosts: Hosts, keys: set<nat>)
    requires hosts.Keys == keys
    ensures |hosts| == |keys|
  {
    assert |hosts| == |hosts.Keys|;
  }

  lemma HostOneSeen(g: State, caps: Caps, a: Event, b: Event)
    requires Ok(g, caps) && EventsOf(g.log) == TwoTriggers(a, b)
    requires a.host == 1 && a.seqNo == 1 && a.causeHost == 1 && a.causeSeqNo == 0 && b.host == 2 && b.causeHost == 2
    ensures 1 in g.hosts && g.hosts[1].maxSeen == 1
  {
    var log := g.log;
    assert |log| == 4;
    assert forall k | 0 <= k < 4 :: log[k].ev == EventsOf(log)[k];
    assert log[1].ev == a && log[0].ev == PlaceholderOf(a) && log[2].ev == PlaceholderOf(b) && log[3].ev == b;
    assert 1 in Numbers(log, 1);
    forall x | x in Numbers(log, 1) ensures x <= 1 {
      var k :| 0 <= k < |log| && log[k].ev.host == 1 && log[k].ev.seqNo == x;
      assert k == 0 || k == 1 || k == 2 || k == 3;
    }
    LastSeen(g, caps, 1, 1);
  }
}
