/**
 GLogEvent: what becomes of an event that is offered to the global log, and what that does
 to the events that are pending or logged already.
 */
module GlobalLogEvent {
  import opened EventLog
  import opened Pending
  import opened GlobalLog

  // ---------- GLogEvent ----------

  /** Whether there is room for what GLogEvent decides. */
  ghost predicate Room(g: State, caps: Caps, e: Event, out: Outcome) {
    && (e.causeHost in g.hosts || |g.hosts| + 1 < caps.hosts)
    && (out == First ==> |Registered(g.hosts, e)| + 1 < caps.hosts)
    && (out == Pend ==> IdOf(e) !in g.pending && |g.pending| < caps.pending)
  }

  /** What GLogEvent adds to the log. */
  ghost function Added(hosts: Hosts, e: Event, out: Outcome, moved: seq<Commit>): seq<Commit>
    requires e.causeHost in hosts
  {
    match out
    case First => [Commit(e, FirstOfHost)]
    case Log => [Commit(e, WhyLogged(hosts, e))] + moved
    case _ => []
  }

  /** Everything that GLogEvent adds to the log. */
  ghost function AllAdded(g: State, e: Event, out: Outcome, moved: seq<Commit>): seq<Commit> {
    Placeholders(g.hosts, e) + Added(Registered(g.hosts, e), e, out, moved)
  }

  /** The walk has done its work after event e was logged. */
  ghost predicate DrainedAfter(hosts: Hosts, pending: map<Id, Event>, e: Event, g': State, moved: seq<Commit>) {
    e.host in hosts && Drained(Bump(hosts, e.host, e.seqNo), WithoutAnchor(pending, e), g', IdOf(e), moved)
  }

  /** The effect of GLogEvent.  The event offered goes to the log, to the pending set, or is
      dropped because its host has been seen further on; whatever leaves the pending set goes
      to the log, or gives way to an anchor with the same id. */
  ghost predicate Offered(g: State, caps: Caps, e: Event, ok: bool, g': State, out: Outcome, moved: seq<Commit>) {
    && out == Decide(Registered(g.hosts, e), g.pending, e)
    && (ok <==> Room(g, caps, e, out))
    && (ok ==> g'.log == g.log + AllAdded(g, e, out, moved))
    && (ok && out == Log ==> Moved(WithoutAnchor(g.pending, e), moved, g'.pending))
    && (ok && out == Log ==> DrainedAfter(Registered(g.hosts, e), g.pending, e, g', moved))
    && (!ok || out != Log ==> moved == [])
    && (ok && out == Pend ==> g'.pending == g.pending[IdOf(e) := e])
    && (!ok || out == First || out == Skip ==> g'.pending == g.pending)
    && (ok && out != First ==> Walked(Registered(g.hosts, e), g'.hosts))
    && SameHorizons(g.hosts, g'.hosts)
    && (!ok ==> Failed(g, caps, e, g'))
  }

  /** A call that fails may still have registered the cause host. */
  ghost predicate Failed(g: State, caps: Caps, e: Event, g': State) {
    if e.causeHost in g.hosts || |g.hosts| + 1 < caps.hosts
    then g'.hosts == Registered(g.hosts, e) && g'.log == g.log + Placeholders(g.hosts, e)
    else g'.hosts == g.hosts && g'.log == g.log
  }

  /** There is no room for event e. */
  ghost predicate Refused(g: State, caps: Caps, e: Event) {
    !Room(g, caps, e, Decide(Registered(g.hosts, e), g.pending, e))
  }

  /** An event that GLogEvent has refused would be refused again. */
  lemma RefusedAgain(g: State, caps: Caps, e: Event, ok: bool, g': State, out: Outcome, moved: seq<Commit>)
    requires Offered(g, caps, e, ok, g', out, moved) && !ok
    ensures Refused(g', caps, e)
  {
  }

  /** e has been added to the log between g and g'. */
  ghost predicate LoggedSince(g: State, g': State, e: Event) {
    exists k :: |g.log| <= k < |g'.log| && g'.log[k].ev == e
  }

  /** Conservation: GLogEvent keeps every other pending event or logs it, not both, and adds
      no pending event but the one offered. */
  lemma PendingConserved(g: State, caps: Caps, e: Event, ok: bool, g': State, out: Outcome, moved: seq<Commit>)
    requires Ok(g, caps) && Offered(g, caps, e, ok, g', out, moved) && ok
    ensures forall id | id in g.pending && id != IdOf(e) ::
              (id in g'.pending && g'.pending[id] == g.pending[id]) <==> !LoggedSince(g, g', g.pending[id])
    ensures forall id | id in g'.pending :: g'.pending[id] == e || (id in g.pending && g'.pending[id] == g.pending[id])
  {
    forall id | id in g.pending && id != IdOf(e)
      ensures (id in g'.pending && g'.pending[id] == g.pending[id]) <==> !LoggedSince(g, g', g.pending[id])
    {
      forall k | 0 <= k < |AllAdded(g, e, out, moved)| && IdOf(AllAdded(g, e, out, moved)[k].ev) == id
        ensures id in IdsOf(moved)
      {
        AddedRecord(g, e, out, moved, k);
      }
      MovedAreAdded(g, e, out, moved);
      KeptOrLogged(g, g', AllAdded(g, e, out, moved), moved, id);
    }
  }

  /** A record that GLogEvent adds is the placeholder, the event or a moved one. */
  lemma AddedRecord(g: State, e: Event, out: Outcome, moved: seq<Commit>, k: int)
    requires 0 <= k < |AllAdded(g, e, out, moved)|
    ensures var c := AllAdded(g, e, out, moved)[k];
      || c.ev.host !in g.hosts
      || c.ev == e
      || (out == Log && c in moved && IdOf(c.ev) in IdsOf(moved))
  {
    var n := |Placeholders(g.hosts, e)|;
    if k > n && out == Log {
      assert AllAdded(g, e, out, moved)[k] == moved[k - n - 1];
    }
  }

  lemma MovedAreAdded(g: State, e: Event, out: Outcome, moved: seq<Commit>)
    requires out == Log || moved == []
    ensures forall i | 0 <= i < |moved| :: moved[i] in AllAdded(g, e, out, moved)
  {
    var n := |Placeholders(g.hosts, e)|;
    forall i | 0 <= i < |moved| ensures moved[i] in AllAdded(g, e, out, moved) {
      assert AllAdded(g, e, out, moved)[n + 1 + i] == moved[i];
    }
  }

  /** The event offered is logged, or pending, or dropped because its host has been seen
      further on. */
  lemma OfferedAccountedFor(g: State, caps: Caps, e: Event, ok: bool, g': State, out: Outcome, moved: seq<Commit>)
    requires Ok(g, caps) && Offered(g, caps, e, ok, g', out, moved) && ok
    ensures || LoggedSince(g, g', e)
            || (IdOf(e) in g'.pending && g'.pending[IdOf(e)] == e)
            || (out == Skip && e.host in g'.hosts && g'.hosts[e.host].maxSeen >= e.seqNo && g'.pending == g.pending)
  {
    if out == First || out == Log {
      assert g'.log[|g.log| + |Placeholders(g.hosts, e)|].ev == e;
    }
  }

  /** Of the records added only the moved ones were pending. */
  ghost predicate NotPending(pending: map<Id, Event>, added: seq<Commit>, moved: set<Id>) {
    forall k | 0 <= k < |added| && IdOf(added[k].ev) in pending :: IdOf(added[k].ev) in moved
  }

  lemma KeptOrLogged(g: State, g': State, added: seq<Commit>, moved: seq<Commit>, id: Id)
    requires id in g.pending && IdOf(g.pending[id]) == id && g'.log == g.log + added
    requires forall k | 0 <= k < |added| && IdOf(added[k].ev) == id :: id in IdsOf(moved)
    requires forall i | 0 <= i < |moved| :: moved[i] in added
    requires FromPending(g.pending, moved)
    requires id in g'.pending && g'.pending[id] == g.pending[id] <==> id !in IdsOf(moved)
    ensures (id in g'.pending && g'.pending[id] == g.pending[id]) <==> !LoggedSince(g, g', g.pending[id])
  {
    if id in IdsOf(moved) {
      var i :| 0 <= i < |moved| && IdOf(moved[i].ev) == id;
      var k :| 0 <= k < |added| && added[k] == moved[i];
      assert g'.log[|g.log| + k] == added[k];
    } else {
      forall k | |g.log| <= k < |g'.log| ensures g'.log[k].ev != g.pending[id] {
        assert g'.log[k] == added[k - |g.log|];
      }
    }
  }

  /** The records that GLogEvent adds are the placeholder, the event and the moved ones. */
  lemma NewRecords(g: State, caps: Caps, e: Event, out: Outcome, moved: seq<Commit>)
    requires Ok(g, caps) && out == Decide(Registered(g.hosts, e), g.pending, e) && IdOf(e) !in g.pending
    requires if out == Log then FromPending(g.pending, moved) && DifferentIds(moved) else moved == []
    ensures var added := AllAdded(g, e, out, moved);
      && DifferentIds(added) && NotPending(g.pending, added, IdsOf(moved))
      && forall i | 0 <= i < |moved| :: moved[i] in added
  {
    var body := Added(Registered(g.hosts, e), e, out, moved);
    AddedRecords(g, e, out, moved);
    if e.causeHost !in g.hosts {
      var c := Placeholders(g.hosts, e)[0];
      PlaceholderIsNew(g, e, out, moved);
      PlaceholderRecord(g.pending, c, body, moved);
    } else {
      assert AllAdded(g, e, out, moved) == body;
    }
  }

  lemma AddedRecords(g: State, e: Event, out: Outcome, moved: seq<Commit>)
    requires IdOf(e) !in g.pending
    requires if out == Log then FromPending(g.pending, moved) && DifferentIds(moved) else moved == []
    ensures var body := Added(Registered(g.hosts, e), e, out, moved);
      DifferentIds(body) && NotPending(g.pending, body, IdsOf(moved)) && forall i | 0 <= i < |moved| :: moved[i] in body
  {
    var body := Added(Registered(g.hosts, e), e, out, moved);
    if out == First || out == Log { BodyRecords(g.pending, body[0], moved); }
  }

  lemma BodyRecords(pending: map<Id, Event>, c: Commit, moved: seq<Commit>)
    requires IdOf(c.ev) !in pending && FromPending(pending, moved) && DifferentIds(moved)
    ensures var body := [c] + moved;
      DifferentIds(body) && NotPending(pending, body, IdsOf(moved)) && forall i | 0 <= i < |moved| :: moved[i] in body
  {
    var body := [c] + moved;
    assert forall k | 1 <= k < |body| :: body[k] == moved[k - 1] && IdOf(body[k].ev) in IdsOf(moved);
    forall i | 0 <= i < |moved| ensures moved[i] in body { assert body[i + 1] == moved[i]; }
  }

  lemma PlaceholderIsNew(g: State, e: Event, out: Outcome, moved: seq<Commit>)
    requires PendingOk(g.hosts, g.pending) && e.causeHost !in g.hosts
    requires out == Decide(Registered(g.hosts, e), g.pending, e)
    requires if out == Log then FromPending(g.pending, moved) else moved == []
    ensures var c, body := PlaceholderOf(e), Added(Registered(g.hosts, e), e, out, moved);
      IdOf(c) !in g.pending && forall k | 0 <= k < |body| :: IdOf(body[k].ev) != IdOf(c)
  {
    var body := Added(Registered(g.hosts, e), e, out, moved);
    forall k | 1 <= k < |body| ensures IdOf(body[k].ev) in g.pending { assert body[k] == moved[k - 1]; }
  }

  lemma PlaceholderRecord(pending: map<Id, Event>, c: Commit, body: seq<Commit>, moved: seq<Commit>)
    requires DifferentIds(body) && NotPending(pending, body, IdsOf(moved)) && IdOf(c.ev) !in pending
    requires forall k | 0 <= k < |body| :: IdOf(body[k].ev) != IdOf(c.ev)
    ensures DifferentIds([c] + body) && NotPending(pending, [c] + body, IdsOf(moved))
    ensures forall x | x in body :: x in [c] + body
  {
    var added := [c] + body;
    assert forall k | 1 <= k < |added| :: added[k] == body[k - 1];
  }

  /** The same for an event whose cause host is known. */
  ghost predicate OfferedKnown(g: State, caps: Caps, e: Event, ok: bool, g': State, out: Outcome, moved: seq<Commit>)
    requires e.causeHost in g.hosts
  {
    && out == Decide(g.hosts, g.pending, e)
    && (ok <==> && (out == First ==> |g.hosts| + 1 < caps.hosts)
                && (out == Pend ==> IdOf(e) !in g.pending && |g.pending| < caps.pending))
    && g'.log == g.log + (if ok then Added(g.hosts, e, out, moved) else [])
    && (ok && out == Log ==> Moved(WithoutAnchor(g.pending, e), moved, g'.pending))
    && (ok && out == Log ==> DrainedAfter(g.hosts, g.pending, e, g', moved))
    && (!ok || out != Log ==> moved == [])
    && (ok && out == Pend ==> g'.pending == g.pending[IdOf(e) := e])
    && (!ok || out == First || out == Skip ==> g'.pending == g.pending)
    && (ok && out != First ==> Walked(g.hosts, g'.hosts))
    && SameHorizons(g.hosts, g'.hosts)
    && (!ok ==> g'.hosts == g.hosts)
  }

  /** GLogEvent from the point where the cause host is known. */
  method LogOrPendKnown(g: State, caps: Caps, e: Event)
    returns (ok: bool, g': State, ghost out: Outcome, ghost moved: seq<Commit>)
    requires Ok(g, caps) && Offerable(e) && e.causeHost in g.hosts
    ensures Ok(g', caps) && Advanced(g.hosts, g'.hosts) && OfferedKnown(g, caps, e, ok, g', out, moved)
  {
    moved := [];
    out := Decide(g.hosts, g.pending, e);
    if e.host !in g.hosts {
      ok, g' := LogFirst(g, caps, e);
    } else if g.hosts[e.host].maxSeen >= e.seqNo {
      ok, g' := true, g;
    } else if !IsAnchor(e) &&
       (CauseOf(e) in g.pending
        || (g.hosts[e.causeHost].maxSeen < e.causeSeqNo && g.hosts[e.causeHost].horizon < e.causeSeqNo)) {
      ok, g' := PendingAdd(g, caps, e);
    } else {
      ok := true;
      g', moved := LogEnabled(g, caps, e);
      Concat(g.log, [Commit(e, WhyLogged(g.hosts, e))], moved);
    }
    Concat(g.log, [], []);
    WalkedTwice(g.hosts, g.hosts, g'.hosts);
  }

  lemma Concat(a: seq<Commit>, b: seq<Commit>, c: seq<Commit>)
    ensures a + (b + c) == a + b + c && a + [] == a
  {
  }

  method LogOrPend(g: State, caps: Caps, e: Event)
    returns (ok: bool, g': State, ghost out: Outcome, ghost moved: seq<Commit>)
    requires Ok(g, caps) && Offerable(e)
    ensures Ok(g', caps) && Advanced(g.hosts, g'.hosts) && Offered(g, caps, e, ok, g', out, moved)
  {
    var registered, g1 := RegisterCause(g, caps, e);
    if registered {
      ok, g', out, moved := LogOrPendKnown(g1, caps, e);
      Glue(g, caps, e, ok, g1, g', out, moved);
    } else {
      ok, g', out, moved := false, g, Decide(Registered(g.hosts, e), g.pending, e), [];
    }
  }

  lemma Glue(g: State, caps: Caps, e: Event, ok: bool, g1: State, g': State, out: Outcome, moved: seq<Commit>)
    requires e.causeHost in g.hosts || |g.hosts| + 1 < caps.hosts
    requires g1 == State(Registered(g.hosts, e), g.pending, g.log + Placeholders(g.hosts, e))
    requires OfferedKnown(g1, caps, e, ok, g', out, moved)
    requires Advanced(g.hosts, g1.hosts) && Advanced(g1.hosts, g'.hosts)
    ensures Offered(g, caps, e, ok, g', out, moved) && Advanced(g.hosts, g'.hosts)
  {
    Concat(g1.log, [], []);
    Concat(g.log, Placeholders(g.hosts, e), Added(g1.hosts, e, out, moved));
  }

  // ---------- Nothing is forgotten ----------

  /** The event with this id is pending, or its host has been seen so far. */
  ghost predicate Accounted(g: State, id: Id) {
    id.host in g.hosts && (id in g.pending || g.hosts[id.host].maxSeen >= id.seqNo)
  }

  /** Whatever was accounted for still is. */
  ghost predicate Kept(g: State, g': State) {
    forall id | Accounted(g, id) :: Accounted(g', id)
  }

  lemma LoggedIsAccounted(g: State, caps: Caps, k: int)
    requires Ok(g, caps) && 0 <= k < |g.log|
    ensures Accounted(g, IdOf(g.log[k].ev))
  {
  }

  lemma MovedIsAccounted(g: State, caps: Caps, g': State, before: seq<Commit>, moved: seq<Commit>,
                         pending: map<Id, Event>, id: Id)
    requires Ok(g', caps) && Advanced(g.hosts, g'.hosts) && id.host in g.hosts
    requires g'.log == before + moved && g'.pending == pending - IdsOf(moved) && id in pending
    ensures Accounted(g', id)
  {
    if id in IdsOf(moved) {
      var i :| 0 <= i < |moved| && IdOf(moved[i].ev) == id;
      assert g'.log[|before| + i] == moved[i];
      LoggedIsAccounted(g', caps, |before| + i);
    }
  }

  /** GLogEvent accounts for the event offered and forgets no other, even if it fails. */
  lemma OfferedIsAccounted(g: State, caps: Caps, e: Event, ok: bool, g': State, out: Outcome, moved: seq<Commit>)
    requires Ok(g, caps) && Ok(g', caps) && Advanced(g.hosts, g'.hosts) && Offered(g, caps, e, ok, g', out, moved)
    ensures ok ==> Accounted(g', IdOf(e))
    ensures Kept(g, g')
  {
    if ok && out == First {
      NothingMoved(g.pending, g.log);
      assert [Commit(e, FirstOfHost)] + [] == [Commit(e, FirstOfHost)];
      LoggedKeeps(g, caps, e, g', Commit(e, FirstOfHost), [], g.pending);
    } else if ok && out == Log {
      LoggedKeeps(g, caps, e, g', Commit(e, WhyLogged(Registered(g.hosts, e), e)), moved, WithoutAnchor(g.pending, e));
    } else {
      NotLoggedKeeps(g, caps, e, ok, g', out, moved);
    }
  }

  lemma NotLoggedKeeps(g: State, caps: Caps, e: Event, ok: bool, g': State, out: Outcome, moved: seq<Commit>)
    requires Ok(g', caps) && Advanced(g.hosts, g'.hosts) && Offered(g, caps, e, ok, g', out, moved)
    requires !ok || out == Skip || out == Pend
    ensures ok ==> Accounted(g', IdOf(e))
    ensures Kept(g, g')
  {
  }

  lemma AddedSplit(log: seq<Commit>, placeholders: seq<Commit>, c: Commit, moved: seq<Commit>)
    ensures log + (placeholders + ([c] + moved)) == log + placeholders + [c] + moved
  {
  }

  lemma LoggedKeeps(g: State, caps: Caps, e: Event, g': State, c: Commit, moved: seq<Commit>, pending: map<Id, Event>)
    requires Ok(g', caps) && Advanced(g.hosts, g'.hosts) && c.ev == e
    requires g'.log == g.log + (Placeholders(g.hosts, e) + ([c] + moved)) && g'.pending == pending - IdsOf(moved)
    requires forall id | id in g.pending && id != IdOf(e) :: id in pending
    ensures Accounted(g', IdOf(e)) && Kept(g, g')
  {
    var before := g.log + Placeholders(g.hosts, e);
    AddedSplit(g.log, Placeholders(g.hosts, e), c, moved);
    assert g'.log[|before|] == c;
    LoggedIsAccounted(g', caps, |before|);
    forall id | Accounted(g, id) ensures Accounted(g', id) {
      if id in g.pending && id != IdOf(e) {
        MovedIsAccounted(g, caps, g', before + [c], moved, pending, id);
      }
    }
  }

  lemma KeptTwice(a: State, b: State, c: State)
    requires Kept(a, b) && Kept(b, c)
    ensures Kept(a, c)
  {
  }

  // ---------- Nothing is logged twice, with one exception ----------

  /** No event is in the log twice, and none that is in the log is pending. */
  ghost predicate Unique(g: State) {
    DifferentIds(g.log) && NoneIn(g.log, g.pending)
  }

  ghost predicate NoneIn(log: seq<Commit>, pending: map<Id, Event>) {
    forall k | 0 <= k < |log| :: IdOf(log[k].ev) !in pending
  }

  ghost predicate Apart(log: seq<Commit>, added: seq<Commit>) {
    forall j, k | 0 <= j < |log| && 0 <= k < |added| :: IdOf(log[j].ev) != IdOf(added[k].ev)
  }

  /** The exception: the event is pending already, is no anchor, and has been enabled since
      without having been moved, so that it is logged and stays pending. */
  ghost predicate Again(g: State, e: Event) {
    IdOf(e) in g.pending && !IsAnchor(e) && Decide(Registered(g.hosts, e), g.pending, e) == Log
  }

  /** Every call that succeeds leaves nothing logged twice and nothing both logged and
      pending, exactly if it is not the exception. */
  lemma UniqueIff(g: State, caps: Caps, e: Event, ok: bool, g': State, out: Outcome, moved: seq<Commit>)
    requires Ok(g, caps) && Unique(g) && Offered(g, caps, e, ok, g', out, moved)
    ensures Unique(g') <==> !(ok && Again(g, e))
  {
    if ok && Again(g, e) {
      LoggedAgain(g, e, g', moved);
    } else if ok && (out == First || out == Log) {
      LoggedOnce(g, caps, e, g', out, moved);
    } else {
      NotLogged(g, caps, e, ok, g', out, moved);
    }
  }

  lemma LoggedAgain(g: State, e: Event, g': State, moved: seq<Commit>)
    requires Again(g, e) && g'.log == g.log + AllAdded(g, e, Outcome.Log, moved) && Moved(g.pending, moved, g'.pending)
    ensures !Unique(g')
  {
    var n := |g.log| + |Placeholders(g.hosts, e)|;
    assert g'.log[n].ev == e;
    if IdOf(e) in IdsOf(moved) {
      var i :| 0 <= i < |moved| && IdOf(moved[i].ev) == IdOf(e);
      assert g'.log[n + 1 + i] == moved[i];
    }
  }

  /** An event beyond what has been seen of its host is not in the log. */
  lemma UnseenIsNotLogged(g: State, caps: Caps, id: Id)
    requires Ok(g, caps) && (id.host in g.hosts ==> g.hosts[id.host].maxSeen < id.seqNo)
    ensures forall j | 0 <= j < |g.log| :: IdOf(g.log[j].ev) != id
    ensures id.host !in g.hosts ==> id !in g.pending
  {
  }

  lemma UniqueAppend(g: State, added: seq<Commit>, g': State)
    requires g'.log == g.log + added && DifferentIds(g.log) && DifferentIds(added) && Apart(g.log, added)
    requires NoneIn(g.log, g'.pending) && NoneIn(added, g'.pending)
    ensures Unique(g')
  {
    var log := g'.log;
    assert forall k | 0 <= k < |log| :: log[k] == if k < |g.log| then g.log[k] else added[k - |g.log|];
  }

  lemma LoggedOnce(g: State, caps: Caps, e: Event, g': State, out: Outcome, moved: seq<Commit>)
    requires Ok(g, caps) && Unique(g) && Offered(g, caps, e, true, g', out, moved)
    requires !Again(g, e) && (out == First || out == Log)
    ensures Unique(g')
  {
    var w := g.(pending := WithoutAnchor(g.pending, e));
    RemoveKeeps(g.hosts, g.pending, IdOf(e));
    NewRecords(w, caps, e, out, moved);
    var added := AllAdded(g, e, out, moved);
    AddedApart(g, caps, e, out, moved);
    AddedNotPending(g, caps, e, g', out, moved);
    UniqueAppend(g, added, g');
  }

  lemma AddedApart(g: State, caps: Caps, e: Event, out: Outcome, moved: seq<Commit>)
    requires Ok(g, caps) && NoneIn(g.log, g.pending) && out == Decide(Registered(g.hosts, e), g.pending, e)
    requires (out == First || out == Log) && FromPending(g.pending, moved)
    ensures Apart(g.log, AllAdded(g, e, out, moved))
  {
    UnseenIsNotLogged(g, caps, IdOf(e));
    forall k | 0 <= k < |AllAdded(g, e, out, moved)|
      ensures forall j | 0 <= j < |g.log| :: IdOf(g.log[j].ev) != IdOf(AllAdded(g, e, out, moved)[k].ev)
    {
      AddedRecord(g, e, out, moved, k);
    }
  }

  lemma AddedNotPending(g: State, caps: Caps, e: Event, g': State, out: Outcome, moved: seq<Commit>)
    requires Ok(g, caps) && !Again(g, e) && Offered(g, caps, e, true, g', out, moved) && (out == First || out == Log)
    ensures NoneIn(AllAdded(g, e, out, moved), g'.pending)
  {
    UnseenIsNotLogged(g, caps, IdOf(e));
    forall k | 0 <= k < |AllAdded(g, e, out, moved)|
      ensures IdOf(AllAdded(g, e, out, moved)[k].ev) !in g'.pending
    {
      AddedRecord(g, e, out, moved, k);
    }
  }

  lemma NotLogged(g: State, caps: Caps, e: Event, ok: bool, g': State, out: Outcome, moved: seq<Commit>)
    requires Ok(g, caps) && Unique(g) && Offered(g, caps, e, ok, g', out, moved)
    requires !ok || out == Skip || out == Pend
    ensures Unique(g')
  {
    var added := if g'.log == g.log then [] else Placeholders(g.hosts, e);
    if ok && out == Pend { UnseenIsNotLogged(g, caps, IdOf(e)); }
    assert g'.log == g.log + added;
    UniqueAppend(g, added, g');
  }

  /** What has been logged twice, or logged and left pending, is not undone by further calls. */
  lemma StaysDouble(g: State, caps: Caps, e: Event, ok: bool, g': State, out: Outcome, moved: seq<Commit>)
    requires Ok(g, caps) && !Unique(g) && Offered(g, caps, e, ok, g', out, moved)
    ensures !Unique(g')
  {
    assert g.log <= g'.log;
    if !DifferentIds(g.log) {
      var i, j :| 0 <= i < j < |g.log| && IdOf(g.log[i].ev) == IdOf(g.log[j].ev);
      assert g'.log[i] == g.log[i] && g'.log[j] == g.log[j];
    } else {
      var k :| 0 <= k < |g.log| && IdOf(g.log[k].ev) in g.pending;
      StaysLogged(g, caps, e, ok, g', out, moved, k);
    }
  }

  lemma StaysLogged(g: State, caps: Caps, e: Event, ok: bool, g': State, out: Outcome, moved: seq<Commit>, k: int)
    requires Ok(g, caps) && Offered(g, caps, e, ok, g', out, moved)
    requires 0 <= k < |g.log| && IdOf(g.log[k].ev) in g.pending
    ensures !Unique(g')
  {
    var id := IdOf(g.log[k].ev);
    assert g'.log[k] == g.log[k];
    if ok && out == Log && id in IdsOf(moved) {
      MovedTwice(g, e, moved, k);
    } else {
      SeenIsNotOffered(g, caps, e, out, k);
      assert id in g'.pending;
    }
  }

  lemma MovedTwice(g: State, e: Event, moved: seq<Commit>, k: int)
    requires 0 <= k < |g.log| && IdOf(g.log[k].ev) in IdsOf(moved)
    ensures !DifferentIds(g.log + AllAdded(g, e, Log, moved))
  {
    var i :| 0 <= i < |moved| && IdOf(moved[i].ev) == IdOf(g.log[k].ev);
    var log := g.log + AllAdded(g, e, Log, moved);
    assert log[|g.log| + |Placeholders(g.hosts, e)| + 1 + i] == moved[i] && log[k] == g.log[k];
  }

  /** An event that is in the log already would be skipped. */
  lemma SeenIsNotOffered(g: State, caps: Caps, e: Event, out: Outcome, k: int)
    requires Ok(g, caps) && 0 <= k < |g.log| && out == Decide(Registered(g.hosts, e), g.pending, e)
    ensures out == Log ==> IdOf(g.log[k].ev) != IdOf(e)
  {
  }
}
