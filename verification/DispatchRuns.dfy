/**
 Runs of appenders and forkers.  An appender logs its TRIGGER under the log mutex and
 posts the semaphore afterwards; a forker waits on the semaphore and then claims under
 the mutex.  Other steps may come between any two of these.
 */
module DispatchRuns {
  import opened EventLog
  import opened Dispatch
  import opened Counting

  datatype Forker = Waiting | Awake | Busy

  /** `owners[i]` is the forker that made claim i; `posting` counts the appenders that
      have logged a trigger but not yet posted; `posted` counts all posts. */
  datatype State = State(
    hist: seq<Event>,
    claims: seq<nat>,
    owners: seq<nat>,
    permits: nat,
    posting: nat,
    posted: nat,
    forkers: seq<Forker>)

  datatype Config = Config(nameId: nat, size: nat, forkers: nat)

  datatype Step =
    | LogTrigger(e: Event)  // LogEvent of an append that names a handler
    | LogOther(e: Event)    // LogEvent of any other event
    | Post                  // V(&Name_log->tail_wait)
    | Wake(f: nat)          // P(&Name_log->tail_wait) returns
    | ClaimNext(f: nat)     // the critical section
    | Launched(f: nat)      // the rest of the forker's loop

  /** The record at last_checked. */
  ghost function LastClaim(claims: seq<nat>): nat {
    if claims == [] then 0 else claims[|claims| - 1]
  }

  /** There is room for one more record that is not a FIRING record. */
  ghost predicate Room(c: Config, s: State) {
    |s.hist| - LastClaim(s.claims) < c.size - 1
  }

  ghost predicate Init(c: Config, s: State) {
    s == State([], [], [], 0, 0, 0, seq(c.forkers, _ => Waiting))
  }

  ghost predicate Next(c: Config, s: State, st: Step, s': State)
    requires c.size >= 1
  {
    match st
    case LogTrigger(e) =>
      && e.kind == TRIGGER && Room(c, s)
      && s' == s.(hist := s.hist + [e.(seqNo := |s.hist| + 1)], posting := s.posting + 1)
    case LogOther(e) =>
      && e.kind != TRIGGER && e.kind != TRIGGER_FIRING && Room(c, s)
      && s' == s.(hist := s.hist + [e.(seqNo := |s.hist| + 1)])
    case Post =>
      && s.posting > 0
      && s' == s.(posting := s.posting - 1, posted := s.posted + 1, permits := s.permits + 1)
    case Wake(f) =>
      && f < |s.forkers| && s.forkers[f] == Waiting && s.permits > 0
      && s' == s.(permits := s.permits - 1, forkers := s.forkers[f := Awake])
    case ClaimNext(f) =>
      && f < |s.forkers| && s.forkers[f] == Awake
      && if AnyUnclaimed(s.hist, s.claims)
         then
           && ClaimStep(s.hist, s.claims, s'.hist, s'.claims, c.nameId, c.size)
           && s' == s.(hist := s'.hist, claims := s'.claims, owners := s.owners + [f],
                       forkers := s.forkers[f := Busy])
         else s' == s.(forkers := s.forkers[f := Waiting])
    case Launched(f) =>
      && f < |s.forkers| && s.forkers[f] == Busy
      && s' == s.(forkers := s.forkers[f := Waiting])
  }

  ghost predicate IsRun(c: Config, run: seq<State>, steps: seq<Step>)
    requires c.size >= 1
  {
    && |run| == |steps| + 1
    && Init(c, run[0])
    && forall k | 0 <= k < |steps| :: Next(c, run[k], steps[k], run[k + 1])
  }

  // ---------- Accounting ----------

  ghost function Triggers(hist: seq<Event>): set<nat> {
    set q: nat | 0 < q <= |hist| && IsTrigger(hist, q)
  }

  ghost predicate IsAwake(f: Forker) { f == Awake }

  lemma TriggersAppend(hist: seq<Event>, e: Event)
    ensures |Triggers(hist + [e])| == |Triggers(hist)| + if e.kind == TRIGGER then 1 else 0
  {
    var h := hist + [e];
    if e.kind == TRIGGER {
      assert Triggers(h) == Triggers(hist) + {|h|};
    } else {
      assert Triggers(h) == Triggers(hist);
    }
  }

  /** Every post is a permit, a forker on its way to a claim, or a claim; every trigger is
      posted or about to be. */
  ghost predicate Accounts(s: State) {
    && s.permits + Count(s.forkers, IsAwake) + |s.claims| == s.posted
    && s.posted + s.posting == |Triggers(s.hist)|
    && |s.owners| == |s.claims|
  }

  ghost predicate Inv(c: Config, s: State)
    requires c.size >= 1
  {
    && ClaimsUpTo(s.hist, s.claims, LastClaim(s.claims), c.size)
    && |s.hist| - LastClaim(s.claims) <= c.size - 1
    && Accounts(s)
  }

  lemma {:induction false} DistinctClaims(claims: seq<nat>)
    requires forall i, j | 0 <= i < j < |claims| :: claims[i] < claims[j]
    ensures |set i | 0 <= i < |claims| :: claims[i]| == |claims|
  {
    if claims != [] {
      var init := claims[..|claims| - 1];
      DistinctClaims(init);
      var a, b := set i | 0 <= i < |init| :: init[i], set i | 0 <= i < |claims| :: claims[i];
      assert b == a + {claims[|claims| - 1]};
    }
  }

  /** Fewer claims than triggers leave a trigger unclaimed, and as many leave none. */
  lemma ClaimsAgainstTriggers(c: Config, hist: seq<Event>, claims: seq<nat>, mark: nat)
    requires c.size >= 1 && ClaimsUpTo(hist, claims, mark, c.size)
    ensures |claims| <= |Triggers(hist)|
    ensures |claims| < |Triggers(hist)| <==> AnyUnclaimed(hist, claims)
  {
    var claimed := set i | 0 <= i < |claims| :: claims[i];
    DistinctClaims(claims);
    forall q | q in claimed ensures q in Triggers(hist) {
      var i :| 0 <= i < |claims| && claims[i] == q;
      assert IsTrigger(hist, claims[i]);
    }
    SubsetSize(claimed, Triggers(hist));
    if AnyUnclaimed(hist, claims) {
      var q :| Unclaimed(hist, claims, q);
      assert q in Triggers(hist) && q !in claimed;
    } else {
      forall q | q in Triggers(hist) ensures q in claimed {
        assert !Unclaimed(hist, claims, q);
      }
      assert claimed == Triggers(hist);
    }
  }

  /** A forker that has been woken finds a trigger: the branch for "no unclaimed found"
      is not taken. */
  lemma WokenFindsTrigger(c: Config, s: State, f: nat)
    requires c.size >= 1 && Inv(c, s) && f < |s.forkers| && s.forkers[f] == Awake
    ensures AnyUnclaimed(s.hist, s.claims)
  {
    CountPositive(s.forkers, IsAwake);
    assert IsAwake(s.forkers[f]);
    ClaimsAgainstTriggers(c, s.hist, s.claims, LastClaim(s.claims));
  }

  lemma StepInv(c: Config, s: State, st: Step, s': State)
    requires c.size >= 1 && Inv(c, s) && Next(c, s, st, s')
    ensures Inv(c, s')
  {
    var mark := LastClaim(s.claims);
    match st
    case LogTrigger(e) =>
      LogOtherKeeps(s.hist, s.claims, mark, c.size, e.(seqNo := |s.hist| + 1));
      TriggersAppend(s.hist, e.(seqNo := |s.hist| + 1));
    case LogOther(e) =>
      LogOtherKeeps(s.hist, s.claims, mark, c.size, e.(seqNo := |s.hist| + 1));
      TriggersAppend(s.hist, e.(seqNo := |s.hist| + 1));
    case Post =>
    case Wake(f) => CountUpdate(s.forkers, IsAwake, f, Awake);
    case ClaimNext(f) =>
      WokenFindsTrigger(c, s, f);
      CountUpdate(s.forkers, IsAwake, f, Busy);
      var t := s'.claims[|s.claims|];
      ClaimKeeps(s.hist, s.claims, mark, c.size, t, s'.hist[|s.hist|]);
      TriggersAppend(s.hist, s'.hist[|s.hist|]);
    case Launched(f) => CountUpdate(s.forkers, IsAwake, f, Waiting);
  }

  lemma {:induction false} RunInv(c: Config, run: seq<State>, steps: seq<Step>)
    requires c.size >= 1 && IsRun(c, run, steps)
    ensures Inv(c, run[|steps|])
  {
    if steps == [] {
      CountPositive(run[0].forkers, IsAwake);
      assert Triggers(run[0].hist) == {};
    } else {
      var k := |steps| - 1;
      RunInv(c, run[..|run| - 1], steps[..k]);
      StepInv(c, run[k], steps[k], run[k + 1]);
    }
  }

  // ---------- The results ----------

  /** In every run, however the ring wraps: triggers are claimed in log order, none twice,
      each claim has its FIRING record, and the semaphore account balances. */
  lemma ClaimedInOrder(c: Config, run: seq<State>, steps: seq<Step>)
    requires c.size >= 1 && IsRun(c, run, steps)
    ensures var s := run[|steps|];
      && (forall i | 0 <= i < |s.claims| :: IsTrigger(s.hist, s.claims[i]))
      && (forall i, j | 0 <= i < j < |s.claims| :: s.claims[i] < s.claims[j])
      && FiredSlots(s.hist) == SlotsOf(s.claims, c.size)
      && Accounts(s)
  {
    RunInv(c, run, steps);
  }

  /** In every run no forker goes back empty-handed. */
  lemma NeverSpurious(c: Config, run: seq<State>, steps: seq<Step>, k: nat)
    requires c.size >= 1 && IsRun(c, run, steps) && k < |steps| && steps[k].ClaimNext?
    ensures ClaimStep(run[k].hist, run[k].claims, run[k + 1].hist, run[k + 1].claims, c.nameId, c.size)
    ensures run[k + 1].owners == run[k].owners + [steps[k].f]
  {
    RunInv(c, run[..k + 1], steps[..k]);
    assert Next(c, run[k], steps[k], run[k + 1]);
    WokenFindsTrigger(c, run[k], steps[k].f);
  }

  /** When everything posted has been used up, every trigger has been claimed by exactly
      one forker. */
  lemma EveryTriggerClaimedOnce(c: Config, run: seq<State>, steps: seq<Step>, q: nat)
    requires c.size >= 1 && IsRun(c, run, steps)
    requires var s := run[|steps|];
      && s.permits == 0 && s.posting == 0 && (forall f | 0 <= f < |s.forkers| :: s.forkers[f] != Awake)
      && IsTrigger(s.hist, q)
    ensures var s := run[|steps|];
      && |s.owners| == |s.claims|
      && exists i :: 0 <= i < |s.claims| && s.claims[i] == q
                     && forall j | 0 <= j < |s.claims| && s.claims[j] == q :: j == i
  {
    var s := run[|steps|];
    RunInv(c, run, steps);
    CountPositive(s.forkers, IsAwake);
    ClaimsAgainstTriggers(c, s.hist, s.claims, LastClaim(s.claims));
    assert !Unclaimed(s.hist, s.claims, q);
    var i :| 0 <= i < |s.claims| && s.claims[i] == q;
  }

  // ---------- Progress ----------

  ghost predicate IsBusy(f: Forker) { f == Busy }

  /** How much is left to do: every post is still to be a permit, a woken forker, a busy one. */
  ghost function Work(s: State): nat {
    5 * s.posting + 4 * s.permits + 3 * Count(s.forkers, IsAwake) + Count(s.forkers, IsBusy)
  }

  ghost predicate IsSettled(s: State) {
    s.permits == 0 && s.posting == 0 && forall f | 0 <= f < |s.forkers| :: s.forkers[f] == Waiting
  }

  lemma ForkersChange(forkers: seq<Forker>, f: nat, to: Forker)
    requires f < |forkers|
    ensures var fs := forkers[f := to];
      && Count(fs, IsAwake) + (if forkers[f] == Awake then 1 else 0)
         == Count(forkers, IsAwake) + (if to == Awake then 1 else 0)
      && Count(fs, IsBusy) + (if forkers[f] == Busy then 1 else 0)
         == Count(forkers, IsBusy) + (if to == Busy then 1 else 0)
  {
    CountUpdate(forkers, IsAwake, f, to);
    CountUpdate(forkers, IsBusy, f, to);
  }

  /** There is an earliest unclaimed trigger whenever there is any. */
  lemma EarliestExists(hist: seq<Event>, claims: seq<nat>) returns (t: nat)
    requires AnyUnclaimed(hist, claims)
    ensures IsEarliest(hist, claims, t)
  {
    var q :| Unclaimed(hist, claims, q);
    var left := set x: nat | x <= |hist| && Unclaimed(hist, claims, x);
    assert q in left;
    t := MinimumExists(left);
    forall u | Unclaimed(hist, claims, u) ensures t <= u { assert u in left; }
  }

  /** A forker that has been woken can claim. */
  lemma CanClaim(c: Config, s: State, f: nat) returns (s': State)
    requires c.size >= 1 && Inv(c, s) && f < |s.forkers| && s.forkers[f] == Awake
    ensures Next(c, s, ClaimNext(f), s') && Work(s') < Work(s) && |s'.forkers| == |s.forkers|
    ensures Triggers(s'.hist) == Triggers(s.hist)
  {
    WokenFindsTrigger(c, s, f);
    var t := EarliestExists(s.hist, s.claims);
    var e := Event(TRIGGER_FIRING, c.nameId, |s.hist| + 1, c.nameId, t % c.size, "", 0);
    s' := s.(hist := s.hist + [e], claims := s.claims + [t], owners := s.owners + [f], forkers := s.forkers[f := Busy]);
    ForkersChange(s.forkers, f, Busy);
    assert forall q :: IsTrigger(s'.hist, q) == IsTrigger(s.hist, q);
  }

  /** As long as there is something to do, somebody can do it. */
  lemma SomethingToDo(c: Config, s: State) returns (st: Step, s': State)
    requires c.size >= 1 && Inv(c, s) && |s.forkers| > 0 && !IsSettled(s)
    ensures Next(c, s, st, s') && Work(s') < Work(s) && |s'.forkers| == |s.forkers|
    ensures Triggers(s'.hist) == Triggers(s.hist)
  {
    if s.posting > 0 {
      st, s' := Post, s.(posting := s.posting - 1, posted := s.posted + 1, permits := s.permits + 1);
    } else if f :| 0 <= f < |s.forkers| && s.forkers[f] == Awake {
      s' := CanClaim(c, s, f);
      st := ClaimNext(f);
    } else if f :| 0 <= f < |s.forkers| && s.forkers[f] == Busy {
      st, s' := Launched(f), s.(forkers := s.forkers[f := Waiting]);
      ForkersChange(s.forkers, f, Waiting);
    } else {
      assert s.forkers[0] == Waiting;
      st, s' := Wake(0), s.(permits := s.permits - 1, forkers := s.forkers[0 := Awake]);
      ForkersChange(s.forkers, 0, Awake);
    }
  }

  lemma OneMore(c: Config, run: seq<State>, steps: seq<Step>, st: Step, s': State)
    requires c.size >= 1 && IsRun(c, run, steps) && Next(c, run[|steps|], st, s')
    ensures IsRun(c, run + [s'], steps + [st])
  {
    var run', steps' := run + [s'], steps + [st];
    forall k | 0 <= k < |steps'| ensures Next(c, run'[k], steps'[k], run'[k + 1]) {
      if k < |steps| { assert Next(c, run[k], steps[k], run[k + 1]); }
    }
  }

  /** With at least one forker every run can be continued, without any further append, until
      nothing is left to do. */
  lemma {:induction false} Drain(c: Config, run: seq<State>, steps: seq<Step>)
    returns (run': seq<State>, steps': seq<Step>)
    requires c.size >= 1 && IsRun(c, run, steps) && |run[|steps|].forkers| > 0
    ensures IsRun(c, run', steps') && run <= run' && steps <= steps'
    ensures IsSettled(run'[|steps'|]) && Triggers(run'[|steps'|].hist) == Triggers(run[|steps|].hist)
    decreases Work(run[|steps|])
  {
    var s := run[|steps|];
    run', steps' := run, steps;
    if !IsSettled(s) {
      RunInv(c, run, steps);
      var st, s' := SomethingToDo(c, s);
      OneMore(c, run, steps, st, s');
      run', steps' := Drain(c, run + [s'], steps + [st]);
    }
  }

  /** Every trigger of every run can still be claimed. */
  lemma EveryTriggerCanBeClaimed(c: Config, run: seq<State>, steps: seq<Step>)
    returns (run': seq<State>, steps': seq<Step>)
    requires c.size >= 1 && IsRun(c, run, steps) && |run[|steps|].forkers| > 0
    ensures IsRun(c, run', steps') && run <= run' && steps <= steps'
    ensures forall q | IsTrigger(run[|steps|].hist, q) :: q in run'[|steps'|].claims
  {
    run', steps' := Drain(c, run, steps);
    var s, s' := run[|steps|], run'[|steps'|];
    forall q | IsTrigger(s.hist, q) ensures q in s'.claims {
      assert q in Triggers(s.hist);
      EveryTriggerClaimedOnce(c, run', steps', q);
    }
  }

  // ---------- Runs of the container ----------

  /** The trigger that is claimed is determined. */
  lemma ClaimIsDetermined(hist: seq<Event>, claims: seq<nat>, h1: seq<Event>, c1: seq<nat>,
                          h2: seq<Event>, c2: seq<nat>, nameId: nat, size: nat)
    requires size >= 1
    requires ClaimStep(hist, claims, h1, c1, nameId, size) && ClaimStep(hist, claims, h2, c2, nameId, size)
    ensures h1 == h2 && c1 == c2
  {
    assert Unclaimed(hist, claims, c1[|claims|]) && Unclaimed(hist, claims, c2[|claims|]);
  }

  /** The log and the claims of the container are those of the run. */
  ghost predicate Follows(c: Config, ct: Container, s: State)
    reads ct, ct.log, ct.log.slots
  {
    && ct.Valid() && ct.InScope() && ct.log.size == c.size && ct.nameId == c.nameId
    && ct.log.hist == s.hist && ct.claims == s.claims && ct.mark == LastClaim(s.claims)
  }

  /** Every run is a run of the container, with its cache and its cut-off: if appenders and
      forkers go through the steps of the run, the container logs and claims what the run
      says. */
  method Execute(c: Config, ghost run: seq<State>, steps: seq<Step>) returns (ct: Container)
    requires c.size >= 1 && IsRun(c, run, steps)
    ensures Follows(c, ct, run[|steps|])
  {
    ct := new Container(c.nameId, c.size);
    for k := 0 to |steps|
      invariant fresh(ct) && fresh(ct.log) && fresh(ct.log.slots) && Follows(c, ct, run[k])
    {
      assert Next(c, run[k], steps[k], run[k + 1]);
      Perform(c, ct, run[k], steps[k], run[k + 1], run[..k + 1], steps[..k]);
    }
  }

  /** One step, on the container. */
  method Perform(c: Config, ct: Container, ghost s: State, st: Step, ghost s': State,
                 ghost before: seq<State>, ghost steps: seq<Step>)
    requires c.size >= 1 && Follows(c, ct, s) && Next(c, s, st, s')
    requires IsRun(c, before, steps) && before[|steps|] == s
    modifies ct, ct.log, ct.log.slots
    ensures Follows(c, ct, s')
  {
    match st
    case LogTrigger(e) => var q := ct.LogRecord(e);
    case LogOther(e) => var q := ct.LogRecord(e);
    case ClaimNext(f) =>
      RunInv(c, before, steps);
      WokenFindsTrigger(c, s, f);
      var slot := ct.Claim();
      ClaimIsDetermined(s.hist, s.claims, ct.log.hist, ct.claims, s'.hist, s'.claims, c.nameId, c.size);
    case Post =>
    case Wake(f) =>
    case Launched(f) =>
  }

  // ---------- Overrunning the log ----------

  /** One more record, whether there is room for it or not, and the scan of the next forker.
      The scan goes back to the last claim exactly if there was room; in any case it misses
      exactly the unclaimed triggers up to the record where it stops. */
  method LogAndScan(c: Config, ct: Container, ghost s: State, e: Event) returns (earliest: int, ghost lo: nat)
    requires c.size >= 1 && Follows(c, ct, s) && ct.cache == map[] && e.kind != TRIGGER_FIRING
    modifies ct, ct.log, ct.log.slots
    ensures ct.log.hist == s.hist + [e.(seqNo := |s.hist| + 1)] && ct.claims == s.claims
    ensures forall t: nat | Unclaimed(ct.log.hist, s.claims, t) :: t !in ct.cache <==> t <= lo
    ensures LastClaim(s.claims) <= lo && (lo == LastClaim(s.claims) <==> Room(c, s))
  {
    var q := ct.LogRecord(e);
    earliest, lo := ct.ScanUnchecked();
  }

  /** The first record is a trigger, and the others are not. */
  ghost predicate OneTrigger(hist: seq<Event>) {
    hist != [] && hist[0].kind == TRIGGER && forall i | 1 <= i < |hist| :: hist[i].kind == READ
  }

  /** A trigger and as many other records as fill the buffer. */
  method Overrun(c: Config, e: Event, other: Event) returns (ct: Container)
    requires c.size >= 1 && e.kind == TRIGGER && other.kind == READ
    ensures fresh(ct) && fresh(ct.log) && fresh(ct.log.slots) && ct.Valid() && ct.log.size == c.size
    ensures |ct.log.hist| == c.size && OneTrigger(ct.log.hist) && ct.claims == [] && ct.mark == 0 && ct.cache == map[]
  {
    ct := new Container(c.nameId, c.size);
    var q := ct.LogRecord(e);
    for k := 1 to c.size
      invariant fresh(ct) && fresh(ct.log) && fresh(ct.log.slots) && ct.Valid() && ct.log.size == c.size
      invariant |ct.log.hist| == k && OneTrigger(ct.log.hist) && ct.claims == [] && ct.mark == 0 && ct.cache == map[]
    {
      q := ct.LogRecord(other);
    }
  }

  /** The scan of an overrun log finds nothing, and the trigger is not claimed. */
  method LoseTrigger(c: Config, e: Event, other: Event) returns (ct: Container, earliest: int)
    requires c.size >= 1 && e.kind == TRIGGER && other.kind == READ
    ensures ct.log.size == c.size == |ct.log.hist| && Unclaimed(ct.log.hist, ct.claims, 1)
    ensures earliest == -1 && ct.cache == map[]
  {
    ct := Overrun(c, e, other);
    ghost var lo;
    earliest, lo := ct.ScanUnchecked();
    NothingFound(ct.log.hist, ct.cache, lo, ct.log.size);
  }

  lemma NothingFound(hist: seq<Event>, cache: map<nat, nat>, lo: nat, size: nat)
    requires size >= 1 && OneTrigger(hist) && CacheIs(hist, cache, lo, |hist|, size) && lo >= 1
    ensures cache == map[] && IsTrigger(hist, 1)
  {
    assert forall t: nat | 1 < t :: !IsTrigger(hist, t);
    assert cache.Keys == {};
  }
}
