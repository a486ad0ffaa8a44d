/**
 Trigger dispatch: appenders log TRIGGER events and post a semaphore; the forkers of a
 container claim them under the mutex of the namespace log.  A claim does not scan the
 whole log: it takes the head of a cache of triggers seen earlier or, if the cache is
 empty, scans back to the record at `last_checked`.
 */
module Dispatch {
  import opened EventLog
  import opened RingArithmetic

  // ---------- What a claim is to achieve ----------

  ghost predicate IsTrigger(hist: seq<Event>, q: int) {
    0 < q <= |hist| && hist[q - 1].kind == TRIGGER
  }

  ghost predicate Unclaimed(hist: seq<Event>, claims: seq<nat>, q: int) {
    IsTrigger(hist, q) && q !in claims
  }

  ghost predicate AnyUnclaimed(hist: seq<Event>, claims: seq<nat>) {
    exists q :: Unclaimed(hist, claims, q)
  }

  /** What a scan of the whole history would choose. */
  ghost predicate IsEarliest(hist: seq<Event>, claims: seq<nat>, q: int) {
    Unclaimed(hist, claims, q) && forall u | Unclaimed(hist, claims, u) :: q <= u
  }

  /** The FIRING record for the trigger in slot `index`. */
  function FiringEvent(nameId: nat, index: nat, seqNo: nat): Event {
    Event(TRIGGER_FIRING, nameId, seqNo, nameId, index, "", 0)
  }

  /** The log and the claims before and after a successful claim. */
  ghost predicate ClaimStep(hist: seq<Event>, claims: seq<nat>, hist': seq<Event>, claims': seq<nat>,
                            nameId: nat, size: nat)
    requires size >= 1
  {
    && |claims'| == |claims| + 1
    && var t := claims'[|claims|];
       && claims' == claims + [t]
       && IsEarliest(hist, claims, t)
       && hist' == hist + [Event(TRIGGER_FIRING, nameId, |hist| + 1, nameId, t % size, "", 0)]
  }

  /** The slots named by the FIRING records, oldest first. */
  ghost function FiredSlots(hist: seq<Event>): seq<nat> {
    FiredAmong(hist, |hist|)
  }

  /** The same, of the first n records. */
  ghost function FiredAmong(hist: seq<Event>, n: nat): seq<nat>
    requires n <= |hist|
  {
    if n == 0 then []
    else
      FiredAmong(hist, n - 1) + (if hist[n - 1].kind == TRIGGER_FIRING then [hist[n - 1].causeSeqNo] else [])
  }

  ghost function SlotsOf(claims: seq<nat>, size: nat): seq<nat>
    requires size >= 1
  {
    seq(|claims|, i requires 0 <= i < |claims| => claims[i] % size)
  }

  lemma FiredSlotsAppend(hist: seq<Event>, e: Event)
    ensures FiredSlots(hist + [e]) == FiredSlots(hist) + if e.kind == TRIGGER_FIRING then [e.causeSeqNo] else []
  {
    FiredAmongSame(hist, e, |hist|);
  }

  lemma {:induction false} FiredAmongSame(hist: seq<Event>, e: Event, n: nat)
    requires n <= |hist|
    ensures FiredAmong(hist + [e], n) == FiredAmong(hist, n)
  {
    if n > 0 { FiredAmongSame(hist, e, n - 1); }
  }

  lemma {:induction false} FiredSlotsHas(hist: seq<Event>, q: int, n: nat)
    requires 0 < q <= n <= |hist| && hist[q - 1].kind == TRIGGER_FIRING
    ensures hist[q - 1].causeSeqNo in FiredAmong(hist, n)
  {
    if q < n { FiredSlotsHas(hist, q, n - 1); }
  }

  /** All triggers up to `mark` and no later ones are claimed, in log order, and each
      claim is on record. */
  ghost predicate ClaimsUpTo(hist: seq<Event>, claims: seq<nat>, mark: nat, size: nat)
    requires size >= 1
  {
    && mark <= |hist|
    && (forall i | 0 <= i < |claims| :: IsTrigger(hist, claims[i]) && claims[i] <= mark)
    && (forall i, j | 0 <= i < j < |claims| :: claims[i] < claims[j])
    && (forall q | IsTrigger(hist, q) && q <= mark :: q in claims)
    && FiredSlots(hist) == SlotsOf(claims, size)
  }

  lemma IsClaimStep(hist: seq<Event>, claims: seq<nat>, t: nat, nameId: nat, size: nat)
    requires size >= 1 && IsEarliest(hist, claims, t)
    ensures ClaimStep(hist, claims, hist + [FiringEvent(nameId, t % size, |hist| + 1)], claims + [t], nameId, size)
  {
  }

  lemma LogOtherKeeps(hist: seq<Event>, claims: seq<nat>, mark: nat, size: nat, e: Event)
    requires size >= 1 && ClaimsUpTo(hist, claims, mark, size) && e.kind != TRIGGER_FIRING
    ensures ClaimsUpTo(hist + [e], claims, mark, size)
  {
    FiredSlotsAppend(hist, e);
    assert forall q | q <= |hist| :: IsTrigger(hist + [e], q) == IsTrigger(hist, q);
  }

  lemma ClaimKeeps(hist: seq<Event>, claims: seq<nat>, mark: nat, size: nat, t: nat, e: Event)
    requires size >= 1 && ClaimsUpTo(hist, claims, mark, size) && IsEarliest(hist, claims, t)
    requires e.kind == TRIGGER_FIRING && e.causeSeqNo == t % size
    ensures ClaimsUpTo(hist + [e], claims + [t], t, size) && mark < t
  {
    FiredSlotsAppend(hist, e);
    assert forall q :: IsTrigger(hist + [e], q) == IsTrigger(hist, q);
    assert forall q :: q in claims + [t] <==> q in claims || q == t;
    forall q | IsTrigger(hist + [e], q) && q <= t ensures q in claims + [t] {
      assert IsTrigger(hist, q);
      if q !in claims { assert Unclaimed(hist, claims, q); }
    }
    assert SlotsOf(claims + [t], size) == SlotsOf(claims, size) + [t % size];
  }

  /** A slot named by a FIRING record lies at or below `mark`, so it is never mistaken
      for the sequence number of a trigger beyond it. */
  lemma FiredSlotBelow(hist: seq<Event>, claims: seq<nat>, mark: nat, size: nat, q: int)
    requires size >= 1 && ClaimsUpTo(hist, claims, mark, size)
    requires 0 < q <= |hist| && hist[q - 1].kind == TRIGGER_FIRING
    ensures hist[q - 1].causeSeqNo <= mark
  {
    FiredSlotsHas(hist, q, |hist|);
    var i :| 0 <= i < |claims| && SlotsOf(claims, size)[i] == hist[q - 1].causeSeqNo;
    ModAtMost(claims[i], size);
    assert IsTrigger(hist, claims[i]);
  }

  ghost predicate IsMinimum(s: set<nat>, m: nat) {
    m in s && forall x | x in s :: m <= x
  }

  lemma {:induction false} MinimumExists(s: set<nat>) returns (m: nat)
    requires s != {}
    ensures IsMinimum(s, m)
  {
    var y :| y in s;
    m := y;
    var rest := s - {y};
    if rest != {} {
      var r := MinimumExists(rest);
      m := if r <= y then r else y;
    }
    forall x | x in s ensures m <= x {
      if x != y { assert x in rest; }
    }
  }

  // ---------- The claim section of WooFForker ----------

  class Container {
    const log: Log          // Name_log
    const nameId: nat
    var cache: map<nat, nat>  // TCache: sequence number of a trigger to its slot

    ghost var claims: seq<nat>  // triggers claimed, by sequence number
    ghost var mark: nat         // the record at last_checked
    ghost var scanned: nat      // how far triggers have been entered in the cache

    ghost predicate Valid()
      reads this, log, log.slots
    {
      && log.Valid() && log.Numbered()
      && ClaimsUpTo(log.hist, claims, mark, log.size)
      && (log.lastChecked == mark % log.size || (mark == 0 && log.lastChecked == -1))
      && mark <= scanned <= |log.hist|
      && CacheIs(log.hist, cache, mark, scanned, log.size)
    }

    /** Nothing that is still to be claimed has been overwritten. */
    ghost predicate InScope()
      reads this, log
    {
      |log.hist| - mark <= log.size - 1
    }

    constructor (nameId: nat, size: nat)
      requires size >= 1
      ensures Valid() && InScope() && log.hist == [] && claims == [] && mark == 0
      ensures fresh(log) && fresh(log.slots) && log.size == size && this.nameId == nameId
    {
      var l := new Log(nameId, size);
      log := l;
      this.nameId := nameId;
      cache := map[];
      claims, mark, scanned := [], 0, 0;
    }

    /** An appender's LogEvent on the namespace log. */
    method LogRecord(e: Event) returns (s: nat)
      requires Valid() && e.kind != TRIGGER_FIRING
      modifies log, log.slots
      ensures Valid() && log.hist == old(log.hist) + [e.(seqNo := s)] && s == |log.hist|
    {
      ghost var h := log.hist;
      s := log.LogEvent(e);
      LogOtherKeeps(h, claims, mark, log.size, log.hist[|h|]);
      CacheStable(h, log.hist[|h|], cache, mark, scanned, log.size);
    }

    /** The scan that fills an empty cache, back to a record `lo` where it stops.  `earliest` is
        a slot, or -1. */
    method ScanBack() returns (earliest: int, ghost lo: nat)
      requires Valid() && cache == map[]
      modifies this`cache
      ensures StopsAt(|log.hist|, log.lastChecked, log.size, lo)
      ensures Finds(log.hist, cache, lo, log.size) && FirstOf(cache, earliest, log.size)
    {
      ghost var n, size, hist := |log.hist|, log.size, log.hist;
      var curr := log.head;
      var evList: set<nat> := {};
      earliest := -1;
      ghost var q, oldest := n, n - RetainedOf(n, size);
      TailIsOldest(n, q, size);
      while curr != log.tail
        invariant oldest <= q <= n && curr == q % size
        invariant curr != log.tail <==> q > oldest
        invariant forall c: nat :: c in evList <==> NamedBeyond(hist, c, q)
        invariant Finds(hist, cache, q, size) && FirstOf(cache, earliest, size)
        invariant forall p | q <= p < n :: p % size != log.lastChecked
        decreases q
      {
        assert log.slots[curr] == hist[q - 1];
        evList, earliest, cache := Examine(log.slots[curr], curr, evList, earliest, cache, hist, q, log.size);
        q := q - 1;
        curr := StepBack(q, curr, log.size);
        TailIsOldest(n, q, size);
        if curr == log.lastChecked {
          break;
        }
      }
      lo := q;
    }

    /** The scan when something has been logged since last_checked.  It stops there exactly if
        nothing that is still to be claimed has been overwritten; in any case it misses exactly
        the unclaimed triggers up to where it stops. */
    method ScanUnchecked() returns (earliest: int, ghost lo: nat)
      requires Valid() && cache == map[] && (mark < |log.hist| || log.hist == [])
      modifies this`cache
      ensures mark <= lo <= |log.hist| && (lo == mark <==> InScope())
      ensures CacheIs(log.hist, cache, lo, |log.hist|, log.size) && FirstOf(cache, earliest, log.size)
      ensures forall t: nat | Unclaimed(log.hist, claims, t) :: t !in cache <==> t <= lo
    {
      earliest, lo := ScanBack();
      StopsAtMarkIff(|log.hist|, mark, log.lastChecked, log.size, lo);
      FindsUnclaimed(log.hist, claims, mark, cache, lo, log.size);
    }

    /** With nothing overwritten that is still to be claimed, the scan finds every unclaimed
        trigger. */
    method Scan() returns (earliest: int)
      requires Valid() && InScope() && cache == map[]
      requires mark < |log.hist| || log.hist == []
      modifies this`cache, this`scanned
      ensures Valid() && scanned == |log.hist|
      ensures FirstOf(cache, earliest, log.size)
    {
      ghost var lo;
      earliest, lo := ScanUnchecked();
      scanned := |log.hist|;
    }

    /** The scan in a case that Scan excludes: everything has been checked and nothing
        logged since, so that last_checked is the head and does not stop the scan.  It goes
        round the whole buffer and takes every trigger for unclaimed whose sequence number
        no later FIRING record holds, and that is every one beyond the first round. */
    method Rescan() returns (earliest: int)
      requires Valid() && cache == map[] && 0 < mark == |log.hist|
      modifies this`cache
      ensures forall t: nat :: t in cache <==>
                IsTrigger(log.hist, t) && |log.hist| - log.Retained() < t && !NamedAfter(log.hist, t)
      ensures forall t: nat | IsTrigger(log.hist, t) && |log.hist| - log.Retained() < t && log.size <= t ::
                t in claims && t in cache
    {
      ghost var lo;
      earliest, lo := ScanBack();
      HeadStopsNothing(|log.hist|, log.size, lo);
      forall t: nat | IsTrigger(log.hist, t) && lo < t && log.size <= t
        ensures t in claims && !NamedAfter(log.hist, t)
      {
        NeverNamed(log.hist, claims, mark, log.size, t);
      }
    }

    /** Trigger t is about to be claimed and no longer in the cache. */
    ghost predicate Chosen(t: nat)
      reads this, log, log.slots
    {
      && log.Valid() && log.Numbered() && InScope() && ClaimsUpTo(log.hist, claims, mark, log.size)
      && IsEarliest(log.hist, claims, t)
      && t <= scanned <= |log.hist| && CacheIs(log.hist, cache, t, scanned, log.size)
    }

    /** Choose the earliest unclaimed trigger t and take it out of the cache. */
    method Choose() returns (earliest: int, ghost t: nat)
      requires Valid() && InScope()
      requires AnyUnclaimed(log.hist, claims) || mark < |log.hist| || log.hist == []
      modifies this`cache, this`scanned
      ensures earliest == -1 ==> Valid() && scanned == |log.hist| && cache == map[]
      ensures earliest == -1 <==> !AnyUnclaimed(log.hist, claims)
      ensures earliest != -1 ==> Chosen(t) && earliest == t % log.size
    {
      if cache != map[] {
        var first := First(cache);
        earliest := cache[first];
      } else {
        if AnyUnclaimed(log.hist, claims) { UnclaimedBeyond(log.hist, claims, mark, log.size); }
        earliest := Scan();
      }
      if cache != map[] {
        var first := First(cache);
        FirstIsEarliest(log.hist, claims, mark, scanned, cache, log.size, first);
        cache := cache - {first};
        t := first;
      } else {
        NothingLeft(log.hist, claims, mark, scanned, cache, log.size);
        t := 0;
      }
    }

    /** The critical section of WooFForker: claim the earliest unclaimed trigger and put
        its slot on record.  A forker that finds nothing marks the log as checked; that
        must not happen twice with nothing logged in between. */
    method Claim() returns (claimed: int)
      requires Valid() && InScope()
      requires AnyUnclaimed(log.hist, claims) || mark < |log.hist| || log.hist == []
      modifies this, log, log.slots
      ensures Valid() && InScope()
      ensures claimed == -1 <==> !AnyUnclaimed(old(log.hist), old(claims))
      ensures claimed == -1 ==> log.hist == old(log.hist) && claims == old(claims)
      ensures claimed != -1 ==>
        && ClaimStep(old(log.hist), old(claims), log.hist, claims, nameId, log.size)
        && mark == claims[|claims| - 1]
        && claimed == mark % log.size
        && (|old(log.hist)| - old(mark) < log.size - 1 ==> log.slots[claimed] == log.hist[mark - 1])
    {
      var start := log.head;
      ghost var t;
      claimed, t := Choose();
      if claimed == -1 {
        RecordNothing(start);
      } else {
        RecordClaim(claimed, t);
      }
    }

    /** Remember that the log has been checked up to its head. */
    method RecordNothing(start: nat)
      requires Valid() && start == log.head && scanned == |log.hist| && cache == map[]
      modifies this`mark, log`lastChecked
      ensures Valid() && InScope()
    {
      NothingLeft(log.hist, claims, mark, scanned, cache, log.size);
      log.lastChecked := start;
      mark := |log.hist|;
    }

    /** Log the FIRING record and remember where the trigger is. */
    method RecordClaim(earliest: nat, ghost t: nat)
      requires Chosen(t) && earliest == t % log.size
      modifies this`claims, this`mark, log, log.slots
      ensures Valid() && InScope() && mark == t
      ensures ClaimStep(old(log.hist), old(claims), log.hist, claims, nameId, log.size)
      ensures mark == claims[|claims| - 1] && earliest == mark % log.size
      ensures |old(log.hist)| - old(mark) < log.size - 1 ==> log.slots[earliest] == log.hist[mark - 1]
    {
      ghost var hist, e := log.hist, FiringEvent(nameId, earliest, |log.hist| + 1);
      ClaimKeeps(hist, claims, mark, log.size, t, e);
      CacheStable(hist, e, cache, t, scanned, log.size);
      var s := log.LogEvent(FiringEvent(nameId, earliest, 0));
      assert log.hist == hist + [e];
      IsClaimStep(hist, claims, t, nameId, log.size);
      log.lastChecked := earliest;
      claims, mark := claims + [t], t;
    }
  }

  /** A FIRING record after event q holds the number c. */
  ghost predicate NamedBeyond(hist: seq<Event>, c: nat, q: int) {
    exists k :: 0 <= k < |hist| && q <= k && hist[k].kind == TRIGGER_FIRING && hist[k].causeSeqNo == c
  }

  ghost predicate NamedAfter(hist: seq<Event>, t: nat) {
    NamedBeyond(hist, t, t)
  }

  lemma NamedStep(hist: seq<Event>, q: int)
    requires 0 < q <= |hist|
    ensures forall c: nat :: NamedBeyond(hist, c, q - 1) <==>
              NamedBeyond(hist, c, q) || (hist[q - 1].kind == TRIGGER_FIRING && hist[q - 1].causeSeqNo == c)
  {
    var last := hist[q - 1];
    forall c: nat ensures NamedBeyond(hist, c, q - 1) <==>
                          NamedBeyond(hist, c, q) || (last.kind == TRIGGER_FIRING && last.causeSeqNo == c)
    {
      if last.kind == TRIGGER_FIRING && last.causeSeqNo == c { assert hist[q - 1] == last; }
    }
  }

  /** FIRING records hold slots, and no slot is as large as the buffer. */
  lemma NeverNamed(hist: seq<Event>, claims: seq<nat>, mark: nat, size: nat, t: nat)
    requires size >= 1 && ClaimsUpTo(hist, claims, mark, size) && IsTrigger(hist, t) && size <= t <= mark
    ensures t in claims && !NamedAfter(hist, t)
  {
    forall k | 0 <= k < |hist| && hist[k].kind == TRIGGER_FIRING ensures hist[k].causeSeqNo < size {
      FiredSlotsHas(hist, k + 1, |hist|);
      var i :| 0 <= i < |claims| && SlotsOf(claims, size)[i] == hist[k].causeSeqNo;
    }
  }

  // ---------- Where the scan stops ----------

  /** The scan stops at the last record but the newest in the slot last_checked, or at the
      oldest record that the buffer still has. */
  ghost predicate StopsAt(n: nat, lastChecked: int, size: nat, lo: nat)
    requires size >= 1
  {
    var oldest := n - RetainedOf(n, size);
    && oldest <= lo <= n && (oldest < n ==> lo < n)
    && (lo == oldest || lo % size == lastChecked)
    && forall p | lo < p < n :: p % size != lastChecked
  }

  lemma TailIsOldest(n: nat, q: nat, size: nat)
    requires size >= 1 && n - RetainedOf(n, size) <= q <= n
    ensures q > n - RetainedOf(n, size) ==> q % size != (n - RetainedOf(n, size)) % size
  {
    if q > n - RetainedOf(n, size) { ModDistinct(n - RetainedOf(n, size), q, size); }
  }

  /** The scan stops at the record at last_checked exactly if fewer records than the buffer has
      slots have been logged since; otherwise it stops too early. */
  lemma StopsAtMarkIff(n: nat, mark: nat, lastChecked: int, size: nat, lo: nat)
    requires size >= 1 && StopsAt(n, lastChecked, size, lo) && (mark < n || n == 0)
    requires mark <= n && (lastChecked == mark % size || (mark == 0 && lastChecked == -1))
    ensures lo == mark <==> n - mark <= size - 1
    ensures mark <= lo
  {
    if n - mark <= size - 1 && mark < lo { ModDistinct(mark, lo, size); }
  }

  lemma HeadStopsNothing(n: nat, size: nat, lo: nat)
    requires size >= 1 && n > 0 && StopsAt(n, n % size, size, lo)
    ensures lo == n - RetainedOf(n, size)
  {
    if lo != n - RetainedOf(n, size) { ModDistinct(lo, n, size); }
  }

  /** The cache holds the triggers after lo whose sequence number no later FIRING record
      holds, with their slots. */
  ghost predicate Finds(hist: seq<Event>, cache: map<nat, nat>, lo: nat, size: nat)
    requires size >= 1
  {
    && (forall t: nat :: t in cache <==> IsTrigger(hist, t) && lo < t && !NamedAfter(hist, t))
    && (forall t | t in cache :: cache[t] == t % size)
  }

  /** Of the unclaimed triggers, the scan misses exactly those up to where it stops. */
  lemma FindsUnclaimed(hist: seq<Event>, claims: seq<nat>, mark: nat, cache: map<nat, nat>, lo: nat, size: nat)
    requires size >= 1 && ClaimsUpTo(hist, claims, mark, size) && Finds(hist, cache, lo, size) && mark <= lo
    ensures CacheIs(hist, cache, lo, |hist|, size)
    ensures forall t: nat | Unclaimed(hist, claims, t) :: t !in cache <==> t <= lo
  {
    forall t: nat | IsTrigger(hist, t) && lo < t ensures !NamedAfter(hist, t) {
      forall k | 0 <= k < |hist| && hist[k].kind == TRIGGER_FIRING ensures hist[k].causeSeqNo != t {
        FiredSlotBelow(hist, claims, mark, size, k + 1);
      }
    }
  }

  /** RB_FIRST of the cache. */
  method First(cache: map<nat, nat>) returns (first: nat)
    requires cache != map[]
    ensures IsMinimum(cache.Keys, first)
  {
    ghost var m := MinimumExists(cache.Keys);
    first :| first in cache && forall k | k in cache :: first <= k;
  }

  /** The body of the scan, at event q. */
  method Examine(ev: Event, curr: nat, evList: set<nat>, earliest: int, cache: map<nat, nat>,
                 ghost hist: seq<Event>, ghost q: nat, ghost size: nat)
    returns (evList': set<nat>, earliest': int, cache': map<nat, nat>)
    requires size >= 1 && 0 < q <= |hist| && ev == hist[q - 1] && ev.seqNo == q && curr == q % size
    requires forall c: nat :: c in evList <==> NamedBeyond(hist, c, q)
    requires Finds(hist, cache, q, size) && FirstOf(cache, earliest, size)
    ensures forall c: nat :: c in evList' <==> NamedBeyond(hist, c, q - 1)
    ensures Finds(hist, cache', q - 1, size) && FirstOf(cache', earliest', size)
  {
    evList', earliest', cache' := evList, earliest, cache;
    NamedStep(hist, q);
    FindsStep(hist, cache, q, size);
    if ev.kind == TRIGGER_FIRING {
      evList' := evList + {ev.causeSeqNo};
    } else if ev.kind == TRIGGER {
      if ev.seqNo !in evList {
        earliest' := curr;
        if ev.seqNo !in cache {
          cache' := cache[ev.seqNo := curr];
        }
      }
    }
  }

  /** `earliest` is the slot of the first trigger in the cache, or -1. */
  ghost predicate FirstOf(cache: map<nat, nat>, earliest: int, size: nat)
    requires size >= 1
  {
    && (cache == map[] ==> earliest == -1)
    && forall m: nat | IsMinimum(cache.Keys, m) :: earliest == m % size
  }

  lemma FindsStep(hist: seq<Event>, cache: map<nat, nat>, q: nat, size: nat)
    requires size >= 1 && 0 < q <= |hist| && Finds(hist, cache, q, size)
    ensures q !in cache
    ensures !IsTrigger(hist, q) || NamedAfter(hist, q) ==> Finds(hist, cache, q - 1, size)
    ensures IsTrigger(hist, q) && !NamedAfter(hist, q) ==>
              Finds(hist, cache[q := q % size], q - 1, size) && FirstOf(cache[q := q % size], q % size, size)
  {
    var c := cache[q := q % size];
    assert q in c;
  }

  /** The cache holds exactly the triggers after lo and up to hi, with their slots. */
  ghost predicate CacheIs(hist: seq<Event>, cache: map<nat, nat>, lo: nat, hi: nat, size: nat)
    requires size >= 1
  {
    && (forall t: nat :: t in cache <==> IsTrigger(hist, t) && lo < t <= hi)
    && (forall t | t in cache :: cache[t] == t % size)
  }

  lemma CacheStable(hist: seq<Event>, e: Event, cache: map<nat, nat>, lo: nat, hi: nat, size: nat)
    requires size >= 1 && hi <= |hist| && CacheIs(hist, cache, lo, hi, size)
    ensures CacheIs(hist + [e], cache, lo, hi, size)
  {
    assert forall t: nat | t <= |hist| :: IsTrigger(hist + [e], t) == IsTrigger(hist, t);
  }

  lemma UnclaimedBeyond(hist: seq<Event>, claims: seq<nat>, mark: nat, size: nat)
    requires size >= 1 && ClaimsUpTo(hist, claims, mark, size) && AnyUnclaimed(hist, claims)
    ensures mark < |hist|
  {
    var q :| Unclaimed(hist, claims, q);
  }

  /** An empty cache after a scan: every trigger is claimed. */
  lemma NothingLeft(hist: seq<Event>, claims: seq<nat>, mark: nat, scanned: nat, cache: map<nat, nat>, size: nat)
    requires size >= 1 && ClaimsUpTo(hist, claims, mark, size)
    requires scanned == |hist| && CacheIs(hist, cache, mark, scanned, size) && cache == map[]
    ensures !AnyUnclaimed(hist, claims)
    ensures ClaimsUpTo(hist, claims, |hist|, size) && CacheIs(hist, cache, |hist|, |hist|, size)
  {
    forall q | IsTrigger(hist, q) ensures q in claims {
      assert q !in cache;
    }
  }

  /** The head of the cache is what a scan of the whole history would choose. */
  lemma FirstIsEarliest(hist: seq<Event>, claims: seq<nat>, mark: nat, scanned: nat,
                        cache: map<nat, nat>, size: nat, first: nat)
    requires size >= 1 && ClaimsUpTo(hist, claims, mark, size)
    requires mark <= scanned <= |hist| && CacheIs(hist, cache, mark, scanned, size)
    requires IsMinimum(cache.Keys, first)
    ensures IsEarliest(hist, claims, first) && AnyUnclaimed(hist, claims) && first <= scanned
    ensures FirstOf(cache, first % size, size) && cache[first] == first % size
    ensures CacheIs(hist, cache - {first}, first, scanned, size)
  {
    forall q | Unclaimed(hist, claims, q) ensures first <= q {
      if q <= scanned { assert q in cache; }
    }
    assert Unclaimed(hist, claims, first);
  }
}
