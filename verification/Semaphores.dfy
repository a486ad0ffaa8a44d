/**
 The futex semaphore.  Every atomic access to the value, every system call and every
 wake-up is a step of its own, so that a run is any interleaving of any number of P and
 V calls, with weak compare-and-swap failures and interrupted waits.
 */
module FutexSemaphore {
  import opened Counting

  const INT_MAX: int := 0x7fff_ffff
  const INT_MIN: int := -0x8000_0000

  /** 32-bit wrap-around. */
  function Wrap(x: int): int {
    if x > INT_MAX then x - 0x1_0000_0000 else if x < INT_MIN then x + 0x1_0000_0000 else x
  }

  datatype Phase =
    | Load          // P, about to load the value
    | Cas(cur: int) // P, about to compare and swap, cur > 0
    | Wait          // P, about to call futex_wait
    | Asleep        // P, in futex_wait
    | Acquired      // P has returned
    | Add           // V, about to increment
    | Undo          // V, has incremented INT_MAX and is about to undo that
    | WakeOne       // V, about to call futex_wake
    | Posted        // V has returned

  datatype State = State(value: int, threads: seq<Phase>)

  datatype Step =
    | CallP                        // a thread calls P
    | CallV                        // a thread calls V
    | Act(t: nat, fail: bool)      // thread t takes its step; `fail` is a weak CAS failure or EINTR
    | Wake(t: nat, sleeper: nat)   // the futex_wake of thread t finds a sleeper

  ghost predicate AnyAsleep(s: State) {
    exists t :: 0 <= t < |s.threads| && s.threads[t] == Asleep
  }

  function AfterLoad(cur: int): Phase {
    if cur > 0 then Cas(cur) else Wait
  }

  ghost predicate Enabled(s: State, st: Step) {
    match st
    case CallP => true
    case CallV => true
    case Act(t, fail) =>
      && t < |s.threads| && s.threads[t] != Acquired && s.threads[t] != Posted
      && (s.threads[t] == Asleep ==> fail)
      && (s.threads[t] == WakeOne ==> !AnyAsleep(s))
    case Wake(t, w) =>
      t < |s.threads| && w < |s.threads| && s.threads[t] == WakeOne && s.threads[w] == Asleep
  }

  ghost function Apply(s: State, st: Step): State
    requires Enabled(s, st)
  {
    match st
    case CallP => s.(threads := s.threads + [Load])
    case CallV => s.(threads := s.threads + [Add])
    case Wake(t, w) => s.(threads := s.threads[w := Load][t := Posted])
    case Act(t, fail) =>
      match s.threads[t]
      case Load => s.(threads := s.threads[t := AfterLoad(s.value)])
      case Cas(cur) =>
        if !fail && s.value == cur
        then State(s.value - 1, s.threads[t := Acquired])
        else s.(threads := s.threads[t := AfterLoad(s.value)])
      case Wait =>
        s.(threads := s.threads[t := if fail || s.value != 0 then Load else Asleep])
      case Asleep => s.(threads := s.threads[t := Load])
      case Add => State(Wrap(s.value + 1), s.threads[t := if s.value == INT_MAX then Undo else WakeOne])
      case Undo => State(Wrap(s.value - 1), s.threads[t := Posted])
      case WakeOne => s.(threads := s.threads[t := Posted])
      case Acquired => s
      case Posted => s
  }

  ghost predicate IsRun(init: nat, run: seq<State>) {
    && |run| > 0
    && run[0] == State(init, [])
    && forall k | 0 < k < |run| :: Next(run[k - 1], run[k])
  }

  ghost predicate Next(s: State, s': State) {
    exists st :: Enabled(s, st) && s' == Apply(s, st)
  }

  // ---------- What is counted ----------

  ghost predicate IsAcquired(p: Phase) { p == Acquired }

  ghost predicate IsUndoing(p: Phase) { p == Undo }

  ghost predicate HasAdded(p: Phase) { p == Undo || p == WakeOne || p == Posted }

  ghost predicate IsWaking(p: Phase) { p == WakeOne }

  ghost predicate IsV(p: Phase) { p == Add || p == Undo || p == WakeOne || p == Posted }

  ghost predicate IsContending(p: Phase) { p == Load || p.Cas? || p == Wait }

  ghost function Acquisitions(s: State): nat { Count(s.threads, IsAcquired) }

  ghost function CallsOfV(s: State): nat { Count(s.threads, IsV) }

  ghost function Undoing(s: State): nat { Count(s.threads, IsUndoing) }

  ghost function PendingWakes(s: State): nat { Count(s.threads, IsWaking) }

  ghost function Contenders(s: State): nat { Count(s.threads, IsContending) }

  /** How many threads are in which phases. */
  datatype Tally = Tally(acquired: int, undoing: int, added: int, waking: int, contending: int, calls: int)

  ghost function TallyOf(threads: seq<Phase>): Tally {
    Tally(Count(threads, IsAcquired), Count(threads, IsUndoing), Count(threads, HasAdded),
          Count(threads, IsWaking), Count(threads, IsContending), Count(threads, IsV))
  }

  ghost function Bit(b: bool): int { if b then 1 else 0 }

  /** One thread more in phase p. */
  ghost function Plus(k: Tally, p: Phase): Tally {
    Tally(k.acquired + Bit(IsAcquired(p)), k.undoing + Bit(IsUndoing(p)), k.added + Bit(HasAdded(p)),
          k.waking + Bit(IsWaking(p)), k.contending + Bit(IsContending(p)), k.calls + Bit(IsV(p)))
  }

  lemma TallyAppend(threads: seq<Phase>, p: Phase)
    ensures TallyOf(threads + [p]) == Plus(TallyOf(threads), p)
  {
    CountAppend(threads, IsAcquired, p);
    CountAppend(threads, IsUndoing, p);
    CountAppend(threads, HasAdded, p);
    CountAppend(threads, IsWaking, p);
    CountAppend(threads, IsContending, p);
    CountAppend(threads, IsV, p);
  }

  /** The count of one set of phases after a thread has gone from phase p to phase p'. */
  ghost predicate CountMoved(c: int, c': int, p: bool, p': bool) {
    c' + Bit(p) == c + Bit(p')
  }

  lemma CountsOfV(threads: seq<Phase>, t: nat, p: Phase)
    requires t < |threads|
    ensures CountMoved(Count(threads, IsUndoing), Count(threads[t := p], IsUndoing),
                       IsUndoing(threads[t]), IsUndoing(p))
    ensures CountMoved(Count(threads, HasAdded), Count(threads[t := p], HasAdded), HasAdded(threads[t]), HasAdded(p))
    ensures CountMoved(Count(threads, IsV), Count(threads[t := p], IsV), IsV(threads[t]), IsV(p))
  {
    CountUpdate(threads, IsUndoing, t, p);
    CountUpdate(threads, HasAdded, t, p);
    CountUpdate(threads, IsV, t, p);
  }

  lemma CountsOfP(threads: seq<Phase>, t: nat, p: Phase)
    requires t < |threads|
    ensures CountMoved(Count(threads, IsAcquired), Count(threads[t := p], IsAcquired),
                       IsAcquired(threads[t]), IsAcquired(p))
    ensures CountMoved(Count(threads, IsWaking), Count(threads[t := p], IsWaking), IsWaking(threads[t]), IsWaking(p))
    ensures CountMoved(Count(threads, IsContending), Count(threads[t := p], IsContending),
                       IsContending(threads[t]), IsContending(p))
  {
    CountUpdate(threads, IsAcquired, t, p);
    CountUpdate(threads, IsWaking, t, p);
    CountUpdate(threads, IsContending, t, p);
  }

  /** The counts after one thread has gone from phase p to phase p'. */
  ghost predicate Moved(k: Tally, p: Phase, k': Tally, p': Phase) {
    && CountMoved(k.acquired, k'.acquired, IsAcquired(p), IsAcquired(p'))
    && CountMoved(k.undoing, k'.undoing, IsUndoing(p), IsUndoing(p'))
    && CountMoved(k.added, k'.added, HasAdded(p), HasAdded(p'))
    && CountMoved(k.waking, k'.waking, IsWaking(p), IsWaking(p'))
    && CountMoved(k.contending, k'.contending, IsContending(p), IsContending(p'))
    && CountMoved(k.calls, k'.calls, IsV(p), IsV(p'))
  }

  lemma TallyUpdate(threads: seq<Phase>, t: nat, p: Phase)
    requires t < |threads|
    ensures Moved(TallyOf(threads), threads[t], TallyOf(threads[t := p]), p)
  {
    CountsOfV(threads, t, p);
    CountsOfP(threads, t, p);
  }

  /** Whoever has added has called V. */
  lemma {:induction false} AddedHaveCalled(threads: seq<Phase>)
    ensures Count(threads, HasAdded) <= Count(threads, IsV)
  {
    if threads != [] { AddedHaveCalled(threads[..|threads| - 1]); }
  }

  // ---------- The invariant ----------

  const TWO_31: int := 0x8000_0000
  const TWO_32: int := 0x1_0000_0000

  /** n is the true number of permits, of which `value` has the last 32 bits.  Every V that is
      about to undo an increment has found INT_MAX there, and so has taken n to another odd
      multiple of 2^31. */
  ghost predicate Permits(init: nat, value: int, n: int, k: Tally) {
    && INT_MIN <= value <= INT_MAX && (n - value) % TWO_32 == 0
    && k.undoing * TWO_31 <= n <= init + k.added - k.acquired
    && (init + k.calls <= INT_MAX ==> n == init + k.added - k.acquired)
  }

  /** Up to 2^32 permits a sleeper means that everyone who could take them is under way. */
  ghost predicate Wakes(init: nat, n: int, k: Tally) {
    init + k.calls < TWO_32 ==> n <= k.waking + k.contending + k.undoing
  }

  ghost predicate PhaseOk(p: Phase) {
    p.Cas? ==> p.cur > 0
  }

  ghost predicate Inv(init: nat, s: State, n: int) {
    && Permits(init, s.value, n, TallyOf(s.threads))
    && (forall t | 0 <= t < |s.threads| :: PhaseOk(s.threads[t]))
    && (AnyAsleep(s) ==> Wakes(init, n, TallyOf(s.threads)))
  }

  lemma CallInv(init: nat, s: State, n: int, p: Phase)
    requires Inv(init, s, n) && (p == Load || p == Add)
    ensures Inv(init, s.(threads := s.threads + [p]), n)
  {
    TallyAppend(s.threads, p);
    var s' := s.(threads := s.threads + [p]);
    if AnyAsleep(s') {
      var t :| 0 <= t < |s'.threads| && s'.threads[t] == Asleep;
      assert s.threads[t] == Asleep;
    }
  }

  lemma WakeInv(init: nat, s: State, n: int, t: nat, w: nat)
    requires Inv(init, s, n) && Enabled(s, Wake(t, w))
    ensures Inv(init, Apply(s, Wake(t, w)), n)
  {
    TallyUpdate(s.threads, w, Load);
    TallyUpdate(s.threads[w := Load], t, Posted);
  }

  /** The true number of permits after a step of a thread. */
  ghost function PermitsAfter(s: State, t: nat, fail: bool, n: int): int
    requires t < |s.threads|
  {
    match s.threads[t]
    case Add => n + 1
    case Undo => n - 1
    case Cas(cur) => if !fail && s.value == cur then n - 1 else n
    case _ => n
  }

  /** An increment that finds INT_MAX reaches the next odd multiple of 2^31. */
  lemma AddPermit(value: int, n: int, undoing: nat)
    requires INT_MIN <= value <= INT_MAX && (n - value) % TWO_32 == 0 && undoing * TWO_31 <= n
    ensures (n + 1 - Wrap(value + 1)) % TWO_32 == 0
    ensures value == INT_MAX ==> (undoing + 1) * TWO_31 <= n + 1
  {
  }

  /** A permit that is taken was not one of those that are about to be undone. */
  lemma TakePermit(value: int, n: int, undoing: nat)
    requires 0 < value <= INT_MAX && (n - value) % TWO_32 == 0 && undoing * TWO_31 <= n
    ensures undoing * TWO_31 <= n - 1
  {
  }

  lemma AddPermits(init: nat, value: int, n: int, k: Tally, k': Tally)
    requires Permits(init, value, n, k) && TallyOk(k) && TallyOk(k')
    requires Moved(k, Add, k', if value == INT_MAX then Undo else WakeOne)
    ensures Permits(init, Wrap(value + 1), n + 1, k')
  {
    AddPermit(value, n, k.undoing);
  }

  lemma UndoPermits(init: nat, value: int, n: int, k: Tally, k': Tally)
    requires Permits(init, value, n, k) && TallyOk(k) && 1 <= k.undoing
    requires Moved(k, Undo, k', Posted)
    ensures Permits(init, Wrap(value - 1), n - 1, k')
  {
  }

  lemma CasPermits(init: nat, value: int, n: int, k: Tally, p: Phase, k': Tally)
    requires Permits(init, value, n, k) && TallyOk(k) && value > 0 && p.Cas? && Moved(k, p, k', Acquired)
    ensures Permits(init, value - 1, n - 1, k')
  {
    TakePermit(value, n, k.undoing);
  }

  lemma OtherPermits(init: nat, value: int, n: int, k: Tally, p: Phase, k': Tally, p': Phase)
    requires Permits(init, value, n, k) && Moved(k, p, k', p') && IsV(p) == IsV(p')
    requires IsAcquired(p) == IsAcquired(p') && IsUndoing(p) == IsUndoing(p') && HasAdded(p) == HasAdded(p')
    ensures Permits(init, value, n, k')
  {
  }

  ghost predicate TallyOk(k: Tally) {
    0 <= k.acquired && 0 <= k.undoing && k.added <= k.calls
  }

  lemma MovedBy(threads: seq<Phase>, t: nat, p: Phase, threads': seq<Phase>)
    requires t < |threads| && threads' == threads[t := p]
    ensures Moved(TallyOf(threads), threads[t], TallyOf(threads'), p)
    ensures TallyOk(TallyOf(threads)) && TallyOk(TallyOf(threads'))
  {
    TallyUpdate(threads, t, p);
    AddedHaveCalled(threads);
    AddedHaveCalled(threads');
  }

  lemma AddAct(init: nat, value: int, n: int, threads: seq<Phase>, t: nat)
    requires t < |threads| && threads[t] == Add && Permits(init, value, n, TallyOf(threads))
    ensures Permits(init, Wrap(value + 1), n + 1,
                    TallyOf(threads[t := if value == INT_MAX then Undo else WakeOne]))
  {
    var p := if value == INT_MAX then Undo else WakeOne;
    MovedBy(threads, t, p, threads[t := p]);
    AddPermits(init, value, n, TallyOf(threads), TallyOf(threads[t := p]));
  }

  lemma UndoAct(init: nat, value: int, n: int, threads: seq<Phase>, t: nat)
    requires t < |threads| && threads[t] == Undo && Permits(init, value, n, TallyOf(threads))
    ensures Permits(init, Wrap(value - 1), n - 1, TallyOf(threads[t := Posted]))
  {
    MovedBy(threads, t, Posted, threads[t := Posted]);
    CountPositive(threads, IsUndoing);
    UndoPermits(init, value, n, TallyOf(threads), TallyOf(threads[t := Posted]));
  }

  lemma CasAct(init: nat, value: int, n: int, threads: seq<Phase>, t: nat)
    requires t < |threads| && threads[t].Cas? && value > 0 && Permits(init, value, n, TallyOf(threads))
    ensures Permits(init, value - 1, n - 1, TallyOf(threads[t := Acquired]))
  {
    MovedBy(threads, t, Acquired, threads[t := Acquired]);
    CasPermits(init, value, n, TallyOf(threads), threads[t], TallyOf(threads[t := Acquired]));
  }

  lemma OtherAct(init: nat, value: int, n: int, threads: seq<Phase>, t: nat, p: Phase)
    requires t < |threads| && Permits(init, value, n, TallyOf(threads)) && IsV(threads[t]) == IsV(p)
    requires IsAcquired(threads[t]) == IsAcquired(p) && IsUndoing(threads[t]) == IsUndoing(p)
    requires HasAdded(threads[t]) == HasAdded(p)
    ensures Permits(init, value, n, TallyOf(threads[t := p]))
  {
    MovedBy(threads, t, p, threads[t := p]);
    OtherPermits(init, value, n, TallyOf(threads), threads[t], TallyOf(threads[t := p]), p);
  }

  lemma ActPermits(init: nat, s: State, n: int, t: nat, fail: bool)
    requires Enabled(s, Act(t, fail)) && PhaseOk(s.threads[t]) && Permits(init, s.value, n, TallyOf(s.threads))
    ensures var s' := Apply(s, Act(t, fail));
      Permits(init, s'.value, PermitsAfter(s, t, fail, n), TallyOf(s'.threads))
  {
    if s.threads[t] == Add {
      AddAct(init, s.value, n, s.threads, t);
    } else if s.threads[t] == Undo {
      UndoAct(init, s.value, n, s.threads, t);
    } else {
      WaiterPermits(init, s, n, t, fail);
    }
  }

  lemma WaiterPermits(init: nat, s: State, n: int, t: nat, fail: bool)
    requires Enabled(s, Act(t, fail)) && PhaseOk(s.threads[t]) && Permits(init, s.value, n, TallyOf(s.threads))
    requires s.threads[t] != Add && s.threads[t] != Undo
    ensures var s' := Apply(s, Act(t, fail));
      Permits(init, s'.value, PermitsAfter(s, t, fail, n), TallyOf(s'.threads))
  {
    if s.threads[t].Cas? && !fail && s.value == s.threads[t].cur {
      CasAct(init, s.value, n, s.threads, t);
    } else {
      OtherAct(init, s.value, n, s.threads, t, Apply(s, Act(t, fail)).threads[t]);
    }
  }

  lemma ActWakes(init: nat, s: State, n: int, t: nat, fail: bool)
    requires Inv(init, s, n) && Enabled(s, Act(t, fail)) && AnyAsleep(Apply(s, Act(t, fail)))
    ensures Wakes(init, PermitsAfter(s, t, fail, n), TallyOf(Apply(s, Act(t, fail)).threads))
  {
    var s' := Apply(s, Act(t, fail));
    assert s'.threads == s.threads[t := s'.threads[t]];
    TallyUpdate(s.threads, t, s'.threads[t]);
    AddedHaveCalled(s.threads);
    if s'.threads[t] != Asleep {
      var w :| 0 <= w < |s'.threads| && s'.threads[w] == Asleep;
      assert s.threads[w] == Asleep;
    }
  }

  lemma ActInv(init: nat, s: State, n: int, t: nat, fail: bool)
    requires Inv(init, s, n) && Enabled(s, Act(t, fail))
    ensures Inv(init, Apply(s, Act(t, fail)), PermitsAfter(s, t, fail, n))
  {
    assert PhaseOk(s.threads[t]);
    ActPermits(init, s, n, t, fail);
    if AnyAsleep(Apply(s, Act(t, fail))) { ActWakes(init, s, n, t, fail); }
  }

  lemma StepInv(init: nat, s: State, n: int, st: Step) returns (n': int)
    requires Inv(init, s, n) && Enabled(s, st)
    ensures Inv(init, Apply(s, st), n')
  {
    n' := n;
    match st
    case CallP => CallInv(init, s, n, Load);
    case CallV => CallInv(init, s, n, Add);
    case Act(t, fail) =>
      ActInv(init, s, n, t, fail);
      n' := PermitsAfter(s, t, fail, n);
    case Wake(t, w) => WakeInv(init, s, n, t, w);
  }

  lemma StartInv(init: nat)
    requires init <= INT_MAX
    ensures Inv(init, State(init, []), init)
  {
  }

  /** In every run there is a true number of permits. */
  lemma {:induction false} RunInv(init: nat, run: seq<State>) returns (n: int)
    requires IsRun(init, run) && init <= INT_MAX
    ensures Inv(init, run[|run| - 1], n)
  {
    if |run| == 1 {
      StartInv(init);
      n := init;
    } else {
      var s, before := run[|run| - 2], run[..|run| - 1];
      n := RunInv(init, before);
      assert Next(s, run[|run| - 1]);
      var st :| Enabled(s, st) && run[|run| - 1] == Apply(s, st);
      n := StepInv(init, s, n, st);
    }
  }

  // ---------- The results ----------

  /** Safety, in every run: no more P calls have returned than there were permits, even if
      calls of V overflow. */
  lemma AtMostPermits(init: nat, run: seq<State>)
    requires IsRun(init, run) && init <= INT_MAX
    ensures Acquisitions(run[|run| - 1]) <= init + CallsOfV(run[|run| - 1])
  {
    var n := RunInv(init, run);
    AddedHaveCalled(run[|run| - 1].threads);
  }

  /** Up to INT_MAX permits, the value is what is left of them, and no V undoes anything. */
  lemma ValueIsPermits(init: nat, run: seq<State>)
    requires IsRun(init, run) && init + CallsOfV(run[|run| - 1]) <= INT_MAX
    ensures var s := run[|run| - 1];
      0 <= s.value == init + Count(s.threads, HasAdded) - Acquisitions(s) && Undoing(s) == 0
  {
    var n := RunInv(init, run);
    AddedHaveCalled(run[|run| - 1].threads);
  }

  /** Nobody is under way. */
  ghost predicate Settled(s: State) {
    forall t | 0 <= t < |s.threads| :: s.threads[t] in {Acquired, Posted, Asleep}
  }

  /** No lost wake-up: with less than 2^32 permits a thread sleeps while there is a permit only
      if someone is still on the way to take it, to undo it or to wake a sleeper; so when nobody
      is, there is no permit. */
  lemma NoLostWakeup(init: nat, run: seq<State>)
    requires IsRun(init, run) && init <= INT_MAX && init + CallsOfV(run[|run| - 1]) < TWO_32
    ensures var s := run[|run| - 1];
      AnyAsleep(s) ==>
        && s.value <= PendingWakes(s) + Contenders(s) + Undoing(s)
        && (Settled(s) ==> s.value == 0)
  {
    var n := RunInv(init, run);
    var s := run[|run| - 1];
    AddedHaveCalled(s.threads);
    CountPositive(s.threads, IsWaking);
    CountPositive(s.threads, IsContending);
    CountPositive(s.threads, IsUndoing);
  }

  // ---------- Permits are taken ----------

  lemma Extend(init: nat, run: seq<State>, st: Step) returns (longer: seq<State>)
    requires IsRun(init, run) && Enabled(run[|run| - 1], st)
    ensures longer == run + [Apply(run[|run| - 1], st)] && IsRun(init, longer)
  {
    var s := run[|run| - 1];
    longer := run + [Apply(s, st)];
    assert Next(s, Apply(s, st));
    forall k | 0 < k < |longer| ensures Next(longer[k - 1], longer[k]) {
      if k < |run| { assert Next(run[k - 1], run[k]); }
    }
  }

  /** A step that thread t takes and in which nothing fails. */
  ghost predicate ByThread(s: State, s': State, t: nat) {
    Enabled(s, Act(t, false)) && s' == Apply(s, Act(t, false))
  }

  /** The run goes on from its first n states with steps of thread t alone. */
  ghost predicate Alone(run: seq<State>, n: nat, t: nat) {
    n > 0 && forall k | n <= k < |run| :: ByThread(run[k - 1], run[k], t)
  }

  lemma OneStep(init: nat, run: seq<State>, n: nat, t: nat) returns (longer: seq<State>)
    requires IsRun(init, run) && Alone(run, n, t) && n <= |run| && Enabled(run[|run| - 1], Act(t, false))
    ensures longer == run + [Apply(run[|run| - 1], Act(t, false))] && IsRun(init, longer) && Alone(longer, n, t)
  {
    longer := Extend(init, run, Act(t, false));
    forall k | n <= k < |longer| ensures ByThread(longer[k - 1], longer[k], t) {
      if k < |run| { assert ByThread(run[k - 1], run[k], t); }
    }
  }

  /** Progress: while there is a permit, every P that is neither asleep nor done takes it in at
      most three steps of its own, if it is not disturbed. */
  lemma PermitIsTaken(init: nat, run: seq<State>, t: nat) returns (longer: seq<State>)
    requires IsRun(init, run) && t < |run[|run| - 1].threads| && run[|run| - 1].value > 0
    requires run[|run| - 1].threads[t] == Load || run[|run| - 1].threads[t].Cas? || run[|run| - 1].threads[t] == Wait
    ensures IsRun(init, longer) && run <= longer && |longer| <= |run| + 3 && Alone(longer, |run|, t)
    ensures var s, s' := run[|run| - 1], longer[|longer| - 1];
      s'.value == s.value - 1 && s'.threads == s.threads[t := Acquired]
  {
    var s := run[|run| - 1];
    longer := run;
    if s.threads[t] == Wait { longer := OneStep(init, longer, |run|, t); }
    if s.threads[t] != Cas(s.value) { longer := OneStep(init, longer, |run|, t); }
    longer := OneStep(init, longer, |run|, t);
  }

  /** A V comes to its end in at most two steps of its own, if it is not disturbed and nobody
      sleeps, and leaves one permit more. */
  lemma PermitIsPosted(init: nat, run: seq<State>, t: nat) returns (longer: seq<State>)
    requires IsRun(init, run) && t < |run[|run| - 1].threads| && run[|run| - 1].threads[t] == Add
    requires init <= INT_MAX && run[|run| - 1].value < INT_MAX && !AnyAsleep(run[|run| - 1])
    ensures IsRun(init, longer) && run <= longer && |longer| <= |run| + 2 && Alone(longer, |run|, t)
    ensures var s, s' := run[|run| - 1], longer[|longer| - 1];
      s'.value == s.value + 1 && s'.threads == s.threads[t := Posted]
  {
    var n := RunInv(init, run);
    longer := OneStep(init, run, |run|, t);
    var s, s' := run[|run| - 1], longer[|longer| - 1];
    assert !AnyAsleep(s') by { assert forall u | 0 <= u < |s.threads| :: s.threads[u] != Asleep; }
    longer := OneStep(init, longer, |run|, t);
  }

  /** A V that is about to wake a sleeper makes it try again. */
  lemma SleeperIsWoken(init: nat, run: seq<State>, t: nat) returns (longer: seq<State>, w: nat)
    requires IsRun(init, run) && t < |run[|run| - 1].threads| && run[|run| - 1].threads[t] == WakeOne
    requires AnyAsleep(run[|run| - 1])
    ensures w < |run[|run| - 1].threads| && run[|run| - 1].threads[w] == Asleep
    ensures longer == run + [run[|run| - 1].(threads := run[|run| - 1].threads[w := Load][t := Posted])]
    ensures IsRun(init, longer)
  {
    w :| 0 <= w < |run[|run| - 1].threads| && run[|run| - 1].threads[w] == Asleep;
    longer := Extend(init, run, Wake(t, w));
  }

  /** Whoever has not returned and does not sleep has a step to take, and a V that has added its
      permit, or is undoing that, returns with it. */
  lemma NobodyIsStuck(s: State, t: nat)
    requires t < |s.threads| && s.threads[t] !in {Acquired, Posted, Asleep}
    ensures Enabled(s, Act(t, false)) || exists w :: Enabled(s, Wake(t, w))
    ensures s.threads[t] in {Undo, WakeOne} && Enabled(s, Act(t, false)) ==>
              Apply(s, Act(t, false)).threads == s.threads[t := Posted]
  {
    if s.threads[t] == WakeOne && AnyAsleep(s) {
      var w :| 0 <= w < |s.threads| && s.threads[w] == Asleep;
      assert Enabled(s, Wake(t, w));
    }
  }

  /** Calls of P, one after the other, while there are permits. */
  lemma {:induction false} TakeInTurn(init: nat, before: seq<State>, n: nat) returns (run: seq<State>)
    requires IsRun(init, before) && before[|before| - 1].value >= n
    ensures IsRun(init, run) && run[|run| - 1].value == before[|before| - 1].value - n
    ensures CallsOfV(run[|run| - 1]) == CallsOfV(before[|before| - 1])
    ensures Acquisitions(run[|run| - 1]) == Acquisitions(before[|before| - 1]) + n
  {
    if n == 0 {
      run := before;
    } else {
      var shorter := TakeInTurn(init, before, n - 1);
      run := TakeOne(init, shorter);
      CountAppend(shorter[|shorter| - 1].threads, IsV, Acquired);
      CountAppend(shorter[|shorter| - 1].threads, IsAcquired, Acquired);
    }
  }

  lemma TakeOne(init: nat, before: seq<State>) returns (run: seq<State>)
    requires IsRun(init, before) && before[|before| - 1].value > 0
    ensures IsRun(init, run)
    ensures var s := before[|before| - 1]; run[|run| - 1] == State(s.value - 1, s.threads + [Acquired])
  {
    var threads := before[|before| - 1].threads;
    run := Extend(init, before, CallP);
    run := PermitIsTaken(init, run, |threads|);
    assert run[|run| - 1].threads == threads + [Acquired];
  }

  /** The bound on the calls of P that return is reached. */
  lemma AllPermitsTaken(init: nat, v: nat) returns (run: seq<State>)
    requires init + v <= INT_MAX
    ensures IsRun(init, run) && CallsOfV(run[|run| - 1]) == v && Acquisitions(run[|run| - 1]) == init + v
  {
    var before := PostInTurn(init, v);
    AllAreV(before[|before| - 1].threads);
    CountPositive(before[|before| - 1].threads, IsAcquired);
    run := TakeInTurn(init, before, init + v);
  }

  // ---------- The limit ----------

  ghost predicate AllPosted(s: State) {
    forall t | 0 <= t < |s.threads| :: s.threads[t] == Posted
  }

  /** n calls of V, one after the other. */
  lemma {:induction false} PostInTurn(init: nat, n: nat) returns (run: seq<State>)
    requires init + n <= INT_MAX
    ensures IsRun(init, run) && |run[|run| - 1].threads| == n
    ensures run[|run| - 1].value == init + n && AllPosted(run[|run| - 1])
  {
    if n == 0 {
      run := [State(init, [])];
    } else {
      run := PostInTurn(init, n - 1);
      run := Extend(init, run, CallV);
      run := Extend(init, run, Act(n - 1, false));
      assert !AnyAsleep(run[|run| - 1]);
      run := Extend(init, run, Act(n - 1, false));
    }
  }

  lemma {:induction false} AllAreV(threads: seq<Phase>)
    requires forall t | 0 <= t < |threads| :: IsV(threads[t])
    ensures Count(threads, IsV) == |threads|
  {
    if threads != [] { AllAreV(threads[..|threads| - 1]); }
  }

  /** One call of V beyond INT_MAX permits makes the value negative for a while. */
  lemma PostTooOften(init: nat, v: nat) returns (run: seq<State>)
    requires init <= INT_MAX < init + v
    ensures IsRun(init, run) && CallsOfV(run[|run| - 1]) <= v && run[|run| - 1].value < 0
  {
    var n := INT_MAX - init;
    run := PostInTurn(init, n);
    run := Extend(init, run, CallV);
    run := Extend(init, run, Act(n, false));
    AllAreV(run[|run| - 1].threads);
  }

  /** The value of the semaphore is never negative in any run with at most v calls of V exactly
      if init + v does not exceed INT_MAX. */
  lemma NeverNegativeIff(init: nat, v: nat)
    requires init <= INT_MAX
    ensures (forall run: seq<State> | IsRun(init, run) && CallsOfV(run[|run| - 1]) <= v :: run[|run| - 1].value >= 0)
            <==> init + v <= INT_MAX
  {
    if init + v <= INT_MAX {
      forall run: seq<State> | IsRun(init, run) && CallsOfV(run[|run| - 1]) <= v ensures run[|run| - 1].value >= 0 {
        ValueIsPermits(init, run);
      }
    } else {
      var run := PostTooOften(init, v);
    }
  }

  /** k more calls of V in turn, while thread u is about to undo its increment. */
  lemma {:induction false} PostMeanwhile(init: nat, before: seq<State>, u: nat, k: nat) returns (run: seq<State>)
    requires IsRun(init, before) && before[|before| - 1].value == INT_MIN && k <= TWO_31
    requires AllPostedBut(before[|before| - 1], u)
    ensures IsRun(init, run) && run[|run| - 1].value == INT_MIN + k && AllPostedBut(run[|run| - 1], u)
    ensures |run[|run| - 1].threads| == |before[|before| - 1].threads| + k
  {
    if k == 0 {
      run := before;
    } else {
      run := PostMeanwhile(init, before, u, k - 1);
      var t := |run[|run| - 1].threads|;
      run := Extend(init, run, CallV);
      run := Extend(init, run, Act(t, false));
      assert !AnyAsleep(run[|run| - 1]);
      run := Extend(init, run, Act(t, false));
    }
  }

  ghost predicate AllPostedBut(s: State, u: nat) {
    u < |s.threads| && s.threads[u] == Undo && forall t | 0 <= t < |s.threads| && t != u :: s.threads[t] == Posted
  }

  /** With 2^32 permits the value is 0 again. */
  lemma WrapAround(init: nat) returns (run: seq<State>, u: nat)
    requires init <= INT_MAX
    ensures IsRun(init, run) && run[|run| - 1].value == 0 && AllPostedBut(run[|run| - 1], u)
    ensures init + |run[|run| - 1].threads| == TWO_32
  {
    u := INT_MAX - init;
    run := PostInTurn(init, u);
    run := Extend(init, run, CallV);
    run := Extend(init, run, Act(u, false));
    run := PostMeanwhile(init, run, u, TWO_31);
  }

  /** A P that comes then goes to sleep. */
  lemma FallAsleep(init: nat, before: seq<State>) returns (run: seq<State>)
    requires IsRun(init, before) && before[|before| - 1].value == 0
    ensures IsRun(init, run) && run[|run| - 1] == State(0, before[|before| - 1].threads + [Asleep])
  {
    var t := |before[|before| - 1].threads|;
    run := Extend(init, before, CallP);
    run := Extend(init, run, Act(t, false));
    run := Extend(init, run, Act(t, false));
  }

  lemma SleepOverPermits(init: nat, v: nat) returns (run: seq<State>)
    requires init <= INT_MAX && TWO_32 <= init + v
    ensures IsRun(init, run) && CallsOfV(run[|run| - 1]) <= v
    ensures AnyAsleep(run[|run| - 1]) && Settled(run[|run| - 1]) && run[|run| - 1].value == -1
  {
    var before, u := WrapAround(init);
    var threads := before[|before| - 1].threads;
    run := FallAsleep(init, before);
    run := Extend(init, run, Act(u, false));
    var posted := threads[u := Posted];
    assert run[|run| - 1] == State(-1, posted + [Asleep]);
    assert (posted + [Asleep])[|posted|] == Asleep;
    AllAreV(posted);
    CountAppend(posted, IsV, Asleep);
  }

  ghost predicate NoneLeftAsleep(s: State) {
    AnyAsleep(s) && Settled(s) ==> s.value == 0
  }

  /** In no run with at most v calls of V is a sleeper left with permits when nobody is under
      way, exactly if init + v is below 2^32. */
  lemma NoLostWakeupIff(init: nat, v: nat)
    requires init <= INT_MAX
    ensures (forall run: seq<State> | IsRun(init, run) && CallsOfV(run[|run| - 1]) <= v ::
               NoneLeftAsleep(run[|run| - 1]))
            <==> init + v < TWO_32
  {
    if init + v < TWO_32 {
      forall run: seq<State> | IsRun(init, run) && CallsOfV(run[|run| - 1]) <= v
        ensures NoneLeftAsleep(run[|run| - 1])
      {
        NoLostWakeup(init, run);
      }
    } else {
      var run := SleepOverPermits(init, v);
    }
  }

  /** And it can stay negative: if two calls of V overlap with INT_MAX permits, the second does
      not see the overflow of the first, and both return. */
  lemma OverflowRace() returns (run: seq<State>)
    ensures IsRun(INT_MAX, run) && run[|run| - 1] == State(INT_MIN, [Posted, Posted])
  {
    run := [State(INT_MAX, [])];
    run := Extend(INT_MAX, run, CallV);
    run := Extend(INT_MAX, run, CallV);
    assert run[|run| - 1] == State(INT_MAX, [Add, Add]);
    run := Extend(INT_MAX, run, Act(0, false));
    assert run[|run| - 1] == State(INT_MIN, [Undo, Add]);
    run := Extend(INT_MAX, run, Act(1, false));
    assert run[|run| - 1] == State(INT_MIN + 1, [Undo, WakeOne]);
    run := Extend(INT_MAX, run, Act(0, false));
    assert run[|run| - 1] == State(INT_MIN, [Posted, WakeOne]);
    assert !AnyAsleep(run[|run| - 1]);
    run := Extend(INT_MAX, run, Act(1, false));
  }
}

/**
 The condition-variable semaphore.  What happens under the lock is one step; a waiter
 may wake without having been signalled, and others may take the lock before it.
 */
module CondvarSemaphore {
  import opened Counting

  datatype Phase =
    | Entering   // P, about to take the lock
    | Blocked    // P, in pthread_cond_wait, not signalled
    | Signalled  // P, signalled but not yet back under the lock
    | Acquired
    | Posting    // V, about to take the lock
    | Posted

  datatype State = State(value: int, waiters: nat, threads: seq<Phase>)

  datatype Step =
    | CallP
    | CallV
    | Act(t: nat)                // thread t runs under the lock; for a blocked one, spuriously
    | Signal(t: nat, w: nat)     // the V of thread t signals waiter w

  ghost predicate AnyBlocked(s: State) {
    exists t :: 0 <= t < |s.threads| && s.threads[t] == Blocked
  }

  ghost predicate Enabled(s: State, st: Step) {
    match st
    case CallP => true
    case CallV => true
    case Act(t) =>
      && t < |s.threads| && s.threads[t] != Acquired && s.threads[t] != Posted
      && (s.threads[t] == Posting && s.value + 1 <= 0 ==> !AnyBlocked(s))
      && (s.threads[t] == Blocked || s.threads[t] == Signalled ==> s.waiters > 0)
    case Signal(t, w) =>
      && t < |s.threads| && s.threads[t] == Posting && s.value + 1 <= 0
      && w < |s.threads| && s.threads[w] == Blocked
  }

  /** The test of the wait loop. */
  function MustWait(value: int, waiters: nat): bool {
    value < 0 && waiters < -value
  }

  ghost function Apply(s: State, st: Step): State
    requires Enabled(s, st)
  {
    match st
    case CallP => s.(threads := s.threads + [Entering])
    case CallV => s.(threads := s.threads + [Posting])
    case Signal(t, w) => State(s.value + 1, s.waiters, s.threads[w := Signalled][t := Posted])
    case Act(t) =>
      match s.threads[t]
      case Entering =>
        if MustWait(s.value - 1, s.waiters)
        then State(s.value - 1, s.waiters + 1, s.threads[t := Blocked])
        else State(s.value - 1, s.waiters, s.threads[t := Acquired])
      case Posting => State(s.value + 1, s.waiters, s.threads[t := Posted])
      case Acquired => s
      case Posted => s
      case _ =>
        if MustWait(s.value, s.waiters - 1)
        then s.(threads := s.threads[t := Blocked])
        else State(s.value, s.waiters - 1, s.threads[t := Acquired])
  }

  ghost predicate Next(s: State, s': State) {
    exists st :: Enabled(s, st) && s' == Apply(s, st)
  }

  ghost predicate IsRun(init: nat, run: seq<State>) {
    && |run| > 0
    && run[0] == State(init, 0, [])
    && forall k | 0 < k < |run| :: Next(run[k - 1], run[k])
  }

  ghost predicate IsAcquired(p: Phase) { p == Acquired }

  ghost predicate IsBlocked(p: Phase) { p == Blocked }

  ghost predicate IsSignalled(p: Phase) { p == Signalled }

  ghost predicate IsPosted(p: Phase) { p == Posted }

  /** Every P that has started holds a permit or waits, enough of them wait, and there are
      never more unsignalled waiters than missing permits. */
  ghost predicate Inv(init: nat, s: State) {
    && s.waiters == Count(s.threads, IsBlocked) + Count(s.threads, IsSignalled)
    && s.value == init + Count(s.threads, IsPosted) - Count(s.threads, IsAcquired) - s.waiters
    && s.waiters >= -s.value
    && (Count(s.threads, IsBlocked) == 0 || Count(s.threads, IsBlocked) <= -s.value)
  }

  lemma Recount(threads: seq<Phase>, t: nat, p: Phase)
    requires t < |threads|
    ensures var th := threads[t := p];
      && Count(th, IsAcquired) + (if IsAcquired(threads[t]) then 1 else 0)
         == Count(threads, IsAcquired) + (if IsAcquired(p) then 1 else 0)
      && Count(th, IsBlocked) + (if IsBlocked(threads[t]) then 1 else 0)
         == Count(threads, IsBlocked) + (if IsBlocked(p) then 1 else 0)
      && Count(th, IsSignalled) + (if IsSignalled(threads[t]) then 1 else 0)
         == Count(threads, IsSignalled) + (if IsSignalled(p) then 1 else 0)
      && Count(th, IsPosted) + (if IsPosted(threads[t]) then 1 else 0)
         == Count(threads, IsPosted) + (if IsPosted(p) then 1 else 0)
  {
    CountUpdate(threads, IsAcquired, t, p);
    CountUpdate(threads, IsBlocked, t, p);
    CountUpdate(threads, IsSignalled, t, p);
    CountUpdate(threads, IsPosted, t, p);
  }

  lemma CallInv(init: nat, s: State, p: Phase)
    requires Inv(init, s) && (p == Entering || p == Posting)
    ensures Inv(init, s.(threads := s.threads + [p]))
  {
    CountAppend(s.threads, IsAcquired, p);
    CountAppend(s.threads, IsBlocked, p);
    CountAppend(s.threads, IsSignalled, p);
    CountAppend(s.threads, IsPosted, p);
  }

  lemma StepInv(init: nat, s: State, st: Step)
    requires Inv(init, s) && Enabled(s, st)
    ensures Inv(init, Apply(s, st))
  {
    match st
    case CallP => CallInv(init, s, Entering);
    case CallV => CallInv(init, s, Posting);
    case Signal(t, w) => SignalInv(init, s, t, w);
    case Act(t) => ActInv(init, s, t);
  }

  lemma SignalInv(init: nat, s: State, t: nat, w: nat)
    requires Inv(init, s) && Enabled(s, Signal(t, w))
    ensures Inv(init, Apply(s, Signal(t, w)))
  {
    Recount(s.threads, w, Signalled);
    Recount(s.threads[w := Signalled], t, Posted);
  }

  lemma ActInv(init: nat, s: State, t: nat)
    requires Inv(init, s) && Enabled(s, Act(t))
    ensures Inv(init, Apply(s, Act(t)))
  {
    var s' := Apply(s, Act(t));
    CountPositive(s.threads, IsBlocked);
    Recount(s.threads, t, s'.threads[t]);
    assert s'.threads == s.threads[t := s'.threads[t]];
  }

  lemma {:induction false} RunInv(init: nat, run: seq<State>)
    requires IsRun(init, run)
    ensures Inv(init, run[|run| - 1])
  {
    if |run| > 1 {
      var k := |run| - 2;
      RunInv(init, run[..|run| - 1]);
      assert Next(run[k], run[k + 1]);
      var st :| Enabled(run[k], st) && run[k + 1] == Apply(run[k], st);
      StepInv(init, run[k], st);
    }
  }

  /** Safety: no more P calls have returned than there were permits, whoever overtakes
      whom and whoever wakes unasked. */
  lemma AtMostPermits(init: nat, run: seq<State>)
    requires IsRun(init, run)
    ensures var s := run[|run| - 1];
      Count(s.threads, IsAcquired) <= init + Count(s.threads, IsPosted)
  {
    RunInv(init, run);
  }

  /** No lost wake-up: with permits to spare nobody waits unsignalled; and once everyone
      signalled has run, there are exactly as many waiters as permits are missing. */
  lemma NoLostWakeup(init: nat, run: seq<State>)
    requires IsRun(init, run)
    ensures var s := run[|run| - 1];
      && (s.value >= 0 ==> !AnyBlocked(s))
      && (s.value < 0 && Count(s.threads, IsSignalled) == 0 ==> Count(s.threads, IsBlocked) == -s.value)
  {
    RunInv(init, run);
    CountPositive(run[|run| - 1].threads, IsBlocked);
  }

  /** A waiter is always counted, so the guards that mention `waiters` never block it. */
  lemma WaitersAreCounted(init: nat, run: seq<State>, t: nat)
    requires IsRun(init, run) && t < |run[|run| - 1].threads|
    requires run[|run| - 1].threads[t] == Blocked || run[|run| - 1].threads[t] == Signalled
    ensures run[|run| - 1].waiters > 0
  {
    RunInv(init, run);
    CountPositive(run[|run| - 1].threads, IsBlocked);
    CountPositive(run[|run| - 1].threads, IsSignalled);
  }

  // ---------- Permits are taken ----------

  lemma Extend(init: nat, run: seq<State>, st: Step) returns (longer: seq<State>)
    requires IsRun(init, run) && Enabled(run[|run| - 1], st)
    ensures longer == run + [Apply(run[|run| - 1], st)] && IsRun(init, longer)
  {
    longer := run + [Apply(run[|run| - 1], st)];
    assert Next(run[|run| - 1], Apply(run[|run| - 1], st));
    forall k | 0 < k < |longer| ensures Next(longer[k - 1], longer[k]) {
      if k < |run| { assert Next(run[k - 1], run[k]); }
    }
  }

  /** Progress: while there is a permit, a P takes it in its first step. */
  lemma PermitIsTaken(init: nat, run: seq<State>, t: nat)
    requires IsRun(init, run) && t < |run[|run| - 1].threads| && run[|run| - 1].threads[t] == Entering
    requires run[|run| - 1].value > 0
    ensures var s := run[|run| - 1];
      && Enabled(s, Act(t))
      && Apply(s, Act(t)) == State(s.value - 1, s.waiters, s.threads[t := Acquired])
  {
  }

  /** Whoever has not returned and is not blocked has a step to take; a V returns with it and
      leaves one permit more. */
  lemma NobodyIsStuck(init: nat, run: seq<State>, t: nat) returns (st: Step)
    requires IsRun(init, run) && t < |run[|run| - 1].threads|
    requires run[|run| - 1].threads[t] !in {Acquired, Posted, Blocked}
    ensures st == Act(t) || (st.Signal? && st.t == t)
    ensures Enabled(run[|run| - 1], st)
    ensures run[|run| - 1].threads[t] == Posting ==>
              Apply(run[|run| - 1], st).value == run[|run| - 1].value + 1
              && Apply(run[|run| - 1], st).threads[t] == Posted
  {
    var s := run[|run| - 1];
    st := Act(t);
    if s.threads[t] == Signalled {
      WaitersAreCounted(init, run, t);
    } else if s.threads[t] == Posting && s.value + 1 <= 0 && AnyBlocked(s) {
      var w :| 0 <= w < |s.threads| && s.threads[w] == Blocked;
      st := Signal(t, w);
    }
  }

  /** A V with a waiter leaves it signalled, and a permit for it: if nobody else comes, it is
      through in one step. */
  lemma SignalledTakesIt(init: nat, run: seq<State>, t: nat, w: nat)
    requires IsRun(init, run) && Enabled(run[|run| - 1], Signal(t, w))
    ensures var s' := Apply(run[|run| - 1], Signal(t, w));
      && s'.threads[t] == Posted && Enabled(s', Act(w))
      && Apply(s', Act(w)).threads == s'.threads[w := Acquired]
  {
    RunInv(init, run);
    CountPositive(run[|run| - 1].threads, IsBlocked);
  }

  /** n calls of V, one after the other. */
  lemma {:induction false} PostInTurn(init: nat, n: nat) returns (run: seq<State>)
    ensures IsRun(init, run) && run[|run| - 1].value == init + n && run[|run| - 1].waiters == 0
    ensures Count(run[|run| - 1].threads, IsPosted) == n && Count(run[|run| - 1].threads, IsAcquired) == 0
  {
    if n == 0 {
      run := [State(init, 0, [])];
    } else {
      var before := PostInTurn(init, n - 1);
      run := PostOne(init, before);
      CountAppend(before[|before| - 1].threads, IsPosted, Posted);
      CountAppend(before[|before| - 1].threads, IsAcquired, Posted);
    }
  }

  lemma PostOne(init: nat, before: seq<State>) returns (run: seq<State>)
    requires IsRun(init, before) && before[|before| - 1].value >= 0
    ensures IsRun(init, run)
    ensures var s := before[|before| - 1]; run[|run| - 1] == State(s.value + 1, s.waiters, s.threads + [Posted])
  {
    var threads := before[|before| - 1].threads;
    run := Extend(init, before, CallV);
    run := Extend(init, run, Act(|threads|));
  }

  lemma TakeOne(init: nat, before: seq<State>) returns (run: seq<State>)
    requires IsRun(init, before) && before[|before| - 1].value > 0
    ensures IsRun(init, run)
    ensures var s := before[|before| - 1]; run[|run| - 1] == State(s.value - 1, s.waiters, s.threads + [Acquired])
  {
    var threads := before[|before| - 1].threads;
    run := Extend(init, before, CallP);
    PermitIsTaken(init, run, |threads|);
    run := Extend(init, run, Act(|threads|));
  }

  /** n calls of P, one after the other, while there are permits. */
  lemma {:induction false} TakeInTurn(init: nat, before: seq<State>, n: nat) returns (run: seq<State>)
    requires IsRun(init, before) && before[|before| - 1].value >= n
    ensures IsRun(init, run) && run[|run| - 1].value == before[|before| - 1].value - n
    ensures Count(run[|run| - 1].threads, IsPosted) == Count(before[|before| - 1].threads, IsPosted)
    ensures Count(run[|run| - 1].threads, IsAcquired) == Count(before[|before| - 1].threads, IsAcquired) + n
  {
    if n == 0 {
      run := before;
    } else {
      var shorter := TakeInTurn(init, before, n - 1);
      run := TakeOne(init, shorter);
      CountAppend(shorter[|shorter| - 1].threads, IsPosted, Acquired);
      CountAppend(shorter[|shorter| - 1].threads, IsAcquired, Acquired);
    }
  }

  /** The bound on the calls of P that return is reached. */
  lemma AllPermitsTaken(init: nat, v: nat) returns (run: seq<State>)
    ensures IsRun(init, run) && Count(run[|run| - 1].threads, IsPosted) == v
    ensures Count(run[|run| - 1].threads, IsAcquired) == init + v
  {
    run := PostInTurn(init, v);
    run := TakeInTurn(init, run, init + v);
  }
}
