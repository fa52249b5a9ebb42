/**
  The recursive shared mutex, as a system of steps: every stretch of code run under the
  internal lock is one step, and waiting on a condition variable ends a step.
*/
module SharedMutex {
  import opened MachineWords
  import opened Monitors
  import opened Wrappers

  // The fields of the mutex, of which the count is an unsigned int; then who holds it, a reader as many times as it locked.
  datatype State = State(
    sharedCount: nat, exclusive: bool, upgrade: bool, exclusiveWaitingBlocked: bool,
    sharedCond: Condition, exclusiveCond: Condition,
    readers: multiset<Thread>, writers: set<Thread>)

  const INITIAL := State(0, false, false, false, NOBODY, NOBODY, multiset{}, {})

  // ----- The steps -----

  // The calls, the returns from a wait, and the wakeups without notification. An unlock
  // says which of the sleeping writers is notified.
  datatype Event =
    | LockShared(t: Thread)
    | ResumeShared(t: Thread)
    | UnlockShared(t: Thread, notified: Option<Thread>)
    | Lock(t: Thread)
    | ResumeExclusive(t: Thread)
    | Unlock(t: Thread, notified: Option<Thread>)
    | WakeShared(t: Thread)
    | WakeExclusive(t: Thread)

  predicate Waiting(s: State, t: Thread) {
    WaitsOn(s.sharedCond, t) || WaitsOn(s.exclusiveCond, t)
  }

  predicate LastReader(s: State) {
    (s.sharedCount + TWO32 - 1) % TWO32 == 0
  }

  predicate Enabled(s: State, e: Event) {
    match e
    case LockShared(t) => !Waiting(s, t)
    case ResumeShared(t) => t in s.sharedCond.woken
    case UnlockShared(t, n) =>
      t in s.readers && !Waiting(s, t) && if LastReader(s) then Notifies(s.exclusiveCond, n) else n == None
    case Lock(t) => !Waiting(s, t)
    case ResumeExclusive(t) => t in s.exclusiveCond.woken
    case Unlock(t, n) => t in s.writers && !Waiting(s, t) && Notifies(s.exclusiveCond, n)
    case WakeShared(t) => t in s.sharedCond.sleeping
    case WakeExclusive(t) => t in s.exclusiveCond.sleeping
  }

  // One turn of the loop of lock_shared.
  function TryShared(s: State, t: Thread): State {
    if s.exclusive then s.(sharedCond := Sleep(s.sharedCond, t))
    else s.(sharedCount := (s.sharedCount + 1) % TWO32, readers := s.readers + multiset{t})
  }

  // One turn of the loop of lock.
  function TryExclusive(s: State, t: Thread): State {
    if s.sharedCount != 0 || s.exclusive then
      s.(exclusiveWaitingBlocked := true, exclusiveCond := Sleep(s.exclusiveCond, t))
    else s.(exclusive := true, writers := s.writers + {t})
  }

  function Released(s: State, notified: Option<Thread>): State {
    s.(exclusiveCond := Notified(s.exclusiveCond, notified),
       sharedCond := Condition({}, s.sharedCond.sleeping + s.sharedCond.woken))
  }

  function OneReaderLess(s: State, t: Thread): State {
    s.(sharedCount := (s.sharedCount + TWO32 - 1) % TWO32, readers := s.readers - multiset{t})
  }

  // The last reader is gone.
  function WithoutReaders(s: State, notified: Option<Thread>): State {
    if s.upgrade then Released(s.(upgrade := false, exclusive := true), notified)
    else Released(s.(exclusiveWaitingBlocked := false), notified)
  }

  function Step(s: State, e: Event): State {
    match e
    case LockShared(t) => TryShared(s, t)
    case ResumeShared(t) => TryShared(s.(sharedCond := Leave(s.sharedCond, t)), t)
    case UnlockShared(t, n) =>
      var u := OneReaderLess(s, t);
      if u.sharedCount != 0 then u else WithoutReaders(u, n)
    case Lock(t) => TryExclusive(s, t)
    case ResumeExclusive(t) => TryExclusive(s.(exclusiveCond := Leave(s.exclusiveCond, t)), t)
    case Unlock(t, n) =>
      Released(s.(exclusive := false, exclusiveWaitingBlocked := false, writers := s.writers - {t}), n)
    case WakeShared(t) => s.(sharedCond := Wake(s.sharedCond, t))
    case WakeExclusive(t) => s.(exclusiveCond := Wake(s.exclusiveCond, t))
  }

  // ----- The mutex itself -----

  class SharedRecursiveMutex {
    var sharedCount: nat
    var exclusive: bool
    var upgrade: bool
    var exclusiveWaitingBlocked: bool
    var sharedCond: Condition
    var exclusiveCond: Condition
    ghost var readers: multiset<Thread>
    ghost var writers: set<Thread>

    ghost function Value(): State
      reads this
    {
      State(sharedCount, exclusive, upgrade, exclusiveWaitingBlocked, sharedCond, exclusiveCond, readers, writers)
    }

    constructor ()
      ensures Value() == INITIAL
    {
      sharedCount, exclusive, upgrade, exclusiveWaitingBlocked := 0, false, false, false;
      sharedCond, exclusiveCond := NOBODY, NOBODY;
      readers, writers := multiset{}, {};
    }

    // notify_one, then notify_all.
    method ReleaseWaiters() returns (notified: Option<Thread>)
      modifies this`sharedCond, this`exclusiveCond
      ensures Notifies(old(exclusiveCond), notified)
      ensures Value() == Released(old(Value()), notified)
    {
      exclusiveCond, notified := NotifyOne(exclusiveCond);
      sharedCond := Condition({}, sharedCond.sleeping + sharedCond.woken);
    }

    // lock_shared, from its call or from a return of wait up to a wait or to its end.
    method LockShared(t: Thread, resumed: bool) returns (acquired: bool)
      requires Enabled(Value(), if resumed then Event.ResumeShared(t) else Event.LockShared(t))
      modifies this
      ensures Value() == Step(old(Value()), if resumed then Event.ResumeShared(t) else Event.LockShared(t))
      ensures acquired == !old(exclusive)
    {
      if resumed { sharedCond := Leave(sharedCond, t); }
      if exclusive {
        sharedCond := Sleep(sharedCond, t);
        return false;
      }
      sharedCount := (sharedCount + 1) % TWO32;
      readers := readers + multiset{t};
      acquired := true;
    }

    method UnlockShared(t: Thread) returns (notified: Option<Thread>)
      requires t in readers && !Waiting(Value(), t)
      modifies this
      ensures Enabled(old(Value()), Event.UnlockShared(t, notified))
      ensures Value() == Step(old(Value()), Event.UnlockShared(t, notified))
    {
      hide WithoutReaders, Notifies, Waiting, TryShared, TryExclusive;
      sharedCount := (sharedCount + TWO32 - 1) % TWO32;
      readers := readers - multiset{t};
      var lastReader := sharedCount == 0;
      notified := None;
      if lastReader { notified := LeaveToWriters(); }
    }

    method LeaveToWriters() returns (notified: Option<Thread>)
      modifies this
      ensures Notifies(old(exclusiveCond), notified)
      ensures Value() == WithoutReaders(old(Value()), notified)
    {
      hide Released, Notifies;
      if upgrade {
        upgrade, exclusive := false, true;
      } else {
        exclusiveWaitingBlocked := false;
      }
      notified := ReleaseWaiters();
    }

    // lock, from its call or from a return of wait up to a wait or to its end.
    method Lock(t: Thread, resumed: bool) returns (acquired: bool)
      requires Enabled(Value(), if resumed then Event.ResumeExclusive(t) else Event.Lock(t))
      modifies this
      ensures Value() == Step(old(Value()), if resumed then Event.ResumeExclusive(t) else Event.Lock(t))
      ensures acquired == (old(sharedCount) == 0 && !old(exclusive))
    {
      if resumed { exclusiveCond := Leave(exclusiveCond, t); }
      if sharedCount != 0 || exclusive {
        exclusiveWaitingBlocked := true;
        exclusiveCond := Sleep(exclusiveCond, t);
        return false;
      }
      exclusive := true;
      writers := writers + {t};
      acquired := true;
    }

    method Unlock(t: Thread) returns (notified: Option<Thread>)
      requires t in writers && !Waiting(Value(), t)
      modifies this
      ensures Enabled(old(Value()), Event.Unlock(t, notified))
      ensures Value() == Step(old(Value()), Event.Unlock(t, notified))
    {
      exclusive, exclusiveWaitingBlocked := false, false;
      writers := writers - {t};
      notified := ReleaseWaiters();
    }
  }

  // ----- Runs -----

  function Run(s: State, events: seq<Event>): State {
    if events == [] then s else Step(Run(s, events[..|events| - 1]), events[|events| - 1])
  }

  function Reached(events: seq<Event>): State {
    Run(INITIAL, events)
  }

  // Every step is one that the threads can take.
  ghost predicate IsRun(events: seq<Event>) {
    forall n | 0 <= n < |events| :: Enabled(Reached(events[..n]), events[n])
  }

  // The read locks held stay below a bound.
  ghost predicate Below(events: seq<Event>, bound: nat) {
    forall n | 0 <= n <= |events| :: |Reached(events[..n]).readers| < bound
  }

  // ----- What every state of a run keeps -----

  predicate Free(s: State) {
    s.sharedCount == 0 && !s.exclusive
  }

  predicate Safe(s: State) {
    && (s.writers != {} ==> s.readers == multiset{})
    && |s.writers| <= 1
    && !s.upgrade
  }

  predicate NoLostWakeup(s: State) {
    && (Free(s) && s.exclusiveCond.sleeping != {} ==> s.exclusiveCond.woken != {})
    && (!s.exclusive ==> s.sharedCond.sleeping == {})
  }

  predicate Counted(s: State) {
    s.sharedCount == |s.readers| && (s.exclusive <==> s.writers != {})
  }

  predicate Invariant(s: State) {
    Safe(s) && NoLostWakeup(s) && Counted(s)
  }

  lemma TrySharedKeeps(s: State, t: Thread)
    requires Invariant(s) && |TryShared(s, t).readers| < TWO32
    ensures Invariant(TryShared(s, t))
  {
  }

  // Without the thread itself, which may be the one woken writer.
  predicate AlmostInvariant(s: State) {
    Safe(s) && Counted(s) && (!s.exclusive ==> s.sharedCond.sleeping == {})
  }

  lemma TryExclusiveKeeps(s: State, t: Thread)
    requires AlmostInvariant(s)
    ensures Invariant(TryExclusive(s, t))
  {
    Single(t);
  }

  lemma ReleaseKeeps(s: State, notified: Option<Thread>)
    requires Safe(s) && Counted(s) && Notifies(s.exclusiveCond, notified)
    ensures Invariant(Released(s, notified))
  {
  }

  lemma UnlockSharedKeeps(s: State, t: Thread, n: Option<Thread>)
    requires Invariant(s) && Enabled(s, UnlockShared(t, n)) && |s.readers| < TWO32
    ensures Invariant(Step(s, UnlockShared(t, n)))
  {
    hide Released, Waiting;
    assert |s.readers - multiset{t}| == |s.readers| - 1;
    var u := s.(sharedCount := s.sharedCount - 1, readers := s.readers - multiset{t});
    if u.sharedCount == 0 { ReleaseKeeps(u.(exclusiveWaitingBlocked := false), n); }
  }

  lemma StepKeeps(s: State, e: Event)
    requires Invariant(s) && Enabled(s, e) && |s.readers| < TWO32 && |Step(s, e).readers| < TWO32
    ensures Invariant(Step(s, e))
  {
    hide TryShared, TryExclusive, Released;
    match e
    case LockShared(t) => TrySharedKeeps(s, t);
    case ResumeShared(t) => TrySharedKeeps(s.(sharedCond := Leave(s.sharedCond, t)), t);
    case UnlockShared(t, n) => UnlockSharedKeeps(s, t, n);
    case Lock(t) => TryExclusiveKeeps(s, t);
    case ResumeExclusive(t) => TryExclusiveKeeps(s.(exclusiveCond := Leave(s.exclusiveCond, t)), t);
    case Unlock(t, n) =>
      OnlyOne(s.writers, t);
      ReleaseKeeps(s.(exclusive := false, exclusiveWaitingBlocked := false, writers := s.writers - {t}), n);
    case WakeShared(t) =>
    case WakeExclusive(t) =>
  }

  lemma Single(t: Thread)
    ensures |{} + {t}| == 1
  {
  }

  lemma OnlyOne(writers: set<Thread>, t: Thread)
    requires t in writers && |writers| <= 1
    ensures writers - {t} == {}
  {
    assert |writers - {t}| == |writers| - 1;
  }

  lemma StartsWell()
    ensures Invariant(INITIAL)
  {
  }

  lemma {:induction false} RunKeeps(events: seq<Event>)
    requires IsRun(events) && Below(events, TWO32)
    ensures Invariant(Reached(events))
    decreases |events|
  {
    hide Step, Invariant, Enabled;
    if events == [] {
      StartsWell();
    } else {
      var n := |events| - 1;
      var init := events[..n];
      forall k | 0 <= k <= n ensures init[..k] == events[..k] {}
      RunKeeps(init);
      assert events[..|events|] == events && |Reached(events[..n]).readers| < TWO32;
      StepKeeps(Reached(init), events[n]);
    }
  }

  // A thread that holds a read lock gets another one at once.
  lemma ReaderNeverBlocks(events: seq<Event>, t: Thread)
    requires IsRun(events) && Below(events, TWO32) && t in Reached(events).readers
    ensures var s := Reached(events);
            Step(s, LockShared(t)).readers == s.readers + multiset{t}
  {
    RunKeeps(events);
  }

  // When the mutex is free and no thread is waking up, no thread sleeps.
  lemma NobodyForgotten(events: seq<Event>)
    requires IsRun(events) && Below(events, TWO32)
    ensures var s := Reached(events);
            Free(s) && s.sharedCond.woken == {} && s.exclusiveCond.woken == {}
            ==> s.sharedCond.sleeping == {} && s.exclusiveCond.sleeping == {}
  {
    RunKeeps(events);
  }

  // ----- A counter that wraps around -----

  function ReadLocks(t: Thread, n: nat): (r: seq<Event>)
    ensures |r| == n
  {
    seq(n, i => LockShared(t))
  }

  // One more step of a run.
  lemma OneStep(events: seq<Event>, e: Event, bound: nat)
    requires IsRun(events) && Below(events, bound) && Enabled(Reached(events), e)
    requires |Step(Reached(events), e).readers| < bound
    ensures Reached(events + [e]) == Step(Reached(events), e)
    ensures IsRun(events + [e]) && Below(events + [e], bound)
  {
    hide Enabled, Step;
    var more := events + [e];
    assert more[..|events|] == events && more[..|more|] == more;
    forall n | 0 <= n <= |events| ensures more[..n] == events[..n] {}
  }

  // One thread holds n read locks.
  function Locked(t: Thread, n: nat): State {
    INITIAL.(sharedCount := n % TWO32, readers := multiset{}[t := n])
  }

  lemma LockedStep(t: Thread, n: nat)
    ensures Enabled(Locked(t, n), LockShared(t)) && Step(Locked(t, n), LockShared(t)) == Locked(t, n + 1)
    ensures |Locked(t, n).readers| == n && Locked(t, 0) == INITIAL
  {
    assert multiset{}[t := n] + multiset{t} == multiset{}[t := n + 1];
    assert multiset{}[t := 0] == multiset{};
    NextCount(n);
  }

  lemma NextCount(n: nat)
    ensures (n % TWO32 + 1) % TWO32 == (n + 1) % TWO32
  {
  }

  lemma NoRun(bound: nat)
    requires 0 < bound
    ensures IsRun([]) && Below([], bound)
  {
  }

  lemma {:induction false} AfterReadLocks(t: Thread, n: nat)
    requires n <= TWO32
    ensures IsRun(ReadLocks(t, n)) && Below(ReadLocks(t, n), TWO32 + 1)
    ensures Reached(ReadLocks(t, n)) == Locked(t, n)
  {
    hide IsRun, Below, Step, Enabled, Locked;
    LockedStep(t, n);
    if n == 0 {
      NoRun(TWO32 + 1);
      assert ReadLocks(t, 0) == [];
    } else {
      AfterReadLocks(t, n - 1);
      LockedStep(t, n - 1);
      OneStep(ReadLocks(t, n - 1), LockShared(t), TWO32 + 1);
      assert ReadLocks(t, n - 1) + [LockShared(t)] == ReadLocks(t, n);
    }
  }

  // One thread locks for reading 2^32 times: the counter reads 0, and a writer comes in.
  lemma WriterAmongReaders(t: Thread, u: Thread)
    ensures var events := ReadLocks(t, TWO32) + [Lock(u)];
            IsRun(events) && Below(events, TWO32 + 1) && !Safe(Reached(events))
  {
    AfterReadLocks(t, TWO32);
    OneStep(ReadLocks(t, TWO32), Lock(u), TWO32 + 1);
    var s := Reached(ReadLocks(t, TWO32));
    assert t in s.readers && u in Step(s, Lock(u)).writers;
  }

  // All runs that keep the read locks below a bound are safe exactly up to the bound of the counter.
  lemma SafeIff(bound: nat)
    ensures (forall events | IsRun(events) && Below(events, bound) :: Safe(Reached(events))) <==> bound <= TWO32
  {
    if bound <= TWO32 {
      forall events | IsRun(events) && Below(events, bound) ensures Safe(Reached(events)) {
        RunKeeps(events);
      }
    } else {
      var t := Thread(0);
      WriterAmongReaders(t, t);
      var events := ReadLocks(t, TWO32) + [Lock(t)];
      assert IsRun(events) && Below(events, bound);
    }
  }
}
