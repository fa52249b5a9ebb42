/**
  The concurrent queue, as a system of steps: every stretch of code run under the lock is
  one step, and the notification that follows a push is another.
*/
module ConcurrentQueue {
  import opened Monitors
  import opened Wrappers

  // What was pushed, popped and is there; the condition; the pushes that have not notified yet.
  datatype State<D> = State(pushed: seq<D>, popped: seq<D>, queue: seq<D>, cond: Condition, pending: nat)

  // The calls, the notification of a push, the returns from a wait, and a wakeup without notification.
  datatype Event<D> =
    | Push(d: D)
    | NotifyAfterPush(notified: Option<Thread>)
    | TryPop
    | WaitAndPop(t: Thread)
    | Resume(t: Thread)
    | WakeUp(t: Thread)

  predicate Enabled<D>(s: State<D>, e: Event<D>) {
    match e
    case Push(_) => true
    case NotifyAfterPush(n) => s.pending > 0 && Notifies(s.cond, n)
    case TryPop => true
    case WaitAndPop(t) => !WaitsOn(s.cond, t)
    case Resume(t) => t in s.cond.woken
    case WakeUp(t) => t in s.cond.sleeping
  }

  function Pop<D>(s: State<D>): State<D>
    requires s.queue != []
  {
    s.(popped := s.popped + [s.queue[0]], queue := s.queue[1..])
  }

  // One turn of the loop of wait_and_pop.
  function PopOrSleep<D>(s: State<D>, t: Thread): State<D> {
    if s.queue == [] then s.(cond := Sleep(s.cond, t)) else Pop(s)
  }

  function Step<D>(s: State<D>, e: Event<D>): State<D>
    requires Enabled(s, e)
  {
    match e
    case Push(d) => s.(pushed := s.pushed + [d], queue := s.queue + [d], pending := s.pending + 1)
    case NotifyAfterPush(n) => s.(cond := Notified(s.cond, n), pending := s.pending - 1)
    case TryPop => if s.queue == [] then s else Pop(s)
    case WaitAndPop(t) => PopOrSleep(s, t)
    case Resume(t) => PopOrSleep(s.(cond := Leave(s.cond, t)), t)
    case WakeUp(t) => s.(cond := Wake(s.cond, t))
  }

  // ----- The queue itself -----

  class ConcurrentQueue<D> {
    var theQueue: seq<D>
    var cond: Condition
    ghost var pushed: seq<D>
    ghost var popped: seq<D>
    ghost var pending: nat

    ghost function Value(): State<D>
      reads this
    {
      State(pushed, popped, theQueue, cond, pending)
    }

    constructor ()
      ensures Value() == State([], [], [], NOBODY, 0)
    {
      theQueue, cond, pushed, popped, pending := [], NOBODY, [], [], 0;
    }

    // push, up to the release of the lock
    method Push(d: D)
      modifies this
      ensures Value() == Step(old(Value()), Event.Push(d))
    {
      theQueue := theQueue + [d];
      pushed, pending := pushed + [d], pending + 1;
    }

    // push, from the release of the lock on
    method NotifyAfterPush() returns (notified: Option<Thread>)
      requires pending > 0
      modifies this
      ensures Enabled(old(Value()), Event.NotifyAfterPush(notified))
      ensures Value() == Step(old(Value()), Event.NotifyAfterPush(notified))
    {
      cond, notified := NotifyOne(cond);
      pending := pending - 1;
    }

    method TryPop() returns (value: Option<D>)
      modifies this
      ensures Value() == Step(old(Value()), Event.TryPop)
      ensures popped == if value.Some? then old(popped) + [value.value] else old(popped)
      ensures value.None? <==> old(theQueue) == []
    {
      if theQueue == [] { return None; }
      value := Some(theQueue[0]);
      theQueue := theQueue[1..];
      popped := popped + [value.value];
    }

    // wait_and_pop, from its call or from a return of wait up to a wait or to its end.
    method WaitAndPop(t: Thread, resumed: bool) returns (value: Option<D>)
      requires Enabled(Value(), if resumed then Event.Resume(t) else Event.WaitAndPop(t))
      modifies this
      ensures Value() == Step(old(Value()), if resumed then Event.Resume(t) else Event.WaitAndPop(t))
      ensures popped == if value.Some? then old(popped) + [value.value] else old(popped)
      ensures value.None? <==> old(theQueue) == []
    {
      if resumed { cond := Leave(cond, t); }
      if theQueue == [] {
        cond := Sleep(cond, t);
        return None;
      }
      value := Some(theQueue[0]);
      theQueue := theQueue[1..];
      popped := popped + [value.value];
    }
  }

  // ----- Runs -----

  // The states of a run from the empty queue, one step after the other.
  ghost predicate IsRun<D(!new)>(states: seq<State<D>>) {
    && states != [] && states[0] == State([], [], [], NOBODY, 0)
    && forall n | 0 <= n < |states| - 1 :: CanFollow(states[n], states[n + 1])
  }

  ghost predicate CanFollow<D(!new)>(s: State<D>, next: State<D>) {
    exists e :: Enabled(s, e) && next == Step(s, e)
  }

  // First in, first out; nothing is lost, nothing comes twice.
  predicate InOrder<D(==)>(s: State<D>) {
    s.pushed == s.popped + s.queue
  }

  // While a consumer sleeps, every item has a notification to come or a consumer on its way.
  predicate NoLostWakeup<D>(s: State<D>) {
    s.cond.sleeping != {} ==> |s.queue| <= s.pending + |s.cond.woken|
  }

  lemma PopKeeps<D>(s: State<D>)
    requires s.queue != [] && InOrder(s)
    ensures InOrder(Pop(s))
  {
    assert s.queue == [s.queue[0]] + s.queue[1..];
  }

  lemma LeaveCount(c: Condition, t: Thread)
    requires t in c.woken
    ensures |Leave(c, t).woken| == |c.woken| - 1
  {
  }

  lemma WakeCount(c: Condition, t: Thread)
    requires t in c.sleeping && c.sleeping !! c.woken
    ensures |Wake(c, t).woken| == |c.woken| + 1 && Wake(c, t).sleeping !! Wake(c, t).woken
  {
  }

  ghost predicate Invariant<D>(s: State<D>) {
    InOrder(s) && NoLostWakeup(s) && s.cond.sleeping !! s.cond.woken
  }

  lemma StepKeeps<D>(s: State<D>, e: Event<D>)
    requires Invariant(s) && Enabled(s, e)
    ensures Invariant(Step(s, e))
  {
    if s.queue != [] { PopKeeps(s); }
    match e
    case Push(d) => assert s.popped + s.queue + [d] == s.popped + (s.queue + [d]);
    case NotifyAfterPush(n) => if n.Some? { WakeCount(s.cond, n.value); }
    case TryPop =>
    case WaitAndPop(t) =>
    case Resume(t) => LeaveCount(s.cond, t);
    case WakeUp(t) => WakeCount(s.cond, t);
  }

  lemma {:induction false} RunKeeps<D(!new)>(states: seq<State<D>>, n: nat)
    requires IsRun(states) && n < |states|
    ensures Invariant(states[n])
  {
    hide Step;
    if n > 0 {
      RunKeeps(states, n - 1);
      assert CanFollow(states[n - 1], states[n - 1 + 1]);
      var e :| Enabled(states[n - 1], e) && states[n] == Step(states[n - 1], e);
      StepKeeps(states[n - 1], e);
    }
  }

  // When no push is under way and no consumer is waking up, a consumer sleeps only on an empty queue.
  lemma SleepsOnEmpty<D(!new)>(states: seq<State<D>>, n: nat)
    requires IsRun(states) && n < |states|
    ensures var s := states[n];
            s.cond.sleeping != {} && s.pending == 0 && s.cond.woken == {} ==> s.queue == []
  {
    RunKeeps(states, n);
  }
}
