/** Threads, and the condition variables they sleep on. */
module Monitors {
  import opened Wrappers

  datatype Thread = Thread(id: nat)

  // The threads asleep on a condition variable, and those waking up from it.
  datatype Condition = Condition(sleeping: set<Thread>, woken: set<Thread>)

  const NOBODY := Condition({}, {})

  predicate WaitsOn(c: Condition, t: Thread) {
    t in c.sleeping || t in c.woken
  }

  function Sleep(c: Condition, t: Thread): Condition {
    Condition(c.sleeping + {t}, c.woken)
  }

  function Wake(c: Condition, t: Thread): Condition {
    Condition(c.sleeping - {t}, c.woken + {t})
  }

  function Leave(c: Condition, t: Thread): Condition {
    Condition(c.sleeping, c.woken - {t})
  }

  // notify_one wakes one of the sleeping threads, if there is one.
  predicate Notifies(c: Condition, notified: Option<Thread>) {
    match notified
    case None => c.sleeping == {}
    case Some(t) => t in c.sleeping
  }

  function Notified(c: Condition, notified: Option<Thread>): Condition {
    if notified.Some? then Wake(c, notified.value) else c
  }

  method NotifyOne(c: Condition) returns (after: Condition, notified: Option<Thread>)
    ensures Notifies(c, notified) && after == Notified(c, notified)
  {
    notified := None;
    if c.sleeping != {} {
      var t :| t in c.sleeping;
      notified := Some(t);
    }
    after := Notified(c, notified);
  }
}
