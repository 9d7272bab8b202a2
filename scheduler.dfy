/**
 `ActivityQueue` of async_activity/activity_queue.py: the self-pacing loop
 that asks the monitor for a rollup, queues it and sleeps. One iteration is
 modelled; the sleep is returned instead of slept.
 */
module Scheduler {
  import opened Wrappers
  import opened Events
  import opened Rollup
  import opened Monitor

  const DefaultMinSleepTime: int := 30

  /**
   The pause before the next rollup: Python's `max` of the time left in the
   window and the configured floor (on a tie `max` keeps its first argument,
   which has the same value).
   */
  function SleepTime(inactivityWindow: real, elapsed: real, minSleepTime: int): (s: real)
    ensures s >= inactivityWindow - elapsed && s >= minSleepTime as real
    ensures s == inactivityWindow - elapsed || s == minSleepTime as real
  {
    if minSleepTime as real > inactivityWindow - elapsed then minSleepTime as real
    else inactivityWindow - elapsed
  }

  /** Once a rollup reports inactivity, the pause falls to the (non-negative) floor. */
  lemma SleepIsFloorOnceInactive(r: ActivityRollupEvent, inactivityWindow: real, minSleepTime: int)
    requires Consistent(r, inactivityWindow) && r.rollupType == Inactivity
    requires minSleepTime >= 0
    ensures SleepTime(inactivityWindow, r.elapsedSinceLatestEvent, minSleepTime) == minSleepTime as real
  {
  }

  /** While active, the pause is the remaining window whenever that exceeds the floor. */
  lemma SleepIsRemainingWindowWhileActive(r: ActivityRollupEvent, inactivityWindow: real, minSleepTime: int)
    requires Consistent(r, inactivityWindow) && r.rollupType == Activity
    requires minSleepTime as real <= inactivityWindow - r.elapsedSinceLatestEvent
    ensures SleepTime(inactivityWindow, r.elapsedSinceLatestEvent, minSleepTime) == inactivityWindow - r.elapsedSinceLatestEvent
    ensures SleepTime(inactivityWindow, r.elapsedSinceLatestEvent, minSleepTime) > 0.0
  {
  }

  /** A window of 60 with the default floor of 30: elapsed 5 sleeps 55, elapsed 90 sleeps 30. */
  lemma SleepExamples()
    ensures SleepTime(60.0, 5.0, DefaultMinSleepTime) == 55.0
    ensures SleepTime(60.0, 90.0, DefaultMinSleepTime) == 30.0
  {
  }

  class ActivityQueue {
    var queue: seq<ActivityRollupEvent>
    const eventsQueue: EventQueue<ActivityEvent>
    const inactivityWindow: real
    const minSleepTime: int
    const am: ActivityMonitor

    /** The monitor shares this queue's event source and window. */
    ghost predicate Valid()
    {
      am.eventsQueue == eventsQueue && am.inactivityWindow == inactivityWindow
    }

    /** `__attrs_post_init__`: a fresh monitor created at `createdAt`, and an empty output queue. */
    constructor (eventsQueue: EventQueue<ActivityEvent>, inactivityWindow: real, createdAt: real,
                 minSleepTime: int := DefaultMinSleepTime)
      ensures Valid() && fresh(am)
      ensures this.eventsQueue == eventsQueue && this.inactivityWindow == inactivityWindow
      ensures this.minSleepTime == minSleepTime
      ensures am.latestEventTime == createdAt
      ensures queue == []
    {
      this.eventsQueue := eventsQueue;
      this.inactivityWindow := inactivityWindow;
      this.minSleepTime := minSleepTime;
      queue := [];
      am := new ActivityMonitor(eventsQueue, inactivityWindow, createdAt);
    }

    /**
     One iteration of `run` at time `now`: exactly the rollup the monitor
     returned is appended to the output queue, and the pause is returned.
     */
    method RunStep(now: real) returns (latestEvent: ActivityRollupEvent, sleep: real)
      requires Valid()
      modifies this, am, eventsQueue
      ensures queue == old(queue) + [latestEvent]
      ensures am.latestEventTime == Adopt(old(am.latestEventTime), Coalesce(old(eventsQueue.items), EventTime))
      ensures latestEvent == Classify(now, am.latestEventTime, inactivityWindow)
      ensures eventsQueue.items == []
      ensures sleep == SleepTime(inactivityWindow, latestEvent.elapsedSinceLatestEvent, minSleepTime)
      ensures sleep >= minSleepTime as real
    {
      latestEvent := am.Get(now);
      queue := queue + [latestEvent];
      sleep := SleepTime(inactivityWindow, latestEvent.elapsedSinceLatestEvent, minSleepTime);
    }
  }
}
