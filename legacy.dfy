/**
 The older copy in activity_queue.py, where events and rollups are plain
 tuples. Its monitor behaves like `Monitor.ActivityMonitor`; its queue class
 cannot be constructed, so only its pacing formula is modelled.
 */
module Legacy {
  import opened Wrappers
  import opened Events
  import opened Rollup
  import opened Monitor
  import opened Scheduler

  /** `(timestamp, event name, callback arguments)`, as the listener enqueues it. */
  type LegacyEvent = (real, string, Payload)

  /** `(time, "activity" or "inactivity", latest event time, elapsed)`. */
  type LegacyRollup = (real, string, real, real)

  function LeadingTime(e: LegacyEvent): real
  {
    e.0
  }

  function TypeName(t: RollupType): string
  {
    match t
    case Activity => "activity"
    case Inactivity => "inactivity"
  }

  /** The tuple layout of a rollup value. */
  function AsTuple(r: ActivityRollupEvent): LegacyRollup
  {
    (r.time, TypeName(r.rollupType), r.latestEventTime, r.elapsedSinceLatestEvent)
  }

  /**
   The classification tuple of the older `get`: the same rollup as the
   record-based monitor computes, laid out as a tuple.
   */
  function LegacyClassify(now: real, latestEventTime: real, inactivityWindow: real): (r: LegacyRollup)
    ensures r == AsTuple(Classify(now, latestEventTime, inactivityWindow))
    ensures r.0 == now && r.2 == latestEventTime && r.3 == now - latestEventTime
    ensures r.1 == "inactivity" <==> r.3 >= inactivityWindow
    ensures r.1 == "activity" <==> r.3 < inactivityWindow
  {
    var elapsedSinceLatestEvent := now - latestEventTime;
    if elapsedSinceLatestEvent >= inactivityWindow then
      (now, "inactivity", latestEventTime, elapsedSinceLatestEvent)
    else
      (now, "activity", latestEventTime, elapsedSinceLatestEvent)
  }

  /**
   The pause of the older `run`: `max(inactivity_window - latest_event[-1],
   min_sleep_time)`, where the last tuple field is the elapsed time.
   */
  function LegacySleepTime(inactivityWindow: real, latestEvent: LegacyRollup,
                           minSleepTime: int := DefaultMinSleepTime): (s: real)
    ensures s >= inactivityWindow - latestEvent.3 && s >= minSleepTime as real
    ensures s == inactivityWindow - latestEvent.3 || s == minSleepTime as real
  {
    if minSleepTime as real > inactivityWindow - latestEvent.3 then minSleepTime as real
    else inactivityWindow - latestEvent.3
  }

  /** Both copies pace identically on the same rollup. */
  lemma LegacySleepAgrees(inactivityWindow: real, r: ActivityRollupEvent, minSleepTime: int)
    ensures LegacySleepTime(inactivityWindow, AsTuple(r), minSleepTime)
         == SleepTime(inactivityWindow, r.elapsedSinceLatestEvent, minSleepTime)
  {
  }

  class LegacyActivityMonitor {
    const eventsQueue: EventQueue<LegacyEvent>
    const inactivityWindow: real
    var latestEventTime: real

    /** `__attrs_post_init__`: the latest event time starts at the creation time `createdAt`. */
    constructor (eventsQueue: EventQueue<LegacyEvent>, inactivityWindow: real, createdAt: real)
      ensures this.eventsQueue == eventsQueue && this.inactivityWindow == inactivityWindow
      ensures latestEventTime == createdAt
    {
      this.eventsQueue := eventsQueue;
      this.inactivityWindow := inactivityWindow;
      latestEventTime := createdAt;
    }

    /**
     `_get_latest_event_time`: drain until a take leaves the queue empty and
     return the first field of that tuple; `None` when the first take times
     out on an empty queue.
     */
    method GetLatestEventTime() returns (t: Option<real>)
      modifies eventsQueue
      ensures t == Coalesce(old(eventsQueue.items), LeadingTime)
      ensures eventsQueue.items == []
    {
      ghost var q0 := eventsQueue.items;
      while true
        invariant |eventsQueue.items| <= |q0|
        invariant eventsQueue.items == q0[|q0| - |eventsQueue.items|..]
        invariant eventsQueue.items == [] ==> q0 == []
        decreases |eventsQueue.items|
      {
        var evt := eventsQueue.Get();
        if evt == None {
          return None;
        }
        var latestTs := evt.value.0;
        if eventsQueue.Empty() {
          return Some(latestTs);
        }
      }
    }

    /** `get`: drain, overwrite the latest event time if an event was found, classify at `now`. */
    method Get(now: real) returns (r: LegacyRollup)
      modifies this, eventsQueue
      ensures old(eventsQueue.items) == [] ==> latestEventTime == old(latestEventTime)
      ensures old(eventsQueue.items) != [] ==> latestEventTime == old(eventsQueue.items)[|old(eventsQueue.items)| - 1].0
      ensures r == LegacyClassify(now, latestEventTime, inactivityWindow)
      ensures r.1 == "inactivity" <==> r.3 >= inactivityWindow
      ensures eventsQueue.items == []
    {
      var newLatestEventTime := GetLatestEventTime();
      if newLatestEventTime != None {
        latestEventTime := newLatestEventTime.value;
      }
      var elapsedSinceLatestEvent := now - latestEventTime;
      if elapsedSinceLatestEvent >= inactivityWindow {
        r := (now, "inactivity", latestEventTime, elapsedSinceLatestEvent);
      } else {
        r := (now, "activity", latestEventTime, elapsedSinceLatestEvent);
      }
    }
  }
}
