/**
 `ActivityMonitor` of async_activity/activity_queue.py: the event-coalescing
 drain and the `get` call that turns its outcome into a rollup.
 */
module Monitor {
  import opened Wrappers
  import opened Events
  import opened Rollup

  /**
   What one drain of the queue `q` returns, following the drain loop step by
   step: a take from an empty queue times out (`None`); a take that leaves
   the queue empty yields that event's time; any other take is discarded and
   the loop goes on. Whatever the burst, only the last event's time survives.
   */
  function Coalesce<E>(q: seq<E>, timeOf: E -> real): (r: Option<real>)
    ensures r == None <==> q == []
    ensures q != [] ==> r == Some(timeOf(q[|q| - 1]))
  {
    if q == [] then None
    else if |q| == 1 then Some(timeOf(q[0]))
    else Coalesce(q[1..], timeOf)
  }

  /** The latest event time after `get` adopts a drain outcome: an overwrite, not a maximum. */
  function Adopt(latestEventTime: real, found: Option<real>): real
  {
    match found
    case None => latestEventTime
    case Some(t) => t
  }

  /** Events queued before the drain are discarded: only the suffix matters. */
  lemma CoalesceKeepsOnlyLast(earlier: seq<ActivityEvent>, burst: seq<ActivityEvent>)
    requires burst != []
    ensures Coalesce(earlier + burst, EventTime) == Coalesce(burst, EventTime)
  {
  }

  /** The largest timestamp in a non-empty batch of events. */
  function MaxTime(q: seq<ActivityEvent>): (m: real)
    requires q != []
    ensures forall i :: 0 <= i < |q| ==> q[i].time <= m
    ensures exists i :: 0 <= i < |q| && q[i].time == m
  {
    if |q| == 1 then q[0].time
    else
      var rest := MaxTime(q[1..]);
      assert forall i :: 1 <= i < |q| ==> q[i] == q[1..][i - 1];
      if q[0].time >= rest then q[0].time else rest
  }

  predicate StrictlyIncreasing(q: seq<ActivityEvent>)
  {
    forall i, j :: 0 <= i < j < |q| ==> q[i].time < q[j].time
  }

  /** A burst enqueued in time order before a drain coalesces to its newest timestamp. */
  lemma CoalesceBurstIsNewest(q: seq<ActivityEvent>)
    requires q != [] && StrictlyIncreasing(q)
    ensures Coalesce(q, EventTime) == Some(MaxTime(q))
  {
  }

  /**
   The drain adopts whatever event comes last, so the latest event time can
   move backward when that event carries an older timestamp.
   */
  lemma AdoptCanMoveBackward(latestEventTime: real, e: ActivityEvent)
    requires e.time < latestEventTime
    ensures Adopt(latestEventTime, Coalesce([e], EventTime)) < latestEventTime
  {
  }

  /** When no queued event is older than the current latest time, adopting never moves it back. */
  lemma AdoptMonotoneForNewerEvents(latestEventTime: real, q: seq<ActivityEvent>)
    requires forall i :: 0 <= i < |q| ==> q[i].time >= latestEventTime
    ensures Adopt(latestEventTime, Coalesce(q, EventTime)) >= latestEventTime
  {
  }

  class ActivityMonitor {
    const eventsQueue: EventQueue<ActivityEvent>
    const inactivityWindow: real
    var latestEventTime: real

    /** `__attrs_post_init__`: the latest event time starts at the creation time `createdAt`. */
    constructor (eventsQueue: EventQueue<ActivityEvent>, inactivityWindow: real, createdAt: real)
      ensures this.eventsQueue == eventsQueue && this.inactivityWindow == inactivityWindow
      ensures latestEventTime == createdAt
    {
      this.eventsQueue := eventsQueue;
      this.inactivityWindow := inactivityWindow;
      latestEventTime := createdAt;
    }

    /**
     `_get_latest_event_time`: take events until a take leaves the queue
     empty and return that event's time, or `None` when the first take times
     out on an empty queue.
     */
    method GetLatestEventTime() returns (t: Option<real>)
      modifies eventsQueue
      ensures t == Coalesce(old(eventsQueue.items), EventTime)
      ensures eventsQueue.items == []
    {
      ghost var q0 := eventsQueue.items;
      while true
        invariant |eventsQueue.items| <= |q0|
        invariant eventsQueue.items == q0[|q0| - |eventsQueue.items|..]
        invariant eventsQueue.items == [] ==> q0 == []
        decreases |eventsQueue.items|
      {
        var evt := eventsQueue.Get();
        if evt == None {
          return None;
        }
        if eventsQueue.Empty() {
          return Some(evt.value.time);
        }
      }
    }

    /**
     `get`: drain, overwrite the latest event time when the drain found an
     event, and classify the snapshot taken at `now`.
     */
    method Get(now: real) returns (r: ActivityRollupEvent)
      modifies this, eventsQueue
      ensures old(eventsQueue.items) == [] ==> latestEventTime == old(latestEventTime)
      ensures old(eventsQueue.items) != [] ==> latestEventTime == old(eventsQueue.items)[|old(eventsQueue.items)| - 1].time
      ensures latestEventTime == Adopt(old(latestEventTime), Coalesce(old(eventsQueue.items), EventTime))
      ensures r == Classify(now, latestEventTime, inactivityWindow)
      ensures Consistent(r, inactivityWindow)
      ensures eventsQueue.items == []
    {
      var newLatestEventTime := GetLatestEventTime();
      if newLatestEventTime != None {
        latestEventTime := newLatestEventTime.value;
      }
      var elapsedSinceLatestEvent := now - latestEventTime;
      if elapsedSinceLatestEvent >= inactivityWindow {
        r := ActivityRollupEvent(now, Inactivity, latestEventTime, elapsedSinceLatestEvent);
      } else {
        r := ActivityRollupEvent(now, Activity, latestEventTime, elapsedSinceLatestEvent);
      }
    }
  }
}
