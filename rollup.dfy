/**
 The rollup value the monitor produces and the rule that classifies it.
 */
module Rollup {

  datatype RollupType = Activity | Inactivity

  /** An immutable snapshot: when it was computed, its class, the latest event time it saw. */
  datatype ActivityRollupEvent = ActivityRollupEvent(
    time: real,
    rollupType: RollupType,
    latestEventTime: real,
    elapsedSinceLatestEvent: real)

  /** What every rollup produced for a window of `inactivityWindow` satisfies. */
  predicate Consistent(r: ActivityRollupEvent, inactivityWindow: real)
  {
    && r.elapsedSinceLatestEvent == r.time - r.latestEventTime
    && (r.rollupType == Inactivity <==> r.elapsedSinceLatestEvent >= inactivityWindow)
  }

  /**
   The classification step of `ActivityMonitor.get`: the rollup computed at
   `now` from the latest event time, inactive exactly when the window has
   fully elapsed (the boundary counts as inactivity).
   */
  function Classify(now: real, latestEventTime: real, inactivityWindow: real): (r: ActivityRollupEvent)
    ensures r.time == now && r.latestEventTime == latestEventTime
    ensures r.elapsedSinceLatestEvent == now - latestEventTime
    ensures r.rollupType == Inactivity <==> now - latestEventTime >= inactivityWindow
    ensures r.rollupType == Activity <==> now - latestEventTime < inactivityWindow
  {
    var elapsed := now - latestEventTime;
    if elapsed >= inactivityWindow then
      ActivityRollupEvent(now, Inactivity, latestEventTime, elapsed)
    else
      ActivityRollupEvent(now, Activity, latestEventTime, elapsed)
  }

  /**
   Classification is a pure function of the stored fields: a rollup is
   consistent exactly when re-deriving it from its own time and latest event
   time gives it back.
   */
  lemma ClassifyRoundTrip(r: ActivityRollupEvent, inactivityWindow: real)
    ensures Consistent(r, inactivityWindow) <==> r == Classify(r.time, r.latestEventTime, inactivityWindow)
  {
  }

  /** Once the window has elapsed, later snapshots with no new event stay inactive. */
  lemma InactivityPersists(now: real, later: real, latestEventTime: real, inactivityWindow: real)
    requires now <= later
    requires Classify(now, latestEventTime, inactivityWindow).rollupType == Inactivity
    ensures Classify(later, latestEventTime, inactivityWindow).rollupType == Inactivity
    ensures Classify(later, latestEventTime, inactivityWindow).elapsedSinceLatestEvent
         >= Classify(now, latestEventTime, inactivityWindow).elapsedSinceLatestEvent
  {
  }
}
