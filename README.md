# async_activity rollup core, in Dafny

This project models the rollup logic of `async_activity`, an idle/presence
detector. Timestamped keyboard and mouse events arrive on a queue. An
`ActivityMonitor` drains that queue and keeps only the newest timestamp. It then
classifies the moment as `activity` or `inactivity`. An `ActivityQueue` asks the
monitor for one rollup per iteration, queues it, and pauses for an adaptive
time. `async_q_tee` copies one queue into `n` queues, in order.

Modules:

- `Wrappers`: `Option`, standing for Python's `None`.
- `Events`: `EventType`, `ActivityEvent` and the consumer side of the event
  queue (`get` and `empty`). The queue is a class over a `seq` field.
- `Rollup`: `ActivityRollupEvent` and the classification rule.
- `Monitor`: the `ActivityMonitor` class, with the drain loop as a method.
  `Coalesce` is the function that specifies the drain.
- `Scheduler`: the pacing formula `SleepTime` and one iteration of
  `ActivityQueue.run`.
- `Tee`: the fan-out. The `Tee` class holds a source `seq` and an
  `array<seq<T>>` of outputs. One `Step` is one `_tee` iteration. `Pump(k)`
  runs `k` of them. `Put` adds an item to the live source queue.
- `Legacy`: the tuple-based copy in `activity_queue.py`. This covers its
  monitor and its pacing formula. Its `async_q_tee` (activity_queue.py:67-84)
  is the same text as the newer one, so `Tee.Tee` models both.

Timestamps are `real`. The code only subtracts and compares them, so float
rounding plays no part. The current time is a parameter (`now`, `createdAt`)
instead of a call to `datetime.now()`. The drain's timeout is the case where
the queue is empty when a take starts. With no concurrent producer, that is
the only way the timeout can fire. The pause is returned, not slept.

`latest_event_time` is not monotone: the code overwrites it with the drained
time unconditionally (async_activity/activity_queue.py:33-34).
`Monitor.AdoptCanMoveBackward` shows the field moving back.
`Monitor.AdoptMonotoneForNewerEvents` gives the condition under which it does
not.

## Model

| member | source | states |
|---|---|---|
| Events.EventQueue.Get | async_activity/aiopynput.py:13-18 | A take from a non-empty queue returns its oldest event and leaves the rest in order. A take from an empty queue ends in the timeout (`None`) and changes nothing. |
| Events.EventQueue.Put | async_activity/aiopynput.py:68-71 | A producer appends exactly one event at the tail (FIFO). |
| Rollup.Classify | async_activity/activity_queue.py:36-51 | The rollup has `time = now`, the given latest event time and `elapsed = now - latest`. It is `Inactivity` iff `elapsed >= inactivity_window`, with the boundary inclusive, and `Activity` iff `elapsed < inactivity_window`. |
| Rollup.ClassifyRoundTrip | async_activity/activity_queue.py:14-19 | A rollup is consistent (elapsed is time minus latest, and the type agrees with the threshold) iff re-deriving it from its own stored time and latest event time gives it back. |
| Rollup.InactivityPersists | async_activity/activity_queue.py:37-38 | With no new event, a snapshot that is inactive stays inactive at every later time, and its elapsed time does not shrink. |
| Monitor.Coalesce | async_activity/activity_queue.py:59-66 | The drain of a queue yields `None` iff the queue is empty. Otherwise it yields the time of the last-enqueued event. |
| Monitor.CoalesceKeepsOnlyLast | async_activity/activity_queue.py:60-64 | Events ahead of a non-empty burst do not affect the drain: the intermediate events are discarded. |
| Monitor.CoalesceBurstIsNewest | async_activity/activity_queue.py:55-64 | A burst with strictly increasing timestamps drains to its largest timestamp. |
| Monitor.AdoptCanMoveBackward | async_activity/activity_queue.py:32-34 | A drained event older than the current latest event time still overwrites it, so the field moves back (no maximum is taken). |
| Monitor.AdoptMonotoneForNewerEvents | async_activity/activity_queue.py:32-34 | If no queued event is older than the current latest event time, the update never moves the field back. |
| Monitor.ActivityMonitor.constructor | async_activity/activity_queue.py:28-29 | `latest_event_time` starts at the creation time. |
| Monitor.ActivityMonitor.GetLatestEventTime | async_activity/activity_queue.py:54-66 | The drain loop empties the queue and returns exactly `Coalesce` of the queue it found: the last event's time, or `None` on an empty queue. |
| Monitor.ActivityMonitor.Get | async_activity/activity_queue.py:31-52 | On an empty queue `latest_event_time` is unchanged. Otherwise it is overwritten with the last event's time. The result is `Classify(now, latest, window)`, so it is consistent, and the queue is left empty. |
| Scheduler.SleepTime | async_activity/activity_queue.py:89-94 | The pause is at least `inactivity_window - elapsed` and at least `min_sleep_time`, and it equals one of the two: their maximum. |
| Scheduler.SleepIsFloorOnceInactive | async_activity/activity_queue.py:89-94 | After an inactivity rollup, with a non-negative floor, the pause is exactly `min_sleep_time`. |
| Scheduler.SleepIsRemainingWindowWhileActive | async_activity/activity_queue.py:89-94 | After an activity rollup whose remaining window exceeds the floor, the pause is the remaining window. |
| Scheduler.SleepExamples | async_activity/activity_queue.py:78-94 | With window 60 and the default floor 30, elapsed 5 gives a pause of 55 and elapsed 90 gives 30. |
| Scheduler.ActivityQueue.constructor | async_activity/activity_queue.py:75-83 | The queue starts empty. It owns a fresh monitor that shares its event queue and window, created at the given time. The floor defaults to 30. |
| Scheduler.ActivityQueue.RunStep | async_activity/activity_queue.py:85-94 | One iteration appends exactly the rollup the monitor returned and nothing else. That rollup classifies `now` against the updated latest event time. The returned pause is `SleepTime` of its elapsed time, so it is at least `min_sleep_time`. |
| Tee.Tee.constructor | async_activity/activity_queue.py:97-114 | `async_q_tee` makes exactly `n` fresh, empty output queues (two by default) over the given source. |
| Tee.Tee.Put | async_activity/activity_queue.py:88 | An item put on the source after the tee was created joins the tail of the source; the outputs and the consumed prefix are unchanged until a step takes it. |
| Tee.Tee.Step | async_activity/activity_queue.py:108-111 | On a non-empty source, one iteration removes the head and appends it once to every output. On an empty source nothing changes. Each output keeps holding the consumed prefix of the source. |
| Tee.Tee.Pump | async_activity/activity_queue.py:108-111 | `k` iterations move `min(k, m)` items, where `m` is the length of the source. Each output gains exactly those items, in source order, and equals the consumed prefix of everything put on the source. |
| Legacy.LegacyClassify | activity_queue.py:23-28 | The tuple is `(now, "inactivity", latest, elapsed)` iff `elapsed >= inactivity_window`, and `(now, "activity", latest, elapsed)` otherwise. It is the tuple layout of `Rollup.Classify`'s rollup. |
| Legacy.LegacySleepTime | activity_queue.py:54-63 | The pause is the maximum of `inactivity_window - latest_event[-1]` (the elapsed field) and `min_sleep_time`, whose default is 30. |
| Legacy.LegacySleepAgrees | activity_queue.py:63 | The older pacing formula agrees with `Scheduler.SleepTime` on every rollup. |
| Legacy.LegacyActivityMonitor.constructor | activity_queue.py:15-16 | `latest_event_time` starts at the creation time. |
| Legacy.LegacyActivityMonitor.GetLatestEventTime | activity_queue.py:31-43 | The drain empties the queue and returns the first tuple field of the last event, or `None` on an empty queue. |
| Legacy.LegacyActivityMonitor.Get | activity_queue.py:18-29 | On an empty queue `latest_event_time` is unchanged. Otherwise it is overwritten with the last event's timestamp. The result is `LegacyClassify(now, latest, window)`, and its type is `"inactivity"` iff the elapsed field reaches the window. |

## Left out

- The pynput listener threads and the janus thread-to-asyncio bridge (`aiopynput.py`, `async_activity/aiopynput.py`). These are OS input hooks and true multi-thread concurrency. Only the event values and the queue's `get`/`empty`/`put` protocol are modelled.
- Real waiting. This covers the `async_timeout` deadline, `asyncio.sleep`, and a `get` that blocks on an empty queue. The timeout is the empty-queue case. The pause is returned. A tee step on an empty source changes nothing.
- Producers that enqueue while a drain is running. The drain is modelled over the queue contents at the start of the call.
- The infinite `while True` loops of `run` and `_tee`. One `run` iteration is modelled, and `k` `_tee` iterations.
- Tee.Tee.Step: `asyncio.gather` puts to all outputs concurrently. The model appends in output order. Only the per-output order can be observed, and it is the same.
- Tee.Tee.Pump: backpressure from a bounded destination queue is not modelled, because the outputs are unbounded `asyncio.Queue`s.
- `datetime.now()`: the current time is a parameter.
- `log_inactivity` and `log_activity` in both files, and the console colouring. These are console output only.
- The older `ActivityQueue` constructor and enqueue (activity_queue.py:56-62). The constructor refers to unbound names, and `self.queue.put(...)` is never awaited, so nothing is ever enqueued. Only its pacing formula (`Legacy.LegacySleepTime`) is modelled.
