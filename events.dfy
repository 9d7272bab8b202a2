/**
 The boundary between the input-hook listener threads and the cooperative
 scheduler. Only the event values and the consumer side of the event queue
 (`get` and `empty`) are modelled; the listener threads and the thread-safe
 bridge that feeds the queue are external.
 */
module Events {
  import opened Wrappers

  /** The fixed set of input kinds a listener reports. */
  datatype EventType = Move | Click | Scroll | Press | Release

  /** The arguments the listener callback received; the core never looks inside. */
  datatype Payload = Payload(args: seq<int>)

  /** One raw input event, stamped with the time at which it was observed. */
  datatype ActivityEvent = ActivityEvent(time: real, eventType: EventType, args: Payload)

  function EventTime(e: ActivityEvent): real
  {
    e.time
  }

  /**
   A FIFO queue of events as the scheduler sees it. `items[0]` is the oldest
   event. Producers append with `Put`; the single consumer takes with `Get`.
   */
  class EventQueue<E> {
    var items: seq<E>

    constructor ()
      ensures items == []
    {
      items := [];
    }

    /** A producer hands over one event (never blocks). */
    method Put(e: E)
      modifies this
      ensures items == old(items) + [e]
    {
      items := items + [e];
    }

    /**
     Takes the oldest event. With no concurrent producer, a wait on an empty
     queue can only end in the caller's timeout: that outcome is `None`, and
     the queue is left as it was.
     */
    method Get() returns (r: Option<E>)
      modifies this
      ensures old(items) == [] ==> r == None && items == []
      ensures old(items) != [] ==> r == Some(old(items)[0]) && items == old(items)[1..]
    {
      if items == [] {
        r := None;
      } else {
        r := Some(items[0]);
        items := items[1..];
      }
    }

    predicate Empty()
      reads this
    {
      items == []
    }
  }
}
