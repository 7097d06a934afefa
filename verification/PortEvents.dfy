/** What enqueueing and notifying do to a port's flag and event queue; shared by the port and its interleaved model. */
module PortEvents {
  import opened Words

  const EVENT_CAPACITY: nat := 100
  const SEND_NOW: nat := 10

  /** The event queue after a send that does not wait: dropped when full, and then events are pending anyway. */
  function Posted(events: nat): nat {
    Min(events + 1, Max(events, EVENT_CAPACITY))
  }

  /** The flag and the events after a packet made the queue count packets long. */
  function AfterEnqueue(count: nat, flag: bool, events: nat): (bool, nat) {
    if count >= SEND_NOW then (flag, Posted(events)) else (true, events)
  }

  /** The events after notify_ports has lowered the flag. */
  function AfterNotify(flag: bool, events: nat): nat {
    if flag then Posted(events) else events
  }
}
