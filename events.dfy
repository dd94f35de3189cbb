/** The event record that every processor and modifier works on. */
module Events {

  /** An event of an event-based sensor: timestamp `t`, coordinates `x`, `y`
      and channel `p` (the raw polarity on input, a cluster id once a layer
      has emitted it). Fields are unbounded naturals. */
  datatype Event = Event(t: nat, x: nat, y: nat, p: nat)

}
