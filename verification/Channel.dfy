/** A channel's interest mask and the operations that drive a poller. */
module Channel {

  /** Event bits, as a non-negative `short`. */
  type Mask = n: int | 0 <= n < 0x8000

  const NONE: Mask := 0
  const READ: Mask := 3   // POLLIN | POLLPRI
  const WRITE: Mask := 4  // POLLOUT

  datatype Change = EnableReading | DisableReading | EnableWriting | DisableWriting | DisableAll

  /** Sets or clears the two lowest bits, or the third. */
  function Apply(change: Change, events: Mask): Mask {
    match change
    case EnableReading => events - events % 4 + READ
    case DisableReading => events - events % 4
    case EnableWriting => if events / 4 % 2 == 0 then events + WRITE else events
    case DisableWriting => if events / 4 % 2 == 0 then events else events - WRITE
    case DisableAll => NONE
  }

  /** The masks a channel can have: neither, reading, writing, both. */
  predicate Reachable(events: Mask) {
    events in {NONE, READ, WRITE, READ + WRITE}
  }

  /** The mutators as `Channel.h` writes them, on machine words. */
  function ApplyBits(change: Change, events: bv16): bv16 {
    match change
    case EnableReading => events | 3
    case DisableReading => events & !3
    case EnableWriting => events | 4
    case DisableWriting => events & !4
    case DisableAll => 0
  }

  /** Arithmetic and bit operations agree on every mask that can arise, and
      only such masks arise. */
  lemma ApplyIsBitwise(change: Change, bits: bv16)
    requires bits == 0 || bits == 3 || bits == 4 || bits == 7
    ensures var events := if bits == 0 then 0 else if bits == 3 then 3 else if bits == 4 then 4 else 7;
            && Reachable(Apply(change, events))
            && ApplyBits(change, bits) == Apply(change, events) as bv16
  {
  }

  class Channel {
    const fd: nat
    var events: Mask
    var revents: Mask
    var index: int
    var addedToLoop: bool

    constructor (fd: nat)
      ensures this.fd == fd && events == NONE && revents == 0 && index == -1 && !addedToLoop
    {
      this.fd := fd;
      events, revents, index, addedToLoop := NONE, 0, -1, false;
    }

    /** The part of an interest change, and of `update`, before the poller is told. */
    method SetInterest(change: Change)
      modifies this`events, this`addedToLoop
      ensures events == Apply(change, old(events)) && addedToLoop
    {
      events := Apply(change, events);
      addedToLoop := true;
    }

    /** The part of `remove` before the poller is told. */
    method LeaveLoop()
      requires events == NONE
      modifies this`addedToLoop
      ensures !addedToLoop
    {
      addedToLoop := false;
    }
  }

  /** Entering a channel again under its descriptor changes nothing. */
  lemma RegisteredAlready(channels: map<int, Channel>, channel: Channel)
    ensures channel.fd in channels && channels[channel.fd] == channel ==>
              channels[channel.fd := channel] == channels
  {
  }
}
