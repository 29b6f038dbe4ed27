/** The epoll(4) poller: three states per channel, mirroring the interest set
    the kernel keeps. */
module EpollPoller {
  import opened Channel

  // A channel's index here says whether the kernel knows it.
  const NEW := -1
  const ADDED := 1
  const DELETED := 2

  /** For each registered descriptor its channel's index and mask, and the kernel's interest set. */
  datatype EpollState = EpollState(index: map<int, int>, masks: map<int, Mask>, kernel: map<int, Mask>)

  function Empty(): EpollState {
    EpollState(map[], map[], map[])
  }

  /** The kernel holds exactly the added channels, with their masks; a deleted
      channel waits for nothing. */
  ghost predicate Mirrored(s: EpollState) {
    && s.index.Keys == s.masks.Keys
    && (forall fd | fd in s.index :: s.index[fd] == ADDED || s.index[fd] == DELETED)
    && (forall fd :: fd in s.kernel <==> fd in s.index && s.index[fd] == ADDED)
    && (forall fd | fd in s.kernel :: s.kernel[fd] == s.masks[fd])
    && (forall fd | fd in s.index :: s.index[fd] == DELETED ==> s.masks[fd] == NONE)
  }

  /** A deleted channel updated with an empty mask is added again, with that mask. */
  function Update(s: EpollState, fd: nat, mask: Mask): EpollState {
    if fd !in s.index || s.index[fd] == DELETED then
      EpollState(s.index[fd := ADDED], s.masks[fd := mask], s.kernel[fd := mask])
    else if mask == NONE then
      EpollState(s.index[fd := DELETED], s.masks[fd := mask], s.kernel - {fd})
    else
      EpollState(s.index, s.masks[fd := mask], s.kernel[fd := mask])
  }

  function Remove(s: EpollState, fd: nat): EpollState {
    EpollState(s.index - {fd}, s.masks - {fd}, s.kernel - {fd})
  }

  lemma UpdateMirrored(s: EpollState, fd: nat, mask: Mask)
    requires Mirrored(s)
    ensures Mirrored(Update(s, fd, mask))
  {
  }

  /** What an update leaves in the kernel: the descriptor with its mask, unless it
      was there and now waits for nothing; one that was taken out for that reason
      comes back even with an empty mask.  No other descriptor is touched. */
  lemma UpdateInKernel(s: EpollState, fd: nat, mask: Mask)
    requires Mirrored(s)
    ensures var s' := Update(s, fd, mask);
            && (fd in s'.kernel <==> fd !in s.kernel || mask != 0)
            && (fd in s'.kernel ==> s'.kernel[fd] == mask)
            && fd in s'.index && s'.masks[fd] == mask
            && (forall g | g != fd ::
                  && (g in s'.kernel <==> g in s.kernel) && (g in s.kernel ==> s'.kernel[g] == s.kernel[g])
                  && (g in s'.index <==> g in s.index) && (g in s.index ==> s'.masks[g] == s.masks[g]))
  {
  }

  lemma RemoveMirrored(s: EpollState, fd: nat)
    requires Mirrored(s)
    ensures Mirrored(Remove(s, fd))
  {
  }

  lemma MirroredAt(s: EpollState, fd: int)
    requires Mirrored(s)
    ensures fd in s.index <==> fd in s.masks
    ensures fd in s.index ==> s.index[fd] == ADDED || s.index[fd] == DELETED
    ensures fd in s.index && s.index[fd] == DELETED ==> s.masks[fd] == NONE
    ensures fd in s.kernel ==> s.kernel[fd] == s.masks[fd]
    ensures fd in s.kernel <==> fd in s.index && s.index[fd] == ADDED
  {
  }

  /** What the kernel waits for, entries with an empty mask left out. */
  function Watched(s: EpollState): map<int, Mask> {
    map fd | fd in s.kernel && s.kernel[fd] != NONE :: s.kernel[fd]
  }

  // ---------- The poller object ----------

  datatype CtlOp = Add | Mod | Del

  /** What the kernel keeps for a descriptor: `epoll_event` with its `data.ptr`. */
  datatype Registration = Registration(channel: Channel, events: Mask)

  /** The kernel waits for these masks, on behalf of the registered channels. */
  ghost predicate Registered(kernel: map<int, Registration>, channels: map<int, Channel>, masks: map<int, Mask>) {
    && kernel.Keys == masks.Keys
    && forall fd | fd in kernel :: fd in channels && kernel[fd] == Registration(channels[fd], masks[fd])
  }

  lemma CtlRegistered(kernel: map<int, Registration>, channels: map<int, Channel>, masks: map<int, Mask>,
                      fd: int, channel: Channel, events: Mask)
    requires Registered(kernel, channels, masks)
    ensures Registered(kernel[fd := Registration(channel, events)], channels[fd := channel], masks[fd := events])
    ensures Registered(kernel - {fd}, channels, masks - {fd})
    ensures Registered(kernel - {fd}, channels - {fd}, masks - {fd})
    ensures kernel.Keys == masks.Keys
  {
  }

  class EpollPoller {
    var channels: map<int, Channel>
    /** The interest set behind the epoll descriptor. */
    var kernel: map<int, Registration>
    ghost var state: EpollState

    /** The fields, the kernel's set and the registered channels hold `state`;
        the mask of a channel that is about to be updated may be ahead of it. */
    ghost predicate ValidBut(updating: Channel?)
      reads this, channels.Values
    {
      && Mirrored(state)
      && Registered(kernel, channels, state.kernel)
      && channels.Keys == state.index.Keys
      && forall fd | fd in channels ::
           && channels[fd].fd == fd
           && channels[fd].index == state.index[fd]
           && (channels[fd] != updating ==> channels[fd].events == state.masks[fd])
    }

    ghost predicate Valid()
      reads this, channels.Values
    {
      ValidBut(null)
    }

    constructor ()
      ensures Valid() && state == Empty() && channels == map[]
    {
      channels, kernel, state := map[], map[], Empty();
    }

    predicate HasChannel(channel: Channel)
      reads this
    {
      channel.fd in channels && channels[channel.fd] == channel
    }

    /** epoll_ctl, called only where the kernel accepts it: a descriptor is added
        once, and modified or deleted only while it is there. */
    method Ctl(op: CtlOp, channel: Channel)
      requires op.Add? <==> channel.fd !in kernel
      modifies this`kernel
      ensures kernel == if op.Del? then old(kernel) - {channel.fd}
                        else old(kernel)[channel.fd := Registration(channel, channel.events)]
    {
      kernel := if op.Del? then kernel - {channel.fd}
                else kernel[channel.fd := Registration(channel, channel.events)];
    }

    /** The first branch of `updateChannel`: a channel the kernel does not know. */
    method AddToKernel(channel: Channel)
      requires ValidBut(channel)
      requires channel.fd in channels ==> HasChannel(channel)
      requires channel.index == if channel.fd in channels then DELETED else NEW
      modifies this, channel`index
      ensures Valid()
      ensures channels == old(channels)[channel.fd := channel]
      ensures state == Update(old(state), channel.fd, channel.events)
    {
      UpdateMirrored(state, channel.fd, channel.events);
      MirroredAt(state, channel.fd);
      CtlRegistered(kernel, channels, state.kernel, channel.fd, channel, channel.events);
      RegisteredAlready(channels, channel);
      ghost var s' := Update(state, channel.fd, channel.events);
      assert s' == EpollState(state.index[channel.fd := ADDED], state.masks[channel.fd := channel.events],
                              state.kernel[channel.fd := channel.events]);
      hide Mirrored, Registered, Update;
      if channel.index == NEW {
        channels := channels[channel.fd := channel];
      }
      channel.index := ADDED;
      Ctl(Add, channel);
      state := s';
    }

    /** The second branch: a channel the kernel knows. */
    method ChangeInKernel(channel: Channel)
      requires ValidBut(channel) && HasChannel(channel) && channel.index == ADDED
      modifies this`kernel, this`state, channel`index
      ensures Valid()
      ensures state == Update(old(state), channel.fd, channel.events)
    {
      UpdateMirrored(state, channel.fd, channel.events);
      MirroredAt(state, channel.fd);
      CtlRegistered(kernel, channels, state.kernel, channel.fd, channel, channel.events);
      RegisteredAlready(channels, channel);
      hide Mirrored, Registered;
      if channel.events == NONE {
        Ctl(Del, channel);
        channel.index := DELETED;
      } else {
        Ctl(Mod, channel);
      }
      state := Update(state, channel.fd, channel.events);
    }

    method UpdateChannel(channel: Channel)
      requires ValidBut(channel)
      requires channel.fd in channels ==> HasChannel(channel)
      requires channel.fd in channels <==> channel.index != NEW
      modifies this, channel`index
      ensures Valid()
      ensures channels == old(channels)[channel.fd := channel]
      ensures state == Update(old(state), channel.fd, channel.events)
    {
      MirroredAt(state, channel.fd);
      hide Mirrored, Update, Registered;
      var index := channel.index;
      if index == NEW || index == DELETED {
        AddToKernel(channel);
      } else {
        assert index == ADDED;
        ChangeInKernel(channel);
        RegisteredAlready(channels, channel);
      }
    }

    /** A channel's interest changes and the poller is told. */
    method ChangeInterest(channel: Channel, change: Change)
      requires Valid()
      requires channel.fd in channels ==> HasChannel(channel)
      requires channel.fd in channels <==> channel.index != NEW
      modifies this, channel
      ensures Valid()
      ensures channels == old(channels)[channel.fd := channel]
      ensures state == Update(old(state), channel.fd, Apply(change, old(channel.events)))
      ensures channel.addedToLoop
    {
      hide Mirrored;
      channel.SetInterest(change);
      UpdateChannel(channel);
    }

    /** The channel is as new afterwards, and can be registered again. */
    method RemoveChannel(channel: Channel)
      requires Valid() && HasChannel(channel) && channel.events == NONE
      modifies this, channel`index
      ensures Valid()
      ensures channels == old(channels) - {channel.fd}
      ensures state == Remove(old(state), channel.fd)
      ensures channel.index == NEW
    {
      RemoveMirrored(state, channel.fd);
      MirroredAt(state, channel.fd);
      CtlRegistered(kernel, channels, state.kernel, channel.fd, channel, channel.events);
      hide Mirrored, Registered;
      var index := channel.index;
      assert index == ADDED || index == DELETED;
      channels := channels - {channel.fd};
      if index == ADDED {
        Ctl(Del, channel);
      }
      channel.index := NEW;
      state := Remove(state, channel.fd);
    }

    /** `Channel::remove`. */
    method Detach(channel: Channel)
      requires Valid() && HasChannel(channel) && channel.events == NONE
      modifies this, channel`addedToLoop, channel`index
      ensures Valid() && !channel.addedToLoop
      ensures channels == old(channels) - {channel.fd}
      ensures state == Remove(old(state), channel.fd)
    {
      hide Mirrored;
      channel.LeaveLoop();
      RemoveChannel(channel);
    }

    /** Hands each channel the kernel reported its events, in the kernel's order.
        It reports descriptors of its set; the channel found there is the
        registered one, as the debug build asserts. */
    method FillActiveChannels(events: seq<(int, Mask)>) returns (active: seq<Channel>)
      requires Valid()
      requires forall i | 0 <= i < |events| :: events[i].0 in kernel
      requires forall i, j | 0 <= i < j < |events| :: events[i].0 != events[j].0
      modifies channels.Values`revents
      ensures Valid()
      ensures |active| == |events|
      ensures forall i | 0 <= i < |events| ::
                && active[i].fd == events[i].0
                && HasChannel(active[i])
                && active[i].revents == events[i].1
    {
      active := [];
      for i := 0 to |events|
        invariant Valid()
        invariant |active| == i
        invariant forall j | 0 <= j < i ::
                    && active[j].fd == events[j].0
                    && HasChannel(active[j])
                    && active[j].revents == events[j].1
      {
        var fd := events[i].0;
        assert fd in kernel;
        var channel := kernel[fd].channel;
        assert channels[fd].fd == fd;
        assert HasChannel(channel);
        channel.revents := events[i].1;
        active := active + [channel];
      }
    }
  }
}
