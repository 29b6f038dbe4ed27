/** The poll(2) poller: a dense array of slots, with each registered channel
    holding the index of its slot. */
module PollPoller {
  import opened Channel

  /** A slot.  A channel with nothing to wait for has its descriptor stored as
      `-fd - 1`, which poll(2) passes over. */
  datatype PollFd = PollFd(fd: int, events: Mask, revents: Mask)

  function Ignored(x: int): int {
    -x - 1
  }

  function Decode(x: int): nat {
    if x < 0 then Ignored(x) else x
  }

  /** The slots, and for each registered descriptor its channel's index and mask. */
  datatype PollState = PollState(slots: seq<PollFd>, index: map<int, int>, masks: map<int, Mask>)

  function Empty(): PollState {
    PollState([], map[], map[])
  }

  /** Indices and slots are inverse to each other. */
  ghost predicate Linked(s: PollState) {
    && s.index.Keys == s.masks.Keys
    && (forall fd | fd in s.index :: 0 <= s.index[fd] < |s.slots| && Decode(s.slots[s.index[fd]].fd) == fd)
    && (forall i | 0 <= i < |s.slots| ::
          Decode(s.slots[i].fd) in s.index && s.index[Decode(s.slots[i].fd)] == i)
  }

  /** Each slot holds its channel's mask, and is negative exactly when that is empty. */
  ghost predicate Current(s: PollState)
    requires Linked(s)
  {
    forall fd | fd in s.index ::
      && s.slots[s.index[fd]].events == s.masks[fd]
      && (s.slots[s.index[fd]].fd < 0 <==> s.masks[fd] == NONE)
  }

  function Update(s: PollState, fd: nat, mask: Mask): PollState
    requires fd in s.index ==> 0 <= s.index[fd] < |s.slots|
  {
    if fd !in s.index then
      PollState(s.slots + [PollFd(fd, mask, 0)], s.index[fd := |s.slots|], s.masks[fd := mask])
    else
      s.(slots := s.slots[s.index[fd] := PollFd(if mask == NONE then Ignored(fd) else fd, mask, 0)],
         masks := s.masks[fd := mask])
  }

  /** The last slot takes the place of the one that goes. */
  function Remove(s: PollState, fd: nat): PollState
    requires fd in s.index && 0 <= s.index[fd] < |s.slots|
  {
    var i, last := s.index[fd], |s.slots| - 1;
    if i == last then
      PollState(s.slots[..last], s.index - {fd}, s.masks - {fd})
    else
      PollState(s.slots[i := s.slots[last]][..last],
                (s.index - {fd})[Decode(s.slots[last].fd) := i],
                s.masks - {fd})
  }

  lemma UpdateLinked(s: PollState, fd: nat, mask: Mask)
    requires Linked(s)
    ensures Linked(Update(s, fd, mask))
  {
  }

  /** The slots stay current exactly when the channel was registered before or
      comes with something to wait for: a first registration with an empty mask
      stores a non-negative descriptor. */
  lemma UpdateCurrent(s: PollState, fd: nat, mask: Mask)
    requires Linked(s) && Current(s)
    ensures Linked(Update(s, fd, mask))
    ensures Current(Update(s, fd, mask)) <==> fd in s.index || mask != NONE
  {
    var s' := Update(s, fd, mask);
    UpdateLinked(s, fd, mask);
    if fd !in s.index {
      assert fd in s'.index && s'.slots[s'.index[fd]] == PollFd(fd, mask, 0);
    }
  }

  /** An update leaves the channel with a slot that has its mask and nothing
      reported, and every other channel with the slot it had. */
  lemma UpdateSlots(s: PollState, fd: nat, mask: Mask)
    requires Linked(s)
    ensures Linked(Update(s, fd, mask))
    ensures var s' := Update(s, fd, mask);
            && fd in s'.index && s'.slots[s'.index[fd]].events == mask && s'.slots[s'.index[fd]].revents == 0
            && (if fd in s.index && mask == 0 then s'.slots[s'.index[fd]].fd + fd == -1 else s'.slots[s'.index[fd]].fd == fd)
            && (forall g | g in s.index && g != fd ::
                  g in s'.index && s'.index[g] == s.index[g] && s'.slots[s'.index[g]] == s.slots[s.index[g]])
  {
    UpdateLinked(s, fd, mask);
    assert fd in s.index ==> forall g | g in s.index && g != fd :: s.index[g] != s.index[fd];
  }

  /** Swap-remove leaves every other channel with its slot, wherever that is now. */
  lemma RemoveKeepsSlots(s: PollState, fd: nat)
    requires Linked(s) && fd in s.index
    ensures Linked(Remove(s, fd)) && |Remove(s, fd).slots| == |s.slots| - 1
    ensures var s' := Remove(s, fd);
            forall g :: (g in s'.index <==> g in s.index && g != fd)
                        && (g in s'.index ==> s'.slots[s'.index[g]] == s.slots[s.index[g]])
  {
    RemoveLinked(s, fd);
    var s', i, last := Remove(s, fd), s.index[fd], |s.slots| - 1;
    var moved := Decode(s.slots[last].fd);
    assert moved in s.index && s.index[moved] == last;
    forall g | g in s.index && g != fd
      ensures g in s'.index && s'.slots[s'.index[g]] == s.slots[s.index[g]]
    {
      assert s.index[g] != i && (g != moved ==> s.index[g] != last);
    }
  }

  lemma RemoveLinked(s: PollState, fd: nat)
    requires Linked(s) && fd in s.index
    ensures Linked(Remove(s, fd))
    ensures Current(s) ==> Current(Remove(s, fd))
  {
    var s' := Remove(s, fd);
    var i, last := s.index[fd], |s.slots| - 1;
    if i != last {
      var moved := Decode(s.slots[last].fd);
      assert s.index[moved] == last && moved != fd;
      forall g | g in s'.index
        ensures 0 <= s'.index[g] < last && Decode(s'.slots[s'.index[g]].fd) == g
      {
        if g != moved {
          assert s.index[g] != last;
        }
      }
    } else {
      forall g | g in s'.index
        ensures 0 <= s'.index[g] < last
      {
        assert Decode(s.slots[last].fd) == fd;
      }
    }
  }

  lemma LinkedAt(s: PollState, fd: nat)
    requires Linked(s) && fd in s.index
    ensures 0 <= s.index[fd] < |s.slots| && Decode(s.slots[s.index[fd]].fd) == fd
    ensures Decode(s.slots[|s.slots| - 1].fd) in s.index
    ensures s.index[Decode(s.slots[|s.slots| - 1].fd)] == |s.slots| - 1
    ensures fd in s.masks
    ensures Current(s) ==>
              && s.slots[s.index[fd]].events == s.masks[fd]
              && (s.slots[s.index[fd]].fd < 0 <==> s.masks[fd] == NONE)
  {
  }

  lemma SlotOf(s: PollState, i: nat)
    requires Linked(s) && i < |s.slots| && s.slots[i].fd >= 0
    ensures s.slots[i].fd in s.index && s.index[s.slots[i].fd] == i
  {
    assert Decode(s.slots[i].fd) == s.slots[i].fd;
  }

  /** As many slots as registered channels. */
  lemma {:induction false} LinkedSizes(s: PollState)
    requires Linked(s)
    ensures |s.index| == |s.slots|
    decreases |s.slots|
  {
    if s.slots == [] {
      assert forall fd :: fd !in s.index.Keys;
    } else {
      var fd := Decode(s.slots[|s.slots| - 1].fd);
      RemoveLinked(s, fd);
      LinkedSizes(Remove(s, fd));
      assert s.index.Keys == Remove(s, fd).index.Keys + {fd};
    }
  }

  /** What poll(2) waits for: descriptor to mask, negative slots left out. */
  ghost function Watched(s: PollState): map<int, Mask>
    requires Linked(s)
  {
    map fd | fd in s.index && s.slots[s.index[fd]].fd >= 0 :: s.slots[s.index[fd]].events
  }

  // ---------- Ready channels ----------

  /** The descriptors of the slots poll(2) reported on, in slot order. */
  function Ready(slots: seq<PollFd>): seq<int> {
    if slots == [] then []
    else Ready(slots[..|slots| - 1])
         + (if slots[|slots| - 1].revents > 0 then [slots[|slots| - 1].fd] else [])
  }

  /** poll(2) reports nothing for a negative descriptor. */
  predicate Reported(slots: seq<PollFd>) {
    forall i | 0 <= i < |slots| :: slots[i].fd < 0 ==> slots[i].revents == 0
  }

  lemma {:induction false} ReadyFrom(slots: seq<PollFd>) returns (at: seq<nat>)
    ensures |at| == |Ready(slots)|
    ensures forall a | 0 <= a < |at| ::
              at[a] < |slots| && slots[at[a]].revents > 0 && Ready(slots)[a] == slots[at[a]].fd
    ensures forall a, b | 0 <= a < b < |at| :: at[a] < at[b]
    ensures forall i | 0 <= i < |slots| && slots[i].revents > 0 :: i in at
  {
    if slots == [] {
      at := [];
    } else {
      var n := |slots| - 1;
      var before := slots[..n];
      at := ReadyFrom(before);
      assert slots == before + [slots[n]];
      if slots[n].revents > 0 {
        var last := at + [n];
        assert last[|at|] == n;
        assert forall x | x in at :: x in last;
        assert Ready(slots) == Ready(before) + [slots[n].fd];
        hide Ready;
        at := last;
      } else {
        assert Ready(slots) == Ready(before);
        hide Ready;
      }
    }
  }

  /** Each registered channel poll(2) reported on is ready exactly once, and no
      other descriptor is. */
  lemma ReadyOnce(s: PollState)
    requires Linked(s) && Reported(s.slots)
    ensures forall x :: x in Ready(s.slots) <==> x in s.index && s.slots[s.index[x]].revents > 0
    ensures forall a, b | 0 <= a < b < |Ready(s.slots)| :: Ready(s.slots)[a] != Ready(s.slots)[b]
  {
    var at := ReadyFrom(s.slots);
    forall a | 0 <= a < |at|
      ensures Ready(s.slots)[a] in s.index && s.index[Ready(s.slots)[a]] == at[a]
    {
      SlotOf(s, at[a]);
    }
    forall x | x in s.index && s.slots[s.index[x]].revents > 0
      ensures x in Ready(s.slots)
    {
      var a :| 0 <= a < |at| && at[a] == s.index[x];
      assert Ready(s.slots)[a] == x;
    }
  }

  // ---------- The poller object ----------

  class PollPoller {
    var pollfds: seq<PollFd>
    var channels: map<int, Channel>
    ghost var state: PollState

    /** The fields and the registered channels hold `state`; the mask of a
        channel that is about to be updated may be ahead of it. */
    ghost predicate ValidBut(updating: Channel?)
      reads this, channels.Values
    {
      && Linked(state)
      && pollfds == state.slots
      && channels.Keys == state.index.Keys
      && forall fd | fd in channels ::
           && channels[fd].fd == fd
           && channels[fd].index == state.index[fd]
           && (channels[fd] != updating ==> channels[fd].events == state.masks[fd])
    }

    ghost predicate Valid()
      reads this, channels.Values
    {
      ValidBut(null)
    }

    constructor ()
      ensures Valid() && state == Empty() && channels == map[]
    {
      pollfds, channels, state := [], map[], Empty();
    }

    predicate HasChannel(channel: Channel)
      reads this
    {
      channel.fd in channels && channels[channel.fd] == channel
    }

    /** The first branch of `updateChannel`: a new slot at the end. */
    method AddSlot(channel: Channel)
      requires ValidBut(channel) && channel.fd !in channels
      modifies this, channel`index
      ensures Valid()
      ensures channels == old(channels)[channel.fd := channel]
      ensures state == Update(old(state), channel.fd, channel.events)
    {
      UpdateLinked(state, channel.fd, channel.events);
      hide Linked;
      var pfd := PollFd(channel.fd, channel.events, 0);
      pollfds := pollfds + [pfd];
      channel.index := |pollfds| - 1;
      channels := channels[pfd.fd := channel];
      state := Update(state, channel.fd, channel.events);
    }

    /** The second branch: the channel's own slot, rewritten. */
    method RewriteSlot(channel: Channel)
      requires ValidBut(channel) && HasChannel(channel)
      modifies this`pollfds, this`state
      ensures Valid()
      ensures state == Update(old(state), channel.fd, channel.events)
    {
      LinkedAt(state, channel.fd);
      UpdateLinked(state, channel.fd, channel.events);
      hide Linked;
      var idx := channel.index;
      assert pollfds[idx].fd == channel.fd || pollfds[idx].fd == Ignored(channel.fd);
      var pfd := PollFd(channel.fd, channel.events, 0);
      if channel.events == NONE {
        pfd := pfd.(fd := Ignored(channel.fd));
      }
      pollfds := pollfds[idx := pfd];
      state := Update(state, channel.fd, channel.events);
    }

    /** Requires what `PollPoller.cpp` asserts: a registered descriptor belongs to
        this channel, and an unregistered channel has never been registered. */
    method UpdateChannel(channel: Channel)
      requires ValidBut(channel)
      requires channel.fd in channels ==> HasChannel(channel)
      requires channel.fd in channels <==> channel.index >= 0
      modifies this, channel`index
      ensures Valid()
      ensures channels == old(channels)[channel.fd := channel]
      ensures state == Update(old(state), channel.fd, channel.events)
    {
      hide Linked, Update;
      if channel.index < 0 {
        AddSlot(channel);
      } else {
        RewriteSlot(channel);
        RegisteredAlready(channels, channel);
      }
    }

    /** A channel's interest changes and the poller is told. */
    method ChangeInterest(channel: Channel, change: Change)
      requires Valid()
      requires channel.fd in channels ==> HasChannel(channel)
      requires channel.fd in channels <==> channel.index >= 0
      modifies this, channel
      ensures Valid()
      ensures channels == old(channels)[channel.fd := channel]
      ensures state == Update(old(state), channel.fd, Apply(change, old(channel.events)))
      ensures channel.addedToLoop
    {
      hide Linked;
      channel.SetInterest(change);
      UpdateChannel(channel);
    }

    /** Drops the last slot. */
    method PopSlot(channel: Channel)
      requires Valid() && HasChannel(channel) && channel.index == |pollfds| - 1
      modifies this
      ensures Valid()
      ensures channels == old(channels) - {channel.fd}
      ensures state == Remove(old(state), channel.fd)
    {
      LinkedAt(state, channel.fd);
      RemoveLinked(state, channel.fd);
      hide Linked;
      channels := channels - {channel.fd};
      pollfds := pollfds[..|pollfds| - 1];
      state := Remove(state, channel.fd);
    }

    /** Swaps a slot with the last one, corrects the index of the channel moved,
        and drops what is now the last slot. */
    method SwapSlot(channel: Channel)
      requires Valid() && HasChannel(channel) && channel.index != |pollfds| - 1
      modifies this, channels.Values`index
      ensures Valid()
      ensures channels == old(channels) - {channel.fd}
      ensures state == Remove(old(state), channel.fd)
      ensures channel.index == old(channel.index)
    {
      LinkedAt(state, channel.fd);
      RemoveLinked(state, channel.fd);
      ghost var s' := Remove(state, channel.fd);
      assert s' == PollState(state.slots[channel.index := state.slots[|pollfds| - 1]][..|pollfds| - 1],
                             (state.index - {channel.fd})[Decode(state.slots[|pollfds| - 1].fd) := channel.index],
                             state.masks - {channel.fd});
      hide Linked, Current, Decode, Remove;
      channels := channels - {channel.fd};
      var idx, last := channel.index, |pollfds| - 1;
      var channelAtEnd := pollfds[last].fd;
      pollfds := pollfds[idx := pollfds[last]][last := pollfds[idx]];
      if channelAtEnd < 0 {
        channelAtEnd := Ignored(channelAtEnd);
      }
      assert channelAtEnd == Decode(state.slots[last].fd);
      channels[channelAtEnd].index := idx;
      pollfds := pollfds[..last];
      state := s';
    }

    /** Requires what `PollPoller.cpp` asserts: the channel waits for nothing and its
        slot says so.  The channel keeps its stale index. */
    method RemoveChannel(channel: Channel)
      requires Valid() && HasChannel(channel)
      requires channel.events == NONE && 0 <= channel.index < |pollfds|
      requires pollfds[channel.index].fd == Ignored(channel.fd)
      requires pollfds[channel.index].events == channel.events
      modifies this, channels.Values`index
      ensures Valid()
      ensures channels == old(channels) - {channel.fd}
      ensures state == Remove(old(state), channel.fd)
      ensures channel.index == old(channel.index)
    {
      hide Linked, Current, Remove;
      if channel.index == |pollfds| - 1 {
        PopSlot(channel);
      } else {
        SwapSlot(channel);
      }
    }

    /** `Channel::remove`; its assertions hold whenever the slots are current. */
    method Detach(channel: Channel)
      requires Valid() && HasChannel(channel)
      requires channel.events == NONE && Current(state)
      modifies this, channel`addedToLoop, channels.Values`index
      ensures Valid() && !channel.addedToLoop
      ensures channels == old(channels) - {channel.fd}
      ensures state == Remove(old(state), channel.fd)
    {
      LinkedAt(state, channel.fd);
      hide Linked, Current, Remove;
      channel.LeaveLoop();
      RemoveChannel(channel);
    }

    /** Hands each ready channel its events. */
    method FillActiveChannels() returns (active: seq<Channel>)
      requires Valid() && Reported(pollfds)
      modifies channels.Values
      ensures Valid()
      ensures |active| == |Ready(pollfds)|
      ensures forall a | 0 <= a < |active| ::
                && active[a].fd == Ready(pollfds)[a]
                && HasChannel(active[a])
                && 0 <= active[a].index < |pollfds|
                && active[a].revents == pollfds[active[a].index].revents
    {
      active := [];
      for i := 0 to |pollfds|
        invariant Valid()
        invariant |active| == |Ready(pollfds[..i])|
        invariant forall a | 0 <= a < |active| ::
                    && active[a].fd == Ready(pollfds[..i])[a]
                    && HasChannel(active[a])
                    && 0 <= active[a].index < i
                    && active[a].revents == pollfds[active[a].index].revents
      {
        assert pollfds[..i + 1][..i] == pollfds[..i];
        if pollfds[i].revents > 0 {
          SlotOf(state, i);
          var channel := channels[pollfds[i].fd];
          channel.revents := pollfds[i].revents;
          active := active + [channel];
        }
      }
      assert pollfds[..|pollfds|] == pollfds;
    }
  }
}
