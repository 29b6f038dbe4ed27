/** The two pollers and the channels' own masks, over any legal sequence of
    operations. */
module PollerRefinement {
  import opened Channel
  import P = PollPoller
  import E = EpollPoller

  datatype Op = ChangeInterest(fd: nat, change: Change) | Remove(fd: nat)

  /** The registered channels and their masks. */
  type Interest = map<int, Mask>

  /** The mask a change starts from; a channel not yet registered is new. */
  function MaskOf(m: Interest, fd: nat): Mask {
    if fd in m then m[fd] else NONE
  }

  function Step(m: Interest, op: Op): Interest {
    match op
    case ChangeInterest(fd, change) => m[fd := Apply(change, MaskOf(m, fd))]
    case Remove(fd) => m - {fd}
  }

  /** A channel is first registered with something to wait for, and removed only
      while registered with nothing to wait for. */
  predicate LegalStep(m: Interest, op: Op) {
    match op
    case ChangeInterest(fd, change) => fd in m || Apply(change, NONE) != NONE
    case Remove(fd) => fd in m && m[fd] == NONE
  }

  predicate Legal(m: Interest, ops: seq<Op>)
    decreases |ops|
  {
    ops != [] ==> LegalStep(m, ops[0]) && Legal(Step(m, ops[0]), ops[1..])
  }

  function Run(m: Interest, ops: seq<Op>): Interest
    decreases |ops|
  {
    if ops == [] then m else Run(Step(m, ops[0]), ops[1..])
  }

  /** What any poller should wait for. */
  function NonEmpty(m: Interest): Interest {
    map fd | fd in m && m[fd] != NONE :: m[fd]
  }

  ghost predicate PollInv(s: P.PollState) {
    P.Linked(s) && P.Current(s)
  }

  function PollStep(s: P.PollState, op: Op): P.PollState
    requires forall fd | fd in s.index :: 0 <= s.index[fd] < |s.slots|
    requires op.Remove? ==> op.fd in s.index
  {
    match op
    case ChangeInterest(fd, change) => P.Update(s, fd, Apply(change, MaskOf(s.masks, fd)))
    case Remove(fd) => P.Remove(s, fd)
  }

  function EpollStep(s: E.EpollState, op: Op): E.EpollState {
    match op
    case ChangeInterest(fd, change) => E.Update(s, fd, Apply(change, MaskOf(s.masks, fd)))
    case Remove(fd) => E.Remove(s, fd)
  }

  lemma PollRefinesStep(s: P.PollState, op: Op)
    requires PollInv(s) && LegalStep(s.masks, op)
    ensures op.Remove? ==> op.fd in s.index
    ensures PollInv(PollStep(s, op)) && PollStep(s, op).masks == Step(s.masks, op)
  {
    match op
    case ChangeInterest(fd, change) =>
      P.UpdateCurrent(s, fd, Apply(change, MaskOf(s.masks, fd)));
    case Remove(fd) =>
      P.RemoveLinked(s, fd);
  }

  lemma EpollRefinesStep(s: E.EpollState, op: Op)
    requires E.Mirrored(s)
    ensures E.Mirrored(EpollStep(s, op)) && EpollStep(s, op).masks == Step(s.masks, op)
  {
    match op
    case ChangeInterest(fd, change) =>
      E.UpdateMirrored(s, fd, Apply(change, MaskOf(s.masks, fd)));
    case Remove(fd) =>
      E.RemoveMirrored(s, fd);
  }

  ghost function PollRun(s: P.PollState, ops: seq<Op>): (r: P.PollState)
    requires PollInv(s) && Legal(s.masks, ops)
    ensures PollInv(r) && r.masks == Run(s.masks, ops)
    decreases |ops|
  {
    if ops == [] then s
    else
      PollRefinesStep(s, ops[0]);
      PollRun(PollStep(s, ops[0]), ops[1..])
  }

  ghost function EpollRun(s: E.EpollState, ops: seq<Op>): (r: E.EpollState)
    requires E.Mirrored(s)
    ensures E.Mirrored(r) && r.masks == Run(s.masks, ops)
    decreases |ops|
  {
    if ops == [] then s
    else
      EpollRefinesStep(s, ops[0]);
      EpollRun(EpollStep(s, ops[0]), ops[1..])
  }

  lemma EmptyInv()
    ensures PollInv(P.Empty()) && E.Mirrored(E.Empty())
  {
  }

  lemma PollWatches(s: P.PollState)
    requires PollInv(s)
    ensures P.Watched(s) == NonEmpty(s.masks)
    ensures s.index.Keys == s.masks.Keys && |s.slots| == |s.masks|
  {
    P.LinkedSizes(s);
    assert |s.index.Keys| == |s.masks.Keys|;
    forall fd
      ensures fd in P.Watched(s) <==> fd in NonEmpty(s.masks)
      ensures fd in P.Watched(s) ==> P.Watched(s)[fd] == NonEmpty(s.masks)[fd]
    {
      if fd in s.index { P.LinkedAt(s, fd); }
    }
  }

  lemma EpollWatches(s: E.EpollState)
    requires E.Mirrored(s)
    ensures E.Watched(s) == NonEmpty(s.masks) && s.index.Keys == s.masks.Keys
  {
    forall fd
      ensures fd in E.Watched(s) <==> fd in NonEmpty(s.masks)
      ensures fd in E.Watched(s) ==> E.Watched(s)[fd] == NonEmpty(s.masks)[fd]
    {
      if fd in s.index { E.MirroredAt(s, fd); }
    }
  }

  /** After any legal run the poll(2) array without its negative slots, the
      kernel's epoll set without its empty entries and the channels' own
      non-empty masks are one and the same map, and both pollers have the same
      channels registered. */
  lemma PollersAgree(ops: seq<Op>)
    requires Legal(map[], ops)
    ensures var p, e := PollRun(P.Empty(), ops), EpollRun(E.Empty(), ops);
            && P.Watched(p) == E.Watched(e) == NonEmpty(Run(map[], ops))
            && p.index.Keys == e.index.Keys == Run(map[], ops).Keys
            && |p.slots| == |Run(map[], ops)|
  {
    hide PollRun, EpollRun, Run, NonEmpty, P.Watched, E.Watched, P.Linked, P.Current, E.Mirrored;
    assert PollInv(P.Empty()) && E.Mirrored(E.Empty()) by { EmptyInv(); }
    PollWatches(PollRun(P.Empty(), ops));
    EpollWatches(EpollRun(E.Empty(), ops));
  }

  /** From states with the same channels and masks the pollers go on watching the
      same exactly if the channel is registered already or comes with something
      to wait for. */
  lemma UpdateAgrees(p: P.PollState, e: E.EpollState, fd: nat, mask: Mask)
    requires PollInv(p) && E.Mirrored(e) && p.masks == e.masks
    ensures P.Linked(P.Update(p, fd, mask))
    ensures P.Watched(P.Update(p, fd, mask)) == E.Watched(E.Update(e, fd, mask))
            <==> fd in p.index || mask != NONE
  {
    hide NonEmpty, E.Watched, E.Mirrored;
    var p', e' := P.Update(p, fd, mask), E.Update(e, fd, mask);
    P.UpdateCurrent(p, fd, mask);
    E.UpdateMirrored(e, fd, mask);
    EpollWatches(e');
    assert p'.masks == e'.masks;
    if fd in p.index || mask != NONE {
      PollWatches(p');
    } else {
      assert fd in P.Watched(p');
      assert fd !in NonEmpty(e'.masks) by { assert e'.masks[fd] == NONE; NonEmptyAt(e'.masks, fd); }
    }
  }

  lemma NonEmptyAt(m: Interest, fd: int)
    ensures fd in NonEmpty(m) <==> fd in m && m[fd] != NONE
  {
  }

  /** Registering a channel with an empty mask is what tells the pollers apart:
      poll(2) then watches it for errors under its own descriptor, and its
      removal finds a slot that is not marked as ignored. */
  lemma EmptyRegistration(fd: nat, change: Change)
    requires Apply(change, NONE) == NONE
    ensures var p := PollStep(P.Empty(), ChangeInterest(fd, change));
            && P.Linked(p) && !P.Current(p)
            && P.Watched(p) == map[fd := NONE]
            && p.slots[p.index[fd]].fd != P.Ignored(fd)
    ensures E.Watched(EpollStep(E.Empty(), ChangeInterest(fd, change))) == map[]
  {
    P.UpdateCurrent(P.Empty(), fd, NONE);
    assert P.Watched(PollStep(P.Empty(), ChangeInterest(fd, change))) == map[fd := NONE];
  }

  // ---------- The same of the poller objects ----------

  lemma PollRunStep(s: P.PollState, ops: seq<Op>)
    requires PollInv(s) && Legal(s.masks, ops)
    ensures ops == [] ==> PollRun(s, ops) == s
    ensures ops != [] ==>
              && LegalStep(s.masks, ops[0]) && (ops[0].Remove? ==> ops[0].fd in s.index)
              && PollInv(PollStep(s, ops[0])) && Legal(PollStep(s, ops[0]).masks, ops[1..])
              && PollRun(s, ops) == PollRun(PollStep(s, ops[0]), ops[1..])
  {
    if ops != [] { PollRefinesStep(s, ops[0]); }
  }

  lemma EpollRunStep(s: E.EpollState, ops: seq<Op>)
    requires E.Mirrored(s) && Legal(s.masks, ops)
    ensures ops == [] ==> EpollRun(s, ops) == s
    ensures ops != [] ==>
              && LegalStep(s.masks, ops[0])
              && E.Mirrored(EpollStep(s, ops[0])) && Legal(EpollStep(s, ops[0]).masks, ops[1..])
              && EpollRun(s, ops) == EpollRun(EpollStep(s, ops[0]), ops[1..])
  {
    if ops != [] { EpollRefinesStep(s, ops[0]); }
  }

  /** One operation of a client of a `PollPoller`, with a new channel for each
      descriptor that is not registered. */
  method PerformPoll(poller: P.PollPoller, op: Op)
    requires poller.Valid() && PollInv(poller.state) && LegalStep(poller.state.masks, op)
    modifies poller, poller.channels.Values
    ensures poller.Valid()
    ensures op.Remove? ==> op.fd in old(poller.state.index)
    ensures poller.state == PollStep(old(poller.state), op)
    ensures fresh(poller.channels.Values - old(poller.channels.Values))
  {
    if op.fd in poller.state.index { P.LinkedAt(poller.state, op.fd); }
    hide P.Update, P.Remove, P.Linked, P.Current, Apply;
    match op
    case ChangeInterest(fd, change) =>
      var channel;
      if fd in poller.channels {
        channel := poller.channels[fd];
      } else {
        channel := new Channel(fd);
      }
      poller.ChangeInterest(channel, change);
    case Remove(fd) =>
      poller.Detach(poller.channels[fd]);
  }

  /** A client that performs operation after operation.  Its poller waits for the
      non-empty masks, and its channels hold all of them. */
  method DrivePoll(ops: seq<Op>) returns (poller: P.PollPoller)
    requires Legal(map[], ops)
    ensures poller.Valid() && poller.state == PollRun(P.Empty(), ops)
    ensures P.Linked(poller.state) && P.Watched(poller.state) == NonEmpty(Run(map[], ops))
    ensures poller.channels.Keys == Run(map[], ops).Keys
    ensures forall fd | fd in poller.channels :: poller.channels[fd].events == Run(map[], ops)[fd]
  {
    EmptyInv();
    hide PollRun, Legal, Run, NonEmpty, P.Linked, P.Current, P.Watched, PollStep, LegalStep;
    poller := new P.PollPoller();
    assert ops[0..] == ops;
    for i := 0 to |ops|
      invariant fresh(poller) && poller.Valid() && PollInv(poller.state)
      invariant fresh(poller.channels.Values)
      invariant Legal(poller.state.masks, ops[i..])
      invariant PollRun(poller.state, ops[i..]) == PollRun(P.Empty(), ops)
    {
      PollRunStep(poller.state, ops[i..]);
      assert ops[i..][1..] == ops[i + 1..];
      PerformPoll(poller, ops[i]);
    }
    PollRunStep(poller.state, ops[|ops|..]);
    PollWatches(poller.state);
  }

  /** One operation of a client of an `EpollPoller`, with a new channel for each
      descriptor that is not registered. */
  method PerformEpoll(poller: E.EpollPoller, op: Op)
    requires poller.Valid() && E.Mirrored(poller.state) && LegalStep(poller.state.masks, op)
    modifies poller, poller.channels.Values
    ensures poller.Valid()
    ensures poller.state == EpollStep(old(poller.state), op)
    ensures fresh(poller.channels.Values - old(poller.channels.Values))
  {
    E.MirroredAt(poller.state, op.fd);
    hide E.Update, E.Remove, E.Mirrored, Apply;
    match op
    case ChangeInterest(fd, change) =>
      var channel;
      if fd in poller.channels {
        channel := poller.channels[fd];
      } else {
        channel := new Channel(fd);
      }
      poller.ChangeInterest(channel, change);
    case Remove(fd) =>
      poller.Detach(poller.channels[fd]);
  }

  /** A client that performs operation after operation.  Its poller waits for the
      non-empty masks, and its channels hold all of them. */
  method DriveEpoll(ops: seq<Op>) returns (poller: E.EpollPoller)
    requires Legal(map[], ops)
    ensures poller.Valid() && poller.state == EpollRun(E.Empty(), ops)
    ensures E.Watched(poller.state) == NonEmpty(Run(map[], ops))
    ensures poller.channels.Keys == Run(map[], ops).Keys
    ensures forall fd | fd in poller.channels :: poller.channels[fd].events == Run(map[], ops)[fd]
  {
    EmptyInv();
    hide EpollRun, Legal, Run, NonEmpty, E.Mirrored, E.Watched, EpollStep, LegalStep;
    poller := new E.EpollPoller();
    assert ops[0..] == ops;
    for i := 0 to |ops|
      invariant fresh(poller) && poller.Valid() && E.Mirrored(poller.state)
      invariant fresh(poller.channels.Values)
      invariant Legal(poller.state.masks, ops[i..])
      invariant EpollRun(poller.state, ops[i..]) == EpollRun(E.Empty(), ops)
    {
      EpollRunStep(poller.state, ops[i..]);
      assert ops[i..][1..] == ops[i + 1..];
      PerformEpoll(poller, ops[i]);
    }
    EpollRunStep(poller.state, ops[|ops|..]);
    EpollWatches(poller.state);
  }
}
