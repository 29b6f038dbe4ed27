/** The transition table of a time zone and the two look-ups in it: the offset
    in force at an instant, and the offset to use for a local time, which may
    be shown by no instant, by one or by two. */
module TimeZone {
  import opened CppInt
  import opened Date
  import opened CivilTime
  import opened Bytes

  datatype Transition = Transition(utcTime: int, localTime: int, localTimeIdx: nat)
  datatype LocalTime = LocalTime(utcOffset: int, isDst: bool, desigIdx: nat)
  datatype Data = Data(transitions: seq<Transition>, localTimes: seq<LocalTime>,
                       abbreviation: seq<byte>, tzString: seq<byte>)

  /** Each transition's type exists and its local time is its UTC time plus the type's offset. */
  predicate Consistent(d: Data) {
    forall i | 0 <= i < |d.transitions| ::
      && d.transitions[i].localTimeIdx < |d.localTimes|
      && d.transitions[i].localTime
         == d.transitions[i].utcTime + d.localTimes[d.transitions[i].localTimeIdx].utcOffset
  }

  /** Consistent, and with the first local-time type both look-ups fall back on. */
  predicate WellFormed(d: Data) {
    |d.localTimes| > 0 && Consistent(d)
  }

  /** `std::upper_bound`: the index of the first key greater than `x`. */
  function UpperBound(keys: seq<int>, x: int): (i: nat)
    ensures i <= |keys|
    ensures forall k | 0 <= k < i :: keys[k] <= x
    ensures i < |keys| ==> x < keys[i]
  {
    if keys == [] || x < keys[0] then 0 else 1 + UpperBound(keys[1..], x)
  }

  function UtcTimes(d: Data): seq<int> {
    seq(|d.transitions|, i requires 0 <= i < |d.transitions| => d.transitions[i].utcTime)
  }

  function LocalTimes(d: Data): seq<int> {
    seq(|d.transitions|, i requires 0 <= i < |d.transitions| => d.transitions[i].localTime)
  }

  /** The local-time type a transition switches to. */
  function TypeOf(d: Data, i: nat): LocalTime
    requires WellFormed(d) && i < |d.transitions|
  {
    d.localTimes[d.transitions[i].localTimeIdx]
  }

  function FindLocalTime(d: Data, utcTime: int): LocalTime
    requires WellFormed(d)
  {
    if d.transitions == [] || utcTime < d.transitions[0].utcTime then
      d.localTimes[0]
    else
      var i := UpperBound(UtcTimes(d), utcTime);
      if i != |d.transitions| then TypeOf(d, i - 1) else TypeOf(d, |d.transitions| - 1)
  }

  /** The branch the local look-up takes. */
  datatype Reading = BeforeFirst | AfterLast | Skip | Repeat | Unique

  function ResolveLocalTime(d: Data, localtime: int, postTransition: bool): (Reading, LocalTime)
    requires WellFormed(d)
  {
    if d.transitions == [] || localtime < d.transitions[0].localTime then
      (BeforeFirst, d.localTimes[0])
    else
      var i := UpperBound(LocalTimes(d), localtime);
      if i == |d.transitions| then
        (AfterLast, TypeOf(d, |d.transitions| - 1))
      else
        var priorSecond := d.transitions[i].utcTime - 1 + TypeOf(d, i - 1).utcOffset;
        if priorSecond < localtime then
          (Skip, if postTransition then TypeOf(d, i) else TypeOf(d, i - 1))
        else
          var k := i - 1;
          // Before transition k, unless it is the first: then both still stand
          // for what was read before stepping back.
          var prior := if k != 0 then k - 1 else k;
          var priorSecond' := if k != 0 then d.transitions[k].utcTime - 1 + TypeOf(d, k - 1).utcOffset
                              else priorSecond;
          if localtime <= priorSecond' then
            (Repeat, if postTransition then TypeOf(d, k) else TypeOf(d, prior))
          else
            (Unique, TypeOf(d, k))
  }

  function ToLocalTime(d: Data, seconds: int): DateTime
    requires WellFormed(d)
  {
    BreakTime(Shown(d, seconds))
  }

  function FromLocalTime(d: Data, localtime: DateTime, postTransition: bool): int
    requires WellFormed(d)
  {
    Instant(d, FromUtcTime(localtime), postTransition)
  }

  /** The local time shown at an instant, in seconds. */
  function Shown(d: Data, t: int): int
    requires WellFormed(d)
  {
    t + FindLocalTime(d, t).utcOffset
  }

  /** The instant chosen for a local time, in seconds. */
  function Instant(d: Data, localtime: int, postTransition: bool): int
    requires WellFormed(d)
  {
    localtime - ResolveLocalTime(d, localtime, postTransition).1.utcOffset
  }

  // ---------- Stretches between transitions ----------

  /** The offset from transition `k` to the next; -1 is the time before the first. */
  function Offset(d: Data, k: int): int
    requires WellFormed(d) && -1 <= k < |d.transitions|
  {
    if k == -1 then d.localTimes[0].utcOffset else TypeOf(d, k).utcOffset
  }

  /** The local time that would have been shown at transition `k` without it. */
  function OldClock(d: Data, k: nat): int
    requires WellFormed(d) && k < |d.transitions|
  {
    d.transitions[k].utcTime + Offset(d, k - 1)
  }

  /** The local time shown at transition `k`. */
  function NewClock(d: Data, k: nat): int
    requires WellFormed(d) && k < |d.transitions|
    ensures NewClock(d, k) == d.transitions[k].utcTime + Offset(d, k)
  {
    d.transitions[k].localTime
  }

  /** Transitions come in order, and the local times one of them skips or
      repeats lie before those of the next. */
  ghost predicate Spaced(d: Data)
    requires WellFormed(d)
  {
    forall k: nat {:trigger NewClock(d, k)} | k + 1 < |d.transitions| ::
      && d.transitions[k].utcTime < d.transitions[k + 1].utcTime
      && Max(OldClock(d, k), NewClock(d, k)) <= OldClock(d, k + 1)
      && Max(OldClock(d, k), NewClock(d, k)) <= NewClock(d, k + 1)
  }

  /** Transitions further apart than their two jumps together are spaced. */
  lemma SpacedByJumps(d: Data)
    requires WellFormed(d)
    requires forall k: nat {:trigger NewClock(d, k)} | k + 1 < |d.transitions| ::
               d.transitions[k + 1].utcTime - d.transitions[k].utcTime
               > Abs(Offset(d, k) - Offset(d, k - 1)) + Abs(Offset(d, k + 1) - Offset(d, k))
    ensures Spaced(d)
  {
    forall k: nat | k + 1 < |d.transitions|
      ensures && d.transitions[k].utcTime < d.transitions[k + 1].utcTime
              && Max(OldClock(d, k), NewClock(d, k)) <= OldClock(d, k + 1)
              && Max(OldClock(d, k), NewClock(d, k)) <= NewClock(d, k + 1)
    {
      assert NewClock(d, k) == d.transitions[k].utcTime + Offset(d, k);
    }
  }

  lemma SpacedAt(d: Data, k: nat)
    requires WellFormed(d) && Spaced(d) && k + 1 < |d.transitions|
    ensures d.transitions[k].utcTime < d.transitions[k + 1].utcTime
    ensures OldClock(d, k) <= OldClock(d, k + 1) && NewClock(d, k) <= OldClock(d, k + 1)
    ensures OldClock(d, k) <= NewClock(d, k + 1) && NewClock(d, k) <= NewClock(d, k + 1)
  {
    var clock := NewClock(d, k);
    assert Max(OldClock(d, k), clock) <= OldClock(d, k + 1);
  }

  lemma {:induction false} ClocksOrdered(d: Data, i: nat, j: nat)
    requires WellFormed(d) && Spaced(d) && i < j < |d.transitions|
    ensures d.transitions[i].utcTime < d.transitions[j].utcTime
    ensures NewClock(d, i) <= NewClock(d, j) && OldClock(d, i) <= NewClock(d, j)
    decreases j - i
  {
    SpacedAt(d, i);
    if i + 1 < j {
      ClocksOrdered(d, i + 1, j);
    }
  }

  /** The stretch an instant lies in. */
  function Stretch(d: Data, t: int): (k: int)
    ensures -1 <= k < |d.transitions|
  {
    UpperBound(UtcTimes(d), t) - 1
  }

  /** The last transition whose new clock has reached a local time. */
  function Begun(d: Data, localtime: int): (k: int)
    ensures -1 <= k < |d.transitions|
  {
    UpperBound(LocalTimes(d), localtime) - 1
  }

  /** What is shown at an instant lies between the clocks at the ends of its stretch. */
  lemma StretchBounds(d: Data, t: int)
    requires WellFormed(d)
    ensures var s := Stretch(d, t);
            && Shown(d, t) == t + Offset(d, s)
            && (s >= 0 ==> NewClock(d, s) <= Shown(d, t))
            && (s + 1 < |d.transitions| ==> Shown(d, t) < OldClock(d, s + 1))
  {
    var s := Stretch(d, t);
    OffsetByStretch(d, t);
    assert s >= 0 ==> UtcTimes(d)[s] <= t;
    assert s + 1 < |d.transitions| ==> t < UtcTimes(d)[s + 1];
  }

  lemma OffsetByStretch(d: Data, t: int)
    requires WellFormed(d)
    ensures FindLocalTime(d, t).utcOffset == Offset(d, Stretch(d, t))
  {
  }

  /** The type in force at an instant is the one the last transition at or before
      it switches to, and the first type when there is none. */
  lemma FindLocalTimeByStretch(d: Data, t: int, k: int)
    requires WellFormed(d) && Spaced(d) && -1 <= k < |d.transitions|
    requires k >= 0 ==> d.transitions[k].utcTime <= t
    requires k + 1 < |d.transitions| ==> t < d.transitions[k + 1].utcTime
    ensures FindLocalTime(d, t) == if k == -1 then d.localTimes[0] else TypeOf(d, k)
  {
    StretchIs(d, t, k);
    hide Spaced;
  }

  lemma StretchIs(d: Data, t: int, k: int)
    requires WellFormed(d) && Spaced(d) && -1 <= k < |d.transitions|
    ensures Stretch(d, t) == k <==>
              (k >= 0 ==> d.transitions[k].utcTime <= t)
              && (k + 1 < |d.transitions| ==> t < d.transitions[k + 1].utcTime)
  {
    hide Spaced;
    var s := Stretch(d, t);
    assert s >= 0 ==> UtcTimes(d)[s] <= t;
    assert s + 1 < |d.transitions| ==> t < UtcTimes(d)[s + 1];
    if 0 <= k < s {
      ClocksOrdered(d, k, s);
      if k + 1 < s { ClocksOrdered(d, k + 1, s); }
    } else if k > s {
      if s + 1 < k { ClocksOrdered(d, s + 1, k); }
    } else if k == -1 && s > 0 {
      ClocksOrdered(d, 0, s);
    }
  }

  lemma BegunBounds(d: Data, localtime: int)
    requires WellFormed(d)
    ensures var k := Begun(d, localtime);
            && (k >= 0 ==> NewClock(d, k) <= localtime)
            && (k + 1 < |d.transitions| ==> localtime < NewClock(d, k + 1))
  {
    var k := Begun(d, localtime);
    assert k >= 0 ==> LocalTimes(d)[k] <= localtime;
    assert k + 1 < |d.transitions| ==> localtime < LocalTimes(d)[k + 1];
  }

  // ---------- Which instants show a local time ----------

  /** The last stretch begun still runs at this local time. */
  predicate StillRunning(d: Data, localtime: int)
    requires WellFormed(d)
  {
    var k := Begun(d, localtime);
    k + 1 < |d.transitions| ==> localtime < OldClock(d, k + 1)
  }

  /** The stretch before the last one begun also reached this local time. */
  predicate ReachedBefore(d: Data, localtime: int)
    requires WellFormed(d)
  {
    var k := Begun(d, localtime);
    k >= 0 && localtime < OldClock(d, k)
  }

  /** An instant showing a local time lies in the last stretch begun or the one before. */
  lemma ShownInStretch(d: Data, localtime: int, t: int)
    requires WellFormed(d) && Spaced(d) && Shown(d, t) == localtime
    ensures Begun(d, localtime) - 1 <= Stretch(d, t) <= Begun(d, localtime)
    ensures localtime == t + Offset(d, Stretch(d, t))
    ensures Stretch(d, t) == Begun(d, localtime) ==> StillRunning(d, localtime)
    ensures Stretch(d, t) == Begun(d, localtime) - 1 ==> ReachedBefore(d, localtime)
  {
    hide Spaced, Shown, Stretch, Begun, Offset;
    var k, s := Begun(d, localtime), Stretch(d, t);
    BegunBounds(d, localtime);
    StretchBounds(d, t);
    if s > k {
      if k + 1 < s { ClocksOrdered(d, k + 1, s); }
      assert false;
    } else if s < k - 1 {
      ClocksOrdered(d, s + 1, k);
      assert false;
    }
  }

  lemma ShownBy(d: Data, localtime: int, k: int)
    requires WellFormed(d) && Spaced(d) && -1 <= k < |d.transitions|
    requires k >= 0 ==> NewClock(d, k) <= localtime
    requires k + 1 < |d.transitions| ==> localtime < OldClock(d, k + 1)
    ensures Shown(d, localtime - Offset(d, k)) == localtime
  {
    hide Spaced;
    var t := localtime - Offset(d, k);
    StretchIs(d, t, k);
    OffsetByStretch(d, t);
  }

  /** A local time is shown in the last stretch begun, in the one before, or nowhere. */
  lemma ShownExactly(d: Data, localtime: int, t: int)
    requires WellFormed(d) && Spaced(d)
    ensures var k := Begun(d, localtime);
            Shown(d, t) == localtime <==>
              || (StillRunning(d, localtime) && t == localtime - Offset(d, k))
              || (ReachedBefore(d, localtime) && t == localtime - Offset(d, k - 1))
  {
    hide Spaced, Shown, Offset, Stretch, Begun;
    var k := Begun(d, localtime);
    BegunBounds(d, localtime);
    if Shown(d, t) == localtime {
      ShownInStretch(d, localtime, t);
    } else if StillRunning(d, localtime) && t == localtime - Offset(d, k) {
      ShownBy(d, localtime, k);
    } else if ReachedBefore(d, localtime) && t == localtime - Offset(d, k - 1) {
      if k > 0 { ClocksOrdered(d, k - 1, k); }
      ShownBy(d, localtime, k - 1);
    }
  }

  /** The offset `ResolveLocalTime` settles on.  The first transition's gap and
      the overlaps at the first and at the last one ignore the flag. */
  lemma ResolvedOffset(d: Data, localtime: int, post: bool)
    requires WellFormed(d)
    ensures var n, k := |d.transitions|, Begun(d, localtime);
            ResolveLocalTime(d, localtime, post).1.utcOffset
            == Offset(d,
                 if !StillRunning(d, localtime) then (if post && k >= 0 then k + 1 else k)
                 else if !post && ReachedBefore(d, localtime) && 0 < k < n - 1 then k - 1
                 else k)
  {
    BegunBounds(d, localtime);
    if d.transitions != [] {
      assert LocalTimes(d)[0] == d.transitions[0].localTime;
      assert Begun(d, localtime) == -1 <==> localtime < d.transitions[0].localTime;
    }
  }

  lemma BegunInside(d: Data, localtime: int)
    requires WellFormed(d) && Spaced(d) && |d.transitions| >= 2
    requires NewClock(d, 1) <= localtime < NewClock(d, |d.transitions| - 1)
    ensures 1 <= Begun(d, localtime) < |d.transitions| - 1
    ensures NewClock(d, Begun(d, localtime)) <= localtime < NewClock(d, Begun(d, localtime) + 1)
  {
    hide Spaced;
    var k := Begun(d, localtime);
    BegunBounds(d, localtime);
    if k == -1 { ClocksOrdered(d, 0, 1); }
  }

  /** The branch, once a stretch has begun and another follows. */
  lemma ResolvedBranch(d: Data, localtime: int, post: bool)
    requires WellFormed(d) && Spaced(d) && 0 <= Begun(d, localtime) < |d.transitions| - 1
    ensures ResolveLocalTime(d, localtime, post).0
            == if !StillRunning(d, localtime) then Skip
               else if Begun(d, localtime) == 0 || ReachedBefore(d, localtime) then Repeat
               else Unique
  {
    hide Spaced;
    if Begun(d, localtime) > 0 { ClocksOrdered(d, 0, Begun(d, localtime)); }
    BegunBounds(d, localtime);
  }

  /** In the first stretch the comparison left over from the skip test always
      succeeds: the branch is `Repeat` whether the time is shown twice or only
      once, and the flag then selects the same offset both ways. */
  lemma FirstStretchReadsAsRepeat(d: Data, localtime: int)
    requires WellFormed(d) && Spaced(d) && |d.transitions| >= 2
    requires Begun(d, localtime) == 0 && StillRunning(d, localtime)
    ensures ResolveLocalTime(d, localtime, false).0 == Repeat
    ensures var answer := Instant(d, localtime, false);
            && answer == Instant(d, localtime, true)
            && Shown(d, answer) == localtime
            && ((forall t :: Shown(d, t) == localtime ==> t == answer) <==> localtime >= OldClock(d, 0))
  {
    hide Spaced, FindLocalTime, UpperBound, Shown, Begun;
    BegunBounds(d, localtime);
    ResolvedBranch(d, localtime, false);
    ResolvedOffset(d, localtime, false);
    ResolvedOffset(d, localtime, true);
    hide ResolveLocalTime;
    var answer := localtime - Offset(d, 0);
    ShownExactly(d, localtime, answer);
    ShownExactly(d, localtime, localtime - Offset(d, -1));
    forall t | Shown(d, t) == localtime
      ensures t == answer || (localtime < OldClock(d, 0) && t == localtime - Offset(d, -1))
    {
      ShownExactly(d, localtime, t);
    }
  }

  /** Between the second transition's local time and the last one's, the branch
      taken tells how many instants show the local time.  A repeated time has
      the earlier one for `false` and the later one for `true`.  Around a
      skipped time the answers lie on the two sides of the transition, as far
      apart as the gap is wide. */
  lemma BranchCountsInstants(d: Data, localtime: int)
    requires WellFormed(d) && Spaced(d) && |d.transitions| >= 2
    requires NewClock(d, 1) <= localtime < NewClock(d, |d.transitions| - 1)
    ensures var before, after := Instant(d, localtime, false), Instant(d, localtime, true);
            match ResolveLocalTime(d, localtime, false).0
            case Skip =>
              && (forall t :: Shown(d, t) != localtime)
              && (exists k: nat | 0 < k < |d.transitions| ::
                    && after < d.transitions[k].utcTime <= before
                    && OldClock(d, k) <= localtime < NewClock(d, k)
                    && before - after == NewClock(d, k) - OldClock(d, k))
            case Unique =>
              before == after && forall t :: Shown(d, t) == localtime <==> t == before
            case Repeat =>
              before < after && forall t :: Shown(d, t) == localtime <==> t == before || t == after
            case _ => false
  {
    hide Spaced, FindLocalTime, UpperBound;
    var n, k := |d.transitions|, Begun(d, localtime);
    BegunInside(d, localtime);
    ResolvedOffset(d, localtime, false);
    ResolvedOffset(d, localtime, true);
    ResolvedBranch(d, localtime, false);
    hide ResolveLocalTime;
    forall t ensures Shown(d, t) == localtime <==>
                       || (StillRunning(d, localtime) && t == localtime - Offset(d, k))
                       || (ReachedBefore(d, localtime) && t == localtime - Offset(d, k - 1))
    {
      ShownExactly(d, localtime, t);
    }
    SpacedAt(d, k);
    if !StillRunning(d, localtime) {
      assert OldClock(d, k + 1) <= localtime < NewClock(d, k + 1);
    }
  }

  /** A local time that some instant shows is answered, at the ends of the
      table too and under both flags, with an instant that shows it; `true`
      gives the latest such instant. */
  lemma AnswerShowsLocalTime(d: Data, localtime: int, t: int, post: bool)
    requires WellFormed(d) && Spaced(d) && Shown(d, t) == localtime
    ensures Shown(d, Instant(d, localtime, post)) == localtime
    ensures t <= Instant(d, localtime, true)
  {
    hide Spaced, FindLocalTime, ResolveLocalTime, UpperBound;
    var n, k := |d.transitions|, Begun(d, localtime);
    BegunBounds(d, localtime);
    ResolvedOffset(d, localtime, post);
    ResolvedOffset(d, localtime, true);
    ShownExactly(d, localtime, t);
    if ReachedBefore(d, localtime) && k + 1 < n { SpacedAt(d, k); }
    ShownExactly(d, localtime, localtime - Offset(d, k));
    if k >= 0 { ShownExactly(d, localtime, localtime - Offset(d, k - 1)); }
  }

  /** A local time no instant shows is one skipped by some transition, and is
      read with the offset before it or, on request, after it.  At the first
      transition the request is ignored. */
  lemma GapAnswers(d: Data, localtime: int) returns (k: nat)
    requires WellFormed(d) && Spaced(d)
    requires forall t :: Shown(d, t) != localtime
    ensures k < |d.transitions| && OldClock(d, k) <= localtime < NewClock(d, k)
    ensures Instant(d, localtime, false) == localtime - Offset(d, k - 1)
    ensures Instant(d, localtime, true) == localtime - Offset(d, if k > 0 then k else -1)
  {
    hide Spaced, FindLocalTime, ResolveLocalTime, UpperBound, Shown;
    var b := Begun(d, localtime);
    BegunBounds(d, localtime);
    ShownExactly(d, localtime, localtime - Offset(d, b));
    ResolvedOffset(d, localtime, false);
    ResolvedOffset(d, localtime, true);
    k := b + 1;
  }

  // ---------- Round trip ----------

  /** The instant is the earlier of two that show its local time, and the
      overlap belongs to the first or the last transition. */
  predicate EarlyInEndOverlap(d: Data, t: int)
    requires WellFormed(d)
  {
    var n, k := |d.transitions|, Stretch(d, t) + 1;
    k < n && (k == 0 || k == n - 1) && NewClock(d, k) <= Shown(d, t)
  }

  /** Where the local time of an instant falls among the transitions. */
  lemma BegunAtShown(d: Data, t: int)
    requires WellFormed(d) && Spaced(d)
    ensures var s, k := Stretch(d, t), Begun(d, Shown(d, t));
            && (k == s || k == s + 1)
            && (k == s + 1 ==> ReachedBefore(d, Shown(d, t)))
            && (k == s ==> StillRunning(d, Shown(d, t)))
            && (k == s + 1 <==> s + 1 < |d.transitions| && NewClock(d, s + 1) <= Shown(d, t))
            && Shown(d, t) == t + Offset(d, s)
  {
    hide Spaced, Shown, Stretch, Begun, Offset;
    var s, localtime := Stretch(d, t), Shown(d, t);
    StretchBounds(d, t);
    BegunBounds(d, localtime);
    ShownInStretch(d, localtime, t);
  }

  /** Going to local time and back returns the instant under one flag or the
      other, unless it is the earlier reading of an overlap at either end; under
      both flags when no other instant shows that local time. */
  lemma InstantOfShown(d: Data, t: int)
    requires WellFormed(d) && Spaced(d)
    ensures var before, after := Instant(d, Shown(d, t), false), Instant(d, Shown(d, t), true);
            && (before == t || after == t <==> !EarlyInEndOverlap(d, t))
            && ((forall t' :: Shown(d, t') == Shown(d, t) ==> t' == t) ==> before == t && after == t)
  {
    hide Spaced, FindLocalTime, ResolveLocalTime, UpperBound;
    var localtime := Shown(d, t);
    var n, s, k := |d.transitions|, Stretch(d, t), Begun(d, localtime);
    BegunAtShown(d, t);
    BegunBounds(d, localtime);
    ResolvedOffset(d, localtime, false);
    ResolvedOffset(d, localtime, true);
    if k == s + 1 {
      assert NewClock(d, k) <= localtime < OldClock(d, k);
      if k + 1 < n { SpacedAt(d, k); }
      assert StillRunning(d, localtime);
      ShownExactly(d, localtime, localtime - Offset(d, k));
    } else if ReachedBefore(d, localtime) {
      ShownExactly(d, localtime, localtime - Offset(d, k - 1));
    }
  }

  /** The same on six-field times: a zone's local time leads back to the instant,
      under both flags when it is the local time of no other. */
  lemma LocalTimeRoundTrip(d: Data, t: int)
    requires WellFormed(d) && Spaced(d) && Shown(d, t) >= FIRST_SECOND
    ensures var dt := ToLocalTime(d, t);
            && dt.Valid()
            && (FromLocalTime(d, dt, false) == t || FromLocalTime(d, dt, true) == t
                <==> !EarlyInEndOverlap(d, t))
            && ((forall t' :: ToLocalTime(d, t') == dt ==> t' == t) ==>
                  FromLocalTime(d, dt, false) == t && FromLocalTime(d, dt, true) == t)
  {
    hide Shown, Instant, BreakTime, FromUtcTime, EarlyInEndOverlap;
    BreakTimeRoundTrips(Shown(d, t));
    InstantOfShown(d, t);
    assert forall t' :: Shown(d, t') == Shown(d, t) ==> ToLocalTime(d, t') == ToLocalTime(d, t);
  }

  /** What is shown at an instant, as a six-field time, has those seconds. */
  lemma LocalTimeShows(d: Data, t: int)
    requires WellFormed(d) && Shown(d, t) >= FIRST_SECOND
    ensures ToLocalTime(d, t).Valid() && FromUtcTime(ToLocalTime(d, t)) == Shown(d, t)
  {
    hide Shown, BreakTime, FromUtcTime;
    BreakTimeRoundTrips(Shown(d, t));
  }

  /** A six-field time is the local time of an instant exactly when that shows its seconds. */
  lemma LocalTimeIs(d: Data, dt: DateTime, t: int)
    requires WellFormed(d) && dt.Valid() && SinceEpoch(dt.CivilDay())
    ensures ToLocalTime(d, t) == dt <==> Shown(d, t) == FromUtcTime(dt)
  {
    hide Shown, BreakTime, FromUtcTime;
    BreakTimeOfFromUtcTime(dt);
    if ToLocalTime(d, t) == dt {
      BreakTimeIsValid(Shown(d, t));
      LocalTimeShows(d, t);
    }
  }

  /** A local time that is some instant's leads, under either flag, to an instant
      with that local time: with `true` to the latest, and with `false` to the
      earliest but for the overlaps at either end. */
  lemma FromLocalTimeShown(d: Data, dt: DateTime, t: int, post: bool)
    requires WellFormed(d) && Spaced(d) && dt.Valid() && SinceEpoch(dt.CivilDay()) && ToLocalTime(d, t) == dt
    ensures ToLocalTime(d, FromLocalTime(d, dt, post)) == dt
    ensures t <= FromLocalTime(d, dt, true)
    ensures FromLocalTime(d, dt, false) <= t <==> !EarlyInEndOverlap(d, t)
    ensures |d.transitions| >= 2 ==>
              d.transitions[1].localTime <= FromUtcTime(dt) < d.transitions[|d.transitions| - 1].localTime ==>
                FromLocalTime(d, dt, false) <= t
  {
    var localtime := FromUtcTime(dt);
    LocalTimeIs(d, dt, t);
    LocalTimeIs(d, dt, FromLocalTime(d, dt, post));
    hide Spaced, BreakTime, FromUtcTime;
    AnswerShowsLocalTime(d, localtime, t, post);
    InstantOfShown(d, t);
    EarliestOfShown(d, t);
    hide Shown, Instant, EarlyInEndOverlap;
    if |d.transitions| >= 2 && NewClock(d, 1) <= localtime < NewClock(d, |d.transitions| - 1) {
      BranchCountsInstants(d, localtime);
    }
  }

  /** The answer for `false` is no later than any instant that shows the time,
      the early readings of the overlaps at either end apart. */
  lemma EarliestOfShown(d: Data, t: int)
    requires WellFormed(d) && Spaced(d)
    ensures Instant(d, Shown(d, t), false) <= t <==> !EarlyInEndOverlap(d, t)
  {
    var localtime := Shown(d, t);
    BegunAtShown(d, t);
    BegunBounds(d, localtime);
    ResolvedOffset(d, localtime, false);
    hide Spaced, FindLocalTime, ResolveLocalTime, UpperBound, Shown;
    var n, s, k := |d.transitions|, Stretch(d, t), Begun(d, localtime);
    if k == s + 1 && k + 1 < n { SpacedAt(d, k); }
  }

  /** A local time that is no instant's has been skipped by some transition.  The
      answers lie on the two sides of it, `false` on the later, as far apart as
      the gap is wide; at the first transition both are the one for `false`. */
  lemma FromLocalTimeSkipped(d: Data, dt: DateTime) returns (k: nat)
    requires WellFormed(d) && Spaced(d) && dt.Valid() && SinceEpoch(dt.CivilDay())
    requires forall t :: ToLocalTime(d, t) != dt
    ensures k < |d.transitions| && OldClock(d, k) <= FromUtcTime(dt) < NewClock(d, k)
    ensures var before, after := FromLocalTime(d, dt, false), FromLocalTime(d, dt, true);
            && before == d.transitions[k].utcTime + (FromUtcTime(dt) - OldClock(d, k)) >= d.transitions[k].utcTime
            && (k > 0 ==> before - after == NewClock(d, k) - OldClock(d, k) && after < d.transitions[k].utcTime)
            && (k == 0 ==> after == before)
  {
    hide Spaced, Shown, Instant, BreakTime, FromUtcTime;
    forall t ensures Shown(d, t) != FromUtcTime(dt) {
      LocalTimeIs(d, dt, t);
    }
    k := GapAnswers(d, FromUtcTime(dt));
  }

  // ---------- Where the look-up falls short ----------

  /** A table with one transition, at 10000. */
  function OneTransition(before: int, after: int): Data {
    Data([Transition(10000, 10000 + after, 1)], [LocalTime(before, false, 0), LocalTime(after, false, 0)], [], [])
  }

  lemma OneTransitionReads(before: int, after: int, t: int, localtime: int, post: bool)
    ensures var d := OneTransition(before, after);
            && WellFormed(d) && Spaced(d)
            && Stretch(d, t) == (if t < 10000 then -1 else 0)
            && Shown(d, t) == t + (if t < 10000 then before else after)
            && Instant(d, localtime, post) == localtime - (if localtime < 10000 + after then before else after)
  {
    hide UpperBound;
    var d := OneTransition(before, after);
    assert UtcTimes(d)[0] == 10000 && LocalTimes(d)[0] == 10000 + after;
  }

  /** An overlap at the only transition: 9000 and 12600 both show 12600, and the
      local time leads to the later one under either flag. */
  lemma EarlyReadingIsLost()
    ensures var d := OneTransition(3600, 0);
            && WellFormed(d) && Spaced(d) && EarlyInEndOverlap(d, 9000)
            && Shown(d, 9000) == Shown(d, 12600) == 12600
            && Instant(d, 12600, false) == Instant(d, 12600, true) == 12600
  {
    OneTransitionReads(3600, 0, 9000, 12600, false);
    OneTransitionReads(3600, 0, 12600, 12600, true);
    hide Spaced, Stretch, Shown, Instant;
  }

  /** A gap at the first transition: no instant shows 12000, and asking for the
      offset after the transition makes no difference. */
  lemma FirstGapIgnoresFlag()
    ensures var d := OneTransition(0, 3600);
            && WellFormed(d) && Spaced(d)
            && (forall t :: Shown(d, t) != 12000)
            && Instant(d, 12000, false) == Instant(d, 12000, true) == 12000
  {
    var d := OneTransition(0, 3600);
    OneTransitionReads(0, 3600, 0, 12000, false);
    OneTransitionReads(0, 3600, 0, 12000, true);
    hide Spaced, Shown, Instant;
    forall t ensures Shown(d, t) != 12000 {
      OneTransitionReads(0, 3600, t, 12000, false);
    }
  }

  /** A local time in the first stretch that one instant alone shows, and that is
      taken for one shown twice. */
  lemma UniqueReadAsRepeat()
    ensures var d := Data([Transition(10000, 13600, 0), Transition(50000, 50000, 1)],
                          [LocalTime(3600, true, 0), LocalTime(0, false, 0)], [], []);
            && WellFormed(d) && Spaced(d)
            && (forall t :: Shown(d, t) == 23600 <==> t == 20000)
            && ResolveLocalTime(d, 23600, false).0 == Repeat
  {
    hide UpperBound;
    var d := Data([Transition(10000, 13600, 0), Transition(50000, 50000, 1)],
                  [LocalTime(3600, true, 0), LocalTime(0, false, 0)], [], []);
    assert LocalTimes(d)[0] == 13600 && LocalTimes(d)[1] == 50000;
    assert Begun(d, 23600) == 0 && StillRunning(d, 23600) && !ReachedBefore(d, 23600);
    ResolvedBranch(d, 23600, false);
    hide Begun, Shown, ResolveLocalTime, StillRunning, ReachedBefore;
    forall t ensures Shown(d, t) == 23600 <==> t == 20000 {
      ShownExactly(d, 23600, t);
    }
  }
}
