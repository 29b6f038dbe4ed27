/** The timer queue as a state machine: two indexes over manually owned timers,
    cancellation during callbacks, and a one-shot kernel alarm. */
module TimerMachine {
  import opened CppInt

  type Addr = nat   // the address of a Timer
  type Time = int   // microseconds

  /** `delta` is the interval in whole microseconds. */
  datatype Timer = Timer(expiration: Time, delta: nat, repeat: bool, sequence: int)
  datatype Entry = Entry(when: Time, timer: Addr)
  datatype ActiveTimer = ActiveTimer(timer: Addr, sequence: int)

  /** The timerfd: not set, set at `setAt` to go off at `deadline`, or gone off and not yet read. */
  datatype Alarm = Disarmed | Armed(deadline: Time, setAt: Time) | Fired

  /** The queue's own fields; then the heap of live timers, with the number made
      so far and those that have not reached the loop; then `handleRead` under
      way: `batch[next..]` is still to run while `calling` is set, and all of
      `batch` still to be reset while `resetting` is; then the clock and the
      alarm; and the sequence numbers of all callbacks run and all timers deleted. */
  datatype State = State(
    timers: seq<Entry>, active: set<ActiveTimer>, calling: bool, canceling: set<ActiveTimer>,
    heap: map<Addr, Timer>, created: int, transit: set<Addr>,
    resetting: bool, batch: seq<Entry>, next: nat, now: Time,
    clock: Time, alarm: Alarm,
    runs: seq<int>, deleted: seq<int>)

  function Initial(clock: Time): (s: State)
    ensures Inv(s)
  {
    State([], {}, false, {}, map[], 0, {}, false, [], 0, 0, clock, Disarmed, [], [])
  }

  // ---------- The ordered index ----------

  predicate Less(x: Entry, y: Entry) {
    x.when < y.when || (x.when == y.when && x.timer < y.timer)
  }

  ghost predicate Sorted(entries: seq<Entry>) {
    forall i, j | 0 <= i < j < |entries| :: Less(entries[i], entries[j])
  }

  /** `lower_bound`: how many entries are less than `e`. */
  function LowerBound(entries: seq<Entry>, e: Entry): (i: nat)
    ensures i <= |entries|
    ensures forall k | 0 <= k < i :: Less(entries[k], e)
    ensures i < |entries| ==> !Less(entries[i], e)
  {
    if entries == [] || !Less(entries[0], e) then 0 else 1 + LowerBound(entries[1..], e)
  }

  /** How many entries are due: `lower_bound` of `now` paired with the greatest address. */
  function DueCount(entries: seq<Entry>, now: Time): (i: nat)
    ensures i <= |entries|
    ensures forall k | 0 <= k < i :: entries[k].when <= now
    ensures i < |entries| ==> entries[i].when > now
  {
    if entries == [] || entries[0].when > now then 0 else 1 + DueCount(entries[1..], now)
  }

  /** `getExpired` looks for its sentry: the time, and an address above all others. */
  lemma DueCountIsLowerBound(entries: seq<Entry>, now: Time, max: Addr)
    requires Sorted(entries) && forall e | e in entries :: e.timer < max
    ensures DueCount(entries, now) == LowerBound(entries, Entry(now, max))
  {
    var i := DueCount(entries, now);
    DueSplits(entries, now);
    assert forall k | 0 <= k < |entries| :: entries[k] in entries;
    assert forall k | 0 <= k < |entries| :: Less(entries[k], Entry(now, max)) <==> k < i;
  }

  function InsertEntry(entries: seq<Entry>, e: Entry): seq<Entry> {
    var i := LowerBound(entries, e);
    entries[..i] + [e] + entries[i..]
  }

  /** `set::erase` by key. */
  function EraseEntry(entries: seq<Entry>, e: Entry): seq<Entry> {
    var i := LowerBound(entries, e);
    if i < |entries| && entries[i] == e then entries[..i] + entries[i + 1..] else entries
  }

  lemma DueSplits(entries: seq<Entry>, now: Time)
    requires Sorted(entries)
    ensures var n := DueCount(entries, now);
            && entries[..n] + entries[n..] == entries
            && (forall i | n <= i < |entries| :: entries[i].when > now)
            && (forall i, j | 0 <= i < j < n :: entries[i].when <= entries[j].when)
  {
    var n := DueCount(entries, now);
    forall i | n <= i < |entries| ensures entries[i].when > now {
      if i > n { assert Less(entries[n], entries[i]); }
    }
    forall i, j | 0 <= i < j < n ensures entries[i].when <= entries[j].when {
      assert Less(entries[i], entries[j]);
    }
  }

  /** Everything from the lower bound of an absent entry on is greater than it. */
  lemma LowerBoundSplits(entries: seq<Entry>, e: Entry)
    requires Sorted(entries) && e !in entries
    ensures forall k | LowerBound(entries, e) <= k < |entries| :: Less(e, entries[k])
  {
    var i := LowerBound(entries, e);
    forall k | i <= k < |entries| ensures Less(e, entries[k]) {
      if k > i { assert Less(entries[i], entries[k]); }
    }
  }

  lemma InsertSorted(entries: seq<Entry>, e: Entry)
    requires Sorted(entries) && e !in entries
    ensures Sorted(InsertEntry(entries, e))
    ensures forall x :: x in InsertEntry(entries, e) <==> x == e || x in entries
    ensures InsertEntry(entries, e)[0].when
            == if entries == [] || e.when < entries[0].when then e.when else entries[0].when
  {
    LowerBoundSplits(entries, e);
    var i := LowerBound(entries, e);
    assert entries == entries[..i] + entries[i..];
    SortedConcat(entries[..i], [e]);
    SortedConcat(entries[..i] + [e], entries[i..]);
    InsertFirst(entries, e);
  }

  lemma SortedConcat(left: seq<Entry>, right: seq<Entry>)
    requires Sorted(left) && Sorted(right)
    requires left != [] && right != [] ==> Less(left[|left| - 1], right[0])
    ensures Sorted(left + right)
  {
    var all := left + right;
    forall i, j | 0 <= i < j < |all| ensures Less(all[i], all[j]) {
      if i < |left| <= j {
        assert i < |left| - 1 ==> Less(left[i], left[|left| - 1]);
        assert j > |left| ==> Less(right[0], right[j - |left|]);
      }
    }
  }

  lemma InsertFirst(entries: seq<Entry>, e: Entry)
    requires Sorted(entries) && e !in entries
    ensures InsertEntry(entries, e)[0].when
            == if entries == [] || e.when < entries[0].when then e.when else entries[0].when
  {
  }

  lemma EraseSorted(entries: seq<Entry>, e: Entry)
    requires Sorted(entries) && e in entries
    ensures Sorted(EraseEntry(entries, e)) && |EraseEntry(entries, e)| == |entries| - 1
    ensures forall x :: x in EraseEntry(entries, e) <==> x != e && x in entries
  {
    var i := LowerBound(entries, e);
    var k :| 0 <= k < |entries| && entries[k] == e;
    assert k == i;
    assert entries == entries[..i] + [e] + entries[i + 1..];
    assert 0 < i < |entries| - 1 ==> Less(entries[i - 1], entries[i + 1]);
    SortedConcat(entries[..i], entries[i + 1..]);
  }

  // ---------- Steps ----------

  function Key(s: State, a: Addr): ActiveTimer
    requires a in s.heap
  {
    ActiveTimer(a, s.heap[a].sequence)
  }

  /** `insert`: both indexes take the timer. */
  function Insert(s: State, a: Addr): State
    requires a in s.heap
  {
    s.(timers := InsertEntry(s.timers, Entry(s.heap[a].expiration, a)), active := s.active + {Key(s, a)})
  }

  predicate EarliestChanges(s: State, when: Time) {
    s.timers == [] || when < s.timers[0].when
  }

  const MICROS_PER_SECOND := 1000 * 1000

  /** `howMuchTimeFromNow`: seconds and nanoseconds to `when`, at least 100 microseconds. */
  function HowMuchTimeFromNow(when: Time, now: Time): (ts: (int, int)) {
    var microseconds := if when - now < 100 then 100 else when - now;
    (Quot(microseconds, MICROS_PER_SECOND), Rem(microseconds, MICROS_PER_SECOND) * 1000)
  }

  /** The time set is positive, so that setting it never switches the timer off,
      a valid `timespec`, and exact. */
  lemma TimeFromNowExact(when: Time, now: Time)
    ensures var (seconds, nanoseconds) := HowMuchTimeFromNow(when, now);
            && 0 <= seconds && 0 <= nanoseconds < 1_000_000_000 && (seconds > 0 || nanoseconds > 0)
            && seconds * 1_000_000_000 + nanoseconds == 1000 * Max(when - now, 100)
  {
    RemSign(Max(when - now, 100), MICROS_PER_SECOND);
  }

  /** `resetTimerfd`. */
  function ResetTimerfd(s: State, expiration: Time): State {
    var (seconds, nanoseconds) := HowMuchTimeFromNow(expiration, s.clock);
    s.(alarm := Armed(s.clock + seconds * MICROS_PER_SECOND + nanoseconds / 1000, s.clock))
  }

  lemma ResetTimerfdDeadline(s: State, expiration: Time)
    ensures ResetTimerfd(s, expiration) == s.(alarm := Armed(Max(expiration, s.clock + 100), s.clock))
  {
    TimeFromNowExact(expiration, s.clock);
  }

  function AddTimerInLoop(s: State, a: Addr): State
    requires a in s.heap
  {
    var added := Insert(s, a).(transit := s.transit - {a});
    if EarliestChanges(s, s.heap[a].expiration) then ResetTimerfd(added, s.heap[a].expiration) else added
  }

  function Delete(s: State, a: Addr): State
    requires a in s.heap
  {
    s.(heap := s.heap - {a}, deleted := s.deleted + [s.heap[a].sequence])
  }

  function CancelInLoop(s: State, id: ActiveTimer): State
    requires id in s.active ==> id.timer in s.heap
  {
    if id in s.active then
      Delete(s.(timers := EraseEntry(s.timers, Entry(s.heap[id.timer].expiration, id.timer)),
                active := s.active - {id}), id.timer)
    else if s.calling then
      s.(canceling := s.canceling + {id})
    else
      s
  }

  function Keys(heap: map<Addr, Timer>, entries: seq<Entry>): set<ActiveTimer>
    requires forall e | e in entries :: e.timer in heap
  {
    set e | e in entries :: ActiveTimer(e.timer, heap[e.timer].sequence)
  }

  /** `handleRead` up to the first callback: the timerfd is read, the due timers
      leave both indexes. */
  function BeginRead(s: State): State
    requires forall e | e in s.timers :: e.timer in s.heap
  {
    var n := DueCount(s.timers, s.clock);
    s.(now := s.clock, alarm := if s.alarm.Fired? then Disarmed else s.alarm,
       batch := s.timers[..n], next := 0, timers := s.timers[n..],
       active := s.active - Keys(s.heap, s.timers[..n]),
       calling := true, canceling := {})
  }

  function RunNext(s: State): State
    requires s.next < |s.batch| && s.batch[s.next].timer in s.heap
  {
    s.(runs := s.runs + [s.heap[s.batch[s.next].timer].sequence], next := s.next + 1)
  }

  /** `Timestamp::invalid`. */
  const INVALID: Time := 0

  /** `Timer::restart`: the interval from now, or no time at all. */
  function Restarted(timer: Timer, now: Time): Timer {
    timer.(expiration := if timer.repeat then now + timer.delta else INVALID)
  }

  function Restart(s: State, a: Addr): (s': State)
    requires a in s.heap
    ensures a in s'.heap
  {
    s.(heap := s.heap[a := Restarted(s.heap[a], s.now)])
  }

  /** What `reset` does with one timer of the batch. */
  function ResetOne(s: State, a: Addr): State
    requires a in s.heap
  {
    if s.heap[a].repeat && Key(s, a) !in s.canceling then
      Insert(Restart(s, a), a)
    else
      Delete(s, a)
  }

  predicate AllLive(s: State, entries: seq<Entry>) {
    forall i | 0 <= i < |entries| :: entries[i].timer in s.heap
  }

  ghost predicate Distinct(entries: seq<Entry>) {
    forall i, j | 0 <= i < j < |entries| :: entries[i].timer != entries[j].timer
  }

  /** The body of the loop in `reset`, for the next timer of the batch. */
  function ResetNext(s: State): State
    requires s.batch != [] && s.next > 0 && s.batch[0].timer in s.heap
  {
    ResetOne(s, s.batch[0].timer).(batch := s.batch[1..], next := s.next - 1)
  }

  /** The end of `reset`: the alarm is set for the earliest timer, if its time is valid. */
  function Rearm(s: State): State
    requires s.timers != [] ==> s.timers[0].timer in s.heap
  {
    if s.timers != [] && s.heap[s.timers[0].timer].expiration > INVALID
    then ResetTimerfd(s, s.heap[s.timers[0].timer].expiration) else s
  }

  /** `handleRead` is under way. */
  predicate InRead(s: State) {
    s.calling || s.resetting
  }

  datatype Step =
    | Construct(a: Addr, when: Time, delta: nat, repeat: bool)  // addTimer, in any thread
    | Add(a: Addr)                                              // addTimerInLoop
    | Cancel(id: ActiveTimer)                                   // cancelInLoop
    | Begin                                                     // handleRead, up to the callbacks
    | RunOne                                                    // the next callback is entered
    | EndCalls                                                  // handleRead: the flag is cleared, reset begins
    | Reset                                                     // reset: the next timer of the batch
    | Finish                                                    // reset: the alarm
    | Tick(elapsed: nat)
    | Fire                                                      // the alarm goes off

  function ConstructTimer(s: State, a: Addr, when: Time, delta: nat, repeat: bool): State {
    s.(heap := s.heap[a := Timer(when, delta, repeat, s.created + 1)],
       created := s.created + 1, transit := s.transit + {a})
  }

  /** When the program takes a step.  `Add` and `Cancel` may come at any time: from
      callbacks, and while `reset` goes on from the destructors of callbacks. */
  predicate Taken(s: State, step: Step) {
    match step
    case Construct(a, _, _, _) => a !in s.heap  // memory that is not in use; it may have been
    case Add(a) => a in s.transit
    case Cancel(_) => true
    case Begin => !InRead(s)
    case RunOne => s.calling && s.next < |s.batch|
    case EndCalls => s.calling && s.next >= |s.batch|
    case Reset => s.resetting && s.batch != []
    case Finish => s.resetting && s.batch == []
    case Tick(_) => true
    case Fire => s.alarm.Armed? && s.clock >= s.alarm.deadline
  }

  /** Every timer the step reaches through a pointer is live. */
  ghost predicate Safe(s: State, step: Step) {
    match step
    case Add(a) => a in s.heap
    case Cancel(id) => id in s.active ==> id.timer in s.heap
    case Begin => forall e | e in s.timers :: e.timer in s.heap
    case RunOne => s.next < |s.batch| && s.batch[s.next].timer in s.heap
    case Reset => s.batch != [] && s.next > 0 && s.batch[0].timer in s.heap
    case Finish => s.timers != [] ==> s.timers[0].timer in s.heap
    case _ => true
  }

  ghost function Next(s: State, step: Step): State
    requires Safe(s, step)
  {
    match step
    case Construct(a, when, delta, repeat) => ConstructTimer(s, a, when, delta, repeat)
    case Add(a) => AddTimerInLoop(s, a)
    case Cancel(id) => CancelInLoop(s, id)
    case Begin => BeginRead(s)
    case RunOne => RunNext(s)
    case EndCalls => s.(calling := false, resetting := true)
    case Reset => ResetNext(s)
    case Finish => Rearm(s).(resetting := false)
    case Tick(elapsed) => s.(clock := s.clock + elapsed)
    case Fire => s.(alarm := Fired)
  }

  // ---------- The invariant ----------

  function Addrs(entries: seq<Entry>): set<Addr> {
    set e | e in entries :: e.timer
  }

  /** The two indexes hold the same timers, each under its present expiration. */
  ghost predicate Indexed(timers: seq<Entry>, active: set<ActiveTimer>, heap: map<Addr, Timer>) {
    && Sorted(timers)
    && (forall e | e in timers :: e.timer in heap && heap[e.timer].expiration == e.when)
    && active == Keys(heap, timers)
  }

  /** Each live timer is on its way to the loop, scheduled, or in the part of the
      batch still to be reset: in exactly one of the three. */
  ghost predicate Owned(s: State, rest: seq<Entry>) {
    && s.heap.Keys == s.transit + Addrs(s.timers) + Addrs(rest)
    && s.transit !! Addrs(s.timers) && s.transit !! Addrs(rest) && Addrs(s.timers) !! Addrs(rest)
    && Distinct(rest)
  }

  ghost predicate IsLive(heap: map<Addr, Timer>, q: int) {
    exists a | a in heap :: heap[a].sequence == q
  }

  /** Sequence numbers are given out once; each given out belongs to one live
      timer or has been deleted, once. */
  ghost predicate Numbered(heap: map<Addr, Timer>, created: int, deleted: seq<int>) {
    && (forall a | a in heap :: 1 <= heap[a].sequence <= created)
    && (forall a, b | a in heap && b in heap && a != b :: heap[a].sequence != heap[b].sequence)
    && (forall q :: q in deleted ==> 1 <= q <= created)
    && (forall q | 1 <= q <= created :: q in deleted <==> !IsLive(heap, q))
    && (forall i, j | 0 <= i < j < |deleted| :: deleted[i] != deleted[j])
  }

  ghost predicate Inv(s: State) {
    && Indexed(s.timers, s.active, s.heap)
    && Owned(s, s.batch)
    && Numbered(s.heap, s.created, s.deleted)
    && s.created >= 0
    && !(s.calling && s.resetting)
    && (!s.calling ==> s.next == |s.batch|)
    && (!InRead(s) ==> s.batch == [])
    && s.next <= |s.batch|
    && (forall q | q in s.runs :: q <= s.created)
  }

  lemma IndexedDistinct(timers: seq<Entry>, active: set<ActiveTimer>, heap: map<Addr, Timer>)
    requires Indexed(timers, active, heap)
    ensures Distinct(timers)
  {
    forall i, j | 0 <= i < j < |timers| ensures timers[i].timer != timers[j].timer {
      assert Less(timers[i], timers[j]) && timers[i] in timers && timers[j] in timers;
    }
  }

  /** As many timers in one index as in the other. */
  lemma {:induction false} IndexedSizes(timers: seq<Entry>, active: set<ActiveTimer>, heap: map<Addr, Timer>)
    requires Indexed(timers, active, heap)
    ensures |timers| == |active|
    decreases |timers|
  {
    IndexedDistinct(timers, active, heap);
    if timers != [] {
      var e, rest := timers[0], timers[1..];
      var key := ActiveTimer(e.timer, heap[e.timer].sequence);
      assert timers == [e] + rest;
      assert active == Keys(heap, rest) + {key};
      assert key !in Keys(heap, rest);
      IndexedSizes(rest, Keys(heap, rest), heap);
    }
  }

  /** Timers that are not indexed may change or go. */
  lemma IndexedFrame(timers: seq<Entry>, active: set<ActiveTimer>, heap: map<Addr, Timer>, heap': map<Addr, Timer>)
    requires Indexed(timers, active, heap)
    requires forall a | a in Addrs(timers) :: a in heap' && heap'[a] == heap[a]
    ensures Indexed(timers, active, heap')
  {
    forall e | e in timers ensures e.timer in heap' && heap'[e.timer] == heap[e.timer] {
      assert e.timer in Addrs(timers);
    }
  }

  lemma InsertIndexed(s: State, a: Addr)
    requires Indexed(s.timers, s.active, s.heap) && a in s.heap && a !in Addrs(s.timers)
    ensures var s' := Insert(s, a);
            && Indexed(s'.timers, s'.active, s.heap)
            && Addrs(s'.timers) == Addrs(s.timers) + {a}
  {
    var e := Entry(s.heap[a].expiration, a);
    assert e in s.timers ==> a in Addrs(s.timers);
    InsertSorted(s.timers, e);
    var timers' := InsertEntry(s.timers, e);
    assert e in timers';
    assert Keys(s.heap, timers') == Keys(s.heap, s.timers) + {Key(s, a)};
  }

  lemma EraseIndexed(s: State, id: ActiveTimer)
    requires Indexed(s.timers, s.active, s.heap) && id in s.active
    ensures id.timer in s.heap && s.heap[id.timer].sequence == id.sequence && id.timer in Addrs(s.timers)
    ensures var timers' := EraseEntry(s.timers, Entry(s.heap[id.timer].expiration, id.timer));
            && |timers'| == |s.timers| - 1
            && Indexed(timers', s.active - {id}, s.heap)
            && Addrs(timers') == Addrs(s.timers) - {id.timer}
            && (forall x | x in timers' :: x in s.timers)
  {
    var e :| e in s.timers && id == ActiveTimer(e.timer, s.heap[e.timer].sequence);
    assert e == Entry(s.heap[id.timer].expiration, id.timer);
    EraseSorted(s.timers, e);
    var timers' := EraseEntry(s.timers, e);
    forall x | x in s.timers ensures x.timer == id.timer ==> x == e {}
    assert Keys(s.heap, timers') == s.active - {id};
  }

  /** Deleting a timer and recording its number keeps the numbering. */
  lemma DeleteNumbered(heap: map<Addr, Timer>, created: int, deleted: seq<int>, a: Addr)
    requires Numbered(heap, created, deleted) && a in heap
    ensures heap[a].sequence !in deleted
    ensures Numbered(heap - {a}, created, deleted + [heap[a].sequence])
  {
    var q, heap' := heap[a].sequence, heap - {a};
    assert IsLive(heap, q);
    forall p | 1 <= p <= created
      ensures p in deleted + [q] <==> !IsLive(heap', p)
    {
      if b :| b in heap && heap[b].sequence == p {
        if p != q { assert b in heap' && heap'[b].sequence == p; }
      }
      if IsLive(heap', p) {
        var b :| b in heap' && heap'[b].sequence == p;
        assert heap[b].sequence == p;
      }
    }
  }

  lemma SameSequencesNumbered(heap: map<Addr, Timer>, heap': map<Addr, Timer>, created: int, deleted: seq<int>)
    requires Numbered(heap, created, deleted) && heap'.Keys == heap.Keys
    requires forall a | a in heap :: heap'[a].sequence == heap[a].sequence
    ensures Numbered(heap', created, deleted)
  {
    forall q ensures IsLive(heap', q) <==> IsLive(heap, q) {
      if a :| a in heap && heap[a].sequence == q { assert heap'[a].sequence == q; }
      if a :| a in heap' && heap'[a].sequence == q { assert heap[a].sequence == q; }
    }
  }

  lemma ConstructNumbered(heap: map<Addr, Timer>, created: int, deleted: seq<int>, a: Addr, t: Timer)
    requires Numbered(heap, created, deleted) && a !in heap && created >= 0 && t.sequence == created + 1
    ensures Numbered(heap[a := t], created + 1, deleted)
  {
    var heap' := heap[a := t];
    assert heap'[a].sequence == created + 1;
    forall q | 1 <= q <= created + 1 ensures q in deleted <==> !IsLive(heap', q) {
      if b :| b in heap && heap[b].sequence == q { assert heap'[b].sequence == q; }
      if IsLive(heap', q) && q <= created {
        var b :| b in heap' && heap'[b].sequence == q;
        assert heap[b].sequence == q;
      }
    }
  }

  // ---------- Every step keeps it ----------

  lemma TakenInKeeps(s: State, a: Addr)
    requires Inv(s) && a in s.transit
    ensures a in s.heap && Inv(Insert(s, a).(transit := s.transit - {a}))
  {
    InsertIndexed(s, a);
    hide Numbered, Indexed, InsertEntry;
  }

  lemma AlarmKeeps(s: State, expiration: Time)
    requires Inv(s)
    ensures Inv(ResetTimerfd(s, expiration))
  {
    ResetTimerfdDeadline(s, expiration);
    hide ResetTimerfd;
  }

  lemma AddKeeps(s: State, a: Addr)
    requires Inv(s) && a in s.transit
    ensures a in s.heap && Inv(AddTimerInLoop(s, a))
  {
    TakenInKeeps(s, a);
    hide Inv;
    AlarmKeeps(Insert(s, a).(transit := s.transit - {a}), s.heap[a].expiration);
  }

  lemma CancelKeeps(s: State, id: ActiveTimer)
    requires Inv(s)
    ensures Safe(s, Cancel(id)) && Inv(CancelInLoop(s, id))
  {
    if id in s.active {
      EraseIndexed(s, id);
      var s' := CancelInLoop(s, id);
      IndexedFrame(s'.timers, s'.active, s.heap, s'.heap);
      DeleteNumbered(s.heap, s.created, s.deleted, id.timer);
    }
  }

  /** `cancelInLoop` between the deletion of the timer and the second `erase`. */
  function MidCancel(s: State, id: ActiveTimer): State
    requires id in s.active && id.timer in s.heap
  {
    Delete(s.(timers := EraseEntry(s.timers, Entry(s.heap[id.timer].expiration, id.timer))), id.timer)
  }

  /** There the indexes differ in size: whatever calls back into `cancelInLoop` or
      `insert` from the callback's destructor fails the first assertion of either. */
  lemma MidCancelSizesDiffer(s: State, id: ActiveTimer)
    requires Inv(s) && id in s.active
    ensures id.timer in s.heap
    ensures |MidCancel(s, id).timers| + 1 == |MidCancel(s, id).active|
    ensures MidCancel(s, id).(active := s.active - {id}) == CancelInLoop(s, id)
  {
    EraseIndexed(s, id);
    IndexedSizes(s.timers, s.active, s.heap);
  }

  lemma ConstructKeeps(s: State, a: Addr, when: Time, delta: nat, repeat: bool)
    requires Inv(s) && a !in s.heap
    ensures Inv(ConstructTimer(s, a, when, delta, repeat))
  {
    var s' := ConstructTimer(s, a, when, delta, repeat);
    assert a !in Addrs(s.timers);
    IndexedFrame(s.timers, s.active, s.heap, s'.heap);
    ConstructNumbered(s.heap, s.created, s.deleted, a, s'.heap[a]);
  }

  /** `getExpired` splits the queue: every due timer in the batch, by time, and
      only later ones left. */
  lemma BeginSplits(s: State)
    requires Inv(s)
    ensures Safe(s, Begin)
    ensures var s' := BeginRead(s);
            && s'.batch + s'.timers == s.timers
            && (forall i | 0 <= i < |s'.batch| :: s'.batch[i].when <= s.clock)
            && (forall i | 0 <= i < |s'.timers| :: s'.timers[i].when > s.clock)
            && (forall i, j | 0 <= i < j < |s'.batch| :: s'.batch[i].when <= s'.batch[j].when)
  {
    DueSplits(s.timers, s.clock);
    assert Safe(s, Begin);
    hide Inv, Safe, Sorted, DueCount;
  }

  lemma BeginKeeps(s: State)
    requires Inv(s) && !InRead(s)
    ensures Safe(s, Begin) && Inv(BeginRead(s))
  {
    hide Numbered;
    var n := DueCount(s.timers, s.clock);
    SplitIndexed(s.timers, s.active, s.heap, n);
    SplitDistinct(s.timers, n);
    assert Addrs(s.batch) == {};
  }

  /** Both ends of an index are indexes. */
  lemma SplitIndexed(timers: seq<Entry>, active: set<ActiveTimer>, heap: map<Addr, Timer>, n: nat)
    requires Indexed(timers, active, heap) && n <= |timers|
    ensures Distinct(timers) && Distinct(timers[..n])
    ensures Indexed(timers[n..], active - Keys(heap, timers[..n]), heap)
  {
    IndexedDistinct(timers, active, heap);
    SplitKeys(heap, timers, n);
    assert timers == timers[..n] + timers[n..];
  }

  lemma SplitDistinct(entries: seq<Entry>, n: nat)
    requires Distinct(entries) && n <= |entries|
    ensures Addrs(entries) == Addrs(entries[..n]) + Addrs(entries[n..])
    ensures Addrs(entries[..n]) !! Addrs(entries[n..])
  {
    assert entries == entries[..n] + entries[n..];
    forall x, y | x in entries[..n] && y in entries[n..] ensures x.timer != y.timer {
      var i :| 0 <= i < n && entries[i] == x;
      var j :| n <= j < |entries| && entries[j] == y;
    }
  }

  lemma SplitKeys(heap: map<Addr, Timer>, entries: seq<Entry>, n: nat)
    requires Distinct(entries) && n <= |entries|
    requires forall e | e in entries :: e.timer in heap
    ensures Keys(heap, entries[n..]) == Keys(heap, entries) - Keys(heap, entries[..n])
  {
    SplitDistinct(entries, n);
    assert entries == entries[..n] + entries[n..];
    assert forall k | k in Keys(heap, entries[n..]) :: k.timer in Addrs(entries[n..]);
    assert forall k | k in Keys(heap, entries[..n]) :: k.timer in Addrs(entries[..n]);
  }

  lemma RunOneKeeps(s: State)
    requires Inv(s) && s.calling && s.next < |s.batch|
    ensures Safe(s, RunOne) && Inv(RunNext(s))
  {
    assert s.batch[s.next].timer in Addrs(s.batch);
  }

  /** The head of the batch is live, and neither scheduled, nor in transit, nor again in the batch. */
  lemma OwnedHead(s: State, rest: seq<Entry>)
    requires Owned(s, rest) && rest != []
    ensures var a := rest[0].timer;
            && a in s.heap && a !in Addrs(s.timers) && a !in s.transit && a !in Addrs(rest[1..])
            && Addrs(rest) == {a} + Addrs(rest[1..])
            && Distinct(rest[1..])
  {
    var a := rest[0].timer;
    SplitDistinct(rest, 1);
    assert Addrs(rest[..1]) == {a} by { assert rest[..1] == [rest[0]]; assert rest[0] in rest[..1]; }
    assert a in Addrs(rest);
  }

  lemma RestartKeeps(s: State, a: Addr)
    requires Indexed(s.timers, s.active, s.heap) && Numbered(s.heap, s.created, s.deleted)
    requires a in s.heap && a !in Addrs(s.timers)
    ensures var s' := Insert(Restart(s, a), a);
            && Indexed(s'.timers, s'.active, s'.heap)
            && Numbered(s'.heap, s'.created, s'.deleted)
            && Addrs(s'.timers) == Addrs(s.timers) + {a}
  {
    var s1 := Restart(s, a);
    IndexedFrame(s.timers, s.active, s.heap, s1.heap);
    SameSequencesNumbered(s.heap, s1.heap, s.created, s.deleted);
    InsertIndexed(s1, a);
  }

  lemma ResetOneKeeps(s: State)
    requires Indexed(s.timers, s.active, s.heap) && Owned(s, s.batch) && Numbered(s.heap, s.created, s.deleted)
    requires s.batch != []
    ensures s.batch[0].timer in s.heap
    ensures var s', rest := ResetOne(s, s.batch[0].timer), s.batch[1..];
            && Indexed(s'.timers, s'.active, s'.heap) && Owned(s', rest) && Numbered(s'.heap, s'.created, s'.deleted)
  {
    hide Numbered, Indexed, Distinct, InsertEntry, Addrs;
    var a := s.batch[0].timer;
    OwnedHead(s, s.batch);
    if s.heap[a].repeat && Key(s, a) !in s.canceling {
      RestartKeeps(s, a);
    } else {
      IndexedFrame(s.timers, s.active, s.heap, s.heap - {a});
      DeleteNumbered(s.heap, s.created, s.deleted, a);
    }
  }

  lemma ResetKeeps(s: State)
    requires Inv(s) && s.resetting && s.batch != []
    ensures Safe(s, Reset) && Inv(ResetNext(s))
  {
    ResetOneKeeps(s);
    hide Numbered, Indexed, InsertEntry, Addrs, Distinct;
  }

  lemma FinishKeeps(s: State)
    requires Inv(s) && s.resetting && s.batch == []
    ensures Safe(s, Finish) && Inv(Rearm(s).(resetting := false))
  {
    assert s.timers != [] ==> s.timers[0] in s.timers;
  }

  /** No step the program can take follows a pointer to a deleted timer, and
      every one keeps the invariant.  A cancellation is one step, that is, the
      destructor of the callback it deletes does not call back into the queue. */
  lemma StepKeeps(s: State, step: Step)
    requires Inv(s) && Taken(s, step)
    ensures Safe(s, step) && Inv(Next(s, step))
  {
    hide Inv;
    match step
    case Construct(a, when, delta, repeat) => ConstructKeeps(s, a, when, delta, repeat);
    case Add(a) => AddKeeps(s, a);
    case Cancel(id) => CancelKeeps(s, id);
    case Begin => BeginKeeps(s);
    case RunOne => RunOneKeeps(s);
    case EndCalls => TimeKeeps(s, step);
    case Reset => ResetKeeps(s);
    case Finish => FinishKeeps(s);
    case Tick(_) => TimeKeeps(s, step);
    case Fire => TimeKeeps(s, step);
  }

  lemma TimeKeeps(s: State, step: Step)
    requires Inv(s) && Taken(s, step) && (step.Tick? || step.Fire? || step.EndCalls?)
    ensures Inv(Next(s, step))
  {
  }

  // ---------- Runs ----------

  ghost predicate Execution(s: State, steps: seq<Step>)
    requires Inv(s)
    decreases |steps|
  {
    steps != [] ==>
      && Taken(s, steps[0])
      && (StepKeeps(s, steps[0]);
          Execution(Next(s, steps[0]), steps[1..]))
  }

  ghost function After(s: State, steps: seq<Step>): (s': State)
    requires Inv(s) && Execution(s, steps)
    ensures Inv(s')
    decreases |steps|
  {
    if steps == [] then s
    else
      StepKeeps(s, steps[0]);
      After(Next(s, steps[0]), steps[1..])
  }

  lemma TakeStep(s: State, step: Step, rest: seq<Step>)
    requires Inv(s) && Execution(s, [step] + rest)
    ensures Taken(s, step) && Safe(s, step) && Inv(Next(s, step))
    ensures Execution(Next(s, step), rest)
    ensures After(s, [step] + rest) == After(Next(s, step), rest)
  {
    StepKeeps(s, step);
    assert ([step] + rest)[1..] == rest;
  }
}
