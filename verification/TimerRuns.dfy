/** What holds of the timer queue over whole runs. */
module TimerRuns {
  import opened CppInt
  import opened TimerMachine

  // ---------- Ownership ----------

  /** The places a timer can be in. */
  predicate InTransit(s: State, q: int) {
    exists a | a in s.transit :: a in s.heap && s.heap[a].sequence == q
  }

  predicate Scheduled(s: State, q: int) {
    exists e | e in s.timers :: e.timer in s.heap && s.heap[e.timer].sequence == q
  }

  predicate InBatch(s: State, q: int) {
    exists e | e in s.batch :: e.timer in s.heap && s.heap[e.timer].sequence == q
  }

  /** In every state of every run each timer made so far is in transit,
      scheduled, in the batch being run, or deleted: in exactly one of the four,
      and deleted at most once; and the two indexes have the same size. */
  lemma OneOwner(clock: Time, steps: seq<Step>, q: int)
    requires Execution(Initial(clock), steps)
    ensures var s := After(Initial(clock), steps);
            && |s.timers| == |s.active|
            && (forall i, j | 0 <= i < j < |s.deleted| :: s.deleted[i] != s.deleted[j])
            && (1 <= q <= s.created <==> InTransit(s, q) || Scheduled(s, q) || InBatch(s, q) || q in s.deleted)
            && !(InTransit(s, q) && Scheduled(s, q)) && !(InTransit(s, q) && InBatch(s, q))
            && !(Scheduled(s, q) && InBatch(s, q))
            && (q in s.deleted ==> !InTransit(s, q) && !Scheduled(s, q) && !InBatch(s, q))
  {
    var s := After(Initial(clock), steps);
    IndexedSizes(s.timers, s.active, s.heap);
    OwnedOnce(s, q);
  }

  lemma OwnedOnce(s: State, q: int)
    requires Inv(s)
    ensures IsLive(s.heap, q) <==> InTransit(s, q) || Scheduled(s, q) || InBatch(s, q)
    ensures !(InTransit(s, q) && Scheduled(s, q)) && !(InTransit(s, q) && InBatch(s, q))
    ensures !(Scheduled(s, q) && InBatch(s, q))
    ensures 1 <= q <= s.created <==> IsLive(s.heap, q) || q in s.deleted
    ensures q in s.deleted ==> !IsLive(s.heap, q)
  {
    forall a | a in s.heap && s.heap[a].sequence == q
      ensures InTransit(s, q) <==> a in s.transit
      ensures Scheduled(s, q) <==> a in Addrs(s.timers)
      ensures InBatch(s, q) <==> a in Addrs(s.batch)
    {
      if InTransit(s, q) { var b :| b in s.transit && b in s.heap && s.heap[b].sequence == q; assert a == b; }
      if Scheduled(s, q) { var e :| e in s.timers && e.timer in s.heap && s.heap[e.timer].sequence == q; assert a == e.timer; }
      if InBatch(s, q) { var e :| e in s.batch && e.timer in s.heap && s.heap[e.timer].sequence == q; assert a == e.timer; }
    }
    if InTransit(s, q) { var a :| a in s.transit && a in s.heap && s.heap[a].sequence == q; assert IsLive(s.heap, q); }
    if Scheduled(s, q) { var e :| e in s.timers && e.timer in s.heap && s.heap[e.timer].sequence == q; assert IsLive(s.heap, q); }
    if InBatch(s, q) { var e :| e in s.batch && e.timer in s.heap && s.heap[e.timer].sequence == q; assert IsLive(s.heap, q); }
  }

  // ---------- What a handleRead runs ----------

  function Sequences(heap: map<Addr, Timer>, entries: seq<Entry>): seq<int>
    requires forall i | 0 <= i < |entries| :: entries[i].timer in heap
  {
    seq(|entries|, i requires 0 <= i < |entries| => heap[entries[i].timer].sequence)
  }

  lemma BatchLive(s: State)
    requires Inv(s)
    ensures AllLive(s, s.batch)
  {
    forall i | 0 <= i < |s.batch| ensures s.batch[i].timer in s.heap {
      assert s.batch[i].timer in Addrs(s.batch);
    }
  }

  /** The timers of the batch are untouched until it is reset. */
  predicate BatchUntouched(s: State, s': State) {
    && s'.calling && s'.batch == s.batch && s'.now == s.now && s.next <= s'.next
    && forall i | 0 <= i < |s.batch| ::
         s.batch[i].timer in s.heap && s.batch[i].timer in s'.heap
         && s'.heap[s.batch[i].timer] == s.heap[s.batch[i].timer]
  }

  /** And the callbacks run in between are the next ones of the batch, in order. */
  predicate RanBatch(s: State, s': State) {
    && BatchUntouched(s, s')
    && s'.next <= |s.batch|
    && s'.runs == s.runs + Sequences(s.heap, s.batch[s.next..s'.next])
  }

  lemma StepUntouched(s: State, step: Step)
    requires Inv(s) && s.calling && Taken(s, step) && !step.EndCalls?
    ensures Safe(s, step) && BatchUntouched(s, Next(s, step))
    ensures Next(s, step).next == if step.RunOne? then s.next + 1 else s.next
    ensures !step.RunOne? ==> Next(s, step).runs == s.runs
  {
    BatchLive(s);
    match step
    case Construct(_, _, _, _) =>
    case Add(a) => AddKeeps(s, a);
    case Cancel(id) => CancelUntouched(s, id);
    case RunOne => RunOneKeeps(s);
    case Tick(_) =>
    case Fire =>
  }

  lemma CancelUntouched(s: State, id: ActiveTimer)
    requires Inv(s) && s.calling
    ensures Safe(s, Cancel(id)) && BatchUntouched(s, CancelInLoop(s, id))
    ensures CancelInLoop(s, id).next == s.next && CancelInLoop(s, id).runs == s.runs
  {
    BatchLive(s);
    if id in s.active {
      EraseIndexed(s, id);
      forall i | 0 <= i < |s.batch| ensures s.batch[i].timer != id.timer {
        assert s.batch[i].timer in Addrs(s.batch);
      }
    }
  }

  lemma StepRanBatch(s: State, step: Step)
    requires Inv(s) && s.calling && Taken(s, step) && !step.EndCalls?
    ensures Safe(s, step) && RanBatch(s, Next(s, step))
  {
    StepUntouched(s, step);
    if step.RunOne? {
      BatchLive(s);
      assert s.batch[s.next..s.next + 1] == [s.batch[s.next]];
    } else {
      hide Next, Safe, Taken;
    }
    hide BatchUntouched, Inv;
  }

  lemma RanBatchTransitive(s: State, s1: State, s2: State)
    requires RanBatch(s, s1) && RanBatch(s1, s2)
    ensures RanBatch(s, s2)
  {
    assert s.batch[s.next..s2.next] == s.batch[s.next..s1.next] + s.batch[s1.next..s2.next];
  }

  /** Whatever the callbacks add and cancel, and cancelled or not, the callbacks
      run are those of the batch, one after the other. */
  lemma {:induction false} CallbacksRunBatch(s: State, steps: seq<Step>)
    requires Inv(s) && s.calling && Execution(s, steps) && EndCalls !in steps
    ensures RanBatch(s, After(s, steps))
    decreases |steps|
  {
    if steps == [] {
      BatchLive(s);
    } else {
      assert steps[0] in steps;
      StepKeeps(s, steps[0]);
      StepRanBatch(s, steps[0]);
      hide Inv, Safe, Next, Taken;
      CallbacksRunBatch(Next(s, steps[0]), steps[1..]);
      RanBatchTransitive(s, Next(s, steps[0]), After(Next(s, steps[0]), steps[1..]));
    }
  }

  /** A whole round of callbacks runs the due timers, each once, in order of time. */
  lemma ReadRunsDueTimers(s: State, steps: seq<Step>)
    requires Inv(s) && Execution(s, [Begin] + steps) && EndCalls !in steps
    requires Taken(After(s, [Begin] + steps), EndCalls)
    ensures forall e | e in s.timers :: e.timer in s.heap
    ensures After(s, [Begin] + steps).runs
            == s.runs + Sequences(s.heap, s.timers[..DueCount(s.timers, s.clock)])
  {
    TakeStep(s, Begin, steps);
    var s0 := BeginRead(s);
    var s1 := After(s0, steps);
    assert s1.next >= |s1.batch|;
    BatchLive(s0);
    hide Taken, Next, Indexed;
    CallbacksRunBatch(s0, steps);
    hide Inv, Execution, RanBatch, After, AllLive;
    BatchDone(s0, s1);
  }

  lemma BatchDone(s: State, s': State)
    requires RanBatch(s, s') && s.next == 0 && s'.next >= |s'.batch| && AllLive(s, s.batch)
    ensures s'.runs == s.runs + Sequences(s.heap, s.batch)
  {
    assert s.batch[0..|s.batch|] == s.batch;
  }

  /** A timer due when `handleRead` begins has run exactly once more when the
      callbacks are done, and one not due has not run. */
  lemma {:induction false} DueTimerRunsOnce(s: State, i: nat, steps: seq<Step>)
    requires Inv(s) && i < |s.timers|
    requires Execution(s, [Begin] + steps) && EndCalls !in steps
    requires Taken(After(s, [Begin] + steps), EndCalls)
    ensures s.timers[i].timer in s.heap
    ensures var q, s' := s.heap[s.timers[i].timer].sequence, After(s, [Begin] + steps);
            multiset(s'.runs)[q] == multiset(s.runs)[q] + (if s.timers[i].when <= s.clock then 1 else 0)
  {
    ReadRunsDueTimers(s, steps);
    DueSplits(s.timers, s.clock);
    IndexedDistinct(s.timers, s.active, s.heap);
    SequenceCount(s.heap, s.timers, DueCount(s.timers, s.clock), i);
    assert s.timers[i] in s.timers;
    hide Inv, Execution, After, Taken, Sequences;
  }

  /** In the sequences of the first `n` of distinct timers the `i`-th one's
      occurs once if it is among them. */
  lemma {:induction false} SequenceCount(heap: map<Addr, Timer>, entries: seq<Entry>, n: nat, i: nat)
    requires forall e | e in entries :: e.timer in heap
    requires Distinct(entries) && n <= |entries| && i < |entries|
    requires forall a, b | a in heap && b in heap && a != b :: heap[a].sequence != heap[b].sequence
    ensures multiset(Sequences(heap, entries[..n]))[heap[entries[i].timer].sequence] == if i < n then 1 else 0
  {
    if n > 0 {
      SequenceCount(heap, entries, n - 1, i);
      assert Sequences(heap, entries[..n])
          == Sequences(heap, entries[..n - 1]) + [heap[entries[n - 1].timer].sequence];
      if i != n - 1 { assert entries[i].timer != entries[n - 1].timer; }
    }
  }

  // ---------- One-shot timers ----------

  /** What is known of one-shot timer `q`: how often it has run follows from where it is. */
  ghost predicate OneShot(s: State, q: int) {
    && q <= s.created
    && multiset(s.runs)[q] <= 1
    && forall a | a in s.heap && s.heap[a].sequence == q ::
         && !s.heap[a].repeat
         && (a !in Addrs(s.batch) ==> multiset(s.runs)[q] == 0)
         && (forall i | 0 <= i < |s.batch| && s.batch[i].timer == a ::
               multiset(s.runs)[q] == if i < s.next then 1 else 0)
  }

  /** Nothing has been run or taken out of the batch, and the timers made before
      are as they were, or deleted. */
  ghost predicate Undisturbed(s: State, s': State) {
    && s'.runs == s.runs && s'.batch == s.batch && s'.next == s.next
    && s'.created >= s.created && s'.clock >= s.clock && s'.now == s.now && s.canceling <= s'.canceling
    && (forall a | a in s.heap && a in s'.transit :: a in s.transit)
    && forall a | a in s'.heap && s'.heap[a].sequence <= s.created :: a in s.heap && s'.heap[a] == s.heap[a]
  }

  /** So it is after any step but the beginning of a read, the call of a callback
      and the reset of a timer. */
  lemma QuietStep(s: State, step: Step)
    requires Inv(s) && Taken(s, step) && !step.Begin? && !step.RunOne? && !step.Reset?
    ensures Safe(s, step) && Undisturbed(s, Next(s, step))
  {
    StepKeeps(s, step);
  }

  lemma OneShotQuiet(s: State, s': State, q: int)
    requires OneShot(s, q) && Undisturbed(s, s')
    ensures OneShot(s', q)
  {
  }

  lemma OneShotStep(s: State, q: int, step: Step)
    requires Inv(s) && OneShot(s, q) && Taken(s, step)
    ensures Safe(s, step) && OneShot(Next(s, step), q)
  {
    match step
    case Begin => OneShotBegin(s, q);
    case RunOne => OneShotRun(s, q);
    case Reset => OneShotReset(s, q);
    case _ =>
      QuietStep(s, step);
      hide Inv, Next, Safe;
      OneShotQuiet(s, Next(s, step), q);
  }

  lemma OneShotBegin(s: State, q: int)
    requires Inv(s) && OneShot(s, q) && !InRead(s)
    ensures Safe(s, Begin) && OneShot(BeginRead(s), q)
  {
    BeginKeeps(s);
    assert Addrs(s.batch) == {};
  }

  lemma OneShotRun(s: State, q: int)
    requires Inv(s) && OneShot(s, q) && s.calling && s.next < |s.batch|
    ensures Safe(s, RunOne) && OneShot(RunNext(s), q)
  {
    BatchLive(s);
    var a := s.batch[s.next].timer;
    var s' := RunNext(s);
    forall b, i | b in s.heap && s.heap[b].sequence == q && 0 <= i < |s.batch| && s.batch[i].timer == b
      ensures multiset(s'.runs)[q] == if i < s'.next then 1 else 0
    {
      if i != s.next { assert s.batch[i].timer != a; }
    }
    assert s.batch[s.next] in s.batch;
  }

  /** The next timer of the batch is reset: it is given a new expiration, or
      deleted unless it repeats and was not cancelled. */
  lemma ResetHeap(s: State)
    requires Inv(s) && s.resetting && s.batch != []
    ensures Safe(s, Reset) && Inv(ResetNext(s)) && s.batch[0].timer in Addrs(s.batch)
    ensures var a, s' := s.batch[0].timer, ResetNext(s);
            && s'.batch == s.batch[1..] && s'.next == s.next - 1 && Addrs(s'.batch) == Addrs(s.batch) - {a}
            && s'.transit == s.transit && s'.created == s.created && s'.runs == s.runs
            && s'.canceling == s.canceling && s'.clock == s.clock && s'.now == s.now
            && !s'.calling && s'.resetting
            && (forall b | b in s'.heap :: b in s.heap)
            && (forall b | b in s.heap && b != a :: b in s'.heap && s'.heap[b] == s.heap[b])
            && (a in s'.heap <==> s.heap[a].repeat && Key(s, a) !in s.canceling)
            && (a in s'.heap ==> s'.heap[a] == Restarted(s.heap[a], s.now) && a in Addrs(s'.timers))
  {
    ResetKeeps(s);
    OwnedHead(s, s.batch);
    var a := s.batch[0].timer;
    if s.heap[a].repeat && Key(s, a) !in s.canceling {
      RestartKeeps(s, a);
    }
    hide Inv, Addrs, Insert, Indexed;
  }

  lemma ScheduledAtExpiration(s: State, a: Addr)
    requires Inv(s) && a in s.heap && a !in s.transit && a !in Addrs(s.batch)
    ensures Entry(s.heap[a].expiration, a) in s.timers
  {
    var e :| e in s.timers && e.timer == a;
    assert e == Entry(s.heap[a].expiration, a);
  }

  lemma OneShotReset(s: State, q: int)
    requires Inv(s) && OneShot(s, q) && s.resetting && s.batch != []
    ensures Safe(s, Reset) && OneShot(ResetNext(s), q)
  {
    ResetHeap(s);
    var s' := ResetNext(s);
    assert s.next == |s.batch|;
    hide ResetNext, Inv, Addrs;
    forall b, i | b in s'.heap && s'.heap[b].sequence == q && 0 <= i < |s'.batch| && s'.batch[i].timer == b
      ensures multiset(s'.runs)[q] == if i < s'.next then 1 else 0
    {
      assert s.batch[i + 1].timer == b;
    }
  }

  lemma {:induction false} OneShotExecution(s: State, q: int, steps: seq<Step>)
    requires Inv(s) && OneShot(s, q) && Execution(s, steps)
    ensures OneShot(After(s, steps), q)
    decreases |steps|
  {
    if steps != [] {
      StepKeeps(s, steps[0]);
      OneShotStep(s, q, steps[0]);
      hide Inv, OneShot, Next, Safe, Taken;
      OneShotExecution(Next(s, steps[0]), q, steps[1..]);
    }
  }

  /** A timer made without an interval runs at most once, whatever follows. */
  lemma {:induction false} OneShotRunsAtMostOnce(s: State, a: Addr, when: Time, delta: nat, steps: seq<Step>)
    requires Inv(s) && Execution(s, [Construct(a, when, delta, false)] + steps)
    ensures multiset(After(s, [Construct(a, when, delta, false)] + steps).runs)[s.created + 1] <= 1
  {
    assert ([Construct(a, when, delta, false)] + steps)[1..] == steps;
    var q, s' := s.created + 1, ConstructTimer(s, a, when, delta, false);
    StepKeeps(s, Construct(a, when, delta, false));
    assert q !in s.runs;
    assert multiset(s.runs)[q] == 0;
    assert a !in Addrs(s'.batch);
    OneShotExecution(s', q, steps);
  }

  // ---------- Identities ----------

  /** Whatever timer has number `q` is at `a`. */
  ghost predicate OnlyAt(s: State, a: Addr, q: int) {
    q <= s.created && forall b | b in s.heap && s.heap[b].sequence == q :: b == a
  }

  lemma OnlyAtStep(s: State, a: Addr, q: int, step: Step)
    requires Inv(s) && OnlyAt(s, a, q) && Taken(s, step)
    ensures Safe(s, step) && OnlyAt(Next(s, step), a, q)
  {
    match step
    case Begin => BeginKeeps(s);
    case RunOne => RunOneKeeps(s);
    case Reset => ResetHeap(s); hide ResetNext;
    case _ => QuietStep(s, step);
  }

  lemma {:induction false} OnlyAtExecution(s: State, a: Addr, q: int, steps: seq<Step>)
    requires Inv(s) && OnlyAt(s, a, q) && Execution(s, steps)
    ensures OnlyAt(After(s, steps), a, q)
    decreases |steps|
  {
    if steps != [] {
      StepKeeps(s, steps[0]);
      OnlyAtStep(s, a, q, steps[0]);
      hide Inv, OnlyAt, Next, Safe, Taken;
      OnlyAtExecution(Next(s, steps[0]), a, q, steps[1..]);
    }
  }

  /** `addTimer` reads the number back at the timer's address after handing the
      timer over.  However far the loop has got by then, that is the timer's own
      number exactly as long as the timer is live. */
  lemma {:induction false} IdReadBack(s: State, a: Addr, when: Time, delta: nat, repeat: bool, steps: seq<Step>)
    requires Inv(s) && Execution(s, [Construct(a, when, delta, repeat)] + steps)
    ensures var s', q := After(s, [Construct(a, when, delta, repeat)] + steps), s.created + 1;
            a in s'.heap && s'.heap[a].sequence == q <==> IsLive(s'.heap, q)
  {
    TakeStep(s, Construct(a, when, delta, repeat), steps);
    OnlyAtExecution(ConstructTimer(s, a, when, delta, repeat), a, s.created + 1, steps);
  }

  // ---------- Timers that are not cancelled ----------

  /** The timer at `a` is live and, if its batch is under way, not among those
      cancelled meanwhile. */
  ghost predicate Uncancelled(s: State, a: Addr) {
    a in s.heap && (a in Addrs(s.batch) ==> Key(s, a) !in s.canceling)
  }

  /** A timer that this step does not cancel stays as it was, unless it is reset:
      then it is restarted if it repeats. */
  lemma UncancelledStep(s: State, a: Addr, step: Step)
    requires Inv(s) && Uncancelled(s, a) && Taken(s, step) && step != Cancel(Key(s, a))
    ensures Safe(s, step)
    ensures var s' := Next(s, step);
            if step.Reset? && a == s.batch[0].timer then
              s.heap[a].repeat ==>
                Uncancelled(s', a) && s'.heap[a] == Restarted(s.heap[a], s.now) && a !in Addrs(s'.batch)
            else
              Uncancelled(s', a) && s'.heap[a] == s.heap[a]
  {
    match step
    case Begin => BeginKeeps(s);
    case RunOne => RunOneKeeps(s);
    case Reset => ResetHeap(s); hide ResetNext;
    case Cancel(id) => CancelTouchesOnlyItsTimer(s, id);
    case _ => QuietStep(s, step);
  }

  /** A step runs at most one callback more, and takes none back. */
  lemma RunsGrow(s: State, step: Step)
    requires Inv(s) && Taken(s, step)
    ensures Safe(s, step) && s.runs <= Next(s, step).runs
  {
    match step
    case Begin => BeginKeeps(s);
    case RunOne => RunOneKeeps(s);
    case Reset => ResetHeap(s); hide ResetNext;
    case _ => QuietStep(s, step);
  }

  /** The one-shot timer `q` made at `a` for time `when` has run, or is still there to run. */
  ghost predicate RunsOnce(s: State, a: Addr, q: int, when: Time) {
    && OneShot(s, q)
    && (multiset(s.runs)[q] == 1
        || (Uncancelled(s, a) && Key(s, a).sequence == q && !s.heap[a].repeat && s.heap[a].expiration == when))
  }

  lemma RunsOnceStep(s: State, a: Addr, q: int, when: Time, step: Step)
    requires Inv(s) && RunsOnce(s, a, q, when) && Taken(s, step) && step != Cancel(ActiveTimer(a, q))
    ensures Safe(s, step) && RunsOnce(Next(s, step), a, q, when)
  {
    OneShotStep(s, q, step);
    if multiset(s.runs)[q] == 1 {
      RunsGrow(s, step);
      GrownCount(s.runs, Next(s, step).runs, q);
    } else {
      UncancelledStep(s, a, step);
    }
  }

  lemma GrownCount(runs: seq<int>, runs': seq<int>, q: int)
    requires runs <= runs'
    ensures multiset(runs)[q] <= multiset(runs')[q]
  {
    assert runs' == runs + runs'[|runs|..];
  }

  lemma {:induction false} RunsOnceExecution(s: State, a: Addr, q: int, when: Time, steps: seq<Step>)
    requires Inv(s) && RunsOnce(s, a, q, when) && Execution(s, steps) && Cancel(ActiveTimer(a, q)) !in steps
    ensures RunsOnce(After(s, steps), a, q, when)
    decreases |steps|
  {
    if steps != [] {
      assert steps[0] in steps;
      StepKeeps(s, steps[0]);
      RunsOnceStep(s, a, q, when, steps[0]);
      hide Inv, RunsOnce, Next, Safe, Taken;
      RunsOnceExecution(Next(s, steps[0]), a, q, when, steps[1..]);
    }
  }

  lemma RunsOnceMade(s: State, a: Addr, when: Time, delta: nat)
    requires Inv(s) && a !in s.heap
    ensures RunsOnce(ConstructTimer(s, a, when, delta, false), a, s.created + 1, when)
  {
    var q := s.created + 1;
    StepKeeps(s, Construct(a, when, delta, false));
    assert q !in s.runs;
    assert a !in Addrs(s.batch);
  }

  /** A `handleRead` at or after its time leaves a one-shot timer that has left
      transit with exactly one run, whatever happens during the callbacks. */
  lemma RunsOnceRead(s: State, a: Addr, q: int, when: Time, during: seq<Step>)
    requires Inv(s) && RunsOnce(s, a, q, when) && !InTransit(s, q) && s.clock >= when
    requires Execution(s, [Begin] + during) && EndCalls !in during
    requires Taken(After(s, [Begin] + during), EndCalls)
    ensures multiset(After(s, [Begin] + during).runs)[q] == 1
  {
    if multiset(s.runs)[q] == 1 {
      OneShotExecution(s, q, [Begin] + during);
      ReadRunsDueTimers(s, during);
      GrownCount(s.runs, After(s, [Begin] + during).runs, q);
    } else {
      assert a !in s.transit && Addrs(s.batch) == {};
      ScheduledAtExpiration(s, a);
      var i :| 0 <= i < |s.timers| && s.timers[i] == Entry(when, a);
      assert Addrs(s.batch) == {};
      DueTimerRunsOnce(s, i, during);
    }
  }

  /** A timer made without an interval and never cancelled before has run exactly
      once when the callbacks of any `handleRead` at or after its time are done,
      provided it had reached the loop when that began; and that stays so. */
  lemma {:induction false} OneShotRunsExactlyOnce(s: State, a: Addr, when: Time, delta: nat,
                               before: seq<Step>, during: seq<Step>, later: seq<Step>)
    requires Inv(s) && Execution(s, [Construct(a, when, delta, false)] + before)
    requires Cancel(ActiveTimer(a, s.created + 1)) !in before
    requires var s1 := After(s, [Construct(a, when, delta, false)] + before);
             && !InTransit(s1, s.created + 1) && s1.clock >= when
             && Execution(s1, [Begin] + during) && EndCalls !in during
             && var s2 := After(s1, [Begin] + during);
                Taken(s2, EndCalls) && Execution(s2, later)
    ensures var s1 := After(s, [Construct(a, when, delta, false)] + before);
            var s2 := After(s1, [Begin] + during);
            && multiset(s2.runs)[s.created + 1] == 1
            && multiset(After(s2, later).runs)[s.created + 1] == 1
  {
    var q := s.created + 1;
    TakeStep(s, Construct(a, when, delta, false), before);
    RunsOnceMade(s, a, when, delta);
    var s0 := ConstructTimer(s, a, when, delta, false);
    hide Inv, RunsOnce, OneShot, Taken, Next, ConstructTimer;
    RunsOnceExecution(s0, a, q, when, before);
    var s1 := After(s0, before);
    RunsOnceRead(s1, a, q, when, during);
    var s2 := After(s1, [Begin] + during);
    OneShotOf(s1, a, q, when);
    OneShotExecution(s1, q, [Begin] + during);
    RunsKept(s2, q, later);
  }

  lemma OneShotOf(s: State, a: Addr, q: int, when: Time)
    requires RunsOnce(s, a, q, when)
    ensures OneShot(s, q)
  {
  }

  /** A one-shot timer that has run does not run again. */
  lemma {:induction false} RunsKept(s: State, q: int, steps: seq<Step>)
    requires Inv(s) && OneShot(s, q) && multiset(s.runs)[q] == 1 && Execution(s, steps)
    ensures multiset(After(s, steps).runs)[q] == 1
    decreases |steps|
  {
    if steps != [] {
      StepKeeps(s, steps[0]);
      OneShotStep(s, q, steps[0]);
      RunsGrow(s, steps[0]);
      GrownCount(s.runs, Next(s, steps[0]).runs, q);
      assert multiset(Next(s, steps[0]).runs)[q] <= 1;
      hide Inv, OneShot, Next, Safe, Taken;
      RunsKept(Next(s, steps[0]), q, steps[1..]);
    }
  }

  /** Timer `q` waits for time `when` or later: until then it is in no batch and
      has run no more than `n` times. */
  ghost predicate NotEarly(s: State, q: int, when: Time, n: nat) {
    && q <= s.created
    && (multiset(s.runs)[q] > n ==> s.clock >= when)
    && forall a | a in s.heap && s.heap[a].sequence == q ::
         && s.heap[a].expiration >= when
         && (a in Addrs(s.batch) ==> s.now >= when && s.clock >= when)
  }

  lemma NotEarlyBegin(s: State, q: int, when: Time, n: nat)
    requires Inv(s) && NotEarly(s, q, when, n) && !InRead(s)
    ensures Safe(s, Begin) && NotEarly(BeginRead(s), q, when, n)
  {
    BeginSplits(s);
    var s' := BeginRead(s);
    forall i | 0 <= i < |s'.batch| ensures s'.batch[i] in s.timers && s'.batch[i].when <= s.clock {
      assert s'.batch[i] == s.timers[i];
    }
  }

  lemma NotEarlyRun(s: State, q: int, when: Time, n: nat)
    requires Inv(s) && NotEarly(s, q, when, n) && s.calling && s.next < |s.batch|
    ensures Safe(s, RunOne) && NotEarly(RunNext(s), q, when, n)
  {
    RunOneKeeps(s);
    assert s.batch[s.next] in s.batch;
  }

  lemma NotEarlyReset(s: State, q: int, when: Time, n: nat)
    requires Inv(s) && NotEarly(s, q, when, n) && s.resetting && s.batch != []
    ensures Safe(s, Reset) && NotEarly(ResetNext(s), q, when, n)
  {
    ResetHeap(s);
    hide ResetNext, Inv;
  }

  lemma NotEarlyStep(s: State, q: int, when: Time, n: nat, step: Step)
    requires Inv(s) && NotEarly(s, q, when, n) && Taken(s, step)
    ensures Safe(s, step) && NotEarly(Next(s, step), q, when, n)
  {
    match step
    case Begin => NotEarlyBegin(s, q, when, n);
    case RunOne => NotEarlyRun(s, q, when, n);
    case Reset => NotEarlyReset(s, q, when, n);
    case _ =>
      QuietStep(s, step);
      hide Inv, Next, Safe;
  }

  lemma {:induction false} NotEarlyExecution(s: State, q: int, when: Time, n: nat, steps: seq<Step>)
    requires Inv(s) && NotEarly(s, q, when, n) && Execution(s, steps)
    ensures NotEarly(After(s, steps), q, when, n)
    decreases |steps|
  {
    if steps != [] {
      StepKeeps(s, steps[0]);
      NotEarlyStep(s, q, when, n, steps[0]);
      hide Inv, NotEarly, Next, Safe, Taken;
      NotEarlyExecution(Next(s, steps[0]), q, when, n, steps[1..]);
    }
  }

  /** No timer, one-shot or repeating, runs before the time it was made for. */
  lemma {:induction false} NeverEarly(s: State, a: Addr, when: Time, delta: nat, repeat: bool, steps: seq<Step>)
    requires Inv(s) && Execution(s, [Construct(a, when, delta, repeat)] + steps)
    ensures var s' := After(s, [Construct(a, when, delta, repeat)] + steps);
            s.created + 1 in s'.runs ==> s'.clock >= when
  {
    TakeStep(s, Construct(a, when, delta, repeat), steps);
    assert a !in Addrs(s.batch);
    var s0, q := ConstructTimer(s, a, when, delta, repeat), s.created + 1;
    assert q !in s.runs;
    assert multiset(s.runs)[q] == 0;
    assert NotEarly(s0, q, when, 0);
    hide Inv, Execution, NotEarly;
    NotEarlyExecution(s0, q, when, 0, steps);
    NotEarlyRuns(After(s0, steps), q, when);
  }

  lemma NotEarlyRuns(s: State, q: int, when: Time)
    requires NotEarly(s, q, when, 0)
    ensures q in s.runs ==> s.clock >= when
  {
    assert q in s.runs ==> q in multiset(s.runs);
  }

  /** Nor does a timer that waits run again before its present expiration. */
  lemma {:induction false} RunsNotBefore(s: State, a: Addr, steps: seq<Step>)
    requires Inv(s) && a in s.heap && a !in Addrs(s.batch) && Execution(s, steps)
    requires After(s, steps).clock < s.heap[a].expiration
    ensures multiset(After(s, steps).runs)[s.heap[a].sequence] <= multiset(s.runs)[s.heap[a].sequence]
  {
    NotEarlyExecution(s, s.heap[a].sequence, s.heap[a].expiration, multiset(s.runs)[s.heap[a].sequence], steps);
  }

  /** The timer at `a`, with number `q`, repeats after `delta` and nothing has cancelled it. */
  ghost predicate Repeating(s: State, a: Addr, q: int, delta: nat) {
    Uncancelled(s, a) && s.heap[a].sequence == q && s.heap[a].repeat && s.heap[a].delta == delta
  }

  lemma {:induction false} RepeatingExecution(s: State, a: Addr, q: int, delta: nat, steps: seq<Step>)
    requires Inv(s) && Repeating(s, a, q, delta) && Execution(s, steps) && Cancel(ActiveTimer(a, q)) !in steps
    ensures Repeating(After(s, steps), a, q, delta)
    decreases |steps|
  {
    if steps != [] {
      assert steps[0] in steps;
      StepKeeps(s, steps[0]);
      UncancelledStep(s, a, steps[0]);
      hide Inv, Next, Safe, Taken;
      RepeatingExecution(Next(s, steps[0]), a, q, delta, steps[1..]);
    }
  }

  /** A repeating timer that is not cancelled is never lost: it stays live with
      the interval it was made with, and once it has reached the loop it is
      scheduled whenever no `handleRead` is under way: for the time it was made
      for until one has begun, and from then on as `ReadRestarts` says. */
  lemma {:induction false} RepeatingStaysScheduled(s: State, a: Addr, when: Time, delta: nat, steps: seq<Step>)
    requires Inv(s) && Execution(s, [Construct(a, when, delta, true)] + steps)
    requires Cancel(ActiveTimer(a, s.created + 1)) !in steps
    ensures var s', q := After(s, [Construct(a, when, delta, true)] + steps), s.created + 1;
            && a in s'.heap && s'.heap[a].sequence == q && s'.heap[a].repeat && s'.heap[a].delta == delta
            && (Begin !in steps ==> s'.heap[a].expiration == when)
            && (InTransit(s', q) || Scheduled(s', q) || InBatch(s', q))
            && (!InRead(s') && !InTransit(s', q) ==> Entry(s'.heap[a].expiration, a) in s'.timers)
  {
    var q := s.created + 1;
    TakeStep(s, Construct(a, when, delta, true), steps);
    var s0 := ConstructTimer(s, a, when, delta, true);
    assert a !in Addrs(s.batch);
    RepeatingExecution(s0, a, q, delta, steps);
    var s' := After(s0, steps);
    if Begin !in steps {
      assert a !in Addrs(s0.batch);
      BetweenReads(s0, a, steps);
    }
    assert IsLive(s'.heap, q);
    OwnedOnce(s', q);
    if !InRead(s') && !InTransit(s', q) {
      assert a !in s'.transit && Addrs(s'.batch) == {};
      ScheduledAtExpiration(s', a);
    }
  }

  /** Until a `handleRead` begins, a timer that is in no batch and is not cancelled
      stays as it was. */
  lemma {:induction false} BetweenReads(s: State, a: Addr, steps: seq<Step>)
    requires Inv(s) && a in s.heap && a !in Addrs(s.batch) && Execution(s, steps)
    requires Begin !in steps && Cancel(Key(s, a)) !in steps
    ensures var s' := After(s, steps); a in s'.heap && s'.heap[a] == s.heap[a] && a !in Addrs(s'.batch)
    decreases |steps|
  {
    if steps != [] {
      assert steps[0] in steps;
      StepKeeps(s, steps[0]);
      UncancelledStep(s, a, steps[0]);
      BatchShrinks(s, steps[0]);
      assert steps[0].Reset? ==> s.batch[0] in s.batch;
      hide Inv, Next, Safe, Taken;
      BetweenReads(Next(s, steps[0]), a, steps[1..]);
    }
  }

  // ---------- The end of a read ----------

  /** The next timer of the batch is scheduled for its interval after the read if
      it repeats and was not cancelled by its callbacks, and deleted otherwise. */
  lemma ResetReschedules(s: State)
    requires Inv(s) && s.resetting && s.batch != []
    ensures Safe(s, Reset)
    ensures var a, s' := s.batch[0].timer, ResetNext(s);
            if s.heap[a].repeat && Key(s, a) !in s.canceling then
              && a in s'.heap && s'.heap[a] == Restarted(s.heap[a], s.now)
              && Entry(s.now + s.heap[a].delta, a) in s'.timers
            else
              a !in s'.heap && s.heap[a].sequence in s'.deleted
  {
    ResetHeap(s);
    var a, s' := s.batch[0].timer, ResetNext(s);
    assert a !in s.transit;
    hide ResetNext, Inv, Addrs, Key;
    ResetOutcomeOf(s, s', a);
  }

  lemma ResetOutcomeOf(s: State, s': State, a: Addr)
    requires Inv(s) && Inv(s') && s'.created == s.created && a in s.heap && a !in s'.transit && a !in Addrs(s'.batch)
    requires forall b | b in s'.heap && b != a :: b in s.heap && s'.heap[b] == s.heap[b]
    requires a in s'.heap ==> s.heap[a].repeat && s'.heap[a] == Restarted(s.heap[a], s.now)
    ensures a in s'.heap ==> Entry(s.now + s.heap[a].delta, a) in s'.timers
    ensures a !in s'.heap ==> s.heap[a].sequence in s'.deleted
  {
    hide Inv, Addrs;
    if a in s'.heap {
      ScheduledAtExpiration(s', a);
    } else {
      DeletedSince(s, s', a);
    }
  }

  lemma DeletedSince(s: State, s': State, a: Addr)
    requires Inv(s) && Inv(s') && a in s.heap && a !in s'.heap && s'.created == s.created
    requires forall b | b in s'.heap :: b in s.heap && s'.heap[b].sequence == s.heap[b].sequence
    ensures s.heap[a].sequence in s'.deleted
  {
    assert !IsLive(s'.heap, s.heap[a].sequence);
  }

  /** Until another read begins, steps leave the time of the read alone and take
      from the batch at most its head. */
  lemma BatchShrinks(s: State, step: Step)
    requires Inv(s) && Taken(s, step) && !step.Begin?
    ensures Safe(s, step)
    ensures var s' := Next(s, step); s'.now == s.now && Addrs(s'.batch) <= Addrs(s.batch)
  {
    match step
    case RunOne => RunOneKeeps(s);
    case Reset => ResetHeap(s); hide ResetNext;
    case _ => QuietStep(s, step);
  }

  /** A read goes on until the alarm is set. */
  lemma ReadGoesOn(s: State, step: Step)
    requires Inv(s) && InRead(s) && Taken(s, step) && !step.Finish?
    ensures Safe(s, step) && !step.Begin? && InRead(Next(s, step))
  {
    StepKeeps(s, step);
    if step.Reset? {
      ResetHeap(s);
      hide ResetNext;
    }
  }

  /** How a timer that nothing cancels meanwhile stands during the read, or the
      `reset`, that began at `s0`. */
  ghost predicate InReset(s0: State, s: State, a: Addr)
    requires a in s0.heap
  {
    && InRead(s) && s.now == s0.now && Addrs(s.batch) <= Addrs(s0.batch)
    && Uncancelled(s, a) && (a in s.transit ==> a in s0.transit)
    && s.heap[a] == if a in Addrs(s0.batch) && a !in Addrs(s.batch) then Restarted(s0.heap[a], s0.now) else s0.heap[a]
  }

  lemma {:induction false} InResetExecution(s0: State, s: State, a: Addr, steps: seq<Step>)
    requires Inv(s) && a in s0.heap && InReset(s0, s, a) && (a in Addrs(s0.batch) ==> s0.heap[a].repeat)
    requires Execution(s, steps) && Finish !in steps && Cancel(Key(s0, a)) !in steps
    ensures InReset(s0, After(s, steps), a)
    decreases |steps|
  {
    if steps != [] {
      assert steps[0] in steps;
      InResetStep(s0, s, a, steps[0]);
      StepKeeps(s, steps[0]);
      hide Inv, InReset, Next, Safe, Taken, Addrs;
      InResetExecution(s0, Next(s, steps[0]), a, steps[1..]);
    }
  }

  lemma InResetStep(s0: State, s: State, a: Addr, step: Step)
    requires Inv(s) && a in s0.heap && InReset(s0, s, a) && (a in Addrs(s0.batch) ==> s0.heap[a].repeat)
    requires Taken(s, step) && !step.Finish? && step != Cancel(Key(s0, a))
    ensures Safe(s, step) && InReset(s0, Next(s, step), a)
  {
    ReadGoesOn(s, step);
    BatchShrinks(s, step);
    UncancelledStep(s, a, step);
    BatchSteps(s, a, step);
    hide Inv, Next, Safe, Addrs, InRead;
  }

  /** A timer leaves the batch only by being reset. */
  lemma BatchSteps(s: State, a: Addr, step: Step)
    requires Inv(s) && InRead(s) && Taken(s, step) && !step.Finish?
    ensures Safe(s, step)
    ensures step.Reset? ==> s.batch[0].timer in Addrs(s.batch)
    ensures a in Addrs(s.batch) && !(step.Reset? && a == s.batch[0].timer) ==> a in Addrs(Next(s, step).batch)
    ensures a in s.heap && a in Next(s, step).transit ==> a in s.transit
  {
    match step
    case RunOne => RunOneKeeps(s);
    case Reset => ResetHeap(s); hide ResetNext;
    case _ => QuietStep(s, step);
  }

  /** What a whole `reset` makes of a timer.  In the batch it is deleted unless it
      repeats and was not cancelled by then; a timer that nothing cancels during
      the `reset` either is scheduled for its interval after the read, and one
      outside the batch is as it was. */
  ghost predicate Rescheduled(s: State, s': State, a: Addr, cancelled: bool)
    requires a in s.heap
  {
    if a in Addrs(s.batch) && (!s.heap[a].repeat || Key(s, a) in s.canceling) then
      s.heap[a].sequence in s'.deleted
    else !cancelled ==>
      && a in s'.heap
      && s'.heap[a] == (if a in Addrs(s.batch) then Restarted(s.heap[a], s.now) else s.heap[a])
      && (a in Addrs(s.batch) ==> Entry(s.now + s.heap[a].delta, a) in s'.timers)
  }

  lemma EndReschedules(s: State, a: Addr, steps: seq<Step>)
    requires Inv(s) && Taken(s, EndCalls) && a in s.heap
    requires Execution(s, [EndCalls] + steps) && Finish !in steps && Taken(After(s, [EndCalls] + steps), Finish)
    ensures var s1 := After(s, [EndCalls] + steps);
            Safe(s1, Finish) && Rescheduled(s, Next(s1, Finish), a, Cancel(Key(s, a)) in steps)
  {
    TakeStep(s, EndCalls, steps);
    var s0 := Next(s, EndCalls);
    var s1 := After(s0, steps);
    FinishFrame(s1);
    assert s0 == s.(calling := false, resetting := true) && s1.batch == [];
    hide Inv, Execution, After, Next, Safe, Taken, Rescheduled;
    ResetOutcome(s0, a, steps);
    RescheduledFrame(s0, s1, s, Next(s1, Finish), a, Cancel(Key(s, a)) in steps);
  }

  lemma RescheduledFrame(s: State, s': State, t: State, t': State, a: Addr, cancelled: bool)
    requires a in s.heap && Rescheduled(s, s', a, cancelled)
    requires t.heap == s.heap && t.batch == s.batch && t.canceling == s.canceling && t.now == s.now
    requires t'.heap == s'.heap && t'.timers == s'.timers && t'.deleted == s'.deleted
    ensures Rescheduled(t, t', a, cancelled)
  {
  }

  lemma ResetOutcome(s0: State, a: Addr, steps: seq<Step>)
    requires Inv(s0) && s0.resetting && a in s0.heap
    requires Execution(s0, steps) && Finish !in steps && After(s0, steps).batch == []
    ensures Rescheduled(s0, After(s0, steps), a, Cancel(Key(s0, a)) in steps)
  {
    hide Inv, Execution, After, Addrs, Key;
    if a in Addrs(s0.batch) && (!s0.heap[a].repeat || Key(s0, a) in s0.canceling) {
      ResetDeletes(s0, a, steps);
    } else if Cancel(Key(s0, a)) !in steps {
      ResetRestarts(s0, a, steps);
    }
  }

  lemma FinishEmpty(s: State)
    requires Taken(s, Finish)
    ensures s.batch == []
  {
  }

  lemma FinishFrame(s: State)
    requires Inv(s) && Taken(s, Finish)
    ensures Safe(s, Finish)
    ensures var s' := Next(s, Finish);
            s'.heap == s.heap && s'.timers == s.timers && s'.deleted == s.deleted && s'.runs == s.runs
  {
    FinishKeeps(s);
  }

  lemma ResetDeletes(s0: State, a: Addr, steps: seq<Step>)
    requires Inv(s0) && s0.resetting && a in s0.heap && a in Addrs(s0.batch)
    requires !s0.heap[a].repeat || Key(s0, a) in s0.canceling
    requires Execution(s0, steps) && After(s0, steps).batch == []
    ensures s0.heap[a].sequence in After(s0, steps).deleted
  {
    var q := s0.heap[a].sequence;
    assert Doomed(s0, q);
    DoomedExecution(s0, q, steps);
    assert Addrs(After(s0, steps).batch) == {};
    DoomedDeleted(After(s0, steps), q);
  }

  lemma ResetRestarts(s0: State, a: Addr, steps: seq<Step>)
    requires Inv(s0) && s0.resetting && a in s0.heap
    requires a in Addrs(s0.batch) ==> s0.heap[a].repeat && Key(s0, a) !in s0.canceling
    requires Execution(s0, steps) && Finish !in steps && Cancel(Key(s0, a)) !in steps && After(s0, steps).batch == []
    ensures var s1 := After(s0, steps);
            && a in s1.heap
            && s1.heap[a] == (if a in Addrs(s0.batch) then Restarted(s0.heap[a], s0.now) else s0.heap[a])
            && (a in Addrs(s0.batch) ==> Entry(s0.now + s0.heap[a].delta, a) in s1.timers)
  {
    InResetBegins(s0, a);
    hide Inv, Execution, After, Addrs, InReset, Key;
    InResetExecution(s0, s0, a, steps);
    InResetEnds(s0, After(s0, steps), a);
  }

  lemma InResetBegins(s0: State, a: Addr)
    requires Inv(s0) && InRead(s0) && a in s0.heap
    requires a in Addrs(s0.batch) ==> Key(s0, a) !in s0.canceling
    ensures InReset(s0, s0, a)
  {
  }

  lemma InResetEnds(s0: State, s1: State, a: Addr)
    requires Inv(s0) && Inv(s1) && a in s0.heap && InReset(s0, s1, a) && s1.batch == []
    requires a in Addrs(s0.batch) ==> s0.heap[a].repeat
    ensures a in s1.heap
    ensures s1.heap[a] == if a in Addrs(s0.batch) then Restarted(s0.heap[a], s0.now) else s0.heap[a]
    ensures a in Addrs(s0.batch) ==> Entry(s0.now + s0.heap[a].delta, a) in s1.timers
    ensures a !in s0.transit ==> Entry(s1.heap[a].expiration, a) in s1.timers
  {
    assert a in Addrs(s0.batch) ==> a !in s0.transit;
    assert Addrs(s1.batch) == {};
    hide Inv, Addrs;
    if a !in s0.transit {
      ScheduledAtExpiration(s1, a);
    }
  }

  lemma DoomedDeleted(s: State, q: int)
    requires Inv(s) && Doomed(s, q) && Addrs(s.batch) == {} && q >= 1
    ensures q in s.deleted
  {
    assert !IsLive(s.heap, q);
  }

  // ---------- Whole reads ----------

  /** How often the timer at `a` has run, given `n` times before a read and whether
      the read took it up. */
  ghost predicate CountInRead(s: State, a: Addr, n: nat, taken: bool) {
    && a in s.heap
    && var runs := multiset(s.runs)[s.heap[a].sequence];
       && (a in Addrs(s.batch) ==> taken)
       && (a !in Addrs(s.batch) ==> runs == if taken then n + 1 else n)
       && (forall i | 0 <= i < |s.batch| && s.batch[i].timer == a :: runs == if i < s.next then n + 1 else n)
  }

  lemma CountStep(s: State, a: Addr, n: nat, taken: bool, step: Step)
    requires Inv(s) && CountInRead(s, a, n, taken) && InRead(s) && Taken(s, step) && !step.Finish?
    requires Safe(s, step) && a in Next(s, step).heap && Next(s, step).heap[a].sequence == s.heap[a].sequence
    ensures CountInRead(Next(s, step), a, n, taken)
  {
    hide CountInRead, Inv, Undisturbed;
    var s' := Next(s, step);
    match step
    case RunOne => CountRun(s, a, n, taken);
    case Reset => CountReset(s, a, n, taken);
    case _ =>
      ReadGoesOn(s, step);
      QuietStep(s, step);
      hide Next, Safe, Taken;
      CountQuiet(s, s', a, n, taken);
  }

  lemma CountQuiet(s: State, s': State, a: Addr, n: nat, taken: bool)
    requires CountInRead(s, a, n, taken) && Undisturbed(s, s')
    requires a in s'.heap && s'.heap[a].sequence == s.heap[a].sequence
    ensures CountInRead(s', a, n, taken)
  {
  }

  lemma CountRun(s: State, a: Addr, n: nat, taken: bool)
    requires Inv(s) && CountInRead(s, a, n, taken) && s.calling && s.next < |s.batch|
    ensures Safe(s, RunOne) && CountInRead(RunNext(s), a, n, taken)
  {
    BatchLive(s);
    var s' := RunNext(s);
    assert s.batch[s.next] in s.batch;
    forall i | 0 <= i < |s.batch| && s.batch[i].timer == a
      ensures multiset(s'.runs)[s.heap[a].sequence] == if i < s'.next then n + 1 else n
    {
      if i != s.next { assert s.batch[i].timer != s.batch[s.next].timer; }
    }
  }

  lemma CountReset(s: State, a: Addr, n: nat, taken: bool)
    requires Inv(s) && CountInRead(s, a, n, taken) && s.resetting && s.batch != []
    requires Safe(s, Reset) && a in ResetNext(s).heap && ResetNext(s).heap[a].sequence == s.heap[a].sequence
    ensures CountInRead(ResetNext(s), a, n, taken)
  {
    ResetHeap(s);
    assert s.next == |s.batch| && s.batch[0] in s.batch;
    var s' := ResetNext(s);
    hide ResetNext, Inv;
    forall i | 0 <= i < |s'.batch| && s'.batch[i].timer == a
      ensures multiset(s'.runs)[s.heap[a].sequence] == if i < s'.next then n + 1 else n
    {
      assert s.batch[i + 1].timer == a;
    }
  }

  lemma {:induction false} CountExecution(s0: State, s: State, a: Addr, n: nat, taken: bool, steps: seq<Step>)
    requires Inv(s) && a in s0.heap && InReset(s0, s, a) && (a in Addrs(s0.batch) ==> s0.heap[a].repeat)
    requires Execution(s, steps) && Finish !in steps && Cancel(Key(s0, a)) !in steps
    requires CountInRead(s, a, n, taken)
    ensures CountInRead(After(s, steps), a, n, taken)
    decreases |steps|
  {
    if steps != [] {
      assert steps[0] in steps;
      InResetStep(s0, s, a, steps[0]);
      SameKey(s0, s, a);
      SameKey(s0, Next(s, steps[0]), a);
      StepKeeps(s, steps[0]);
      CountStep(s, a, n, taken, steps[0]);
      hide Inv, InReset, Next, Safe, Taken, Addrs, CountInRead;
      CountExecution(s0, Next(s, steps[0]), a, n, taken, steps[1..]);
    }
  }

  lemma CountEnds(s: State, a: Addr, n: nat, taken: bool)
    requires CountInRead(s, a, n, taken) && s.batch == []
    ensures multiset(s.runs)[s.heap[a].sequence] == if taken then n + 1 else n
  {
  }

  lemma SameKey(s0: State, s: State, a: Addr)
    requires a in s0.heap && InReset(s0, s, a)
    ensures InRead(s) && a in s.heap && s.heap[a].sequence == s0.heap[a].sequence
  {
  }

  /** A read takes up a timer that has reached the loop exactly if it is due. */
  lemma TakenUpIfDue(s: State, a: Addr)
    requires Inv(s) && !InRead(s) && a in s.heap && a !in s.transit
    ensures Safe(s, Begin) && Inv(BeginRead(s))
    ensures a in Addrs(BeginRead(s).batch) <==> s.heap[a].expiration <= s.clock
  {
    BeginKeeps(s);
    assert Addrs(s.batch) == {};
    ScheduledAtExpiration(s, a);
    IndexedDistinct(s.timers, s.active, s.heap);
    assert BeginRead(s).batch == s.timers[..DueCount(s.timers, s.clock)];
    hide Inv, Indexed, BeginRead, DueCount, Distinct;
    var i :| 0 <= i < |s.timers| && s.timers[i] == Entry(s.heap[a].expiration, a);
    DueIndex(s, i);
    InPrefix(s.timers, DueCount(s.timers, s.clock), i);
  }

  lemma DueIndex(s: State, i: nat)
    requires Inv(s) && i < |s.timers|
    ensures i < DueCount(s.timers, s.clock) <==> s.timers[i].when <= s.clock
  {
    DueSplits(s.timers, s.clock);
  }

  lemma InPrefix(entries: seq<Entry>, n: nat, i: nat)
    requires Distinct(entries) && n <= |entries| && i < |entries|
    ensures entries[i].timer in Addrs(entries[..n]) <==> i < n
  {
    if i < n { assert entries[..n][i] in entries[..n]; }
    if e :| e in entries[..n] && e.timer == entries[i].timer {
      var j :| 0 <= j < n && entries[j] == e;
      assert i == j;
    }
  }

  lemma BeginsRead(s: State, a: Addr)
    requires Inv(s) && !InRead(s) && a in s.heap && a !in s.transit
    ensures Safe(s, Begin)
    ensures var s0 := BeginRead(s);
            && Inv(s0) && a in s0.heap && s0.heap[a] == s.heap[a] && s0.now == s.clock && InReset(s0, s0, a)
            && CountInRead(s0, a, multiset(s.runs)[s.heap[a].sequence], s.heap[a].expiration <= s.clock)
  {
    TakenUpIfDue(s, a);
    hide Inv;
  }

  /** A timer found due has run once and is scheduled for its interval after the
      time the read began; one not due has not run and is scheduled as before. */
  ghost predicate RanAndRestarted(s: State, s': State, a: Addr)
    requires a in s.heap
  {
    var due, q := s.heap[a].expiration <= s.clock, s.heap[a].sequence;
    && a in s'.heap
    && s'.heap[a] == (if due then s.heap[a].(expiration := s.clock + s.heap[a].delta) else s.heap[a])
    && Entry(s'.heap[a].expiration, a) in s'.timers
    && multiset(s'.runs)[q] == multiset(s.runs)[q] + (if due then 1 else 0)
  }

  /** So does a whole `handleRead` leave a repeating timer that has reached the
      loop and that nothing cancels. */
  lemma {:induction false} ReadRestarts(s: State, a: Addr, steps: seq<Step>)
    requires Inv(s) && !InRead(s) && a in s.heap && s.heap[a].repeat && a !in s.transit
    requires Execution(s, [Begin] + steps) && Finish !in steps && Cancel(Key(s, a)) !in steps
    requires Taken(After(s, [Begin] + steps), Finish)
    ensures var s1 := After(s, [Begin] + steps); Safe(s1, Finish) && RanAndRestarted(s, Next(s1, Finish), a)
  {
    TakeStep(s, Begin, steps);
    TakenUpIfDue(s, a);
    BeginsRead(s, a);
    var s0 := BeginRead(s);
    var s1 := After(s0, steps);
    hide Execution, After, BeginRead, InReset, CountInRead, RanAndRestarted, Taken, Next, Safe, Inv, Addrs;
    FinishEmpty(s1);
    CountExecution(s0, s0, a, multiset(s.runs)[s.heap[a].sequence], s.heap[a].expiration <= s.clock, steps);
    InResetExecution(s0, s0, a, steps);
    FinishFrame(s1);
    ReadDone(s, s0, s1, Next(s1, Finish), a);
  }

  lemma ReadDone(s: State, s0: State, s1: State, s': State, a: Addr)
    requires Inv(s0) && Inv(s1) && a in s.heap && s.heap[a].repeat && a in s0.heap && s0.heap[a] == s.heap[a]
    requires a !in s0.transit && s0.now == s.clock
    requires a in Addrs(s0.batch) <==> s.heap[a].expiration <= s.clock
    requires InReset(s0, s1, a) && s1.batch == []
    requires CountInRead(s1, a, multiset(s.runs)[s.heap[a].sequence], s.heap[a].expiration <= s.clock)
    requires s'.heap == s1.heap && s'.timers == s1.timers && s'.runs == s1.runs
    ensures RanAndRestarted(s, s', a)
  {
    InResetEnds(s0, s1, a);
    CountEnds(s1, a, multiset(s.runs)[s.heap[a].sequence], s.heap[a].expiration <= s.clock);
    hide Inv, InReset, CountInRead, Addrs;
  }

  // ---------- Cancellation ----------

  /** Timer `q` is on its way out: it is not live, or it is in the batch under way
      and to be deleted, as it does not repeat or is among those cancelled meanwhile. */
  ghost predicate Doomed(s: State, q: int) {
    && q <= s.created
    && forall a | a in s.heap && s.heap[a].sequence == q ::
         a in Addrs(s.batch) && (!s.heap[a].repeat || Key(s, a) in s.canceling)
  }

  /** Timer `q` is in the part of the batch that has not run. */
  ghost predicate StillToRun(s: State, q: int) {
    exists i :: s.next <= i < |s.batch| && s.batch[i].timer in s.heap && s.heap[s.batch[i].timer].sequence == q
  }

  ghost function RunsAhead(s: State, q: int): nat {
    multiset(s.runs)[q] + (if StillToRun(s, q) then 1 else 0)
  }

  lemma ScheduledIsActive(s: State, a: Addr)
    requires Inv(s) && a in s.heap
    ensures a in Addrs(s.timers) <==> Key(s, a) in s.active
  {
    assert a in Addrs(s.timers) ==> exists e :: e in s.timers && e.timer == a;
  }

  /** A cancellation finds the timer scheduled, or in the batch whose callbacks are
      being run, or there is nothing left for it to do. */
  ghost predicate Heeded(s: State, id: ActiveTimer)
    requires id.timer in s.heap
  {
    || id.timer in Addrs(s.timers)
    || (id.timer in Addrs(s.batch) && (s.calling || !s.heap[id.timer].repeat || id in s.canceling))
  }

  /** Such a cancellation dooms the timer, even if it comes from the timer's own callback. */
  lemma CancelDooms(s: State, id: ActiveTimer)
    requires Inv(s)
    requires id.timer in s.heap && s.heap[id.timer].sequence == id.sequence && Heeded(s, id)
    ensures Safe(s, Cancel(id)) && Doomed(CancelInLoop(s, id), id.sequence)
    ensures RunsAhead(CancelInLoop(s, id), id.sequence) == RunsAhead(s, id.sequence)
  {
    CancelKeeps(s, id);
    BatchLive(s);
    var s', q := CancelInLoop(s, id), id.sequence;
    if id in s.active {
      EraseIndexed(s, id);
    } else {
      ScheduledIsActive(s, id.timer);
      assert id.timer in Addrs(s.batch);
    }
    if StillToRun(s, q) {
      var i :| s.next <= i < |s.batch| && s.batch[i].timer in s.heap && s.heap[s.batch[i].timer].sequence == q;
      assert s.batch[i].timer == id.timer && id.timer in Addrs(s.batch);
      assert s'.heap[s'.batch[i].timer].sequence == q;
    }
  }

  lemma DoomedRun(s: State, q: int)
    requires Inv(s) && Doomed(s, q) && s.calling && s.next < |s.batch|
    ensures Safe(s, RunOne) && Doomed(RunNext(s), q) && RunsAhead(RunNext(s), q) <= RunsAhead(s, q)
  {
    BatchLive(s);
    var s', a := RunNext(s), s.batch[s.next].timer;
    if StillToRun(s', q) {
      var i :| s'.next <= i < |s.batch| && s.batch[i].timer in s.heap && s.heap[s.batch[i].timer].sequence == q;
      assert s.batch[i].timer != a;
      assert StillToRun(s, q);
    }
    if s.heap[a].sequence == q { assert StillToRun(s, q); }
  }

  lemma DoomedReset(s: State, q: int)
    requires Inv(s) && Doomed(s, q) && s.resetting && s.batch != []
    ensures Safe(s, Reset) && Doomed(ResetNext(s), q) && RunsAhead(ResetNext(s), q) <= RunsAhead(s, q)
  {
    ResetHeap(s);
    hide Inv, ResetNext, Addrs;
  }

  lemma DoomedBegin(s: State, q: int)
    requires Inv(s) && Doomed(s, q) && !InRead(s)
    ensures Safe(s, Begin) && Doomed(BeginRead(s), q) && RunsAhead(BeginRead(s), q) <= RunsAhead(s, q)
  {
    BeginKeeps(s);
  }

  lemma DoomedQuiet(s: State, s': State, q: int)
    requires Doomed(s, q) && Undisturbed(s, s')
    ensures Doomed(s', q) && RunsAhead(s', q) <= RunsAhead(s, q)
  {
    if StillToRun(s', q) { assert StillToRun(s, q); }
  }

  lemma DoomedStep(s: State, q: int, step: Step)
    requires Inv(s) && Doomed(s, q) && Taken(s, step)
    ensures Safe(s, step) && Doomed(Next(s, step), q) && RunsAhead(Next(s, step), q) <= RunsAhead(s, q)
  {
    hide Inv, Doomed, RunsAhead, Undisturbed;
    match step
    case Begin => DoomedBegin(s, q);
    case RunOne => DoomedRun(s, q);
    case Reset => DoomedReset(s, q);
    case _ =>
      QuietStep(s, step);
      hide Next, Safe, Taken;
      DoomedQuiet(s, Next(s, step), q);
  }

  lemma {:induction false} DoomedExecution(s: State, q: int, steps: seq<Step>)
    requires Inv(s) && Doomed(s, q) && Execution(s, steps)
    ensures Doomed(After(s, steps), q) && RunsAhead(After(s, steps), q) <= RunsAhead(s, q)
    decreases |steps|
  {
    if steps != [] {
      StepKeeps(s, steps[0]);
      DoomedStep(s, q, steps[0]);
      hide Inv, Doomed, Next, Safe, Taken, RunsAhead;
      DoomedExecution(Next(s, steps[0]), q, steps[1..]);
    }
  }

  /** Cancellation is final.  A timer cancelled when that is heeded runs at most
      once more, and not at all unless it was in the batch under way with its
      turn still to come; it is never scheduled again, and outside `handleRead`
      it is no longer live. */
  lemma {:induction false} CancelIsFinal(s: State, id: ActiveTimer, steps: seq<Step>)
    requires Inv(s)
    requires id.timer in s.heap && s.heap[id.timer].sequence == id.sequence && Heeded(s, id)
    requires Execution(s, [Cancel(id)] + steps)
    ensures var s', q := After(s, [Cancel(id)] + steps), id.sequence;
            && multiset(s'.runs)[q] <= multiset(s.runs)[q] + (if StillToRun(s, q) then 1 else 0)
            && !Scheduled(s', q)
            && (!InRead(s') ==> !IsLive(s'.heap, q))
  {
    assert ([Cancel(id)] + steps)[1..] == steps;
    CancelKeeps(s, id);
    CancelDooms(s, id);
    DoomedExecution(CancelInLoop(s, id), id.sequence, steps);
    DoomedUnscheduled(After(s, [Cancel(id)] + steps), id.sequence);
  }

  /** In no run from here is timer `q` scheduled. */
  ghost predicate NeverScheduled(s: State, q: int)
    requires Inv(s)
  {
    forall steps | Execution(s, steps) :: !Scheduled(After(s, steps), q)
  }

  /** A cancellation has its effect exactly when it is heeded: one that comes
      before the timer has reached the loop, or while `reset` has yet to come to
      the timer, leaves it to be scheduled. */
  lemma {:induction false} CancelHeededExactly(s: State, id: ActiveTimer)
    requires Inv(s) && id.timer in s.heap && s.heap[id.timer].sequence == id.sequence
    ensures Safe(s, Cancel(id)) && Inv(CancelInLoop(s, id))
    ensures NeverScheduled(CancelInLoop(s, id), id.sequence) <==> Heeded(s, id)
  {
    CancelKeeps(s, id);
    var s', q := CancelInLoop(s, id), id.sequence;
    if Heeded(s, id) {
      CancelDooms(s, id);
      forall steps | Execution(s', steps) ensures !Scheduled(After(s', steps), q) {
        DoomedExecution(s', q, steps);
        DoomedUnscheduled(After(s', steps), q);
      }
    } else if id.timer in s.transit {
      CancelBeforeAddIsLost(s, id.timer);
      AddSchedules(s', id.timer);
    } else {
      ScheduledIsActive(s, id.timer);
      assert s' == s && s.resetting;
      var steps := ResetsUntil(s, id.timer);
    }
  }

  lemma AddSchedules(s: State, a: Addr)
    requires Inv(s) && a in s.transit
    ensures a in s.heap && !NeverScheduled(s, s.heap[a].sequence)
  {
    AddKeeps(s, a);
    var s' := Next(s, Add(a));
    assert a in Addrs(s'.timers);
    OneStep(s, Add(a));
    assert Scheduled(After(s, [Add(a)]), s.heap[a].sequence);
  }

  lemma OneStep(s: State, step: Step)
    requires Inv(s) && Taken(s, step)
    ensures Safe(s, step) && Inv(Next(s, step))
    ensures Execution(s, [step]) && After(s, [step]) == Next(s, step)
  {
    Prepend(s, step, []);
  }

  lemma Prepend(s: State, step: Step, rest: seq<Step>)
    requires Inv(s) && Taken(s, step)
    ensures Safe(s, step) && Inv(Next(s, step))
    ensures Execution(s, [step] + rest) <==> Execution(Next(s, step), rest)
    ensures Execution(s, [step] + rest) ==> After(s, [step] + rest) == After(Next(s, step), rest)
  {
    StepKeeps(s, step);
    assert ([step] + rest)[1..] == rest;
  }

  /** `reset`, left to itself, gets to a timer of the batch that repeats and is
      not among those cancelled, and schedules it. */
  lemma ResetsUntil(s: State, a: Addr) returns (steps: seq<Step>)
    requires Inv(s) && s.resetting && a in Addrs(s.batch)
    requires a in s.heap && s.heap[a].repeat && Key(s, a) !in s.canceling
    ensures Execution(s, steps) && Scheduled(After(s, steps), s.heap[a].sequence)
    decreases |s.batch|
  {
    ResetHeap(s);
    var s' := ResetNext(s);
    if s.batch[0].timer == a {
      OneStep(s, Reset);
      steps := [Reset];
      assert exists e :: e in s'.timers && e.timer == a;
    } else {
      hide Inv, ResetNext, Addrs;
      var rest := ResetsUntil(s', a);
      Prepend(s, Reset, rest);
      steps := [Reset] + rest;
    }
  }

  lemma DoomedUnscheduled(s: State, q: int)
    requires Inv(s) && Doomed(s, q)
    ensures !Scheduled(s, q)
  {
    forall e | e in s.timers ensures e.timer in Addrs(s.timers) {
    }
  }

  // ---------- Deleted timers ----------

  lemma DeadStep(s: State, q: int, step: Step)
    requires Inv(s) && q <= s.created && !IsLive(s.heap, q) && Taken(s, step)
    ensures Safe(s, step)
    ensures var s' := Next(s, step);
            && q <= s'.created && !IsLive(s'.heap, q) && multiset(s'.runs)[q] == multiset(s.runs)[q]
  {
    match step
    case Begin => BeginKeeps(s);
    case RunOne => BatchLive(s);
    case Reset => ResetHeap(s); hide ResetNext;
    case _ => QuietStep(s, step);
  }

  /** A timer once deleted stays deleted and never runs again, though its address
      be used for other timers and its id be cancelled any number of times. */
  lemma {:induction false} DeadNeverRuns(s: State, q: int, steps: seq<Step>)
    requires Inv(s) && q <= s.created && !IsLive(s.heap, q) && Execution(s, steps)
    ensures !IsLive(After(s, steps).heap, q)
    ensures multiset(After(s, steps).runs)[q] == multiset(s.runs)[q]
    decreases |steps|
  {
    if steps != [] {
      StepKeeps(s, steps[0]);
      DeadStep(s, q, steps[0]);
      hide Inv, Next, Safe, Taken, IsLive;
      DeadNeverRuns(Next(s, steps[0]), q, steps[1..]);
    }
  }

  /** A cancellation touches no timer but the one with both its address and its
      sequence number; the same address, in use again since, is not enough. */
  lemma CancelTouchesOnlyItsTimer(s: State, id: ActiveTimer)
    requires Inv(s)
    ensures Safe(s, Cancel(id))
    ensures var s' := CancelInLoop(s, id);
            forall a | a in s.heap && Key(s, a) != id ::
              && a in s'.heap && s'.heap[a] == s.heap[a]
              && (a in Addrs(s'.timers) <==> a in Addrs(s.timers))
              && (Key(s, a) in s'.canceling <==> Key(s, a) in s.canceling)
  {
    if id in s.active { EraseIndexed(s, id); }
  }

  /** Cancelling a timer that has not reached the loop has no effect on it: it
      will be scheduled all the same. */
  lemma CancelBeforeAddIsLost(s: State, a: Addr)
    requires Inv(s) && a in s.transit
    ensures a in s.heap && Safe(s, Cancel(Key(s, a)))
    ensures var s' := CancelInLoop(s, Key(s, a));
            && a in s'.transit && a in s'.heap && s'.heap == s.heap
            && a in Addrs(AddTimerInLoop(s', a).timers)
  {
    CancelKeeps(s, Key(s, a));
    if Key(s, a) in s.active { EraseIndexed(s, Key(s, a)); }
    InsertIndexed(CancelInLoop(s, Key(s, a)), a);
  }

  /** A run in which a cancellation is lost.  Two timers are due, one of them
      repeating; both callbacks are run, and `reset` deletes the first timer.  If
      the destructor of its callback cancels the repeating one, still in the
      batch, nothing happens, and `reset` schedules that one again. */
  lemma {:induction false} CancelDuringResetIsLost()
    ensures Execution(Initial(10), TwoTimers())
    ensures var s, id := After(Initial(10), TwoTimers()), ActiveTimer(1, 2);
            && s.runs == [1, 2] && s.deleted == [1]
            && 1 in s.heap && Key(s, 1) == id && !InTransit(s, 2) && !Heeded(s, id)
            && Execution(s, [Cancel(id), Reset])
            && Entry(17, 1) in After(s, [Cancel(id), Reset]).timers
  {
    TwoTimersRun();
    hide Inv, Execution, After, TwoTimers, Key, InTransit, Heeded, TwoTimersReset;
    CancelLostAt();
  }

  lemma CancelLostAt()
    requires Inv(TwoTimersReset())
    ensures var s, id := TwoTimersReset(), ActiveTimer(1, 2);
            && s.runs == [1, 2] && s.deleted == [1]
            && 1 in s.heap && Key(s, 1) == id && !InTransit(s, 2) && !Heeded(s, id)
            && Execution(s, [Cancel(id), Reset])
            && Entry(17, 1) in After(s, [Cancel(id), Reset]).timers
  {
    var s, id := TwoTimersReset(), ActiveTimer(1, 2);
    assert CancelInLoop(s, id) == s;
    ResetReschedules(s);
    hide Inv, Execution, After;
    OneStep(s, Reset);
    Prepend(s, Cancel(id), [Reset]);
    assert [Cancel(id)] + [Reset] == [Cancel(id), Reset];
  }

  function TwoTimers(): seq<Step> {
    [Construct(0, 5, 0, false), Add(0), Construct(1, 5, 7, true), Add(1),
     Begin, RunOne, RunOne, EndCalls, Reset]
  }

  function TwoTimersReset(): State {
    State([], {}, false, {}, map[1 := Timer(5, 7, true, 2)], 2, {}, true, [Entry(5, 1)], 1, 10,
          10, Armed(110, 10), [1, 2], [1])
  }

  /** The states the run goes through. */
  function TwoTimersAt(n: nat): State {
    var t0, t1 := Timer(5, 0, false, 1), Timer(5, 7, true, 2);
    var made := Initial(10).(heap := map[0 := t0], created := 1, transit := {0});
    var first := made.(timers := [Entry(5, 0)], active := {ActiveTimer(0, 1)}, transit := {}, alarm := Armed(110, 10));
    var second := first.(heap := map[0 := t0, 1 := t1], created := 2, transit := {1});
    var both := second.(timers := [Entry(5, 0), Entry(5, 1)], active := {ActiveTimer(0, 1), ActiveTimer(1, 2)}, transit := {});
    var read := both.(timers := [], active := {}, calling := true, batch := [Entry(5, 0), Entry(5, 1)], now := 10);
    match n
    case 0 => Initial(10)
    case 1 => made
    case 2 => first
    case 3 => second
    case 4 => both
    case 5 => read
    case 6 => read.(next := 1, runs := [1])
    case 7 => read.(next := 2, runs := [1, 2])
    case 8 => read.(next := 2, runs := [1, 2], calling := false, resetting := true)
    case _ => TwoTimersReset()
  }

  lemma TwoTimersRun()
    ensures Execution(Initial(10), TwoTimers())
    ensures After(Initial(10), TwoTimers()) == TwoTimersReset()
  {
    var states := seq(10, n requires 0 <= n < 10 => TwoTimersAt(n));
    assert |TwoTimers()| == 9 && states[0] == Initial(10) && states[9] == TwoTimersReset();
    hide TwoTimers, TwoTimersAt, TwoTimersReset, Taken, Safe, Next, Inv, Execution, After;
    forall n | 0 <= n < 9 ensures Leads(states[n], TwoTimers()[n], states[n + 1]) {
      TwoTimersStep(n);
    }
    RunThrough(states, TwoTimers());
  }

  ghost predicate Leads(s: State, step: Step, s': State) {
    Taken(s, step) && Safe(s, step) && Next(s, step) == s'
  }

  /** A run given by the states it goes through. */
  lemma {:induction false} RunThrough(states: seq<State>, steps: seq<Step>)
    requires |states| == |steps| + 1 && Inv(states[0])
    requires forall n | 0 <= n < |steps| :: Leads(states[n], steps[n], states[n + 1])
    ensures Execution(states[0], steps) && After(states[0], steps) == states[|steps|]
    decreases |steps|
  {
    if steps != [] {
      assert Leads(states[0], steps[0], states[1]);
      StepKeeps(states[0], steps[0]);
      hide Inv, Taken, Safe, Next;
      RunThrough(states[1..], steps[1..]);
    }
  }

  lemma TwoTimersStep(n: nat)
    requires n < 9
    ensures |TwoTimers()| == 9 && Leads(TwoTimersAt(n), TwoTimers()[n], TwoTimersAt(n + 1))
  {
    assert |TwoTimers()| == 9;
    hide TwoTimers, TwoTimersAt, Leads;
    match n
    case 0 => TwoTimersMade(0);
    case 1 => TwoTimersAdd(1);
    case 2 => TwoTimersMade(2);
    case 3 => TwoTimersAdd(3);
    case 4 => TwoTimersBegin();
    case _ => TwoTimersRead(n);
  }

  lemma TwoTimersMade(n: nat)
    requires n == 0 || n == 2
    ensures Leads(TwoTimersAt(n), TwoTimers()[n], TwoTimersAt(n + 1))
  {
  }

  lemma TwoTimersRead(n: nat)
    requires 5 <= n < 9
    ensures Leads(TwoTimersAt(n), TwoTimers()[n], TwoTimersAt(n + 1))
  {
  }

  lemma TwoTimersAdd(n: nat)
    requires n == 1 || n == 3
    ensures Leads(TwoTimersAt(n), TwoTimers()[n], TwoTimersAt(n + 1))
  {
    var s := TwoTimersAt(n);
    ResetTimerfdDeadline(Insert(s, n / 2).(transit := s.transit - {n / 2}), 5);
    hide ResetTimerfd;
    assert LowerBound([Entry(5, 0)], Entry(5, 1)) == 1;
  }

  lemma TwoTimersBegin()
    ensures Leads(TwoTimersAt(4), TwoTimers()[4], TwoTimersAt(5))
  {
    BeginBoth(TwoTimersAt(4));
    hide BeginRead, Inv;
  }

  lemma BeginBoth(s: State)
    requires s.timers == [Entry(5, 0), Entry(5, 1)] && s.clock == 10 && s.alarm.Armed?
    requires 0 in s.heap && s.heap[0].sequence == 1 && 1 in s.heap && s.heap[1].sequence == 2
    requires s.active == {ActiveTimer(0, 1), ActiveTimer(1, 2)}
    ensures forall e | e in s.timers :: e.timer in s.heap
    ensures BeginRead(s) == s.(timers := [], active := {}, calling := true, canceling := {},
                               batch := s.timers, next := 0, now := 10)
  {
    assert DueCount(s.timers, 10) == 2;
    assert s.timers[..2] == s.timers && s.timers[2..] == [];
    assert Keys(s.heap, s.timers) == s.active;
    hide Keys, DueCount;
  }

  // ---------- The alarm ----------

  /** What each step makes of the alarm.  It is set for the earliest timer, or 100
      microseconds from now if that is later, when an add brings a new earliest
      timer and at the end of a read that leaves one with a valid time; reading
      the timerfd clears it if it had gone off; nothing else touches it. */
  lemma {:induction false} AlarmExactly(s: State, step: Step)
    requires Inv(s) && Taken(s, step)
    ensures Safe(s, step) && (step.Add? ==> step.a in s.heap)
    ensures Next(s, step).alarm ==
            match step
            case Add(a) =>
              var when := s.heap[a].expiration;
              if s.timers == [] || when < s.timers[0].when then Armed(Max(when, s.clock + 100), s.clock) else s.alarm
            case Begin => if s.alarm == Fired then Disarmed else s.alarm
            case Finish =>
              if s.timers != [] && s.timers[0].when > 0 then Armed(Max(s.timers[0].when, s.clock + 100), s.clock)
              else s.alarm
            case Fire => Fired
            case _ => s.alarm
  {
    match step
    case Add(a) =>
      AddArms(s, a);
      hide Inv, AddTimerInLoop;
    case Finish =>
      FinishArms(s);
      hide Inv, Rearm;
    case _ =>
      StepKeeps(s, step);
      hide Inv;
  }

  lemma AddArms(s: State, a: Addr)
    requires Inv(s) && a in s.transit
    ensures a in s.heap
    ensures var when := s.heap[a].expiration;
            AddTimerInLoop(s, a).alarm == if s.timers == [] || when < s.timers[0].when
                                          then Armed(Max(when, s.clock + 100), s.clock) else s.alarm
  {
    AddKeeps(s, a);
    ResetTimerfdDeadline(Insert(s, a).(transit := s.transit - {a}), s.heap[a].expiration);
    hide ResetTimerfd, Inv;
  }

  lemma FinishArms(s: State)
    requires Inv(s) && Taken(s, Finish)
    ensures Safe(s, Finish)
    ensures Rearm(s).alarm == if s.timers != [] && s.timers[0].when > 0
                              then Armed(Max(s.timers[0].when, s.clock + 100), s.clock) else s.alarm
  {
    FinishKeeps(s);
    if s.timers != [] {
      assert s.timers[0] in s.timers;
      ResetTimerfdDeadline(s, s.timers[0].when);
    }
    hide ResetTimerfd;
  }

  /** The alarm will wake the loop for the earliest timer in time: it has gone
      off, or will no later than that timer is due or 100 microseconds after it
      was set. */
  predicate Alarmed(s: State) {
    || s.alarm.Fired?
    || (s.timers != [] && s.alarm.Armed? && s.alarm.deadline <= Max(s.timers[0].when, s.alarm.setAt + 100))
  }

  /** During `handleRead` it is enough that the earliest timer has a valid time:
      the end of `reset` will set the alarm for it. */
  ghost predicate AlarmInv(s: State) {
    && s.clock > 0
    && (InRead(s) ==> s.now > 0)
    && (s.alarm.Armed? ==> s.alarm.setAt <= s.clock)
    && (s.timers != [] ==> Alarmed(s) || (InRead(s) && s.timers[0].when > INVALID))
  }

  lemma AddAlarmed(s: State, a: Addr)
    requires Inv(s) && AlarmInv(s) && a in s.transit
    ensures Safe(s, Add(a)) && AlarmInv(AddTimerInLoop(s, a))
  {
    var e := Entry(s.heap[a].expiration, a);
    assert e in s.timers ==> a in Addrs(s.timers);
    InsertSorted(s.timers, e);
    ResetTimerfdDeadline(Insert(s, a).(transit := s.transit - {a}), e.when);
    hide ResetTimerfd;
  }

  lemma CancelAlarmed(s: State, id: ActiveTimer)
    requires Inv(s) && AlarmInv(s)
    ensures Safe(s, Cancel(id)) && AlarmInv(CancelInLoop(s, id))
  {
    CancelKeeps(s, id);
    if id in s.active {
      EraseIndexed(s, id);
      var s' := CancelInLoop(s, id);
      if s'.timers != [] {
        var i :| 0 <= i < |s.timers| && s.timers[i] == s'.timers[0];
        assert i > 0 ==> Less(s.timers[0], s.timers[i]);
      }
    }
  }

  lemma BeginAlarmed(s: State)
    requires Inv(s) && AlarmInv(s) && !InRead(s)
    ensures Safe(s, Begin) && AlarmInv(BeginRead(s))
  {
    BeginSplits(s);
  }

  /** A restart puts no timer before the time of the read. */
  lemma ResetAlarmed(s: State)
    requires Inv(s) && AlarmInv(s) && s.resetting && s.batch != []
    ensures Safe(s, Reset) && AlarmInv(ResetNext(s))
  {
    OwnedHead(s, s.batch);
    var a := s.batch[0].timer;
    if s.heap[a].repeat && Key(s, a) !in s.canceling {
      var e := Entry(s.now + s.heap[a].delta, a);
      assert e in s.timers ==> a in Addrs(s.timers);
      InsertSorted(s.timers, e);
    }
    hide InsertEntry, Inv, Addrs;
  }

  lemma FinishAlarmed(s: State)
    requires Inv(s) && AlarmInv(s) && s.resetting && s.batch == []
    ensures Safe(s, Finish) && AlarmInv(Rearm(s).(resetting := false))
  {
    if s.timers != [] {
      assert s.timers[0] in s.timers;
      ResetTimerfdDeadline(s, s.timers[0].when);
    }
    hide ResetTimerfd;
  }

  lemma StepAlarmed(s: State, step: Step)
    requires Inv(s) && AlarmInv(s) && Taken(s, step)
    ensures Safe(s, step) && AlarmInv(Next(s, step))
  {
    StepKeeps(s, step);
    match step
    case Add(a) => AddAlarmed(s, a);
    case Cancel(id) => CancelAlarmed(s, id);
    case Begin => BeginAlarmed(s);
    case Reset => ResetAlarmed(s);
    case Finish => FinishAlarmed(s);
    case _ =>
  }

  lemma {:induction false} ExecutionAlarmed(s: State, steps: seq<Step>)
    requires Inv(s) && AlarmInv(s) && Execution(s, steps)
    ensures AlarmInv(After(s, steps))
    decreases |steps|
  {
    if steps != [] {
      StepKeeps(s, steps[0]);
      StepAlarmed(s, steps[0]);
      hide Inv, AlarmInv, Next, Safe, Taken;
      ExecutionAlarmed(Next(s, steps[0]), steps[1..]);
    }
  }

  /** No alarm is lost: in every run, outside `handleRead`, a queue that is not
      empty has its alarm gone off or set in time for its earliest timer, which
      is when that timer is due or 100 microseconds from now at the latest. */
  lemma NoAlarmIsLost(clock: Time, steps: seq<Step>)
    requires clock > 0
    requires Execution(Initial(clock), steps)
    ensures var s := After(Initial(clock), steps);
            !InRead(s) && s.timers != [] ==>
              && Alarmed(s)
              && (s.alarm.Fired? || s.alarm.deadline <= Max(s.timers[0].when, s.clock + 100))
  {
    ExecutionAlarmed(Initial(clock), steps);
  }
}
