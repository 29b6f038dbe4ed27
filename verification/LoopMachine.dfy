/** The hand-off between threads that queue functors and the one thread that
    runs the loop.  A state machine: each step is one access to what the threads
    share, and the steps of different threads interleave freely. */
module LoopMachine {

  type Functor = nat
  type Tid = nat

  /** Where the loop thread is. */
  datatype Phase =
    | Outside                 // not in `loop()`: before it, or after it has returned
    | Test                    // about to test `quit_`
    | Polling                 // at or blocked in `poll`
    | Handling(wakeup: bool)  // in event callbacks; the wakeup channel is active and not yet handled
    | Swapping                // `callingPendingFunctors_` set, the lock not yet taken
    | Running                 // going through the functors swapped out
    | Releasing               // the flag is down again; the functors swapped out are destroyed

  /** `pushing` and `quitting` are the other threads between their push, or their
      store to `quit_`, and the write to the eventfd that follows it; `owes` says
      the same of the loop thread.  `batch` is the vector swapped out and
      `batch[next..]` what is left of it to run.  `pushed` and `executed` record the whole run. */
  datatype State = State(
    phase: Phase, quit: bool, calling: bool, eventfd: nat,
    pending: seq<Functor>, batch: seq<Functor>, next: nat,
    owes: bool, pushing: set<Tid>, quitting: set<Tid>,
    pushed: seq<Functor>, executed: seq<Functor>)

  function Initial(): State {
    State(Outside, false, false, 0, [], [], 0, false, {}, {}, [], [])
  }

  datatype Step =
    | OtherPush(t: Tid, f: Functor)  // queueInLoop: the locked push
    | OtherQuit(t: Tid)              // quit: the store
    | OtherWakeup(t: Tid)            // the eventfd write of either
    | LoopPush(f: Functor)           // queueInLoop called by the loop thread
    | LoopWakeup
    | LoopQuit
    | Start                          // loop() entered
    | LoopTest
    | PollReturn(wakeup: bool)       // the wakeup channel among the active ones, or not
    | HandleWakeup                   // handleRead: the eventfd read
    | BeginFunctors                  // doPendingFunctors: the flag
    | Swap                           // doPendingFunctors: the locked swap
    | RunFunctor
    | EndFunctors                    // doPendingFunctors: the flag again
    | Released                       // doPendingFunctors: the vector is gone

  /** The loop thread is inside a callback or a functor, destroys a functor it has
      run, or is outside `loop()`. */
  predicate InUserCode(s: State) {
    s.phase.Outside? || s.phase.Handling? || (s.phase.Running? && s.next > 0) || (s.phase.Releasing? && s.batch != [])
  }

  predicate Enabled(s: State, step: Step) {
    match step
    case OtherPush(t, _) => t !in s.pushing && t !in s.quitting
    case OtherQuit(t) => t !in s.pushing && t !in s.quitting
    case OtherWakeup(t) => t in s.pushing || t in s.quitting
    case LoopPush(_) => InUserCode(s) && !s.owes
    case LoopWakeup => s.owes
    case LoopQuit => InUserCode(s) && !s.owes
    case Start => s.phase.Outside? && !s.owes
    case LoopTest => s.phase.Test?
    case PollReturn(wakeup) => s.phase.Polling? && (wakeup ==> s.eventfd > 0)
    case HandleWakeup => s.phase.Handling? && s.phase.wakeup && !s.owes
    case BeginFunctors => s.phase.Handling? && !s.phase.wakeup && !s.owes
    case Swap => s.phase.Swapping?
    case RunFunctor => s.phase.Running? && s.next < |s.batch| && !s.owes
    case EndFunctors => s.phase.Running? && s.next >= |s.batch| && !s.owes
    case Released => s.phase.Releasing?
  }

  function Next(s: State, step: Step): State
    requires Enabled(s, step)
  {
    match step
    case OtherPush(t, f) =>
      s.(pending := s.pending + [f], pushed := s.pushed + [f], pushing := s.pushing + {t})
    case OtherQuit(t) => s.(quit := true, quitting := s.quitting + {t})
    case OtherWakeup(t) =>
      s.(eventfd := s.eventfd + 1, pushing := s.pushing - {t}, quitting := s.quitting - {t})
    // The loop thread wakes itself only while it is running pending functors.
    case LoopPush(f) => s.(pending := s.pending + [f], pushed := s.pushed + [f], owes := s.calling)
    case LoopWakeup => s.(eventfd := s.eventfd + 1, owes := false)
    case LoopQuit => s.(quit := true)
    case Start => s.(phase := Test, quit := false)
    case LoopTest => s.(phase := if s.quit then Outside else Polling)
    case PollReturn(wakeup) => s.(phase := Handling(wakeup))
    case HandleWakeup => s.(eventfd := 0, phase := Handling(false))
    case BeginFunctors => s.(calling := true, phase := Swapping)
    case Swap => s.(batch := s.pending, next := 0, pending := [], phase := Running)
    case RunFunctor => s.(executed := s.executed + [s.batch[s.next]], next := s.next + 1)
    case EndFunctors => s.(calling := false, phase := Releasing)
    case Released => s.(batch := [], next := 0, phase := Test)
  }

  predicate Execution(s: State, steps: seq<Step>)
    decreases |steps|
  {
    steps != [] ==> Enabled(s, steps[0]) && Execution(Next(s, steps[0]), steps[1..])
  }

  function After(s: State, steps: seq<Step>): State
    requires Execution(s, steps)
    decreases |steps|
  {
    if steps == [] then s else After(Next(s, steps[0]), steps[1..])
  }

  // ---------- Order ----------

  /** What has been pushed is what has run, then what is left of the batch, then
      what is pending; and the flag is up just while a batch is taken and run. */
  ghost predicate Ordered(s: State) {
    && s.next <= |s.batch|
    && (s.phase.Running? || s.phase.Releasing? || s.batch == [])
    && (s.phase.Releasing? ==> s.next == |s.batch|)
    && s.executed + s.batch[s.next..] + s.pending == s.pushed
    && (s.calling <==> s.phase.Swapping? || s.phase.Running?)
    && (s.owes ==> s.phase.Running?)
  }

  lemma StepOrdered(s: State, step: Step)
    requires Ordered(s) && Enabled(s, step)
    ensures Ordered(Next(s, step))
  {
    if step.RunFunctor? {
      assert s.batch[s.next..] == [s.batch[s.next]] + s.batch[s.next + 1..];
    }
  }

  lemma {:induction false} ExecutionOrdered(s: State, steps: seq<Step>)
    requires Ordered(s) && Execution(s, steps)
    ensures Ordered(After(s, steps))
    decreases |steps|
  {
    if steps != [] {
      StepOrdered(s, steps[0]);
      ExecutionOrdered(Next(s, steps[0]), steps[1..]);
    }
  }

  /** The functors queued in the course of some steps, in the order of the pushes. */
  function Queued(steps: seq<Step>): seq<Functor> {
    if steps == [] then [] else QueuedBy(steps[0]) + Queued(steps[1..])
  }

  function QueuedBy(step: Step): seq<Functor> {
    match step
    case OtherPush(_, f) => [f]
    case LoopPush(f) => [f]
    case _ => []
  }

  lemma StepLogged(s: State, step: Step)
    requires Enabled(s, step)
    ensures Next(s, step).pushed == s.pushed + QueuedBy(step)
  {
  }

  /** No push is lost, and nothing else is queued. */
  lemma {:induction false} PushesLogged(s: State, steps: seq<Step>)
    requires Execution(s, steps)
    ensures After(s, steps).pushed == s.pushed + Queued(steps)
    decreases |steps|
  {
    if steps != [] {
      StepLogged(s, steps[0]);
      hide Next, Enabled, QueuedBy;
      PushesLogged(Next(s, steps[0]), steps[1..]);
    }
  }

  /** What the last entry to `loop()` or request to quit among some steps left the flag at. */
  function QuitAfter(quit: bool, steps: seq<Step>): bool
    decreases |steps|
  {
    if steps == [] then quit
    else
      QuitAfter(match steps[0]
                case OtherQuit(_) => true
                case LoopQuit => true
                case Start => false
                case _ => quit, steps[1..])
  }

  /** The wakeups written since the eventfd was last read. */
  function WakeupsAfter(unread: nat, steps: seq<Step>): nat
    decreases |steps|
  {
    if steps == [] then unread
    else
      WakeupsAfter(match steps[0]
                   case OtherWakeup(_) => unread + 1
                   case LoopWakeup => unread + 1
                   case HandleWakeup => 0
                   case _ => unread, steps[1..])
  }

  /** The flag and the counter are what the steps of the run make them. */
  lemma {:induction false} FlagAndCounter(s: State, steps: seq<Step>)
    requires Execution(s, steps)
    ensures After(s, steps).quit == QuitAfter(s.quit, steps)
    ensures After(s, steps).eventfd == WakeupsAfter(s.eventfd, steps)
    decreases |steps|
  {
    if steps != [] {
      FlagAndCounter(Next(s, steps[0]), steps[1..]);
    }
  }

  /** Whatever the threads do, the functors queued run in the order their pushes
      took the lock, each at most once, and between two rounds all that have not
      run are pending. */
  lemma FunctorsRunInOrder(steps: seq<Step>)
    requires Execution(Initial(), steps)
    ensures var s := After(Initial(), steps);
            && s.executed <= Queued(steps)
            && (!s.phase.Running? ==> s.executed + s.pending == Queued(steps))
            && s.next <= |s.batch| && s.executed + s.batch[s.next..] + s.pending == Queued(steps)
  {
    PushesLogged(Initial(), steps);
    assert Initial().pushed + Queued(steps) == Queued(steps);
    ExecutionOrdered(Initial(), steps);
    var s := After(Initial(), steps);
    assert s.executed + (s.batch[s.next..] + s.pending) == s.pushed;
    assert !s.phase.Running? ==> s.batch[s.next..] == [];
  }

  /** Within a round what has run and what is left of the batch stay the same together. */
  lemma {:induction false} RoundKeepsBatch(s: State, steps: seq<Step>)
    requires Ordered(s) && s.phase.Running? && Execution(s, steps)
    requires EndFunctors !in steps
    ensures var s' := After(s, steps);
            && s'.phase.Running? && Ordered(s')
            && s'.executed + s'.batch[s'.next..] == s.executed + s.batch[s.next..]
    decreases |steps|
  {
    if steps != [] {
      var s' := Next(s, steps[0]);
      StepOrdered(s, steps[0]);
      assert steps[0] in steps;
      if steps[0].RunFunctor? {
        assert s.batch[s.next..] == [s.batch[s.next]] + s.batch[s.next + 1..];
      }
      RoundKeepsBatch(s', steps[1..]);
    }
  }

  /** A round runs exactly what was pushed before its swap: nothing pushed then
      is left behind, and nothing pushed since, by its own functors or by other
      threads, is run before the next round. */
  lemma RoundRunsWhatWasPushed(before: seq<Step>, steps: seq<Step>)
    requires Execution(Initial(), before) && After(Initial(), before).phase.Swapping?
    requires var s := After(Initial(), before);
             && Execution(Next(s, Swap), steps) && EndFunctors !in steps
             && Enabled(After(Next(s, Swap), steps), EndFunctors)
    ensures After(Next(After(Initial(), before), Swap), steps).executed == Queued(before)
  {
    var s := After(Initial(), before);
    PushesLogged(Initial(), before);
    assert Initial().pushed + Queued(before) == Queued(before);
    ExecutionOrdered(Initial(), before);
    StepOrdered(s, Swap);
    RoundKeepsBatch(Next(s, Swap), steps);
    var s' := After(Next(s, Swap), steps);
    assert s'.batch[s'.next..] == [];
  }

  // ---------- Wakeups ----------

  /** Something will make `poll` return on account of a push: the counter is up
      or the write that raises it is still to come. */
  predicate PushSignalled(s: State) {
    s.eventfd > 0 || s.pushing != {} || s.owes
  }

  predicate QuitSignalled(s: State) {
    s.eventfd > 0 || s.quitting != {}
  }

  /** With the loop at or in `poll`, neither a pending functor nor a request to
      quit goes unsignalled. */
  predicate NoLostWakeup(s: State) {
    s.phase.Polling? ==> (s.pending != [] ==> PushSignalled(s)) && (s.quit ==> QuitSignalled(s))
  }

  /** The same from the swap on, where the counter is not read until `poll` has returned. */
  ghost predicate Signalled(s: State) {
    && (s.pending != [] && !s.phase.Handling? && !s.phase.Swapping? ==> PushSignalled(s))
    && (s.phase.Polling? && s.quit ==> QuitSignalled(s))
  }

  /** A push by the loop thread for which `queueInLoop` writes no wakeup and after
      which the pending functors are not run before the next `poll`: the flag is
      down and no event callback is under way. */
  predicate QuietPush(s: State, step: Step) {
    step.LoopPush? && (s.phase.Outside? || s.phase.Releasing?)
  }

  /** Every such push in the run finds a wakeup that is still to be read. */
  predicate Careful(s: State, steps: seq<Step>)
    requires Execution(s, steps)
    decreases |steps|
  {
    steps != [] ==> (QuietPush(s, steps[0]) ==> PushSignalled(s)) && Careful(Next(s, steps[0]), steps[1..])
  }

  lemma StepSignalled(s: State, step: Step)
    requires Ordered(s) && Signalled(s) && Enabled(s, step)
    requires QuietPush(s, step) ==> PushSignalled(s)
    ensures Signalled(Next(s, step))
  {
    var s' := Next(s, step);
    match step
    case OtherPush(t, f) => assert t in s'.pushing;
    case OtherQuit(t) => assert t in s'.quitting;
    case OtherWakeup(t) => assert s'.eventfd > 0;
    case _ => assert s'.pushing == s.pushing && s'.quitting == s.quitting;
  }

  lemma {:induction false} ExecutionSignalled(s: State, steps: seq<Step>)
    requires Ordered(s) && Signalled(s) && Execution(s, steps) && Careful(s, steps)
    ensures Ordered(After(s, steps)) && Signalled(After(s, steps))
    decreases |steps|
  {
    if steps != [] {
      StepOrdered(s, steps[0]);
      StepSignalled(s, steps[0]);
      ExecutionSignalled(Next(s, steps[0]), steps[1..]);
    }
  }

  /** However the threads go on from here, no wakeup is lost unless another quiet
      push goes unsignalled first. */
  ghost predicate NeverLosesWakeup(s: State) {
    forall steps | Execution(s, steps) && Careful(s, steps) :: NoLostWakeup(After(s, steps))
  }

  lemma Prepend(s: State, step: Step, rest: seq<Step>)
    requires Enabled(s, step) && Execution(Next(s, step), rest)
    ensures Execution(s, [step] + rest) && After(s, [step] + rest) == After(Next(s, step), rest)
    ensures Careful(s, [step] + rest)
            <==> (QuietPush(s, step) ==> PushSignalled(s)) && Careful(Next(s, step), rest)
  {
    assert ([step] + rest)[1..] == rest;
  }

  function StepsToPoll(s: State): nat {
    match s.phase
    case Running => 4
    case Releasing => 3
    case Outside => if s.quit then 1 else 3
    case Test => 2
    case _ => 0
  }

  /** With work pending and no wakeup to come the loop thread gets to `poll` on its own. */
  lemma LosesWakeup(s: State) returns (steps: seq<Step>)
    requires Ordered(s) && s.pending != [] && !PushSignalled(s)
    requires !s.phase.Handling? && !s.phase.Swapping?
    ensures Execution(s, steps) && Careful(s, steps) && !NoLostWakeup(After(s, steps))
    decreases s.quit, StepsToPoll(s), |s.batch| - s.next
  {
    if s.phase.Polling? {
      steps := [];
    } else {
      var step := match s.phase
        case Outside => Start
        case Test => LoopTest
        case Running => if s.next < |s.batch| then RunFunctor else EndFunctors
        case _ => Released;
      StepOrdered(s, step);
      var rest := LosesWakeup(Next(s, step));
      Prepend(s, step, rest);
      steps := [step] + rest;
    }
  }

  /** A state can go on without losing a wakeup exactly when what is pending in it is signalled. */
  lemma NeverLosesExactly(s: State)
    requires Ordered(s)
    ensures NeverLosesWakeup(s) <==> Signalled(s)
  {
    if Signalled(s) {
      forall steps | Execution(s, steps) && Careful(s, steps) ensures NoLostWakeup(After(s, steps)) {
        ExecutionSignalled(s, steps);
      }
    } else if s.pending != [] && !s.phase.Handling? && !s.phase.Swapping? && !PushSignalled(s) {
      var steps := LosesWakeup(s);
    } else {
      assert Execution(s, []) && Careful(s, []) && After(s, []) == s;
    }
  }

  /** The run has got to its `n`-th state, and no wakeup is lost from there. */
  ghost predicate NeverLosesAfter(s: State, steps: seq<Step>, n: nat)
    requires n <= |steps|
  {
    Execution(s, steps[..n]) && NeverLosesWakeup(After(s, steps[..n]))
  }

  /** No wakeup is lost, in any interleaving, exactly as long as the loop thread
      queues nothing quietly, outside `loop()` or from the destructor of a
      functor, while no wakeup is under way. */
  lemma NoWakeupIsLost(steps: seq<Step>)
    requires Execution(Initial(), steps)
    ensures Careful(Initial(), steps) <==> forall n | 0 <= n <= |steps| :: NeverLosesAfter(Initial(), steps, n)
  {
    NoWakeupIsLostFrom(Initial(), steps);
  }

  lemma {:induction false} NoWakeupIsLostFrom(s: State, steps: seq<Step>)
    requires Ordered(s) && Signalled(s) && Execution(s, steps)
    ensures Careful(s, steps) <==> forall n | 0 <= n <= |steps| :: NeverLosesAfter(s, steps, n)
    decreases |steps|
  {
    NeverLosesExactly(s);
    assert NeverLosesAfter(s, steps, 0);
    if steps != [] {
      var s', rest := Next(s, steps[0]), steps[1..];
      StepOrdered(s, steps[0]);
      if QuietPush(s, steps[0]) && !PushSignalled(s) {
        NeverLosesExactly(s');
        NeverLosesNext(s, steps, 0);
        assert !NeverLosesAfter(s, steps, 1);
      } else {
        StepSignalled(s, steps[0]);
        hide NeverLosesWakeup, NeverLosesAfter, Signalled, Ordered, PushSignalled;
        NoWakeupIsLostFrom(s', rest);
        forall n | 0 <= n <= |rest| ensures NeverLosesAfter(s, steps, n + 1) <==> NeverLosesAfter(s', rest, n) {
          NeverLosesNext(s, steps, n);
        }
        if forall n | 0 <= n <= |rest| :: NeverLosesAfter(s', rest, n) {
          forall n | 0 <= n <= |steps| ensures NeverLosesAfter(s, steps, n) {
            if n > 0 { assert NeverLosesAfter(s', rest, n - 1); }
          }
        }
      }
    }
  }

  lemma NeverLosesNext(s: State, steps: seq<Step>, n: nat)
    requires n < |steps| && Execution(s, steps)
    ensures NeverLosesAfter(s, steps, n + 1) <==> NeverLosesAfter(Next(s, steps[0]), steps[1..], n)
  {
    assert steps[..n + 1][1..] == steps[1..][..n];
  }

  /** Entering `loop()` is safe exactly with nothing pending or with what is
      pending already signalled. */
  lemma StartLosesNothing(s: State)
    requires Ordered(s) && Enabled(s, Start)
    ensures NeverLosesWakeup(Next(s, Start)) <==> s.pending == [] || PushSignalled(s)
  {
    StepOrdered(s, Start);
    NeverLosesExactly(Next(s, Start));
  }

  /** Which is so when outside `loop()` only other threads have queued functors. */
  lemma {:induction false} OthersMayQueueEarly(s: State, steps: seq<Step>)
    requires Ordered(s) && Signalled(s) && s.phase.Outside? && Execution(s, steps)
    requires forall i | 0 <= i < |steps| :: !steps[i].LoopPush? && !steps[i].Start?
    ensures var s' := After(s, steps);
            s'.phase.Outside? && (s'.pending == [] || PushSignalled(s'))
    decreases |steps|
  {
    if steps != [] {
      StepOrdered(s, steps[0]);
      StepSignalled(s, steps[0]);
      OthersMayQueueEarly(Next(s, steps[0]), steps[1..]);
    }
  }

  lemma {:induction false} Append(s: State, steps: seq<Step>, step: Step)
    requires Execution(s, steps) && Enabled(After(s, steps), step)
    ensures Execution(s, steps + [step]) && After(s, steps + [step]) == Next(After(s, steps), step)
    decreases |steps|
  {
    if steps == [] {
      Prepend(s, step, []);
    } else {
      Append(Next(s, steps[0]), steps[1..], step);
      assert steps + [step] == [steps[0]] + (steps[1..] + [step]);
      Prepend(s, steps[0], steps[1..] + [step]);
    }
  }

  /** A functor the loop thread queues before `loop()` waits for some other
      event, or for the poll to time out. */
  lemma EarlyPushIsNotSignalled(f: Functor)
    ensures var steps := [LoopPush(f), Start, LoopTest];
            && Execution(Initial(), steps)
            && var s := After(Initial(), steps);
               s.phase.Polling? && s.pending == [f] && s.eventfd == 0 && !PushSignalled(s)
  {
    var s0 := Initial();
    Append(s0, [], LoopPush(f));
    Append(s0, [LoopPush(f)], Start);
    Append(s0, [LoopPush(f), Start], LoopTest);
  }

  /** So does a functor queued by the destructor of one that has run: when the
      vector swapped out is destroyed, the flag is down already. */
  lemma ReleasePushIsNotSignalled(t: Tid, f: Functor, g: Functor)
    ensures var steps := OneRound(t, f) + [LoopPush(g), Released, LoopTest];
            && Execution(Initial(), steps)
            && var s := After(Initial(), steps);
               s.phase.Polling? && s.executed == [f] && s.pending == [g] && s.eventfd == 0 && !PushSignalled(s)
  {
    var s0, steps := Initial(), OneRound(t, f);
    OneRoundRuns(t, f);
    Append(s0, steps, LoopPush(g));
    Append(s0, steps + [LoopPush(g)], Released);
    Append(s0, steps + [LoopPush(g)] + [Released], LoopTest);
    assert steps + [LoopPush(g), Released, LoopTest] == steps + [LoopPush(g)] + [Released] + [LoopTest];
  }

  /** The loop is entered, another thread queues `f`, and the loop runs it. */
  function OneRound(t: Tid, f: Functor): seq<Step> {
    [Start, LoopTest, OtherPush(t, f), OtherWakeup(t), PollReturn(true), HandleWakeup,
     BeginFunctors, Swap, RunFunctor, EndFunctors]
  }

  lemma OneRoundRuns(t: Tid, f: Functor)
    ensures Execution(Initial(), OneRound(t, f))
    ensures After(Initial(), OneRound(t, f))
            == State(Releasing, false, false, 0, [], [f], 1, false, {}, {}, [f], [f])
  {
    var all := OneRound(t, f);
    var s: State := Initial();
    var n := 0;
    while n < |all|
      invariant 0 <= n <= |all|
      invariant Execution(Initial(), all[..n]) && After(Initial(), all[..n]) == s
      invariant s == match n
                     case 0 => Initial()
                     case 1 => Initial().(phase := Test)
                     case 2 => Initial().(phase := Polling)
                     case 3 => Initial().(phase := Polling, pending := [f], pushed := [f], pushing := {t})
                     case 4 => Initial().(phase := Polling, pending := [f], pushed := [f], eventfd := 1)
                     case 5 => Initial().(phase := Handling(true), pending := [f], pushed := [f], eventfd := 1)
                     case 6 => Initial().(phase := Handling(false), pending := [f], pushed := [f])
                     case 7 => Initial().(phase := Swapping, calling := true, pending := [f], pushed := [f])
                     case 8 => Initial().(phase := Running, calling := true, batch := [f], pushed := [f])
                     case 9 => Initial().(phase := Running, calling := true, batch := [f], next := 1, pushed := [f], executed := [f])
                     case _ => State(Releasing, false, false, 0, [], [f], 1, false, {}, {}, [f], [f])
    {
      Append(Initial(), all[..n], all[n]);
      assert all[..n + 1] == all[..n] + [all[n]];
      s, n := Next(s, all[n]), n + 1;
    }
    assert all[..|all|] == all;
  }

  // ---------- Quitting ----------

  /** Once `quit` has been called since the loop was entered, the loop does not
      poll again unless it is entered anew: it leaves at its next test. */
  lemma {:induction false} QuitIsFinal(before: seq<Step>, steps: seq<Step>)
    requires Execution(Initial(), before) && QuitAfter(false, before)
    requires var s := After(Initial(), before); !s.phase.Polling? && Execution(s, steps) && Start !in steps
    ensures !After(After(Initial(), before), steps).phase.Polling?
  {
    FlagAndCounter(Initial(), before);
    QuitStays(After(Initial(), before), steps);
  }

  lemma {:induction false} QuitStays(s: State, steps: seq<Step>)
    requires s.quit && !s.phase.Polling? && Execution(s, steps) && Start !in steps
    ensures After(s, steps).quit && !After(s, steps).phase.Polling?
    decreases |steps|
  {
    if steps != [] {
      assert steps[0] in steps;
      QuitStays(Next(s, steps[0]), steps[1..]);
    }
  }

  /** Outside `loop()` nothing is run. */
  lemma {:induction false} FinishedRunsNothing(s: State, steps: seq<Step>)
    requires s.phase.Outside? && Ordered(s) && Execution(s, steps) && Start !in steps
    ensures After(s, steps).phase.Outside? && After(s, steps).executed == s.executed
    decreases |steps|
  {
    if steps != [] {
      assert steps[0] in steps;
      StepOrdered(s, steps[0]);
      FinishedRunsNothing(Next(s, steps[0]), steps[1..]);
    }
  }

  // ---------- One step at a time ----------

  lemma TakeStep(s: State, step: Step, rest: seq<Step>)
    requires Execution(s, [step] + rest)
    ensures Enabled(s, step) && Execution(Next(s, step), rest)
    ensures After(s, [step] + rest) == After(Next(s, step), rest)
  {
    assert ([step] + rest)[1..] == rest;
  }
}
