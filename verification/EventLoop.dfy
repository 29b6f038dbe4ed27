/** The event loop's own methods.  Each performs its steps of the state machine
    one by one; what other threads, and the functors that are called, do in
    between is given as sequences of steps. */
module EventLoop {
  import opened LoopMachine

  /** Steps of other threads. */
  predicate Foreign(step: Step) {
    step.OtherPush? || step.OtherQuit? || step.OtherWakeup?
  }

  /** Steps of other threads, and of the functor being called or destroyed. */
  predicate InFunctor(step: Step) {
    Foreign(step) || step.LoopPush? || step.LoopWakeup? || step.LoopQuit?
  }

  /** The steps of `doPendingFunctors`: `atLock` happens before it gets the lock,
      `inCalls[i]` from the call of the `i`-th functor to the next, and
      `atRelease` while the functors are destroyed. */
  function PendingSteps(atLock: seq<Step>, inCalls: seq<seq<Step>>, atRelease: seq<Step>): seq<Step> {
    [BeginFunctors] + (atLock + ([Swap] + (Calls(inCalls) + ([EndFunctors] + (atRelease + [Released])))))
  }

  function Calls(inCalls: seq<seq<Step>>): seq<Step> {
    if inCalls == [] then [] else [RunFunctor] + (inCalls[0] + Calls(inCalls[1..]))
  }

  lemma CallsFrom(inCalls: seq<seq<Step>>, i: nat, rest: seq<Step>)
    requires i < |inCalls|
    ensures Calls(inCalls[i..]) + rest
            == [RunFunctor] + (inCalls[i] + (Calls(inCalls[i + 1..]) + rest))
  {
    assert inCalls[i..][1..] == inCalls[i + 1..];
  }

  lemma EndsHere(s: State, step: Step)
    requires Execution(s, [step])
    ensures Enabled(s, step) && After(s, [step]) == Next(s, step)
  {
    assert [step][1..] == [];
  }

  lemma NoCallsLeft(inCalls: seq<seq<Step>>, i: nat, rest: seq<Step>)
    requires i == |inCalls|
    ensures Calls(inCalls[i..]) + rest == rest
  {
  }

  /** The calls described end with the batch. */
  lemma CallsMatch(s: State, inCalls: seq<seq<Step>>, i: nat, rest: seq<Step>)
    requires s.phase.Running? && s.next == i <= |s.batch| && i <= |inCalls|
    requires Execution(s, Calls(inCalls[i..]) + ([EndFunctors] + rest))
    ensures i < |s.batch| <==> i < |inCalls|
  {
    if i < |inCalls| {
      CallsFrom(inCalls, i, [EndFunctors] + rest);
    } else {
      NoCallsLeft(inCalls, i, [EndFunctors] + rest);
    }
  }

  class EventLoop {
    var quit: bool
    var callingPendingFunctors: bool
    var pendingFunctors: seq<Functor>
    /** The counter behind the wakeup descriptor. */
    var eventfd: nat

    ghost var phase: Phase
    ghost var batch: seq<Functor>
    ghost var next: nat
    ghost var owes: bool
    ghost var pushing: set<Tid>
    ghost var quitting: set<Tid>
    ghost var pushed: seq<Functor>
    ghost var executed: seq<Functor>

    ghost function View(): State
      reads this
    {
      State(phase, quit, callingPendingFunctors, eventfd, pendingFunctors, batch, next,
            owes, pushing, quitting, pushed, executed)
    }

    constructor ()
      ensures View() == Initial()
    {
      quit, callingPendingFunctors, pendingFunctors, eventfd := false, false, [], 0;
      phase, batch, next, owes := Outside, [], 0, false;
      pushing, quitting, pushed, executed := {}, {}, [], [];
    }

    /** `wakeup`, for the thread that owes it: another one, or the loop thread. */
    method Wakeup(ghost caller: Step)
      requires caller.OtherWakeup? || caller.LoopWakeup?
      requires Enabled(View(), caller)
      modifies this
      ensures View() == Next(old(View()), caller)
    {
      eventfd := eventfd + 1;
      if caller.OtherWakeup? {
        pushing, quitting := pushing - {caller.t}, quitting - {caller.t};
      } else {
        owes := false;
      }
    }

    method HandleRead()
      requires Enabled(View(), HandleWakeup)
      modifies this
      ensures View() == Next(old(View()), HandleWakeup)
    {
      eventfd := 0;
      phase := Handling(false);
    }

    /** One step of another thread or of the functor being called. */
    method Perform(step: Step)
      requires InFunctor(step) && Enabled(View(), step)
      modifies this
      ensures View() == Next(old(View()), step)
      ensures callingPendingFunctors == old(callingPendingFunctors)
      ensures phase == old(phase) && batch == old(batch) && next == old(next)
    {
      match step
      case OtherPush(t, f) =>
        pendingFunctors := pendingFunctors + [f];
        pushed, pushing := pushed + [f], pushing + {t};
      case OtherQuit(t) =>
        quit := true;
        quitting := quitting + {t};
      case LoopPush(f) =>
        pendingFunctors := pendingFunctors + [f];
        pushed, owes := pushed + [f], callingPendingFunctors;
      case LoopQuit => quit := true;
      case OtherWakeup(_) => Wakeup(step);
      case LoopWakeup => Wakeup(step);
    }

    method PerformAll(steps: seq<Step>, ghost rest: seq<Step>)
      requires forall step | step in steps :: InFunctor(step)
      requires Execution(View(), steps + rest)
      modifies this
      ensures Execution(View(), rest) && After(View(), rest) == After(old(View()), steps + rest)
      ensures callingPendingFunctors == old(callingPendingFunctors)
      ensures phase == old(phase) && batch == old(batch) && next == old(next)
    {
      hide Execution, After, Enabled, Next, InFunctor;
      ghost var last := After(View(), steps + rest);
      assert steps[0..] == steps;
      for i := 0 to |steps|
        invariant Execution(View(), steps[i..] + rest) && After(View(), steps[i..] + rest) == last
        invariant callingPendingFunctors == old(callingPendingFunctors)
        invariant phase == old(phase) && batch == old(batch) && next == old(next)
      {
        assert steps[i..] + rest == [steps[i]] + (steps[i + 1..] + rest);
        TakeStep(View(), steps[i], steps[i + 1..] + rest);
        assert steps[i] in steps;
        Perform(steps[i]);
      }
      assert steps[|steps|..] + rest == rest;
    }

    /** Any one step. */
    method PerformAny(step: Step)
      requires Enabled(View(), step)
      modifies this
      ensures View() == Next(old(View()), step)
    {
      if InFunctor(step) {
        Perform(step);
      } else {
        match step
        case Start => Enter();
        case LoopTest => Tested();
        case PollReturn(wakeup) => phase := Handling(wakeup);
        case HandleWakeup => HandleRead();
        case BeginFunctors => BeginRound();
        case Swap => var _ := SwapPending();
        case RunFunctor => executed, next := executed + [batch[next]], next + 1;
        case EndFunctors => EndRound();
        case Released => Release();
      }
    }

    /** What happens in one thread while another one is between two steps. */
    method Interleave(steps: seq<Step>, ghost rest: seq<Step>)
      requires Execution(View(), steps + rest)
      modifies this
      ensures Execution(View(), rest) && After(View(), rest) == After(old(View()), steps + rest)
    {
      hide Execution, After, Enabled, Next;
      ghost var last := After(View(), steps + rest);
      assert steps[0..] == steps;
      for i := 0 to |steps|
        invariant Execution(View(), steps[i..] + rest) && After(View(), steps[i..] + rest) == last
      {
        assert steps[i..] + rest == [steps[i]] + (steps[i + 1..] + rest);
        TakeStep(View(), steps[i], steps[i + 1..] + rest);
        PerformAny(steps[i]);
      }
      assert steps[|steps|..] + rest == rest;
    }

    /** The caller wakes the loop up unless it is the loop thread outside
        `doPendingFunctors`; `between` is what the others do meanwhile, the loop
        thread among them when it is not the caller. */
    method QueueInLoop(caller: Caller, f: Functor, between: seq<Step>)
      requires caller.InLoop? ==> forall step | step in between :: Foreign(step)
      requires Execution(View(), QueueSteps(caller, f, between, callingPendingFunctors))
      modifies this
      ensures View() == After(old(View()), QueueSteps(caller, f, between, old(callingPendingFunctors)))
      ensures old(pushed) + [f] <= pushed
      ensures caller.Other? ==> caller.t !in pushing && caller.t !in quitting
      ensures caller.InLoop? && old(callingPendingFunctors) ==> !owes && eventfd > 0
    {
      QueueLogged(View(), caller, f, between, callingPendingFunctors);
      ghost var wakeups := WakeupSteps(caller, callingPendingFunctors);
      ghost var push := if caller.InLoop? then LoopPush(f) else OtherPush(caller.t, f);
      TakeStep(View(), push, between + wakeups);
      hide Execution, After;
      pendingFunctors := pendingFunctors + [f];
      pushed := pushed + [f];
      if caller.InLoop? {
        owes := callingPendingFunctors;
        PerformAll(between, wakeups);
      } else {
        pushing := pushing + {caller.t};
        Interleave(between, wakeups);
      }
      if caller.Other? || callingPendingFunctors {
        EndsHere(View(), wakeups[0]);
        Wakeup(wakeups[0]);
      } else {
        NothingLeft(View());
      }
    }

    /** The loop thread calls `f` at once, and `meanwhile` is what happens during
        the call; another thread queues it. */
    method RunInLoop(caller: Caller, f: Functor, meanwhile: seq<Step>) returns (called: bool)
      requires caller.InLoop? ==> forall step | step in meanwhile :: InFunctor(step)
      requires Execution(View(), RunSteps(caller, f, meanwhile))
      modifies this
      ensures called <==> caller.InLoop?
      ensures View() == After(old(View()), RunSteps(caller, f, meanwhile))
    {
      called := caller.InLoop?;
      if called {
        assert meanwhile + [] == meanwhile;
        PerformAll(meanwhile, []);
        NothingLeft(View());
      } else {
        QueueInLoop(caller, f, meanwhile);
      }
    }

    method Quit(caller: Caller, between: seq<Step>)
      requires Execution(View(), QuitSteps(caller, between))
      modifies this
      ensures View() == After(old(View()), QuitSteps(caller, between))
      ensures Start !in between ==> quit
      ensures caller.Other? ==> caller.t !in pushing && caller.t !in quitting
    {
      FlagAndCounter(View(), QuitSteps(caller, between));
      if Start !in between { QuitHolds(caller, between); }
      ghost var wakeups := if caller.Other? then [OtherWakeup(caller.t)] else [];
      TakeStep(View(), if caller.InLoop? then LoopQuit else OtherQuit(caller.t), between + wakeups);
      hide Execution, After;
      quit := true;
      if caller.Other? {
        quitting := quitting + {caller.t};
      }
      Interleave(between, wakeups);
      if caller.Other? {
        EndsHere(View(), wakeups[0]);
        Wakeup(wakeups[0]);
      } else {
        NothingLeft(View());
      }
    }

    /** The loop of `doPendingFunctors`. */
    method CallAll(functors: seq<Functor>, inCalls: seq<seq<Step>>, ghost atEnd: seq<Step>)
      requires phase.Running? && callingPendingFunctors && batch == functors && next == 0
      requires Execution(View(), Calls(inCalls) + ([EndFunctors] + atEnd))
      requires forall steps | steps in inCalls :: forall step | step in steps :: InFunctor(step)
      modifies this
      ensures Execution(View(), [EndFunctors] + atEnd)
      ensures After(View(), [EndFunctors] + atEnd) == After(old(View()), Calls(inCalls) + ([EndFunctors] + atEnd))
    {
      hide Execution, After, InFunctor, Calls, Enabled, Next;
      ghost var end := [EndFunctors] + atEnd;
      ghost var last := After(View(), Calls(inCalls) + end);
      assert inCalls[0..] == inCalls;
      for i := 0 to |functors|
        invariant phase.Running? && callingPendingFunctors && batch == functors && next == i <= |inCalls|
        invariant Execution(View(), Calls(inCalls[i..]) + end)
        invariant After(View(), Calls(inCalls[i..]) + end) == last
      {
        CallsMatch(View(), inCalls, i, atEnd);
        CallsFrom(inCalls, i, end);
        ghost var rest := Calls(inCalls[i + 1..]) + end;
        TakeStep(View(), RunFunctor, inCalls[i] + rest);
        CallFunctor(functors[i]);
        assert inCalls[i] in inCalls;
        PerformAll(inCalls[i], rest);
      }
      CallsMatch(View(), inCalls, |functors|, atEnd);
      NoCallsLeft(inCalls, |functors|, end);
    }

    /** `inCalls[i]` is what happens while the `i`-th functor is called, and
        `atRelease` what does while the local vector of functors is destroyed. */
    method DoPendingFunctors(atLock: seq<Step>, inCalls: seq<seq<Step>>, atRelease: seq<Step>)
      requires Execution(View(), PendingSteps(atLock, inCalls, atRelease))
      requires forall step | step in atLock :: Foreign(step)
      requires forall steps | steps in inCalls :: forall step | step in steps :: InFunctor(step)
      requires forall step | step in atRelease :: InFunctor(step)
      modifies this
      ensures View() == After(old(View()), PendingSteps(atLock, inCalls, atRelease))
      ensures !callingPendingFunctors && phase.Test? && batch == []
    {
      ghost var atEnd := atRelease + [Released];
      ghost var calls := Calls(inCalls) + ([EndFunctors] + atEnd);
      TakeStep(View(), BeginFunctors, atLock + ([Swap] + calls));
      ForeignInFunctor(atLock);
      hide Execution, After, InFunctor, Foreign, Calls;
      BeginRound();
      PerformAll(atLock, [Swap] + calls);

      TakeStep(View(), Swap, calls);
      hide Next;
      var functors := SwapPending();
      CallAll(functors, inCalls, atEnd);
      TakeStep(View(), EndFunctors, atEnd);
      EndRound();
      PerformAll(atRelease, [Released]);
      EndsHere(View(), Released);
      Release();
    }

    /** `loop`.  `rounds` says what other threads and callbacks do in each round,
        and `atExit` what happens before the last test of `quit_`. */
    method Loop(rounds: seq<Round>, atExit: seq<Step>)
      requires forall r | r in rounds :: r.Proper()
      requires forall step | step in atExit :: Foreign(step)
      requires Execution(View(), [Start] + LoopSteps(rounds, atExit))
      requires After(View(), [Start] + LoopSteps(rounds, atExit)).phase.Outside?
      modifies this
      ensures View() == After(old(View()), [Start] + LoopSteps(rounds, atExit))
      ensures quit && phase.Outside?
    {
      ghost var last := After(View(), [Start] + LoopSteps(rounds, atExit));
      TakeStep(View(), Start, LoopSteps(rounds, atExit));
      assert rounds[0..] == rounds;
      hide Execution, After, Next, Enabled, LoopSteps, AfterTest, BeforeTest, RoundSteps, Foreign;
      Enter();
      LoopStepsFrom(rounds, 0, atExit);
      Interleave(BeforeTest(rounds, 0, atExit), [LoopTest] + AfterTest(rounds, 0, atExit));
      var i := 0;
      while !quit
        invariant i <= |rounds| && last.phase.Outside?
        invariant Execution(View(), [LoopTest] + AfterTest(rounds, i, atExit))
        invariant After(View(), [LoopTest] + AfterTest(rounds, i, atExit)) == last
        decreases |rounds| - i
      {
        TestMatches(View(), rounds, i, atExit);
        TakeStep(View(), LoopTest, AfterTest(rounds, i, atExit));
        Tested();
        assert rounds[i] in rounds;
        RunRound(rounds[i], LoopSteps(rounds[i + 1..], atExit));
        i := i + 1;
        LoopStepsFrom(rounds, i, atExit);
        Interleave(BeforeTest(rounds, i, atExit), [LoopTest] + AfterTest(rounds, i, atExit));
      }
      TestMatches(View(), rounds, i, atExit);
      EndsHere(View(), LoopTest);
      Tested();
    }

    method Enter()
      requires Enabled(View(), Start)
      modifies this`quit, this`phase
      ensures View() == Next(old(View()), Start)
    {
      quit := false;
      phase := Test;
    }

    /** The loop goes on or ends. */
    method Tested()
      requires Enabled(View(), LoopTest)
      modifies this`phase
      ensures View() == Next(old(View()), LoopTest)
    {
      phase := if quit then Outside else Polling;
    }

    /** The body of the loop: `poll`, the event callbacks, the pending functors. */
    method RunRound(r: Round, ghost rest: seq<Step>)
      requires r.Proper() && Execution(View(), RoundSteps(r) + rest)
      modifies this
      ensures Execution(View(), rest) && After(View(), rest) == After(old(View()), RoundSteps(r) + rest)
    {
      ghost var pending := PendingSteps(r.atLock, r.inCalls, r.atRelease);
      assert RoundSteps(r) + rest == r.inPoll + ([PollReturn(r.wakeup)] + (r.inEvents + (pending + rest)));
      hide Execution, After;
      Interleave(r.inPoll, [PollReturn(r.wakeup)] + (r.inEvents + (pending + rest)));
      TakeStep(View(), PollReturn(r.wakeup), r.inEvents + (pending + rest));
      phase := Handling(r.wakeup);
      Interleave(r.inEvents, pending + rest);
      RunsOn(View(), pending, rest);
      DoPendingFunctors(r.atLock, r.inCalls, r.atRelease);
    }

    method BeginRound()
      requires Enabled(View(), BeginFunctors)
      modifies this`callingPendingFunctors, this`phase
      ensures View() == Next(old(View()), BeginFunctors)
    {
      callingPendingFunctors := true;
      phase := Swapping;
    }

    /** The locked block of `doPendingFunctors`. */
    method SwapPending() returns (functors: seq<Functor>)
      requires Enabled(View(), Swap)
      modifies this`pendingFunctors, this`batch, this`next, this`phase
      ensures View() == Next(old(View()), Swap)
      ensures functors == batch == old(pendingFunctors) && next == 0 && phase.Running?
    {
      functors := [];
      functors, pendingFunctors := pendingFunctors, functors;
      batch, next, phase := functors, 0, Running;
    }

    method EndRound()
      requires Enabled(View(), EndFunctors)
      modifies this`callingPendingFunctors, this`phase
      ensures View() == Next(old(View()), EndFunctors)
    {
      callingPendingFunctors := false;
      phase := Releasing;
    }

    /** The vector of functors goes out of scope. */
    method Release()
      requires Enabled(View(), Released)
      modifies this`batch, this`next, this`phase
      ensures View() == Next(old(View()), Released)
    {
      batch, next, phase := [], 0, Test;
    }

    method CallFunctor(functor: Functor)
      requires Enabled(View(), RunFunctor) && functor == batch[next]
      modifies this`executed, this`next
      ensures View() == Next(old(View()), RunFunctor) && next == old(next) + 1
    {
      executed, next := executed + [functor], next + 1;
    }
  }

  // ---------- What a round does ----------

  lemma {:induction false} ExecutedGrows(s: State, steps: seq<Step>)
    requires Execution(s, steps)
    ensures s.executed <= After(s, steps).executed && s.pushed <= After(s, steps).pushed
    decreases |steps|
  {
    if steps != [] {
      ExecutedGrows(Next(s, steps[0]), steps[1..]);
    }
  }

  lemma {:induction false} ForeignKeeps(s: State, steps: seq<Step>)
    requires Execution(s, steps) && Ordered(s) && forall step | step in steps :: Foreign(step)
    ensures After(s, steps).phase == s.phase && Ordered(After(s, steps))
    decreases |steps|
  {
    if steps != [] {
      assert steps[0] in steps;
      StepOrdered(s, steps[0]);
      assert Next(s, steps[0]).phase == s.phase;
      hide Next, Enabled, Ordered, Foreign;
      ForeignKeeps(Next(s, steps[0]), steps[1..]);
    }
  }

  lemma {:induction false} NoEndInCalls(inCalls: seq<seq<Step>>)
    requires forall steps | steps in inCalls :: forall step | step in steps :: InFunctor(step)
    ensures EndFunctors !in Calls(inCalls)
  {
    if inCalls != [] {
      assert inCalls[0] in inCalls && forall steps | steps in inCalls[1..] :: steps in inCalls;
      NoEndInCalls(inCalls[1..]);
    }
  }

  /** All that had been queued when a round began has run when it ends. */
  lemma RoundRunsPending(s: State, atLock: seq<Step>, inCalls: seq<seq<Step>>, atRelease: seq<Step>)
    requires Ordered(s) && Execution(s, PendingSteps(atLock, inCalls, atRelease))
    requires forall step | step in atLock :: Foreign(step)
    requires forall steps | steps in inCalls :: forall step | step in steps :: InFunctor(step)
    ensures s.pushed <= After(s, PendingSteps(atLock, inCalls, atRelease)).executed
  {
    var end := [EndFunctors] + (atRelease + [Released]);
    var calls := Calls(inCalls);
    TakeStep(s, BeginFunctors, atLock + ([Swap] + (calls + end)));
    StepOrdered(s, BeginFunctors);
    var s1 := Next(s, BeginFunctors);
    assert s1.phase == Swapping && s1.pushed == s.pushed;
    hide Execution, After, Ordered, Next, Enabled, Calls, Foreign, InFunctor;
    RunsOn(s1, atLock, [Swap] + (calls + end));
    ForeignKeeps(s1, atLock);
    ExecutedGrows(s1, atLock);
    RoundRunsFrom(After(s1, atLock), inCalls, end);
  }

  lemma RoundRunsFrom(s: State, inCalls: seq<seq<Step>>, end: seq<Step>)
    requires Ordered(s) && s.phase == Swapping && end != [] && end[0] == EndFunctors
    requires Execution(s, [Swap] + (Calls(inCalls) + end))
    requires forall steps | steps in inCalls :: forall step | step in steps :: InFunctor(step)
    ensures s.pushed <= After(s, [Swap] + (Calls(inCalls) + end)).executed
  {
    TakeStep(s, Swap, Calls(inCalls) + end);
    StepOrdered(s, Swap);
    NoEndInCalls(inCalls);
    var s1 := Next(s, Swap);
    RunsOn(s1, Calls(inCalls), end);
    RoundKeepsBatch(s1, Calls(inCalls));
    var s2 := After(s1, Calls(inCalls));
    ExecutedGrows(s2, end);
    assert s2.batch[s2.next..] == [];
    assert s.executed + s.batch[s.next..] + s.pending == s.pushed && s.batch[s.next..] == [];
  }

  /** Left to itself a round can always be gone through. */
  lemma RoundCanRun(s: State)
    requires s.phase == Handling(false) && !s.owes
    ensures Execution(s, PendingSteps([], seq(|s.pending|, _ => []), []))
  {
    var rest := [Swap] + (Calls(seq(|s.pending|, _ => [])) + ([EndFunctors] + ([] + [Released])));
    var s1 := Next(s, BeginFunctors);
    CallsCanRun(Next(s1, Swap), |s.pending|);
    Prepend(s1, Swap, Calls(seq(|s.pending|, _ => [])) + ([EndFunctors] + ([] + [Released])));
    assert [] + rest == rest;
    Prepend(s, BeginFunctors, [] + rest);
  }

  lemma {:induction false} CallsCanRun(s: State, n: nat)
    requires s.phase.Running? && !s.owes && s.next + n == |s.batch|
    ensures Execution(s, Calls(seq(n, _ => [])) + ([EndFunctors] + ([] + [Released])))
    decreases n
  {
    var inCalls, end := seq(n, _ => []), [EndFunctors] + ([] + [Released]);
    if n == 0 {
      var s1 := Next(s, EndFunctors);
      Prepend(s1, Released, []);
      assert [Released] + [] == [] + [Released];
      Prepend(s, EndFunctors, [] + [Released]);
      assert Calls(inCalls) + end == end;
    } else {
      CallsCanRun(Next(s, RunFunctor), n - 1);
      assert inCalls[1..] == seq(n - 1, _ => []);
      assert Calls(inCalls) + end == [RunFunctor] + (Calls(seq(n - 1, _ => [])) + end);
      Prepend(s, RunFunctor, Calls(seq(n - 1, _ => [])) + end);
    }
  }

  /** What happens in a round of `loop`: while the loop is in `poll`, whether the
      wakeup channel is active then, in the event callbacks, and in `doPendingFunctors`. */
  datatype Round = Round(beforeTest: seq<Step>, inPoll: seq<Step>, wakeup: bool, inEvents: seq<Step>,
                         atLock: seq<Step>, inCalls: seq<seq<Step>>, atRelease: seq<Step>)
  {
    /** Each part has steps of those who can act in it. */
    predicate Proper() {
      && (forall step | step in beforeTest :: Foreign(step))
      && (forall step | step in inPoll :: Foreign(step))
      && (forall step | step in inEvents :: InFunctor(step) || step.HandleWakeup?)
      && (forall step | step in atLock :: Foreign(step))
      && (forall steps | steps in inCalls :: forall step | step in steps :: InFunctor(step))
      && (forall step | step in atRelease :: InFunctor(step))
    }
  }

  /** The steps of a round after the test of `quit_`. */
  function RoundSteps(r: Round): seq<Step> {
    r.inPoll + ([PollReturn(r.wakeup)] + (r.inEvents + PendingSteps(r.atLock, r.inCalls, r.atRelease)))
  }

  function LoopSteps(rounds: seq<Round>, atExit: seq<Step>): seq<Step> {
    if rounds == [] then atExit + [LoopTest]
    else rounds[0].beforeTest + ([LoopTest] + (RoundSteps(rounds[0]) + LoopSteps(rounds[1..], atExit)))
  }

  function BeforeTest(rounds: seq<Round>, i: nat, atExit: seq<Step>): seq<Step> {
    if i < |rounds| then rounds[i].beforeTest else atExit
  }

  function AfterTest(rounds: seq<Round>, i: nat, atExit: seq<Step>): seq<Step> {
    if i < |rounds| then RoundSteps(rounds[i]) + LoopSteps(rounds[i + 1..], atExit) else []
  }

  lemma LoopStepsFrom(rounds: seq<Round>, i: nat, atExit: seq<Step>)
    requires i <= |rounds|
    ensures LoopSteps(rounds[i..], atExit) == BeforeTest(rounds, i, atExit) + ([LoopTest] + AfterTest(rounds, i, atExit))
  {
    if i < |rounds| {
      assert rounds[i..][1..] == rounds[i + 1..];
    }
  }

  /** Nobody but the loop thread brings it back to `poll` once it has left the loop. */
  lemma {:induction false} NoPollOutside(s: State, steps: seq<Step>, wakeup: bool, rest: seq<Step>)
    requires s.phase.Outside? && forall step | step in steps :: Foreign(step)
    ensures !Execution(s, steps + ([PollReturn(wakeup)] + rest))
    decreases |steps|
  {
    var all := steps + ([PollReturn(wakeup)] + rest);
    if steps != [] {
      assert all[1..] == steps[1..] + ([PollReturn(wakeup)] + rest);
      assert steps[0] in steps;
      if Enabled(s, steps[0]) {
        NoPollOutside(Next(s, steps[0]), steps[1..], wakeup, rest);
      }
    }
  }

  /** The rounds described end when `quit_` is found set. */
  lemma TestMatches(s: State, rounds: seq<Round>, i: nat, atExit: seq<Step>)
    requires i <= |rounds| && forall r | r in rounds :: r.Proper()
    requires Execution(s, [LoopTest] + AfterTest(rounds, i, atExit))
    requires After(s, [LoopTest] + AfterTest(rounds, i, atExit)).phase.Outside?
    ensures s.quit <==> i == |rounds|
    ensures AfterTest(rounds, i, atExit)
            == if i < |rounds| then RoundSteps(rounds[i]) + LoopSteps(rounds[i + 1..], atExit) else []
  {
    TakeStep(s, LoopTest, AfterTest(rounds, i, atExit));
    if i < |rounds| {
      var r, later := rounds[i], LoopSteps(rounds[i + 1..], atExit);
      assert r in rounds;
      var rest := r.inEvents + PendingSteps(r.atLock, r.inCalls, r.atRelease) + later;
      assert AfterTest(rounds, i, atExit) == r.inPoll + ([PollReturn(r.wakeup)] + rest);
      if s.quit {
        NoPollOutside(Next(s, LoopTest), r.inPoll, r.wakeup, rest);
      }
    }
  }

  /** A run in two parts. */
  lemma {:induction false} RunsOn(s: State, steps: seq<Step>, rest: seq<Step>)
    requires Execution(s, steps + rest)
    ensures Execution(s, steps) && Execution(After(s, steps), rest)
    ensures After(s, steps + rest) == After(After(s, steps), rest)
    decreases |steps|
  {
    if steps == [] {
      assert steps + rest == rest;
    } else {
      assert (steps + rest)[1..] == steps[1..] + rest;
      RunsOn(Next(s, steps[0]), steps[1..], rest);
    }
  }

  datatype Caller = InLoop | Other(t: Tid)

  /** Another thread writes the eventfd in any case. */
  function WakeupSteps(caller: Caller, calling: bool): seq<Step> {
    if caller.Other? then [OtherWakeup(caller.t)] else if calling then [LoopWakeup] else []
  }

  function QueueSteps(caller: Caller, f: Functor, between: seq<Step>, calling: bool): seq<Step> {
    [if caller.InLoop? then LoopPush(f) else OtherPush(caller.t, f)]
    + (between + WakeupSteps(caller, calling))
  }

  function RunSteps(caller: Caller, f: Functor, meanwhile: seq<Step>): seq<Step> {
    if caller.InLoop? then meanwhile else QueueSteps(caller, f, meanwhile, false)
  }

  function QuitSteps(caller: Caller, between: seq<Step>): seq<Step> {
    [if caller.InLoop? then LoopQuit else OtherQuit(caller.t)]
    + (between + (if caller.Other? then [OtherWakeup(caller.t)] else []))
  }

  /** The functor is queued right after those queued before. */
  lemma QueueLogged(s: State, caller: Caller, f: Functor, between: seq<Step>, calling: bool)
    requires Execution(s, QueueSteps(caller, f, between, calling))
    ensures s.pushed + [f] <= After(s, QueueSteps(caller, f, between, calling)).pushed
  {
    PushesLogged(s, QueueSteps(caller, f, between, calling));
    assert Queued(QueueSteps(caller, f, between, calling))[0] == f;
  }

  /** Nothing but a new entry to `loop()` takes the flag down again. */
  lemma QuitHolds(caller: Caller, between: seq<Step>)
    requires Start !in between
    ensures QuitAfter(false, QuitSteps(caller, between)) && QuitAfter(true, QuitSteps(caller, between))
  {
    var last := if caller.Other? then [OtherWakeup(caller.t)] else [];
    assert Start !in between + last;
    QuitUp(between + last);
    assert QuitSteps(caller, between)[1..] == between + last;
  }

  lemma {:induction false} QuitUp(steps: seq<Step>)
    requires Start !in steps
    ensures QuitAfter(true, steps)
    decreases |steps|
  {
    if steps != [] {
      assert steps[0] in steps;
      QuitUp(steps[1..]);
    }
  }

  lemma ForeignInFunctor(steps: seq<Step>)
    requires forall step | step in steps :: Foreign(step)
    ensures forall step | step in steps :: InFunctor(step)
  {
  }

  lemma NothingLeft(s: State)
    ensures Execution(s, []) && After(s, []) == s
  {
  }
}
