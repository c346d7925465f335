/** How runs of the protocol end, under every schedule. */
module RunnerOutcomes {
  import opened Wrappers
  import opened ConcurrentRunner
  import opened RunnerInvariant

  // ---------------------------------------------------------------- safety

  ghost predicate Reachable(s: State, numJobs: nat, verifyPaths: bool, paths: seq<Path>) {
    exists steps: seq<Step> ::
      CanRun(Start(numJobs, verifyPaths, paths), steps) && Run(Start(numJobs, verifyPaths, paths), steps) == s
  }

  lemma {:induction false} RunKeepsSettings(s: State, steps: seq<Step>)
    requires CanRun(s, steps)
    ensures Run(s, steps).numJobs == s.numJobs && Run(s, steps).verifyPaths == s.verifyPaths
    decreases steps
  {
    if steps == [] {
    } else {
      RunKeepsSettings(Do(s, steps[0]), steps[1..]);
    }
  }

  lemma {:induction false} ReachableInv(s: State, numJobs: nat, verifyPaths: bool, paths: seq<Path>)
    requires Reachable(s, numJobs, verifyPaths, paths)
    ensures Inv(s, paths)
    ensures s.numJobs == (if numJobs > 1 then numJobs else 1) && s.verifyPaths == verifyPaths
  {
    var steps: seq<Step> :|
      CanRun(Start(numJobs, verifyPaths, paths), steps) && Run(Start(numJobs, verifyPaths, paths), steps) == s;
    StartInv(numJobs, verifyPaths, paths);
    RunKeepsInv(Start(numJobs, verifyPaths, paths), steps, paths);
    RunKeepsSettings(Start(numJobs, verifyPaths, paths), steps);
  }

  /** No job is left once a consumer takes a pill. */
  lemma {:induction false} PillsAreTakenLast(s: State, c: nat, numJobs: nat, verifyPaths: bool, paths: seq<Path>)
    requires Reachable(s, numJobs, verifyPaths, paths)
    requires Enabled(s, Receive(c)) && s.queue[0].Pill?
    ensures Queued(s.queue) == multiset{} && s.undispatched == []
  {
    ReachableInv(s, numJobs, verifyPaths, paths);
    QueueTail(s.queue);
    if s.phase.Spawning? || s.phase.Dispatching? {
      NoPills(s.queue);
    }
  }

  lemma {:induction false} NobodyBusy(consumers: seq<Consumer>)
    requires forall c | 0 <= c < |consumers| :: !IsLive(consumers[c])
    ensures InFlight(consumers) == multiset{}
    ensures Count(consumers, Stopped) + Count(consumers, Panicked) == |consumers|
  {
    if consumers == [] {
    } else {
      forall c | 0 <= c < |consumers[1..]| ensures !IsLive(consumers[1..][c]) {
        assert consumers[1..][c] == consumers[c + 1];
      }
      NobodyBusy(consumers[1..]);
    }
  }

  /**
   When `run` returns Ok, whatever the interleaving, every path it did not skip was handed to the
   callback exactly once and that call returned; with verification off none was skipped. As many consumers
   as were asked for, but at least one, were at work.
   */
  lemma {:induction false} OkMeansAllFinished(s: State, numJobs: nat, verifyPaths: bool, paths: seq<Path>)
    requires Reachable(s, numJobs, verifyPaths, paths)
    requires s.phase.Returned? && s.result == Ok(())
    ensures s.finished == s.dispatched && multiset(paths) == s.skipped + s.finished
    ensures !verifyPaths ==> multiset(paths) == s.finished
    ensures |s.consumers| == if numJobs > 1 then numJobs else 1
    ensures s.lost == multiset{} && Queued(s.queue) == multiset{} && s.undispatched == []
    ensures forall c | 0 <= c < |s.consumers| :: s.consumers[c] == Stopped
  {
    ReachableInv(s, numJobs, verifyPaths, paths);
    AllStopped(s, paths);
  }

  lemma {:induction false} AllStopped(s: State, paths: seq<Path>)
    requires Inv(s, paths) && s.phase.Returned? && s.result == Ok(())
    ensures InFlight(s.consumers) == multiset{} && s.lost == multiset{} && Queued(s.queue) == multiset{}
    ensures forall c | 0 <= c < |s.consumers| :: s.consumers[c] == Stopped
  {
    assert s.consumers[..|s.consumers|] == s.consumers;
    NobodyBusy(s.consumers);
    CountNone(s.consumers, Panicked);
    CountAll(s.consumers, Stopped);
  }

  /** Apart from a failed spawn, `run` fails iff a callback panicked, and then with the receiver error. */
  lemma {:induction false} FailureMeansPanic(s: State, numJobs: nat, verifyPaths: bool, paths: seq<Path>)
    requires Reachable(s, numJobs, verifyPaths, paths)
    requires s.phase.Returned? && s.result != Err(ThreadError)
    ensures s.result.Err? <==> s.lost != multiset{}
    ensures s.result.Err? <==> Panicked in s.consumers
    ensures s.result.Err? ==> s.result == Err(ReceiverError)
    ensures |s.consumers| == if numJobs > 1 then numJobs else 1
  {
    ReachableInv(s, numJobs, verifyPaths, paths);
    assert s.consumers[..|s.consumers|] == s.consumers;
    CountNone(s.consumers, Panicked);
    assert |s.lost| == 0 <==> s.lost == multiset{};
  }

  /**
   Each panic loses the one path in that consumer's hands. Paths are stranded in the channel only when
   every consumer has panicked; otherwise each dispatched path was finished or lost.
   */
  lemma {:induction false} PanicsLoseOnlyTheirOwn(s: State, numJobs: nat, verifyPaths: bool, paths: seq<Path>)
    requires Reachable(s, numJobs, verifyPaths, paths)
    requires s.phase.Returned? && s.result != Err(ThreadError)
    ensures s.dispatched == Queued(s.queue) + s.finished + s.lost
    ensures |s.lost| == Count(s.consumers, Panicked)
    ensures Queued(s.queue) != multiset{} ==> forall c | 0 <= c < |s.consumers| :: s.consumers[c] == Panicked
  {
    ReachableInv(s, numJobs, verifyPaths, paths);
    NobodyBusy(s.consumers);
    assert Queued(s.queue) + multiset{} == Queued(s.queue);
    if Queued(s.queue) != multiset{} {
      CountAll(s.consumers, Panicked);
    }
  }

  /** A failed spawn dispatches nothing. */
  lemma {:induction false} FailedSpawnDispatchesNothing(s: State, numJobs: nat, verifyPaths: bool, paths: seq<Path>)
    requires Reachable(s, numJobs, verifyPaths, paths)
    requires s.phase.Returned? && s.result == Err(ThreadError)
    ensures s.dispatched == multiset{} && s.queue == [] && s.undispatched == paths
    ensures |s.consumers| <= if numJobs > 1 then numJobs else 1
  {
    ReachableInv(s, numJobs, verifyPaths, paths);
  }

  /** An error, once there is one, stays: poisoning and joining keep the first. */
  lemma FirstErrorStays(s: State, step: Step)
    requires Enabled(s, step) && !step.SpawnFails? && !step.SendJob?
    requires s.result.Err?
    ensures Do(s, step).result == s.result
  {
  }

  // ---------------------------------------------------------------- termination

  function QueueWork(queue: seq<Message>): (n: nat)
  {
    if queue == [] then 0 else (if queue[0].Job? then 3 else 2) + QueueWork(queue[1..])
  }

  function WorkOf(c: Consumer): (n: nat)
  {
    match c case Idle => 1 case Busy(_) => 2 case _ => 0
  }

  function ConsumerWork(consumers: seq<Consumer>): (n: nat)
  {
    if consumers == [] then 0 else WorkOf(consumers[0]) + ConsumerWork(consumers[1..])
  }

  function CallerWork(s: State): (n: int)
  {
    match s.phase
    case Spawning => 2 * (s.numJobs - |s.consumers|) + 4 * s.numJobs + 5
    case Dispatching => 4 * s.numJobs + 4
    case Poisoning(sent) => 3 * (s.numJobs - sent) + s.numJobs + 3
    case Joining(joined) => s.numJobs - joined + 2
    case Returned => 0
  }

  /** An upper bound on the steps still possible. */
  function StepsLeft(s: State): (n: int)
  {
    4 * |s.undispatched| + QueueWork(s.queue) + ConsumerWork(s.consumers) + CallerWork(s)
  }

  lemma {:induction false} QueueWorkAppend(queue: seq<Message>, m: Message)
    ensures QueueWork(queue + [m]) == QueueWork(queue) + (if m.Job? then 3 else 2)
  {
    if queue == [] {
    } else {
      assert (queue + [m])[1..] == queue[1..] + [m];
      QueueWorkAppend(queue[1..], m);
    }
  }

  lemma {:induction false} ConsumerWorkAppend(consumers: seq<Consumer>)
    ensures ConsumerWork(consumers + [Idle]) == ConsumerWork(consumers) + 1
  {
    if consumers == [] {
    } else {
      assert (consumers + [Idle])[1..] == consumers[1..] + [Idle];
      ConsumerWorkAppend(consumers[1..]);
    }
  }

  lemma {:induction false} ConsumerWorkChanges(consumers: seq<Consumer>, c: nat, x: Consumer)
    requires c < |consumers|
    ensures ConsumerWork(consumers[c := x]) + WorkOf(consumers[c]) == ConsumerWork(consumers) + WorkOf(x)
  {
    if c > 0 {
      assert consumers[c := x][1..] == consumers[1..][c - 1 := x];
      ConsumerWorkChanges(consumers[1..], c - 1, x);
    } else {
      assert consumers[c := x][1..] == consumers[1..];
    }
  }

  lemma {:induction false} CallerStepUsesWork(s: State, step: Step)
    requires Workers(s) && Enabled(s, step) && !IsConsumerStep(step)
    ensures StepsLeft(Do(s, step)) < StepsLeft(s)
  {
    match step {
      case Spawn =>
        ConsumerWorkAppend(s.consumers);
      case SendJob =>
        SendsSucceed(s);
        QueueWorkAppend(s.queue, Job(s.undispatched[0]));
      case SendPill =>
        SendsSucceed(s);
        QueueWorkAppend(s.queue, Pill);
      case _ =>
    }
  }

  lemma {:induction false} ConsumerStepUsesWork(s: State, step: Step)
    requires Enabled(s, step) && IsConsumerStep(step)
    ensures StepsLeft(Do(s, step)) < StepsLeft(s)
  {
    var c := step.c;
    var x := Do(s, step).consumers[c];
    ConsumerWorkChanges(s.consumers, c, x);
    assert CallerWork(Do(s, step)) == CallerWork(s);
  }

  /** Every step, of any thread, uses up work. */
  lemma {:induction false} StepsRunOut(s: State, step: Step)
    requires Workers(s) && Enabled(s, step)
    ensures StepsLeft(Do(s, step)) < StepsLeft(s)
  {
    if IsConsumerStep(step) {
      ConsumerStepUsesWork(s, step);
    } else {
      CallerStepUsesWork(s, step);
    }
  }

  /** So no run, under any schedule, is longer than the work it starts with. */
  lemma {:induction false} RunsAreBounded(s: State, steps: seq<Step>, paths: seq<Path>)
    requires Inv(s, paths) && CanRun(s, steps)
    ensures 0 <= StepsLeft(s) && |steps| <= StepsLeft(s)
    decreases steps
  {
    if steps == [] {
    } else {
      StepsRunOut(s, steps[0]);
      StepKeepsInv(s, steps[0], paths);
      RunsAreBounded(Do(s, steps[0]), steps[1..], paths);
    }
  }

  /** `run` has returned and every consumer thread is gone. */
  predicate Over(s: State) {
    s.phase.Returned? && forall c | 0 <= c < |s.consumers| :: !IsLive(s.consumers[c])
  }

  /** No deadlock: until everything is over, some thread can step. */
  lemma {:induction false} SomeStepIsEnabled(s: State, paths: seq<Path>) returns (step: Step)
    requires Inv(s, paths) && !Over(s)
    ensures Enabled(s, step) && !step.Panic? && !step.SpawnFails? && !step.Skip?
  {
    match s.phase {
      case Spawning =>
        step := if |s.consumers| < s.numJobs then Spawn else BeginDispatch;
      case Dispatching =>
        step := if s.undispatched == [] then BeginPoison else SendJob;
      case Poisoning(sent) =>
        step := if sent < s.numJobs then SendPill else BeginJoin;
      case Joining(joined) =>
        if joined == |s.consumers| {
          step := Return;
        } else if !IsLive(s.consumers[joined]) {
          step := Join;
        } else if s.consumers[joined].Busy? {
          step := Finish(joined);
        } else {
          CountMissesOne(s.consumers, joined, Stopped);
          step := Receive(joined);
        }
      case Returned =>
        var c :| 0 <= c < |s.consumers| && IsLive(s.consumers[c]);
        step := if s.consumers[c].Busy? then Finish(c) else Disconnect(c);
    }
  }

  /** Every run that goes on as long as some thread can step ends with `run` returned and no consumer left. */
  lemma {:induction false} MaximalRunsEnd(numJobs: nat, verifyPaths: bool, paths: seq<Path>, steps: seq<Step>)
    requires CanRun(Start(numJobs, verifyPaths, paths), steps)
    ensures |steps| <= 4 * |paths| + 6 * (if numJobs > 1 then numJobs else 1) + 5
    ensures (forall step :: !Enabled(Run(Start(numJobs, verifyPaths, paths), steps), step)) <==>
            Over(Run(Start(numJobs, verifyPaths, paths), steps))
  {
    var s0 := Start(numJobs, verifyPaths, paths);
    StartInv(numJobs, verifyPaths, paths);
    RunsAreBounded(s0, steps, paths);
    RunKeepsInv(s0, steps, paths);
    var s := Run(s0, steps);
    if !Over(s) {
      var step := SomeStepIsEnabled(s, paths);
    }
  }

  // ---------------------------------------------------------------- what can happen

  lemma PanicsOnlyByPanic(s: State, step: Step)
    requires Enabled(s, step) && !step.Panic? && !step.SpawnFails?
    ensures Panicked in Do(s, step).consumers <==> Panicked in s.consumers
    ensures Aborted(s) || s.result != Err(ThreadError) ==> Aborted(Do(s, step)) == Aborted(s)
  {
    if IsConsumerStep(step) {
      var c, t := step.c, Do(s, step);
      assert s.consumers[c] != Panicked && t.consumers[c] != Panicked;
      assert forall i | 0 <= i < |s.consumers| && i != c :: t.consumers[i] == s.consumers[i];
    }
  }

  lemma OverResult(s: State, paths: seq<Path>)
    requires Inv(s, paths) && Over(s) && !Aborted(s)
    ensures s.result == if Panicked in s.consumers then Err(ReceiverError) else Ok(())
  {
    assert s.consumers[..|s.consumers|] == s.consumers;
  }

  lemma CompletingStep(s: State, paths: seq<Path>) returns (step: Step)
    requires Inv(s, paths) && !Over(s) && !Aborted(s)
    ensures Enabled(s, step) && Inv(Do(s, step), paths) && !Aborted(Do(s, step))
    ensures StepsLeft(Do(s, step)) < StepsLeft(s)
    ensures Panicked in Do(s, step).consumers <==> Panicked in s.consumers
  {
    step := SomeStepIsEnabled(s, paths);
    StepKeepsInv(s, step, paths);
    StepsRunOut(s, step);
    NoThreadError(s);
    PanicsOnlyByPanic(s, step);
  }

  lemma Prefixed(s: State, step: Step, rest: seq<Step>) returns (steps: seq<Step>)
    requires Enabled(s, step) && CanRun(Do(s, step), rest)
    ensures steps == [step] + rest && CanRun(s, steps) && Run(s, steps) == Run(Do(s, step), rest)
  {
    steps := [step] + rest;
    assert steps[1..] == rest;
  }

  /** From any state that the protocol keeps, unless a spawn has failed, a run can be completed, with no further panic. */
  lemma {:induction false} CanComplete(s: State, paths: seq<Path>) returns (steps: seq<Step>)
    requires Inv(s, paths) && !Aborted(s)
    ensures CanRun(s, steps) && Over(Run(s, steps))
    ensures Run(s, steps).result == if Panicked in s.consumers then Err(ReceiverError) else Ok(())
    decreases StepsLeft(s)
  {
    RunsAreBounded(s, [], paths);
    if Over(s) {
      steps := [];
      OverResult(s, paths);
    } else {
      var step := CompletingStep(s, paths);
      var rest := CanComplete(Do(s, step), paths);
      steps := Prefixed(s, step, rest);
    }
  }

  lemma NoThreadError(s: State)
    requires ResultIsRight(s) && !Aborted(s)
    ensures s.result != Err(ThreadError)
  {
  }

  /** Any schedule of any start can succeed. */
  lemma SuccessIsPossible(numJobs: nat, verifyPaths: bool, paths: seq<Path>) returns (s: State)
    ensures Reachable(s, numJobs, verifyPaths, paths) && Over(s) && s.result == Ok(())
  {
    StartInv(numJobs, verifyPaths, paths);
    var steps := CanComplete(Start(numJobs, verifyPaths, paths), paths);
    s := Run(Start(numJobs, verifyPaths, paths), steps);
  }

  /** What is free to happen: a spawn may fail, a path may be skipped, and any consumer may take the next step of its own. */
  lemma ChoicesAreFree(s: State, c: nat)
    ensures s.phase.Spawning? && |s.consumers| < s.numJobs ==>
              Enabled(s, SpawnFails) && Do(s, SpawnFails).result == Err(ThreadError) && Do(s, SpawnFails).phase.Returned?
    ensures s.phase.Dispatching? && s.undispatched != [] && s.verifyPaths ==>
              Enabled(s, Skip) && Do(s, Skip).undispatched == s.undispatched[1..] && Do(s, Skip).queue == s.queue
    ensures c < |s.consumers| && s.consumers[c].Idle? && s.queue != [] ==>
              Enabled(s, Receive(c)) && Do(s, Receive(c)).queue == s.queue[1..]
    ensures c < |s.consumers| && s.consumers[c].Busy? ==> Enabled(s, Finish(c)) && Enabled(s, Panic(c))
  {
  }

  /** Wherever a consumer is in a callback, that callback may panic, and then the run can only fail. */
  lemma PanicFailsTheRun(s: State, c: nat, paths: seq<Path>) returns (steps: seq<Step>)
    requires Inv(s, paths) && !Aborted(s) && c < |s.consumers| && s.consumers[c].Busy?
    ensures steps != [] && steps[0] == Panic(c) && CanRun(s, steps)
    ensures Over(Run(s, steps)) && Run(s, steps).result == Err(ReceiverError)
  {
    var t := Do(s, Panic(c));
    StepKeepsInv(s, Panic(c), paths);
    assert t.consumers[c] == Panicked;
    var rest := CanComplete(t, paths);
    steps := Prefixed(s, Panic(c), rest);
  }
}
