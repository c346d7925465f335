/** What every step of the protocol keeps, whichever thread takes it: conservation, order, results. */
module RunnerInvariant {
  import opened Wrappers
  import opened ConcurrentRunner

  /** Nothing is lost or doubled: every path is undispatched, skipped, queued, in flight, finished or lost to a panic. */
  ghost predicate Conserved(s: State, paths: seq<Path>) {
    && multiset(paths) == multiset(s.undispatched) + s.skipped + s.dispatched
    && s.dispatched == Queued(s.queue) + InFlight(s.consumers) + s.finished + s.lost
    && |s.lost| == Count(s.consumers, Panicked)
    && (!s.verifyPaths ==> s.skipped == multiset{})
  }

  /** First in, first out: no job is ever queued behind a pill. */
  ghost predicate PillsLast(queue: seq<Message>) {
    forall i, j | 0 <= i < j < |queue| && queue[i].Pill? :: queue[j].Pill?
  }

  predicate Aborted(s: State) {
    s.phase.Returned? && s.result == Err(ThreadError)
  }

  function PillsSent(s: State): (n: nat)
  {
    match s.phase
    case Spawning => 0
    case Dispatching => 0
    case Poisoning(sent) => sent
    case Joining(_) => s.numJobs
    case Returned => s.numJobs
  }

  ghost predicate Workers(s: State) {
    && s.numJobs >= 1
    && |s.consumers| <= s.numJobs
    && (s.phase.Spawning? || Aborted(s) || |s.consumers| == s.numJobs)
    && (s.phase.Poisoning? ==> s.phase.sent <= s.numJobs)
    && (s.phase.Joining? ==> s.phase.joined <= s.numJobs)
  }

  /** Every pill sent is still queued or has stopped one consumer, and none is taken while a job is queued. */
  ghost predicate PillsAccounted(s: State) {
    && PillsLast(s.queue)
    && (!Aborted(s) ==> Pills(s.queue) + Count(s.consumers, Stopped) == PillsSent(s))
    && (Aborted(s) || s.phase.Spawning? ==> s.queue == [] && s.dispatched == multiset{})
    && (Count(s.consumers, Stopped) > 0 ==> Queued(s.queue) == multiset{})
  }

  ghost predicate Joined(s: State, n: nat) {
    && n <= |s.consumers|
    && (forall c | 0 <= c < n :: !IsLive(s.consumers[c]))
    && s.result == if Panicked in s.consumers[..n] then Err(ReceiverError) else Ok(())
  }

  ghost predicate ResultIsRight(s: State) {
    && (!s.phase.Spawning? && !s.phase.Dispatching? && !Aborted(s) ==> s.undispatched == [])
    && match s.phase
       case Joining(joined) => Joined(s, joined)
       case Returned => Aborted(s) || Joined(s, |s.consumers|)
       case _ => s.result == Ok(())
  }

  /** Nothing is dispatched before every consumer is up, or ever after a failed spawn. */
  ghost predicate Untouched(s: State, paths: seq<Path>) {
    s.phase.Spawning? || Aborted(s) ==> s.undispatched == paths
  }

  ghost predicate Inv(s: State, paths: seq<Path>) {
    Conserved(s, paths) && Workers(s) && PillsAccounted(s) && ResultIsRight(s) && Untouched(s, paths)
  }

  lemma {:induction false} StartInv(numJobs: nat, verifyPaths: bool, paths: seq<Path>)
    ensures Inv(Start(numJobs, verifyPaths, paths), paths)
  {
  }

  /** No send can fail, because `run` still holds a receiver. */
  lemma SendsSucceed(s: State)
    requires !s.phase.Returned?
    ensures Receivers(s) > 0
  {
  }

  lemma {:induction false} QueueTail(queue: seq<Message>)
    requires queue != [] && PillsLast(queue)
    ensures PillsLast(queue[1..])
    ensures queue[0].Pill? ==> Queued(queue) == multiset{}
  {
    if queue[0].Pill? {
      forall i | 0 <= i < |queue| ensures queue[i].Pill? {
      }
      AllPills(queue);
    }
  }

  lemma {:induction false} AllPills(queue: seq<Message>)
    requires forall i | 0 <= i < |queue| :: queue[i].Pill?
    ensures Queued(queue) == multiset{}
  {
    if queue == [] {
    } else {
      AllPills(queue[1..]);
    }
  }

  lemma {:induction false} NoPills(queue: seq<Message>)
    requires Pills(queue) == 0
    ensures forall i | 0 <= i < |queue| :: !queue[i].Pill?
  {
    if queue == [] {
    } else {
      NoPills(queue[1..]);
    }
  }

  predicate IsConsumerStep(step: Step) {
    step.Receive? || step.Disconnect? || step.Finish? || step.Panic?
  }

  /** The fields `Conserved` speaks of. */
  predicate HoldSamePaths(s: State, t: State) {
    && t.undispatched == s.undispatched && t.skipped == s.skipped && t.dispatched == s.dispatched
    && t.queue == s.queue && t.consumers == s.consumers && t.finished == s.finished && t.lost == s.lost
    && t.verifyPaths == s.verifyPaths
  }

  lemma {:induction false} SamePathsConserved(s: State, t: State, paths: seq<Path>)
    requires Conserved(s, paths) && HoldSamePaths(s, t)
    ensures Conserved(t, paths)
  {
  }

  lemma {:induction false} CallerMovesNoPath(s: State, step: Step)
    requires Enabled(s, step) && !IsConsumerStep(step)
    requires !step.Spawn? && !step.Skip? && !step.SendJob? && !step.SendPill?
    ensures HoldSamePaths(s, Do(s, step))
  {
  }

  lemma {:induction false} CallerKeepsConserved(s: State, step: Step, paths: seq<Path>)
    requires Conserved(s, paths) && Enabled(s, step) && !IsConsumerStep(step)
    requires !step.Spawn? && !step.Skip? && !step.SendJob? && !step.SendPill?
    ensures Conserved(Do(s, step), paths)
  {
    CallerMovesNoPath(s, step);
    SamePathsConserved(s, Do(s, step), paths);
  }

  lemma {:induction false} SpawnKeepsConserved(s: State, paths: seq<Path>)
    requires Conserved(s, paths) && Enabled(s, Spawn)
    ensures Conserved(Do(s, Spawn), paths)
  {
    ConsumersAppend(s.consumers);
  }

  lemma {:induction false} SkipKeepsConserved(s: State, paths: seq<Path>)
    requires Conserved(s, paths) && Enabled(s, Skip)
    ensures Conserved(Do(s, Skip), paths)
  {
    FirstPath(s.undispatched, s.skipped, s.dispatched);
  }

  lemma {:induction false} PillKeepsConserved(s: State, paths: seq<Path>)
    requires Conserved(s, paths) && Enabled(s, SendPill)
    ensures Conserved(Do(s, SendPill), paths)
  {
    SendsSucceed(s);
    PillAppend(s.queue);
    var t := Do(s, SendPill);
    assert Queued(t.queue) == Queued(s.queue) && t.consumers == s.consumers;
    assert t.dispatched == Queued(t.queue) + InFlight(t.consumers) + t.finished + t.lost;
  }

  lemma FirstPath(undispatched: seq<Path>, a: multiset<Path>, b: multiset<Path>)
    requires undispatched != []
    ensures var first := multiset{undispatched[0]};
            && multiset(undispatched) + a + b == multiset(undispatched[1..]) + (a + first) + b
            && multiset(undispatched) + a + b == multiset(undispatched[1..]) + a + (b + first)
  {
    assert undispatched == [undispatched[0]] + undispatched[1..];
  }

  lemma OneMore(q: multiset<Path>, a: multiset<Path>, f: multiset<Path>, l: multiset<Path>, first: multiset<Path>)
    ensures q + a + f + l + first == (q + first) + a + f + l
  {
  }

  lemma {:induction false} SendKeepsConserved(s: State, paths: seq<Path>)
    requires Conserved(s, paths) && Enabled(s, SendJob)
    ensures Conserved(Do(s, SendJob), paths)
  {
    SendsSucceed(s);
    var first := multiset{s.undispatched[0]};
    FirstPath(s.undispatched, s.skipped, s.dispatched);
    QueueAppend(s.queue, Job(s.undispatched[0]));
    OneMore(Queued(s.queue), InFlight(s.consumers), s.finished, s.lost, first);
  }

  lemma {:induction false} CallerKeepsPills(s: State, step: Step)
    requires Workers(s) && PillsAccounted(s) && ResultIsRight(s) && Enabled(s, step) && !IsConsumerStep(step)
    requires !step.Spawn? && !step.SendJob? && !step.SendPill?
    ensures PillsAccounted(Do(s, step))
  {
  }

  lemma {:induction false} CallerKeepsWorkers(s: State, step: Step)
    requires Workers(s) && ResultIsRight(s) && Enabled(s, step) && !IsConsumerStep(step)
    ensures Workers(Do(s, step))
  {
    if step.SendJob? || step.SendPill? {
      SendsSucceed(s);
    }
  }

  lemma {:induction false} SpawnKeepsPills(s: State)
    requires PillsAccounted(s) && Enabled(s, Spawn)
    ensures PillsAccounted(Do(s, Spawn))
  {
    ConsumersAppend(s.consumers);
  }

  lemma {:induction false} JobKeepsPills(s: State)
    requires PillsAccounted(s) && Enabled(s, SendJob)
    ensures PillsAccounted(Do(s, SendJob))
  {
    SendsSucceed(s);
    QueueAppend(s.queue, Job(s.undispatched[0]));
    NoPills(s.queue);
  }

  lemma {:induction false} PillAppend(queue: seq<Message>)
    ensures Queued(queue + [Pill]) == Queued(queue) && Pills(queue + [Pill]) == Pills(queue) + 1
    ensures PillsLast(queue) ==> PillsLast(queue + [Pill])
  {
    QueueAppend(queue, Pill);
    assert Queued(queue) + multiset{} == Queued(queue);
  }

  lemma {:induction false} PillKeepsPills(s: State)
    requires PillsAccounted(s) && Enabled(s, SendPill)
    ensures PillsAccounted(Do(s, SendPill))
  {
    SendsSucceed(s);
    var t := Do(s, SendPill);
    assert t == s.(phase := Poisoning(s.phase.sent + 1), queue := s.queue + [Pill]);
    PillAppend(s.queue);
  }

  lemma {:induction false} CallerKeepsResult(s: State, step: Step)
    requires Workers(s) && ResultIsRight(s) && Enabled(s, step) && !IsConsumerStep(step)
    ensures ResultIsRight(Do(s, step))
  {
    match step {
      case SendJob =>
        SendsSucceed(s);
      case SendPill =>
        SendsSucceed(s);
      case BeginJoin =>
        assert s.consumers[..0] == [];
      case Join =>
        var n := s.phase.joined;
        assert s.consumers[..n + 1] == s.consumers[..n] + [s.consumers[n]];
      case _ =>
    }
  }

  /** What the message that consumer takes carries is what the consumer then holds. */
  lemma {:induction false} ReceivedIsHeld(s: State, c: nat)
    requires Enabled(s, Receive(c))
    ensures var x := Do(s, Receive(c)).consumers[c];
            && Queued(s.queue) == HeldBy(x) + Queued(s.queue[1..])
            && (x == Stopped || x.Busy?)
  {
  }

  lemma Handover(job: multiset<Path>, q: multiset<Path>, a: multiset<Path>, f: multiset<Path>, l: multiset<Path>)
    ensures (job + q) + a + f + l == q + (a + job) + f + l
  {
    assert (job + q) + a == q + (a + job);
  }

  lemma {:induction false} ReceiveKeepsConserved(s: State, c: nat, paths: seq<Path>)
    requires Conserved(s, paths) && Enabled(s, Receive(c))
    ensures Conserved(Do(s, Receive(c)), paths)
  {
    var t := Do(s, Receive(c));
    var x, before := t.consumers[c], InFlight(s.consumers);
    ReceivedIsHeld(s, c);
    InFlightChanges(s.consumers, c, x);
    CountChanges(s.consumers, c, x, Panicked);
    assert InFlight(t.consumers) == before + HeldBy(x) by {
      assert t.consumers == s.consumers[c := x];
      NothingAdded(InFlight(t.consumers));
    }
    Handover(HeldBy(x), Queued(t.queue), before, s.finished, s.lost);
  }

  lemma NothingAdded(m: multiset<Path>)
    ensures m + multiset{} == m
  {
  }

  lemma {:induction false} DisconnectKeepsConserved(s: State, c: nat, paths: seq<Path>)
    requires Conserved(s, paths) && Enabled(s, Disconnect(c))
    ensures Conserved(Do(s, Disconnect(c)), paths)
  {
    InFlightChanges(s.consumers, c, Stopped);
    CountChanges(s.consumers, c, Stopped, Panicked);
    var before, after := InFlight(s.consumers), InFlight(s.consumers[c := Stopped]);
    NothingAdded(before);
    NothingAdded(after);
  }

  /** Moving a held path on does not change the sum. */
  lemma Shift(q: multiset<Path>, a: multiset<Path>, f: multiset<Path>, l: multiset<Path>, held: multiset<Path>)
    ensures q + (a + held) + f + l == q + a + (f + held) + l
    ensures q + (a + held) + f + l == q + a + f + (l + held)
  {
    assert a + held + f == a + (f + held);
    assert q + (a + held) + f == q + a + (f + held);
    assert q + a + (f + held) + l == q + a + f + (l + held);
  }

  lemma {:induction false} FinishKeepsConserved(s: State, c: nat, paths: seq<Path>)
    requires Conserved(s, paths) && Enabled(s, Finish(c))
    ensures Conserved(Do(s, Finish(c)), paths)
  {
    var held, after := HeldBy(s.consumers[c]), InFlight(s.consumers[c := Idle]);
    InFlightChanges(s.consumers, c, Idle);
    CountChanges(s.consumers, c, Idle, Panicked);
    assert InFlight(s.consumers) == after + held;
    Shift(Queued(s.queue), after, s.finished, s.lost, held);
  }

  lemma {:induction false} PanicKeepsConserved(s: State, c: nat, paths: seq<Path>)
    requires Conserved(s, paths) && Enabled(s, Panic(c))
    ensures Conserved(Do(s, Panic(c)), paths)
  {
    var held, after := HeldBy(s.consumers[c]), InFlight(s.consumers[c := Panicked]);
    InFlightChanges(s.consumers, c, Panicked);
    CountChanges(s.consumers, c, Panicked, Panicked);
    assert InFlight(s.consumers) == after + held;
    Shift(Queued(s.queue), after, s.finished, s.lost, held);
  }

  lemma {:induction false} ConsumerKeepsConserved(s: State, step: Step, paths: seq<Path>)
    requires Conserved(s, paths) && Enabled(s, step) && IsConsumerStep(step)
    ensures Conserved(Do(s, step), paths)
  {
    match step {
      case Receive(c) => ReceiveKeepsConserved(s, c, paths);
      case Disconnect(c) => DisconnectKeepsConserved(s, c, paths);
      case Finish(c) => FinishKeepsConserved(s, c, paths);
      case Panic(c) => PanicKeepsConserved(s, c, paths);
    }
  }

  lemma {:induction false} ConsumerKeepsPills(s: State, step: Step)
    requires Workers(s) && PillsAccounted(s) && ResultIsRight(s) && Enabled(s, step) && IsConsumerStep(step)
    ensures Workers(Do(s, step)) && PillsAccounted(Do(s, step))
  {
    var t, c := Do(s, step), step.c;
    CountChanges(s.consumers, c, t.consumers[c], Stopped);
    if step.Receive? {
      QueueTail(s.queue);
    }
  }

  lemma {:induction false} ConsumerKeepsResult(s: State, step: Step)
    requires ResultIsRight(s) && Enabled(s, step) && IsConsumerStep(step)
    ensures ResultIsRight(Do(s, step))
  {
    var t, c := Do(s, step), step.c;
    if s.phase.Joining? {
      JoinedUnaffected(s, t, s.phase.joined, c);
    } else if s.phase.Returned? && !Aborted(s) {
      assert IsLive(s.consumers[c]);
    }
  }

  lemma {:induction false} JoinedUnaffected(s: State, t: State, n: nat, c: nat)
    requires Joined(s, n) && c < |s.consumers| && IsLive(s.consumers[c])
    requires t.result == s.result && |t.consumers| == |s.consumers|
    requires forall i | 0 <= i < |s.consumers| && i != c :: t.consumers[i] == s.consumers[i]
    ensures Joined(t, n)
  {
    assert n <= c;
    assert t.consumers[..n] == s.consumers[..n];
  }

  lemma {:induction false} StepKeepsUntouched(s: State, step: Step, paths: seq<Path>)
    requires ResultIsRight(s) && Untouched(s, paths) && Enabled(s, step)
    ensures Untouched(Do(s, step), paths)
  {
  }

  /** Every step keeps the invariant. */
  lemma {:induction false} StepKeepsInv(s: State, step: Step, paths: seq<Path>)
    requires Inv(s, paths) && Enabled(s, step)
    ensures Inv(Do(s, step), paths)
  {
    StepKeepsUntouched(s, step, paths);
    if IsConsumerStep(step) {
      ConsumerKeepsConserved(s, step, paths);
      ConsumerKeepsPills(s, step);
      ConsumerKeepsResult(s, step);
    } else {
      match step {
        case Spawn =>
          SpawnKeepsConserved(s, paths);
          SpawnKeepsPills(s);
        case Skip =>
          SkipKeepsConserved(s, paths);
          CallerKeepsPills(s, step);
        case SendJob =>
          SendKeepsConserved(s, paths);
          JobKeepsPills(s);
        case SendPill =>
          PillKeepsConserved(s, paths);
          PillKeepsPills(s);
        case _ =>
          CallerKeepsConserved(s, step, paths);
          CallerKeepsPills(s, step);
      }
      CallerKeepsWorkers(s, step);
      CallerKeepsResult(s, step);
    }
  }

  lemma {:induction false} RunKeepsInv(s: State, steps: seq<Step>, paths: seq<Path>)
    requires Inv(s, paths) && CanRun(s, steps)
    ensures Inv(Run(s, steps), paths)
    decreases steps
  {
    if steps == [] {
    } else {
      StepKeepsInv(s, steps[0], paths);
      RunKeepsInv(Do(s, steps[0]), steps[1..], paths);
    }
  }
}
