/**
 The poison-pill producer/consumer protocol of `ConcurrentRunner::run`, as a step system: the calling
 thread, its consumers and their FIFO channel, under every interleaving.
 */
module ConcurrentRunner {
  import opened Wrappers

  type Path = string

  datatype RunError = ThreadError | SenderError | ReceiverError

  type RunResult = Result<(), RunError>

  datatype Message = Job(path: Path) | Pill

  /** A consumer thread: waiting on the channel, in the callback, or gone one way or the other. */
  datatype Consumer = Idle | Busy(path: Path) | Stopped | Panicked

  /** Where the calling thread is in `run`. */
  datatype Phase = Spawning | Dispatching | Poisoning(sent: nat) | Joining(joined: nat) | Returned

  datatype State = State(
    numJobs: nat,
    verifyPaths: bool,
    phase: Phase,
    undispatched: seq<Path>,
    queue: seq<Message>,
    consumers: seq<Consumer>,
    result: RunResult,
    // What has happened so far.
    skipped: multiset<Path>,
    dispatched: multiset<Path>,
    finished: multiset<Path>,
    lost: multiset<Path>
  )

  /** `new` floors the worker count at one; `run` then starts with nothing spawned. */
  function Start(numJobs: nat, verifyPaths: bool, paths: seq<Path>): (s: State)
  {
    State(if numJobs > 1 then numJobs else 1, verifyPaths, Spawning, paths, [], [], Ok(()),
          multiset{}, multiset{}, multiset{}, multiset{})
  }

  // ---------------------------------------------------------------- steps

  datatype Step =
    // the calling thread
    | Spawn | SpawnFails | BeginDispatch | Skip | SendJob | BeginPoison | SendPill | BeginJoin | Join | Return
    // consumer `c`
    | Receive(c: nat) | Disconnect(c: nat) | Finish(c: nat) | Panic(c: nat)

  predicate IsLive(c: Consumer) {
    c.Idle? || c.Busy?
  }

  /** Receivers of the channel: one per live consumer, and the one `run` itself holds until it returns. */
  function Receivers(s: State): (n: nat)
  {
    (if s.phase.Returned? then 0 else 1) + Live(s.consumers)
  }

  function Live(consumers: seq<Consumer>): (n: nat)
  {
    if consumers == [] then 0 else (if IsLive(consumers[0]) then 1 else 0) + Live(consumers[1..])
  }

  predicate Enabled(s: State, step: Step) {
    match step
    case Spawn => s.phase.Spawning? && |s.consumers| < s.numJobs
    case SpawnFails => s.phase.Spawning? && |s.consumers| < s.numJobs
    case BeginDispatch => s.phase.Spawning? && |s.consumers| == s.numJobs
    case Skip => s.phase.Dispatching? && s.undispatched != [] && s.verifyPaths
    case SendJob => s.phase.Dispatching? && s.undispatched != []
    case BeginPoison => s.phase.Dispatching? && s.undispatched == []
    case SendPill => s.phase.Poisoning? && s.phase.sent < s.numJobs
    case BeginJoin => s.phase.Poisoning? && s.phase.sent == s.numJobs
    case Join => s.phase.Joining? && s.phase.joined < |s.consumers| && !IsLive(s.consumers[s.phase.joined])
    case Return => s.phase.Joining? && s.phase.joined == |s.consumers|
    case Receive(c) => c < |s.consumers| && s.consumers[c].Idle? && s.queue != []
    case Disconnect(c) => c < |s.consumers| && s.consumers[c].Idle? && s.queue == [] && s.phase.Returned?
    case Finish(c) => c < |s.consumers| && s.consumers[c].Busy?
    case Panic(c) => c < |s.consumers| && s.consumers[c].Busy?
  }

  /** Keep the first error. */
  function Fail(result: RunResult, error: RunError): (r: RunResult)
  {
    if result.Ok? then Err(error) else result
  }

  function Do(s: State, step: Step): (t: State)
    requires Enabled(s, step)
  {
    match step
    case Spawn => s.(consumers := s.consumers + [Idle])
    case SpawnFails => s.(phase := Returned, result := Err(ThreadError))
    case BeginDispatch => s.(phase := Dispatching)
    case Skip => s.(undispatched := s.undispatched[1..], skipped := s.skipped + multiset{s.undispatched[0]})
    case SendJob =>
      if Receivers(s) == 0 then s.(phase := Poisoning(0), result := Err(SenderError))
      else
        var path := s.undispatched[0];
        s.(undispatched := s.undispatched[1..], dispatched := s.dispatched + multiset{path}, queue := s.queue + [Job(path)])
    case BeginPoison => s.(phase := Poisoning(0))
    case SendPill =>
      var next := s.(phase := Poisoning(s.phase.sent + 1));
      if Receivers(s) == 0 then next.(result := Fail(s.result, SenderError)) else next.(queue := s.queue + [Pill])
    case BeginJoin => s.(phase := Joining(0))
    case Join =>
      var next := s.(phase := Joining(s.phase.joined + 1));
      if s.consumers[s.phase.joined].Panicked? then next.(result := Fail(s.result, ReceiverError)) else next
    case Return => s.(phase := Returned)
    case Receive(c) =>
      s.(queue := s.queue[1..],
         consumers := s.consumers[c := match s.queue[0] case Job(path) => Busy(path) case Pill => Stopped])
    case Disconnect(c) => s.(consumers := s.consumers[c := Stopped])
    case Finish(c) =>
      s.(finished := s.finished + multiset{s.consumers[c].path}, consumers := s.consumers[c := Idle])
    case Panic(c) =>
      s.(lost := s.lost + multiset{s.consumers[c].path}, consumers := s.consumers[c := Panicked])
  }

  /** An interleaving: steps each enabled where it is taken. */
  predicate CanRun(s: State, steps: seq<Step>)
    decreases steps
  {
    steps == [] || (Enabled(s, steps[0]) && CanRun(Do(s, steps[0]), steps[1..]))
  }

  function Run(s: State, steps: seq<Step>): (t: State)
    requires CanRun(s, steps)
    decreases steps
  {
    if steps == [] then s else Run(Do(s, steps[0]), steps[1..])
  }

  // ---------------------------------------------------------------- what is where

  function Queued(queue: seq<Message>): (m: multiset<Path>)
  {
    if queue == [] then multiset{}
    else (match queue[0] case Job(path) => multiset{path} case Pill => multiset{}) + Queued(queue[1..])
  }

  function Pills(queue: seq<Message>): (n: nat)
  {
    if queue == [] then 0 else (if queue[0].Pill? then 1 else 0) + Pills(queue[1..])
  }

  function InFlight(consumers: seq<Consumer>): (m: multiset<Path>)
  {
    if consumers == [] then multiset{}
    else HeldBy(consumers[0]) + InFlight(consumers[1..])
  }

  /** How many consumers are in a given state; used for `Stopped` and `Panicked`. */
  function Count(consumers: seq<Consumer>, what: Consumer): (n: nat)
    ensures n <= |consumers|
  {
    if consumers == [] then 0 else (if consumers[0] == what then 1 else 0) + Count(consumers[1..], what)
  }

  function HeldBy(c: Consumer): (m: multiset<Path>)
  {
    match c case Busy(path) => multiset{path} case _ => multiset{}
  }

  lemma {:induction false} QueueAppend(queue: seq<Message>, m: Message)
    ensures Queued(queue + [m]) == Queued(queue) + (match m case Job(path) => multiset{path} case Pill => multiset{})
    ensures Pills(queue + [m]) == Pills(queue) + (if m.Pill? then 1 else 0)
  {
    if queue == [] {
    } else {
      assert (queue + [m])[1..] == queue[1..] + [m];
      QueueAppend(queue[1..], m);
    }
  }

  lemma {:induction false} ConsumersAppend(consumers: seq<Consumer>)
    ensures InFlight(consumers + [Idle]) == InFlight(consumers)
    ensures forall what | what != Idle :: Count(consumers + [Idle], what) == Count(consumers, what)
  {
    if consumers == [] {
    } else {
      assert (consumers + [Idle])[1..] == consumers[1..] + [Idle];
      ConsumersAppend(consumers[1..]);
    }
  }

  lemma SumSwap(h: multiset<Path>, a: multiset<Path>, b: multiset<Path>, x: multiset<Path>, y: multiset<Path>)
    requires a + x == b + y
    ensures (h + a) + x == (h + b) + y
  {
    assert (h + a) + x == h + (a + x);
    assert (h + b) + y == h + (b + y);
  }

  lemma {:induction false} InFlightChanges(consumers: seq<Consumer>, c: nat, x: Consumer)
    requires c < |consumers|
    ensures InFlight(consumers[c := x]) + HeldBy(consumers[c]) == InFlight(consumers) + HeldBy(x)
  {
    var changed := consumers[c := x];
    var rest := InFlight(consumers[1..]);
    if c > 0 {
      assert changed[1..] == consumers[1..][c - 1 := x];
      InFlightChanges(consumers[1..], c - 1, x);
      SumSwap(HeldBy(consumers[0]), InFlight(changed[1..]), rest, HeldBy(consumers[c]), HeldBy(x));
    } else {
      assert changed[1..] == consumers[1..];
      assert HeldBy(x) + rest + HeldBy(consumers[0]) == HeldBy(consumers[0]) + rest + HeldBy(x);
    }
  }

  lemma {:induction false} CountChanges(consumers: seq<Consumer>, c: nat, x: Consumer, what: Consumer)
    requires c < |consumers|
    ensures Count(consumers[c := x], what) + (if consumers[c] == what then 1 else 0) ==
            Count(consumers, what) + (if x == what then 1 else 0)
  {
    if c > 0 {
      assert consumers[c := x][1..] == consumers[1..][c - 1 := x];
      CountChanges(consumers[1..], c - 1, x, what);
    } else {
      assert consumers[c := x][1..] == consumers[1..];
    }
  }

  /** A consumer that is not in a state leaves room in its count. */
  lemma {:induction false} CountMissesOne(consumers: seq<Consumer>, c: nat, what: Consumer)
    requires c < |consumers| && consumers[c] != what
    ensures Count(consumers, what) < |consumers|
  {
    if c == 0 {
    } else {
      CountMissesOne(consumers[1..], c - 1, what);
    }
  }

  lemma {:induction false} CountAll(consumers: seq<Consumer>, what: Consumer)
    requires Count(consumers, what) == |consumers|
    ensures forall c | 0 <= c < |consumers| :: consumers[c] == what
  {
    forall c | 0 <= c < |consumers| ensures consumers[c] == what {
      if consumers[c] != what {
        CountMissesOne(consumers, c, what);
      }
    }
  }

  lemma {:induction false} CountNone(consumers: seq<Consumer>, what: Consumer)
    ensures Count(consumers, what) == 0 <==> what !in consumers
  {
    if consumers == [] {
    } else {
      CountNone(consumers[1..], what);
      assert what in consumers <==> consumers[0] == what || what in consumers[1..];
    }
  }
}
