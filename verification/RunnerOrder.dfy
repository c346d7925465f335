/** In which order the paths reach the consumers. */
module RunnerOrder {
  import opened Wrappers
  import opened ConcurrentRunner
  import opened RunnerOutcomes
  import opened RunnerInvariant
  import Sequences

  /** The jobs of a queue, first in first out. */
  function Jobs(queue: seq<Message>): (paths: seq<Path>)
  {
    if queue == [] then [] else (if queue[0].Job? then [queue[0].path] else []) + Jobs(queue[1..])
  }

  /** The paths still to be taken by a consumer, in the order in which they will be. */
  function Line(s: State): (paths: seq<Path>)
  {
    Jobs(s.queue) + s.undispatched
  }

  /** `a` is `b` with some of its elements left out. */
  predicate IsSubsequence(a: seq<Path>, b: seq<Path>) {
    || a == []
    || (b != [] && ((a[0] == b[0] && IsSubsequence(a[1..], b[1..])) || IsSubsequence(a, b[1..])))
  }

  lemma {:induction false} SubsequenceOfSelf(a: seq<Path>)
    ensures IsSubsequence(a, a)
  {
    if a == [] {
    } else {
      SubsequenceOfSelf(a[1..]);
    }
  }

  lemma {:induction false} StillSubsequence(a: seq<Path>, b: seq<Path>, k: nat)
    requires IsSubsequence(a, b) && k < |a|
    ensures IsSubsequence(Sequences.Without(a, k), b)
    decreases |b|
  {
    var fewer := Sequences.Without(a, k);
    if a[0] == b[0] && IsSubsequence(a[1..], b[1..]) {
      if k == 0 {
        assert fewer == a[1..];
      } else {
        StillSubsequence(a[1..], b[1..], k - 1);
        assert fewer[1..] == Sequences.Without(a[1..], k - 1);
      }
    } else {
      StillSubsequence(a, b[1..], k);
    }
  }

  lemma {:induction false} JobsAppend(queue: seq<Message>, m: Message)
    ensures Jobs(queue + [m]) == Jobs(queue) + if m.Job? then [m.path] else []
  {
    if queue == [] {
    } else {
      var here := if queue[0].Job? then [queue[0].path] else [];
      Sequences.ConsConcat(queue, [m]);
      JobsAppend(queue[1..], m);
      Sequences.Regroup(here, Jobs(queue[1..]), if m.Job? then [m.path] else []);
    }
  }

  /** A step leaves the line as it is, or takes the head of it, or leaves out the next undispatched path. */
  lemma {:induction false} StepKeepsLine(s: State, step: Step)
    requires Enabled(s, step)
    ensures || Line(Do(s, step)) == Line(s)
            || (exists k :: 0 <= k < |Line(s)| && Line(Do(s, step)) == Sequences.Without(Line(s), k))
            || (!s.phase.Returned? && Receivers(s) == 0)
  {
    match step {
      case SendJob =>
        var path := s.undispatched[0];
        JobsAppend(s.queue, Job(path));
        assert Jobs(s.queue) + [path] + s.undispatched[1..] == Jobs(s.queue) + s.undispatched;
      case SendPill =>
        JobsAppend(s.queue, Pill);
        assert Jobs(s.queue) + [] == Jobs(s.queue);
      case Skip =>
        SkipLeavesOut(s);
      case Receive(c) =>
        ReceiveTakesHead(s, c);
      case _ =>
    }
  }

  lemma SkipLeavesOut(s: State)
    requires Enabled(s, Skip)
    ensures |Jobs(s.queue)| < |Line(s)| && Line(Do(s, Skip)) == Sequences.Without(Line(s), |Jobs(s.queue)|)
  {
  }

  /** A consumer that takes a job takes the head of the line. */
  lemma ReceiveTakesHead(s: State, c: nat)
    requires Enabled(s, Receive(c))
    ensures var t := Do(s, Receive(c));
            if s.queue[0].Pill? then Line(t) == Line(s)
            else Line(s) != [] && t.consumers[c] == Busy(Line(s)[0]) && Line(t) == Sequences.Without(Line(s), 0)
  {
    assert [] + Jobs(s.queue[1..]) == Jobs(s.queue[1..]);
  }

  lemma {:induction false} RunKeepsLine(s: State, steps: seq<Step>, paths: seq<Path>)
    requires CanRun(s, steps) && IsSubsequence(Line(s), paths)
    ensures IsSubsequence(Line(Run(s, steps)), paths)
    decreases steps
  {
    if steps == [] {
    } else {
      StepKeepsLine(s, steps[0]);
      if !s.phase.Returned? {
        SendsSucceed(s);
      }
      if Line(Do(s, steps[0])) != Line(s) {
        var k :| 0 <= k < |Line(s)| && Line(Do(s, steps[0])) == Sequences.Without(Line(s), k);
        StillSubsequence(Line(s), paths, k);
      }
      RunKeepsLine(Do(s, steps[0]), steps[1..], paths);
    }
  }

  /** Under every interleaving the paths wait in the order of the file list: first in, first out. */
  lemma {:induction false} FirstInFirstOut(s: State, numJobs: nat, verifyPaths: bool, paths: seq<Path>)
    requires Reachable(s, numJobs, verifyPaths, paths)
    ensures IsSubsequence(Line(s), paths)
  {
    var start := Start(numJobs, verifyPaths, paths);
    var steps: seq<Step> :| CanRun(start, steps) && Run(start, steps) == s;
    assert Line(start) == paths;
    SubsequenceOfSelf(paths);
    RunKeepsLine(start, steps, paths);
  }
}
