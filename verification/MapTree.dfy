/** Mapping a tree bottom-up with a stack of half-built frames. */
module MapTree {
  import opened Sequences

  /** A recursive source tree: whatever a node holds, and its children. */
  datatype Tree<T> = Tree(value: T, children: seq<Tree<T>>)

  // ---------------------------------------------------------------- the recursion

  /** Convert the children, then build the node. */
  function Convert<T, D>(t: Tree<T>, build: (Tree<T>, seq<D>) -> D): (d: D)
  {
    build(t, Converted(t, build, |t.children|))
  }

  /** The first `k` children of `t`, converted. */
  function Converted<T, D>(t: Tree<T>, build: (Tree<T>, seq<D>) -> D, k: nat): (ds: seq<D>)
    requires k <= |t.children|
    ensures |ds| == k
    decreases t, 0, k
  {
    if k == 0 then [] else Converted(t, build, k - 1) + [Convert(t.children[k - 1], build)]
  }

  /** One call of `build`: at which node (a path of child indices from the root), and on what. */
  datatype Call<T, D> = Call(path: seq<nat>, node: Tree<T>, children: seq<D>)

  /** The calls that the recursion makes below and at the node `t` at `path`, in order. */
  ghost function Calls<T, D>(t: Tree<T>, build: (Tree<T>, seq<D>) -> D, path: seq<nat>): (calls: seq<Call<T, D>>)
    decreases t, |t.children| + 1
  {
    CallsBelow(t, build, path, |t.children|) + [Call(path, t, Converted(t, build, |t.children|))]
  }

  ghost function CallsBelow<T, D>(t: Tree<T>, build: (Tree<T>, seq<D>) -> D, path: seq<nat>, k: nat): (calls: seq<Call<T, D>>)
    requires k <= |t.children|
    decreases t, k
  {
    if k == 0 then [] else CallsBelow(t, build, path, k - 1) + Calls(t.children[k - 1], build, path + [k - 1])
  }

  // ---------------------------------------------------------------- what the recursion promises

  /** `path` leads to a node below or at `t`. */
  ghost predicate Leads<T>(t: Tree<T>, path: seq<nat>)
    decreases path
  {
    path == [] || (path[0] < |t.children| && Leads(t.children[path[0]], path[1..]))
  }

  ghost function At<T>(t: Tree<T>, path: seq<nat>): (node: Tree<T>)
    requires Leads(t, path)
    decreases path
  {
    if path == [] then t else At(t.children[path[0]], path[1..])
  }

  /** `calls` has one call for each node below or at `t`, which stands at `path`. */
  ghost predicate CoversNodes<T, D>(calls: seq<Call<T, D>>, t: Tree<T>, path: seq<nat>) {
    && (forall i | 0 <= i < |calls| :: path <= calls[i].path && Leads(t, calls[i].path[|path|..]))
    && (forall q | Leads(t, q) :: exists i :: 0 <= i < |calls| && calls[i].path == path + q)
  }

  /** No call's node is the node, or an ancestor of the node, of a later call. */
  ghost predicate DescendantsFirst<T, D>(calls: seq<Call<T, D>>) {
    forall i, j | 0 <= i < j < |calls| :: !(calls[i].path <= calls[j].path)
  }

  /** Each call gets its own node and that node's children as they were converted, in source order. */
  ghost predicate BuildsNodes<T, D>(calls: seq<Call<T, D>>, build: (Tree<T>, seq<D>) -> D, t: Tree<T>, path: seq<nat>) {
    forall i | 0 <= i < |calls| :: BuildsNode(calls[i], build, t, path)
  }

  ghost predicate BuildsNode<T, D>(call: Call<T, D>, build: (Tree<T>, seq<D>) -> D, t: Tree<T>, path: seq<nat>) {
    && path <= call.path && Leads(t, call.path[|path|..])
    && call.node == At(t, call.path[|path|..])
    && call.children == Converted(call.node, build, |call.node.children|)
  }

  /** What is converted is the conversion of each child, at the child's place. */
  lemma {:induction false} ConvertedAt<T, D>(t: Tree<T>, build: (Tree<T>, seq<D>) -> D, k: nat, i: nat)
    requires i < k <= |t.children|
    ensures Converted(t, build, k)[i] == Convert(t.children[i], build)
    decreases k
  {
    if i < k - 1 {
      ConvertedAt(t, build, k - 1, i);
    }
  }

  /** The call's node is below one of the first `k` children of the node at `path`. */
  ghost predicate IsBelow<T, D>(call: Call<T, D>, path: seq<nat>, k: nat) {
    |call.path| > |path| && call.path[|path|] < k
  }

  lemma ChildCall<T, D>(t: Tree<T>, build: (Tree<T>, seq<D>) -> D, path: seq<nat>, c: nat, call: Call<T, D>)
    requires c < |t.children| && BuildsNode(call, build, t.children[c], path + [c])
    ensures BuildsNode(call, build, t, path) && IsBelow(call, path, c + 1)
  {
    ChildPath(t, path, c, call.path);
    assert call.path[|path|] == (path + [c])[|path|];
  }

  /** The calls' nodes are all below the first `k` children of the node at `path`. */
  ghost predicate AreBelow<T, D>(calls: seq<Call<T, D>>, path: seq<nat>, k: nat) {
    forall i | 0 <= i < |calls| :: IsBelow(calls[i], path, k)
  }

  lemma ChildCalls<T, D>(t: Tree<T>, build: (Tree<T>, seq<D>) -> D, path: seq<nat>, c: nat, calls: seq<Call<T, D>>)
    requires c < |t.children| && BuildsNodes(calls, build, t.children[c], path + [c])
    ensures BuildsNodes(calls, build, t, path) && AreBelow(calls, path, c + 1)
  {
    forall i | 0 <= i < |calls| ensures BuildsNode(calls[i], build, t, path) && IsBelow(calls[i], path, c + 1) {
      ChildCall(t, build, path, c, calls[i]);
    }
  }

  lemma CallsConcat<T, D>(t: Tree<T>, build: (Tree<T>, seq<D>) -> D, path: seq<nat>, k: nat,
                          a: seq<Call<T, D>>, b: seq<Call<T, D>>)
    requires BuildsNodes(a, build, t, path) && AreBelow(a, path, k)
    requires BuildsNodes(b, build, t, path) && AreBelow(b, path, k + 1)
    ensures BuildsNodes(a + b, build, t, path) && AreBelow(a + b, path, k + 1)
  {
  }

  lemma ChildPath<T>(t: Tree<T>, path: seq<nat>, c: nat, p: seq<nat>)
    requires c < |t.children| && path + [c] <= p && Leads(t.children[c], p[|path| + 1..])
    ensures path <= p && Leads(t, p[|path|..])
    ensures At(t, p[|path|..]) == At(t.children[c], p[|path| + 1..])
  {
    var q := p[|path|..];
    assert q[0] == (path + [c])[|path|] == c && q[1..] == p[|path| + 1..];
  }

  lemma {:induction false} CallsBuild<T, D>(t: Tree<T>, build: (Tree<T>, seq<D>) -> D, path: seq<nat>)
    ensures BuildsNodes(Calls(t, build, path), build, t, path)
    decreases t, |t.children| + 1
  {
    CallsBelowBuild(t, build, path, |t.children|);
    assert path[|path|..] == [];
  }

  lemma {:induction false} CallsBelowBuild<T, D>(t: Tree<T>, build: (Tree<T>, seq<D>) -> D, path: seq<nat>, k: nat)
    requires k <= |t.children|
    ensures BuildsNodes(CallsBelow(t, build, path, k), build, t, path)
    ensures AreBelow(CallsBelow(t, build, path, k), path, k)
    decreases t, k
  {
    if k == 0 {
    } else {
      var c := k - 1;
      var first, last := CallsBelow(t, build, path, c), Calls(t.children[c], build, path + [c]);
      CallsBelowBuild(t, build, path, c);
      CallsBuild(t.children[c], build, path + [c]);
      ChildCalls(t, build, path, c, last);
      CallsConcat(t, build, path, c, first, last);
    }
  }

  lemma {:induction false} CallsOrder<T, D>(t: Tree<T>, build: (Tree<T>, seq<D>) -> D, path: seq<nat>)
    ensures DescendantsFirst(Calls(t, build, path))
    decreases t, |t.children| + 1
  {
    CallsBelowOrder(t, build, path, |t.children|);
    CallsBelowBuild(t, build, path, |t.children|);
  }

  lemma {:induction false} CallsBelowOrder<T, D>(t: Tree<T>, build: (Tree<T>, seq<D>) -> D, path: seq<nat>, k: nat)
    requires k <= |t.children|
    ensures DescendantsFirst(CallsBelow(t, build, path, k))
    decreases t, k
  {
    if k == 0 {
    } else {
      var c := k - 1;
      var first, last := CallsBelow(t, build, path, c), Calls(t.children[c], build, path + [c]);
      CallsBelowOrder(t, build, path, c);
      CallsBelowBuild(t, build, path, c);
      CallsOrder(t.children[c], build, path + [c]);
      CallsBuild(t.children[c], build, path + [c]);
      forall i, j | 0 <= i < |first| && 0 <= j < |last| ensures !(first[i].path <= last[j].path) {
        assert BuildsNode(last[j], build, t.children[c], path + [c]) && IsBelow(first[i], path, c);
        assert last[j].path[|path|] == (path + [c])[|path|];
      }
    }
  }

  /** Where in the recursion's calls the node at `path + q` has its call. */
  lemma {:induction false} CallOf<T, D>(t: Tree<T>, build: (Tree<T>, seq<D>) -> D, path: seq<nat>, q: seq<nat>) returns (i: nat)
    requires Leads(t, q)
    ensures i < |Calls(t, build, path)| && Calls(t, build, path)[i].path == path + q
    decreases q
  {
    if q == [] {
      i := |Calls(t, build, path)| - 1;
    } else {
      var j := CallOf(t.children[q[0]], build, path + [q[0]], q[1..]);
      i := CallBelow(t, build, path, |t.children|, q[0], j);
      assert path + [q[0]] + q[1..] == path + q;
    }
  }

  lemma {:induction false} CallBelow<T, D>(t: Tree<T>, build: (Tree<T>, seq<D>) -> D, path: seq<nat>, k: nat, c: nat, j: nat)
    returns (i: nat)
    requires c < k <= |t.children| && j < |Calls(t.children[c], build, path + [c])|
    ensures i < |CallsBelow(t, build, path, k)|
    ensures CallsBelow(t, build, path, k)[i] == Calls(t.children[c], build, path + [c])[j]
    decreases k
  {
    if c == k - 1 {
      i := |CallsBelow(t, build, path, k - 1)| + j;
    } else {
      i := CallBelow(t, build, path, k - 1, c, j);
    }
  }

  /** `build` runs exactly once per node, after all the node's children, on their conversions in source order. */
  lemma RecursionBuildsBottomUp<T, D>(root: Tree<T>, build: (Tree<T>, seq<D>) -> D)
    ensures var calls := Calls(root, build, []);
            CoversNodes(calls, root, []) && DescendantsFirst(calls) && BuildsNodes(calls, build, root, [])
  {
    var calls := Calls(root, build, []);
    CallsBuild(root, build, []);
    CallsOrder(root, build, []);
    forall q | Leads(root, q) ensures exists i :: 0 <= i < |calls| && calls[i].path == [] + q {
      var i := CallOf(root, build, [], q);
    }
  }

  // ---------------------------------------------------------------- the walk

  /** A half-built node: the fields of a frame as a value. */
  datatype Half<T, D> = Half(source: Tree<T>, nextChild: nat, children: seq<D>)

  /** One in-progress node of the walk. */
  class MapFrame<T, D> {
    const source: Tree<T>
    var nextChild: nat
    var children: seq<D>

    constructor (source: Tree<T>)
      ensures this.source == source && nextChild == 0 && children == []
    {
      this.source := source;
      nextChild := 0;
      children := [];
    }

    ghost function View(): (half: Half<T, D>)
      reads this
    {
      Half(source, nextChild, children)
    }
  }

  ghost function Views<T, D>(frames: seq<MapFrame<T, D>>): (halves: seq<Half<T, D>>)
    reads frames
    ensures |halves| == |frames|
    ensures forall i | 0 <= i < |frames| :: halves[i] == frames[i].View()
  {
    seq(|frames|, i requires 0 <= i < |frames| reads frames => frames[i].View())
  }

  /** A frame whose first `|children|` children are converted. */
  ghost predicate Building<T, D>(half: Half<T, D>, build: (Tree<T>, seq<D>) -> D) {
    |half.children| <= |half.source.children| && half.children == Converted(half.source, build, |half.children|)
  }

  ghost predicate AllBuilding<T, D>(halves: seq<Half<T, D>>, build: (Tree<T>, seq<D>) -> D) {
    forall i | 0 <= i < |halves| :: Building(halves[i], build)
  }

  lemma BuildingSnoc<T, D>(halves: seq<Half<T, D>>, last: Half<T, D>, build: (Tree<T>, seq<D>) -> D)
    requires AllBuilding(halves, build) && Building(last, build)
    ensures AllBuilding(halves + [last], build)
  {
  }

  /** `child` is the frame of the child of `parent` that comes next. */
  ghost predicate Inside<T, D>(parent: Half<T, D>, child: Half<T, D>) {
    && parent.nextChild == |parent.children| + 1 <= |parent.source.children|
    && child.source == parent.source.children[|parent.children|]
  }

  /**
   * The frames from the root's down: each but the last has pushed one child more than it has converted, and that
   * child is the next frame.
   */
  ghost predicate HalfBuilt<T, D>(halves: seq<Half<T, D>>, build: (Tree<T>, seq<D>) -> D) {
    && halves != []
    && AllBuilding(halves, build)
    && (forall i | 0 <= i < |halves| - 1 :: Inside(halves[i], halves[i + 1]))
    && halves[|halves| - 1].nextChild == |halves[|halves| - 1].children|
  }

  /** The calls made once the frames look like this, the first of them standing at `path`. */
  ghost function Made<T, D>(halves: seq<Half<T, D>>, build: (Tree<T>, seq<D>) -> D, path: seq<nat>): (calls: seq<Call<T, D>>)
    requires AllBuilding(halves, build)
    decreases |halves|
  {
    if halves == [] then []
    else
      var done := |halves[0].children|;
      assert Building(halves[0], build);
      CallsBelow(halves[0].source, build, path, done) + Made(halves[1..], build, path + [done])
  }

  /** The node of the last frame. */
  ghost function PathOf<T, D>(halves: seq<Half<T, D>>): (path: seq<nat>)
  {
    seq(|halves|, (i: nat) requires i < |halves| => |halves[i].children|)
  }

  lemma {:induction false} MadeSnoc<T, D>(halves: seq<Half<T, D>>, last: Half<T, D>, build: (Tree<T>, seq<D>) -> D, path: seq<nat>)
    requires Building(last, build) && AllBuilding(halves, build)
    ensures Made(halves + [last], build, path)
         == Made(halves, build, path) + CallsBelow(last.source, build, path + PathOf(halves), |last.children|)
    decreases |halves|
  {
    if halves == [] {
      assert path + PathOf(halves) == path;
      assert ([last])[1..] == [];
      assert halves + [last] == [last];
    } else {
      var done := |halves[0].children|;
      MadeSnoc(halves[1..], last, build, path + [done]);
      assert (halves + [last])[1..] == halves[1..] + [last];
      assert path + [done] + PathOf(halves[1..]) == path + PathOf(halves);
    }
  }

  // ---------------------------------------------------------------- the measure

  ghost function Size<T>(t: Tree<T>): (n: nat)
    ensures n >= 1
    decreases t, |t.children| + 1
  {
    1 + SizeFrom(t, 0)
  }

  /** Nodes in the children of `t` from the `k`-th on. */
  ghost function SizeFrom<T>(t: Tree<T>, k: nat): (n: nat)
    decreases t, |t.children| - k
  {
    if k >= |t.children| then 0 else Size(t.children[k]) + SizeFrom(t, k + 1)
  }

  /** Nodes no frame was made for yet. */
  ghost function Unvisited<T, D>(halves: seq<Half<T, D>>): (n: nat)
  {
    if halves == [] then 0
    else
      var last := halves[|halves| - 1];
      Unvisited(halves[..|halves| - 1]) + SizeFrom(last.source, last.nextChild)
  }

  /** Every turn pushes an unvisited node or pops a frame. */
  ghost function Measure<T, D>(halves: seq<Half<T, D>>): (n: nat)
  {
    2 * Unvisited(halves) + |halves|
  }

  lemma NextChildFits<T, D>(halves: seq<Half<T, D>>, build: (Tree<T>, seq<D>) -> D)
    requires HalfBuilt(halves, build)
    ensures forall i | 0 <= i < |halves| :: halves[i].nextChild <= |halves[i].source.children|
  {
    forall i | 0 <= i < |halves| ensures halves[i].nextChild <= |halves[i].source.children| {
      if i < |halves| - 1 {
        assert Inside(halves[i], halves[i + 1]);
      }
    }
  }

  // ---------------------------------------------------------------- the turns

  /** A new frame for the next child. */
  ghost function Next<T, D>(top: Half<T, D>): (child: Half<T, D>)
    requires top.nextChild < |top.source.children|
  {
    Half(top.source.children[top.nextChild], 0, [])
  }

  /** Pushing a frame for the next child. */
  lemma PushKeeps<T, D>(outer: seq<Half<T, D>>, top: Half<T, D>, build: (Tree<T>, seq<D>) -> D)
    requires HalfBuilt(outer + [top], build) && top.nextChild < |top.source.children|
    ensures var child := Next(top);
            var after := outer + [top.(nextChild := top.nextChild + 1), child];
            && HalfBuilt(after, build)
            && Made(after, build, []) == Made(outer + [top], build, [])
            && Measure(after) < Measure(outer + [top])
  {
    var child := Next(top);
    var top' := top.(nextChild := top.nextChild + 1);
    var before, after := outer + [top], outer + [top', child];
    PushHalfBuilt(outer, top, build);
    assert forall i | 0 <= i < |outer| :: outer[i] == before[i] && Building(before[i], build);
    MadeFromRoot(outer, top, build);
    MadeFromRoot(outer, top', build);
    assert after == (outer + [top']) + [child];
    MadeFromRoot(outer + [top'], child, build);
    PushMeasure(outer, top);
  }

  lemma PushHalfBuilt<T, D>(outer: seq<Half<T, D>>, top: Half<T, D>, build: (Tree<T>, seq<D>) -> D)
    requires HalfBuilt(outer + [top], build) && top.nextChild < |top.source.children|
    ensures HalfBuilt(outer + [top.(nextChild := top.nextChild + 1), Next(top)], build)
  {
    var child := Next(top);
    var top' := top.(nextChild := top.nextChild + 1);
    var before, after := outer + [top], outer + [top', child];
    assert before[|outer|] == top && Building(top, build);
    forall i | 0 <= i < |after| ensures Building(after[i], build) {
      if i < |outer| {
        assert Building(before[i], build);
      }
    }
    forall i | 0 <= i < |after| - 1 ensures Inside(after[i], after[i + 1]) {
      if i < |outer| {
        assert Inside(before[i], before[i + 1]);
      }
    }
  }

  lemma PushMeasure<T, D>(outer: seq<Half<T, D>>, top: Half<T, D>)
    requires top.nextChild < |top.source.children|
    ensures Measure(outer + [top.(nextChild := top.nextChild + 1), Next(top)]) < Measure(outer + [top])
  {
    var child := Next(top);
    var top' := top.(nextChild := top.nextChild + 1);
    var before, after := outer + [top], outer + [top', child];
    assert before[..|outer|] == outer;
    assert after[..|outer| + 1] == outer + [top'] && (outer + [top'])[..|outer|] == outer;
    assert Unvisited(after) == Unvisited(outer + [top']) + SizeFrom(child.source, 0);
    assert Unvisited(outer + [top']) == Unvisited(outer) + SizeFrom(top.source, top.nextChild + 1);
    assert Unvisited(before) == Unvisited(outer) + SizeFrom(top.source, top.nextChild);
    assert Size(child.source) == 1 + SizeFrom(child.source, 0);
  }

  /** Popping a finished frame and depositing what it builds in its parent. */
  lemma PopKeeps<T, D>(outer: seq<Half<T, D>>, parent: Half<T, D>, done: Half<T, D>, build: (Tree<T>, seq<D>) -> D)
    requires HalfBuilt(outer + [parent, done], build) && done.nextChild == |done.source.children|
    ensures var built := build(done.source, done.children);
            var before := outer + [parent, done];
            var after := outer + [parent.(children := parent.children + [built])];
            && HalfBuilt(after, build)
            && Made(after, build, []) == Made(before, build, []) + [Call(PathOf(outer + [parent]), done.source, done.children)]
            && Measure(after) < Measure(before)
  {
    var parent' := parent.(children := parent.children + [build(done.source, done.children)]);
    var before, after := outer + [parent, done], outer + [parent'];
    PopHalfBuilt(outer, parent, done, build);
    PopMade(outer, parent, done, build);
    assert before[..|outer| + 1] == outer + [parent] && (outer + [parent])[..|outer|] == outer;
    assert after[..|outer|] == outer;
    assert Unvisited(before) == Unvisited(outer + [parent]) + SizeFrom(done.source, done.nextChild);
  }

  lemma PopHalfBuilt<T, D>(outer: seq<Half<T, D>>, parent: Half<T, D>, done: Half<T, D>, build: (Tree<T>, seq<D>) -> D)
    requires HalfBuilt(outer + [parent, done], build) && done.nextChild == |done.source.children|
    ensures HalfBuilt(outer + [parent.(children := parent.children + [build(done.source, done.children)])], build)
  {
    var parent' := parent.(children := parent.children + [build(done.source, done.children)]);
    var before, after := outer + [parent, done], outer + [parent'];
    assert before[|outer|] == parent && before[|outer| + 1] == done;
    assert Building(parent, build) && Building(done, build) && Inside(parent, done);
    forall i | 0 <= i < |after| ensures Building(after[i], build) {
      if i < |outer| {
        assert Building(before[i], build);
      }
    }
    forall i | 0 <= i < |after| - 1 ensures Inside(after[i], after[i + 1]) {
      assert Inside(before[i], before[i + 1]);
    }
  }

  lemma PopMade<T, D>(outer: seq<Half<T, D>>, parent: Half<T, D>, done: Half<T, D>, build: (Tree<T>, seq<D>) -> D)
    requires HalfBuilt(outer + [parent, done], build) && done.nextChild == |done.source.children|
    requires HalfBuilt(outer + [parent.(children := parent.children + [build(done.source, done.children)])], build)
    ensures Made(outer + [parent.(children := parent.children + [build(done.source, done.children)])], build, [])
         == Made(outer + [parent, done], build, []) + [Call(PathOf(outer + [parent]), done.source, done.children)]
  {
    var before := outer + [parent, done];
    assert before[|outer|] == parent && before[|outer| + 1] == done;
    assert Building(parent, build) && Building(done, build) && Inside(parent, done);
    forall i | 0 <= i < |outer| ensures Building(outer[i], build) {
      assert Building(before[i], build);
    }
    PopCalls(outer, parent, done, build);
  }

  lemma CallsUnder<T, D>(outer: seq<Half<T, D>>, parent: Half<T, D>, done: Half<T, D>, build: (Tree<T>, seq<D>) -> D)
    requires AllBuilding(outer, build)
    requires Building(parent, build) && Building(done, build)
    ensures var k := |parent.children|;
            AllBuilding(outer + [parent, done], build) &&
            (Made(outer + [parent, done], build, [])
             == Made(outer, build, []) + CallsBelow(parent.source, build, PathOf(outer), k)
                + CallsBelow(done.source, build, PathOf(outer) + [k], |done.children|))
  {
    PathOfSnoc(outer, parent);
    BuildingSnoc(outer, parent, build);
    BuildingSnoc(outer + [parent], done, build);
    MadeFromRoot(outer, parent, build);
    MadeFromRoot(outer + [parent], done, build);
    assert outer + [parent, done] == (outer + [parent]) + [done];
  }

  lemma Converts<T, D>(parent: Half<T, D>, done: Half<T, D>, build: (Tree<T>, seq<D>) -> D)
    requires Building(parent, build) && Building(done, build) && Inside(parent, done)
    requires |done.children| == |done.source.children|
    ensures Building(parent.(children := parent.children + [build(done.source, done.children)]), build)
  {
  }

  lemma PopCalls<T, D>(outer: seq<Half<T, D>>, parent: Half<T, D>, done: Half<T, D>, build: (Tree<T>, seq<D>) -> D)
    requires AllBuilding(outer, build)
    requires Building(parent, build) && Building(done, build) && Inside(parent, done)
    requires |done.children| == |done.source.children|
    ensures var parent' := parent.(children := parent.children + [build(done.source, done.children)]);
            AllBuilding(outer + [parent'], build) && AllBuilding(outer + [parent, done], build) &&
            (Made(outer + [parent'], build, [])
             == Made(outer + [parent, done], build, []) + [Call(PathOf(outer + [parent]), done.source, done.children)])
  {
    var parent' := parent.(children := parent.children + [build(done.source, done.children)]);
    var k, path := |parent.children|, PathOf(outer);
    Converts(parent, done, build);
    CallsUnder(outer, parent, done, build);
    BuildingSnoc(outer, parent', build);
    MadeFromRoot(outer, parent', build);
    CallsOfChild(parent.source, build, path, k);
    PathOfSnoc(outer, parent);
    LastOfFour(Made(outer, build, []), CallsBelow(parent.source, build, path, k),
               CallsBelow(done.source, build, path + [k], |done.children|), [Call(path + [k], done.source, done.children)]);
  }

  lemma LastOfFour<X>(a: seq<X>, b: seq<X>, c: seq<X>, d: seq<X>)
    ensures a + (b + (c + d)) == a + b + c + d
  {
    Regroup(a, b, c + d);
    Regroup(a + b, c, d);
  }

  /** The calls of the `k`-th child come next. */
  lemma CallsOfChild<T, D>(t: Tree<T>, build: (Tree<T>, seq<D>) -> D, path: seq<nat>, k: nat)
    requires k < |t.children|
    ensures var child, p := t.children[k], path + [k];
            (CallsBelow(t, build, path, k + 1)
             == CallsBelow(t, build, path, k)
                + (CallsBelow(child, build, p, |child.children|) + [Call(p, child, Converted(child, build, |child.children|))]))
  {
  }

  lemma MadeFromRoot<T, D>(halves: seq<Half<T, D>>, last: Half<T, D>, build: (Tree<T>, seq<D>) -> D)
    requires Building(last, build) && AllBuilding(halves, build)
    ensures Made(halves + [last], build, [])
         == Made(halves, build, []) + CallsBelow(last.source, build, PathOf(halves), |last.children|)
  {
    MadeSnoc(halves, last, build, []);
    assert [] + PathOf(halves) == PathOf(halves);
  }

  lemma PathOfSnoc<T, D>(halves: seq<Half<T, D>>, last: Half<T, D>)
    ensures PathOf(halves + [last]) == PathOf(halves) + [|last.children|]
  {
  }

  /** Only the root's frame is left and it is full. */
  lemma FinishedRoot<T, D>(root: Half<T, D>, build: (Tree<T>, seq<D>) -> D)
    requires HalfBuilt([root], build) && root.nextChild == |root.source.children|
    ensures build(root.source, root.children) == Convert(root.source, build)
    ensures Made([root], build, []) + [Call([], root.source, root.children)] == Calls(root.source, build, [])
  {
    assert Building([root][0], build);
    MadeSnoc([], root, build, []);
    assert [] + [root] == [root];
    assert [] + PathOf<T, D>([]) == [];
  }

  // ---------------------------------------------------------------- the loop

  ghost predicate Different<T, D>(frames: seq<MapFrame<T, D>>) {
    forall i, j | 0 <= i < j < |frames| :: frames[i] != frames[j]
  }

  /** The walk so far: half-built frames, and the calls made. */
  ghost predicate Walking<T, D>(frames: seq<MapFrame<T, D>>, build: (Tree<T>, seq<D>) -> D, calls: seq<Call<T, D>>)
    reads frames
  {
    && Different(frames)
    && HalfBuilt(Views(frames), build)
    && calls == Made(Views(frames), build, [])
  }

  lemma ViewsTwo<T, D>(outer: seq<MapFrame<T, D>>, under: MapFrame<T, D>, top: MapFrame<T, D>)
    ensures Views(outer + [under, top]) == Views(outer) + [under.View(), top.View()]
  {
  }

  lemma ViewsSnoc<T, D>(outer: seq<MapFrame<T, D>>, top: MapFrame<T, D>)
    ensures Views(outer + [top]) == Views(outer) + [top.View()]
  {
  }

  lemma DifferentSnoc<T, D>(frames: seq<MapFrame<T, D>>, top: MapFrame<T, D>)
    requires Different(frames) && top !in frames
    ensures Different(frames + [top])
  {
  }

  /** A walk whose last two frames are known. */
  lemma WalksWithTwo<T, D>(outer: seq<MapFrame<T, D>>, under: MapFrame<T, D>, top: MapFrame<T, D>, halves: seq<Half<T, D>>,
                           build: (Tree<T>, seq<D>) -> D, calls: seq<Call<T, D>>)
    requires Different(outer + [under]) && top !in outer + [under]
    requires halves == Views(outer) + [under.View(), top.View()]
    requires HalfBuilt(halves, build) && calls == Made(halves, build, [])
    ensures Views(outer + [under] + [top]) == halves
    ensures Walking(outer + [under] + [top], build, calls)
  {
    ViewsTwo(outer, under, top);
    assert outer + [under] + [top] == outer + [under, top];
    DifferentSnoc(outer + [under], top);
  }

  /** One turn: the last frame gets a frame for its next child on top. */
  method Push<T, D>(ghost frames: seq<MapFrame<T, D>>, frame: MapFrame<T, D>,
                    ghost build: (Tree<T>, seq<D>) -> D, ghost calls: seq<Call<T, D>>)
    returns (pushed: MapFrame<T, D>)
    requires Walking(frames, build, calls) && frame == frames[|frames| - 1]
    requires frame.nextChild < |frame.source.children|
    modifies frame
    ensures fresh(pushed) && Walking(frames + [pushed], build, calls)
    ensures Measure(Views(frames + [pushed])) < old(Measure(Views(frames)))
  {
    ghost var before, top, outer := Views(frames), frame.View(), frames[..|frames| - 1];
    assert frames == outer + [frame];
    ViewsSnoc(outer, frame);
    PushKeeps(Views(outer), top, build);
    var child := frame.source.children[frame.nextChild];
    frame.nextChild := frame.nextChild + 1;
    pushed := new MapFrame<T, D>(child);
    assert frame.View() == top.(nextChild := top.nextChild + 1) && pushed.View() == Next(top);
    WalksWithTwo(outer, frame, pushed, Views(outer) + [frame.View(), pushed.View()], build, calls);
  }

  /** The other: the last frame is full, and what it builds goes to its parent. */
  method Fold<T, D>(ghost frames: seq<MapFrame<T, D>>, parent: MapFrame<T, D>, done: MapFrame<T, D>,
                    build: (Tree<T>, seq<D>) -> D, ghost calls: seq<Call<T, D>>)
    returns (ghost made: seq<Call<T, D>>)
    requires Walking(frames, build, calls) && |frames| >= 2
    requires parent == frames[|frames| - 2] && done == frames[|frames| - 1] && done.nextChild == |done.source.children|
    modifies parent
    ensures Walking(frames[..|frames| - 1], build, made)
    ensures made == calls + [Call(old(PathOf(Views(frames[..|frames| - 1]))), done.source, old(done.children))]
    ensures Measure(Views(frames[..|frames| - 1])) < old(Measure(Views(frames)))
  {
    ghost var before, outer := Views(frames), frames[..|frames| - 2];
    ghost var under := Views(outer);
    ghost var p, d := parent.View(), done.View();
    assert before == under + [p, d];
    PopKeeps(under, p, d, build);
    assert Views(frames[..|frames| - 1]) == under + [p];
    made := calls + [Call(PathOf(under + [p]), done.source, done.children)];
    var converted := build(done.source, done.children);
    parent.children := parent.children + [converted];
    assert parent.View() == p.(children := p.children + [build(d.source, d.children)]);
    assert Views(frames[..|frames| - 1]) == under + [parent.View()];
  }

  /** The frame being worked on: the last on the stack, or the root's when the stack is empty. */
  function Last<T, D>(rootFrame: MapFrame<T, D>, descendants: seq<MapFrame<T, D>>): (frame: MapFrame<T, D>)
    ensures frame == ([rootFrame] + descendants)[|descendants|]
  {
    if descendants != [] then descendants[|descendants| - 1] else rootFrame
  }

  /** The walk so far, the root's frame being kept off the stack. */
  ghost predicate Walks<T, D>(rootFrame: MapFrame<T, D>, descendants: seq<MapFrame<T, D>>,
                              build: (Tree<T>, seq<D>) -> D, calls: seq<Call<T, D>>)
    reads rootFrame, descendants
  {
    Walking([rootFrame] + descendants, build, calls)
  }

  /** Turns still to come, at most. */
  ghost function Left<T, D>(rootFrame: MapFrame<T, D>, descendants: seq<MapFrame<T, D>>): (n: nat)
    reads rootFrame, descendants
  {
    Measure(Views([rootFrame] + descendants))
  }

  /** One turn of the loop; `finished` when only the root's frame is left and it is full. */
  method Turn<T, D>(rootFrame: MapFrame<T, D>, descendants: seq<MapFrame<T, D>>,
                    build: (Tree<T>, seq<D>) -> D, ghost calls: seq<Call<T, D>>)
    returns (stack: seq<MapFrame<T, D>>, finished: bool, ghost made: seq<Call<T, D>>)
    requires Walks(rootFrame, descendants, build, calls)
    modifies rootFrame, descendants
    ensures forall i | 0 <= i < |stack| :: stack[i] in descendants || fresh(stack[i])
    ensures Walks(rootFrame, stack, build, made)
    ensures if finished then stack == [] && rootFrame.nextChild == |rootFrame.source.children|
            else Left(rootFrame, stack) < old(Left(rootFrame, descendants))
  {
    var frame := Last(rootFrame, descendants);
    ghost var frames := [rootFrame] + descendants;
    stack, finished, made := descendants, false, calls;
    if frame.nextChild < |frame.source.children| {
      var pushed := Push(frames, frame, build, calls);
      stack := descendants + [pushed];
      assert [rootFrame] + stack == frames + [pushed];
    } else {
      LastIsFull(frames, build);
      if descendants == [] {
        finished := true;
      } else {
        stack := descendants[..|descendants| - 1];
        assert [rootFrame] + stack == frames[..|frames| - 1];
        made := Fold(frames, Last(rootFrame, stack), frame, build, calls);
      }
    }
  }

  /** `map_tree`: the result and the calls of `build`, in order, are those of the recursion. */
  method MapTree<T, D>(root: Tree<T>, build: (Tree<T>, seq<D>) -> D) returns (result: D, ghost calls: seq<Call<T, D>>)
    ensures result == Convert(root, build)
    ensures calls == Calls(root, build, [])
  {
    var rootFrame := new MapFrame<T, D>(root);
    var descendants: seq<MapFrame<T, D>> := [];
    var finished := false;
    calls := [];
    StartWalks(rootFrame, build);
    while !finished
      invariant fresh(rootFrame) && forall i | 0 <= i < |descendants| :: fresh(descendants[i])
      invariant Walks(rootFrame, descendants, build, calls)
      invariant finished ==> descendants == [] && rootFrame.nextChild == |root.children|
      decreases !finished, Left(rootFrame, descendants)
    {
      descendants, finished, calls := Turn(rootFrame, descendants, build, calls);
    }
    WalkEnds(rootFrame, build, calls);
    calls := calls + [Call([], rootFrame.source, rootFrame.children)];
    result := build(rootFrame.source, rootFrame.children);
  }

  lemma StartWalks<T, D>(rootFrame: MapFrame<T, D>, build: (Tree<T>, seq<D>) -> D)
    requires rootFrame.nextChild == 0 && rootFrame.children == []
    ensures Walks(rootFrame, [], build, [])
  {
    var half := rootFrame.View();
    assert Views([rootFrame] + []) == [] + [half];
    MadeSnoc([], half, build, []);
  }

  lemma WalkEnds<T, D>(rootFrame: MapFrame<T, D>, build: (Tree<T>, seq<D>) -> D, calls: seq<Call<T, D>>)
    requires Walks(rootFrame, [], build, calls) && rootFrame.nextChild == |rootFrame.source.children|
    ensures build(rootFrame.source, rootFrame.children) == Convert(rootFrame.source, build)
    ensures calls + [Call([], rootFrame.source, rootFrame.children)] == Calls(rootFrame.source, build, [])
  {
    assert Views([rootFrame] + []) == [rootFrame.View()];
    FinishedRoot(rootFrame.View(), build);
  }

  lemma LastIsFull<T, D>(frames: seq<MapFrame<T, D>>, build: (Tree<T>, seq<D>) -> D)
    requires HalfBuilt(Views(frames), build)
    ensures frames[|frames| - 1].nextChild <= |frames[|frames| - 1].source.children|
  {
    NextChildFits(Views(frames), build);
    assert Views(frames)[|frames| - 1] == frames[|frames| - 1].View();
  }
}
