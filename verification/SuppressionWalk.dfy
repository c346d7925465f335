/** The audit's explicit-stack walk. */
module SuppressionWalk {
  import opened Wrappers
  import opened Sequences
  import opened Sorting
  import opened SuppressionAudit
  import opened AuditContents

  /** A node to visit, the function name it inherits, and its depth, which indexes the chain. */
  datatype Frame = Frame(node: Node, enclosing: Option<string>, depth: nat)

  /** The chain down to a depth: what truncating leaves. */
  function Down(chain: seq<Node>, depth: nat): (path: seq<Node>)
  {
    if depth <= |chain| then chain[..depth] else chain
  }

  lemma DownDown(chain: seq<Node>, d: nat, e: nat)
    requires d <= e
    ensures Down(Down(chain, e), d) == Down(chain, d)
  {
  }

  lemma DownPushed(path: seq<Node>, node: Node, d: nat)
    requires d <= |path|
    ensures Down(path + [node], d) == Down(path, d)
  {
  }

  /** The frames to come stand below nodes of the chain, the deepest on top. */
  ghost predicate OnChain(g: Audit, stack: seq<Frame>, chain: seq<Node>) {
    && (forall i | 0 <= i < |stack| ::
          stack[i].depth <= |chain| && stack[i].enclosing == Enclosing(g, Down(chain, stack[i].depth)))
    && (forall i, j | 0 <= i < j < |stack| :: stack[i].depth <= stack[j].depth)
  }

  /** The markers still to be met. */
  ghost function ToCome(g: Audit, stack: seq<Frame>, chain: seq<Node>): (ms: seq<Marker>)
  {
    if stack == [] then []
    else
      var top := stack[|stack| - 1];
      Mirrored(g, Down(chain, top.depth), top.node) + ToCome(g, stack[..|stack| - 1], chain)
  }

  lemma ToComeSnoc(g: Audit, stack: seq<Frame>, top: Frame, chain: seq<Node>)
    ensures ToCome(g, stack + [top], chain) == Mirrored(g, Down(chain, top.depth), top.node) + ToCome(g, stack, chain)
  {
    assert (stack + [top])[..|stack|] == stack;
  }

  /** Going down the chain and a step aside changes nothing for the frames that are no deeper. */
  lemma {:induction false} ToComeAside(g: Audit, stack: seq<Frame>, chain: seq<Node>, depth: nat, node: Node)
    requires depth <= |chain| && forall i | 0 <= i < |stack| :: stack[i].depth <= depth
    ensures ToCome(g, stack, Down(chain, depth) + [node]) == ToCome(g, stack, chain)
  {
    if stack == [] {
    } else {
      var d := stack[|stack| - 1].depth;
      ToComeAside(g, stack[..|stack| - 1], chain, depth, node);
      DownPushed(Down(chain, depth), node, d);
      DownDown(chain, d, depth);
    }
  }

  function Children(node: Node, enclosing: Option<string>, depth: nat, k: nat): (frames: seq<Frame>)
    requires k <= |node.children|
    ensures |frames| == k
    ensures forall i | 0 <= i < k :: frames[i] == Frame(node.children[i], enclosing, depth)
  {
    seq(k, (i: nat) requires i < k => Frame(node.children[i], enclosing, depth))
  }

  lemma ChildrenSnoc(node: Node, enclosing: Option<string>, depth: nat, k: nat)
    requires 0 < k <= |node.children|
    ensures Children(node, enclosing, depth, k)
         == Children(node, enclosing, depth, k - 1) + [Frame(node.children[k - 1], enclosing, depth)]
  {
  }

  /** The pushed children are met from the last to the first. */
  lemma {:induction false} PushedToCome(g: Audit, rest: seq<Frame>, path: seq<Node>, node: Node, enclosing: Option<string>, k: nat)
    requires k <= |node.children|
    ensures ToCome(g, rest + Children(node, enclosing, |path| + 1, k), path + [node])
         == MirroredBelow(g, path, node, k) + ToCome(g, rest, path + [node])
  {
    if k == 0 {
      NothingPushed(g, rest, path + [node]);
      assert Children(node, enclosing, |path| + 1, k) == [];
    } else {
      PushedToCome(g, rest, path, node, enclosing, k - 1);
      var fewer, last := Children(node, enclosing, |path| + 1, k - 1), Frame(node.children[k - 1], enclosing, |path| + 1);
      ChildrenSnoc(node, enclosing, |path| + 1, k);
      Regroup(rest, fewer, [last]);
      OneMoreToCome(g, rest + fewer, last, path + [node], MirroredBelow(g, path, node, k - 1), ToCome(g, rest, path + [node]));
    }
  }

  lemma NothingPushed(g: Audit, rest: seq<Frame>, chain: seq<Node>)
    ensures ToCome(g, rest + [], chain) == [] + ToCome(g, rest, chain)
  {
    assert rest + [] == rest;
  }

  lemma OneMoreToCome(g: Audit, stack: seq<Frame>, top: Frame, chain: seq<Node>, below: seq<Marker>, after: seq<Marker>)
    requires ToCome(g, stack, chain) == below + after && top.depth == |chain|
    ensures ToCome(g, stack + [top], chain) == (Mirrored(g, chain, top.node) + below) + after
  {
    assert Down(chain, top.depth) == chain;
    ToComeSnoc(g, stack, top, chain);
    Regroup(Mirrored(g, chain, top.node), below, after);
  }

  ghost function Nodes(node: Node): (n: nat)
    ensures n >= 1
    decreases node, |node.children| + 1
  {
    1 + NodesBelow(node, |node.children|)
  }

  ghost function NodesBelow(node: Node, k: nat): (n: nat)
    requires k <= |node.children|
    decreases node, k
  {
    if k == 0 then 0 else NodesBelow(node, k - 1) + Nodes(node.children[k - 1])
  }

  ghost function NodesToCome(stack: seq<Frame>): (n: nat)
  {
    if stack == [] then 0 else NodesToCome(stack[..|stack| - 1]) + Nodes(stack[|stack| - 1].node)
  }

  lemma {:induction false} NodesPushed(rest: seq<Frame>, node: Node, enclosing: Option<string>, depth: nat, k: nat)
    requires k <= |node.children|
    ensures NodesToCome(rest + Children(node, enclosing, depth, k)) == NodesToCome(rest) + NodesBelow(node, k)
  {
    var pushed := Children(node, enclosing, depth, k);
    if k == 0 {
      assert rest + pushed == rest;
    } else {
      var fewer, last := Children(node, enclosing, depth, k - 1), Frame(node.children[k - 1], enclosing, depth);
      NodesPushed(rest, node, enclosing, depth, k - 1);
      ChildrenSnoc(node, enclosing, depth, k);
      Regroup(rest, fewer, [last]);
      NodesToComeSnoc(rest + fewer, last);
    }
  }

  lemma NodesToComeSnoc(stack: seq<Frame>, top: Frame)
    ensures NodesToCome(stack + [top]) == NodesToCome(stack) + Nodes(top.node)
  {
    assert (stack + [top])[..|stack|] == stack;
  }

  /** The function name that the children of a frame's node inherit. */
  function Inside(g: Audit, path: seq<Node>, top: Frame): (name: Option<string>)
  {
    if NameGiven(g, path, top.node).Some? then NameGiven(g, path, top.node) else top.enclosing
  }

  lemma InsideIsEnclosing(g: Audit, path: seq<Node>, top: Frame)
    requires top.enclosing == Enclosing(g, path)
    ensures Inside(g, path, top) == Enclosing(g, path + [top.node])
  {
    assert (path + [top.node])[..|path|] == path;
  }

  /** The stack after the visit of its top frame, the chain then being `path` and the frame's node. */
  function Visited(g: Audit, rest: seq<Frame>, top: Frame, path: seq<Node>): (stack: seq<Frame>)
  {
    rest + Children(top.node, Inside(g, path, top), |path| + 1, |top.node.children|)
  }

  lemma StaysOnChain(chain: seq<Node>, d: nat, top: Frame)
    requires d <= top.depth <= |chain|
    ensures Down(Down(chain, top.depth) + [top.node], d) == Down(chain, d)
  {
    DownPushed(Down(chain, top.depth), top.node, d);
    DownDown(chain, d, top.depth);
  }

  lemma VisitKeepsChain(g: Audit, rest: seq<Frame>, top: Frame, chain: seq<Node>)
    requires OnChain(g, rest + [top], chain)
    ensures OnChain(g, Visited(g, rest, top, Down(chain, top.depth)), Down(chain, top.depth) + [top.node])
  {
    var stack, path := rest + [top], Down(chain, top.depth);
    assert stack[|rest|] == top;
    InsideIsEnclosing(g, path, top);
    assert Down(path + [top.node], |path| + 1) == path + [top.node];
    forall i | 0 <= i < |rest|
      ensures rest[i].depth <= top.depth && rest[i].enclosing == Enclosing(g, Down(path + [top.node], rest[i].depth))
    {
      assert stack[i] == rest[i];
      StaysOnChain(chain, rest[i].depth, top);
    }
    assert forall i, j | 0 <= i < j < |rest| :: stack[i] == rest[i] && stack[j] == rest[j] && rest[i].depth <= rest[j].depth;
  }

  /** A visit meets the node's marker; then its children are to come in its place. */
  lemma VisitMeetsMarker(g: Audit, rest: seq<Frame>, top: Frame, chain: seq<Node>)
    requires OnChain(g, rest + [top], chain)
    ensures var path := Down(chain, top.depth);
            (ToCome(g, rest + [top], chain)
             == Listed(g.markerAt(top.node, top.enclosing)) + ToCome(g, Visited(g, rest, top, path), path + [top.node]))
  {
    var stack, path := rest + [top], Down(chain, top.depth);
    assert stack[|rest|] == top;
    forall i | 0 <= i < |rest| ensures rest[i].depth <= top.depth {
      assert stack[i] == rest[i];
    }
    ToComeSnoc(g, rest, top, chain);
    PushedToCome(g, rest, path, top.node, Inside(g, path, top), |top.node.children|);
    ToComeAside(g, rest, chain, top.depth, top.node);
    Regroup(Listed(g.markerAt(top.node, top.enclosing)), MirroredBelow(g, path, top.node, |top.node.children|),
            ToCome(g, rest, chain));
  }

  lemma VisitShrinks(g: Audit, rest: seq<Frame>, top: Frame, path: seq<Node>)
    ensures NodesToCome(Visited(g, rest, top, path)) < NodesToCome(rest + [top])
  {
    NodesToComeSnoc(rest, top);
    NodesPushed(rest, top.node, Inside(g, path, top), |path| + 1, |top.node.children|);
  }

  /** The walk so far. */
  ghost predicate Walking(g: Audit, root: Node, markers: seq<Marker>, stack: seq<Frame>, chain: seq<Node>) {
    OnChain(g, stack, chain) && markers + ToCome(g, stack, chain) == Mirrored(g, [], root)
  }

  lemma VisitKeepsWalking(g: Audit, root: Node, markers: seq<Marker>, rest: seq<Frame>, top: Frame, chain: seq<Node>)
    requires Walking(g, root, markers, rest + [top], chain)
    ensures top.depth <= |chain|
    ensures var path := Down(chain, top.depth);
            Walking(g, root, markers + Listed(g.markerAt(top.node, top.enclosing)), Visited(g, rest, top, path),
                    path + [top.node])
  {
    assert (rest + [top])[|rest|] == top;
    VisitKeepsChain(g, rest, top, chain);
    VisitMeetsMarker(g, rest, top, chain);
    var path := Down(chain, top.depth);
    Regroup(markers, Listed(g.markerAt(top.node, top.enclosing)), ToCome(g, Visited(g, rest, top, path), path + [top.node]));
  }

  lemma WalkStarts(g: Audit, root: Node)
    ensures Walking(g, root, [], [Frame(root, None, 0)], [])
  {
    assert Down([], 0) == [];
    ToComeSnoc(g, [], Frame(root, None, 0), []);
    assert [] + [Frame(root, None, 0)] == [Frame(root, None, 0)];
    assert Mirrored(g, [], root) + [] == Mirrored(g, [], root);
  }

  /** The body of the loop: truncate the chain, look for a marker, push the node and its children. */
  method Visit(g: Audit, markers: seq<Marker>, rest: seq<Frame>, top: Frame, chain: seq<Node>)
    returns (markers': seq<Marker>, stack: seq<Frame>, chain': seq<Node>)
    requires top.depth <= |chain|
    ensures markers' == markers + Listed(g.markerAt(top.node, top.enclosing))
    ensures stack == Visited(g, rest, top, Down(chain, top.depth))
    ensures chain' == Down(chain, top.depth) + [top.node]
  {
    chain', markers' := Down(chain, top.depth), markers;
    var marker := g.markerAt(top.node, top.enclosing);
    if marker.Some? {
      markers' := markers + [marker.value];
    }
    var inside := top.enclosing;
    if g.isFunction(chain', top.node) {
      var name := g.functionName(chain', top.node);
      if name.Some? {
        inside := name;
      }
    }
    stack := rest + Children(top.node, inside, top.depth + 1, |top.node.children|);
    chain' := chain' + [top.node];
  }

  /** The loop and the sort. */
  method WalkMarkers(g: Audit, root: Node) returns (markers: seq<Marker>)
    ensures markers == Exemptions(g, root)
  {
    markers := [];
    var chain: seq<Node> := [];
    var stack := [Frame(root, None, 0)];
    WalkStarts(g, root);
    while stack != []
      invariant Walking(g, root, markers, stack, chain)
      decreases NodesToCome(stack)
    {
      var top, rest := stack[|stack| - 1], stack[..|stack| - 1];
      assert stack == rest + [top];
      VisitKeepsWalking(g, root, markers, rest, top, chain);
      VisitShrinks(g, rest, top, Down(chain, top.depth));
      markers, stack, chain := Visit(g, markers, rest, top, chain);
    }
    assert markers + [] == markers;
    markers := Sort(LineLe, markers);
  }

  /** `suppression_markers`: by line, the marker of every comment that parses as one, and whose it is. */
  method SuppressionMarkers(grammar: Grammar, root: Node) returns (markers: seq<Marker>)
    ensures markers == Exemptions(AuditOf(grammar), root)
    ensures IsAudit(grammar, root, markers)
  {
    markers := WalkMarkers(AuditOf(grammar), root);
    AuditIsRight(grammar, root);
  }
}
