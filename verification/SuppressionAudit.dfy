/** The audit of a file's markers: which ones it lists, with which function, in which order. */
module SuppressionAudit {
  import opened Wrappers
  import opened Sequences
  import opened Sorting
  import opened SuppressionMarker
  import Tree = SpaceTree

  type Node = Tree.Node

  /** The per-language questions, over the source text; ancestors are handed root first. */
  datatype Grammar = Grammar(
    isComment: Node -> bool,
    text: Node -> Option<string>,
    isFunction: (seq<Node>, Node) -> bool,
    functionName: (seq<Node>, Node) -> Option<string>
  )

  datatype Marker = Marker(line: nat, target: Kind, scope: Scope, dialect: Source, function': Option<string>)

  /** `marker_at`. */
  function MarkerAt(g: Grammar, node: Node, enclosing: Option<string>): (m: Option<Marker>)
  {
    if !g.isComment(node) || g.text(node).None? then None
    else
      var scan := ParseMarker(g.text(node).value);
      if scan.suppression.None? then None
      else
        var s := scan.suppression.value;
        Some(Marker(node.startRow + 1, s.kind, s.scope, s.source, if s.kind == OnFunction then enclosing else None))
  }

  /** What the walk asks of a node: the marker it carries, and the name it gives to what is inside it. */
  datatype Audit = Audit(
    markerAt: (Node, Option<string>) -> Option<Marker>,
    isFunction: (seq<Node>, Node) -> bool,
    functionName: (seq<Node>, Node) -> Option<string>
  )

  function AuditOf(g: Grammar): (a: Audit)
  {
    Audit((node, enclosing) => MarkerAt(g, node, enclosing), g.isFunction, g.functionName)
  }

  function Listed(m: Option<Marker>): (ms: seq<Marker>)
  {
    if m.Some? then [m.value] else []
  }

  // ---------------------------------------------------------------- what the audit is meant to list

  /** The name `node` gives to what is inside it, if it is a function whose name can be resolved. */
  function NameGiven(g: Audit, path: seq<Node>, node: Node): (name: Option<string>)
  {
    if g.isFunction(path, node) then g.functionName(path, node) else None
  }

  /** The name the innermost of the nodes on a path gives. */
  function Enclosing(g: Audit, path: seq<Node>): (name: Option<string>)
  {
    if path == [] then None
    else
      var outer, last := path[..|path| - 1], path[|path| - 1];
      if NameGiven(g, outer, last).Some? then NameGiven(g, outer, last) else Enclosing(g, outer)
  }

  ghost predicate GivesName(g: Audit, path: seq<Node>, i: nat)
    requires i < |path|
  {
    NameGiven(g, path[..i], path[i]).Some?
  }

  /** The innermost enclosing function with a resolvable name; none when there is no such function. */
  lemma {:induction false} EnclosingIsInnermost(g: Audit, path: seq<Node>)
    ensures Enclosing(g, path).None? <==> forall i | 0 <= i < |path| :: !GivesName(g, path, i)
    ensures forall i | 0 <= i < |path| && GivesName(g, path, i) && (forall j | i < j < |path| :: !GivesName(g, path, j)) ::
              Enclosing(g, path) == NameGiven(g, path[..i], path[i])
  {
    if path == [] {
    } else {
      var outer := path[..|path| - 1];
      EnclosingIsInnermost(g, outer);
      forall i | 0 <= i < |outer| ensures GivesName(g, path, i) == GivesName(g, outer, i) && outer[..i] == path[..i] {
        assert outer[..i] == path[..i];
      }
      assert GivesName(g, path, |outer|) == NameGiven(g, outer, path[|outer|]).Some?;
    }
  }

  /** The markers of a tree whose root stands below `path`, in source order. */
  function Markers(g: Audit, path: seq<Node>, node: Node): (ms: seq<Marker>)
    decreases node, |node.children| + 1
  {
    Listed(g.markerAt(node, Enclosing(g, path))) + MarkersBelow(g, path, node, |node.children|)
  }

  /** Those of the first `k` children. */
  function MarkersBelow(g: Audit, path: seq<Node>, node: Node, k: nat): (ms: seq<Marker>)
    requires k <= |node.children|
    decreases node, k
  {
    if k == 0 then [] else MarkersBelow(g, path, node, k - 1) + Markers(g, path + [node], node.children[k - 1])
  }

  /** The same markers as the walk meets them: a node, then its children from the last to the first. */
  function Mirrored(g: Audit, path: seq<Node>, node: Node): (ms: seq<Marker>)
    decreases node, |node.children| + 1
  {
    Listed(g.markerAt(node, Enclosing(g, path))) + MirroredBelow(g, path, node, |node.children|)
  }

  function MirroredBelow(g: Audit, path: seq<Node>, node: Node, k: nat): (ms: seq<Marker>)
    requires k <= |node.children|
    decreases node, k
  {
    if k == 0 then [] else Mirrored(g, path + [node], node.children[k - 1]) + MirroredBelow(g, path, node, k - 1)
  }

  lemma {:induction false} MirroredPermutes(g: Audit, path: seq<Node>, node: Node)
    ensures multiset(Mirrored(g, path, node)) == multiset(Markers(g, path, node))
    decreases node, |node.children| + 1
  {
    MirroredBelowPermutes(g, path, node, |node.children|);
  }

  lemma {:induction false} MirroredBelowPermutes(g: Audit, path: seq<Node>, node: Node, k: nat)
    requires k <= |node.children|
    ensures multiset(MirroredBelow(g, path, node, k)) == multiset(MarkersBelow(g, path, node, k))
    decreases node, k
  {
    if k == 0 {
    } else {
      MirroredPermutes(g, path + [node], node.children[k - 1]);
      MirroredBelowPermutes(g, path, node, k - 1);
    }
  }

  /** No marker stands inside the comment of another. */
  predicate MarkersApart(g: Audit, path: seq<Node>, node: Node)
    decreases node, |node.children| + 1
  {
    && (g.markerAt(node, Enclosing(g, path)).Some? ==> MarkersBelow(g, path, node, |node.children|) == [])
    && ApartBelow(g, path, node, |node.children|)
  }

  predicate ApartBelow(g: Audit, path: seq<Node>, node: Node, k: nat)
    requires k <= |node.children|
    decreases node, k
  {
    k == 0 || (ApartBelow(g, path, node, k - 1) && MarkersApart(g, path + [node], node.children[k - 1]))
  }

  lemma ReverseConcat(a: seq<Marker>, b: seq<Marker>)
    ensures Reverse(a + b) == Reverse(b) + Reverse(a)
  {
  }

  /** Then the walk meets them in exactly the reverse of source order. */
  lemma {:induction false} MirroredIsReverse(g: Audit, path: seq<Node>, node: Node)
    requires MarkersApart(g, path, node)
    ensures Mirrored(g, path, node) == Reverse(Markers(g, path, node))
    decreases node, |node.children| + 1
  {
    var here := Listed(g.markerAt(node, Enclosing(g, path)));
    if here == [] {
      MirroredBelowIsReverse(g, path, node, |node.children|);
      assert here + MarkersBelow(g, path, node, |node.children|) == MarkersBelow(g, path, node, |node.children|);
    } else {
      MirroredBelowPermutes(g, path, node, |node.children|);
      assert MirroredBelow(g, path, node, |node.children|) == [] by {
        assert |multiset(MirroredBelow(g, path, node, |node.children|))| == 0;
      }
      assert Reverse(here) == here;
    }
  }

  lemma {:induction false} MirroredBelowIsReverse(g: Audit, path: seq<Node>, node: Node, k: nat)
    requires k <= |node.children| && ApartBelow(g, path, node, k)
    ensures MirroredBelow(g, path, node, k) == Reverse(MarkersBelow(g, path, node, k))
    decreases node, k
  {
    if k == 0 {
    } else {
      MirroredBelowIsReverse(g, path, node, k - 1);
      MirroredIsReverse(g, path + [node], node.children[k - 1]);
      ReverseConcat(MarkersBelow(g, path, node, k - 1), Markers(g, path + [node], node.children[k - 1]));
    }
  }

  // ---------------------------------------------------------------- the sort

  predicate LineLe(a: Marker, b: Marker) {
    a.line <= b.line
  }

  function OnLine(ms: seq<Marker>, line: nat): (r: seq<Marker>)
  {
    if ms == [] then [] else (if ms[0].line == line then [ms[0]] else []) + OnLine(ms[1..], line)
  }

  lemma {:induction false} InsertKeepsLines(x: Marker, ms: seq<Marker>, line: nat)
    ensures OnLine(Insert(LineLe, x, ms), line) == OnLine([x] + ms, line)
  {
    if ms != [] && !LineLe(x, ms[0]) {
      InsertKeepsLines(x, ms[1..], line);
      assert ([x] + ms)[1..] == ms && ([x] + ms[1..])[1..] == ms[1..];
    }
  }

  /** Markers of one line keep the order in which they were met. */
  lemma {:induction false} SortKeepsLines(ms: seq<Marker>, line: nat)
    ensures OnLine(Sort(LineLe, ms), line) == OnLine(ms, line)
  {
    if ms == [] {
    } else {
      var sorted := Sort(LineLe, ms[1..]);
      SortKeepsLines(ms[1..], line);
      InsertKeepsLines(ms[0], sorted, line);
      assert ([ms[0]] + sorted)[1..] == sorted;
    }
  }

  lemma {:induction false} OnLineConcat(a: seq<Marker>, b: seq<Marker>, line: nat)
    ensures OnLine(a + b, line) == OnLine(a, line) + OnLine(b, line)
  {
    if a == [] {
      assert a + b == b;
    } else {
      var here := if a[0].line == line then [a[0]] else [];
      assert (a + b)[1..] == a[1..] + b;
      OnLineConcat(a[1..], b, line);
      Regroup(here, OnLine(a[1..], line), OnLine(b, line));
    }
  }

  lemma {:induction false} OnLineReverse(ms: seq<Marker>, line: nat)
    ensures OnLine(Reverse(ms), line) == Reverse(OnLine(ms, line))
  {
    if ms == [] {
    } else {
      OnLineReverse(ms[1..], line);
      assert ms == [ms[0]] + ms[1..];
      ReverseConcat([ms[0]], ms[1..]);
      assert Reverse([ms[0]]) == [ms[0]];
      OnLineConcat(Reverse(ms[1..]), [ms[0]], line);
      assert [ms[0]][1..] == [];
      var here := if ms[0].line == line then [ms[0]] else [];
      assert OnLine([ms[0]], line) == here + [] == here == Reverse(here);
      ReverseConcat(here, OnLine(ms[1..], line));
    }
  }

  /** What the audit returns. */
  function Exemptions(g: Audit, root: Node): (ms: seq<Marker>)
  {
    Sort(LineLe, Mirrored(g, [], root))
  }

  /** The markers of the tree, each once, by line. */
  lemma AuditListsMarkers(g: Audit, root: Node)
    ensures multiset(Exemptions(g, root)) == multiset(Markers(g, [], root)) && Sorted(LineLe, Exemptions(g, root))
  {
    MirroredPermutes(g, [], root);
    SortSorts(LineLe, Mirrored(g, [], root));
  }

  /** Unless comments nest, several markers on one line come out last to first. */
  lemma LinesComeOutReversed(g: Audit, root: Node, line: nat)
    requires MarkersApart(g, [], root)
    ensures OnLine(Exemptions(g, root), line) == Reverse(OnLine(Markers(g, [], root), line))
  {
    SortKeepsLines(Mirrored(g, [], root), line);
    MirroredIsReverse(g, [], root);
    OnLineReverse(Markers(g, [], root), line);
  }
}
