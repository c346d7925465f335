/** What each listed marker says, in terms of the comment it stands in. */
module AuditContents {
  import opened Wrappers
  import opened Sequences
  import opened SuppressionMarker
  import opened SuppressionAudit
  import Tree = SpaceTree

  type Visit = Tree.Visit

  /** Node `i` of a root-first path is a function whose name can be resolved. */
  ghost predicate IsNamed(g: Grammar, path: seq<Node>, i: nat)
    requires i < |path|
  {
    g.isFunction(path[..i], path[i]) && g.functionName(path[..i], path[i]).Some?
  }

  /** `name` is that of the innermost such function on the path; `None` when there is no such function. */
  ghost predicate IsInnermostName(g: Grammar, path: seq<Node>, name: Option<string>) {
    if name.None? then forall i | 0 <= i < |path| :: !IsNamed(g, path, i)
    else
      exists i :: 0 <= i < |path| && IsNamed(g, path, i) && g.functionName(path[..i], path[i]) == name &&
                  forall j | i < j < |path| :: !IsNamed(g, path, j)
  }

  /** What is read at a node: the directive in its text, if it is a comment that holds one. */
  type Reader = Node -> Option<Suppression>

  function CommentReader(g: Grammar): (read: Reader)
  {
    node => if g.isComment(node) && g.text(node).Some? then ParseMarker(g.text(node).value).suppression else None
  }

  function MarkedVisits(read: Reader, visits: seq<Visit>): (r: seq<Visit>)
  {
    if visits == [] then []
    else (if read(visits[0].node).Some? then [visits[0]] else []) + MarkedVisits(read, visits[1..])
  }

  /**
   `m` is the record of the marker at a node: its 1-based line, what is read there, and, for a marker on a
   function, the innermost enclosing one; a marker on a file belongs to none.
   */
  ghost predicate Records(g: Grammar, read: Reader, v: Visit, m: Marker) {
    && read(v.node).Some?
    && m.line == v.node.startRow + 1
    && var s := read(v.node).value;
       && m.target == s.kind && m.scope == s.scope && m.dialect == s.source
       && (if s.kind == OnFile then m.function' == None else IsInnermostName(g, v.path, m.function'))
  }

  /** Marker by marker, `ms` are the records of `visits`. */
  ghost predicate AllRecorded(g: Grammar, read: Reader, visits: seq<Visit>, ms: seq<Marker>) {
    if visits == [] then ms == []
    else ms != [] && Records(g, read, visits[0], ms[0]) && AllRecorded(g, read, visits[1..], ms[1..])
  }

  // ---------------------------------------------------------------- one comment

  lemma NamesAgree(g: Grammar, path: seq<Node>, i: nat)
    requires i < |path|
    ensures GivesName(AuditOf(g), path, i) <==> IsNamed(g, path, i)
    ensures IsNamed(g, path, i) ==> NameGiven(AuditOf(g), path[..i], path[i]) == g.functionName(path[..i], path[i])
  {
  }

  lemma EnclosingNames(g: Grammar, path: seq<Node>)
    ensures IsInnermostName(g, path, Enclosing(AuditOf(g), path))
  {
    var a := AuditOf(g);
    EnclosingIsInnermost(a, path);
    forall i | 0 <= i < |path| ensures GivesName(a, path, i) <==> IsNamed(g, path, i) {
      NamesAgree(g, path, i);
    }
    if Enclosing(a, path).Some? {
      var i := Innermost(g, path, |path| - 1);
      NamesAgree(g, path, i);
    }
  }

  lemma {:induction false} Innermost(g: Grammar, path: seq<Node>, k: nat) returns (i: nat)
    requires k < |path| && forall j | k < j < |path| :: !IsNamed(g, path, j)
    requires exists j :: 0 <= j < |path| && IsNamed(g, path, j)
    ensures i < |path| && IsNamed(g, path, i) && forall j | i < j < |path| :: !IsNamed(g, path, j)
  {
    if IsNamed(g, path, k) {
      i := k;
    } else {
      i := Innermost(g, path, k - 1);
    }
  }

  /** The audit's questions, put node by node, are answered by what is read. */
  ghost predicate Agrees(g: Grammar, read: Reader, a: Audit) {
    forall path, node ::
      AllRecorded(g, read, MarkedVisits(read, [Tree.Visit(path, node)]), Listed(a.markerAt(node, Enclosing(a, path))))
  }

  lemma AuditAgrees(g: Grammar)
    ensures Agrees(g, CommentReader(g), AuditOf(g))
  {
    var a, read := AuditOf(g), CommentReader(g);
    forall path, node ensures
      AllRecorded(g, read, MarkedVisits(read, [Tree.Visit(path, node)]), Listed(a.markerAt(node, Enclosing(a, path))))
    {
      MarkerIsRecorded(g, path, node);
    }
  }

  lemma MarkerIsRecorded(g: Grammar, path: seq<Node>, node: Node)
    ensures var read := CommentReader(g);
            AllRecorded(g, read, MarkedVisits(read, [Tree.Visit(path, node)]),
                        Listed(AuditOf(g).markerAt(node, Enclosing(AuditOf(g), path))))
  {
    EnclosingNames(g, path);
    var v, read := Tree.Visit(path, node), CommentReader(g);
    assert [v][1..] == [];
    assert MarkedVisits(read, [v]) == if read(node).Some? then [v] else [];
  }

  // ---------------------------------------------------------------- a whole tree

  lemma {:induction false} MarkedConcat(read: Reader, a: seq<Visit>, b: seq<Visit>)
    ensures MarkedVisits(read, a + b) == MarkedVisits(read, a) + MarkedVisits(read, b)
  {
    if a == [] {
      assert a + b == b;
    } else {
      var here := if read(a[0].node).Some? then [a[0]] else [];
      assert (a + b)[1..] == a[1..] + b;
      MarkedConcat(read, a[1..], b);
      Regroup(here, MarkedVisits(read, a[1..]), MarkedVisits(read, b));
    }
  }

  lemma {:induction false} VisitsConcat(path: seq<Node>, a: seq<Node>, b: seq<Node>)
    ensures Tree.Visits(path, a + b) == Tree.Visits(path, a) + Tree.Visits(path, b)
  {
    if a == [] {
      assert a + b == b;
    } else {
      var here := [Tree.Visit(path, a[0])] + Tree.Visits(path + [a[0]], a[0].children);
      assert (a + b)[1..] == a[1..] + b;
      VisitsConcat(path, a[1..], b);
      Regroup(here, Tree.Visits(path, a[1..]), Tree.Visits(path, b));
    }
  }

  lemma VisitsOfOne(path: seq<Node>, node: Node)
    ensures Tree.Visits(path, [node]) == [Tree.Visit(path, node)] + Tree.Visits(path + [node], node.children)
  {
    assert [node][1..] == [] && Tree.Visits(path, []) == [];
  }

  lemma {:induction false} RecordedConcat(g: Grammar, read: Reader, v: seq<Visit>, m: seq<Marker>, w: seq<Visit>, n: seq<Marker>)
    requires AllRecorded(g, read, v, m) && AllRecorded(g, read, w, n)
    ensures AllRecorded(g, read, v + w, m + n)
  {
    if v == [] {
      assert v + w == w && m + n == n;
    } else {
      RecordedConcat(g, read, v[1..], m[1..], w, n);
      assert (v + w)[1..] == v[1..] + w && (m + n)[1..] == m[1..] + n;
    }
  }

  lemma MarkedRecordsConcat(g: Grammar, read: Reader, v: seq<Visit>, m: seq<Marker>, w: seq<Visit>, n: seq<Marker>)
    requires AllRecorded(g, read, MarkedVisits(read, v), m) && AllRecorded(g, read, MarkedVisits(read, w), n)
    ensures AllRecorded(g, read, MarkedVisits(read, v + w), m + n)
  {
    MarkedConcat(read, v, w);
    RecordedConcat(g, read, MarkedVisits(read, v), m, MarkedVisits(read, w), n);
  }

  /** The markers of a tree, in source order, are the records of its marked comments, in source order. */
  lemma {:induction false} MarkersAreRecords(g: Grammar, read: Reader, a: Audit, path: seq<Node>, node: Node)
    requires Agrees(g, read, a)
    ensures AllRecorded(g, read, MarkedVisits(read, Tree.Visits(path, [node])), Markers(a, path, node))
    decreases node, |node.children| + 1
  {
    var k, here, below := |node.children|, [Tree.Visit(path, node)], Tree.Visits(path + [node], node.children);
    BelowAreRecords(g, read, a, path, node, k);
    assert node.children[..k] == node.children;
    VisitsOfOne(path, node);
    MarkedRecordsConcat(g, read, here, Listed(a.markerAt(node, Enclosing(a, path))), below, MarkersBelow(a, path, node, k));
  }

  lemma {:induction false} BelowAreRecords(g: Grammar, read: Reader, a: Audit, path: seq<Node>, node: Node, k: nat)
    requires k <= |node.children| && Agrees(g, read, a)
    ensures AllRecorded(g, read, MarkedVisits(read, Tree.Visits(path + [node], node.children[..k])),
                        MarkersBelow(a, path, node, k))
    decreases node, k
  {
    if k == 0 {
    } else {
      var before, c, below := node.children[..k - 1], node.children[k - 1], path + [node];
      BelowAreRecords(g, read, a, path, node, k - 1);
      MarkersAreRecords(g, read, a, below, c);
      assert node.children[..k] == before + [c];
      VisitsConcat(below, before, [c]);
      MarkedRecordsConcat(g, read, Tree.Visits(below, before), MarkersBelow(a, path, node, k - 1),
                          Tree.Visits(below, [c]), Markers(a, below, c));
    }
  }

  // ---------------------------------------------------------------- the list

  /** Some node of the tree has `m` for its record. */
  ghost predicate IsRecord(g: Grammar, read: Reader, visits: seq<Visit>, m: Marker) {
    exists v :: v in visits && Records(g, read, v, m)
  }

  /**
   What the audit lists: by line, the record of every comment of the tree that parses as a marker, each once, and
   nothing else.
   */
  ghost predicate IsAudit(g: Grammar, root: Node, ms: seq<Marker>) {
    ListsRecords(g, CommentReader(g), Tree.Visits([], [root]), ms)
  }

  ghost predicate ListsRecords(g: Grammar, read: Reader, visits: seq<Visit>, ms: seq<Marker>) {
    && (exists inOrder :: AllRecorded(g, read, MarkedVisits(read, visits), inOrder) && multiset(ms) == multiset(inOrder))
    && (forall m :: m in ms <==> IsRecord(g, read, visits, m))
    && forall i, j | 0 <= i < j < |ms| :: ms[i].line <= ms[j].line
  }

  lemma RecordIsDetermined(g: Grammar, read: Reader, v: Visit, m: Marker, n: Marker)
    requires Records(g, read, v, m) && Records(g, read, v, n)
    ensures m == n
  {
  }

  lemma {:induction false} RecordListed(g: Grammar, read: Reader, visits: seq<Visit>, ms: seq<Marker>, m: Marker)
    requires AllRecorded(g, read, MarkedVisits(read, visits), ms)
    ensures m in ms <==> IsRecord(g, read, visits, m)
  {
    if visits == [] {
    } else {
      var v, rest := visits[0], visits[1..];
      assert forall w :: w in visits <==> w == v || w in rest;
      if read(v.node).Some? {
        assert MarkedVisits(read, visits)[1..] == MarkedVisits(read, rest);
        RecordListed(g, read, rest, ms[1..], m);
        assert m in ms <==> m == ms[0] || m in ms[1..];
        if Records(g, read, v, m) {
          RecordIsDetermined(g, read, v, ms[0], m);
        }
      } else {
        assert MarkedVisits(read, visits) == MarkedVisits(read, rest);
        RecordListed(g, read, rest, ms, m);
      }
    }
  }

  lemma AuditIsRight(g: Grammar, root: Node)
    ensures IsAudit(g, root, Exemptions(AuditOf(g), root))
  {
    AuditAgrees(g);
    ExemptionsAreRight(g, CommentReader(g), AuditOf(g), root);
  }

  lemma ExemptionsAreRight(g: Grammar, read: Reader, a: Audit, root: Node)
    requires Agrees(g, read, a)
    ensures ListsRecords(g, read, Tree.Visits([], [root]), Exemptions(a, root))
  {
    AuditListsMarkers(a, root);
    MarkersAreRecords(g, read, a, [], root);
    SortedRecords(g, read, Tree.Visits([], [root]), Markers(a, [], root), Exemptions(a, root));
  }

  lemma SortedRecords(g: Grammar, read: Reader, visits: seq<Visit>, inOrder: seq<Marker>, ms: seq<Marker>)
    requires AllRecorded(g, read, MarkedVisits(read, visits), inOrder)
    requires multiset(ms) == multiset(inOrder) && forall i, j | 0 <= i < j < |ms| :: LineLe(ms[i], ms[j])
    ensures ListsRecords(g, read, visits, ms)
  {
    forall m ensures m in ms <==> IsRecord(g, read, visits, m) {
      RecordListed(g, read, visits, inOrder, m);
      assert m in ms <==> m in multiset(ms);
      assert m in inOrder <==> m in multiset(inOrder);
    }
    forall i, j | 0 <= i < j < |ms| ensures ms[i].line <= ms[j].line {
      assert LineLe(ms[i], ms[j]);
    }
  }
}
