/** What the walk returns when the root opens no frame. */
module UnframedWalk {
  import opened Wrappers
  import opened ByteStrings
  import opened Sequences
  import opened Vocabularies
  import opened SpaceTree
  import opened SpaceVocabularies
  import opened SpaceContents
  import opened OpsWalk

  /** The record that the first of `spaces` becomes when its later siblings end up in it. */
  function Swallowing(spaces: seq<Ops>): (ops: Ops)
    requires spaces != []
  {
    spaces[0].(spaces := spaces[0].spaces + spaces[1..], operators := [], operands := [])
  }

  /**
   What a walk without an open frame makes of `visits` that open `spaces`: nothing when there are none; otherwise
   the first of them, with its later siblings in it and the counts of every node from its own on.
   */
  ghost predicate Swallowed(lang: Language, folded: Option<State>, spaces: seq<Ops>, visits: seq<Visit>) {
    var counted := FromFirstSpace(lang, visits);
    if spaces == [] then folded == None && counted == []
    else folded == Some(State(Swallowing(spaces), SumContributions(lang, counted))) && counted != []
  }

  lemma VisitsOfOne(path: seq<Node>, node: Node)
    ensures Visits(path, [node]) == [Visit(path, node)] + Visits(path + [node], node.children)
  {
    assert Visits(path, []) == [];
  }

  lemma VisitsSplit(path: seq<Node>, nodes: seq<Node>)
    requires nodes != []
    ensures Visits(path, nodes) == Visits(path, [nodes[0]]) + Visits(path, nodes[1..])
  {
    VisitsOfOne(path, nodes[0]);
  }

  /** Nothing was open before, so the later part stands alone. */
  lemma SwallowLater(lang: Language, folded: Option<State>, later: seq<Ops>, before: seq<Visit>, after: seq<Visit>)
    requires Swallowed(lang, None, [], before) && Swallowed(lang, folded, later, after)
    ensures Swallowed(lang, folded, [] + later, before + after)
  {
    FromFirstSpaceConcat(lang, before, after);
    assert [] + later == later;
  }

  /** The first space is open, so all of the later part goes into it. */
  lemma SwallowMore(lang: Language, s: State, first: seq<Ops>, later: seq<Ops>, before: seq<Visit>, after: seq<Visit>)
    requires first != [] && Swallowed(lang, Some(s), first, before)
    ensures Swallowed(lang, Some(Grown(s, later, SumContributions(lang, after))), first + later, before + after)
  {
    FromFirstSpaceConcat(lang, before, after);
    SumContributionsConcat(lang, FromFirstSpace(lang, before), after);
    assert (first + later)[0] == first[0];
    assert first[0].spaces + first[1..] + later == first[0].spaces + (first + later)[1..];
  }

  /**
   Without a frame at the root the first space opened becomes the bottom one: it loses nothing of its own, takes
   every later outermost space as a child, and counts every node from its own on, but none before it.
   */
  lemma {:induction false} FirstSpaceSwallowsTheRest(lang: Language, path: seq<Node>, nodes: seq<Node>)
    ensures Swallowed(lang, FoldForest(lang, path, nodes, None), SubSpaces(lang, path, nodes), Visits(path, nodes))
    decreases nodes, 0
  {
    if nodes == [] {
    } else {
      var n, rest := nodes[0], nodes[1..];
      SubSpacesSplit(lang, path, nodes);
      VisitsSplit(path, nodes);
      FirstSpaceOfNode(lang, path, n);
      FirstSpaceSwallowsTheRest(lang, path, rest);
      var first, later := SubSpaces(lang, path, [n]), SubSpaces(lang, path, rest);
      var inner := FoldNode(lang, path, n, None);
      if first == [] {
        SwallowLater(lang, FoldForest(lang, path, rest, None), later, Visits(path, [n]), Visits(path, rest));
      } else {
        FoldForestAddsSubSpaces(lang, path, rest, inner.value);
        TotalCountsEachNodeOnce(lang, path, rest);
        SwallowMore(lang, inner.value, first, later, Visits(path, [n]), Visits(path, rest));
      }
    }
  }

  lemma {:induction false} FirstSpaceOfNode(lang: Language, path: seq<Node>, node: Node)
    ensures Swallowed(lang, FoldNode(lang, path, node, None), SubSpaces(lang, path, [node]), Visits(path, [node]))
    decreases node, 1
  {
    SubSpacesOfOne(lang, path, node);
    VisitsOfOne(path, node);
    if lang.promotes(path, node) {
      PromotedIsSwallowed(lang, path, node);
    } else {
      var below := Visits(path + [node], node.children);
      FirstSpaceSwallowsTheRest(lang, path + [node], node.children);
      assert ([Visit(path, node)] + below)[1..] == below;
    }
  }

  lemma {:induction false} PromotedIsSwallowed(lang: Language, path: seq<Node>, node: Node)
    requires lang.promotes(path, node)
    ensures Swallowed(lang, FoldNode(lang, path, node, None), [SpaceOf(lang, path, node)],
                      [Visit(path, node)] + Visits(path + [node], node.children))
  {
    var below, blank, own := path + [node], OpenPromoted(lang, path, node), lang.contribution(path, node);
    var visits := [Visit(path, node)] + Visits(below, node.children);
    FoldForestAddsSubSpaces(lang, below, node.children, Count(lang, path, node, blank));
    OpenedGrown(blank, own, SubSpaces(lang, below, node.children), TotalForest(lang, below, node.children));
    TotalCountsEachNodeOnce(lang, below, node.children);
    assert visits[1..] == Visits(below, node.children);
    var space := SpaceOf(lang, path, node);
    assert [space][1..] == [] && space.spaces + [] == space.spaces;
  }

  /** The whole outcome for a root that opens no frame; the empty-root error comes back iff no node is promoted. */
  lemma {:induction false} UnframedOutcome(lang: Language, root: Node, name: Option<string>)
    requires !OpensFrame(lang, root)
    ensures var spaces, counts := SubSpaces(lang, [], [root]),
                                  SumContributions(lang, FromFirstSpace(lang, Visits([], [root])));
            WalkOutcome(lang, root, name) ==
            if spaces == [] then Err(EmptyRoot)
            else Ok(spaces[0].(name := name, spaces := spaces[0].spaces + spaces[1..],
                               operators := OperatorVocabulary(lang, counts),
                               operands := OperandVocabulary(lang, counts)))
  {
    FirstSpaceOfNode(lang, [], root);
  }

  lemma {:induction false} UnframedFields(lang: Language, root: Node, name: Option<string>)
    requires !OpensFrame(lang, root) && SubSpaces(lang, [], [root]) != []
    ensures var spaces, counts := SubSpaces(lang, [], [root]),
                                  SumContributions(lang, FromFirstSpace(lang, Visits([], [root])));
            && WalkOutcome(lang, root, name).Ok?
            && WalkOutcome(lang, root, name).value.spaces == spaces[0].spaces + spaces[1..]
            && WalkOutcome(lang, root, name).value.operands == OperandVocabulary(lang, counts)
  {
    UnframedOutcome(lang, root, name);
  }

  /** The empty-root error comes back iff the root is a `Unit` and no node of the tree, the root included, is promoted. */
  lemma {:induction false} EmptyRootIff(lang: Language, root: Node, name: Option<string>)
    ensures WalkOutcome(lang, root, name) == Err(EmptyRoot)
       <==> lang.kindOf([], root) == Unit && forall v | v in Visits([], [root]) :: !lang.promotes(v.path, v.node)
  {
    SpacesAreDescribed(lang, [], [root]);
    NonePromoted(lang, Visits([], [root]));
    var spaces := SubSpaces(lang, [], [root]);
    assert PreOrder(spaces) == [] <==> spaces == [];
    VisitsOfOne([], root);
    assert Visit([], root) in Visits([], [root]);
    if OpensFrame(lang, root) {
      FramedOutcomeIsFileSpace(lang, root, name);
    } else {
      UnframedOutcome(lang, root, name);
    }
  }

  lemma {:induction false} NonePromoted(lang: Language, visits: seq<Visit>)
    ensures PromotedVisits(lang, visits) == [] <==> forall v | v in visits :: !lang.promotes(v.path, v.node)
  {
    if visits == [] {
    } else {
      NonePromoted(lang, visits[1..]);
      assert forall v :: v in visits <==> v == visits[0] || v in visits[1..];
    }
  }

  // ---------------------------------------------------------------- a tree that shows it

  function Leaf(row: nat): (node: Node)
  {
    Node(0, 0, 0, row, row + 1, [])
  }

  const FILE: Node := Node(0, 0, 0, 0, 2, [Leaf(0), Leaf(1)])

  /** A language that promotes everything but the root, calls everything a `Unit`, and takes a node's depth as operand. */
  const FLAT: Language :=
    Language((path, node) => path != [],
             (path, node) => Unit,
             (path, node) => None,
             (path, node) => Maps(multiset{}, multiset{}, multiset{if path == [] then [0] else [1]}),
             id => [],
             key => Borrowed)

  lemma LeafSpaces(row: nat)
    ensures SubSpaces(FLAT, [FILE], [Leaf(row)]) == [SpaceOf(FLAT, [FILE], Leaf(row))]
  {
    SubSpacesOfOne(FLAT, [FILE], Leaf(row));
  }

  lemma FlatSpaces()
    ensures SubSpaces(FLAT, [], [FILE]) == [SpaceOf(FLAT, [FILE], Leaf(0)), SpaceOf(FLAT, [FILE], Leaf(1))]
  {
    var path := [FILE];
    assert [] + [FILE] == path;
    SubSpacesOfOne(FLAT, [], FILE);
    SubSpacesSplit(FLAT, path, FILE.children);
    LeafSpaces(0);
    LeafSpaces(1);
    assert FILE.children[1..] == [Leaf(1)];
  }

  lemma FlatVisits()
    ensures Visits([], [FILE]) == [Visit([], FILE), Visit([FILE], Leaf(0)), Visit([FILE], Leaf(1))]
  {
    var path := [FILE];
    assert [] + [FILE] == path && FILE.children[1..] == [Leaf(1)];
    VisitsOfOne([], FILE);
    VisitsSplit(path, FILE.children);
    VisitsOfOne(path, Leaf(0));
    VisitsOfOne(path, Leaf(1));
  }

  lemma FlatCounts()
    ensures [0] !in SumContributions(FLAT, FromFirstSpace(FLAT, Visits([], [FILE]))).operands
    ensures [0] in Total(FLAT, [], FILE).operands
  {
    FlatVisits();
    var all := Visits([], [FILE]);
    var first, second := all[1], all[2];
    assert all[1..] == [first, second] && [first, second][1..] == [second] && [second][1..] == [];
    assert FromFirstSpace(FLAT, all) == [first, second];
    var one := Maps(multiset{}, multiset{}, multiset{[1]});
    assert SumContributions(FLAT, [second]) == Merge(one, NO_MAPS);
    assert SumContributions(FLAT, [first, second]) == Merge(one, Merge(one, NO_MAPS));
    var zero: Bytes, ones: Bytes := [0], [1];
    assert zero[0] != ones[0];
    assert zero in FLAT.contribution([], FILE).operands;
  }

  /** The second of two spaces ends up inside the first, and what the root contributes is lost. */
  lemma FlatOutcome(name: Option<string>)
    ensures !OpensFrame(FLAT, FILE) && WalkOutcome(FLAT, FILE, name).Ok?
    ensures var top := WalkOutcome(FLAT, FILE, name).value;
            top.spaces == [SpaceOf(FLAT, [FILE], Leaf(1))] && [0] !in top.operands && [0] in Total(FLAT, [], FILE).operands
  {
    FlatSpaces();
    UnframedFields(FLAT, FILE, name);
    FlatCounts();
    NoSuchOperand(SumContributions(FLAT, FromFirstSpace(FLAT, Visits([], [FILE]))), [0]);
    assert SpaceOf(FLAT, [FILE], Leaf(0)).spaces == [];
  }

  lemma NoSuchOperand(counts: Maps, key: Bytes)
    requires key !in counts.operands
    ensures key !in OperandVocabulary(FLAT, counts)
  {
    var keys := Listing(Distinct(counts.operands));
    VocabularyEntries(FLAT.decode, keys, key);
    ListingHolds(keys, Distinct(counts.operands), key);
  }
}
