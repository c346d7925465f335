/** Function spaces of a syntax tree: what the operator/operand walk is meant to return. */
module SpaceTree {
  import opened Wrappers
  import opened ByteStrings
  import opened Sequences
  import opened Vocabularies

  datatype SpaceKind = Unknown | Function | Class | Struct | Trait | Impl | Unit | Namespace | Interface

  /** A syntax node. Its position makes it distinct from every other node of the tree. */
  datatype Node = Node(symbol: nat, startByte: nat, endByte: nat, startRow: nat, endLine: nat, children: seq<Node>)

  /** Halstead occurrence counts: `entry(k) += 1` is a multiset that gains `k`. */
  datatype Maps = Maps(operators: multiset<nat>, primitives: multiset<Bytes>, operands: multiset<Bytes>)

  const NO_MAPS := Maps(multiset{}, multiset{}, multiset{})

  function Merge(a: Maps, b: Maps): (m: Maps)
  {
    Maps(a.operators + b.operators, a.primitives + b.primitives, a.operands + b.operands)
  }

  datatype Ops = Ops(
    name: Option<string>,
    nameWasLossy: bool,
    startLine: nat,
    endLine: nat,
    kind: SpaceKind,
    spaces: seq<Ops>,
    operands: seq<Bytes>,
    operators: seq<Bytes>
  )

  /** An open space: its record so far, and the counts its vocabulary is rendered from when it closes. */
  datatype State = State(ops: Ops, maps: Maps)

  /**
   The per-language classifiers, over the source text. Each may look at the ancestors of the node
   it classifies, which it is handed root first.
   */
  datatype Language = Language(
    promotes: (seq<Node>, Node) -> bool,
    kindOf: (seq<Node>, Node) -> SpaceKind,
    nameOf: (seq<Node>, Node) -> Option<string>,
    contribution: (seq<Node>, Node) -> Maps,
    operatorText: nat -> Bytes,
    decode: Decoder
  )

  function LineSpan(node: Node, kind: SpaceKind): (span: (nat, nat))
  {
    if kind == Unit then if node.endLine == 0 then (0, 0) else (1, node.endLine)
    else (node.startRow + 1, node.endLine)
  }

  /** `Ops::new`: a record with no sub-spaces and no vocabulary yet. */
  function Open(lang: Language, path: seq<Node>, node: Node, kind: SpaceKind): (ops: Ops)
  {
    var (startLine, endLine) := LineSpan(node, kind);
    var name := if kind != Unit then lang.nameOf(path, node) else None;
    Ops(name, false, startLine, endLine, kind, [], [], [])
  }

  function OpenPromoted(lang: Language, path: seq<Node>, node: Node): (state: State)
  {
    State(Open(lang, path, node, lang.kindOf(path, node)), NO_MAPS)
  }

  ghost function OperatorVocabulary(lang: Language, maps: Maps): (r: seq<Bytes>)
  {
    Vocabulary(lang.decode,
               Map(lang.operatorText, Listing(Distinct(maps.operators))) + Listing(Distinct(maps.primitives)))
  }

  ghost function OperandVocabulary(lang: Language, maps: Maps): (r: seq<Bytes>)
  {
    Vocabulary(lang.decode, Listing(Distinct(maps.operands)))
  }

  /** The record a state closes to. */
  ghost function Closed(lang: Language, state: State): (ops: Ops)
  {
    state.ops.(operators := OperatorVocabulary(lang, state.maps), operands := OperandVocabulary(lang, state.maps))
  }

  /** What a node and everything below it contribute. */
  function Total(lang: Language, path: seq<Node>, node: Node): (m: Maps)
    decreases node, 1
  {
    Merge(lang.contribution(path, node), TotalForest(lang, path + [node], node.children))
  }

  function TotalForest(lang: Language, path: seq<Node>, nodes: seq<Node>): (m: Maps)
    decreases nodes, 0
  {
    if nodes == [] then NO_MAPS
    else Merge(Total(lang, path, nodes[0]), TotalForest(lang, path, nodes[1..]))
  }

  /** The space a promoted node opens: outermost promoted descendants below it, whole subtree in its vocabulary. */
  ghost function SpaceOf(lang: Language, path: seq<Node>, node: Node): (ops: Ops)
    decreases node, 1
  {
    Closed(lang,
           State(OpenPromoted(lang, path, node).ops.(spaces := SubSpaces(lang, path + [node], node.children)),
                 Total(lang, path, node)))
  }

  /** The outermost spaces of a forest, in source order. */
  ghost function SubSpaces(lang: Language, path: seq<Node>, nodes: seq<Node>): (r: seq<Ops>)
    decreases nodes, 0
  {
    if nodes == [] then []
    else
      (if lang.promotes(path, nodes[0]) then [SpaceOf(lang, path, nodes[0])]
       else SubSpaces(lang, path + [nodes[0]], nodes[0].children))
      + SubSpaces(lang, path, nodes[1..])
  }

  /** A root that is not classified as `Unit` is wrapped in a synthetic one. */
  predicate NeedsSyntheticRoot(lang: Language, root: Node)
  {
    lang.kindOf([], root) != Unit
  }

  /** The walk has a frame for everything it meets. */
  predicate OpensFrame(lang: Language, root: Node)
  {
    NeedsSyntheticRoot(lang, root) || lang.promotes([], root)
  }

  /** The tree of spaces a file is meant to have. */
  ghost function FileSpace(lang: Language, root: Node, name: Option<string>): (ops: Ops)
    requires OpensFrame(lang, root)
  {
    var top :=
      if NeedsSyntheticRoot(lang, root) then
        Closed(lang,
               State(Open(lang, [], root, Unit).(spaces := SubSpaces(lang, [], [root])), Total(lang, [], root)))
      else SpaceOf(lang, [], root);
    top.(name := name)
  }

  // ---------------------------------------------------------------- what the tree contains

  datatype Visit = Visit(path: seq<Node>, node: Node)

  /** Every node of a forest with its root-to-parent path, in source pre-order. */
  function Visits(path: seq<Node>, nodes: seq<Node>): (r: seq<Visit>)
    decreases nodes
  {
    if nodes == [] then []
    else [Visit(path, nodes[0])] + Visits(path + [nodes[0]], nodes[0].children) + Visits(path, nodes[1..])
  }

  datatype Header = Header(kind: SpaceKind, name: Option<string>, startLine: nat, endLine: nat)

  function HeaderOf(ops: Ops): (h: Header)
  {
    Header(ops.kind, ops.name, ops.startLine, ops.endLine)
  }

  function HeaderAt(lang: Language, path: seq<Node>, node: Node): (r: seq<Header>)
  {
    if lang.promotes(path, node) then [HeaderOf(OpenPromoted(lang, path, node).ops)] else []
  }

  function SumContributions(lang: Language, visits: seq<Visit>): (m: Maps)
  {
    if visits == [] then NO_MAPS
    else Merge(lang.contribution(visits[0].path, visits[0].node), SumContributions(lang, visits[1..]))
  }

  /** The visits from the first promoted node on. */
  function FromFirstSpace(lang: Language, visits: seq<Visit>): (r: seq<Visit>)
  {
    if visits == [] || lang.promotes(visits[0].path, visits[0].node) then visits
    else FromFirstSpace(lang, visits[1..])
  }

  lemma {:induction false} FromFirstSpaceConcat(lang: Language, a: seq<Visit>, b: seq<Visit>)
    ensures FromFirstSpace(lang, a + b) ==
            if FromFirstSpace(lang, a) == [] then FromFirstSpace(lang, b) else FromFirstSpace(lang, a) + b
  {
    if a == [] {
      assert a + b == b;
    } else {
      assert (a + b)[1..] == a[1..] + b;
      FromFirstSpaceConcat(lang, a[1..], b);
    }
  }

  lemma MergeLaws(a: Maps, b: Maps, c: Maps)
    ensures Merge(Merge(a, b), c) == Merge(a, Merge(b, c))
    ensures Merge(a, NO_MAPS) == a == Merge(NO_MAPS, a)
  {
    assert a.operators + b.operators + c.operators == a.operators + (b.operators + c.operators);
  }

  lemma {:induction false} SumContributionsConcat(lang: Language, a: seq<Visit>, b: seq<Visit>)
    ensures SumContributions(lang, a + b) == Merge(SumContributions(lang, a), SumContributions(lang, b))
  {
    if a == [] {
      assert a + b == b;
      MergeLaws(SumContributions(lang, b), NO_MAPS, NO_MAPS);
    } else {
      assert (a + b)[1..] == a[1..] + b;
      SumContributionsConcat(lang, a[1..], b);
      MergeLaws(lang.contribution(a[0].path, a[0].node), SumContributions(lang, a[1..]), SumContributions(lang, b));
    }
  }

  /** The counts behind a vocabulary take each node of the subtree once. */
  lemma {:induction false} TotalCountsEachNodeOnce(lang: Language, path: seq<Node>, nodes: seq<Node>)
    ensures TotalForest(lang, path, nodes) == SumContributions(lang, Visits(path, nodes))
    decreases nodes
  {
    if nodes == [] {
    } else {
      var n := nodes[0];
      var below := Visits(path + [n], n.children);
      TotalCountsEachNodeOnce(lang, path + [n], n.children);
      TotalCountsEachNodeOnce(lang, path, nodes[1..]);
      SumContributionsConcat(lang, [Visit(path, n)] + below, Visits(path, nodes[1..]));
      SumContributionsConcat(lang, [Visit(path, n)], below);
    }
  }
}
