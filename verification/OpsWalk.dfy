/** The explicit-stack walk, proved equal to the recursive tree. */
module OpsWalk {
  import opened Wrappers
  import opened Sequences
  import opened Vocabularies
  import opened SpaceTree
  import opened SpaceContents

  datatype MetricsError = EmptyRoot

  /** What travels with a node on the work stack. */
  datatype Walk = Walk(level: nat, depth: nat)

  // ---------------------------------------------------------------- closing spaces

  function Absorb(lang: Language, parent: State, child: Ops, childMaps: Maps): (s: State)
  {
    State(parent.ops.(spaces := parent.ops.spaces + [child]), Merge(parent.maps, childMaps))
  }

  /** Close the innermost open state into the one below it. */
  ghost function FoldTop(lang: Language, states: seq<State>): (r: seq<State>)
    requires |states| >= 2
    ensures |r| == |states| - 1
  {
    var k := |states| - 2;
    states[..k] + [Absorb(lang, states[k], Closed(lang, states[k + 1]), states[k + 1].maps)]
  }

  ghost function Close(lang: Language, states: seq<State>, n: nat): (r: seq<State>)
    decreases n
  {
    if n == 0 || |states| < 2 then states else Close(lang, FoldTop(lang, states), n - 1)
  }

  method ComputeOperatorsAndOperands(lang: Language, state: State) returns (ops: Ops)
    ensures ops == Closed(lang, state)
  {
    var ids := Enumerate(Distinct(state.maps.operators));
    var primitives := Enumerate(Distinct(state.maps.primitives));
    var keys := Map(lang.operatorText, ids) + primitives;
    var operators := SortedVocabulary(lang.decode, keys);
    var operandKeys := Enumerate(Distinct(state.maps.operands));
    var operands := SortedVocabulary(lang.decode, operandKeys);
    ops := state.ops.(operators := operators, operands := operands);

    var anyIds := Listing(Distinct(state.maps.operators));
    MapPermutation(lang.operatorText, ids, anyIds);
    VocabularyIgnoresKeyOrder(lang.decode, keys,
                              Map(lang.operatorText, anyIds) + Listing(Distinct(state.maps.primitives)));
    VocabularyIgnoresKeyOrder(lang.decode, operandKeys, Listing(Distinct(state.maps.operands)));
  }

  /** Close up to `diffLevel` open spaces, each into its parent; the bottom one is never popped. */
  method Finalize(lang: Language, states: seq<State>, diffLevel: nat) returns (r: seq<State>)
    ensures r == Close(lang, states, diffLevel)
  {
    r := states;
    for i := 0 to diffLevel
      invariant Close(lang, r, diffLevel - i) == Close(lang, states, diffLevel)
    {
      if |r| < 2 {
        break;
      }
      ghost var before := r;
      var state := r[|r| - 1];
      r := r[..|r| - 1];
      var last := r[|r| - 1];
      var child := ComputeOperatorsAndOperands(lang, state);
      r := r[..|r| - 1] + [Absorb(lang, last, child, state.maps)];
      assert r == FoldTop(lang, before);
    }
  }

  // ---------------------------------------------------------------- the walk, big-step

  /** The state to fold into, if any is open. */
  function Top(states: seq<State>): (top: Option<State>)
  {
    if states == [] then None else Some(states[|states| - 1])
  }

  function Graft(states: seq<State>, top: Option<State>): (r: seq<State>)
  {
    match top
    case None => states
    case Some(s) => if states == [] then [s] else states[..|states| - 1] + [s]
  }

  function Count(lang: Language, path: seq<Node>, node: Node, state: State): (s: State)
  {
    state.(maps := Merge(state.maps, lang.contribution(path, node)))
  }

  function CountOnTop(lang: Language, path: seq<Node>, node: Node, states: seq<State>): (r: seq<State>)
  {
    if states == [] then states else states[..|states| - 1] + [Count(lang, path, node, states[|states| - 1])]
  }

  /** Visit a whole subtree with `top` innermost, and close what it opened. */
  ghost function FoldNode(lang: Language, path: seq<Node>, node: Node, top: Option<State>): (r: Option<State>)
    ensures top.Some? ==> r.Some?
    decreases node, 1
  {
    if lang.promotes(path, node) then
      var started := Count(lang, path, node, OpenPromoted(lang, path, node));
      var inner := FoldForest(lang, path + [node], node.children, Some(started)).value;
      match top
      case None => Some(inner)
      case Some(s) => Some(Absorb(lang, s, Closed(lang, inner), inner.maps))
    else
      var counted := match top case None => None case Some(s) => Some(Count(lang, path, node, s));
      FoldForest(lang, path + [node], node.children, counted)
  }

  ghost function FoldForest(lang: Language, path: seq<Node>, nodes: seq<Node>, top: Option<State>): (r: Option<State>)
    ensures top.Some? ==> r.Some?
    decreases nodes, 0
  {
    if nodes == [] then top
    else FoldForest(lang, path, nodes[1..], FoldNode(lang, path, nodes[0], top))
  }

  /** `s` after a part of the tree has added spaces and counts to it. */
  function Grown(s: State, spaces: seq<Ops>, maps: Maps): (r: State)
  {
    State(s.ops.(spaces := s.ops.spaces + spaces), Merge(s.maps, maps))
  }

  lemma GrownTwice(s: State, a: seq<Ops>, b: seq<Ops>, m: Maps, n: Maps)
    ensures Grown(Grown(s, a, m), b, n) == Grown(s, a + b, Merge(m, n))
    ensures Grown(s, [], NO_MAPS) == s
  {
    assert s.ops.spaces + a + b == s.ops.spaces + (a + b);
    assert s.ops.spaces + [] == s.ops.spaces;
    MergeLaws(s.maps, m, n);
  }

  /** A freshly opened state grows into exactly its sub-spaces and counts. */
  lemma OpenedGrown(blank: State, own: Maps, spaces: seq<Ops>, maps: Maps)
    requires blank.ops.spaces == [] && blank.maps == NO_MAPS
    ensures Grown(blank.(maps := Merge(blank.maps, own)), spaces, maps) ==
            State(blank.ops.(spaces := spaces), Merge(own, maps))
  {
    assert [] + spaces == spaces;
    MergeLaws(own, maps, NO_MAPS);
  }

  lemma SubSpacesOfOne(lang: Language, path: seq<Node>, node: Node)
    ensures SubSpaces(lang, path, [node]) ==
            if lang.promotes(path, node) then [SpaceOf(lang, path, node)]
            else SubSpaces(lang, path + [node], node.children)
  {
    assert SubSpaces(lang, path, []) == [];
  }

  lemma SubSpacesSplit(lang: Language, path: seq<Node>, nodes: seq<Node>)
    requires nodes != []
    ensures SubSpaces(lang, path, nodes) == SubSpaces(lang, path, [nodes[0]]) + SubSpaces(lang, path, nodes[1..])
  {
    SubSpacesOfOne(lang, path, nodes[0]);
  }

  /** With a frame open, visiting a forest adds its outermost spaces and its total counts, nothing else. */
  lemma {:induction false} FoldForestAddsSubSpaces(lang: Language, path: seq<Node>, nodes: seq<Node>, s: State)
    ensures FoldForest(lang, path, nodes, Some(s)) ==
            Some(Grown(s, SubSpaces(lang, path, nodes), TotalForest(lang, path, nodes)))
    decreases nodes, 0
  {
    if nodes == [] {
      GrownTwice(s, [], [], NO_MAPS, NO_MAPS);
    } else {
      var first, rest := SubSpaces(lang, path, [nodes[0]]), SubSpaces(lang, path, nodes[1..]);
      var mid := Grown(s, first, Total(lang, path, nodes[0]));
      FoldNodeAddsItsSpaces(lang, path, nodes[0], s);
      FoldForestAddsSubSpaces(lang, path, nodes[1..], mid);
      GrownTwice(s, first, rest, Total(lang, path, nodes[0]), TotalForest(lang, path, nodes[1..]));
      SubSpacesSplit(lang, path, nodes);
    }
  }

  lemma {:induction false} FoldNodeAddsItsSpaces(lang: Language, path: seq<Node>, node: Node, s: State)
    ensures FoldNode(lang, path, node, Some(s)) ==
            Some(Grown(s, SubSpaces(lang, path, [node]), Total(lang, path, node)))
    decreases node, 1
  {
    var below := path + [node];
    var spaces, maps := SubSpaces(lang, below, node.children), TotalForest(lang, below, node.children);
    var own := lang.contribution(path, node);
    assert Total(lang, path, node) == Merge(own, maps);
    if lang.promotes(path, node) {
      var blank := OpenPromoted(lang, path, node);
      FoldForestAddsSubSpaces(lang, below, node.children, Count(lang, path, node, blank));
      OpenedGrown(blank, own, spaces, maps);
      SubSpacesOfOne(lang, path, node);
    } else {
      FoldForestAddsSubSpaces(lang, below, node.children, Count(lang, path, node, s));
      MergeLaws(s.maps, own, maps);
      SubSpacesOfOne(lang, path, node);
    }
  }

  // ---------------------------------------------------------------- the work stack

  /** A work-stack entry with the root-to-parent path of its node, which the loop keeps only in `chain`. */
  datatype Entry = Entry(path: seq<Node>, node: Node, level: nat)

  ghost function CloseTo(lang: Language, states: seq<State>, last: nat, level: nat): (r: seq<State>)
  {
    if level < last then Close(lang, states, last - level) else states
  }

  /** The states left once every entry's whole subtree has been visited, last entry first. */
  ghost function Resume(lang: Language, work: seq<Entry>, states: seq<State>, last: nat): (r: seq<State>)
    decreases |work|
  {
    if work == [] then states
    else
      var e := work[|work| - 1];
      var closed := CloseTo(lang, states, last, e.level);
      Resume(lang, work[..|work| - 1], Graft(closed, FoldNode(lang, e.path, e.node, Top(closed))), e.level)
  }

  ghost function Drain(lang: Language, states: seq<State>): (r: seq<State>)
  {
    Close(lang, states, |states|)
  }

  /** Children as they sit on the stack: the leftmost last, where it is popped first. */
  function Pushed(path: seq<Node>, children: seq<Node>, level: nat): (r: seq<Entry>)
  {
    if children == [] then [] else Pushed(path, children[1..], level) + [Entry(path, children[0], level)]
  }

  lemma GraftTop(states: seq<State>, top: Option<State>, next: Option<State>)
    requires states != [] ==> top.Some?
    requires top.Some? ==> next.Some?
    ensures Top(Graft(states, top)) == top
    ensures Graft(Graft(states, top), next) == Graft(states, next)
    ensures Graft(states, Top(states)) == states
  {
  }

  lemma {:induction false} ResumeStep(lang: Language, base: seq<Entry>, e: Entry, states: seq<State>, last: nat)
    ensures var closed := CloseTo(lang, states, last, e.level);
            Resume(lang, base + [e], states, last) ==
            Resume(lang, base, Graft(closed, FoldNode(lang, e.path, e.node, Top(closed))), e.level)
  {
    var work := base + [e];
    assert work[..|work| - 1] == base && work[|work| - 1] == e;
  }

  lemma PushedSplit(base: seq<Entry>, path: seq<Node>, nodes: seq<Node>, level: nat)
    requires nodes != []
    ensures base + Pushed(path, nodes, level) == base + Pushed(path, nodes[1..], level) + [Entry(path, nodes[0], level)]
  {
    assert Pushed(path, nodes, level) == Pushed(path, nodes[1..], level) + [Entry(path, nodes[0], level)];
  }

  /** Pushed children come off the stack in source order, so visiting them is visiting the forest. */
  lemma {:induction false} PushedIsForest(lang: Language, base: seq<Entry>, path: seq<Node>, nodes: seq<Node>,
                                          states: seq<State>, level: nat)
    ensures Resume(lang, base + Pushed(path, nodes, level), states, level) ==
            Resume(lang, base, Graft(states, FoldForest(lang, path, nodes, Top(states))), level)
    decreases nodes
  {
    if nodes == [] {
      assert base + Pushed(path, nodes, level) == base;
      GraftTop(states, Top(states), Top(states));
    } else {
      var next := FoldNode(lang, path, nodes[0], Top(states));
      PushedSplit(base, path, nodes, level);
      ResumeStep(lang, base + Pushed(path, nodes[1..], level), Entry(path, nodes[0], level), states, level);
      PushedIsForest(lang, base, path, nodes[1..], Graft(states, next), level);
      GraftTop(states, next, FoldForest(lang, path, nodes[1..], next));
    }
  }

  /** Levels never rise towards the bottom of the stack. */
  ghost predicate Ladder(work: seq<Entry>) {
    forall i, j | 0 <= i < j < |work| :: work[i].level <= work[j].level && |work[i].path| <= |work[j].path|
  }

  /** `states` once `inner`, opened above them, has been closed into them. */
  ghost function WithClosed(lang: Language, states: seq<State>, inner: State): (r: seq<State>)
  {
    if states == [] then [inner]
    else states[..|states| - 1] + [Absorb(lang, states[|states| - 1], Closed(lang, inner), inner.maps)]
  }

  lemma {:induction false} LateClose(lang: Language, states: seq<State>, inner: State, n: nat)
    ensures Close(lang, states + [inner], n + 1) == Close(lang, WithClosed(lang, states, inner), n)
  {
    var left := states + [inner];
    if states != [] {
      assert FoldTop(lang, left) == WithClosed(lang, states, inner);
    }
  }

  lemma {:induction false} LateDrain(lang: Language, states: seq<State>, inner: State)
    ensures Drain(lang, states + [inner]) == Drain(lang, WithClosed(lang, states, inner))
  {
    LateClose(lang, states, inner, |states|);
  }

  lemma {:induction false} LateCloseTo(lang: Language, states: seq<State>, inner: State, level: nat, lower: nat)
    requires lower <= level
    ensures CloseTo(lang, states + [inner], level + 1, lower) == CloseTo(lang, WithClosed(lang, states, inner), level, lower)
  {
    LateClose(lang, states, inner, level - lower);
  }

  /** A space left open above `states` is closed into them by whatever the walk does next. */
  lemma {:induction false} LateCloseIsClose(lang: Language, base: seq<Entry>, states: seq<State>, inner: State,
                                             level: nat, open: nat)
    requires open == level + 1 && (base != [] ==> base[|base| - 1].level <= level)
    ensures Drain(lang, Resume(lang, base, states + [inner], open)) ==
            Drain(lang, Resume(lang, base, WithClosed(lang, states, inner), level))
  {
    if base == [] {
      LateDrain(lang, states, inner);
    } else {
      LateCloseTo(lang, states, inner, level, base[|base| - 1].level);
    }
  }

  // ---------------------------------------------------------------- which frames are open

  /** The spaces open at a node: one per promoted node on its path, outermost first. */
  function OpenOn(lang: Language, path: seq<Node>): (r: seq<Header>)
  {
    if path == [] then []
    else
      var (above, node) := (path[..|path| - 1], path[|path| - 1]);
      OpenOn(lang, above) + HeaderAt(lang, above, node)
  }

  function StateHeaders(states: seq<State>): (r: seq<Header>)
  {
    Map((s: State) => HeaderOf(s.ops), states)
  }

  lemma {:induction false} OpenOnPrefix(lang: Language, p: seq<Node>, q: seq<Node>)
    requires p <= q
    ensures |OpenOn(lang, p)| <= |OpenOn(lang, q)| && OpenOn(lang, q)[..|OpenOn(lang, p)|] == OpenOn(lang, p)
    decreases |q|
  {
    if |p| == |q| {
      assert p == q;
    } else {
      var above := q[..|q| - 1];
      assert p <= above;
      OpenOnPrefix(lang, p, above);
      assert OpenOn(lang, q) == OpenOn(lang, above) + HeaderAt(lang, above, q[|q| - 1]);
    }
  }

  lemma FoldTopKeepsOuterFrames(lang: Language, states: seq<State>)
    requires |states| >= 2
    ensures StateHeaders(FoldTop(lang, states)) == StateHeaders(states)[..|states| - 1]
  {
    var k := |states| - 2;
    var folded := FoldTop(lang, states);
    assert HeaderOf(folded[k].ops) == HeaderOf(states[k].ops);
    forall i | 0 <= i < k ensures folded[i] == states[i] {
    }
  }

  lemma {:induction false} CloseKeepsOuterFrames(lang: Language, states: seq<State>, n: nat)
    requires n == 0 || n < |states|
    ensures StateHeaders(Close(lang, states, n)) == StateHeaders(states)[..|states| - n]
    decreases n
  {
    if n == 0 {
    } else {
      FoldTopKeepsOuterFrames(lang, states);
      CloseKeepsOuterFrames(lang, FoldTop(lang, states), n - 1);
    }
  }

  lemma {:induction false} PromotedRootIsOpen(lang: Language, path: seq<Node>)
    requires path != [] && lang.promotes([], path[0])
    ensures OpenOn(lang, path) != []
  {
    OpenOnPrefix(lang, path[..1], path);
    assert path[..1][..0] == [];
  }

  /**
   Mid-walk the open states are the synthetic root, if any, and the promoted nodes on the chain.
   Falling back to a node below the root closes exactly the promoted nodes left behind, and never
   reaches the bottom state, so the short-stack guard cannot fire there.
   */
  lemma {:induction false} ClosingReachesTheFramesOf(lang: Language, bottom: seq<Header>, chain: seq<Node>,
                                  states: seq<State>, last: nat, path: seq<Node>, level: nat)
    requires path != [] && path <= chain
    requires bottom == [] ==> lang.promotes([], path[0])
    requires StateHeaders(states) == bottom + OpenOn(lang, chain)
    requires last == |OpenOn(lang, chain)| && level == |OpenOn(lang, path)|
    ensures level <= last && last - level < |states|
    ensures StateHeaders(Close(lang, states, last - level)) == bottom + OpenOn(lang, path)
  {
    OpenOnPrefix(lang, path, chain);
    if bottom == [] {
      PromotedRootIsOpen(lang, path);
    }
    assert |StateHeaders(states)| == |states|;
    CloseKeepsOuterFrames(lang, states, last - level);
    OuterFrames(bottom, OpenOn(lang, chain), OpenOn(lang, path), last - level, |states|);
  }

  lemma OuterFrames(bottom: seq<Header>, inner: seq<Header>, outer: seq<Header>, n: nat, size: nat)
    requires |outer| <= |inner| && inner[..|outer|] == outer && n == |inner| - |outer| && size == |bottom + inner|
    ensures (bottom + inner)[..size - n] == bottom + outer
  {
  }

  // ---------------------------------------------------------------- the loop

  /** What the stack itself holds for an entry. */
  function Tag(e: Entry): (t: (Node, Walk))
  {
    (e.node, Walk(e.level, |e.path|))
  }

  function Tags(work: seq<Entry>): (r: seq<(Node, Walk)>)
  {
    Map(Tag, work)
  }

  function NodeSize(node: Node): (n: nat)
    decreases node, 1
  {
    1 + ForestSize(node.children)
  }

  function ForestSize(nodes: seq<Node>): (n: nat)
    decreases nodes, 0
  {
    if nodes == [] then 0 else NodeSize(nodes[0]) + ForestSize(nodes[1..])
  }

  /** How many visits the work stack still stands for. */
  function WorkSize(work: seq<Entry>): (n: nat)
  {
    if work == [] then 0 else WorkSize(work[..|work| - 1]) + NodeSize(work[|work| - 1].node)
  }

  lemma {:induction false} PushedAt(base: seq<Entry>, path: seq<Node>, nodes: seq<Node>, level: nat)
    ensures |Pushed(path, nodes, level)| == |nodes|
    ensures forall i | 0 <= i < |nodes| :: Pushed(path, nodes, level)[i] == Entry(path, nodes[|nodes| - 1 - i], level)
    ensures WorkSize(base + Pushed(path, nodes, level)) == WorkSize(base) + ForestSize(nodes)
  {
    if nodes == [] {
      assert base + Pushed(path, nodes, level) == base;
    } else {
      PushedAt(base, path, nodes[1..], level);
      PushedSplit(base, path, nodes, level);
      var work := base + Pushed(path, nodes, level);
      assert work[..|work| - 1] == base + Pushed(path, nodes[1..], level);
    }
  }

  method PushSyntheticUnitRoot(lang: Language, states: seq<State>, root: Node) returns (r: seq<State>)
    ensures r == states + (if NeedsSyntheticRoot(lang, root) then [State(Open(lang, [], root, Unit), NO_MAPS)] else [])
  {
    r := states;
    if lang.kindOf([], root) != Unit {
      r := r + [State(Open(lang, [], root, Unit), NO_MAPS)];
    }
  }

  /** Children go on in source order and the new tail is reversed in place. */
  method PushChildren(stack: seq<(Node, Walk)>, node: Node, walk: Walk, ghost path: seq<Node>)
    returns (r: seq<(Node, Walk)>)
    requires |path| == walk.depth
    ensures r == stack + Tags(Pushed(path, node.children, walk.level))
  {
    var first := |stack|;
    r := stack + Map(child => (child, walk), node.children);
    r := r[..first] + Reverse(r[first..]);
    PushedAt([], path, node.children, walk.level);
    assert r[first..] == Tags(Pushed(path, node.children, walk.level));
  }

  /** What the walk returns, stated on the tree. */
  ghost function WalkOutcome(lang: Language, root: Node, name: Option<string>): (r: Result<Ops, MetricsError>)
  {
    match FoldNode(lang, [], root, Bottom(lang, root))
    case None => Err(EmptyRoot)
    case Some(s) => Ok(Closed(lang, s).(name := name))
  }

  /** Each entry knows its path, which the chain still holds, and its level counts the spaces open on that path. */
  ghost predicate OnChain(lang: Language, root: Node, work: seq<Entry>, chain: seq<Node>, last: nat) {
    && Ladder(work)
    && (chain == [] ==> |work| <= 1)
    && forall i | 0 <= i < |work| :: EntryOnChain(lang, root, work[i], chain, last)
  }

  ghost predicate EntryOnChain(lang: Language, root: Node, e: Entry, chain: seq<Node>, last: nat) {
    && e.level <= last
    && e.level == |OpenOn(lang, e.path)|
    && e.path <= chain
    && if chain == [] then e == Entry([], root, 0) else e.path != [] && e.path[0] == root
  }

  /** The open states are the synthetic root, if any, and the promoted nodes on the chain. */
  ghost predicate FramesMatch(lang: Language, bottom: seq<Header>, chain: seq<Node>, states: seq<State>, last: nat) {
    && StateHeaders(states) == bottom + OpenOn(lang, chain)
    && last == |OpenOn(lang, chain)|
  }

  function LevelBelow(lang: Language, e: Entry): (level: nat)
  {
    if lang.promotes(e.path, e.node) then e.level + 1 else e.level
  }

  /** The open states once `e` has been visited, its children still to come. */
  function Visited(lang: Language, e: Entry, closed: seq<State>): (r: seq<State>)
  {
    CountOnTop(lang, e.path, e.node,
               if lang.promotes(e.path, e.node) then closed + [OpenPromoted(lang, e.path, e.node)] else closed)
  }

  lemma {:induction false} LowerEntryStaysOnChain(lang: Language, root: Node, lower: Entry, e: Entry,
                                                  chain: seq<Node>, last: nat)
    requires EntryOnChain(lang, root, lower, chain, last) && EntryOnChain(lang, root, e, chain, last)
    requires chain != [] && |lower.path| <= |e.path| && lower.level <= e.level
    ensures EntryOnChain(lang, root, lower, e.path + [e.node], LevelBelow(lang, e))
  {
    assert chain[..|lower.path|] == lower.path && chain[..|e.path|] == e.path;
    assert lower.path == e.path[..|lower.path|];
  }

  lemma {:induction false} OpenOnSnoc(lang: Language, path: seq<Node>, node: Node)
    ensures OpenOn(lang, path + [node]) == OpenOn(lang, path) + HeaderAt(lang, path, node)
  {
    var below := path + [node];
    assert below[..|below| - 1] == path;
  }

  lemma {:induction false} ChildIsOnChain(lang: Language, root: Node, e: Entry, child: Node, chain: seq<Node>, last: nat)
    requires EntryOnChain(lang, root, e, chain, last)
    ensures EntryOnChain(lang, root, Entry(e.path + [e.node], child, LevelBelow(lang, e)),
                         e.path + [e.node], LevelBelow(lang, e))
  {
    OpenOnSnoc(lang, e.path, e.node);
    assert chain != [] ==> (e.path + [e.node])[0] == e.path[0];
  }

  lemma {:induction false} VisitKeepsChain(lang: Language, root: Node, base: seq<Entry>, e: Entry, chain: seq<Node>, last: nat)
    requires OnChain(lang, root, base + [e], chain, last)
    ensures |e.path| <= |chain| && chain[..|e.path|] == e.path && EntryOnChain(lang, root, e, chain, last)
    ensures var below := e.path + [e.node];
            OnChain(lang, root, base + Pushed(below, e.node.children, LevelBelow(lang, e)), below, LevelBelow(lang, e))
  {
    var below, level := e.path + [e.node], LevelBelow(lang, e);
    var old0 := base + [e];
    var pushed := Pushed(below, e.node.children, level);
    var work := base + pushed;
    PushedAt(base, below, e.node.children, level);
    assert old0[|base|] == e;
    assert EntryOnChain(lang, root, old0[|base|], chain, last);
    forall i | 0 <= i < |base| ensures EntryOnChain(lang, root, base[i], below, level)
        && base[i].level <= e.level && |base[i].path| <= |e.path| {
      assert old0[i] == base[i];
      assert EntryOnChain(lang, root, old0[i], chain, last);
      LowerEntryStaysOnChain(lang, root, base[i], e, chain, last);
    }
    forall i | 0 <= i < |pushed| ensures EntryOnChain(lang, root, pushed[i], below, level)
        && pushed[i].level == level && pushed[i].path == below {
      ChildIsOnChain(lang, root, e, e.node.children[|pushed| - 1 - i], chain, last);
    }
    LadderUp(base, pushed, old0, e, level);
  }

  lemma LadderUp(base: seq<Entry>, pushed: seq<Entry>, work: seq<Entry>, e: Entry, level: nat)
    requires Ladder(work) && work == base + [e] && e.level <= level
    requires forall i | 0 <= i < |base| :: base[i].level <= e.level && |base[i].path| <= |e.path|
    requires forall i | 0 <= i < |pushed| :: pushed[i].level == level && |pushed[i].path| == |e.path| + 1
    ensures Ladder(base + pushed)
  {
    forall i, j | 0 <= i < j < |base| ensures base[i].level <= base[j].level && |base[i].path| <= |base[j].path| {
      assert work[i] == base[i] && work[j] == base[j];
    }
  }

  lemma CloseToIsClose(lang: Language, states: seq<State>, last: nat, level: nat)
    requires level <= last
    ensures CloseTo(lang, states, last, level) == Close(lang, states, last - level)
  {
  }

  lemma {:induction false} ClosingToKeepsFrames(lang: Language, bottom: seq<Header>, chain: seq<Node>,
                                                states: seq<State>, last: nat, path: seq<Node>, level: nat)
    requires path != [] && path <= chain
    requires bottom == [] ==> lang.promotes([], path[0])
    requires FramesMatch(lang, bottom, chain, states, last) && level == |OpenOn(lang, path)|
    ensures level <= last && last - level < |states|
    ensures FramesMatch(lang, bottom, path, CloseTo(lang, states, last, level), level)
  {
    ClosingReachesTheFramesOf(lang, bottom, chain, states, last, path, level);
    CloseToIsClose(lang, states, last, level);
  }

  /** Closing back to an entry leaves the frames of its path, and never meets the short-stack guard. */
  lemma {:induction false} ClosingKeepsFrames(lang: Language, root: Node, bottom: seq<Header>, chain: seq<Node>,
                                              states: seq<State>, last: nat, e: Entry)
    requires bottom == [] ==> lang.promotes([], root)
    requires FramesMatch(lang, bottom, chain, states, last)
    requires EntryOnChain(lang, root, e, chain, last)
    ensures FramesMatch(lang, bottom, e.path, CloseTo(lang, states, last, e.level), e.level)
    ensures e.level < last ==> last - e.level < |states|
  {
    if chain == [] {
      assert e.path == chain && last == e.level;
    } else {
      ClosingToKeepsFrames(lang, bottom, chain, states, last, e.path, e.level);
    }
  }

  lemma {:induction false} VisitKeepsFrames(lang: Language, bottom: seq<Header>, closed: seq<State>, e: Entry)
    requires FramesMatch(lang, bottom, e.path, closed, e.level)
    ensures FramesMatch(lang, bottom, e.path + [e.node], Visited(lang, e, closed), LevelBelow(lang, e))
  {
    var below := e.path + [e.node];
    OpenOnSnoc(lang, e.path, e.node);
    var grown := if lang.promotes(e.path, e.node) then closed + [OpenPromoted(lang, e.path, e.node)] else closed;
    assert StateHeaders(grown) == bottom + OpenOn(lang, below);
    assert StateHeaders(Visited(lang, e, closed)) == StateHeaders(grown);
  }

  lemma VisitedOpening(lang: Language, e: Entry, closed: seq<State>)
    requires lang.promotes(e.path, e.node)
    ensures Visited(lang, e, closed) == closed + [Started(lang, e)] && LevelBelow(lang, e) == e.level + 1
  {
  }

  /** The state a promoted node opens, once its subtree has been visited. */
  ghost function InnerState(lang: Language, e: Entry): (s: State)
  {
    FoldForest(lang, e.path + [e.node], e.node.children,
               Some(Count(lang, e.path, e.node, OpenPromoted(lang, e.path, e.node)))).value
  }

  lemma GraftOpened(closed: seq<State>, started: State, inner: State)
    ensures Top(closed + [started]) == Some(started)
    ensures Graft(closed + [started], Some(inner)) == closed + [inner]
  {
  }

  /** A node's counted state, just opened. */
  function Started(lang: Language, e: Entry): (s: State)
  {
    Count(lang, e.path, e.node, OpenPromoted(lang, e.path, e.node))
  }

  lemma {:induction false} StartedForest(lang: Language, e: Entry)
    ensures FoldForest(lang, e.path + [e.node], e.node.children, Some(Started(lang, e))) == Some(InnerState(lang, e))
  {
  }

  lemma {:induction false} PushedBelowOpening(lang: Language, base: seq<Entry>, e: Entry, closed: seq<State>, level: nat)
    ensures Resume(lang, base + Pushed(e.path + [e.node], e.node.children, level), closed + [Started(lang, e)], level) ==
            Resume(lang, base, closed + [InnerState(lang, e)], level)
  {
    PushedIsForest(lang, base, e.path + [e.node], e.node.children, closed + [Started(lang, e)], level);
    StartedForest(lang, e);
    GraftOpened(closed, Started(lang, e), InnerState(lang, e));
  }

  lemma {:induction false} OpenedFold(lang: Language, e: Entry, closed: seq<State>)
    requires lang.promotes(e.path, e.node)
    ensures Graft(closed, FoldNode(lang, e.path, e.node, Top(closed))) == WithClosed(lang, closed, InnerState(lang, e))
  {
  }

  lemma {:induction false} OpenedResume(lang: Language, base: seq<Entry>, e: Entry, states: seq<State>, last: nat)
    requires lang.promotes(e.path, e.node)
    ensures Resume(lang, base + [e], states, last) ==
            Resume(lang, base, WithClosed(lang, CloseTo(lang, states, last, e.level), InnerState(lang, e)), e.level)
  {
    ResumeStep(lang, base, e, states, last);
    OpenedFold(lang, e, CloseTo(lang, states, last, e.level));
  }

  lemma {:induction false} OpenedDrains(lang: Language, base: seq<Entry>, e: Entry, closed: seq<State>)
    requires base != [] ==> base[|base| - 1].level <= e.level
    requires lang.promotes(e.path, e.node)
    ensures Drain(lang, Resume(lang, base + Pushed(e.path + [e.node], e.node.children, LevelBelow(lang, e)),
                               Visited(lang, e, closed), LevelBelow(lang, e)))
            == Drain(lang, Resume(lang, base, WithClosed(lang, closed, InnerState(lang, e)), e.level))
  {
    VisitedOpening(lang, e, closed);
    PushedBelowOpening(lang, base, e, closed, LevelBelow(lang, e));
    LateCloseIsClose(lang, base, closed, InnerState(lang, e), e.level, LevelBelow(lang, e));
  }

  /** One turn of the loop on a node that opens a space changes nothing about the outcome. */
  lemma {:induction false} OpeningVisitKeepsOutcome(lang: Language, base: seq<Entry>, e: Entry,
                                                    states: seq<State>, last: nat)
    requires base != [] ==> base[|base| - 1].level <= e.level
    requires lang.promotes(e.path, e.node)
    ensures Drain(lang, Resume(lang, base + Pushed(e.path + [e.node], e.node.children, LevelBelow(lang, e)),
                               Visited(lang, e, CloseTo(lang, states, last, e.level)), LevelBelow(lang, e)))
            == Drain(lang, Resume(lang, base + [e], states, last))
  {
    OpenedDrains(lang, base, e, CloseTo(lang, states, last, e.level));
    OpenedResume(lang, base, e, states, last);
  }

  /** Neither does a turn on any other node. */
  lemma {:induction false} PlainVisitKeepsOutcome(lang: Language, base: seq<Entry>, e: Entry,
                                                  states: seq<State>, last: nat)
    requires !lang.promotes(e.path, e.node)
    ensures Drain(lang, Resume(lang, base + Pushed(e.path + [e.node], e.node.children, LevelBelow(lang, e)),
                               Visited(lang, e, CloseTo(lang, states, last, e.level)), LevelBelow(lang, e)))
            == Drain(lang, Resume(lang, base + [e], states, last))
  {
    var closed := CloseTo(lang, states, last, e.level);
    var below, kids, counted := e.path + [e.node], e.node.children, Visited(lang, e, closed);
    ResumeStep(lang, base, e, states, last);
    PushedIsForest(lang, base, below, kids, counted, e.level);
    var next := FoldForest(lang, below, kids, Top(counted));
    assert Graft(counted, next) == Graft(closed, next);
  }

  lemma {:induction false} VisitKeepsOutcome(lang: Language, base: seq<Entry>, e: Entry, states: seq<State>, last: nat)
    requires base != [] ==> base[|base| - 1].level <= e.level
    ensures Drain(lang, Resume(lang, base + Pushed(e.path + [e.node], e.node.children, LevelBelow(lang, e)),
                               Visited(lang, e, CloseTo(lang, states, last, e.level)), LevelBelow(lang, e)))
            == Drain(lang, Resume(lang, base + [e], states, last))
  {
    if lang.promotes(e.path, e.node) {
      OpeningVisitKeepsOutcome(lang, base, e, states, last);
    } else {
      PlainVisitKeepsOutcome(lang, base, e, states, last);
    }
  }

  /** The frame a non-`Unit` root is wrapped in, if any. */
  function Bottom(lang: Language, root: Node): (r: Option<State>)
  {
    if NeedsSyntheticRoot(lang, root) then Some(State(Open(lang, [], root, Unit), NO_MAPS)) else None
  }

  lemma {:induction false} DrainedIsOneState(lang: Language, root: Node, bottom: Option<State>)
    ensures Drain(lang, Resume(lang, [Entry([], root, 0)], Graft([], bottom), 0)) ==
            Graft([], FoldNode(lang, [], root, bottom))
  {
    assert [] + [Entry([], root, 0)] == [Entry([], root, 0)];
    ResumeStep(lang, [], Entry([], root, 0), Graft([], bottom), 0);
  }

  /** Everything the loop keeps. */
  ghost predicate Walking(lang: Language, root: Node, work: seq<Entry>, chain: seq<Node>, states: seq<State>, last: nat) {
    && OnChain(lang, root, work, chain, last)
    && (OpensFrame(lang, root) ==>
          FramesMatch(lang, StateHeaders(Graft([], Bottom(lang, root))), chain, states, last))
    && Drain(lang, Resume(lang, work, states, last)) == Graft([], FoldNode(lang, [], root, Bottom(lang, root)))
  }

  lemma {:induction false} WalkStarts(lang: Language, root: Node)
    ensures Walking(lang, root, [Entry([], root, 0)], [], Graft([], Bottom(lang, root)), 0)
  {
    DrainedIsOneState(lang, root, Bottom(lang, root));
    var work := [Entry([], root, 0)];
    assert EntryOnChain(lang, root, work[0], [], 0);
    assert FramesMatch(lang, StateHeaders(Graft([], Bottom(lang, root))), [], Graft([], Bottom(lang, root)), 0);
  }

  lemma {:induction false} WalkContinues(lang: Language, root: Node, base: seq<Entry>, e: Entry,
                                         chain: seq<Node>, states: seq<State>, last: nat)
    requires Walking(lang, root, base + [e], chain, states, last)
    ensures |e.path| <= |chain| && chain[..|e.path|] == e.path && e.level <= last
    ensures OpensFrame(lang, root) && e.level < last ==> last - e.level < |states|
    ensures var below, level := e.path + [e.node], LevelBelow(lang, e);
            Walking(lang, root, base + Pushed(below, e.node.children, level), below,
                    Visited(lang, e, CloseTo(lang, states, last, e.level)), level)
  {
    VisitKeepsChain(lang, root, base, e, chain, last);
    if base != [] {
      var work := base + [e];
      assert work[|base| - 1] == base[|base| - 1] && work[|base|] == e;
    }
    VisitKeepsOutcome(lang, base, e, states, last);
    if OpensFrame(lang, root) {
      var bottom := StateHeaders(Graft([], Bottom(lang, root)));
      ClosingKeepsFrames(lang, root, bottom, chain, states, last, e);
      VisitKeepsFrames(lang, bottom, CloseTo(lang, states, last, e.level), e);
    }
  }

  /** The work left once the last entry has been visited. */
  function NextWork(lang: Language, work: seq<Entry>): (r: seq<Entry>)
    requires work != []
  {
    var e := work[|work| - 1];
    work[..|work| - 1] + Pushed(e.path + [e.node], e.node.children, LevelBelow(lang, e))
  }

  /** What one turn of the loop needs to know about the entry it pops, and what it leaves true. */
  lemma {:induction false} LoopTurn(lang: Language, root: Node, work: seq<Entry>, stack: seq<(Node, Walk)>,
                                    chain: seq<Node>, states: seq<State>, last: nat)
    requires Tags(work) == stack && stack != []
    requires Walking(lang, root, work, chain, states, last)
    ensures var e := work[|work| - 1];
            var below, level := e.path + [e.node], LevelBelow(lang, e);
            && Tag(e) == stack[|stack| - 1]
            && |e.path| <= |chain| && chain[..|e.path|] == e.path && e.level <= last
            && Tags(NextWork(lang, work)) == stack[..|stack| - 1] + Tags(Pushed(below, e.node.children, level))
            && Walking(lang, root, NextWork(lang, work), below,
                       Visited(lang, e, CloseTo(lang, states, last, e.level)), level)
            && WorkSize(NextWork(lang, work)) < WorkSize(work)
  {
    var e, base := work[|work| - 1], work[..|work| - 1];
    var below, level := e.path + [e.node], LevelBelow(lang, e);
    assert work == base + [e];
    WalkContinues(lang, root, base, e, chain, states, last);
    MapConcat(Tag, base, Pushed(below, e.node.children, level));
    assert Tags(base) == stack[..|stack| - 1];
    PushedAt(base, below, e.node.children, level);
  }

  /** The turn of the loop that visits one node: close what is left behind, open a space, count. */
  method VisitNode(lang: Language, chain: seq<Node>, node: Node, level: nat, states: seq<State>, lastLevel: nat)
    returns (next: seq<State>, newLevel: nat, newLast: nat)
    requires level <= lastLevel
    ensures var e := Entry(chain, node, level);
            && next == Visited(lang, e, CloseTo(lang, states, lastLevel, level))
            && newLevel == LevelBelow(lang, e) == newLast
  {
    next, newLast := states, lastLevel;
    if level < newLast {
      next := Finalize(lang, next, newLast - level);
      newLast := level;
    }
    if lang.promotes(chain, node) {
      var kind := lang.kindOf(chain, node);
      next := next + [State(Open(lang, chain, node, kind), NO_MAPS)];
      newLast := level + 1;
      newLevel := newLast;
    } else {
      newLevel := level;
    }
    if next != [] {
      next := next[..|next| - 1] + [Count(lang, chain, node, next[|next| - 1])];
    }
  }

  /** Given a frame at the root, the walk's outcome is the file's space tree. */
  lemma {:induction false} FramedOutcomeIsFileSpace(lang: Language, root: Node, name: Option<string>)
    requires OpensFrame(lang, root)
    ensures WalkOutcome(lang, root, name) == Ok(FileSpace(lang, root, name))
  {
    if NeedsSyntheticRoot(lang, root) {
      var bottom := State(Open(lang, [], root, Unit), NO_MAPS);
      FoldNodeAddsItsSpaces(lang, [], root, bottom);
      MergeLaws(Total(lang, [], root), NO_MAPS, NO_MAPS);
      assert Grown(bottom, SubSpaces(lang, [], [root]), Total(lang, [], root)) ==
             State(bottom.ops.(spaces := SubSpaces(lang, [], [root])), Total(lang, [], root));
    } else {
      PromotedRootFolds(lang, root);
    }
  }

  lemma {:induction false} PromotedRootFolds(lang: Language, root: Node)
    requires lang.promotes([], root)
    ensures FoldNode(lang, [], root, None).Some?
    ensures Closed(lang, FoldNode(lang, [], root, None).value) == SpaceOf(lang, [], root)
  {
    var blank := OpenPromoted(lang, [], root);
    var below, own := [] + [root], lang.contribution([], root);
    FoldForestAddsSubSpaces(lang, below, root.children, Count(lang, [], root, blank));
    OpenedGrown(blank, own, SubSpaces(lang, below, root.children), TotalForest(lang, below, root.children));
  }

  /**
   The walk: for every tree and every language, it returns what the recursive fold returns; with a frame at the root,
   that is the file's tree of spaces, each of them the record of its node.
   */
  method OpsInner(lang: Language, root: Node, name: Option<string>) returns (r: Result<Ops, MetricsError>)
    ensures r == WalkOutcome(lang, root, name)
    ensures OpensFrame(lang, root) ==>
              r.Ok? && r.value == FileSpace(lang, root, name) && DescribesFile(lang, root, name, r.value)
  {
    var stack: seq<(Node, Walk)> := [];
    var chain: seq<Node> := [];
    var states: seq<State> := [];
    var lastLevel := 0;
    states := PushSyntheticUnitRoot(lang, states, root);
    stack := stack + [(root, Walk(0, 0))];

    ghost var work := [Entry([], root, 0)];
    WalkStarts(lang, root);
    while stack != []
      invariant Tags(work) == stack
      invariant Walking(lang, root, work, chain, states, lastLevel)
      decreases WorkSize(work)
    {
      LoopTurn(lang, root, work, stack, chain, states, lastLevel);
      var (node, Walk(level, depth)) := stack[|stack| - 1];
      stack := stack[..|stack| - 1];
      chain := chain[..depth];
      var newLevel;
      states, newLevel, lastLevel := VisitNode(lang, chain, node, level, states, lastLevel);
      chain := chain + [node];
      stack := PushChildren(stack, node, Walk(newLevel, depth + 1), chain);
      work := NextWork(lang, work);
    }
    r := Finish(lang, root, name, states);
    if OpensFrame(lang, root) {
      FramedOutcomeIsFileSpace(lang, root, name);
      FileIsDescribed(lang, root, name);
    }
  }

  /** The final drain; the root's vocabulary is built once, from the fully merged counts. */
  method Finish(lang: Language, root: Node, name: Option<string>, states: seq<State>)
    returns (r: Result<Ops, MetricsError>)
    requires Drain(lang, states) == Graft([], FoldNode(lang, [], root, Bottom(lang, root)))
    ensures r == WalkOutcome(lang, root, name)
  {
    var drained := Finalize(lang, states, |states|);
    if drained == [] {
      return Err(EmptyRoot);
    }
    var ops := ComputeOperatorsAndOperands(lang, drained[|drained| - 1]);
    r := Ok(ops.(name := name));
  }
}
