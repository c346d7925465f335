/** What each space of the tree says, in terms of the node it was opened for. */
module SpaceContents {
  import opened Wrappers
  import opened ByteStrings
  import opened Sequences
  import opened Sorting
  import opened Vocabularies
  import opened SpaceTree
  import opened SpaceVocabularies

  /** The spaces of a list of trees, in pre-order. */
  function PreOrder(spaces: seq<Ops>): (r: seq<Ops>)
  {
    if spaces == [] then [] else [spaces[0]] + PreOrder(spaces[0].spaces) + PreOrder(spaces[1..])
  }

  function PromotedVisits(lang: Language, visits: seq<Visit>): (r: seq<Visit>)
  {
    if visits == [] then []
    else (if lang.promotes(visits[0].path, visits[0].node) then [visits[0]] else []) + PromotedVisits(lang, visits[1..])
  }

  // ---------------------------------------------------------------- vocabularies

  /** Some visited node counts this operand, primitive type or token. */
  ghost predicate Operand(lang: Language, visits: seq<Visit>, key: Bytes) {
    exists v :: v in visits && key in lang.contribution(v.path, v.node).operands
  }

  ghost predicate Primitive(lang: Language, visits: seq<Visit>, key: Bytes) {
    exists v :: v in visits && key in lang.contribution(v.path, v.node).primitives
  }

  ghost predicate Token(lang: Language, visits: seq<Visit>, id: nat) {
    exists v :: v in visits && id in lang.contribution(v.path, v.node).operators
  }

  ghost predicate ShowsOperand(lang: Language, visits: seq<Visit>, x: Bytes) {
    exists key :: Operand(lang, visits, key) && ShownAs(lang, key, x)
  }

  ghost predicate ShowsOperator(lang: Language, visits: seq<Visit>, x: Bytes) {
    || (exists id :: Token(lang, visits, id) && ShownAs(lang, lang.operatorText(id), x))
    || (exists key :: Primitive(lang, visits, key) && ShownAs(lang, key, x))
  }

  /** A key is shown as it is, or as what the decoder makes of it when it loses bytes. */
  predicate ShownAs(lang: Language, key: Bytes, x: Bytes) {
    match lang.decode(key) case Borrowed => x == key case Owned(text) => x == text
  }

  /** Each entry is a prefix of the next or smaller where they first differ. */
  ghost predicate InByteOrder(entries: seq<Bytes>) {
    forall i, j | 0 <= i < j < |entries| :: Precedes(entries[i], entries[j])
  }

  ghost predicate ListsEntries(lang: Language, visits: seq<Visit>, ops: Ops) {
    && (forall x :: x in ops.operands <==> ShowsOperand(lang, visits, x))
    && (forall x :: x in ops.operators <==> ShowsOperator(lang, visits, x))
    && InByteOrder(ops.operands) && InByteOrder(ops.operators)
  }

  lemma {:induction false} SumHolds(lang: Language, visits: seq<Visit>, key: Bytes, id: nat)
    ensures var m := SumContributions(lang, visits);
            && (key in m.operands <==> Operand(lang, visits, key))
            && (key in m.primitives <==> Primitive(lang, visits, key))
            && (id in m.operators <==> Token(lang, visits, id))
  {
    if visits == [] {
    } else {
      var rest := visits[1..];
      SumHolds(lang, rest, key, id);
      assert visits[0] in visits && forall v | v in rest :: v in visits;
      var c := lang.contribution(visits[0].path, visits[0].node);
      assert Operand(lang, visits, key) <==> key in c.operands || Operand(lang, rest, key);
      assert Primitive(lang, visits, key) <==> key in c.primitives || Primitive(lang, rest, key);
      assert Token(lang, visits, id) <==> id in c.operators || Token(lang, rest, id);
    }
  }

  lemma ShownIsText(lang: Language, key: Bytes, x: Bytes)
    ensures ShownAs(lang, key, x) <==> Text(lang.decode, key) == x
  {
  }

  lemma OperandListed(lang: Language, visits: seq<Visit>, x: Bytes)
    ensures x in OperandVocabulary(lang, SumContributions(lang, visits)) <==> ShowsOperand(lang, visits, x)
  {
    var m := SumContributions(lang, visits);
    var keys := Listing(Distinct(m.operands));
    VocabularyEntries(lang.decode, keys, x);
    forall key ensures key in keys <==> Operand(lang, visits, key) {
      SumHolds(lang, visits, key, 0);
      ListingHolds(keys, Distinct(m.operands), key);
    }
    if key :| key in keys && Text(lang.decode, key) == x {
      ShownIsText(lang, key, x);
    }
    if key :| Operand(lang, visits, key) && ShownAs(lang, key, x) {
      ShownIsText(lang, key, x);
    }
  }

  lemma OperatorListed(lang: Language, visits: seq<Visit>, x: Bytes)
    ensures x in OperatorVocabulary(lang, SumContributions(lang, visits)) <==> ShowsOperator(lang, visits, x)
  {
    var m := SumContributions(lang, visits);
    var keys := OperatorKeys(lang, m);
    VocabularyEntries(lang.decode, keys, x);
    if key :| key in keys && Text(lang.decode, key) == x {
      ShownIsText(lang, key, x);
      KeyCounted(lang, visits, key);
    }
    if id :| Token(lang, visits, id) && ShownAs(lang, lang.operatorText(id), x) {
      ShownIsText(lang, lang.operatorText(id), x);
      SumHolds(lang, visits, [], id);
      var k := OperatorPlace(lang, m, id);
      assert keys[k] in keys;
    }
    if key :| Primitive(lang, visits, key) && ShownAs(lang, key, x) {
      ShownIsText(lang, key, x);
      SumHolds(lang, visits, key, 0);
      var k := PrimitivePlace(lang, m, key);
      assert keys[k] in keys;
    }
  }

  lemma KeyCounted(lang: Language, visits: seq<Visit>, key: Bytes)
    requires key in OperatorKeys(lang, SumContributions(lang, visits))
    ensures (exists id :: Token(lang, visits, id) && lang.operatorText(id) == key) || Primitive(lang, visits, key)
  {
    var m := SumContributions(lang, visits);
    var k :| 0 <= k < |OperatorKeys(lang, m)| && OperatorKeys(lang, m)[k] == key;
    OperatorKeysAt(lang, m, k);
    var ids := Listing(Distinct(m.operators));
    SumHolds(lang, visits, key, if k < |ids| then ids[k] else 0);
  }

  lemma VocabularyInOrder(decode: Decoder, keys: seq<Bytes>)
    ensures InByteOrder(Vocabulary(decode, keys))
  {
    LexIsTotalOrder();
    SortSorts(LexLe, Rendered(decode, keys));
    var entries := Vocabulary(decode, keys);
    forall i, j | 0 <= i < j < |entries| ensures Precedes(entries[i], entries[j]) {
      LexIsPrecedes(entries[i], entries[j]);
    }
  }

  lemma ClosedLists(lang: Language, visits: seq<Visit>, ops: Ops)
    requires var m := SumContributions(lang, visits);
             ops.operators == OperatorVocabulary(lang, m) && ops.operands == OperandVocabulary(lang, m)
    ensures ListsEntries(lang, visits, ops)
  {
    var m := SumContributions(lang, visits);
    forall x ensures x in ops.operands <==> ShowsOperand(lang, visits, x) {
      OperandListed(lang, visits, x);
    }
    forall x ensures x in ops.operators <==> ShowsOperator(lang, visits, x) {
      OperatorListed(lang, visits, x);
    }
    VocabularyInOrder(lang.decode, OperatorKeys(lang, m));
    VocabularyInOrder(lang.decode, Listing(Distinct(m.operands)));
  }

  // ---------------------------------------------------------------- the record of one node

  function FirstLine(node: Node, kind: SpaceKind): (line: nat)
  {
    if kind != Unit then node.startRow + 1 else if node.endLine > 0 then 1 else 0
  }

  /**
   The record of a promoted node: its kind; its name, which a nested unit never has; its 1-based line span, which
   for a unit begins at the file's first line; the entries of its whole subtree; and one space below it per
   promoted descendant.
   */
  ghost predicate Describes(lang: Language, v: Visit, ops: Ops) {
    && ops.kind == lang.kindOf(v.path, v.node)
    && ops.name == (if lang.kindOf(v.path, v.node) == Unit then None else lang.nameOf(v.path, v.node))
    && !ops.nameWasLossy
    && ops.startLine == FirstLine(v.node, lang.kindOf(v.path, v.node)) && ops.endLine == v.node.endLine
    && ListsEntries(lang, Visits(v.path, [v.node]), ops)
    && |PreOrder(ops.spaces)| == |PromotedVisits(lang, Visits(v.path + [v.node], v.node.children))|
  }

  ghost predicate AllDescribed(lang: Language, visits: seq<Visit>, spaces: seq<Ops>) {
    |spaces| == |visits| && forall i | 0 <= i < |visits| :: Describes(lang, visits[i], spaces[i])
  }

  lemma TotalIsSum(lang: Language, path: seq<Node>, node: Node)
    ensures Total(lang, path, node) == SumContributions(lang, Visits(path, [node]))
  {
    TotalCountsEachNodeOnce(lang, path, [node]);
    assert TotalForest(lang, path, []) == NO_MAPS;
    MergeLaws(Total(lang, path, node), NO_MAPS, NO_MAPS);
  }

  lemma {:induction false} PreOrderConcat(a: seq<Ops>, b: seq<Ops>)
    ensures PreOrder(a + b) == PreOrder(a) + PreOrder(b)
  {
    if a == [] {
      assert a + b == b;
    } else {
      assert (a + b)[1..] == a[1..] + b;
      PreOrderConcat(a[1..], b);
      Regroup([a[0]] + PreOrder(a[0].spaces), PreOrder(a[1..]), PreOrder(b));
    }
  }

  lemma PreOrderOfOne(ops: Ops)
    ensures PreOrder([ops]) == [ops] + PreOrder(ops.spaces)
  {
    assert [ops][1..] == [];
    assert PreOrder([ops]) == [ops] + PreOrder(ops.spaces) + [];
  }

  lemma {:induction false} PromotedConcat(lang: Language, a: seq<Visit>, b: seq<Visit>)
    ensures PromotedVisits(lang, a + b) == PromotedVisits(lang, a) + PromotedVisits(lang, b)
  {
    if a == [] {
      assert a + b == b;
    } else {
      var here := if lang.promotes(a[0].path, a[0].node) then [a[0]] else [];
      assert (a + b)[1..] == a[1..] + b;
      PromotedConcat(lang, a[1..], b);
      Regroup(here, PromotedVisits(lang, a[1..]), PromotedVisits(lang, b));
    }
  }

  lemma PromotedStep(lang: Language, path: seq<Node>, n: Node, after: seq<Visit>)
    ensures PromotedVisits(lang, [Visit(path, n)] + Visits(path + [n], n.children) + after)
         == (if lang.promotes(path, n) then [Visit(path, n)] else []) + PromotedVisits(lang, Visits(path + [n], n.children))
            + PromotedVisits(lang, after)
  {
    var here, below := [Visit(path, n)], Visits(path + [n], n.children);
    PromotedConcat(lang, here + below, after);
    PromotedConcat(lang, here, below);
    assert here[1..] == [];
    var one := if lang.promotes(path, n) then here else [];
    assert PromotedVisits(lang, here) == one + [] == one;
  }

  lemma DescribedConcat(lang: Language, v: seq<Visit>, s: seq<Ops>, w: seq<Visit>, t: seq<Ops>)
    requires AllDescribed(lang, v, s) && AllDescribed(lang, w, t)
    ensures AllDescribed(lang, v + w, s + t)
  {
  }

  /** The space of one promoted node is described by it, once those below it are. */
  lemma SpaceIsDescribed(lang: Language, path: seq<Node>, n: Node)
    requires AllDescribed(lang, PromotedVisits(lang, Visits(path + [n], n.children)),
                          PreOrder(SubSpaces(lang, path + [n], n.children)))
    ensures Describes(lang, Visit(path, n), SpaceOf(lang, path, n))
  {
    TotalIsSum(lang, path, n);
    ClosedLists(lang, Visits(path, [n]), SpaceOf(lang, path, n));
  }

  /** Every space of a forest, in pre-order, is the record of the promoted node in its place. */
  lemma {:induction false} SpacesAreDescribed(lang: Language, path: seq<Node>, nodes: seq<Node>)
    ensures AllDescribed(lang, PromotedVisits(lang, Visits(path, nodes)), PreOrder(SubSpaces(lang, path, nodes)))
    decreases nodes
  {
    if nodes == [] {
    } else {
      var n, rest := nodes[0], nodes[1..];
      var promoted, spaces := PromotedVisits(lang, Visits(path + [n], n.children)), SubSpaces(lang, path + [n], n.children);
      SpacesAreDescribed(lang, path + [n], n.children);
      SpacesAreDescribed(lang, path, rest);
      PromotedStep(lang, path, n, Visits(path, rest));
      if lang.promotes(path, n) {
        var space := SpaceOf(lang, path, n);
        SpaceIsDescribed(lang, path, n);
        PreOrderConcat([space], SubSpaces(lang, path, rest));
        PreOrderOfOne(space);
        DescribedConcat(lang, [Visit(path, n)], [space], promoted, PreOrder(spaces));
        DescribedConcat(lang, [Visit(path, n)] + promoted, [space] + PreOrder(spaces),
                        PromotedVisits(lang, Visits(path, rest)), PreOrder(SubSpaces(lang, path, rest)));
      } else {
        PreOrderConcat(spaces, SubSpaces(lang, path, rest));
        assert [] + promoted == promoted;
        DescribedConcat(lang, promoted, PreOrder(spaces),
                        PromotedVisits(lang, Visits(path, rest)), PreOrder(SubSpaces(lang, path, rest)));
      }
    }
  }

  // ---------------------------------------------------------------- the tree of a file

  /** The promoted nodes that get a space of their own below the top one: all of them but a `Unit` root. */
  ghost function BelowTop(lang: Language, root: Node): (visits: seq<Visit>)
  {
    PromotedVisits(lang, if lang.kindOf([], root) == Unit then Visits([root], root.children) else Visits([], [root]))
  }

  /** The record of a whole file: a unit with the file's name and span and all its entries, over its spaces. */
  ghost predicate DescribesFile(lang: Language, root: Node, name: Option<string>, top: Ops) {
    && top.kind == Unit && top.name == name && !top.nameWasLossy
    && top.startLine == FirstLine(root, Unit) && top.endLine == root.endLine
    && ListsEntries(lang, Visits([], [root]), top)
    && AllDescribed(lang, BelowTop(lang, root), PreOrder(top.spaces))
  }

  lemma WrappedIsDescribed(lang: Language, root: Node, name: Option<string>)
    requires lang.kindOf([], root) != Unit
    ensures DescribesFile(lang, root, name, FileSpace(lang, root, name))
  {
    TotalIsSum(lang, [], root);
    ClosedLists(lang, Visits([], [root]), FileSpace(lang, root, name));
    SpacesAreDescribed(lang, [], [root]);
  }

  lemma PromotedIsDescribed(lang: Language, root: Node, name: Option<string>)
    requires lang.kindOf([], root) == Unit && lang.promotes([], root)
    ensures DescribesFile(lang, root, name, FileSpace(lang, root, name))
  {
    assert [] + [root] == [root];
    TotalIsSum(lang, [], root);
    ClosedLists(lang, Visits([], [root]), FileSpace(lang, root, name));
    SpacesAreDescribed(lang, [root], root.children);
  }

  /** The declared tree of a file says of each node what the language does. */
  lemma FileIsDescribed(lang: Language, root: Node, name: Option<string>)
    requires OpensFrame(lang, root)
    ensures DescribesFile(lang, root, name, FileSpace(lang, root, name))
  {
    if lang.kindOf([], root) != Unit {
      WrappedIsDescribed(lang, root, name);
    } else {
      PromotedIsDescribed(lang, root, name);
    }
  }
}
