/** The vocabularies of spaces, by the counts they are rendered from. */
module SpaceVocabularies {
  import opened ByteStrings
  import opened Sequences
  import opened Vocabularies
  import opened SpaceTree

  // ---------------------------------------------------------------- keys

  lemma ListingHolds<T>(r: seq<T>, s: set<T>, x: T)
    requires Lists(r, s)
    ensures x in r <==> x in s
  {
    assert x in r <==> x in multiset(r);
    assert x in s <==> x in multiset(s);
  }

  lemma ListingOnce<T>(r: seq<T>, s: set<T>, i: nat, j: nat)
    requires Lists(r, s) && i < j < |r|
    ensures r[i] != r[j]
  {
    RepeatCountsTwice(r, i, j);
    assert multiset(s)[r[i]] <= 1;
  }

  /** The keys of the two operator maps: token ids by their spelling, primitive types by their text. */
  ghost function OperatorKeys(lang: Language, maps: Maps): (keys: seq<Bytes>)
  {
    Map(lang.operatorText, Listing(Distinct(maps.operators))) + Listing(Distinct(maps.primitives))
  }

  /** Each token id has a spelling of its own, and none is spelled as a primitive type that occurs. */
  ghost predicate SpelledApart(lang: Language, maps: Maps) {
    && (forall i, j | i in maps.operators && j in maps.operators && i != j :: lang.operatorText(i) != lang.operatorText(j))
    && (forall i | i in maps.operators :: lang.operatorText(i) !in maps.primitives)
  }

  lemma OperatorKeysAt(lang: Language, maps: Maps, k: nat)
    requires k < |OperatorKeys(lang, maps)|
    ensures var ids, names := Listing(Distinct(maps.operators)), Listing(Distinct(maps.primitives));
            if k < |ids| then ids[k] in maps.operators && OperatorKeys(lang, maps)[k] == lang.operatorText(ids[k])
            else OperatorKeys(lang, maps)[k] == names[k - |ids|] && names[k - |ids|] in maps.primitives
  {
    var ids, names := Listing(Distinct(maps.operators)), Listing(Distinct(maps.primitives));
    if k < |ids| {
      ListingHolds(ids, Distinct(maps.operators), ids[k]);
    } else {
      ListingHolds(names, Distinct(maps.primitives), names[k - |ids|]);
    }
  }

  lemma SpelledApartNoRepeats(lang: Language, maps: Maps)
    requires SpelledApart(lang, maps)
    ensures NoRepeats(OperatorKeys(lang, maps))
  {
    var ids, names, keys := Listing(Distinct(maps.operators)), Listing(Distinct(maps.primitives)), OperatorKeys(lang, maps);
    forall i, j | 0 <= i < j < |keys| ensures keys[i] != keys[j] {
      OperatorKeysAt(lang, maps, i);
      OperatorKeysAt(lang, maps, j);
      if j < |ids| {
        ListingOnce(ids, Distinct(maps.operators), i, j);
      } else if i >= |ids| {
        ListingOnce(names, Distinct(maps.primitives), i - |ids|, j - |ids|);
      }
    }
  }

  lemma OperatorPlace(lang: Language, maps: Maps, id: nat) returns (k: nat)
    requires id in maps.operators
    ensures k < |Listing(Distinct(maps.operators))| <= |OperatorKeys(lang, maps)|
    ensures Listing(Distinct(maps.operators))[k] == id && OperatorKeys(lang, maps)[k] == lang.operatorText(id)
  {
    var ids := Listing(Distinct(maps.operators));
    ListingHolds(ids, Distinct(maps.operators), id);
    k :| 0 <= k < |ids| && ids[k] == id;
  }

  lemma PrimitivePlace(lang: Language, maps: Maps, name: Bytes) returns (k: nat)
    requires name in maps.primitives
    ensures |Listing(Distinct(maps.operators))| <= k < |OperatorKeys(lang, maps)| && OperatorKeys(lang, maps)[k] == name
  {
    var ids, names := Listing(Distinct(maps.operators)), Listing(Distinct(maps.primitives));
    ListingHolds(names, Distinct(maps.primitives), name);
    var n :| 0 <= n < |names| && names[n] == name;
    k := |ids| + n;
  }

  lemma NoRepeatsSpelledApart(lang: Language, maps: Maps)
    requires NoRepeats(OperatorKeys(lang, maps))
    ensures SpelledApart(lang, maps)
  {
    var keys := OperatorKeys(lang, maps);
    forall i, j | i in maps.operators && j in maps.operators && i != j ensures lang.operatorText(i) != lang.operatorText(j) {
      var k := OperatorPlace(lang, maps, i);
      var l := OperatorPlace(lang, maps, j);
      assert if k < l then keys[k] != keys[l] else keys[l] != keys[k];
    }
    forall i, name | i in maps.operators && name in maps.primitives ensures lang.operatorText(i) != name {
      var k := OperatorPlace(lang, maps, i);
      var l := PrimitivePlace(lang, maps, name);
      assert keys[k] != keys[l];
    }
  }

  // ---------------------------------------------------------------- distinct entries

  /**
   The operators of a space are listed without repetition iff its token ids and primitive types are spelled
   apart, and none of the spellings that lose bytes comes out as another.
   */
  lemma OperatorsDistinctIff(lang: Language, maps: Maps)
    ensures NoRepeats(OperatorVocabulary(lang, maps))
       <==> SpelledApart(lang, maps) && NoLossyClash(lang.decode, OperatorKeys(lang, maps))
  {
    VocabularyDistinctIff(lang.decode, OperatorKeys(lang, maps));
    if SpelledApart(lang, maps) {
      SpelledApartNoRepeats(lang, maps);
    }
    if NoRepeats(OperatorKeys(lang, maps)) {
      NoRepeatsSpelledApart(lang, maps);
    }
  }

  /** On valid text that is all there is to it. */
  lemma ValidOperatorsDistinctIff(lang: Language, maps: Maps)
    requires forall i | i in maps.operators :: lang.decode(lang.operatorText(i)).Borrowed?
    requires forall key | key in maps.primitives :: lang.decode(key).Borrowed?
    ensures NoRepeats(OperatorVocabulary(lang, maps)) <==> SpelledApart(lang, maps)
  {
    OperatorsDistinctIff(lang, maps);
    var keys := OperatorKeys(lang, maps);
    forall k | 0 <= k < |keys| ensures lang.decode(keys[k]).Borrowed? {
      OperatorKeysAt(lang, maps, k);
    }
  }

  /** The operands are listed without repetition iff no operand that loses bytes comes out as another. */
  lemma OperandsDistinctIff(lang: Language, maps: Maps)
    ensures NoRepeats(OperandVocabulary(lang, maps)) <==> NoLossyClash(lang.decode, Listing(Distinct(maps.operands)))
  {
    var keys := Listing(Distinct(maps.operands));
    VocabularyDistinctIff(lang.decode, keys);
    forall i, j | 0 <= i < j < |keys| ensures keys[i] != keys[j] {
      ListingOnce(keys, Distinct(maps.operands), i, j);
    }
  }

  /** On valid text they always are. */
  lemma ValidOperandsDistinct(lang: Language, maps: Maps)
    requires forall key | key in maps.operands :: lang.decode(key).Borrowed?
    ensures NoRepeats(OperandVocabulary(lang, maps))
  {
    OperandsDistinctIff(lang, maps);
    var keys := Listing(Distinct(maps.operands));
    forall k | 0 <= k < |keys| ensures lang.decode(keys[k]).Borrowed? {
      ListingHolds(keys, Distinct(maps.operands), keys[k]);
    }
  }

  /** Two token ids of one spelling, and a token id spelled as a primitive type, give an entry twice. */
  lemma SpellingsClash(lang: Language, i: nat, j: nat)
    requires i != j && lang.operatorText(i) == lang.operatorText(j)
    ensures !NoRepeats(OperatorVocabulary(lang, Maps(multiset{i, j}, multiset{}, multiset{})))
    ensures !NoRepeats(OperatorVocabulary(lang, Maps(multiset{i}, multiset{lang.operatorText(i)}, multiset{})))
  {
    var ids := Maps(multiset{i, j}, multiset{}, multiset{});
    var both := Maps(multiset{i}, multiset{lang.operatorText(i)}, multiset{});
    OperatorsDistinctIff(lang, ids);
    OperatorsDistinctIff(lang, both);
    assert i in ids.operators && j in ids.operators;
    assert i in both.operators && lang.operatorText(i) in both.primitives;
  }

  // ---------------------------------------------------------------- parents and descendants

  /** Every key of `a` is a key of `b`. */
  predicate Within(a: Maps, b: Maps) {
    a.operators <= b.operators && a.primitives <= b.primitives && a.operands <= b.operands
  }

  lemma {:induction false} TotalWithin(lang: Language, path: seq<Node>, nodes: seq<Node>, v: Visit)
    requires v in Visits(path, nodes)
    ensures Within(Total(lang, v.path, v.node), TotalForest(lang, path, nodes))
    decreases nodes
  {
    var n := nodes[0];
    var below, after := Visits(path + [n], n.children), Visits(path, nodes[1..]);
    if v == Visit(path, n) {
    } else if v in below {
      TotalWithin(lang, path + [n], n.children, v);
    } else {
      assert v in after;
      TotalWithin(lang, path, nodes[1..], v);
    }
  }

  lemma EntriesWithin(lang: Language, a: Maps, b: Maps)
    requires Within(a, b)
    ensures forall x | x in OperandVocabulary(lang, a) :: x in OperandVocabulary(lang, b)
    ensures forall x | x in OperatorVocabulary(lang, a) :: x in OperatorVocabulary(lang, b)
  {
    forall x | x in OperandVocabulary(lang, a) ensures x in OperandVocabulary(lang, b) {
      OperandEntry(lang, a, b, x);
    }
    forall x | x in OperatorVocabulary(lang, a) ensures x in OperatorVocabulary(lang, b) {
      OperatorEntry(lang, a, b, x);
    }
  }

  lemma OperandEntry(lang: Language, a: Maps, b: Maps, x: Bytes)
    requires Within(a, b) && x in OperandVocabulary(lang, a)
    ensures x in OperandVocabulary(lang, b)
  {
    var from, to := Listing(Distinct(a.operands)), Listing(Distinct(b.operands));
    VocabularyEntries(lang.decode, from, x);
    VocabularyEntries(lang.decode, to, x);
    var key :| key in from && Text(lang.decode, key) == x;
    ListingHolds(from, Distinct(a.operands), key);
    ListingHolds(to, Distinct(b.operands), key);
  }

  lemma OperatorEntry(lang: Language, a: Maps, b: Maps, x: Bytes)
    requires Within(a, b) && x in OperatorVocabulary(lang, a)
    ensures x in OperatorVocabulary(lang, b)
  {
    var from, to := OperatorKeys(lang, a), OperatorKeys(lang, b);
    VocabularyEntries(lang.decode, from, x);
    VocabularyEntries(lang.decode, to, x);
    var key :| key in from && Text(lang.decode, key) == x;
    var k :| 0 <= k < |from| && from[k] == key;
    OperatorKeysAt(lang, a, k);
    if k < |Listing(Distinct(a.operators))| {
      var l := OperatorPlace(lang, b, Listing(Distinct(a.operators))[k]);
      assert to[l] in to;
    } else {
      var l := PrimitivePlace(lang, b, key);
      assert to[l] in to;
    }
  }

  /** The space of a node lists every operator and operand that any space below it does. */
  lemma DescendantEntries(lang: Language, path: seq<Node>, node: Node, v: Visit)
    requires v in Visits(path, [node])
    ensures var outer, inner := SpaceOf(lang, path, node), SpaceOf(lang, v.path, v.node);
            && (forall x | x in inner.operators :: x in outer.operators)
            && (forall x | x in inner.operands :: x in outer.operands)
  {
    TotalWithin(lang, path, [node], v);
    assert TotalForest(lang, path, []) == NO_MAPS;
    MergeLaws(Total(lang, path, node), NO_MAPS, NO_MAPS);
    EntriesWithin(lang, Total(lang, v.path, v.node), Total(lang, path, node));
  }
}
