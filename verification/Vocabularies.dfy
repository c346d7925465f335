/** `sorted_vocabulary`: a space's keys, rendered as text in byte-lexicographic order. */
module Vocabularies {
  import opened ByteStrings
  import opened Sequences
  import opened Sorting

  /** What a lossy UTF-8 decoder returns: a borrow of valid input, or freshly built text. */
  datatype Rendering = Borrowed | Owned(text: Bytes)

  type Decoder = Bytes -> Rendering

  function Text(decode: Decoder, key: Bytes): (text: Bytes)
  {
    match decode(key)
    case Borrowed => key
    case Owned(text) => text
  }

  function Rendered(decode: Decoder, keys: seq<Bytes>): (r: seq<Bytes>)
  {
    Map(key => Text(decode, key), keys)
  }

  /** The simple form: render everything, then sort the text. */
  function Vocabulary(decode: Decoder, keys: seq<Bytes>): (r: seq<Bytes>)
  {
    Sort(LexLe, Rendered(decode, keys))
  }

  /** Sorting borrowed keys first, and the text again only when bytes were lost, is that simple form. */
  method SortedVocabulary(decode: Decoder, keys: seq<Bytes>) returns (rendered: seq<Bytes>)
    ensures rendered == Vocabulary(decode, keys)
  {
    var ordered := Sort(LexLe, keys);
    rendered := [];
    var lossy := false;
    for i := 0 to |ordered|
      invariant rendered == Rendered(decode, ordered[..i])
      invariant !lossy ==> rendered == ordered[..i]
    {
      match decode(ordered[i]) {
        case Borrowed =>
          rendered := rendered + [ordered[i]];
        case Owned(text) =>
          lossy := true;
          rendered := rendered + [text];
      }
      assert ordered[..i + 1] == ordered[..i] + [ordered[i]];
    }
    assert ordered[..|ordered|] == ordered;
    LexIsTotalOrder();
    SortSorts(LexLe, keys);
    ghost var unsorted := rendered;
    if lossy {
      rendered := Sort(LexLe, rendered);
      SortSorts(LexLe, unsorted);
    }
    SortSorts(LexLe, Rendered(decode, keys));
    MapPermutation(key => Text(decode, key), ordered, keys);
    SortedUnique(LexLe, rendered, Vocabulary(decode, keys));
  }

  /** Hash-map iteration order never shows: rearranged keys give the same vocabulary. */
  lemma VocabularyIgnoresKeyOrder(decode: Decoder, a: seq<Bytes>, b: seq<Bytes>)
    requires multiset(a) == multiset(b)
    ensures Vocabulary(decode, a) == Vocabulary(decode, b)
  {
    LexIsTotalOrder();
    SortSorts(LexLe, Rendered(decode, a));
    SortSorts(LexLe, Rendered(decode, b));
    MapPermutation(key => Text(decode, key), a, b);
    SortedUnique(LexLe, Vocabulary(decode, a), Vocabulary(decode, b));
  }

  /** No key that loses bytes comes out as another key does. */
  ghost predicate NoLossyClash(decode: Decoder, keys: seq<Bytes>) {
    forall i, j | 0 <= i < |keys| && 0 <= j < |keys| && i != j && decode(keys[i]).Owned? ::
      Text(decode, keys[i]) != Text(decode, keys[j])
  }

  ghost predicate NoRepeats(s: seq<Bytes>) {
    forall i, j | 0 <= i < j < |s| :: s[i] != s[j]
  }

  lemma RepeatCountsTwice<T>(s: seq<T>, i: nat, j: nat)
    requires i < j < |s|
    ensures s[i] == s[j] ==> multiset(s)[s[i]] >= 2
  {
    WithoutCounts(s, i);
    assert Without(s, i)[j - 1] == s[j];
    assert s[j] in multiset(Without(s, i));
  }

  lemma CountTwiceRepeats(s: seq<Bytes>, x: Bytes)
    ensures multiset(s)[x] >= 2 ==> !NoRepeats(s)
  {
    if multiset(s)[x] >= 2 {
      var i :| 0 <= i < |s| && s[i] == x;
      WithoutCounts(s, i);
      assert x in Without(s, i);
      var k :| 0 <= k < |Without(s, i)| && Without(s, i)[k] == x;
      assert s[if k < i then k else k + 1] == x;
    }
  }

  /** Whether entries repeat does not depend on their order. */
  lemma RepeatsSurviveReordering(a: seq<Bytes>, b: seq<Bytes>)
    requires multiset(a) == multiset(b) && NoRepeats(a)
    ensures NoRepeats(b)
  {
    forall i, j | 0 <= i < j < |b| ensures b[i] != b[j] {
      RepeatCountsTwice(b, i, j);
      CountTwiceRepeats(a, b[i]);
    }
  }

  lemma SortKeepsRepeats(text: seq<Bytes>)
    ensures NoRepeats(Sort(LexLe, text)) <==> NoRepeats(text)
  {
    LexIsTotalOrder();
    SortSorts(LexLe, text);
    if NoRepeats(text) {
      RepeatsSurviveReordering(text, Sort(LexLe, text));
    }
    if NoRepeats(Sort(LexLe, text)) {
      RepeatsSurviveReordering(Sort(LexLe, text), text);
    }
  }

  /**
   The entries are distinct, as the vocabulary is documented to be, iff the keys are and only the keys
   that lose bytes need looking at: none of them comes out as another key does.
   */
  lemma VocabularyDistinctIff(decode: Decoder, keys: seq<Bytes>)
    ensures NoRepeats(Vocabulary(decode, keys)) <==> NoRepeats(keys) && NoLossyClash(decode, keys)
  {
    var text := Rendered(decode, keys);
    SortKeepsRepeats(text);
    if NoRepeats(text) {
      forall i, j | 0 <= i < |keys| && 0 <= j < |keys| && i != j ensures Text(decode, keys[i]) != Text(decode, keys[j]) {
        assert text[i] == Text(decode, keys[i]) && text[j] == Text(decode, keys[j]);
      }
    }
    if NoRepeats(keys) && NoLossyClash(decode, keys) {
      forall i, j | 0 <= i < j < |text| ensures text[i] != text[j] {
        assert text[i] == Text(decode, keys[i]) && text[j] == Text(decode, keys[j]);
      }
    }
  }

  /** A decoder that, like the lossy one, puts U+FFFD for a byte that no valid text begins with. */
  function ReplacesStrayByte(key: Bytes): (r: Rendering)
  {
    if key != [] && key[0] >= 0xF8 then Owned([0xEF, 0xBF, 0xBD] + key[1..]) else Borrowed
  }

  /** Two different keys that lose their first byte give one entry twice. */
  lemma LossyKeysClash()
    ensures NoRepeats([[0xFE], [0xFF]]) && !NoRepeats(Vocabulary(ReplacesStrayByte, [[0xFE], [0xFF]]))
  {
    var keys: seq<Bytes> := [[0xFE], [0xFF]];
    VocabularyDistinctIff(ReplacesStrayByte, keys);
    assert keys[0] != keys[1] by { assert keys[0][0] != keys[1][0]; }
    assert Text(ReplacesStrayByte, keys[0]) == Text(ReplacesStrayByte, keys[1]);
  }

  lemma SortKeepsElements(text: seq<Bytes>, x: Bytes)
    ensures x in Sort(LexLe, text) <==> x in text
  {
    LexIsTotalOrder();
    SortSorts(LexLe, text);
    assert x in Sort(LexLe, text) <==> x in multiset(Sort(LexLe, text));
    assert x in text <==> x in multiset(text);
  }

  /** What is in a vocabulary: the texts of its keys. */
  lemma VocabularyEntries(decode: Decoder, keys: seq<Bytes>, x: Bytes)
    ensures x in Vocabulary(decode, keys) <==> exists key | key in keys :: Text(decode, key) == x
  {
    var text := Rendered(decode, keys);
    SortKeepsElements(text, x);
    if x in text {
      var i :| 0 <= i < |text| && text[i] == x;
      assert keys[i] in keys && Text(decode, keys[i]) == x;
    }
    if key :| key in keys && Text(decode, key) == x {
      var i :| 0 <= i < |keys| && keys[i] == key;
      assert text[i] == x;
    }
  }
}
