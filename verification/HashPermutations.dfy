/**
 What the integer hasher is for: each single-integer key has a hash of its own, because writing a word permutes
 the states.
 */
module HashPermutations {
  import opened BitFields
  import opened Sequences
  import opened IntHash

  /** The word that led from one state to another. */
  function WordBetween(hash: Word, next: Word): (word: Word)
  {
    Xor(TimesUnseed(next), RotateLeft5(hash))
  }

  /** The state that a word led from. */
  function StateBefore(word: Word, next: Word): (hash: Word)
  {
    RotateRight5(Xor(TimesUnseed(next), word))
  }

  /** From any state each word leads to its own state, and every state is reached: writing a word permutes the words. */
  lemma WordPermutes(hash: Word, word: Word, next: Word)
    ensures Mixed(hash, word) == next <==> word == WordBetween(hash, next)
  {
    RoundPermutes(RotateLeft5(hash), word, next);
  }

  lemma RoundPermutes(turned: Word, word: Word, next: Word)
    ensures TimesSeed(Xor(turned, word)) == next <==> word == Xor(TimesUnseed(next), turned)
    ensures TimesSeed(Xor(turned, word)) == next <==> turned == Xor(TimesUnseed(next), word)
  {
    SeedInverse(Xor(turned, word));
    SeedInverse(next);
    XorInverse(turned, word);
    XorInverse(TimesUnseed(next), turned);
    XorInverse(TimesUnseed(next), word);
    XorCommutes(TimesUnseed(next), turned);
    XorCommutes(TimesUnseed(next), word);
  }

  lemma XorCommutes(a: Word, b: Word)
    ensures Xor(a, b) == Xor(b, a)
  {
    XorBitsCommute(a, b);
  }

  /** A fixed word permutes the states. */
  lemma StatePermutes(hash: Word, word: Word, next: Word)
    ensures Mixed(hash, word) == next <==> hash == StateBefore(word, next)
  {
    RoundPermutes(RotateLeft5(hash), word, next);
    Rotate5Inverse(hash);
    Rotate5Inverse(Xor(TimesUnseed(next), word));
  }

  function StateBeforeAll(words: seq<Word>, next: Word): (hash: Word)
  {
    if words == [] then next
    else StateBeforeAll(words[..|words| - 1], StateBefore(words[|words| - 1], next))
  }

  /** So does any fixed sequence of words, and with it any fixed sequence of bytes. */
  lemma {:induction false} StatesPermute(hash: Word, words: seq<Word>, next: Word)
    ensures MixedAll(hash, words) == next <==> hash == StateBeforeAll(words, next)
    decreases words
  {
    if words == [] {
    } else {
      var before, last := words[..|words| - 1], words[|words| - 1];
      StatePermutes(MixedAll(hash, before), last, next);
      StatesPermute(hash, before, StateBefore(last, next));
    }
  }

  /** The hash of a single-integer key, and the key that has a given hash. */
  function KeyHash(key: Word): (hash: Word)
  {
    RotateLeft26(Mixed(0, key))
  }

  function KeyOf(hash: Word): (key: Word)
  {
    WordBetween(0, RotateRight26(hash))
  }

  /** Each hash belongs to exactly one single-integer key: two keys never share one. */
  lemma KeysNeverCollide(key: Word, hash: Word)
    ensures KeyHash(key) == hash <==> key == KeyOf(hash)
  {
    Rotate26Inverse(Mixed(0, key));
    Rotate26Inverse(hash);
    WordPermutes(0, key, RotateRight26(hash));
  }

  /** A fresh hasher that is given one 64-bit key finishes with that key's hash. */
  method HashKey(key: Word) returns (hash: Word)
    ensures hash == KeyHash(key)
  {
    var hasher := new IntKeyHasher();
    hasher.WriteU64(key);
    hash := hasher.Finish();
  }

  /** Two hashers finish alike iff they are in one state. */
  lemma FinishTellsApart(a: IntKeyHasher, b: IntKeyHasher)
    ensures a.Finish() == b.Finish() <==> a.hash == b.hash
  {
    Rotate26Inverse(a.hash);
    Rotate26Inverse(b.hash);
  }

  /**
   * Keys of two words do collide, from any state: whatever first word is put for another, exactly one second word
   * gives the same hash.
   */
  lemma TwoWordKeysCollide(start: Word, a: Word, b: Word, a': Word, b': Word)
    ensures RotateLeft26(MixedAll(start, [a', b'])) == RotateLeft26(MixedAll(start, [a, b]))
       <==> b' == WordBetween(Mixed(start, a'), MixedAll(start, [a, b]))
  {
    Rotate26Inverse(MixedAll(start, [a', b']));
    Rotate26Inverse(MixedAll(start, [a, b]));
    FoldTwo(Mixed, start, a', b');
    WordPermutes(Mixed(start, a'), b', MixedAll(start, [a, b]));
  }
}
