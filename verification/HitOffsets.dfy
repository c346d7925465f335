/** Where reported offsets can lie: behind a quote, and so never at the start of a line. */
module HitOffsets {
  import opened RustTokens
  import opened RustLexer
  import opened SourceLines

  /** Position `at` of a text that stands at `base` has a quote right before it. */
  predicate BehindQuote(text: string, base: nat, at: nat) {
    base < at <= base + |text| && text[at - base - 1] == '"'
  }

  lemma OpeningEndsInQuote(x: Lexeme)
    requires IsString(x)
    ensures BehindQuote(Print(x), 0, OpeningLength(x))
  {
    if IsRaw(x) {
      var opening := RawOpening(x.byte, x.hashes);
      assert opening <= Print(x);
      assert opening[|opening| - 1] == '"';
    }
  }

  predicate AllBehindQuotes(text: string, base: nat, hits: seq<Hit>) {
    hits == [] || (BehindQuote(text, base, hits[0].0) && AllBehindQuotes(text, base, hits[1..]))
  }

  lemma {:induction false} BehindQuotesAt(text: string, base: nat, hits: seq<Hit>, i: nat)
    requires AllBehindQuotes(text, base, hits) && i < |hits|
    ensures BehindQuote(text, base, hits[i].0)
  {
    if i == 0 {
    } else {
      BehindQuotesAt(text, base, hits[1..], i - 1);
    }
  }

  lemma {:induction false} BehindQuotesShift(a: string, b: string, base: nat, hits: seq<Hit>)
    requires AllBehindQuotes(b, base + |a|, hits)
    ensures AllBehindQuotes(a + b, base, hits)
  {
    if hits == [] {
    } else {
      BehindQuotesShift(a, b, base, hits[1..]);
    }
  }

  lemma HitOfBehindQuote(words: seq<string>, t: Token, offset: nat)
    ensures AllBehindQuotes(PrintToken(t), offset, HitsOf(words, t, offset))
  {
    if t.Lex? && IsString(t.x) {
      OpeningEndsInQuote(t.x);
    }
  }

  lemma {:induction false} BehindQuotesConcat(a: string, b: string, base: nat, first: seq<Hit>, later: seq<Hit>)
    requires AllBehindQuotes(a, base, first) && AllBehindQuotes(b, base + |a|, later)
    ensures AllBehindQuotes(a + b, base, first + later)
  {
    if first == [] {
      BehindQuotesShift(a, b, base, later);
      assert first + later == later;
    } else {
      BehindQuotesConcat(a, b, base, first[1..], later);
      assert (first + later)[1..] == first[1..] + later;
    }
  }

  lemma {:induction false} HitsBehindQuotes(words: seq<string>, tokens: seq<Token>, offset: nat)
    ensures AllBehindQuotes(PrintAll(tokens), offset, Hits(words, tokens, offset))
  {
    if tokens == [] {
    } else {
      var t, rest := tokens[0], tokens[1..];
      var mid := offset + |PrintToken(t)|;
      HitOfBehindQuote(words, t, offset);
      HitsBehindQuotes(words, rest, mid);
      var first, later := HitsOf(words, t, offset), Hits(words, rest, mid);
      BehindQuotesConcat(PrintToken(t), PrintAll(rest), offset, first, later);
      assert Hits(words, tokens, offset) == first + later;
    }
  }

  predicate BehindNewline(text: string, base: nat, at: nat) {
    base < at <= base + |text| && text[at - base - 1] == '\n'
  }

  predicate AllBehindNewlines(text: string, base: nat, starts: seq<nat>) {
    forall k | 0 <= k < |starts| :: BehindNewline(text, base, starts[k])
  }

  lemma BehindNewlinesShift(text: string, base: nat, starts: seq<nat>)
    requires text != "" && AllBehindNewlines(text[1..], base + 1, starts)
    ensures AllBehindNewlines(text, base, starts)
  {
    forall k | 0 <= k < |starts| ensures BehindNewline(text, base, starts[k]) {
      assert BehindNewline(text[1..], base + 1, starts[k]);
    }
  }

  lemma {:induction false} StartsBehindNewlines(text: string, base: nat)
    ensures AllBehindNewlines(text, base, Starts(text, base))
  {
    if text == "" {
    } else {
      var rest := Starts(text[1..], base + 1);
      StartsBehindNewlines(text[1..], base + 1);
      BehindNewlinesShift(text, base, rest);
      assert text[0] == '\n' ==> BehindNewline(text, base, base + 1);
    }
  }

  lemma QuoteIsNoStart(text: string, hits: seq<Hit>, starts: seq<nat>, i: nat, k: nat)
    requires AllBehindQuotes(text, 0, hits) && AllBehindNewlines(text, 0, starts)
    requires i < |hits| && k < |[0] + starts|
    ensures hits[i].0 != ([0] + starts)[k]
  {
    BehindQuotesAt(text, 0, hits, i);
    if k > 0 {
      assert BehindNewline(text, 0, starts[k - 1]);
    }
  }

  /**
   No offset that the scan reports is the start of a line, so bisecting to either side of an equal start
   gives the same line.
   */
  lemma NoHitStartsALine(words: seq<string>, text: string, i: nat, k: nat)
    requires i < |Hits(words, Tokens(text), 0)| && k < |[0] + Starts(text, 0)|
    ensures Hits(words, Tokens(text), 0)[i].0 != ([0] + Starts(text, 0))[k]
  {
    TokensSpell(text);
    HitsBehindQuotes(words, Tokens(text), 0);
    StartsBehindNewlines(text, 0);
    QuoteIsNoStart(text, Hits(words, Tokens(text), 0), Starts(text, 0), i, k);
  }
}
