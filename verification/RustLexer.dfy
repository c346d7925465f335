/** The scanner of the diagnostic-prefix gate, against its token grammar. */
module RustLexer {
  import opened Wrappers
  import opened RustTokens
  import Sequences

  // ---------------------------------------------------------------- what is to be reported

  const SEVERITY_WORDS: seq<string> := ["Warning", "WARNING", "Error", "ERROR", "Note", "NOTE"]

  /** The first of `words` that a text begins with, followed by a colon. */
  function Prefixed(words: seq<string>, text: string): (r: Option<string>)
  {
    if words == [] then None
    else if words[0] + ":" <= text then Some(words[0])
    else Prefixed(words[1..], text)
  }

  ghost predicate QuoteFree(words: seq<string>) {
    forall w | w in words :: '"' !in w
  }

  predicate IsString(x: Lexeme) {
    IsRaw(x) || IsQuoted(x)
  }

  function OpeningLength(x: Lexeme): (n: nat)
    requires IsString(x)
  {
    if IsRaw(x) then |RawOpening(x.byte, x.hashes)| else 1
  }

  /** What is written between the delimiters of a string literal. */
  function Content(x: Lexeme): (s: string)
    requires IsString(x)
  {
    match x
    case Raw(_, _, content) => content
    case OpenRaw(_, _, content) => content
    case Str(items) => PrintItems(items)
    case OpenStr(items, dangling) => PrintItems(items) + (if dangling then "\\" else "")
  }

  type Hit = (nat, string)

  /** One hit per string literal whose content begins with a severity word: content offset, word. */
  function Hits(words: seq<string>, tokens: seq<Token>, offset: nat): (r: seq<Hit>)
  {
    if tokens == [] then []
    else HitsOf(words, tokens[0], offset) + Hits(words, tokens[1..], offset + |PrintToken(tokens[0])|)
  }

  function HitsOf(words: seq<string>, t: Token, offset: nat): (r: seq<Hit>)
  {
    if t.Lex? && IsString(t.x) then HitIn(words, Content(t.x), offset + OpeningLength(t.x)) else []
  }

  function HitIn(words: seq<string>, text: string, offset: nat): (r: seq<Hit>)
  {
    match Prefixed(words, text)
    case Some(word) => [(offset, word)]
    case None => []
  }

  // ---------------------------------------------------------------- the scanner's helpers

  /** `x` begins at `i` and the scanner resumes at `end`. */
  ghost predicate Spans(x: Lexeme, source: string, i: nat, end: nat) {
    i <= |source| && StartsAt(x, source[i..]) && end == i + |Print(x)|
  }

  /** `r` is the first place at or after `start` where `pat` stands, or -1. */
  ghost predicate Finds(s: string, pat: string, start: nat, r: int) {
    if r == -1 then forall k | start <= k <= |s| :: !OccursAt(s, pat, k)
    else start <= r <= |s| && OccursAt(s, pat, r) && forall k | start <= k < r :: !OccursAt(s, pat, k)
  }

  /** `str.find`: the first place at or after `start` where `pat` stands, or -1. */
  method Find(s: string, pat: string, start: nat) returns (r: int)
    ensures Finds(s, pat, start, r)
  {
    var k := start;
    while k <= |s|
      invariant start <= k
      invariant forall m | start <= m < k && m <= |s| :: !OccursAt(s, pat, m)
    {
      if pat <= s[k..] {
        return k;
      }
      k := k + 1;
    }
    return -1;
  }

  lemma Advance(source: string, i: nat, j: nat, p: string)
    requires i <= j <= |source| && p <= source[j..]
    ensures source[j..] == p + source[j + |p|..]
    ensures source[i..j + |p|] == source[i..j] + p
  {
    var rest := source[j..];
    assert rest[..|p|] == source[j..j + |p|];
  }

  /** Text that is sliced out of the source stands where it was sliced. */
  lemma TextAt(source: string, i: nat, end: nat, p: string)
    requires i <= end <= |source| && source[i..end] == p
    ensures end == i + |p| && |p| <= |source[i..]| && source[i..][..|p|] == p && source[i..][|p|..] == source[end..]
    ensures source[i..] == p + source[end..]
  {
    var rest := source[i..];
    assert rest[..|p|] == p;
  }

  lemma SliceSnoc(source: string, i: nat, end: nat)
    requires i <= end < |source|
    ensures source[i..end + 1] == source[i..end] + [source[end]]
  {
  }

  lemma BehindHead(source: string, i: nat, end: nat)
    requires i < end <= |source|
    ensures source[i..end] == [source[i]] + source[i + 1..end]
  {
  }

  lemma BetweenEnds(source: string, i: nat, end: nat)
    requires i + 2 <= end <= |source|
    ensures source[i..end] == [source[i]] + source[i + 1..end - 1] + [source[end - 1]]
  {
  }

  lemma FindsChar(source: string, c: char, start: nat, r: int)
    requires Finds(source, [c], start, r)
    ensures r == -1 ==> forall k | start <= k < |source| :: source[k] != c
    ensures r != -1 ==> start <= r < |source| && source[r] == c && forall k | start <= k < r :: source[k] != c
  {
    forall k | start <= k < |source| ensures OccursAt(source, [c], k) <==> source[k] == c {
      var rest := source[k..];
      assert rest[0] == source[k];
    }
  }

  lemma {:induction false} FormEndsAt(source: string, i: nat, form: CharForm, j: nat)
    requires i < j < |source| && source[i] == '\'' && source[j] == '\'' && FormFits(form)
    requires source[i + 1..j] == PrintForm(form)
    ensures Spans(CharLit(form), source, i, j + 1)
  {
    BetweenEnds(source, i, j + 1);
    TextAt(source, i, j + 1, Print(CharLit(form)));
  }

  /** What a character literal at `i` says about the text there. */
  lemma {:induction false} OnlyFormAt(source: string, i: nat, form: CharForm)
    requires i < |source| && StartsAt(CharLit(form), source[i..])
    ensures var j := i + 1 + |PrintForm(form)|;
            && j < |source| && source[j] == '\'' && FormFits(form)
            && source[i + 1..] == PrintForm(form) + ("'" + source[j + 1..])
  {
    var s, j := source[i..], i + 1 + |PrintForm(form)|;
    FormText(form, s);
    assert s[1..] == source[i + 1..] && s[|PrintForm(form)| + 2..] == source[j + 1..];
    assert source[j] == source[i + 1..][j - i - 1];
  }

  /** An unclosed brace means no character literal; a closed one delimits the digits. */
  lemma {:induction false} NoBraceNoUnicode(source: string, i: nat, j: nat, close: int)
    requires j == i + 2 < |source| && source[i + 1] == '\\' && source[j] == 'u'
    requires Finds(source, "}", j, close)
    ensures close == -1 ==> forall form :: !StartsAt(CharLit(form), source[i..])
    ensures close != -1 ==> j < close < |source| && FormFits(Unicode(source[j + 1..close]))
    ensures close != -1 ==> source[i + 1..close + 1] == PrintForm(Unicode(source[j + 1..close]))
  {
    FindsChar(source, '}', j, close);
    if close == -1 {
      forall form ensures !StartsAt(CharLit(form), source[i..]) {
        NoBraceNoForm(source, i, form);
      }
    } else {
      assert source[i + 1..close + 1] == ['\\', 'u'] + source[j + 1..close] + "}";
    }
  }

  lemma {:induction false} UnicodeHasBrace(source: string, i: nat, form: CharForm)
    requires i + 2 < |source| && source[i + 1] == '\\' && source[i + 2] == 'u'
    requires StartsAt(CharLit(form), source[i..])
    ensures exists k | i + 2 <= k < |source| :: source[k] == '}'
  {
    OnlyFormAt(source, i, form);
    var r := "'" + source[i + 2 + |PrintForm(form)|..];
    FormHead(form, source[i + 1..], r);
    assert source[i + 1..][2..] == source[i + 3..];
    assert source[i + 3 + |form.digits|] == source[i + 3..][|form.digits|];
  }

  lemma {:induction false} NoBraceNoForm(source: string, i: nat, form: CharForm)
    requires i + 2 < |source| && source[i + 1] == '\\' && source[i + 2] == 'u'
    requires forall k | i + 2 <= k < |source| :: source[k] != '}'
    ensures !StartsAt(CharLit(form), source[i..])
  {
    if StartsAt(CharLit(form), source[i..]) {
      UnicodeHasBrace(source, i, form);
    }
  }

  /** `form` is what the text after the quote at `i` spells as far as `j`, or an escape the text is too short for. */
  ghost predicate Spelled(source: string, i: nat, form: CharForm, j: nat) {
    && i + 1 < j && i + 1 < |source| && FormFits(form)
    && (if j <= |source| then source[i + 1..j] == PrintForm(form)
        else form.Hex? && j == i + 5 && i + 2 < |source| && source[i + 1] == '\\' && source[i + 2] == 'x')
  }

  lemma {:induction false} OnlyForm(source: string, i: nat, form: CharForm, j: nat, g: CharForm)
    requires i + 1 < j <= |source| && FormFits(form) && source[i + 1..j] == PrintForm(form)
    requires StartsAt(CharLit(g), source[i..])
    ensures form == g && j < |source| && source[j] == '\''
  {
    OnlyFormAt(source, i, g);
    TextAt(source, i + 1, j, PrintForm(form));
    FormsUnique(form, source[j..], g, "'" + source[i + 2 + |PrintForm(g)|..]);
  }

  lemma {:induction false} TooShort(source: string, i: nat, g: CharForm)
    requires i + 2 < |source| && source[i + 1] == '\\' && source[i + 2] == 'x'
    requires StartsAt(CharLit(g), source[i..])
    ensures i + 5 < |source|
  {
    OnlyFormAt(source, i, g);
    FormHead(g, source[i + 1..], "'" + source[i + 2 + |PrintForm(g)|..]);
  }

  lemma {:induction false} SpelledForm(source: string, i: nat, form: CharForm, j: nat, g: CharForm)
    requires i < |source| && source[i] == '\'' && Spelled(source, i, form, j)
    requires StartsAt(CharLit(g), source[i..])
    ensures j < |source| && source[j] == '\''
  {
    if j <= |source| {
      OnlyForm(source, i, form, j, g);
    } else {
      TooShort(source, i, g);
    }
  }

  lemma {:induction false} QuoteDecides(source: string, i: nat, form: CharForm, j: nat)
    requires i < |source| && source[i] == '\'' && Spelled(source, i, form, j)
    ensures j < |source| && source[j] == '\'' ==> Spans(CharLit(form), source, i, j + 1)
    ensures !(j < |source| && source[j] == '\'') ==> forall g :: !StartsAt(CharLit(g), source[i..])
  {
    if j < |source| && source[j] == '\'' {
      FormEndsAt(source, i, form, j);
    } else {
      forall g ensures !StartsAt(CharLit(g), source[i..]) {
        if StartsAt(CharLit(g), source[i..]) {
          SpelledForm(source, i, form, j, g);
        }
      }
    }
  }

  method CharLiteralEnd(source: string, i: nat) returns (r: Option<nat>, ghost x: Lexeme)
    requires i < |source| && source[i] == '\''
    ensures r.Some? ==> x.CharLit? && Spans(x, source, i, r.value)
    ensures r.None? ==> forall form :: !StartsAt(CharLit(form), source[i..])
  {
    forall form | StartsAt(CharLit(form), source[i..]) ensures i + 2 < |source| {
      OnlyFormAt(source, i, form);
    }
    x := LineComment("");
    var n := |source|;
    var j := i + 1;
    if j >= n {
      return None, x;
    }
    ghost var form;
    if source[j] == '\\' {
      j := j + 1;
      if j >= n {
        return None, x;
      }
      if source[j] == 'u' {
        var close := Find(source, "}", j);
        NoBraceNoUnicode(source, i, j, close);
        if close == -1 {
          return None, x;
        }
        form := Unicode(source[j + 1..close]);
        j := close + 1;
      } else if source[j] == 'x' {
        if j + 2 < n {
          form := Hex(source[j + 1], source[j + 2]);
        } else {
          form := Hex(' ', ' ');
        }
        j := j + 3;
      } else {
        form := Escaped(source[j]);
        j := j + 1;
      }
    } else {
      form := Bare(source[j]);
      j := j + 1;
    }
    QuoteDecides(source, i, form, j);
    if j < n && source[j] == '\'' {
      return Some(j + 1), CharLit(form);
    } else {
      return None, x;
    }
  }

  /** A raw literal at `i` has the opening delimiter the text spells there. */
  lemma {:induction false} RawOpensAt(source: string, i: nat, x: Lexeme)
    requires i < |source| && IsRaw(x) && StartsAt(x, source[i..])
    ensures var k := i + (if x.byte then 2 else 1);
            && k + x.hashes < |source|
            && (if x.byte then source[i] == 'b' && source[i + 1] == 'r' else source[i] == 'r')
            && (forall m | k <= m < k + x.hashes :: source[m] == '#') && source[k + x.hashes] == '"'
            && source[k + x.hashes + 1..] == RawTail(x, source[i..][|Print(x)|..])
  {
    RawText(x, source[i..]);
    var o, t := RawOpening(x.byte, x.hashes), RawTail(x, source[i..][|Print(x)|..]);
    var k := i + (if x.byte then 2 else 1);
    assert source[i..] == o + t;
    assert forall m | 0 <= m < |o| :: source[i + m] == o[m];
    assert source[i + |o|..] == source[i..][|o|..] == t;
    forall m | k <= m < k + x.hashes ensures source[m] == '#' {
      assert source[m] == o[m - i] == Hashes(x.hashes)[m - k];
    }
  }

  /** A raw literal whose opening delimiter ends at `c`, its closing one first standing at `end`. */
  lemma {:induction false} ClosedRawAt(source: string, i: nat, byte: bool, hashes: nat, c: nat, end: nat)
    requires i <= c <= end <= |source| && source[i..c] == RawOpening(byte, hashes)
    requires Finds(source, RawClosing(hashes), c, end)
    ensures Spans(Raw(byte, hashes, source[c..end]), source, i, end + 1 + hashes)
  {
    var content, close := source[c..end], RawClosing(hashes);
    var x := Raw(byte, hashes, content);
    Advance(source, c, end, close);
    assert source[i..end] == source[i..c] + content;
    Advance(source, i, end, close);
    TextAt(source, i, end + |close|, Print(x));
    forall k | 0 <= k < |content| ensures !OccursAt(content + close, close, k) {
      if OccursAt(content + close, close, k) {
        OccursInSlice(source, c, end + |close|, close, k);
      }
    }
  }

  lemma OccursInSlice(source: string, from: nat, to: nat, pat: string, k: nat)
    requires from <= to <= |source| && OccursAt(source[from..to], pat, k)
    ensures OccursAt(source, pat, from + k)
  {
    var slice, rest := source[from..to], source[from + k..];
    assert slice[k..] == source[from + k..to];
    assert rest[..|pat|] == slice[k..][..|pat|];
  }

  lemma {:induction false} OpenRawAt(source: string, i: nat, byte: bool, hashes: nat, c: nat)
    requires i <= c <= |source| && source[i..c] == RawOpening(byte, hashes)
    requires Finds(source, RawClosing(hashes), c, -1)
    ensures Spans(OpenRaw(byte, hashes, source[c..]), source, i, |source|)
  {
    var x, close := OpenRaw(byte, hashes, source[c..]), RawClosing(hashes);
    assert Print(x) == source[i..];
    forall k | 0 <= k <= |x.content| ensures !OccursAt(x.content, close, k) {
      assert x.content[k..] == source[c + k..];
      assert !OccursAt(source, close, c + k);
    }
  }

  ghost predicate NoRaw(source: string, i: nat)
    requires i <= |source|
  {
    forall x: Lexeme | IsRaw(x) :: !StartsAt(x, source[i..])
  }

  /** The raw literal whose content begins at `c`, its closing delimiter first found at `end`. */
  function RawFrom(source: string, byte: bool, hashes: nat, c: nat, end: int): (x: Lexeme)
    requires c <= |source| && (end == -1 || c <= end <= |source|)
    ensures IsRaw(x)
  {
    if end == -1 then OpenRaw(byte, hashes, source[c..]) else Raw(byte, hashes, source[c..end])
  }

  lemma {:induction false} RawEndsAt(source: string, i: nat, byte: bool, hashes: nat, c: nat, end: int)
    requires i <= c <= |source| && source[i..c] == RawOpening(byte, hashes)
    requires Finds(source, RawClosing(hashes), c, end)
    ensures Spans(RawFrom(source, byte, hashes, c, end), source, i, if end == -1 then |source| else end + 1 + hashes)
  {
    if end == -1 {
      OpenRawAt(source, i, byte, hashes, c);
    } else {
      ClosedRawAt(source, i, byte, hashes, c, end);
    }
  }

  lemma {:induction false} NoRawAt(source: string, i: nat, k: nat, j: nat)
    requires i < k <= j <= |source| && forall m | k <= m < j :: source[m] == '#'
    requires (k == i + 1 && source[i] == 'r') || (k == i + 2 && source[i] == 'b' && source[i + 1] == 'r')
    requires j == |source| || (source[j] != '#' && source[j] != '"')
    ensures NoRaw(source, i)
  {
    forall x: Lexeme | IsRaw(x) ensures !StartsAt(x, source[i..]) {
      if StartsAt(x, source[i..]) {
        RawOpensAt(source, i, x);
      }
    }
  }

  lemma {:induction false} NoRawWithoutR(source: string, i: nat)
    requires i < |source| && source[i] != 'r'
    requires i + 1 < |source| ==> source[i] != 'b' || source[i + 1] != 'r'
    ensures NoRaw(source, i)
  {
    forall x: Lexeme | IsRaw(x) ensures !StartsAt(x, source[i..]) {
      if StartsAt(x, source[i..]) {
        RawOpensAt(source, i, x);
      }
    }
  }

  lemma RawOpeningAt(source: string, i: nat, byte: bool, hashes: nat, j: nat)
    requires j == i + (if byte then 2 else 1) + hashes < |source| && source[j] == '"'
    requires forall m | j - hashes <= m < j :: source[m] == '#'
    requires if byte then source[i] == 'b' && source[i + 1] == 'r' else source[i] == 'r'
    ensures source[i..j + 1] == RawOpening(byte, hashes)
  {
    var k := j - hashes;
    assert source[k..j] == Hashes(hashes);
    assert source[i..k] == if byte then "br" else "r";
    assert source[i..j + 1] == source[i..k] + source[k..j] + "\"";
  }

  /** Where the raw literal whose content begins at `c` ends, and which one it is. */
  method RawContentEnd(source: string, ghost i: nat, ghost byte: bool, hashes: nat, c: nat) returns (r: nat, ghost x: Lexeme)
    requires i <= c <= |source| && source[i..c] == RawOpening(byte, hashes)
    ensures IsRaw(x) && Spans(x, source, i, r)
  {
    var close := "\"" + Hashes(hashes);
    var end := Find(source, close, c);
    RawEndsAt(source, i, byte, hashes, c, end);
    r := if end == -1 then |source| else end + |close|;
    x := RawFrom(source, byte, hashes, c, end);
  }

  method RawStringEnd(source: string, i: nat) returns (r: Option<nat>, ghost x: Lexeme)
    requires i < |source|
    ensures r.Some? ==> IsRaw(x) && Spans(x, source, i, r.value)
    ensures r.None? ==> NoRaw(source, i)
  {
    x := LineComment("");
    var n := |source|;
    var j := i;
    if source[j] == 'b' && j + 1 < n && source[j + 1] == 'r' {
      j := j + 1;
    }
    if j >= n || source[j] != 'r' {
      NoRawWithoutR(source, i);
      return None, x;
    }
    j := j + 1;
    ghost var k := j;
    var hashes := 0;
    while j < n && source[j] == '#'
      invariant j == k + hashes <= n && forall m | k <= m < j :: source[m] == '#'
    {
      hashes := hashes + 1;
      j := j + 1;
    }
    if j >= n || source[j] != '"' {
      NoRawAt(source, i, k, j);
      return None, x;
    }
    ghost var byte := source[i] == 'b';
    RawOpeningAt(source, i, byte, hashes, j);
    var end;
    end, x := RawContentEnd(source, i, byte, hashes, j + 1);
    return Some(end), x;
  }

  // ---------------------------------------------------------------- quoted literals

  lemma {:induction false} PrintItemsAppend(items: seq<StrItem>, item: StrItem)
    ensures PrintItems(items + [item]) == PrintItems(items) + PrintItem(item)
  {
    if items == [] {
    } else {
      assert (items + [item])[1..] == items[1..] + [item];
      PrintItemsAppend(items[1..], item);
    }
  }

  /** The items read so far, from the quote at `i` up to `j`; a backslash may dangle at the end of the source. */
  ghost predicate ItemsRead(source: string, i: nat, items: seq<StrItem>, dangling: bool, j: nat) {
    && i < j <= |source| && source[i] == '"' && ItemsFit(items)
    && source[i + 1..j] == PrintItems(items) + (if dangling then "\\" else "")
    && (dangling ==> j == |source|)
  }

  lemma NothingDangles(s: string)
    ensures s + "" == s
  {
  }

  lemma {:induction false} ItemRead(source: string, i: nat, items: seq<StrItem>, j: nat, item: StrItem)
    requires ItemsRead(source, i, items, false, j) && ItemsFit([item])
    requires PrintItem(item) <= source[j..]
    ensures ItemsRead(source, i, items + [item], false, j + |PrintItem(item)|)
  {
    Advance(source, i + 1, j, PrintItem(item));
    PrintItemsAppend(items, item);
    NothingDangles(PrintItems(items));
    NothingDangles(PrintItems(items + [item]));
    assert [item][0] == item;
  }

  lemma QuotedSlice(source: string, i: nat, j: nat, inside: string)
    requires i < j < |source| && source[i] == '"' && source[j] == '"' && source[i + 1..j] == inside
    ensures source[i..j + 1] == "\"" + inside + "\""
  {
    BetweenEnds(source, i, j + 1);
  }

  lemma {:induction false} ClosedQuotedAt(source: string, i: nat, items: seq<StrItem>, j: nat)
    requires ItemsRead(source, i, items, false, j) && j < |source| && source[j] == '"'
    ensures Spans(Str(items), source, i, j + 1)
  {
    NothingDangles(PrintItems(items));
    QuotedSlice(source, i, j, PrintItems(items));
    TextAt(source, i, j + 1, Print(Str(items)));
  }

  lemma {:induction false} OpenQuotedAt(source: string, i: nat, items: seq<StrItem>, dangling: bool)
    requires ItemsRead(source, i, items, dangling, |source|)
    ensures Spans(OpenStr(items, dangling), source, i, |source|)
  {
    var tail := if dangling then "\\" else "";
    BehindHead(source, i, |source|);
    Sequences.Regroup("\"", PrintItems(items), tail);
    TextAt(source, i, |source|, Print(OpenStr(items, dangling)));
  }

  /** A terminated literal ends after its quote; an unterminated one is said to end one past the source. */
  method RegularStringEnd(source: string, i: nat) returns (end: nat, ghost x: Lexeme, ghost at: nat)
    requires i < |source| && source[i] == '"'
    ensures IsQuoted(x) && Spans(x, source, i, at)
    ensures if x.Str? then end == at else end == at + 1 == |source| + 1
  {
    var n := |source|;
    var j := i + 1;
    ghost var items: seq<StrItem> := [];
    ghost var dangling := false;
    while j < n
      invariant ItemsRead(source, i, items, dangling, j)
      decreases n - j
    {
      if source[j] == '\\' && j + 1 < n {
        EscapeRead(source, i, items, j);
        items := items + [Escape(source[j + 1])];
        j := j + 2;
      } else {
        if source[j] == '"' {
          break;
        }
        PlainRead(source, i, items, j);
        if source[j] == '\\' {
          dangling := true;
        } else {
          items := items + [Plain(source[j])];
        }
        j := j + 1;
      }
    }
    end := j + 1;
    if j < n {
      x, at := Str(items), j + 1;
      ClosedQuotedAt(source, i, items, j);
    } else {
      x, at := OpenStr(items, dangling), n;
      OpenQuotedAt(source, i, items, dangling);
    }
  }

  lemma {:induction false} EscapeRead(source: string, i: nat, items: seq<StrItem>, j: nat)
    requires ItemsRead(source, i, items, false, j) && j + 1 < |source| && source[j] == '\\'
    ensures ItemsRead(source, i, items + [Escape(source[j + 1])], false, j + 2)
  {
    PairAt(source, j, source[j], source[j + 1]);
    ItemRead(source, i, items, j, Escape(source[j + 1]));
  }

  lemma {:induction false} PlainRead(source: string, i: nat, items: seq<StrItem>, j: nat)
    requires ItemsRead(source, i, items, false, j) && j < |source| && source[j] != '"'
    ensures source[j] != '\\' ==> ItemsRead(source, i, items + [Plain(source[j])], false, j + 1)
    ensures source[j] == '\\' && j + 1 == |source| ==> ItemsRead(source, i, items, true, j + 1)
  {
    if source[j] != '\\' {
      ItemRead(source, i, items, j, Plain(source[j]));
    } else if j + 1 == |source| {
      SliceSnoc(source, i + 1, j);
    }
  }

  // ---------------------------------------------------------------- block comments

  lemma {:induction false} PrintPiecesAppend(pieces: seq<Piece>, p: Piece)
    ensures PrintPieces(pieces + [p]) == PrintPieces(pieces) + PrintPiece(p)
  {
    if pieces == [] {
    } else {
      assert (pieces + [p])[1..] == pieces[1..] + [p];
      PrintPiecesAppend(pieces[1..], p);
    }
  }

  lemma {:induction false} PrintPiecesBefore(pieces: seq<Piece>, p: Piece, rest: string)
    ensures PrintPieces(pieces + [p]) + rest == PrintPieces(pieces) + (PrintPiece(p) + rest)
  {
    PrintPiecesAppend(pieces, p);
    Sequences.Regroup(PrintPieces(pieces), PrintPiece(p), rest);
  }

  lemma {:induction false} PiecesFitCons(p: Piece, pieces: seq<Piece>, rest: string)
    requires PieceFits(p, PrintPieces(pieces) + rest) && PiecesFit(pieces, rest)
    ensures PiecesFit([p] + pieces, rest)
  {
    assert ([p] + pieces)[1..] == pieces;
  }

  lemma {:induction false} PiecesFitAppend(pieces: seq<Piece>, p: Piece, rest: string)
    requires PiecesFit(pieces, PrintPiece(p) + rest) && PieceFits(p, rest)
    ensures PiecesFit(pieces + [p], rest)
  {
    if pieces == [] {
      PiecesFitCons(p, [], rest);
      assert [] + [p] == [p] + [];
    } else {
      PiecesFitAppend(pieces[1..], p, rest);
      PrintPiecesBefore(pieces[1..], p, rest);
      PiecesFitCons(pieces[0], pieces[1..] + [p], rest);
      assert pieces + [p] == [pieces[0]] + (pieces[1..] + [p]);
    }
  }

  lemma {:induction false} DepthAppend(pieces: seq<Piece>, p: Piece, depth: int)
    requires ReadWhileOpen(pieces, depth) && Depth(pieces, depth) > 0
    ensures ReadWhileOpen(pieces + [p], depth)
    ensures Depth(pieces + [p], depth) == DepthAfter(p, Depth(pieces, depth))
  {
    if pieces == [] {
    } else {
      assert (pieces + [p])[1..] == pieces[1..] + [p];
      DepthAppend(pieces[1..], p, DepthAfter(pieces[0], depth));
    }
  }

  /** The pieces read so far, from the opener at `i` up to `j`. */
  ghost predicate PiecesRead(source: string, i: nat, pieces: seq<Piece>, j: nat, depth: int) {
    && i + 2 <= j <= |source| && source[i..j] == "/*" + PrintPieces(pieces)
    && PiecesFit(pieces, source[j..])
    && ReadWhileOpen(pieces, 1) && depth == Depth(pieces, 1)
  }

  lemma PairAt(source: string, j: nat, a: char, b: char)
    requires j <= |source|
    ensures [a, b] <= source[j..] <==> j + 1 < |source| && source[j] == a && source[j + 1] == b
  {
    if j + 1 < |source| {
      assert source[j..][..2] == [source[j], source[j + 1]];
    }
  }

  lemma {:induction false} PieceRead(source: string, i: nat, pieces: seq<Piece>, j: nat, depth: int, p: Piece)
    requires PiecesRead(source, i, pieces, j, depth) && depth > 0
    requires PrintPiece(p) <= source[j..]
    requires p.Other? ==> !("/*" <= source[j..]) && !("*/" <= source[j..])
    ensures PiecesRead(source, i, pieces + [p], j + |PrintPiece(p)|, DepthAfter(p, depth))
  {
    var rest := source[j + |PrintPiece(p)|..];
    Advance(source, i, j, PrintPiece(p));
    PiecesFitAppend(pieces, p, rest);
    DepthAppend(pieces, p, 1);
    PieceSpelled(source[i..j], pieces, p);
  }

  lemma {:induction false} PieceSpelled(text: string, pieces: seq<Piece>, p: Piece)
    requires text == "/*" + PrintPieces(pieces)
    ensures text + PrintPiece(p) == "/*" + PrintPieces(pieces + [p])
  {
    PrintPiecesAppend(pieces, p);
  }

  lemma {:induction false} BlockAt(source: string, i: nat, pieces: seq<Piece>, j: nat, depth: int)
    requires PiecesRead(source, i, pieces, j, depth)
    requires depth == 0 || (depth > 0 && j == |source|)
    ensures Spans(if depth == 0 then BlockComment(pieces) else OpenBlock(pieces), source, i, j)
  {
    TextAt(source, i, j, "/*" + PrintPieces(pieces));
  }

  /** The piece at `j`: the scanner looks for an opener first, then a closer. */
  function PieceAt(source: string, j: nat): (p: Piece)
    requires j < |source|
  {
    if source[j] == '/' && j + 1 < |source| && source[j + 1] == '*' then Opener
    else if source[j] == '*' && j + 1 < |source| && source[j + 1] == '/' then Closer
    else Other(source[j])
  }

  lemma {:induction false} NextPieceRead(source: string, i: nat, pieces: seq<Piece>, j: nat, depth: int)
    requires PiecesRead(source, i, pieces, j, depth) && depth > 0 && j < |source|
    ensures var p := PieceAt(source, j);
            PiecesRead(source, i, pieces + [p], j + |PrintPiece(p)|, DepthAfter(p, depth))
  {
    PairAt(source, j, '/', '*');
    PairAt(source, j, '*', '/');
    PieceRead(source, i, pieces, j, depth, PieceAt(source, j));
  }

  /** Skip a block comment, which may nest. */
  method SkipBlockComment(source: string, start: nat) returns (i: nat, ghost x: Lexeme)
    requires start + 1 < |source| && source[start] == '/' && source[start + 1] == '*'
    ensures IsBlock(x) && Spans(x, source, start, i)
  {
    var n := |source|;
    var depth := 1;
    i := start + 2;
    ghost var pieces: seq<Piece> := [];
    while i < n && depth > 0
      invariant PiecesRead(source, start, pieces, i, depth) && depth >= 0
      decreases n - i
    {
      NextPieceRead(source, start, pieces, i, depth);
      pieces := pieces + [PieceAt(source, i)];
      if source[i] == '/' && i + 1 < n && source[i + 1] == '*' {
        depth := depth + 1;
        i := i + 2;
      } else if source[i] == '*' && i + 1 < n && source[i + 1] == '/' {
        depth := depth - 1;
        i := i + 2;
      } else {
        i := i + 1;
      }
    }
    BlockAt(source, start, pieces, i, depth);
    x := if depth == 0 then BlockComment(pieces) else OpenBlock(pieces);
  }

  // ---------------------------------------------------------------- line comments

  lemma {:induction false} LineCommentAt(source: string, i: nat, nl: int)
    requires i + 1 < |source| && source[i] == '/' && source[i + 1] == '/'
    requires Finds(source, "\n", i, nl)
    ensures var end := if nl == -1 then |source| else nl;
            i + 2 <= end <= |source| && Spans(LineComment(source[i + 2..end]), source, i, end)
  {
    var end := if nl == -1 then |source| else nl;
    FindsChar(source, '\n', i, nl);
    var x := LineComment(source[i + 2..end]);
    assert Print(x) == source[i..end];
    TextAt(source, i, end, Print(x));
  }

  // ---------------------------------------------------------------- the scan

  lemma {:induction false} TokenHits(words: seq<string>, tokens: seq<Token>, t: Token, rest: seq<Token>, i: nat, end: nat)
    requires tokens == [t] + rest && end == i + |PrintToken(t)|
    ensures Hits(words, tokens, i) == HitsOf(words, t, i) + Hits(words, rest, end)
  {
    assert tokens[0] == t && tokens[1..] == rest;
  }

  /** The hits still to be found from `i` on. */
  ghost function HitsLeft(words: seq<string>, source: string, i: nat): (r: seq<Hit>)
  {
    if i <= |source| then Hits(words, Tokens(source[i..]), i) else []
  }

  lemma DropTwice(source: string, i: nat, n: nat, end: nat)
    requires end == i + n <= |source|
    ensures source[i..][n..] == source[end..]
  {
  }

  lemma {:induction false} LexemeTokens(source: string, i: nat, x: Lexeme, end: nat)
    requires i < |source| && Spans(x, source, i, end)
    ensures i < end <= |source| && Tokens(source[i..]) == [Lex(x)] + Tokens(source[end..])
  {
    DropTwice(source, i, |Print(x)|, end);
    TokensStep(x, source[i..], source[end..]);
  }

  lemma {:induction false} LexemeHits(words: seq<string>, source: string, i: nat, x: Lexeme, end: nat)
    requires i < |source| && Spans(x, source, i, end)
    ensures i < end <= |source|
    ensures Hits(words, Tokens(source[i..]), i) == HitsOf(words, Lex(x), i) + Hits(words, Tokens(source[end..]), end)
  {
    LexemeTokens(source, i, x, end);
    TokenHits(words, Tokens(source[i..]), Lex(x), Tokens(source[end..]), i, end);
  }

  lemma {:induction false} LexemeStep(words: seq<string>, source: string, i: nat, x: Lexeme, end: nat)
    requires i < |source| && Spans(x, source, i, end)
    ensures i < end <= |source|
    ensures HitsLeft(words, source, i) == HitsOf(words, Lex(x), i) + HitsLeft(words, source, end)
  {
    LexemeHits(words, source, i, x, end);
  }

  lemma {:induction false} CodeStep(words: seq<string>, source: string, i: nat)
    requires i < |source| && NothingStarts(source[i..])
    ensures HitsLeft(words, source, i) == HitsLeft(words, source, i + 1)
  {
    TokensCode(source[i..]);
    assert source[i..][1..] == source[i + 1..];
    TokenHits(words, Tokens(source[i..]), Code(source[i]), Tokens(source[i + 1..]), i, i + 1);
    assert [] + HitsLeft(words, source, i + 1) == HitsLeft(words, source, i + 1);
  }

  lemma {:induction false} PrefixBeforeQuote(w: string, c: string, t: string)
    requires '"' !in w
    ensures w + ":" <= c + "\"" + t <==> w + ":" <= c
  {
    var s, p := c + "\"" + t, w + ":";
    if p <= s {
      assert s[|c|] == '"';
      assert forall k | 0 <= k < |p| :: p[k] == s[k];
      assert p == c[..|p|];
    }
  }

  lemma {:induction false} PrefixedBeforeQuote(words: seq<string>, c: string, t: string)
    requires QuoteFree(words)
    ensures Prefixed(words, c + "\"" + t) == Prefixed(words, c)
  {
    if words == [] {
    } else {
      assert words[0] in words;
      PrefixBeforeQuote(words[0], c, t);
      assert forall w | w in words[1..] :: w in words;
      PrefixedBeforeQuote(words[1..], c, t);
    }
  }

  lemma {:induction false} RawContentText(x: Lexeme, s: string)
    requires IsRaw(x) && StartsAt(x, s)
    ensures OpeningLength(x) <= |s|
    ensures s[OpeningLength(x)..] == Content(x) + (if x.Raw? then "\"" + (Hashes(x.hashes) + s[|Print(x)|..]) else "")
  {
    var rest := s[|Print(x)|..];
    RawText(x, s);
    BehindOpening(RawOpening(x.byte, x.hashes), RawTail(x, rest));
    if x.Raw? {
      Sequences.Regroup(x.content, RawClosing(x.hashes), rest);
      Sequences.Regroup("\"", Hashes(x.hashes), rest);
    } else {
      NothingDangles(x.content);
    }
  }

  lemma BehindOpening(opening: string, tail: string)
    ensures (opening + tail)[|opening|..] == tail
  {
  }

  lemma {:induction false} QuotedContentText(x: Lexeme, s: string)
    requires IsQuoted(x) && StartsAt(x, s)
    ensures OpeningLength(x) <= |s|
    ensures s[OpeningLength(x)..] == Content(x) + (if x.Str? then "\"" + s[|Print(x)|..] else "")
  {
    QuotedText(x, s);
  }

  /** Matching at the content start, though not bounded by the literal, sees exactly its content. */
  lemma {:induction false} PrefixOfContent(words: seq<string>, x: Lexeme, s: string)
    requires QuoteFree(words) && IsString(x) && StartsAt(x, s)
    ensures OpeningLength(x) <= |s| && Prefixed(words, s[OpeningLength(x)..]) == Prefixed(words, Content(x))
  {
    var tail;
    if IsRaw(x) {
      RawContentText(x, s);
      tail := if x.Raw? then Hashes(x.hashes) + s[|Print(x)|..] else "";
    } else {
      QuotedContentText(x, s);
      tail := s[|Print(x)|..];
    }
    if x.Raw? || x.Str? {
      assert s[OpeningLength(x)..] == Content(x) + "\"" + tail;
      PrefixedBeforeQuote(words, Content(x), tail);
    } else {
      assert s[OpeningLength(x)..] == Content(x);
    }
  }

  method Record(words: seq<string>, hits: seq<Hit>, source: string, contentStart: nat) returns (r: seq<Hit>)
    requires contentStart <= |source|
    ensures r == hits + HitIn(words, source[contentStart..], contentStart)
  {
    r := hits;
    var word := Prefixed(words, source[contentStart..]);
    if word.Some? {
      r := r + [(contentStart, word.value)];
    }
  }

  /** Recording at the content start `c` is recording the literal. */
  lemma {:induction false} RecordIsHit(words: seq<string>, source: string, i: nat, x: Lexeme, c: nat)
    requires QuoteFree(words) && i < |source| && IsString(x) && StartsAt(x, source[i..]) && c == i + OpeningLength(x)
    ensures c <= |source|
    ensures HitsOf(words, Lex(x), i) == HitIn(words, source[c..], c)
  {
    PrefixOfContent(words, x, source[i..]);
    DropTwice(source, i, OpeningLength(x), c);
    SameHit(words, Content(x), source[c..], c);
  }

  lemma SameHit(words: seq<string>, a: string, b: string, c: nat)
    requires Prefixed(words, a) == Prefixed(words, b)
    ensures HitIn(words, a, c) == HitIn(words, b, c)
  {
  }

  /** `left` is `HitsLeft`, under a name that stands for it without its definition. */
  ghost predicate IsLeft(left: nat -> seq<Hit>, words: seq<string>, source: string) {
    forall i: nat {:trigger HitsLeft(words, source, i)} :: left(i) == HitsLeft(words, source, i)
  }

  lemma LeftExists(words: seq<string>, source: string) returns (left: nat -> seq<Hit>)
    ensures IsLeft(left, words, source)
    ensures left(0) == Hits(words, Tokens(source), 0) && left(|source|) == []
  {
    left := (i: nat) => HitsLeft(words, source, i);
    assert source[0..] == source && source[|source|..] == "";
  }

  lemma {:induction false} StringStep(left: nat -> seq<Hit>, words: seq<string>, hits: seq<Hit>, source: string,
                                      i: nat, x: Lexeme, c: nat, end: nat)
    requires IsLeft(left, words, source)
    requires QuoteFree(words) && i < |source| && IsString(x) && Spans(x, source, i, end) && c == i + OpeningLength(x)
    ensures i < end <= |source| && c <= |source|
    ensures hits + left(i) == hits + HitIn(words, source[c..], c) + left(end)
  {
    RecordIsHit(words, source, i, x, c);
    LexemeStep(words, source, i, x, end);
    Sequences.Regroup(hits, HitIn(words, source[c..], c), left(end));
  }

  lemma {:induction false} QuotedStep(left: nat -> seq<Hit>, words: seq<string>, hits: seq<Hit>, source: string,
                                      i: nat, x: Lexeme, end: nat)
    requires IsLeft(left, words, source)
    requires QuoteFree(words) && i < |source| && IsQuoted(x) && Spans(x, source, i, end)
    ensures i < end <= |source|
    ensures hits + left(i) == hits + HitIn(words, source[i + 1..], i + 1) + left(end)
  {
    StringStep(left, words, hits, source, i, x, i + 1, end);
  }

  lemma NoHits(none: seq<Hit>, later: seq<Hit>)
    requires none == []
    ensures none + later == later
  {
  }

  lemma {:induction false} SkipStep(left: nat -> seq<Hit>, words: seq<string>, source: string, i: nat, x: Lexeme, end: nat)
    requires IsLeft(left, words, source)
    requires i < |source| && !IsString(x) && Spans(x, source, i, end)
    ensures i < end <= |source| && left(i) == left(end)
  {
    LexemeStep(words, source, i, x, end);
    NoHits(HitsOf(words, Lex(x), i), left(end));
  }

  /** Where none of the scanner's cases applies, the character is code. */
  lemma {:induction false} PlainStep(left: nat -> seq<Hit>, words: seq<string>, source: string, i: nat)
    requires IsLeft(left, words, source)
    requires i < |source| && source[i] != '"' && source[i] != '\''
    requires source[i] == '/' && i + 1 < |source| ==> source[i + 1] != '/' && source[i + 1] != '*'
    requires source[i] == 'r' || source[i] == 'b' ==> NoRaw(source, i)
    ensures left(i) == left(i + 1)
  {
    NothingStartsHere(source, i);
    CodeStep(words, source, i);
  }

  /** A quote that opens no character literal belongs to a lifetime or a label. */
  lemma {:induction false} LoneQuoteStep(left: nat -> seq<Hit>, words: seq<string>, source: string, i: nat)
    requires IsLeft(left, words, source)
    requires i < |source| && source[i] == '\'' && forall form :: !StartsAt(CharLit(form), source[i..])
    ensures left(i) == left(i + 1)
  {
    NothingStartsHere(source, i);
    CodeStep(words, source, i);
  }

  lemma {:induction false} NotHere(source: string, i: nat, x: Lexeme)
    requires i < |source| && source[i] != '"'
    requires source[i] == '/' && i + 1 < |source| ==> source[i + 1] != '/' && source[i + 1] != '*'
    requires source[i] == 'r' || source[i] == 'b' ==> NoRaw(source, i)
    requires source[i] == '\'' ==> forall form :: !StartsAt(CharLit(form), source[i..])
    ensures !StartsAt(x, source[i..])
  {
    var s := source[i..];
    assert s[0] == source[i];
    assert |s| >= 2 ==> s[1] == source[i + 1];
    if StartsAt(x, s) {
      Heads(x, s);
    }
  }

  /** At a position none of the scanner's cases take, no comment or literal begins. */
  lemma {:induction false} NothingStartsHere(source: string, i: nat)
    requires i < |source| && source[i] != '"'
    requires source[i] == '/' && i + 1 < |source| ==> source[i + 1] != '/' && source[i + 1] != '*'
    requires source[i] == 'r' || source[i] == 'b' ==> NoRaw(source, i)
    requires source[i] == '\'' ==> forall form :: !StartsAt(CharLit(form), source[i..])
    ensures NothingStarts(source[i..])
  {
    forall x: Lexeme ensures !StartsAt(x, source[i..]) {
      NotHere(source, i, x);
    }
  }

  /** The quote of a raw literal's opening delimiter is the first one from its start. */
  lemma {:induction false} RawQuote(source: string, i: nat, x: Lexeme, quote: int)
    requires i < |source| && IsRaw(x) && StartsAt(x, source[i..])
    requires Finds(source, "\"", i, quote)
    ensures quote + 1 == i + OpeningLength(x) && quote < |source|
  {
    RawOpensAt(source, i, x);
    FindsChar(source, '"', i, quote);
  }

  // The cases of the walk, each from the character that selects it to where the walk resumes.

  method ScanComment(source: string, i: nat, ghost left: nat -> seq<Hit>, ghost words: seq<string>) returns (end: nat)
    requires IsLeft(left, words, source)
    requires i + 1 < |source| && source[i] == '/' && (source[i + 1] == '/' || source[i + 1] == '*')
    ensures i < end <= |source| && left(i) == left(end)
  {
    ghost var x;
    if source[i + 1] == '/' {
      var nl := Find(source, "\n", i);
      LineCommentAt(source, i, nl);
      end := if nl == -1 then |source| else nl;
      x := LineComment(source[i + 2..end]);
    } else {
      end, x := SkipBlockComment(source, i);
    }
    SkipStep(left, words, source, i, x, end);
  }

  method ScanRaw(words: seq<string>, hits: seq<Hit>, source: string, i: nat, ghost left: nat -> seq<Hit>)
    returns (r: seq<Hit>, end: Option<nat>)
    requires IsLeft(left, words, source) && QuoteFree(words)
    requires i < |source|
    ensures end.None? ==> NoRaw(source, i) && r == hits
    ensures end.Some? ==> i < end.value <= |source| && hits + left(i) == r + left(end.value)
  {
    r := hits;
    ghost var x;
    end, x := RawStringEnd(source, i);
    if end.Some? {
      var quote := Find(source, "\"", i);
      RawQuote(source, i, x, quote);
      StringStep(left, words, hits, source, i, x, quote + 1, end.value);
      r := Record(words, hits, source, quote + 1);
    }
  }

  method ScanQuote(source: string, i: nat, ghost left: nat -> seq<Hit>, ghost words: seq<string>) returns (end: nat)
    requires IsLeft(left, words, source)
    requires i < |source| && source[i] == '\''
    ensures i < end <= |source| && left(i) == left(end)
  {
    var stop;
    ghost var x;
    stop, x := CharLiteralEnd(source, i);
    if stop.Some? {
      end := stop.value;
      SkipStep(left, words, source, i, x, end);
    } else {
      end := i + 1;
      LoneQuoteStep(left, words, source, i);
    }
  }

  method ScanString(words: seq<string>, hits: seq<Hit>, source: string, i: nat, ghost left: nat -> seq<Hit>)
    returns (r: seq<Hit>, end: nat, ghost at: nat)
    requires IsLeft(left, words, source) && QuoteFree(words)
    requires i < |source| && source[i] == '"'
    ensures i < at <= |source| && (end == at || (at == |source| && end == at + 1))
    ensures hits + left(i) == r + left(at)
  {
    ghost var x;
    end, x, at := RegularStringEnd(source, i);
    QuotedStep(left, words, hits, source, i, x, at);
    r := Record(words, hits, source, i + 1);
  }

  /** The walk; `left(i)` names what there is to find from `i` on. */
  method ScanFromStart(words: seq<string>, source: string, ghost left: nat -> seq<Hit>) returns (hits: seq<Hit>)
    requires IsLeft(left, words, source) && QuoteFree(words) && left(|source|) == []
    ensures hits == left(0)
  {
    hits := [];
    var i := 0;
    var n := |source|;
    ghost var at := 0;
    while i < n
      invariant at <= n && (i == at || (at == n && i == n + 1))
      invariant hits + left(at) == left(0)
      decreases n + 1 - i
    {
      var ch := source[i];
      if ch == '/' && i + 1 < n && (source[i + 1] == '/' || source[i + 1] == '*') {
        i := ScanComment(source, i, left, words);
        at := i;
        continue;
      }
      if ch == 'r' || ch == 'b' {
        var stop;
        hits, stop := ScanRaw(words, hits, source, i, left);
        if stop.Some? {
          i := stop.value;
          at := i;
          continue;
        }
      }
      if ch == '\'' {
        i := ScanQuote(source, i, left, words);
        at := i;
        continue;
      }
      if ch == '"' {
        hits, i, at := ScanString(words, hits, source, i, left);
        continue;
      }
      PlainStep(left, words, source, i);
      i := i + 1;
      at := i;
    }
  }

  /**
   Scanning finds, left to right, every string literal of the source that begins with one of the words: where its
   content begins, and which word is the first that it begins with.
   */
  method ScanLiterals(words: seq<string>, source: string) returns (hits: seq<Hit>)
    requires QuoteFree(words)
    ensures hits == Hits(words, Tokens(source), 0)
    ensures forall hit: Hit :: hit in hits <==> Offends(words, source, hit.0, hit.1)
    ensures IncreasingIn(hits, 0, |source|)
  {
    ghost var left := LeftExists(words, source);
    hits := ScanFromStart(words, source, left);
    HitsOffend(words, source);
    HitsIncrease(words, source);
  }

  // ---------------------------------------------------------------- what the hits are

  /** The first of the words that, followed by a colon, begins the text. */
  ghost predicate FirstWord(words: seq<string>, w: string, text: string) {
    exists k :: 0 <= k < |words| && words[k] == w && w + ":" <= text && forall j | 0 <= j < k :: !(words[j] + ":" <= text)
  }

  /** A string literal among the tokens, its content beginning at `o` and with `w`. */
  ghost predicate IsOffense(words: seq<string>, o: nat, w: string, offset: nat, before: seq<Token>, x: Lexeme) {
    (x.Raw? || x.OpenRaw? || x.Str? || x.OpenStr?) && o == offset + |PrintAll(before)| + OpeningLength(x) && FirstWord(words, w, Content(x))
  }

  ghost predicate Offends(words: seq<string>, source: string, o: nat, w: string) {
    exists before, x, after :: Tokens(source) == before + [Lex(x)] + after && IsOffense(words, o, w, 0, before, x)
  }

  lemma {:induction false} PrefixedIff(words: seq<string>, text: string, w: string)
    ensures Prefixed(words, text) == Some(w) <==> FirstWord(words, w, text)
  {
    if words == [] {
    } else if words[0] + ":" <= text {
      assert FirstWord(words, w, text) ==> w == words[0];
    } else {
      var rest := words[1..];
      PrefixedIff(rest, text, w);
      if k :| 0 <= k < |rest| && rest[k] == w && w + ":" <= text && forall j | 0 <= j < k :: !(rest[j] + ":" <= text) {
        assert words[k + 1] == w;
      }
      if k :| 0 <= k < |words| && words[k] == w && w + ":" <= text && forall j | 0 <= j < k :: !(words[j] + ":" <= text) {
        assert rest[k - 1] == w;
        assert forall j | 0 <= j < k - 1 :: rest[j] == words[j + 1];
      }
    }
  }

  lemma HitOfIff(words: seq<string>, t: Token, offset: nat, hit: Hit)
    ensures hit in HitsOf(words, t, offset) <==> t.Lex? && IsOffense(words, hit.0, hit.1, offset, [], t.x)
  {
    if t.Lex? && IsString(t.x) {
      PrefixedIff(words, Content(t.x), hit.1);
    }
  }

  lemma HitBehind(words: seq<string>, tokens: seq<Token>, offset: nat, hit: Hit, before: seq<Token>, x: Lexeme, after: seq<Token>)
    requires tokens != [] && tokens[1..] == before + [Lex(x)] + after
    requires IsOffense(words, hit.0, hit.1, offset + |PrintToken(tokens[0])|, before, x)
    ensures tokens == ([tokens[0]] + before) + [Lex(x)] + after
    ensures IsOffense(words, hit.0, hit.1, offset, [tokens[0]] + before, x)
  {
    var all := [tokens[0]] + before;
    assert all[1..] == before;
    OffenseBehind(words, hit, offset, all, x);
    ConsSplit(all, Lex(x), after);
  }

  lemma {:induction false} HitFound(words: seq<string>, tokens: seq<Token>, offset: nat, hit: Hit)
    returns (before: seq<Token>, x: Lexeme, after: seq<Token>)
    requires hit in Hits(words, tokens, offset)
    ensures tokens == before + [Lex(x)] + after && IsOffense(words, hit.0, hit.1, offset, before, x)
  {
    var t, rest := tokens[0], tokens[1..];
    var mid := offset + |PrintToken(t)|;
    if hit in HitsOf(words, t, offset) {
      HitOfIff(words, t, offset, hit);
      before, x, after := [], t.x, rest;
      assert tokens == [] + [Lex(t.x)] + rest;
    } else {
      var b;
      b, x, after := HitFound(words, rest, mid, hit);
      before := [t] + b;
      HitBehind(words, tokens, offset, hit, b, x, after);
    }
  }

  lemma ConsSplit(before: seq<Token>, t: Token, after: seq<Token>)
    requires before != []
    ensures before + [t] + after == [before[0]] + (before[1..] + [t] + after)
  {
  }

  lemma OffenseBehind(words: seq<string>, hit: Hit, offset: nat, before: seq<Token>, x: Lexeme)
    requires before != []
    ensures IsOffense(words, hit.0, hit.1, offset, before, x)
       <==> IsOffense(words, hit.0, hit.1, offset + |PrintToken(before[0])|, before[1..], x)
  {
    PrintAllCons(before[0], before[1..]);
    assert before == [before[0]] + before[1..];
  }

  lemma PrintAllCons(t: Token, tokens: seq<Token>)
    ensures PrintAll([t] + tokens) == PrintToken(t) + PrintAll(tokens)
  {
  }

  lemma {:induction false} HitsOfConcat(words: seq<string>, a: seq<Token>, b: seq<Token>, offset: nat, end: nat)
    requires end == offset + |PrintAll(a)|
    ensures Hits(words, a + b, offset) == Hits(words, a, offset) + Hits(words, b, end)
  {
    if a == [] {
      assert a + b == b;
    } else {
      var t, rest := a[0], a[1..];
      var mid := offset + |PrintToken(t)|;
      HitsOfConcat(words, rest, b, mid, end);
      TokenHits(words, a, t, rest, offset, mid);
      Sequences.ConsConcat(a, b);
      TokenHits(words, a + b, t, rest + b, offset, mid);
      Sequences.Regroup(HitsOf(words, t, offset), Hits(words, rest, mid), Hits(words, b, end));
    }
  }

  lemma HitAtOnce(words: seq<string>, x: Lexeme, after: seq<Token>, at: nat, hit: Hit)
    requires IsOffense(words, hit.0, hit.1, at, [], x)
    ensures hit in Hits(words, [Lex(x)] + after, at)
  {
    HitOfIff(words, Lex(x), at, hit);
    TokenHits(words, [Lex(x)] + after, Lex(x), after, at, at + |PrintToken(Lex(x))|);
  }

  lemma LiteralHits(words: seq<string>, before: seq<Token>, x: Lexeme, after: seq<Token>, hit: Hit)
    requires IsOffense(words, hit.0, hit.1, 0, before, x)
    ensures hit in Hits(words, before + [Lex(x)] + after, 0)
  {
    var at := |PrintAll(before)|;
    HitAtOnce(words, x, after, at, hit);
    HitsOfConcat(words, before, [Lex(x)] + after, 0, at);
    Sequences.Regroup(before, [Lex(x)], after);
  }

  lemma HitOffends(words: seq<string>, source: string, hit: Hit)
    ensures hit in Hits(words, Tokens(source), 0) <==> Offends(words, source, hit.0, hit.1)
  {
    var tokens := Tokens(source);
    if hit in Hits(words, tokens, 0) {
      var before, x, after := HitFound(words, tokens, 0, hit);
    }
    if before, x, after :| tokens == before + [Lex(x)] + after && IsOffense(words, hit.0, hit.1, 0, before, x) {
      LiteralHits(words, before, x, after, hit);
    }
  }

  /** What is reported: every offending literal and nothing else. */
  lemma HitsOffend(words: seq<string>, source: string)
    ensures forall hit: Hit :: hit in Hits(words, Tokens(source), 0) <==> Offends(words, source, hit.0, hit.1)
  {
    forall hit: Hit ensures hit in Hits(words, Tokens(source), 0) <==> Offends(words, source, hit.0, hit.1) {
      HitOffends(words, source, hit);
    }
  }

  /** Printing any well-separated tokens and scanning the text reports exactly their offending literals. */
  lemma PrintedTokensScan(words: seq<string>, tokens: seq<Token>)
    requires WellSeparated(tokens)
    ensures Hits(words, Tokens(PrintAll(tokens)), 0) == Hits(words, tokens, 0)
  {
    PrintedTokensReadBack(tokens);
  }

  ghost predicate IncreasingIn(hits: seq<Hit>, low: nat, high: nat) {
    && (forall k | 0 <= k < |hits| :: low < hits[k].0 <= high)
    && (forall j, k | 0 <= j < k < |hits| :: hits[j].0 < hits[k].0)
  }

  /** `IncreasingIn`, from one hit to the next. */
  predicate Chained(hits: seq<Hit>, low: nat, high: nat) {
    if hits == [] then low <= high else low < hits[0].0 && Chained(hits[1..], hits[0].0, high)
  }

  lemma {:induction false} ChainedIncreases(hits: seq<Hit>, low: nat, high: nat)
    requires Chained(hits, low, high)
    ensures low <= high && IncreasingIn(hits, low, high)
  {
    if hits == [] {
    } else {
      var rest := hits[1..];
      ChainedIncreases(rest, hits[0].0, high);
      assert hits == [hits[0]] + rest;
    }
  }

  lemma OpeningFits(x: Lexeme)
    requires IsString(x)
    ensures 0 < OpeningLength(x) <= |Print(x)|
  {
  }

  /** A token gives at most one hit, inside it. */
  lemma HitOfToken(words: seq<string>, t: Token, offset: nat)
    ensures var hits := HitsOf(words, t, offset);
            hits == [] || (|hits| == 1 && offset < hits[0].0 <= offset + |PrintToken(t)|)
  {
    if t.Lex? && IsString(t.x) {
      OpeningFits(t.x);
    }
  }

  lemma ChainedBehind(first: seq<Hit>, later: seq<Hit>, low: nat, mid: nat, high: nat)
    requires low <= mid && Chained(later, mid, high)
    requires first == [] || (|first| == 1 && low < first[0].0 <= mid)
    ensures Chained(first + later, low, high)
  {
    if first == [] {
      assert first + later == later;
    } else {
      assert (first + later)[1..] == later;
    }
  }

  lemma {:induction false} HitsFrom(words: seq<string>, tokens: seq<Token>, offset: nat)
    ensures Chained(Hits(words, tokens, offset), offset, offset + |PrintAll(tokens)|)
  {
    if tokens == [] {
    } else {
      var t, rest := tokens[0], tokens[1..];
      var mid := offset + |PrintToken(t)|;
      HitOfToken(words, t, offset);
      HitsFrom(words, rest, mid);
      ChainedBehind(HitsOf(words, t, offset), Hits(words, rest, mid), offset, mid, mid + |PrintAll(rest)|);
      assert offset + |PrintAll(tokens)| == mid + |PrintAll(rest)|;
    }
  }

  /** Hits come in strictly increasing offsets, each inside the source. */
  lemma HitsIncrease(words: seq<string>, source: string)
    ensures IncreasingIn(Hits(words, Tokens(source), 0), 0, |source|)
  {
    TokensSpell(source);
    HitsFrom(words, Tokens(source), 0);
    assert 0 + |PrintAll(Tokens(source))| == |source|;
    ChainedIncreases(Hits(words, Tokens(source), 0), 0, |source|);
  }
}
