/** The token grammar of Rust source, stated without a scanner. */
module RustTokens {
  import Sequences

  /** A piece of a block comment: a nested opener or closer, or a character that begins neither. */
  datatype Piece = Opener | Closer | Other(c: char)

  datatype StrItem = Plain(c: char) | Escape(c: char)

  /** What stands between the quotes of a character literal. */
  datatype CharForm = Bare(c: char) | Escaped(c: char) | Hex(c: char, d: char) | Unicode(digits: string)

  /** A comment or a literal. The `Open` ones are unterminated and run to the end of the source. */
  datatype Lexeme =
    | LineComment(body: string)
    | BlockComment(pieces: seq<Piece>)
    | OpenBlock(pieces: seq<Piece>)
    | Raw(byte: bool, hashes: nat, content: string)
    | OpenRaw(byte: bool, hashes: nat, content: string)
    | Str(items: seq<StrItem>)
    | OpenStr(items: seq<StrItem>, dangling: bool)
    | CharLit(form: CharForm)

  // ---------------------------------------------------------------- spelling

  function PrintPiece(p: Piece): (s: string)
    ensures s != ""
  {
    match p
    case Opener => "/*"
    case Closer => "*/"
    case Other(c) => [c]
  }

  function PrintPieces(pieces: seq<Piece>): (s: string)
  {
    if pieces == [] then "" else PrintPiece(pieces[0]) + PrintPieces(pieces[1..])
  }

  function PrintItem(item: StrItem): (s: string)
  {
    match item
    case Plain(c) => [c]
    case Escape(c) => ['\\', c]
  }

  function PrintItems(items: seq<StrItem>): (s: string)
  {
    if items == [] then "" else PrintItem(items[0]) + PrintItems(items[1..])
  }

  function PrintForm(form: CharForm): (s: string)
    ensures s != ""
  {
    match form
    case Bare(c) => [c]
    case Escaped(c) => ['\\', c]
    case Hex(c, d) => ['\\', 'x', c, d]
    case Unicode(digits) => "\\u" + digits + "}"
  }

  function Hashes(n: nat): (s: string)
    ensures |s| == n && forall i | 0 <= i < n :: s[i] == '#'
  {
    seq(n, _ => '#')
  }

  /** The opening delimiter of a string literal, raw or not. */
  function RawOpening(byte: bool, hashes: nat): (s: string)
  {
    (if byte then "br" else "r") + Hashes(hashes) + "\""
  }

  function RawClosing(hashes: nat): (s: string)
  {
    "\"" + Hashes(hashes)
  }

  function Print(x: Lexeme): (s: string)
    ensures s != ""
  {
    match x
    case LineComment(body) => "//" + body
    case BlockComment(pieces) => "/*" + PrintPieces(pieces)
    case OpenBlock(pieces) => "/*" + PrintPieces(pieces)
    case Raw(byte, hashes, content) => RawOpening(byte, hashes) + content + RawClosing(hashes)
    case OpenRaw(byte, hashes, content) => RawOpening(byte, hashes) + content
    case Str(items) => "\"" + PrintItems(items) + "\""
    case OpenStr(items, dangling) => "\"" + PrintItems(items) + (if dangling then "\\" else "")
    case CharLit(form) => "'" + PrintForm(form) + "'"
  }

  // ---------------------------------------------------------------- when a lexeme fits before `rest`

  /** An `Other` character does not begin a nested delimiter with what follows it. */
  predicate PieceFits(p: Piece, after: string) {
    p.Other? ==> !("/*" <= [p.c] + after) && !("*/" <= [p.c] + after)
  }

  ghost predicate PiecesFit(pieces: seq<Piece>, rest: string)
  {
    pieces == [] || (PieceFits(pieces[0], PrintPieces(pieces[1..]) + rest) && PiecesFit(pieces[1..], rest))
  }

  function DepthAfter(p: Piece, depth: int): (d: int)
  {
    match p
    case Opener => depth + 1
    case Closer => depth - 1
    case Other(_) => depth
  }

  /** The depth the pieces end at, having started inside `depth` openers. */
  function Depth(pieces: seq<Piece>, depth: int): (d: int)
  {
    if pieces == [] then depth else Depth(pieces[1..], DepthAfter(pieces[0], depth))
  }

  /** Every piece is read while the comment is open. */
  predicate ReadWhileOpen(pieces: seq<Piece>, depth: int) {
    pieces == [] || (depth > 0 && ReadWhileOpen(pieces[1..], DepthAfter(pieces[0], depth)))
  }

  predicate ItemsFit(items: seq<StrItem>) {
    forall i | 0 <= i < |items| && items[i].Plain? :: items[i].c != '"' && items[i].c != '\\'
  }

  predicate FormFits(form: CharForm) {
    match form
    case Bare(c) => c != '\\'
    case Escaped(c) => c != 'u' && c != 'x'
    case Hex(_, _) => true
    case Unicode(digits) => '}' !in digits
  }

  ghost predicate OccursAt(s: string, pat: string, k: nat) {
    k <= |s| && pat <= s[k..]
  }

  ghost predicate Fits(x: Lexeme, rest: string) {
    match x
    case LineComment(body) => '\n' !in body && (rest == "" || rest[0] == '\n')
    case BlockComment(pieces) => PiecesFit(pieces, rest) && ReadWhileOpen(pieces, 1) && Depth(pieces, 1) == 0
    case OpenBlock(pieces) => rest == "" && PiecesFit(pieces, rest) && ReadWhileOpen(pieces, 1) && Depth(pieces, 1) > 0
    case Raw(_, hashes, content) => forall k | 0 <= k < |content| :: !OccursAt(content + RawClosing(hashes), RawClosing(hashes), k)
    case OpenRaw(_, hashes, content) => rest == "" && forall k | 0 <= k <= |content| :: !OccursAt(content, RawClosing(hashes), k)
    case Str(items) => ItemsFit(items)
    case OpenStr(items, _) => rest == "" && ItemsFit(items)
    case CharLit(form) => FormFits(form)
  }

  /** The text begins with this comment or literal. */
  ghost predicate StartsAt(x: Lexeme, s: string) {
    |Print(x)| <= |s| && s[..|Print(x)|] == Print(x) && Fits(x, s[|Print(x)|..])
  }

  ghost predicate NothingStarts(s: string) {
    forall x: Lexeme :: !StartsAt(x, s)
  }

  // ---------------------------------------------------------------- the token list of a source

  /** A token: a comment or literal, or a code character at which none of those begins. */
  datatype Token = Lex(x: Lexeme) | Code(c: char)

  function PrintToken(t: Token): (s: string)
    ensures s != ""
  {
    match t
    case Lex(x) => Print(x)
    case Code(c) => [c]
  }

  function PrintAll(tokens: seq<Token>): (s: string)
  {
    if tokens == [] then "" else PrintToken(tokens[0]) + PrintAll(tokens[1..])
  }

  ghost predicate TokenFits(t: Token, rest: string) {
    match t
    case Lex(x) => Fits(x, rest)
    case Code(c) => NothingStarts([c] + rest)
  }

  /** Each token fits before the text of those after it. */
  ghost predicate WellSeparated(tokens: seq<Token>) {
    tokens == [] || (TokenFits(tokens[0], PrintAll(tokens[1..])) && WellSeparated(tokens[1..]))
  }

  /** The tokens of a source. */
  ghost function Tokens(s: string): (r: seq<Token>)
    decreases |s|
  {
    if s == "" then []
    else if x: Lexeme :| StartsAt(x, s) then [Lex(x)] + Tokens(s[|Print(x)|..])
    else [Code(s[0])] + Tokens(s[1..])
  }

  // ---------------------------------------------------------------- the grammar is unambiguous

  lemma Heads(x: Lexeme, s: string)
    requires StartsAt(x, s)
    ensures x.LineComment? ==> |s| >= 2 && s[0] == '/' && s[1] == '/'
    ensures x.BlockComment? || x.OpenBlock? ==> |s| >= 2 && s[0] == '/' && s[1] == '*'
    ensures x.Raw? || x.OpenRaw? ==> |s| >= 2 && (if x.byte then s[0] == 'b' && s[1] == 'r' else s[0] == 'r')
    ensures x.Str? || x.OpenStr? ==> s[0] == '"'
    ensures x.CharLit? ==> s[0] == '\''
  {
    var p := Print(x);
    assert forall i | 0 <= i < |p| :: p[i] == s[i];
    if x.Raw? || x.OpenRaw? {
      assert RawOpening(x.byte, x.hashes) <= p;
      assert forall i | 0 <= i < |RawOpening(x.byte, x.hashes)| :: RawOpening(x.byte, x.hashes)[i] == p[i];
    }
  }

  lemma PieceHead(p: Piece, after: string)
    requires PieceFits(p, after)
    ensures p == Opener <==> "/*" <= PrintPiece(p) + after
    ensures p == Closer <==> "*/" <= PrintPiece(p) + after
  {
    var s := PrintPiece(p) + after;
    if p == Opener {
      assert s[0] == '/' && s[1] == '*';
    } else if p == Closer {
      assert s[0] == '*' && s[1] == '/';
    }
  }

  /** The first piece is determined by the text. */
  lemma FirstPiece(a: seq<Piece>, ra: string)
    requires a != [] && PiecesFit(a, ra)
    ensures var s := PrintPieces(a) + ra;
            && s == PrintPiece(a[0]) + (PrintPieces(a[1..]) + ra)
            && (a[0] == Opener <==> "/*" <= s)
            && (a[0] == Closer <==> "*/" <= s)
  {
    Sequences.Regroup(PrintPiece(a[0]), PrintPieces(a[1..]), ra);
    PieceHead(a[0], PrintPieces(a[1..]) + ra);
  }

  /** Pieces are read until the comment closes or the text ends. */
  ghost predicate Stops(pieces: seq<Piece>, depth: int, rest: string) {
    && ReadWhileOpen(pieces, depth)
    && (Depth(pieces, depth) == 0 || (Depth(pieces, depth) > 0 && rest == ""))
  }

  lemma {:induction false} PiecesUnique(a: seq<Piece>, ra: string, b: seq<Piece>, rb: string, depth: int)
    requires depth >= 0
    requires PiecesFit(a, ra) && PiecesFit(b, rb) && PrintPieces(a) + ra == PrintPieces(b) + rb
    requires Stops(a, depth, ra) && Stops(b, depth, rb)
    ensures a == b
    decreases |a|
  {
    if depth == 0 {
    } else {
      if a != [] && b != [] {
        FirstPiece(a, ra);
        FirstPiece(b, rb);
        var s := PrintPieces(a) + ra;
        if a[0].Other? {
          assert a[0].c == s[0] == b[0].c;
        }
        assert a[0] == b[0];
        var n := |PrintPiece(a[0])|;
        assert PrintPieces(a[1..]) + ra == s[n..] == PrintPieces(b[1..]) + rb;
        PiecesUnique(a[1..], ra, b[1..], rb, DepthAfter(a[0], depth));
      }
    }
  }

  lemma {:induction false} FirstItem(a: seq<StrItem>, ta: string)
    requires a != [] && ItemsFit(a)
    ensures var s := PrintItems(a) + ta;
            && s == PrintItem(a[0]) + (PrintItems(a[1..]) + ta)
            && |s| >= |PrintItem(a[0])| >= 1
            && s[|PrintItem(a[0])|..] == PrintItems(a[1..]) + ta
            && s[0] != '"'
            && (s[0] == '\\' <==> a[0].Escape?)
            && a[0].c == (if a[0].Escape? then s[1] else s[0])
  {
    var first, after := PrintItem(a[0]), PrintItems(a[1..]) + ta;
    assert PrintItems(a) + ta == first + after;
    assert (first + after)[|first|..] == after;
    assert (first + after)[0] == first[0];
    if a[0].Escape? {
      assert (first + after)[1] == first[1];
    }
  }

  lemma {:induction false} ItemsUnique(a: seq<StrItem>, ta: string, b: seq<StrItem>, tb: string)
    requires ItemsFit(a) && ItemsFit(b) && PrintItems(a) + ta == PrintItems(b) + tb
    requires ta == "" || ta == "\\" || ta[0] == '"'
    requires tb == "" || tb == "\\" || tb[0] == '"'
    ensures a == b && ta == tb
    decreases |a| + |b|
  {
    if a != [] {
      FirstItem(a, ta);
    }
    if b != [] {
      FirstItem(b, tb);
    }
    assert "" + ta == ta && "" + tb == tb;
    if a != [] && b != [] {
      assert a[0] == b[0];
      ItemsUnique(a[1..], ta, b[1..], tb);
    }
  }

  lemma HashesUnique(m: nat, n: nat, a: string, b: string)
    requires Hashes(m) + "\"" + a == Hashes(n) + "\"" + b
    ensures m == n && a == b
  {
    var s := Hashes(m) + "\"" + a;
    assert s[m] == '"' && s[n] == '"';
    assert forall i | 0 <= i < m :: s[i] == '#';
    assert forall i | 0 <= i < n :: s[i] == '#';
    assert a == s[m + 1..];
  }

  /** A closed raw string ends at the first place its closing delimiter can stand. */
  lemma RawContentUnique(hashes: nat, a: string, ra: string, b: string, rb: string)
    requires a + RawClosing(hashes) + ra == b + RawClosing(hashes) + rb
    requires forall k | 0 <= k < |a| :: !OccursAt(a + RawClosing(hashes), RawClosing(hashes), k)
    requires |b| <= |a|
    ensures a == b
  {
    var close := RawClosing(hashes);
    var s := a + close + ra;
    if |b| < |a| {
      assert (a + close)[|b|..] == s[|b|..|a| + |close|];
      assert s[|b|..] == close + rb;
      assert close <= (a + close)[|b|..];
      assert OccursAt(a + close, close, |b|);
    } else {
      assert a == s[..|a|] == b;
    }
  }

  lemma RawNotOpen(hashes: nat, a: string, ra: string, b: string)
    requires a + RawClosing(hashes) + ra == b
    ensures OccursAt(b, RawClosing(hashes), |a|)
  {
    assert b[|a|..] == RawClosing(hashes) + ra;
  }

  predicate IsRaw(x: Lexeme) {
    x.Raw? || x.OpenRaw?
  }

  predicate IsQuoted(x: Lexeme) {
    x.Str? || x.OpenStr?
  }

  predicate IsBlock(x: Lexeme) {
    x.BlockComment? || x.OpenBlock?
  }

  lemma Splits(x: Lexeme, s: string)
    requires StartsAt(x, s)
    ensures s == Print(x) + s[|Print(x)|..]
  {
  }

  lemma {:induction false} BlockText(x: Lexeme, s: string)
    requires StartsAt(x, s) && IsBlock(x)
    ensures s[2..] == PrintPieces(x.pieces) + s[|Print(x)|..]
    ensures PiecesFit(x.pieces, s[|Print(x)|..]) && Stops(x.pieces, 1, s[|Print(x)|..])
  {
    Splits(x, s);
    assert Print(x) == "/*" + PrintPieces(x.pieces);
  }

  lemma {:induction false} BlocksUnique(x: Lexeme, y: Lexeme, s: string)
    requires StartsAt(x, s) && StartsAt(y, s) && IsBlock(x) && IsBlock(y)
    ensures x == y
  {
    BlockText(x, s);
    BlockText(y, s);
    var rx, ry := s[|Print(x)|..], s[|Print(y)|..];
    PiecesUnique(x.pieces, rx, y.pieces, ry, 1);
  }

  /** The text of a quoted literal after its items. */
  function QuotedTail(x: Lexeme, rest: string): (t: string)
    requires IsQuoted(x)
  {
    if x.Str? then "\"" + rest else if x.dangling then "\\" else ""
  }

  lemma InsideQuotes(inside: string, tail: string, rest: string)
    ensures ("\"" + inside + tail + rest)[1..] == inside + (tail + rest)
  {
  }

  lemma {:induction false} QuotedText(x: Lexeme, s: string)
    requires StartsAt(x, s) && IsQuoted(x)
    ensures ItemsFit(x.items) && s[1..] == PrintItems(x.items) + QuotedTail(x, s[|Print(x)|..])
  {
    var rest := s[|Print(x)|..];
    Splits(x, s);
    if x.Str? {
      InsideQuotes(PrintItems(x.items), "\"", rest);
    } else {
      InsideQuotes(PrintItems(x.items), if x.dangling then "\\" else "", "");
    }
  }

  lemma QuotedTailsUnique(x: Lexeme, rx: string, y: Lexeme, ry: string)
    requires IsQuoted(x) && IsQuoted(y) && x.items == y.items && QuotedTail(x, rx) == QuotedTail(y, ry)
    ensures x == y
  {
    var tx, ty := QuotedTail(x, rx), QuotedTail(y, ry);
    assert x.Str? <==> tx != "" && tx[0] == '"';
    assert y.Str? <==> ty != "" && ty[0] == '"';
  }

  lemma {:induction false} QuotedTextsUnique(x: Lexeme, rx: string, y: Lexeme, ry: string)
    requires IsQuoted(x) && IsQuoted(y) && ItemsFit(x.items) && ItemsFit(y.items)
    requires PrintItems(x.items) + QuotedTail(x, rx) == PrintItems(y.items) + QuotedTail(y, ry)
    ensures x == y
  {
    ItemsUnique(x.items, QuotedTail(x, rx), y.items, QuotedTail(y, ry));
    QuotedTailsUnique(x, rx, y, ry);
  }

  lemma {:induction false} QuotedUnique(x: Lexeme, y: Lexeme, s: string)
    requires StartsAt(x, s) && StartsAt(y, s) && IsQuoted(x) && IsQuoted(y)
    ensures x == y
  {
    QuotedText(x, s);
    QuotedText(y, s);
    QuotedTextsUnique(x, s[|Print(x)|..], y, s[|Print(y)|..]);
  }

  /** The text of a raw literal after its opening delimiter. */
  function RawTail(x: Lexeme, rest: string): (t: string)
    requires IsRaw(x)
  {
    if x.Raw? then x.content + RawClosing(x.hashes) + rest else x.content
  }

  lemma {:induction false} RawText(x: Lexeme, s: string)
    requires StartsAt(x, s) && IsRaw(x)
    ensures s == RawOpening(x.byte, x.hashes) + RawTail(x, s[|Print(x)|..])
  {
    Splits(x, s);
  }

  /** Where a raw literal of known opening ends is determined by the text after it. */
  lemma {:induction false} RawTailsUnique(x: Lexeme, rx: string, y: Lexeme, ry: string)
    requires IsRaw(x) && IsRaw(y) && x.byte == y.byte && x.hashes == y.hashes
    requires Fits(x, rx) && Fits(y, ry) && RawTail(x, rx) == RawTail(y, ry)
    requires |x.content| >= |y.content|
    ensures x == y
  {
    if x.Raw? && y.Raw? {
      RawContentUnique(x.hashes, x.content, rx, y.content, ry);
    } else if y.Raw? {
      RawNotOpen(x.hashes, y.content, ry, x.content);
    }
  }

  lemma OpeningsUnique(b: bool, m: nat, tx: string, c: bool, n: nat, ty: string)
    requires RawOpening(b, m) + tx == RawOpening(c, n) + ty
    ensures b == c && m == n && tx == ty
  {
    var s := RawOpening(b, m) + tx;
    assert s[0] == (if b then 'b' else 'r') == (if c then 'b' else 'r');
    var k := if b then 2 else 1;
    assert s[k..] == Hashes(m) + "\"" + tx;
    assert s[k..] == Hashes(n) + "\"" + ty;
    HashesUnique(m, n, tx, ty);
  }

  lemma {:induction false} RawsUnique(x: Lexeme, y: Lexeme, s: string)
    requires StartsAt(x, s) && StartsAt(y, s) && IsRaw(x) && IsRaw(y)
    requires |x.content| >= |y.content|
    ensures x == y
  {
    RawText(x, s);
    RawText(y, s);
    var rx, ry := s[|Print(x)|..], s[|Print(y)|..];
    OpeningsUnique(x.byte, x.hashes, RawTail(x, rx), y.byte, y.hashes, RawTail(y, ry));
    RawTailsUnique(x, rx, y, ry);
  }

  /** What the first characters of a spelled form say about it. */
  lemma {:induction false} FormHead(form: CharForm, t: string, r: string)
    requires FormFits(form) && t == PrintForm(form) + r
    ensures form.Bare? <==> t[0] != '\\'
    ensures form.Bare? ==> form.c == t[0]
    ensures !form.Bare? ==> |t| >= 2
    ensures form.Escaped? ==> form.c == t[1]
    ensures form.Hex? <==> t[0] == '\\' && t[1] == 'x'
    ensures form.Hex? ==> |t| >= 4 && form.c == t[2] && form.d == t[3]
    ensures form.Unicode? <==> t[0] == '\\' && t[1] == 'u'
    ensures form.Unicode? ==> t[2..] == form.digits + "}" + r
  {
    var p := PrintForm(form);
    assert forall i | 0 <= i < |p| :: t[i] == p[i];
  }

  lemma {:induction false} FormText(form: CharForm, s: string)
    requires StartsAt(CharLit(form), s)
    ensures |PrintForm(form)| + 2 <= |s|
    ensures s[1..] == PrintForm(form) + ("'" + s[|PrintForm(form)| + 2..])
  {
    Splits(CharLit(form), s);
  }

  lemma BracesUnique(a: string, ra: string, b: string, rb: string)
    requires '}' !in a && '}' !in b && a + "}" + ra == b + "}" + rb
    ensures a == b
  {
    var s := a + "}" + ra;
    assert s[|a|] == '}' && s[|b|] == '}';
    assert forall i | 0 <= i < |a| :: s[i] == a[i];
    assert forall i | 0 <= i < |b| :: s[i] == b[i];
  }

  lemma {:induction false} FormsUnique(f: CharForm, rf: string, g: CharForm, rg: string)
    requires FormFits(f) && FormFits(g) && PrintForm(f) + rf == PrintForm(g) + rg
    ensures f == g
  {
    var t := PrintForm(f) + rf;
    FormHead(f, t, rf);
    FormHead(g, t, rg);
    if f.Unicode? {
      BracesUnique(f.digits, rf, g.digits, rg);
    }
  }

  lemma {:induction false} CharsUnique(f: CharForm, g: CharForm, s: string)
    requires StartsAt(CharLit(f), s) && StartsAt(CharLit(g), s)
    ensures f == g
  {
    FormText(f, s);
    FormText(g, s);
    FormsUnique(f, "'" + s[|PrintForm(f)| + 2..], g, "'" + s[|PrintForm(g)| + 2..]);
  }

  lemma BodiesUnique(a: string, ra: string, b: string, rb: string)
    requires '\n' !in a && '\n' !in b && a + ra == b + rb
    requires (ra == "" || ra[0] == '\n') && (rb == "" || rb[0] == '\n')
    ensures a == b
  {
    var s := a + ra;
    assert forall i | 0 <= i < |a| :: s[i] == a[i];
    assert forall i | 0 <= i < |b| :: s[i] == b[i];
    assert |a| < |s| ==> s[|a|] == ra[0];
    assert |b| < |s| ==> s[|b|] == rb[0];
    assert a == s[..|a|] && b == s[..|b|];
  }

  lemma {:induction false} LinesUnique(x: Lexeme, y: Lexeme, s: string)
    requires StartsAt(x, s) && StartsAt(y, s) && x.LineComment? && y.LineComment?
    ensures x == y
  {
    Splits(x, s);
    Splits(y, s);
    assert s[2..] == x.body + s[|Print(x)|..] == y.body + s[|Print(y)|..];
    BodiesUnique(x.body, s[|Print(x)|..], y.body, s[|Print(y)|..]);
  }

  /** At most one comment or literal begins at a place. */
  lemma {:induction false} StartsUnique(x: Lexeme, y: Lexeme, s: string)
    requires StartsAt(x, s) && StartsAt(y, s)
    ensures x == y
  {
    Heads(x, s);
    Heads(y, s);
    if x.LineComment? {
      LinesUnique(x, y, s);
    } else if IsBlock(x) {
      BlocksUnique(x, y, s);
    } else if IsRaw(x) {
      if |x.content| >= |y.content| {
        RawsUnique(x, y, s);
      } else {
        RawsUnique(y, x, s);
      }
    } else if IsQuoted(x) {
      QuotedUnique(x, y, s);
    } else {
      CharsUnique(x.form, y.form, s);
    }
  }

  /** The first token of a source. */
  lemma TokenStep(s: string) returns (t: Token, rest: string)
    requires s != ""
    ensures s == PrintToken(t) + rest && TokenFits(t, rest) && Tokens(s) == [t] + Tokens(rest)
  {
    if NothingStarts(s) {
      t, rest := Code(s[0]), s[1..];
      assert s == [s[0]] + rest;
    } else {
      var first := Tokens(s)[0];
      t, rest := first, s[|Print(first.x)|..];
      Splits(first.x, s);
    }
  }

  /** The tokens of a source spell it out, each one where the grammar allows it. */
  lemma {:induction false} TokensTile(s: string)
    ensures PrintAll(Tokens(s)) == s && WellSeparated(Tokens(s))
    decreases |s|
  {
    if s == "" {
    } else {
      var t, rest := TokenStep(s);
      TokensTile(rest);
      assert ([t] + Tokens(rest))[1..] == Tokens(rest);
    }
  }

  lemma TokensSpell(s: string)
    ensures PrintAll(Tokens(s)) == s
  {
    TokensTile(s);
  }

  lemma {:induction false} TokensStep(x: Lexeme, s: string, rest: string)
    requires StartsAt(x, s) && rest == s[|Print(x)|..]
    ensures Tokens(s) == [Lex(x)] + Tokens(rest)
  {
    forall y | StartsAt(y, s) ensures y == x {
      StartsUnique(x, y, s);
    }
  }

  lemma {:induction false} TokensCode(s: string)
    requires s != "" && NothingStarts(s)
    ensures Tokens(s) == [Code(s[0])] + Tokens(s[1..])
  {
  }

  lemma {:induction false} TokenReadBack(t: Token, rest: string)
    requires TokenFits(t, rest)
    ensures Tokens(PrintToken(t) + rest) == [t] + Tokens(rest)
  {
    var s := PrintToken(t) + rest;
    assert s[..|PrintToken(t)|] == PrintToken(t) && s[|PrintToken(t)|..] == rest;
    match t {
      case Lex(x) => TokensStep(x, s, rest);
      case Code(c) => TokensCode(s);
    }
  }

  /** And no other token list does: a well-separated list is what its own text reads back as. */
  lemma {:induction false} PrintedTokensReadBack(tokens: seq<Token>)
    requires WellSeparated(tokens)
    ensures Tokens(PrintAll(tokens)) == tokens
  {
    if tokens == [] {
    } else {
      var t, rest := tokens[0], PrintAll(tokens[1..]);
      PrintedTokensReadBack(tokens[1..]);
      TokenReadBack(t, rest);
      assert tokens == [t] + tokens[1..];
    }
  }
}
