/** From scanner offsets to reported lines. */
module SourceLines {
  import opened RustTokens
  import opened RustLexer
  import opened Strings
  import Sequences

  // ---------------------------------------------------------------- lines

  function Newlines(text: string): (n: nat)
  {
    Count(text, '\n')
  }

  /** `text.split("\n")`. */
  function Lines(text: string): (lines: seq<string>)
  {
    Split(text, '\n')
  }

  /** Where each line starts, counted from `base`. */
  function Starts(text: string, base: nat): (starts: seq<nat>)
    ensures |starts| == Newlines(text)
  {
    if text == "" then []
    else (if text[0] == '\n' then [base + 1] else []) + Starts(text[1..], base + 1)
  }

  lemma {:induction false} StartsConcat(a: string, b: string, base: nat)
    ensures Starts(a + b, base) == Starts(a, base) + Starts(b, base + |a|)
  {
    if a == "" {
      assert a + b == b;
    } else {
      var first := if a[0] == '\n' then [base + 1] else [];
      assert (a + b)[1..] == a[1..] + b;
      StartsConcat(a[1..], b, base + 1);
      Sequences.Regroup(first, Starts(a[1..], base + 1), Starts(b, base + |a|));
    }
  }

  lemma {:induction false} NoStarts(text: string, base: nat)
    requires '\n' !in text
    ensures Starts(text, base) == [] && Newlines(text) == 0
  {
    if text == "" {
    } else {
      NoStarts(text[1..], base + 1);
    }
  }

  lemma {:induction false} StartsUpTo(text: string, done: nat, pos: int)
    requires done <= |text| && Finds(text, "\n", done, pos)
    ensures pos == -1 ==> Starts(text, 0) == Starts(text[..done], 0)
    ensures pos != -1 ==> done <= pos < |text| && Starts(text[..pos + 1], 0) == Starts(text[..done], 0) + [pos + 1]
  {
    FindsChar(text, '\n', done, pos);
    var end := if pos == -1 then |text| else pos;
    NoStarts(text[done..end], done);
    StartsConcat(text[..done], text[done..end], 0);
    assert text[..end] == text[..done] + text[done..end];
    if pos == -1 {
      assert text[..end] == text;
    } else {
      StartsConcat(text[..end], "\n", 0);
      assert text[..pos + 1] == text[..pos] + "\n";
      assert Starts("\n", pos) == [pos + 1] + Starts("", pos + 1);
    }
  }

  /** `_line_starts`: hop from newline to newline. */
  method LineStarts(text: string) returns (starts: seq<nat>)
    ensures starts == [0] + Starts(text, 0)
  {
    starts := [0];
    var pos := Find(text, "\n", 0);
    ghost var done := 0;
    while pos != -1
      invariant done <= |text| && Finds(text, "\n", done, pos)
      invariant starts == [0] + Starts(text[..done], 0)
      decreases |text| - done
    {
      StartsUpTo(text, done, pos);
      starts := starts + [pos + 1];
      done := pos + 1;
      pos := Find(text, "\n", pos + 1);
    }
    StartsUpTo(text, done, -1);
  }

  // ---------------------------------------------------------------- the line of an offset

  predicate Ascending(a: seq<nat>) {
    forall i, j | 0 <= i < j < |a| :: a[i] < a[j]
  }

  lemma {:induction false} StartsAscend(text: string, base: nat)
    ensures Ascending(Starts(text, base))
    ensures forall k | 0 <= k < |Starts(text, base)| :: base < Starts(text, base)[k] <= base + |text|
  {
    if text == "" {
    } else {
      StartsAscend(text[1..], base + 1);
    }
  }

  method BisectRight(a: seq<nat>, x: nat) returns (low: nat)
    requires Ascending(a)
    ensures low <= |a|
    ensures forall k | 0 <= k < low :: a[k] <= x
    ensures forall k | low <= k < |a| :: x < a[k]
  {
    low := 0;
    var high := |a|;
    while low < high
      invariant 0 <= low <= high <= |a|
      invariant forall k | 0 <= k < low :: a[k] <= x
      invariant forall k | high <= k < |a| :: x < a[k]
    {
      var mid := (low + high) / 2;
      if x < a[mid] {
        high := mid;
      } else {
        low := mid + 1;
      }
    }
  }

  lemma {:induction false} StartsSplit(text: string, offset: nat)
    requires offset <= |text|
    ensures Starts(text, 0) == Starts(text[..offset], 0) + Starts(text[offset..], offset)
  {
    var a, b := text[..offset], text[offset..];
    StartsConcat(a, b, 0);
    assert a + b == text && 0 + |a| == offset;
  }

  lemma {:induction false} StartsBeforeOffset(text: string, offset: nat)
    requires offset <= |text|
    ensures var starts, k := [0] + Starts(text, 0), Newlines(text[..offset]);
            && Ascending(starts) && k < |starts| && starts[k] <= offset
            && (k + 1 < |starts| ==> offset < starts[k + 1])
  {
    var a, b := text[..offset], text[offset..];
    StartsAscend(text, 0);
    StartsSplit(text, offset);
    StartsAscend(a, 0);
    StartsAscend(b, offset);
    Around(Starts(a, 0), Starts(b, offset), offset);
  }

  lemma Around(before: seq<nat>, after: seq<nat>, offset: nat)
    requires (forall i | 0 <= i < |before| :: before[i] <= offset) && (forall i | 0 <= i < |after| :: offset < after[i])
    ensures var starts, k := [0] + (before + after), |before|;
            starts[k] <= offset && (k + 1 < |starts| ==> offset < starts[k + 1])
  {
  }

  /** `_line_of`: the line of an offset is the number of newlines before it. */
  method LineOf(text: string, starts: seq<nat>, offset: nat) returns (line: nat)
    requires starts == [0] + Starts(text, 0) && offset <= |text|
    ensures line == Newlines(text[..offset]) < |Lines(text)|
  {
    StartsBeforeOffset(text, offset);
    CountConcat(text[..offset], '\n', text[offset..]);
    assert text == text[..offset] + text[offset..];
    var after := BisectRight(starts, offset);
    ghost var k := Newlines(text[..offset]);
    assert starts[k] <= offset && (k + 1 < |starts| ==> offset < starts[k + 1]);
    line := after - 1;
  }

  /** The reported line is the one the offset lies in: its text before the offset, then its text from the offset on. */
  lemma LineHoldsOffset(text: string, offset: nat)
    requires offset <= |text|
    ensures var k, before, after := Newlines(text[..offset]), Lines(text[..offset]), Lines(text[offset..]);
            k < |Lines(text)| && Lines(text)[k] == before[|before| - 1] + after[0]
  {
    assert text == text[..offset] + text[offset..];
    SplitConcat(text[..offset], '\n', text[offset..]);
  }

  // ---------------------------------------------------------------- the opt-out rule

  const ALLOW_MARKER := "diag-prefix-ok"

  /** The characters `str.lstrip` removes. */
  predicate IsSpace(c: char) {
    || '\t' <= c <= '\r' || '\U{1C}' <= c <= ' ' || c == '\U{85}' || c == '\U{A0}' || c == '\U{1680}'
    || '\U{2000}' <= c <= '\U{200A}' || c == '\U{2028}' || c == '\U{2029}' || c == '\U{202F}' || c == '\U{205F}'
    || c == '\U{3000}'
  }

  /** All 29 of them, the four separators of ASCII included. */
  lemma SpacesAre(c: char)
    ensures IsSpace(c) <==>
            || c == '\t' || c == '\n' || c == '\U{0B}' || c == '\U{0C}' || c == '\r' || c == '\U{1C}' || c == '\U{1D}'
            || c == '\U{1E}' || c == '\U{1F}' || c == ' ' || c == '\U{85}' || c == '\U{A0}' || c == '\U{1680}'
            || c == '\U{2000}' || c == '\U{2001}' || c == '\U{2002}' || c == '\U{2003}' || c == '\U{2004}' || c == '\U{2005}'
            || c == '\U{2006}' || c == '\U{2007}' || c == '\U{2008}' || c == '\U{2009}' || c == '\U{200A}' || c == '\U{2028}'
            || c == '\U{2029}' || c == '\U{202F}' || c == '\U{205F}' || c == '\U{3000}'
  {
  }

  function LStrip(s: string): (r: string)
  {
    TrimStart(IsSpace, s)
  }

  predicate IsCommentLine(line: string) {
    "//" <= LStrip(line)
  }

  /** `text` is the line without its indent. */
  ghost predicate Unindented(line: string, text: string) {
    exists indent :: line == indent + text && AllIn(IsSpace, indent) && (text != "" ==> !IsSpace(text[0]))
  }

  lemma LStripIff(line: string, text: string)
    ensures LStrip(line) == text <==> Unindented(line, text)
  {
    TrimStartSpec(IsSpace, line);
    var stripped := LStrip(line);
    assert line == line[..|line| - |stripped|] + stripped;
    if indent :| line == indent + text && AllIn(IsSpace, indent) && (text != "" ==> !IsSpace(text[0])) {
      TrimStartAll(IsSpace, indent);
      if text == "" {
        assert line == indent;
      } else {
        TrimStartBefore(IsSpace, indent, text);
        assert "" + text == text;
      }
    }
  }

  ghost predicate IsComment(line: string) {
    exists rest :: Unindented(line, "//" + rest)
  }

  lemma CommentLineIff(line: string)
    ensures IsCommentLine(line) <==> IsComment(line)
  {
    var stripped := LStrip(line);
    if "//" <= stripped {
      assert stripped == "//" + stripped[2..];
      LStripIff(line, "//" + stripped[2..]);
    }
    if rest :| Unindented(line, "//" + rest) {
      LStripIff(line, "//" + rest);
    }
  }

  /** The marker is on the line itself or in the unbroken block of comment lines above it. */
  ghost predicate Allowed(lines: seq<string>, index: nat)
    requires index < |lines|
  {
    exists k: nat | k <= index :: MarkedFrom(lines, k, index)
  }

  ghost predicate MarkedFrom(lines: seq<string>, k: nat, index: nat)
    requires k <= index < |lines|
  {
    Contains(lines[k], "diag-prefix-ok") && forall m | k <= m < index :: IsComment(lines[m])
  }

  method In(pat: string, s: string) returns (r: bool)
    ensures r <==> Contains(s, pat)
  {
    var k := Find(s, pat, 0);
    r := k != -1;
    if r {
      assert OccursAt(s, pat, k);
    } else {
      forall i | 0 <= i <= |s| ensures !(pat <= s[i..]) {
        assert !OccursAt(s, pat, i);
      }
    }
  }

  method IsAllowed(lines: seq<string>, index: nat) returns (r: bool)
    requires index < |lines|
    ensures r <==> Allowed(lines, index)
  {
    var here := In(ALLOW_MARKER, lines[index]);
    if here {
      assert MarkedFrom(lines, index, index);
      return true;
    }
    var above := index - 1;
    while above >= 0 && IsCommentLine(lines[above])
      invariant -1 <= above < index
      invariant forall m | above < m < index :: IsComment(lines[m])
      invariant forall k | above < k <= index :: !Contains(lines[k], "diag-prefix-ok")
    {
      CommentLineIff(lines[above]);
      var marked := In(ALLOW_MARKER, lines[above]);
      if marked {
        assert MarkedFrom(lines, above, index);
        return true;
      }
      above := above - 1;
    }
    if above >= 0 {
      CommentLineIff(lines[above]);
    }
    return false;
  }

  // ---------------------------------------------------------------- the report

  type Offender = (nat, string, string)

  /** One triple per hit whose line is not opted out: 1-based line, word, line text without its indent. */
  ghost function Report(text: string, hits: seq<Hit>): (r: seq<Offender>)
  {
    if hits == [] then [] else Report(text, hits[..|hits| - 1]) + ReportOf(text, hits[|hits| - 1])
  }

  ghost function ReportOf(text: string, hit: Hit): (r: seq<Offender>)
  {
    if hit.0 > |text| then []
    else
      LineHoldsOffset(text, hit.0);
      var index := Newlines(text[..hit.0]);
      if Allowed(Lines(text), index) then [] else [(index + 1, hit.1, LStrip(Lines(text)[index]))]
  }

  method ReportHits(text: string, lines: seq<string>, starts: seq<nat>, hits: seq<Hit>) returns (r: seq<Offender>)
    requires lines == Lines(text) && starts == [0] + Starts(text, 0)
    requires IncreasingIn(hits, 0, |text|)
    ensures r == Report(text, hits)
  {
    r := [];
    for i := 0 to |hits|
      invariant r == Report(text, hits[..i])
    {
      var (offset, word) := hits[i];
      assert 0 < hits[i].0 <= |text|;
      var index := LineOf(text, starts, offset);
      var allowed := IsAllowed(lines, index);
      assert hits[..i + 1][..i] == hits[..i] && hits[..i + 1][i] == hits[i];
      if !allowed {
        r := r + [(index + 1, word, LStrip(lines[index]))];
      }
    }
    assert hits[..|hits|] == hits;
  }

  /** The line that offset `o` is on, counted from 1, is not opted out, and reads `line` but for its indent. */
  ghost predicate IsLineOf(text: string, o: nat, n: nat, line: string) {
    && o <= |text| && n == |Split(text[..o], '\n')| <= |Split(text, '\n')|
    && !Allowed(Split(text, '\n'), n - 1) && Unindented(Split(text, '\n')[n - 1], line)
  }

  /** What a triple stands for: an offending literal whose line is reported. */
  ghost predicate IsReported(text: string, o: nat, n: nat, w: string, line: string) {
    Offends(["Warning", "WARNING", "Error", "ERROR", "Note", "NOTE"], text, o, w) && IsLineOf(text, o, n, line)
  }

  lemma ReportOfIs(text: string, hit: Hit, triple: Offender)
    requires hit.0 <= |text|
    ensures triple in ReportOf(text, hit) <==> triple.1 == hit.1 && IsLineOf(text, hit.0, triple.0, triple.2)
  {
    LineHoldsOffset(text, hit.0);
    SplitJoins(text[..hit.0], '\n');
    LStripIff(Lines(text)[Newlines(text[..hit.0])], triple.2);
  }

  lemma {:induction false} ReportHolds(text: string, hits: seq<Hit>, triple: Offender)
    ensures triple in Report(text, hits) <==> exists hit :: hit in hits && triple in ReportOf(text, hit)
  {
    if hits == [] {
    } else {
      var rest, last := hits[..|hits| - 1], hits[|hits| - 1];
      ReportHolds(text, rest, triple);
      assert hits == rest + [last];
    }
  }

  lemma {:induction false} TripleIff(text: string, hits: seq<Hit>, triple: Offender)
    requires forall hit: Hit :: hit in hits <==> Offends(SEVERITY_WORDS, text, hit.0, hit.1)
    requires forall hit | hit in hits :: hit.0 <= |text|
    ensures triple in Report(text, hits) <==> exists o :: IsReported(text, o, triple.0, triple.1, triple.2)
  {
    ReportHolds(text, hits, triple);
    if hit :| hit in hits && triple in ReportOf(text, hit) {
      ReportOfIs(text, hit, triple);
      assert IsReported(text, hit.0, triple.0, triple.1, triple.2);
    }
    if o :| IsReported(text, o, triple.0, triple.1, triple.2) {
      var hit: Hit := (o, triple.1);
      ReportOfIs(text, hit, triple);
      assert hit in hits;
    }
  }

  method ScanForSeverities(text: string) returns (hits: seq<Hit>)
    ensures hits == Hits(SEVERITY_WORDS, Tokens(text), 0) && IncreasingIn(hits, 0, |text|)
    ensures forall hit: Hit :: hit in hits <==> Offends(SEVERITY_WORDS, text, hit.0, hit.1)
  {
    hits := ScanLiterals(SEVERITY_WORDS, text);
  }

  /** `scan_text`: every offending literal outside comments and literals, at its line, unless opted out. */
  method ScanText(text: string) returns (r: seq<Offender>)
    ensures r == Report(text, Hits(SEVERITY_WORDS, Tokens(text), 0))
    ensures forall t: Offender :: t in r <==> exists o :: IsReported(text, o, t.0, t.1, t.2)
  {
    var lines := Lines(text);
    var starts := LineStarts(text);
    var hits := ScanForSeverities(text);
    r := ReportHits(text, lines, starts, hits);
    forall t: Offender ensures t in r <==> exists o :: IsReported(text, o, t.0, t.1, t.2) {
      TripleIff(text, hits, t);
    }
  }
}
