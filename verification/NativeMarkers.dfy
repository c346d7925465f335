/** Native markers: which bodies suppress, and what. */
module NativeMarkers {
  import opened Wrappers
  import opened Sequences
  import opened Strings
  import opened SuppressionMarker
  import opened CommentStripping

  // ---------------------------------------------------------------- the native grammar

  function Verb(kind: Kind): (verb: string)
  {
    match kind case OnFunction => "suppress" case OnFile => "suppress-file"
  }

  /** A directive up to its verb. */
  function Directive(gap: string, kind: Kind): (s: string)
  {
    "bca:" + (gap + Verb(kind))
  }

  /** The text of a directive: a verb, and what follows it. */
  function Body(gap: string, kind: Kind, after: string): (s: string)
  {
    "bca:" + (gap + (Verb(kind) + after))
  }

  lemma BodySplits(gap: string, kind: Kind, after: string)
    ensures Body(gap, kind, after) == Directive(gap, kind) + after
  {
    Regroup(gap, Verb(kind), after);
    Regroup("bca:", gap + Verb(kind), after);
  }

  lemma VerbIsWord(kind: Kind)
    ensures Verb(kind) != "" && AllIn(IsVerbChar, Verb(kind))
  {
  }

  predicate IsVerbChar(c: char) {
    'a' <= c <= 'z' || 'A' <= c <= 'Z' || c == '-'
  }

  lemma WordSplits(gap: string, word: string, after: string)
    requires AllIn(IsWhitespace, gap) && word != "" && AllIn(IsVerbChar, word) && (after != "" ==> !IsVerbChar(after[0]))
    ensures var body := "bca:" + (gap + (word + after));
            && TrimStart(IsWhitespace, body[4..]) == word + after
            && FindFirst(EndsVerb, word + after) == |word|
  {
    var body, rest := "bca:" + (gap + (word + after)), word + after;
    assert body[4..] == gap + rest;
    assert IsVerbChar(word[0]) && rest[0] == word[0];
    TrimStartBefore(IsWhitespace, gap, rest);
    TrimStartAll(IsWhitespace, gap);
    NothingBefore(rest);
    forall j | 0 <= j < |word| ensures !EndsVerb(word[j]) {
      assert IsVerbChar(word[j]);
    }
    FindFirstAt(EndsVerb, word, after);
  }

  /** The word behind the namespace decides: a verb is followed by its scope, any other word is told to be unknown. */
  lemma WordParsed(gap: string, word: string, after: string)
    requires AllIn(IsWhitespace, gap) && word != "" && AllIn(IsVerbChar, word) && (after != "" ==> !IsVerbChar(after[0]))
    ensures var body, scope := "bca:" + (gap + (word + after)), TrimStart(IsWhitespace, after);
            ParseNative(body) ==
            if word == "suppress" then ParseScope(OnFunction, scope, body)
            else if word == "suppress-file" then ParseScope(OnFile, scope, body)
            else MarkerScan(None, [UnknownVerb(word)])
  {
    WordSplits(gap, word, after);
    var rest := word + after;
    assert rest[..|word|] == word && rest[|word|..] == after;
  }

  /** Without any word there the body is malformed. */
  lemma NoWordParsed(gap: string, after: string)
    requires AllIn(IsWhitespace, gap) && after != "" && !IsVerbChar(after[0]) && !IsWhitespace(after[0])
    ensures ParseNative("bca:" + (gap + after)) == MarkerScan(None, [MalformedBody("bca:" + (gap + after))])
  {
    var body := "bca:" + (gap + after);
    assert body[4..] == gap + after;
    TrimStartBefore(IsWhitespace, gap, after);
    TrimStartAll(IsWhitespace, gap);
    NothingBefore(after);
  }

  lemma VerbParsed(gap: string, kind: Kind, after: string)
    requires AllIn(IsWhitespace, gap) && (after != "" ==> EndsVerb(after[0]))
    ensures ParseNative(Body(gap, kind, after)) == ParseScope(kind, TrimStart(IsWhitespace, after), Body(gap, kind, after))
  {
    VerbIsWord(kind);
    WordParsed(gap, Verb(kind), after);
  }

  ghost predicate IsDirective(body: string, gap: string, kind: Kind, after: string) {
    && body == Body(gap, kind, after)
    && AllIn(IsWhitespace, gap)
    && (after != "" ==> EndsVerb(after[0]))
    && TakesAfter(TrimStart(IsWhitespace, after))
  }

  /** What may follow a verb: nothing, or a closed list and then anything. */
  predicate TakesAfter(after: string) {
    after == "" || (after[0] == '(' && FindFirst(IsClose, after[1..]) < |after| - 1)
  }

  /** A body suppresses exactly when it is `bca:`, a verb, and nothing or a closed list (with any rationale after it). */
  lemma NativeSuppressesIff(body: string)
    ensures ParseNative(body).suppression.Some? <==> exists gap, kind, after :: IsDirective(body, gap, kind, after)
  {
    if ParseNative(body).suppression.Some? {
      var gap, kind, after := DirectiveOf(body);
    }
    if gap, kind, after :| IsDirective(body, gap, kind, after) {
      VerbParsed(gap, kind, after);
    }
  }

  /** How a body that suppresses is read: white space, a verb, and what follows it. */
  lemma VerbRead(body: string) returns (rest: string, verbEnd: nat, kind: Kind)
    requires ParseNative(body).suppression.Some?
    ensures "bca:" <= body && rest == TrimStart(IsWhitespace, body[4..])
    ensures verbEnd == FindFirst(EndsVerb, rest) <= |rest| && rest[..verbEnd] == Verb(kind)
    ensures TakesAfter(TrimStart(IsWhitespace, rest[verbEnd..]))
  {
    rest := TrimStart(IsWhitespace, body[4..]);
    verbEnd := FindFirst(EndsVerb, rest);
    kind := if rest[..verbEnd] == "suppress" then OnFunction else OnFile;
  }

  lemma DirectiveOf(body: string) returns (gap: string, kind: Kind, after: string)
    requires ParseNative(body).suppression.Some?
    ensures IsDirective(body, gap, kind, after)
  {
    var rest, verbEnd, k := VerbRead(body);
    var text := body[4..];
    TrimStartSpec(IsWhitespace, text);
    gap := text[..|text| - |rest|];
    kind := k;
    after := rest[verbEnd..];
    BodyIs(body, gap, rest, verbEnd, kind);
    assert after != "" ==> after[0] == rest[verbEnd];
  }

  lemma BodyIs(body: string, gap: string, rest: string, verbEnd: nat, kind: Kind)
    requires "bca:" <= body && verbEnd <= |rest| && rest[..verbEnd] == Verb(kind)
    requires |gap| + |rest| == |body| - 4 && gap == body[4..][..|gap|] && rest == body[4..][|gap|..]
    ensures body == Body(gap, kind, rest[verbEnd..])
  {
    assert rest == Verb(kind) + rest[verbEnd..];
    assert body[4..] == gap + rest;
    assert body == "bca:" + body[4..];
  }

  /** The list in what follows a verb: from its `(` to the first `)`. */
  function ListIn(after: string): (inside: string)
    requires after != ""
  {
    after[1..][..FindFirst(IsClose, after[1..])]
  }

  /** No name in the list, if there is one, is unusable. */
  predicate IsFlawless(after: string) {
    after != "" ==> FirstUnusable(Names(Split(ListIn(after), ','))) == []
  }

  lemma NoDiagnosticsIff(unusable: seq<string>)
    ensures Diagnostics(unusable) == [] <==> unusable == []
  {
  }

  lemma DirectiveFlaws(body: string, gap: string, kind: Kind, after: string)
    requires IsDirective(body, gap, kind, after)
    ensures ParseNative(body).diagnostics == [] <==> IsFlawless(TrimStart(IsWhitespace, after))
  {
    VerbParsed(gap, kind, after);
    var left := TrimStart(IsWhitespace, after);
    if left != "" {
      NoDiagnosticsIff(FirstUnusable(Names(Split(ListIn(left), ','))));
    }
  }

  /**
   * What is a marker at all, and which markers are flawed: those that are no directive draw exactly one complaint
   * and suppress nothing; a directive draws one or more iff a name in its list is unusable.
   */
  lemma NeverSilent(body: string)
    ensures ParseNative(body) == NOT_A_MARKER <==> !("bca:" <= body) || AllIn(IsWhitespace, body[4..])
    ensures ParseNative(body) != NOT_A_MARKER && ParseNative(body).suppression.None? ==> |ParseNative(body).diagnostics| == 1
    ensures ParseNative(body) != NOT_A_MARKER ==>
              (ParseNative(body).diagnostics == []
               <==> exists gap, kind, after :: IsDirective(body, gap, kind, after) && IsFlawless(TrimStart(IsWhitespace, after)))
  {
    MarkersAreNamed(body);
    if ParseNative(body).suppression.Some? {
      var gap, kind, after := DirectiveOf(body);
      DirectiveFlaws(body, gap, kind, after);
    }
    if gap, kind, after :| IsDirective(body, gap, kind, after) && IsFlawless(TrimStart(IsWhitespace, after)) {
      DirectiveFlaws(body, gap, kind, after);
    }
  }

  lemma MarkersAreNamed(body: string)
    ensures ParseNative(body) == NOT_A_MARKER <==> !("bca:" <= body) || AllIn(IsWhitespace, body[4..])
    ensures ParseNative(body) != NOT_A_MARKER && ParseNative(body).suppression.None? ==> |ParseNative(body).diagnostics| == 1
  {
    if "bca:" <= body {
      TrimStartSpec(IsWhitespace, body[4..]);
      if AllIn(IsWhitespace, body[4..]) {
        TrimStartAll(IsWhitespace, body[4..]);
      }
    }
  }

  // ---------------------------------------------------------------- a verb in a comment

  lemma {:induction false} ShedStart(t: string, r: string)
    requires Sheds(t, r) && !AllIn(IsCloser, t)
    ensures TrimStart(IsWhitespace, r) != ""
    ensures Sheds(TrimStart(IsWhitespace, t), TrimStart(IsWhitespace, r))
  {
    assert r != "" by {
      assert t[0..] == t;
    }
    assert r[0] == t[0];
    if IsWhitespace(t[0]) {
      assert t[1..][|r[1..]|..] == t[|r|..];
      ShedStart(t[1..], r[1..]);
    }
  }

  lemma {:induction false} ShedClose(t: string, r: string)
    requires Sheds(t, r)
    ensures FindFirst(IsClose, t) < |t| ==> FindFirst(IsClose, t) < |r|
    ensures FindFirst(IsClose, r) == if FindFirst(IsClose, t) < |t| then FindFirst(IsClose, t) else |r|
  {
    if r == "" {
      var i := FindFirst(IsClose, t);
      assert t[0..] == t;
      assert i < |t| ==> !IsCloser(t[i]);
    } else {
      assert t[0] == r[0] && t[1..][|r[1..]|..] == t[|r|..];
      ShedClose(t[1..], r[1..]);
    }
  }

  lemma WordIsCore(gap: string, word: string)
    requires word != "" && AllIn(IsVerbChar, word)
    ensures IsCore("bca:" + (gap + word))
  {
    var core := "bca:" + (gap + word);
    assert core[0] == 'b' && core[|core| - 1] == word[|word| - 1];
    assert IsVerbChar(word[|word| - 1]);
  }

  /**
   * What a verb and the text `t` behind it mean: nothing but a closer, everything is silenced; a closed list, what it
   * names; anything else, nothing, and the directive is told to be malformed, as it is without its closer.
   */
  ghost predicate MeansVerb(scan: MarkerScan, kind: Kind, directive: string, t: string) {
    var after := TrimStart(IsWhitespace, t);
    if AllIn(IsCloser, t) then scan == MarkerScan(Some(Suppression(kind, All, Native)), [])
    else if after != "" && after[0] == '(' && FindFirst(IsClose, after[1..]) < |after| - 1 then
      scan == MarkerScan(Some(Suppression(kind, Only(MetricList(ListIn(after)).0), Native)), MetricList(ListIn(after)).1)
    else
      exists rest :: Sheds(t, rest) && scan == MarkerScan(None, [MalformedBody(directive + rest)])
  }

  lemma ScopeOfShed(kind: Kind, t: string, r: string, directive: string)
    requires Sheds(t, r) && (AllIn(IsCloser, t) ==> r == "")
    ensures MeansVerb(ParseScope(kind, TrimStart(IsWhitespace, r), directive + r), kind, directive, t)
  {
    if !AllIn(IsCloser, t) {
      ShedStart(t, r);
      var after, left := TrimStart(IsWhitespace, t), TrimStart(IsWhitespace, r);
      assert after[0] == left[0];
      assert after[1..][|left[1..]|..] == after[|left|..];
      ShedClose(after[1..], left[1..]);
      var i := FindFirst(IsClose, after[1..]);
      if i < |after| - 1 {
        assert after[1..][..i] == left[1..][..i];
      }
    }
  }

  /**
   * The word behind the namespace, in any comment: `suppress` is read for the function and `suppress-file` for the
   * file, with what the text behind it means; any other word is told to be no verb.
   */
  lemma WordInComment(f: string, gap: string, word: string, t: string)
    requires IsFront(f) && AllIn(IsWhitespace, gap)
    requires word != "" && AllIn(IsVerbChar, word) && (t != "" ==> !IsVerbChar(t[0]))
    ensures var directive := "bca:" + (gap + word);
            var scan := ParseMarker(f + directive + t);
            if word == "suppress" then MeansVerb(scan, OnFunction, directive, t)
            else if word == "suppress-file" then MeansVerb(scan, OnFile, directive, t)
            else scan == MarkerScan(None, [UnknownVerb(word)])
  {
    var directive := "bca:" + (gap + word);
    WordIsCore(gap, word);
    var rest := CommentIsStripped(f, directive, t);
    Regroup(gap, word, rest);
    Regroup("bca:", gap + word, rest);
    assert rest != "" ==> rest[0] == t[0];
    WordParsed(gap, word, rest);
    ScopeOfShed(if word == "suppress" then OnFunction else OnFile, t, rest, directive);
  }

  lemma VerbInComment(f: string, gap: string, kind: Kind, t: string)
    requires IsFront(f) && AllIn(IsWhitespace, gap) && (t != "" ==> EndsVerb(t[0]))
    ensures MeansVerb(ParseMarker(f + Directive(gap, kind) + t), kind, Directive(gap, kind), t)
  {
    VerbIsWord(kind);
    WordInComment(f, gap, Verb(kind), t);
  }

  predicate SuppressesNothing(scan: MarkerScan) {
    scan.suppression.None? || scan.suppression.value.scope == Only({})
  }

  /** A verb in a comment silently does nothing iff a closed list of nothing but blanks follows it. */
  lemma SilentCommentIff(f: string, gap: string, kind: Kind, t: string)
    requires IsFront(f) && AllIn(IsWhitespace, gap) && (t != "" ==> EndsVerb(t[0]))
    ensures var scan, after := ParseMarker(f + Directive(gap, kind) + t), TrimStart(IsWhitespace, t);
            (SuppressesNothing(scan) && scan.diagnostics == []
             <==> !AllIn(IsCloser, t) && after != "" && TakesAfter(after) && AllBlank(Split(ListIn(after), ',')))
  {
    VerbInComment(f, gap, kind, t);
    var after := TrimStart(IsWhitespace, t);
    if after != "" {
      SilentIffBlank(ListIn(after));
    }
  }
}
