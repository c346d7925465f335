/** Lizard markers in comments. */
module LizardMarkers {
  import opened Wrappers
  import opened Sequences
  import opened Strings
  import opened SuppressionMarker
  import opened CommentStripping

  function LizardPhrase(kind: Kind): (phrase: string)
  {
    match kind case OnFunction => "forgives" case OnFile => "forgive global"
  }

  /** A marker from its `#` on. */
  function LizardText(space: string, gap: string, kind: Kind): (s: string)
  {
    "#" + (space + ("lizard" + (gap + LizardPhrase(kind))))
  }

  lemma LizardParsed(space: string, gap: string, kind: Kind)
    requires AllIn(IsWhitespace, space) && AllIn(IsWhitespace, gap)
    ensures ParseLizard(LizardText(space, gap, kind)) == Some(Suppression(kind, All, Lizard))
  {
    var phrase := LizardPhrase(kind);
    var word := "lizard" + (gap + phrase);
    assert LizardText(space, gap, kind)[1..] == space + word;
    TrimStartBefore(IsWhitespace, space, word);
    TrimStartAll(IsWhitespace, space);
    NothingBefore(word);
    assert word[6..] == gap + phrase;
    TrimStartBefore(IsWhitespace, gap, phrase);
    TrimStartAll(IsWhitespace, gap);
    NothingBefore(phrase);
  }

  lemma FrontLeftOf(a: string, hash: string)
    requires AllIn(IsOpener, a) && (hash != "" ==> hash[0] == '#')
    ensures FrontLeft(a + hash) == hash
  {
    var a1 := TrimStart(IsWhitespace, a);
    var a2 := StripPrefix(a1, "/*");
    var a3 := TrimStart(IsWhitespace, a2);
    StartBefore(IsWhitespace, a, hash);
    DelimBefore(a1, hash);
    StartBefore(IsWhitespace, a2, hash);
    StartBefore(IsOpener, a3, hash);
    OpenersGo(a);
    NothingBefore(hash);
  }

  lemma OpenersGo(a: string)
    requires AllIn(IsOpener, a)
    ensures TrimStart(IsOpener, TrimStart(IsWhitespace, StripPrefix(TrimStart(IsWhitespace, a), "/*"))) == ""
  {
    var a1 := TrimStart(IsWhitespace, a);
    TrimStartSpec(IsWhitespace, a);
    var a2 := StripPrefix(a1, "/*");
    TrimStartSpec(IsWhitespace, a2);
    TrimStartAll(IsOpener, TrimStart(IsWhitespace, a2));
  }

  lemma StartBefore(p: char -> bool, a: string, hash: string)
    requires hash != "" ==> !p(hash[0])
    ensures TrimStart(p, a + hash) == TrimStart(p, a) + hash
  {
    if hash == "" {
      assert a + hash == a;
      assert TrimStart(p, a) + hash == TrimStart(p, a);
    } else {
      TrimStartBefore(p, a, hash);
    }
  }

  lemma DelimBefore(a: string, hash: string)
    requires hash != "" ==> hash[0] == '#'
    ensures StripPrefix(a + hash, "/*") == StripPrefix(a, "/*") + hash
  {
    if hash == "" {
      assert a + hash == a;
    } else {
      PrefixBefore(a, hash);
    }
  }

  lemma LizardNoOpener(a: string, hash: string, core: string, t: string)
    requires AllIn(IsOpener, a) && (hash != "" ==> hash[0] == '#') && IsCore(core) && AllIn(IsCloser, t)
    ensures NoOpener((a + hash) + core + t) == hash + core
  {
    NoOpenerAround(a + hash, core, t);
    FrontLeftOf(a, hash);
    BackLeftOfClosers(t);
    assert hash + core + "" == hash + core;
  }

  lemma LizardContained(f: string, core: string, t: string, k: nat)
    requires k <= |core| && "lizard" <= core[k..]
    ensures Contains(f + core + t, "lizard")
  {
    assert (f + core + t)[|f| + k..] == core[k..] + t;
    assert "lizard" <= (f + core + t)[|f| + k..];
  }

  lemma LizardCore(space: string, gap: string, kind: Kind)
    ensures var core := LizardText(space, gap, kind);
            IsCore(core) && 1 + |space| <= |core| && "lizard" <= core[1 + |space|..]
  {
    var core, phrase := LizardText(space, gap, kind), LizardPhrase(kind);
    assert core[|core| - 1] == phrase[|phrase| - 1];
    assert core[1 + |space|..] == "lizard" + (gap + phrase);
  }

  // ---------------------------------------------------------------- which `#` is whose

  /** What the opener characters leave before the marker: nothing, or `#`s with any white space between and behind. */
  predicate IsHashes(hash: string) {
    hash == "" || (hash[0] == '#' && AllIn(IsHash, hash))
  }

  lemma SpaceStarts(space: string, rest: string)
    requires AllIn(IsWhitespace, space) && space != ""
    ensures (space + rest)[0] != 'l' && (space + rest)[0] != '#'
  {
    assert IsWhitespace(space[0]);
  }

  /** Without a `#` of the language's own, the marker's is taken for it unless `lizard` follows at once. */
  lemma LoneHashCandidate(space: string, gap: string, kind: Kind)
    requires AllIn(IsWhitespace, space)
    ensures var core := LizardText(space, gap, kind);
            LizardCandidate(core) == if space == "" then core else "lizard" + (gap + LizardPhrase(kind))
  {
    var core, word := LizardText(space, gap, kind), "lizard" + (gap + LizardPhrase(kind));
    assert core[1..] == space + word;
    if space == "" {
      NothingBefore(word);
    } else {
      SpaceStarts(space, word);
      assert core[1] == (space + word)[0];
      TrimStartBefore(IsWhitespace, space, word);
      TrimStartAll(IsWhitespace, space);
      NothingBefore(word);
    }
  }

  /** With one, it is taken off, and the white space behind it. */
  lemma HashedCandidate(hash: string, core: string)
    requires hash != "" && IsHashes(hash) && core != "" && core[0] == '#'
    ensures LizardCandidate(hash + core) == TrimStart(IsWhitespace, hash[1..]) + core
  {
    var n := hash + core;
    assert n[0] == '#' && n[1..] == hash[1..] + core;
    if |hash| > 1 {
      assert n[1] == hash[1] && IsHash(hash[1]);
    } else {
      assert n[1] == core[0];
    }
    TrimStartBefore(IsWhitespace, hash[1..], core);
  }

  /** What then begins with two `#`s is no marker. */
  lemma TwoHashesParseToNothing(left: string, core: string)
    requires left != "" && left[0] == '#' && core != "" && core[0] == '#' && AllIn(IsHash, left)
    ensures ParseLizard(left + core) == None
  {
    var s := left + core;
    assert s[1..] == left[1..] + core;
    TrimStartBefore(IsWhitespace, left[1..], core);
    var word := TrimStart(IsWhitespace, left[1..]);
    TrimStartSpec(IsWhitespace, left[1..]);
    if word == "" {
      NothingBefore(core);
    } else {
      var k := |left[1..]| - |word|;
      assert word[0] == left[1..][k] == left[1 + k] && IsHash(left[1 + k]);
      assert (word + core)[0] == word[0];
    }
  }

  lemma HashLeft(hash: string)
    requires hash != "" && IsHashes(hash)
    ensures var left := TrimStart(IsWhitespace, hash[1..]);
            && (left == "" <==> AllIn(IsWhitespace, hash[1..]))
            && AllIn(IsHash, left) && (left != "" ==> left[0] == '#')
  {
    var rest := hash[1..];
    var left := TrimStart(IsWhitespace, rest);
    TrimStartSpec(IsWhitespace, rest);
    if AllIn(IsWhitespace, rest) {
      TrimStartAll(IsWhitespace, rest);
    }
    forall i | 0 <= i < |left| ensures IsHash(left[i]) {
      assert left[i] == rest[|rest| - |left| + i] == hash[1 + |rest| - |left| + i];
    }
  }

  /** A comment's front allows a marker behind it: no `#` at all before the marker's, or one with only white space. */
  predicate LeavesMarker(hash: string, space: string) {
    if hash == "" then space == "" else AllIn(IsWhitespace, hash[1..])
  }

  lemma CandidateParsed(hash: string, space: string, gap: string, kind: Kind)
    requires IsHashes(hash) && AllIn(IsWhitespace, space) && AllIn(IsWhitespace, gap)
    ensures ParseLizard(LizardCandidate(hash + LizardText(space, gap, kind)))
         == if LeavesMarker(hash, space) then Some(Suppression(kind, All, Lizard)) else None
  {
    var core := LizardText(space, gap, kind);
    LizardParsed(space, gap, kind);
    if hash == "" {
      NothingBefore(core);
      LoneHashCandidate(space, gap, kind);
      BareWordIsNoMarker("lizard" + (gap + LizardPhrase(kind)));
    } else {
      HashedCandidate(hash, core);
      HashLeft(hash);
      var left := TrimStart(IsWhitespace, hash[1..]);
      if left == "" {
        NothingBefore(core);
      } else {
        TwoHashesParseToNothing(left, core);
      }
    }
  }

  lemma NoNativeBody(hash: string, space: string, gap: string, kind: Kind)
    requires IsHashes(hash) && AllIn(IsWhitespace, space)
    ensures ParseNative(NativeBody(hash + LizardText(space, gap, kind))) == NOT_A_MARKER
  {
    var word := "lizard" + (gap + LizardPhrase(kind));
    var front := hash + "#" + space;
    forall i | 0 <= i < |front| ensures IsHash(front[i]) {
      assert i < |hash| ==> front[i] == hash[i];
      assert i == |hash| ==> front[i] == '#';
      assert i > |hash| ==> front[i] == space[i - |hash| - 1];
    }
    Regroup(hash, "#", space + word);
    Regroup(hash + "#", space, word);
    assert word[|word| - 1] == LizardPhrase(kind)[|LizardPhrase(kind)| - 1];
    assert front + word + "" == front + word;
    TrimmedTwice(IsHash, IsWhitespace, front, word, "");
    assert word + "" == word;
    BareWordIsNoMarker(word);
  }

  lemma BareWordIsNoMarker(word: string)
    requires "lizard" <= word
    ensures ParseLizard(word) == None && ParseNative(word) == NOT_A_MARKER
  {
    assert word[0] == 'l';
  }

  /**
   A Lizard marker behind any comment opener, with any `#`s of the language's own before it, is read as its
   kind iff its `#` is not taken for the language's: iff none stands before it and `lizard` follows at once,
   or one does with nothing but white space behind it. Otherwise the comment is no marker at all.
   */
  lemma LizardMarkerIff(a: string, hash: string, space: string, gap: string, kind: Kind, t: string)
    requires AllIn(IsOpener, a) && IsHashes(hash)
    requires AllIn(IsWhitespace, space) && AllIn(IsWhitespace, gap) && AllIn(IsCloser, t)
    ensures ParseMarker((a + hash)
                        + ("#" + (space + ("lizard" + (gap + (if kind == OnFunction then "forgives" else "forgive global"))))) + t)
         == if LeavesMarker(hash, space) then MarkerScan(Some(Suppression(kind, All, Lizard)), []) else NOT_A_MARKER
  {
    var core := LizardText(space, gap, kind);
    LizardCore(space, gap, kind);
    LizardNoOpener(a, hash, core, t);
    LizardContained(a + hash, core, t, 1 + |space|);
    CandidateParsed(hash, space, gap, kind);
    NoNativeBody(hash, space, gap, kind);
  }

  /** Two `#`s and white space behind each make a marker. */
  lemma HashedSpaceIsMarker()
    ensures ParseMarker("# # lizard forgives") == MarkerScan(Some(Suppression(OnFunction, All, Lizard)), [])
  {
    var hash, space := "# ", " ";
    assert hash[0] == '#' && hash[1] == ' ' && hash[1..] == " " && AllIn(IsHash, hash);
    assert ("" + hash) + LizardText(space, " ", OnFunction) + "" == "# # lizard forgives";
    LizardMarkerIff("", hash, space, " ", OnFunction, "");
  }

  /** One `#` and white space do not. */
  lemma SpacedHashIsNoMarker()
    ensures ParseMarker("// # lizard forgives") == NOT_A_MARKER
  {
    var a := "// ";
    assert a[0] == '/' && a[1] == '/' && a[2] == ' ' && AllIn(IsOpener, a);
    assert (a + "") + LizardText(" ", " ", OnFunction) + "" == "// # lizard forgives";
    LizardMarkerIff(a, "", " ", " ", OnFunction, "");
  }
}
