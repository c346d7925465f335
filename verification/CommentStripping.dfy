/**
 Taking a comment's opener and closer off leaves the marker in it untouched, whatever characters the opener
 and the closer are made of, and whatever white space there is around it.
 */
module CommentStripping {
  import opened Wrappers
  import opened Sequences
  import opened Strings
  import opened SuppressionMarker

  /** A comment opener that the stripping accepts: opener characters, then `#`s; white space anywhere. */
  predicate IsFront(f: string) {
    AllIn(IsHash, f) || (IsOpener(f[0]) && IsFront(f[1..]))
  }

  lemma FrontStep(f: string)
    requires IsFront(f) && f != ""
    ensures IsFront(f[1..])
  {
  }

  lemma {:induction false} FrontTrimmed(p: char -> bool, f: string)
    requires IsFront(f)
    ensures IsFront(TrimStart(p, f))
  {
    if f != "" && p(f[0]) {
      FrontStep(f);
      FrontTrimmed(p, f[1..]);
    }
  }

  lemma FrontStripped(f: string)
    requires IsFront(f)
    ensures IsFront(StripPrefix(f, "/*"))
  {
    if "/*" <= f {
      FrontStep(f);
      FrontStep(f[1..]);
      assert f[1..][1..] == f[2..];
    }
  }

  lemma {:induction false} FrontWithoutOpeners(f: string)
    requires IsFront(f)
    ensures AllIn(IsHash, TrimStart(IsOpener, f))
    ensures TrimStart(IsOpener, f) != "" ==> TrimStart(IsOpener, f)[0] == '#'
  {
    if f != "" && IsOpener(f[0]) {
      FrontStep(f);
      FrontWithoutOpeners(f[1..]);
    }
  }

  /** What the stripping leaves of the text before a core, and of the text behind it. */
  function FrontLeft(f: string): (r: string)
  {
    TrimStart(IsWhitespace, TrimStart(IsOpener, TrimStart(IsWhitespace, StripPrefix(TrimStart(IsWhitespace, f), "/*"))))
  }

  function BackLeft(t: string): (r: string)
  {
    TrimEnd(IsWhitespace, TrimEnd(IsCloser, TrimEnd(IsWhitespace, StripSuffix(TrimEnd(IsWhitespace, t), "*/"))))
  }

  predicate IsCore(core: string) {
    core != "" && !IsOpener(core[0]) && !IsCloser(core[|core| - 1])
  }

  lemma DelimsAround(f: string, core: string, t: string)
    requires IsCore(core)
    ensures StripBlockDelims(f + core + t) == StripPrefix(f, "/*") + core + StripSuffix(t, "*/")
  {
    var s, rest := f + core + t, core + t;
    assert s == f + rest;
    PrefixBefore(f, rest);
    var head := StripPrefix(f, "/*") + core;
    assert StripPrefix(f, "/*") + rest == head + t && head[|head| - 1] == core[|core| - 1];
    SuffixAfter(head, t);
  }

  lemma PrefixBefore(f: string, rest: string)
    requires rest != "" && !IsOpener(rest[0])
    ensures StripPrefix(f + rest, "/*") == StripPrefix(f, "/*") + rest
  {
    var s := f + rest;
    if |f| >= 2 {
      assert s[0] == f[0] && s[1] == f[1];
    } else if |f| == 1 {
      assert s[1] == rest[0];
    } else {
      assert s[0] == rest[0];
    }
  }

  lemma SuffixAfter(head: string, t: string)
    requires head != "" && !IsCloser(head[|head| - 1])
    ensures StripSuffix(head + t, "*/") == head + StripSuffix(t, "*/")
  {
    var s := head + t;
    if |t| >= 2 {
      assert s[|s| - 2..] == t[|t| - 2..];
    } else if |t| == 1 {
      assert |s| >= 2 && s[|s| - 2] == head[|head| - 1];
    } else {
      assert s[|s| - 1] == head[|head| - 1];
    }
  }

  /** The core of a comment survives the stripping of its opener and closer. */
  lemma NoOpenerAround(f: string, core: string, t: string)
    requires IsCore(core)
    ensures NoOpener(f + core + t) == FrontLeft(f) + core + BackLeft(t)
  {
    var f1, t1 := TrimStart(IsWhitespace, f), TrimEnd(IsWhitespace, t);
    TrimAround(IsWhitespace, f, core, t);
    DelimsAround(f1, core, t1);
    var f2, t2 := StripPrefix(f1, "/*"), StripSuffix(t1, "*/");
    TrimAround(IsWhitespace, f2, core, t2);
    var f3, t3 := TrimStart(IsWhitespace, f2), TrimEnd(IsWhitespace, t2);
    TrimSidesAround(IsOpener, IsCloser, f3, core, t3);
    TrimAround(IsWhitespace, TrimStart(IsOpener, f3), core, TrimEnd(IsCloser, t3));
  }

  lemma FrontLeftIsHash(f: string)
    requires IsFront(f)
    ensures AllIn(IsHash, FrontLeft(f)) && (FrontLeft(f) != "" ==> FrontLeft(f)[0] == '#')
  {
    var f1 := TrimStart(IsWhitespace, f);
    FrontTrimmed(IsWhitespace, f);
    var f2 := StripPrefix(f1, "/*");
    FrontStripped(f1);
    var f3 := TrimStart(IsWhitespace, f2);
    FrontTrimmed(IsWhitespace, f2);
    FrontWithoutOpeners(f3);
  }

  /** `r` is `t` but for closer characters at the end. */
  predicate Sheds(t: string, r: string) {
    r <= t && AllIn(IsCloser, t[|r|..])
  }

  lemma ShedsThen(t: string, r: string, q: string)
    requires Sheds(t, r) && Sheds(r, q)
    ensures Sheds(t, q)
  {
    assert t[|q|..] == r[|q|..] + t[|r|..];
  }

  lemma SpacesShed(t: string)
    ensures Sheds(t, TrimEnd(IsWhitespace, t))
  {
    TrimEndSpec(IsWhitespace, t);
  }

  lemma BackLeftSheds(t: string)
    ensures Sheds(t, BackLeft(t))
  {
    var t1 := TrimEnd(IsWhitespace, t);
    SpacesShed(t);
    var t2 := StripSuffix(t1, "*/");
    ShedsThen(t, t1, t2);
    var t3 := TrimEnd(IsWhitespace, t2);
    SpacesShed(t2);
    ShedsThen(t, t2, t3);
    var t4 := TrimEnd(IsCloser, t3);
    TrimEndSpec(IsCloser, t3);
    ShedsThen(t, t3, t4);
    SpacesShed(t4);
    ShedsThen(t, t4, BackLeft(t));
  }

  lemma BackLeftOfClosers(t: string)
    requires AllIn(IsCloser, t)
    ensures BackLeft(t) == ""
  {
    var t1 := TrimEnd(IsWhitespace, t);
    SpacesShed(t);
    var t2 := StripSuffix(t1, "*/");
    SpacesShed(t2);
    TrimEndAll(IsCloser, TrimEnd(IsWhitespace, t2));
  }

  /** `#`s and white space up to a `b`: no Lizard marker can begin there. */
  predicate HashThenB(s: string) {
    s != "" && (s[0] == 'b' || (IsHash(s[0]) && HashThenB(s[1..])))
  }

  lemma {:induction false} HashThenBOf(f: string, rest: string)
    requires AllIn(IsHash, f) && rest != "" && rest[0] == 'b'
    ensures HashThenB(f + rest)
  {
    if f == "" {
      assert f + rest == rest;
    } else {
      HashThenBOf(f[1..], rest);
      assert (f + rest)[1..] == f[1..] + rest;
    }
  }

  lemma {:induction false} HashThenBTrimmed(s: string)
    requires HashThenB(s)
    ensures HashThenB(TrimStart(IsWhitespace, s))
  {
    if IsWhitespace(s[0]) {
      HashThenBTrimmed(s[1..]);
    }
  }

  lemma NoLizard(s: string)
    requires HashThenB(s)
    ensures ParseLizard(s) == None
  {
    if "#" <= s {
      HashThenBTrimmed(s[1..]);
    }
  }

  lemma NoLizardCandidate(s: string)
    requires HashThenB(s)
    ensures ParseLizard(LizardCandidate(s)) == None
  {
    NoLizard(s);
    if "#" <= s {
      HashThenBTrimmed(s[1..]);
      NoLizard(TrimStart(IsWhitespace, s[1..]));
    }
  }

  lemma ContainsCore(f: string, core: string, t: string, part: string)
    requires part <= core
    ensures Contains(f + core + t, part)
  {
    assert part <= (f + core + t)[|f|..];
  }

  lemma NoNative(left: string, core: string, back: string)
    requires AllIn(IsHash, left) && core != "" && core[0] == 'b'
    ensures ParseLizard(LizardCandidate(left + core + back)) == None
  {
    Regroup(left, core, back);
    var kept := core + back;
    HashThenBOf(left, kept);
    NoLizardCandidate(left + kept);
  }

  lemma TrimmedTwice(p: char -> bool, q: char -> bool, left: string, core: string, back: string)
    requires AllIn(p, left) && core != "" && !p(core[0]) && !q(core[0]) && !q(core[|core| - 1])
    ensures TrimBoth(q, TrimStart(p, left + core + back)) == core + TrimEnd(q, back)
  {
    var kept := core + back;
    Regroup(left, core, back);
    TrimStartBefore(p, left, kept);
    TrimStartAll(p, left);
    NothingBefore(kept);
    assert TrimStart(q, kept) == kept;
    TrimEndAfter(q, core, back);
  }

  lemma NothingBefore(s: string)
    ensures "" + s == s
  {
  }

  lemma BodyAround(left: string, core: string, back: string)
    requires AllIn(IsHash, left) && IsCore(core) && core[0] == 'b'
    ensures NativeBody(left + core + back) == core + TrimEnd(IsWhitespace, back)
  {
    TrimmedTwice(IsHash, IsWhitespace, left, core, back);
  }

  lemma GoesNative(comment: string, noOpener: string)
    requires Contains(comment, "bca:") && noOpener == NoOpener(comment)
    requires ParseLizard(LizardCandidate(noOpener)) == None
    ensures ParseMarker(comment) == ParseNative(NativeBody(noOpener))
  {
  }

  /** A native marker in a comment is parsed as what is left of it without opener and closer. */
  lemma CommentIsStripped(f: string, core: string, t: string) returns (rest: string)
    requires IsFront(f) && IsCore(core) && "bca:" <= core
    ensures Sheds(t, rest) && (AllIn(IsCloser, t) ==> rest == "")
    ensures ParseMarker(f + core + t) == ParseNative(core + rest)
  {
    var left, back := FrontLeft(f), BackLeft(t);
    rest := RestOf(t);
    NoOpenerAround(f, core, t);
    FrontLeftIsHash(f);
    ContainsCore(f, core, t, "bca:");
    var noOpener := left + core + back;
    NoNative(left, core, back);
    GoesNative(f + core + t, noOpener);
    BodyAround(left, core, back);
  }

  lemma RestOf(t: string) returns (rest: string)
    ensures rest == TrimEnd(IsWhitespace, BackLeft(t))
    ensures Sheds(t, rest) && (AllIn(IsCloser, t) ==> rest == "")
  {
    rest := TrimEnd(IsWhitespace, BackLeft(t));
    BackLeftSheds(t);
    SpacesShed(BackLeft(t));
    ShedsThen(t, BackLeft(t), rest);
    if AllIn(IsCloser, t) {
      BackLeftOfClosers(t);
    }
  }
}
