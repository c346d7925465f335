/**
 The string operations of Rust's `str` that the marker grammar is built from: trimming, finding, splitting,
 joining, and the removal of prefixes and suffixes; and how they act on texts put together from parts.
 */
module Strings {
  import opened Sequences

  /** The Unicode property White_Space, which `char::is_whitespace` and `str::trim` go by. */
  predicate IsWhitespace(c: char) {
    || '\t' <= c <= '\r' || c == ' ' || c == '\U{85}' || c == '\U{A0}' || c == '\U{1680}'
    || '\U{2000}' <= c <= '\U{200A}' || c == '\U{2028}' || c == '\U{2029}' || c == '\U{202F}'
    || c == '\U{205F}' || c == '\U{3000}'
  }

  predicate AllIn(p: char -> bool, s: string) {
    forall i | 0 <= i < |s| :: p(s[i])
  }

  /** `trim_start_matches`: the longest prefix in `p` goes. */
  function TrimStart(p: char -> bool, s: string): (r: string)
  {
    if s != "" && p(s[0]) then TrimStart(p, s[1..]) else s
  }

  /** `trim_end_matches`. */
  function TrimEnd(p: char -> bool, s: string): (r: string)
  {
    if s != "" && p(s[|s| - 1]) then TrimEnd(p, s[..|s| - 1]) else s
  }

  /** `trim` for a class of characters. */
  function TrimBoth(p: char -> bool, s: string): (r: string)
  {
    TrimEnd(p, TrimStart(p, s))
  }

  /** `trim`. */
  function Trim(s: string): (r: string)
  {
    TrimBoth(IsWhitespace, s)
  }

  function StripPrefix(s: string, prefix: string): (r: string)
  {
    if prefix <= s then s[|prefix|..] else s
  }

  function StripSuffix(s: string, suffix: string): (r: string)
  {
    if |suffix| <= |s| && s[|s| - |suffix|..] == suffix then s[..|s| - |suffix|] else s
  }

  predicate Contains(s: string, part: string) {
    exists i | 0 <= i <= |s| :: part <= s[i..]
  }

  /** `find`: where the first character in `p` is. */
  function FindFirst(p: char -> bool, s: string): (i: nat)
    ensures i <= |s| && (forall j | 0 <= j < i :: !p(s[j])) && (i < |s| ==> p(s[i]))
  {
    if s == "" || p(s[0]) then 0 else 1 + FindFirst(p, s[1..])
  }

  // ---------------------------------------------------------------- trimming around a core

  /** What does not start in `p` keeps its place when the text before it is trimmed. */
  lemma {:induction false} TrimStartBefore(p: char -> bool, front: string, core: string)
    requires core != "" && !p(core[0])
    ensures TrimStart(p, front + core) == TrimStart(p, front) + core
  {
    if front == "" {
      assert front + core == core;
    } else if p(front[0]) {
      TrimStartBefore(p, front[1..], core);
      assert (front + core)[1..] == front[1..] + core;
    }
  }

  lemma {:induction false} TrimEndAfter(p: char -> bool, core: string, back: string)
    requires core != "" && !p(core[|core| - 1])
    ensures TrimEnd(p, core + back) == core + TrimEnd(p, back)
  {
    if back == "" {
      assert core + back == core;
    } else if p(back[|back| - 1]) {
      TrimEndAfter(p, core, back[..|back| - 1]);
      assert (core + back)[..|core + back| - 1] == core + back[..|back| - 1];
    }
  }

  lemma {:induction false} TrimStartAll(p: char -> bool, front: string)
    requires AllIn(p, front)
    ensures TrimStart(p, front) == ""
  {
    if front == "" {
    } else {
      TrimStartAll(p, front[1..]);
    }
  }

  lemma {:induction false} TrimEndAll(p: char -> bool, back: string)
    requires AllIn(p, back)
    ensures TrimEnd(p, back) == ""
  {
    if back == "" {
    } else {
      TrimEndAll(p, back[..|back| - 1]);
    }
  }

  /** What is left of `s` is its end, and what went is all in `p`. */
  lemma {:induction false} TrimStartSpec(p: char -> bool, s: string)
    ensures var r := TrimStart(p, s);
            |r| <= |s| && r == s[|s| - |r|..] && AllIn(p, s[..|s| - |r|]) && (r != "" ==> !p(r[0]))
  {
    if s != "" && p(s[0]) {
      var r := TrimStart(p, s[1..]);
      TrimStartSpec(p, s[1..]);
      assert s[..|s| - |r|] == [s[0]] + s[1..][..|s| - 1 - |r|];
    }
  }

  lemma {:induction false} TrimEndSpec(p: char -> bool, s: string)
    ensures var r := TrimEnd(p, s);
            |r| <= |s| && r == s[..|r|] && AllIn(p, s[|r|..]) && (r != "" ==> !p(r[|r| - 1]))
  {
    if s != "" && p(s[|s| - 1]) {
      var front, last := s[..|s| - 1], s[|s| - 1];
      TrimEndSpec(p, front);
      FrontOf(front, last, |TrimEnd(p, front)|);
      assert s == front + [last];
    }
  }

  lemma FrontOf(front: string, last: char, n: nat)
    requires n <= |front|
    ensures (front + [last])[..n] == front[..n] && (front + [last])[n..] == front[n..] + [last]
  {
  }

  /** Trimming around a core that neither starts nor ends with what is trimmed. */
  lemma TrimSidesAround(p: char -> bool, q: char -> bool, f: string, core: string, t: string)
    requires core != "" && !p(core[0]) && !q(core[|core| - 1])
    ensures TrimEnd(q, TrimStart(p, f + core + t)) == TrimStart(p, f) + core + TrimEnd(q, t)
  {
    Regroup(f, core, t);
    TrimStartBefore(p, f, core + t);
    var f' := TrimStart(p, f);
    Regroup(f', core, t);
    var head := f' + core;
    assert head[|head| - 1] == core[|core| - 1];
    TrimEndAfter(q, head, t);
  }

  lemma TrimAround(p: char -> bool, front: string, core: string, back: string)
    requires core != "" && !p(core[0]) && !p(core[|core| - 1])
    ensures TrimBoth(p, front + core + back) == TrimStart(p, front) + core + TrimEnd(p, back)
  {
    TrimSidesAround(p, p, front, core, back);
  }

  /** The first character in `p` is found right behind what comes before it. */
  lemma {:induction false} FindFirstAt(p: char -> bool, before: string, rest: string)
    requires (forall j | 0 <= j < |before| :: !p(before[j])) && (rest == "" || p(rest[0]))
    ensures FindFirst(p, before + rest) == |before|
  {
    if before == "" {
      assert before + rest == rest;
    } else {
      FindFirstAt(p, before[1..], rest);
      assert (before + rest)[1..] == before[1..] + rest;
    }
  }

  // ---------------------------------------------------------------- splitting

  predicate Free(s: string, sep: char) {
    sep !in s
  }

  function Count(s: string, sep: char): (n: nat)
    ensures n <= |s|
  {
    if s == "" then 0 else (if s[0] == sep then 1 else 0) + Count(s[1..], sep)
  }

  lemma {:induction false} CountConcat(a: string, sep: char, b: string)
    ensures Count(a + b, sep) == Count(a, sep) + Count(b, sep)
  {
    if a == "" {
      assert a + b == b;
    } else {
      assert (a + b)[1..] == a[1..] + b;
      CountConcat(a[1..], sep, b);
    }
  }

  /** Put a character in front of the first part. */
  function Extend(c: char, parts: seq<string>): (r: seq<string>)
    requires parts != []
    ensures |r| == |parts|
  {
    [[c] + parts[0]] + parts[1..]
  }

  /** `split`: the stretches between separators, one more than there are separators. */
  function Split(s: string, sep: char): (parts: seq<string>)
    ensures |parts| == Count(s, sep) + 1
  {
    if s == "" then [""]
    else
      var rest := Split(s[1..], sep);
      if s[0] == sep then [""] + rest else Extend(s[0], rest)
  }

  function Join(parts: seq<string>, sep: char): (s: string)
    requires parts != []
  {
    if |parts| == 1 then parts[0] else parts[0] + [sep] + Join(parts[1..], sep)
  }

  /** Splitting loses nothing, and no part holds a separator. */
  lemma {:induction false} SplitJoins(s: string, sep: char)
    ensures Join(Split(s, sep), sep) == s
    ensures forall k | 0 <= k < |Split(s, sep)| :: Free(Split(s, sep)[k], sep)
  {
    if s == "" {
    } else {
      SplitJoins(s[1..], sep);
      var rest := Split(s[1..], sep);
      if s[0] == sep {
        assert ([""] + rest)[1..] == rest;
      } else {
        var parts := Extend(s[0], rest);
        assert parts[1..] == rest[1..];
        forall k | 0 <= k < |parts| ensures Free(parts[k], sep) {
          assert Free(rest[k], sep);
        }
      }
    }
  }

  /** The last of `a` goes on as the first of `b`. */
  function Splice(a: seq<string>, b: seq<string>): (r: seq<string>)
    requires a != [] && b != []
    ensures |r| == |a| + |b| - 1
  {
    a[..|a| - 1] + [a[|a| - 1] + b[0]] + b[1..]
  }

  lemma SpliceEmpty(a: seq<string>, b: seq<string>)
    requires a != [] && b != []
    ensures Splice([""] + a, b) == [""] + Splice(a, b)
  {
  }

  lemma SpliceExtend(c: char, a: seq<string>, b: seq<string>)
    requires a != [] && b != []
    ensures Splice(Extend(c, a), b) == Extend(c, Splice(a, b))
  {
    var l, r := Splice(Extend(c, a), b), Extend(c, Splice(a, b));
    if |a| == 1 {
      assert l[0] == [c] + a[0] + b[0] == [c] + (a[0] + b[0]) == r[0];
    }
    assert forall k | 0 <= k < |l| :: l[k] == r[k];
  }

  /** Splitting a text in two splits one of its parts. */
  lemma {:induction false} SplitConcat(a: string, sep: char, b: string)
    ensures Split(a + b, sep) == Splice(Split(a, sep), Split(b, sep))
  {
    if a == "" {
      assert a + b == b && "" + Split(b, sep)[0] == Split(b, sep)[0];
    } else {
      assert (a + b)[1..] == a[1..] + b;
      SplitConcat(a[1..], sep, b);
      SpliceEmpty(Split(a[1..], sep), Split(b, sep));
      SpliceExtend(a[0], Split(a[1..], sep), Split(b, sep));
    }
  }

  lemma {:induction false} SplitFree(s: string, sep: char)
    requires Free(s, sep)
    ensures Split(s, sep) == [s]
  {
    if s == "" {
    } else {
      assert s[0] in s && Free(s[1..], sep);
      SplitFree(s[1..], sep);
      assert [s[0]] + s[1..] == s;
    }
  }

  /** A separator parts the two sides. */
  lemma SplitAt(a: string, sep: char, b: string)
    ensures Split(a + [sep] + b, sep) == Split(a, sep) + Split(b, sep)
  {
    SplitConcat(a + [sep], sep, b);
    SplitEnded(a, sep);
    SpliceBare(Split(a, sep), Split(b, sep));
  }

  lemma SplitEnded(a: string, sep: char)
    ensures Split(a + [sep], sep) == Split(a, sep) + [""]
  {
    SplitConcat(a, sep, [sep]);
    var x := Split(a, sep);
    assert Split([sep], sep) == [""] + Split("", sep) == ["", ""];
    assert x[|x| - 1] + "" == x[|x| - 1];
  }

  lemma SpliceBare(x: seq<string>, y: seq<string>)
    requires y != []
    ensures Splice(x + [""], y) == x + y
  {
    assert "" + y[0] == y[0];
  }

  /** Splitting what was joined gives the parts back. */
  lemma {:induction false} SplitReadsBack(parts: seq<string>, sep: char)
    requires |parts| >= 1 && forall i | 0 <= i < |parts| :: Free(parts[i], sep)
    ensures Split(Join(parts, sep), sep) == parts
  {
    if |parts| == 1 {
      SplitFree(parts[0], sep);
    } else {
      SplitReadsBack(parts[1..], sep);
      SplitAt(parts[0], sep, Join(parts[1..], sep));
      SplitFree(parts[0], sep);
      assert parts == [parts[0]] + parts[1..];
    }
  }
}
