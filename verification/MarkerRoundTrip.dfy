/** A marker printed into a comment reads back. */
module MarkerRoundTrip {
  import opened Wrappers
  import opened Sequences
  import opened Strings
  import opened Metrics
  import opened SuppressionMarker
  import opened CommentStripping
  import opened NativeMarkers

  /** A place in a list: a metric, or nothing, with white space around it. */
  datatype Item = Item(before: string, metric: Option<Metric>, after: string)

  predicate Spaced(item: Item) {
    AllIn(IsWhitespace, item.before) && AllIn(IsWhitespace, item.after) && item.metric != Some(Tokens)
  }

  function Spelled(item: Item): (s: string)
  {
    if item.metric.Some? then Name(item.metric.value) else ""
  }

  function ItemText(item: Item): (s: string)
  {
    item.before + Spelled(item) + item.after
  }

  function ListText(items: seq<Item>): (s: string)
    requires items != []
  {
    Join(Map(ItemText, items), ',')
  }

  function MetricsIn(items: seq<Item>): (metrics: set<Metric>)
  {
    set item | item in items && item.metric.Some? :: item.metric.value
  }

  lemma ItemTrims(item: Item)
    requires Spaced(item)
    ensures Trim(ItemText(item)) == Spelled(item)
  {
    if item.metric.Some? {
      NameIsPlain(item.metric.value);
      TrimAround(IsWhitespace, item.before, Spelled(item), item.after);
      TrimStartAll(IsWhitespace, item.before);
      TrimEndAll(IsWhitespace, item.after);
    } else {
      TrimStartAll(IsWhitespace, ItemText(item));
    }
  }

  lemma ItemIsFree(item: Item)
    requires Spaced(item)
    ensures Free(ItemText(item), ',') && Free(ItemText(item), ')')
  {
    if item.metric.Some? {
      NameIsPlain(item.metric.value);
    }
    var s := ItemText(item);
    forall i | 0 <= i < |s| ensures IsWhitespace(s[i]) || 'a' <= s[i] <= 'z' {
      assert i < |item.before| ==> s[i] == item.before[i];
      assert |item.before| <= i < |item.before| + |Spelled(item)| ==> s[i] == Spelled(item)[i - |item.before|];
      assert |item.before| + |Spelled(item)| <= i ==> s[i] == item.after[i - |item.before| - |Spelled(item)|];
    }
  }

  lemma {:induction false} JoinIsFree(parts: seq<string>, sep: char, c: char)
    requires parts != [] && c != sep && forall i | 0 <= i < |parts| :: Free(parts[i], c)
    ensures Free(Join(parts, sep), c)
  {
    if |parts| > 1 {
      JoinIsFree(parts[1..], sep, c);
    }
  }

  function ItemNames(items: seq<Item>): (names: seq<string>)
  {
    if items == [] then []
    else
      var last := items[|items| - 1];
      ItemNames(items[..|items| - 1]) + if last.metric.Some? then [Name(last.metric.value)] else []
  }

  lemma {:induction false} NamesOfItems(items: seq<Item>)
    requires forall i | 0 <= i < |items| :: Spaced(items[i])
    ensures Names(Map(ItemText, items)) == ItemNames(items)
  {
    if items == [] {
    } else {
      var rest, last := items[..|items| - 1], items[|items| - 1];
      NamesOfItems(rest);
      assert Map(ItemText, items)[..|items| - 1] == Map(ItemText, rest);
      ItemTrims(last);
      if last.metric.Some? {
        NameIsPlain(last.metric.value);
      }
    }
  }

  lemma MetricsInSnoc(items: seq<Item>, last: Item)
    ensures MetricsIn(items + [last]) == MetricsIn(items) + if last.metric.Some? then {last.metric.value} else {}
  {
  }

  lemma ItemNamesSnoc(items: seq<Item>, last: Item)
    ensures ItemNames(items + [last]) == ItemNames(items) + if last.metric.Some? then [Name(last.metric.value)] else []
  {
    assert (items + [last])[..|items|] == items;
  }

  lemma {:induction false} ItemNamesMean(items: seq<Item>)
    requires forall i | 0 <= i < |items| :: Spaced(items[i])
    ensures Silenced(ItemNames(items)) == MetricsIn(items) && FirstUnusable(ItemNames(items)) == []
  {
    if items == [] {
    } else {
      var rest, last := items[..|items| - 1], items[|items| - 1];
      ItemNamesMean(rest);
      assert items == rest + [last] && Spaced(last);
      MetricsInSnoc(rest, last);
      ItemNamesSnoc(rest, last);
      OneMoreName(ItemNames(rest), last);
    }
  }

  lemma OneMoreName(names: seq<string>, last: Item)
    requires Spaced(last) && FirstUnusable(names) == []
    ensures var after := names + if last.metric.Some? then [Name(last.metric.value)] else [];
            && Silenced(after) == Silenced(names) + (if last.metric.Some? then {last.metric.value} else {})
            && FirstUnusable(after) == []
  {
    if last.metric.Some? {
      var m := last.metric.value;
      NamedIff(Name(m), m);
      SilencedSnoc(names, Name(m));
      FirstUnusableSnoc(names, Name(m));
    } else {
      assert names + [] == names;
    }
  }

  lemma ListParts(items: seq<Item>)
    requires items != [] && forall i | 0 <= i < |items| :: Spaced(items[i])
    ensures Split(ListText(items), ',') == Map(ItemText, items) && Free(ListText(items), ')')
  {
    var parts := Map(ItemText, items);
    forall i | 0 <= i < |parts| ensures Free(parts[i], ',') && Free(parts[i], ')') {
      ItemIsFree(items[i]);
    }
    SplitReadsBack(parts, ',');
    JoinIsFree(parts, ',', ')');
  }

  /** A printed list reads back as its metrics, whatever their order, repeats, blanks and spacing. */
  lemma ListReadsBack(items: seq<Item>)
    requires items != [] && forall i | 0 <= i < |items| :: Spaced(items[i])
    ensures MetricList(ListText(items)) == (MetricsIn(items), [])
  {
    ListParts(items);
    NamesOfItems(items);
    ItemNamesMean(items);
    NoDiagnostics();
  }

  lemma NoDiagnostics()
    ensures Diagnostics([]) == []
  {
  }

  /** The text behind a verb that takes a list. */
  function Listed(space: string, list: string, tail: string): (t: string)
  {
    space + ("(" + (list + (")" + tail)))
  }

  lemma ListedStarts(space: string, list: string, tail: string)
    requires AllIn(IsWhitespace, space) && Free(list, ')')
    ensures var t := Listed(space, list, tail);
            var after := TrimStart(IsWhitespace, t);
            && t != "" && EndsVerb(t[0]) && !AllIn(IsCloser, t)
            && after != "" && after[0] == '(' && FindFirst(IsClose, after[1..]) < |after| - 1 && ListIn(after) == list
  {
    var behind := list + (")" + tail);
    var after := "(" + behind;
    var t := space + after;
    TrimStartBefore(IsWhitespace, space, after);
    TrimStartAll(IsWhitespace, space);
    NothingBefore(after);
    assert after[1..] == behind;
    FindFirstAt(IsClose, list, ")" + tail);
    assert behind[..|list|] == list;
    ParenIsNoCloser();
    assert t[|space|] == after[0] == '(';
    if space != "" {
      SpaceEndsVerb(space);
      assert t[0] == space[0];
    }
  }

  lemma ParenIsNoCloser()
    ensures !IsCloser('(') && EndsVerb('(')
  {
  }

  lemma SpaceEndsVerb(space: string)
    requires AllIn(IsWhitespace, space) && space != ""
    ensures EndsVerb(space[0])
  {
    assert IsWhitespace(space[0]);
  }

  lemma VerbWithList(f: string, gap: string, kind: Kind, t: string, list: string)
    requires IsFront(f) && AllIn(IsWhitespace, gap) && t != "" && EndsVerb(t[0]) && !AllIn(IsCloser, t)
    requires var after := TrimStart(IsWhitespace, t);
             after != "" && after[0] == '(' && FindFirst(IsClose, after[1..]) < |after| - 1 && ListIn(after) == list
    ensures ParseMarker(f + Directive(gap, kind) + t)
         == MarkerScan(Some(Suppression(kind, Only(MetricList(list).0), Native)), MetricList(list).1)
  {
    VerbInComment(f, gap, kind, t);
  }

  /**
   * A printed marker with a list reads back as its kind and metrics, with no complaint: any accepted opener, any
   * spacing, any rationale behind the list, any closer.
   */
  lemma MarkerReadsBack(f: string, gap: string, kind: Kind, space: string, items: seq<Item>, tail: string)
    requires IsFront(f) && AllIn(IsWhitespace, gap) && AllIn(IsWhitespace, space)
    requires items != [] && forall i | 0 <= i < |items| :: Spaced(items[i])
    ensures ParseMarker(f + ("bca:" + (gap + (if kind == OnFunction then "suppress" else "suppress-file")))
                        + (space + ("(" + (ListText(items) + (")" + tail)))))
         == MarkerScan(Some(Suppression(kind, Only(MetricsIn(items)), Native)), [])
  {
    var list := ListText(items);
    ListParts(items);
    ListReadsBack(items);
    ListedStarts(space, list, tail);
    VerbWithList(f, gap, kind, Listed(space, list, tail), list);
  }

  lemma SlashesAreFront(s: string)
    requires AllIn(IsWhitespace, s)
    ensures IsFront("//" + s)
  {
    var f := "//" + s;
    assert f[1..] == "/" + s && ("/" + s)[1..] == s;
    assert forall i | 0 <= i < |s| :: IsWhitespace(s[i]);
    assert AllIn(IsHash, s);
  }

  /** Any white space may stand in every gap. */
  lemma SpacedMarker(s: string, m: Metric)
    requires AllIn(IsWhitespace, s) && m != Tokens
    ensures ParseMarker(("//" + s) + Directive(s, OnFunction) + Listed(s, ListText([Item(s, Some(m), s)]), ""))
         == MarkerScan(Some(Suppression(OnFunction, Only({m}), Native)), [])
  {
    var item := Item(s, Some(m), s);
    SlashesAreFront(s);
    assert item in [item] && MetricsIn([item]) == {m};
    MarkerReadsBack("//" + s, s, OnFunction, s, [item], "");
  }

  /** The white space is Unicode's: a no-break space will do. */
  lemma NoBreakSpaces(m: Metric)
    requires m != Tokens
    ensures var s := "\U{A0}";
            (ParseMarker(("//" + s) + Directive(s, OnFunction) + Listed(s, ListText([Item(s, Some(m), s)]), ""))
             == MarkerScan(Some(Suppression(OnFunction, Only({m}), Native)), []))
  {
    NoBreakIsSpace();
    SpacedMarker("\U{A0}", m);
  }

  lemma NoBreakIsSpace()
    ensures AllIn(IsWhitespace, "\U{A0}")
  {
    assert IsWhitespace('\U{A0}');
  }

  lemma NameAlone(m: Metric)
    requires m != Tokens
    ensures MetricList(Name(m)).0 == {m}
  {
    var item := Item("", Some(m), "");
    NothingBefore(Name(m));
    assert Name(m) + "" == Name(m);
    assert ListText([item]) == ItemText(item);
    ListReadsBack([item]);
    assert item in [item];
  }

  /** A mistyped name behind a good one costs itself and nothing else. */
  lemma TypoBehindName(m: Metric, typo: string)
    requires m != Tokens && Free(typo, ',') && !Usable(Trim(typo))
    ensures MetricList(Name(m) + [','] + typo).0 == {m}
  {
    NameIsPlain(m);
    var parts := [Name(m)] + [typo] + [];
    assert parts == [Name(m), typo] && parts[1..] == [typo] && Join([typo], ',') == typo;
    assert ListOf(parts) == Name(m) + [','] + typo;
    assert [Name(m)] + [] == [Name(m)];
    UnusableNameSilencesNothing([Name(m)], typo, []);
    NameAlone(m);
  }

  /** The documented one is `exit` for `nexits`. */
  lemma ExitBehindCognitive()
    ensures MetricList("cognitive, exit").0 == {Cognitive}
  {
    ExitTrims();
    assert Name(Cognitive) + [','] + " exit" == "cognitive, exit";
    TypoBehindName(Cognitive, " exit");
  }

  lemma ExitTrims()
    ensures Trim(" exit") == "exit" && !Usable("exit") && Free(" exit", ',')
  {
    var word := "exit";
    assert word[0] == 'e' && word[|word| - 1] == 't';
    assert " exit"[1..] == word;
    assert TrimStart(IsWhitespace, " exit") == word;
    assert TrimEnd(IsWhitespace, word) == word;
  }

  // ---------------------------------------------------------------- the characters around a marker

  /** The 25 characters with the Unicode property White_Space. */
  lemma WhitespaceIs(c: char)
    ensures IsWhitespace(c) <==>
            || c == '\t' || c == '\n' || c == '\U{0B}' || c == '\U{0C}' || c == '\r' || c == ' ' || c == '\U{85}'
            || c == '\U{A0}' || c == '\U{1680}' || c == '\U{2000}' || c == '\U{2001}' || c == '\U{2002}' || c == '\U{2003}'
            || c == '\U{2004}' || c == '\U{2005}' || c == '\U{2006}' || c == '\U{2007}' || c == '\U{2008}' || c == '\U{2009}'
            || c == '\U{200A}' || c == '\U{2028}' || c == '\U{2029}' || c == '\U{202F}' || c == '\U{205F}' || c == '\U{3000}'
  {
  }

  /** Slashes, stars, bangs, semicolons and dashes, then hashes, with white space anywhere, are an opener. */
  lemma {:induction false} Openers(a: string, h: string)
    requires forall i | 0 <= i < |a| :: a[i] == '/' || a[i] == '*' || a[i] == '!' || a[i] == ';' || a[i] == '-' || IsWhitespace(a[i])
    requires forall i | 0 <= i < |h| :: h[i] == '#' || IsWhitespace(h[i])
    ensures IsFront(a + h)
  {
    if a == "" {
      assert a + h == h;
    } else {
      Openers(a[1..], h);
      assert (a + h)[1..] == a[1..] + h;
    }
  }

  /** And stars and slashes, with white space anywhere, a closer: a bare verb before it silences everything. */
  lemma BareVerb(a: string, h: string, gap: string, kind: Kind, t: string)
    requires forall i | 0 <= i < |a| :: a[i] == '/' || a[i] == '*' || a[i] == '!' || a[i] == ';' || a[i] == '-' || IsWhitespace(a[i])
    requires forall i | 0 <= i < |h| :: h[i] == '#' || IsWhitespace(h[i])
    requires forall i | 0 <= i < |t| :: t[i] == '*' || t[i] == '/' || IsWhitespace(t[i])
    requires AllIn(IsWhitespace, gap)
    ensures ParseMarker((a + h) + ("bca:" + (gap + (if kind == OnFunction then "suppress" else "suppress-file"))) + t)
         == MarkerScan(Some(Suppression(kind, All, Native)), [])
  {
    Openers(a, h);
    VerbIsWord(kind);
    BareWord(a + h, gap, kind, t);
  }

  lemma BareWord(f: string, gap: string, kind: Kind, t: string)
    requires IsFront(f) && AllIn(IsWhitespace, gap) && AllIn(IsCloser, t)
    ensures ParseMarker(f + ("bca:" + (gap + Verb(kind))) + t) == MarkerScan(Some(Suppression(kind, All, Native)), [])
  {
    VerbIsWord(kind);
    assert t != "" ==> IsCloser(t[0]);
    WordInComment(f, gap, Verb(kind), t);
  }
}
