/** The marker grammar: what a comment silences, and what it is told about the rest. */
module SuppressionMarker {
  import opened Wrappers
  import opened Sequences
  import opened Strings
  import opened Metrics

  datatype Kind = OnFunction | OnFile

  datatype Source = Native | Lizard

  /** `Only({})` suppresses nothing. */
  datatype Scope = All | Only(metrics: set<Metric>)

  /** `SuppressionScope::covers`. */
  predicate Covers(scope: Scope, m: Metric) {
    scope.All? || m in scope.metrics
  }

  /** `SuppressionScope::merge`. */
  function Merge(a: Scope, b: Scope): (r: Scope)
  {
    if a.All? || b.All? then All else Only(a.metrics + b.metrics)
  }

  /** Stacked markers cover what any of them covers. */
  lemma {:induction false} MergeCovers(scopes: seq<Scope>, m: Metric)
    ensures Covers(Fold(Merge, Only({}), scopes), m) <==> exists i :: 0 <= i < |scopes| && Covers(scopes[i], m)
  {
    if scopes == [] {
    } else {
      var rest, last := scopes[..|scopes| - 1], scopes[|scopes| - 1];
      MergeCovers(rest, m);
      assert Covers(Fold(Merge, Only({}), scopes), m) <==> Covers(Fold(Merge, Only({}), rest), m) || Covers(last, m);
      assert forall i | 0 <= i < |rest| :: rest[i] == scopes[i];
    }
  }

  datatype Suppression = Suppression(kind: Kind, scope: Scope, source: Source)

  datatype Complaint =
    | UnknownVerb(verb: string)
    | UnknownMetric(name: string)
    | NonSuppressibleMetric(name: string)
    | MalformedBody(body: string)
    | ElidedDiagnostics(count: nat)

  /** What scanning one comment produced: the two are independent. */
  datatype MarkerScan = MarkerScan(suppression: Option<Suppression>, diagnostics: seq<Complaint>)

  const NOT_A_MARKER := MarkerScan(None, [])

  function Rejected(complaint: Complaint): (scan: MarkerScan)
  {
    MarkerScan(None, [complaint])
  }

  // ---------------------------------------------------------------- the metric list

  /** Most diagnostics on names that one marker gives before it only counts. */
  const MAX_MARKER_DIAGNOSTICS: nat := 8

  /** The names in the parts of a list: trimmed, blanks skipped. */
  function Names(parts: seq<string>): (names: seq<string>)
  {
    if parts == [] then []
    else
      var name := Trim(parts[|parts| - 1]);
      Names(parts[..|parts| - 1]) + if name == "" then [] else [name]
  }

  predicate Usable(name: string) {
    Named(name).Some? && Named(name).value != Tokens
  }

  /** The metrics that names silence. */
  function Silenced(names: seq<string>): (metrics: set<Metric>)
  {
    set m: Metric | m != Tokens && Name(m) in names
  }

  /** The unusable names, each where it comes first. */
  function FirstUnusable(names: seq<string>): (unusable: seq<string>)
  {
    if names == [] then []
    else
      var before, name := FirstUnusable(names[..|names| - 1]), names[|names| - 1];
      if Usable(name) || name in before then before else before + [name]
  }

  function Complain(name: string): (c: Complaint)
  {
    if Named(name) == Some(Tokens) then NonSuppressibleMetric(name) else UnknownMetric(name)
  }

  function ComplainAll(names: seq<string>): (cs: seq<Complaint>)
    ensures |cs| == |names| && forall i | 0 <= i < |names| :: cs[i] == Complain(names[i])
  {
    if names == [] then [] else ComplainAll(names[..|names| - 1]) + [Complain(names[|names| - 1])]
  }

  function Capped(unusable: seq<string>): (shown: seq<string>)
  {
    if |unusable| <= MAX_MARKER_DIAGNOSTICS then unusable else unusable[..MAX_MARKER_DIAGNOSTICS]
  }

  /** The first eight unusable names, and how many more there are. */
  function Diagnostics(unusable: seq<string>): (cs: seq<Complaint>)
  {
    ComplainAll(Capped(unusable))
    + if |unusable| > MAX_MARKER_DIAGNOSTICS then [ElidedDiagnostics(|unusable| - MAX_MARKER_DIAGNOSTICS)] else []
  }

  /** What a list silences, and what is said about the rest of it. */
  function MetricList(inside: string): (r: (set<Metric>, seq<Complaint>))
  {
    var names := Names(Split(inside, ','));
    (Silenced(names), Diagnostics(FirstUnusable(names)))
  }

  function Elements(s: seq<string>): (r: set<string>)
  {
    set x | x in s
  }

  /** The bookkeeping of the loop over a list, `seen` being the unusable names so far. */
  ghost predicate Tally(seen: seq<string>, reported: set<string>, unusable: nat, diagnostics: seq<Complaint>) {
    && reported == Elements(seen)
    && unusable == |seen|
    && diagnostics == ComplainAll(Capped(seen))
  }

  /** Report an unusable name, once, and no more than eight of them. */
  method Note(name: string, ghost seen: seq<string>, reported: set<string>, unusable: nat, diagnostics: seq<Complaint>)
    returns (reported': set<string>, unusable': nat, diagnostics': seq<Complaint>)
    requires Tally(seen, reported, unusable, diagnostics)
    ensures Tally(if name in seen then seen else seen + [name], reported', unusable', diagnostics')
  {
    reported', unusable', diagnostics' := reported, unusable, diagnostics;
    if name !in reported {
      reported' := reported + {name};
      assert Elements(seen + [name]) == Elements(seen) + {name};
      unusable' := unusable + 1;
      if |diagnostics| < MAX_MARKER_DIAGNOSTICS {
        diagnostics' := diagnostics + [Complain(name)];
        assert (seen + [name])[..|seen|] == seen;
      } else {
        assert Capped(seen + [name]) == Capped(seen);
      }
    }
  }

  /** Take one name: a metric to silence, or a name to report. */
  method Take(name: string, ghost names: seq<string>,
              metrics: set<Metric>, reported: set<string>, unusable: nat, diagnostics: seq<Complaint>)
    returns (metrics': set<Metric>, reported': set<string>, unusable': nat, diagnostics': seq<Complaint>)
    requires metrics == Silenced(names) && Tally(FirstUnusable(names), reported, unusable, diagnostics)
    ensures metrics' == Silenced(names + [name])
    ensures Tally(FirstUnusable(names + [name]), reported', unusable', diagnostics')
  {
    metrics', reported', unusable', diagnostics' := metrics, reported, unusable, diagnostics;
    SilencedSnoc(names, name);
    FirstUnusableSnoc(names, name);
    match Named(name) {
      case Some(metric) =>
        if metric != Tokens {
          metrics' := metrics + {metric};
          return;
        }
      case None =>
    }
    reported', unusable', diagnostics' := Note(name, FirstUnusable(names), reported, unusable, diagnostics);
  }

  /** `parse_metric_list`. */
  method ParseMetricList(inside: string) returns (metrics: set<Metric>, diagnostics: seq<Complaint>)
    ensures (metrics, diagnostics) == MetricList(inside)
  {
    metrics, diagnostics := {}, [];
    var reported: set<string> := {};
    var unusable: nat := 0;
    var tokens := Split(inside, ',');
    ghost var names := [];
    for i := 0 to |tokens|
      invariant names == Names(tokens[..i])
      invariant metrics == Silenced(names)
      invariant Tally(FirstUnusable(names), reported, unusable, diagnostics)
    {
      assert tokens[..i + 1][..i] == tokens[..i];
      var name := Trim(tokens[i]);
      if name != "" {
        metrics, reported, unusable, diagnostics := Take(name, names, metrics, reported, unusable, diagnostics);
        names := names + [name];
      }
    }
    assert tokens[..|tokens|] == tokens;
    diagnostics := Elide(FirstUnusable(names), reported, unusable, diagnostics);
  }

  /** The unusable names past the cap, as a count. */
  method Elide(ghost seen: seq<string>, ghost reported: set<string>, unusable: nat, shown: seq<Complaint>)
    returns (diagnostics: seq<Complaint>)
    requires Tally(seen, reported, unusable, shown)
    ensures diagnostics == Diagnostics(seen)
  {
    var elided := if unusable > MAX_MARKER_DIAGNOSTICS then unusable - MAX_MARKER_DIAGNOSTICS else 0;
    diagnostics := shown;
    if elided > 0 {
      diagnostics := diagnostics + [ElidedDiagnostics(elided)];
    }
  }

  lemma FirstUnusableSnoc(names: seq<string>, name: string)
    ensures var seen := FirstUnusable(names);
            FirstUnusable(names + [name]) == if Usable(name) || name in seen then seen else seen + [name]
  {
    assert (names + [name])[..|names|] == names;
  }

  lemma SilencedSnoc(names: seq<string>, name: string)
    ensures Silenced(names + [name]) == Silenced(names) + if Usable(name) then {Named(name).value} else {}
  {
    forall m: Metric ensures Name(m) == name <==> Named(name) == Some(m) {
      NamedIff(name, m);
    }
  }

  // ---------------------------------------------------------------- what the list promises

  /** Some part is `name` but for the white space around it. */
  predicate HasPart(parts: seq<string>, name: string) {
    exists i :: 0 <= i < |parts| && Trim(parts[i]) == name
  }

  lemma {:induction false} NamesIff(parts: seq<string>, name: string)
    ensures name in Names(parts) <==> name != "" && HasPart(parts, name)
  {
    if parts == [] {
    } else {
      var rest, last := parts[..|parts| - 1], parts[|parts| - 1];
      NamesIff(rest, name);
      assert name in Names(parts) <==> name in Names(rest) || (name != "" && name == Trim(last));
      assert forall i | 0 <= i < |rest| :: rest[i] == parts[i];
    }
  }

  /** A metric is silenced exactly when some part of the list spells it; `tokens` never is. */
  lemma ListIsExact(inside: string, m: Metric)
    ensures m in MetricList(inside).0
       <==> m != Tokens && HasPart(Split(inside, ','), Name(m))
  {
    var parts := Split(inside, ',');
    NamesIff(parts, Name(m));
    NameIsPlain(m);
    assert MetricList(inside).0 == Silenced(Names(parts));
    assert m in Silenced(Names(parts)) <==> m != Tokens && Name(m) in Names(parts);
  }

  /** The first place `x` has in `s`. */
  function FirstIndex(s: seq<string>, x: string): (i: nat)
    requires x in s
    ensures i < |s| && s[i] == x && x !in s[..i]
  {
    if s[0] == x then 0 else 1 + FirstIndex(s[1..], x)
  }

  lemma {:induction false} FirstIndexSnoc(s: seq<string>, y: string, x: string)
    requires x in s + [y]
    ensures FirstIndex(s + [y], x) == if x in s then FirstIndex(s, x) else |s|
  {
    if s != [] && s[0] != x {
      assert (s + [y])[1..] == s[1..] + [y];
      FirstIndexSnoc(s[1..], y, x);
    }
  }

  ghost predicate InOrderOfAppearance(names: seq<string>, xs: seq<string>)
    requires forall x | x in xs :: x in names
  {
    forall i, j | 0 <= i < j < |xs| :: FirstIndex(names, xs[i]) < FirstIndex(names, xs[j])
  }

  /** Exactly the distinct unusable names, in the order they first appear. */
  lemma {:induction false} FirstUnusableSpec(names: seq<string>)
    ensures forall x :: x in FirstUnusable(names) <==> x in names && !Usable(x)
    ensures InOrderOfAppearance(names, FirstUnusable(names))
  {
    if names == [] {
    } else {
      var rest, name := names[..|names| - 1], names[|names| - 1];
      FirstUnusableSpec(rest);
      assert names == rest + [name];
      var before, after := FirstUnusable(rest), FirstUnusable(names);
      forall x | x in after ensures FirstIndex(names, x) == if x in rest then FirstIndex(rest, x) else |rest| {
        FirstIndexSnoc(rest, name, x);
      }
      forall i, j | 0 <= i < j < |after| ensures FirstIndex(names, after[i]) < FirstIndex(names, after[j]) {
        assert after[i] in after && after[j] in after;
        assert after[i] in before;
      }
    }
  }

  /** What is said of an unusable name: `tokens` is a metric, but none that can be silenced; any other is unknown. */
  ghost predicate IsToldOf(c: Complaint, name: string) {
    c == if name == "tokens" then NonSuppressibleMetric(name) else UnknownMetric(name)
  }

  /** At most eight names and one count, and names told plus names counted is all of them. */
  ghost predicate TellsOf(cs: seq<Complaint>, unusable: seq<string>) {
    if |unusable| <= 8 then
      |cs| == |unusable| && forall i | 0 <= i < |cs| :: IsToldOf(cs[i], unusable[i])
    else
      |cs| == 9 && cs[8] == ElidedDiagnostics(|unusable| - 8) && forall i | 0 <= i < 8 :: IsToldOf(cs[i], unusable[i])
  }

  lemma DiagnosticsTell(unusable: seq<string>)
    ensures TellsOf(Diagnostics(unusable), unusable)
  {
    forall name ensures IsToldOf(Complain(name), name) {
      NamedIff(name, Tokens);
    }
  }

  /** Bounded whatever the list. */
  lemma DiagnosticsAreBounded(inside: string)
    ensures TellsOf(MetricList(inside).1, FirstUnusable(Names(Split(inside, ','))))
  {
    DiagnosticsTell(FirstUnusable(Names(Split(inside, ','))));
  }

  lemma UsableIff(name: string)
    ensures Usable(name) <==> exists m: Metric :: m != Tokens && name == Name(m)
  {
    if Usable(name) {
      NamedIff(name, Named(name).value);
    }
    if m: Metric :| m != Tokens && name == Name(m) {
      NamedIff(name, m);
    }
  }

  /** A name of the list draws a complaint, or is counted, iff no metric but `tokens` is spelled that way. */
  lemma UnusableIff(inside: string, name: string)
    ensures name in FirstUnusable(Names(Split(inside, ',')))
       <==> name != "" && HasPart(Split(inside, ','), name) && !(exists m: Metric :: m != Tokens && name == Name(m))
  {
    FirstUnusableSpec(Names(Split(inside, ',')));
    NamesIff(Split(inside, ','), name);
    UsableIff(name);
  }

  predicate AllBlank(parts: seq<string>) {
    forall i | 0 <= i < |parts| :: Trim(parts[i]) == ""
  }

  lemma {:induction false} NamelessIff(parts: seq<string>)
    ensures Names(parts) == [] <==> AllBlank(parts)
  {
    if parts == [] {
    } else {
      var rest := parts[..|parts| - 1];
      NamelessIff(rest);
      assert forall i | 0 <= i < |rest| :: rest[i] == parts[i];
      assert AllBlank(parts) <==> AllBlank(rest) && Trim(parts[|parts| - 1]) == "";
    }
  }

  /** A list silently does nothing exactly when it names nothing at all: then it is no complaint either. */
  lemma SilentIffBlank(inside: string)
    ensures MetricList(inside) == ({}, []) <==> AllBlank(Split(inside, ','))
  {
    NamelessIff(Split(inside, ','));
    NamesSpeak(Names(Split(inside, ',')));
  }

  lemma NamesSpeak(names: seq<string>)
    ensures Silenced(names) == {} && Diagnostics(FirstUnusable(names)) == [] <==> names == []
  {
    FirstUnusableSpec(names);
    if names != [] {
      var name := names[0];
      if Usable(name) {
        NamedIff(name, Named(name).value);
        assert Named(name).value in Silenced(names);
      } else {
        assert name in FirstUnusable(names);
        assert Diagnostics(FirstUnusable(names)) != [];
      }
    }
  }

  /** The text of a list, from its parts; every text is that of its parts. */
  function ListOf(parts: seq<string>): (inside: string)
  {
    if parts == [] then "" else Join(parts, ',')
  }

  predicate AreParts(parts: seq<string>) {
    forall i | 0 <= i < |parts| :: Free(parts[i], ',')
  }

  lemma EveryTextIsAList(inside: string)
    ensures AreParts(Split(inside, ',')) && ListOf(Split(inside, ',')) == inside
  {
    SplitJoins(inside, ',');
  }

  lemma NamesOfList(parts: seq<string>)
    requires AreParts(parts)
    ensures Names(Split(ListOf(parts), ',')) == Names(parts)
  {
    if parts == [] {
      assert Split("", ',') == [""] && [""][..0] == [];
      assert Trim("") == "";
    } else {
      SplitReadsBack(parts, ',');
    }
  }

  lemma NamesOfOne(part: string)
    ensures Names([part]) == if Trim(part) == "" then [] else [Trim(part)]
  {
    assert [part][..0] == [];
  }

  /** A name that cannot be honoured changes nothing about what is silenced: first, last, in between or alone. */
  lemma UnusableNameSilencesNothing(x: seq<string>, name: string, y: seq<string>)
    requires AreParts(x) && Free(name, ',') && AreParts(y) && !Usable(Trim(name))
    ensures MetricList(ListOf(x + [name] + y)).0 == MetricList(ListOf(x + y)).0
  {
    NamesOfList(x + [name] + y);
    NamesOfList(x + y);
    NamesConcat(x + [name], y);
    NamesConcat(x, [name]);
    NamesConcat(x, y);
    NamesOfOne(name);
    if Trim(name) == "" {
      assert Names(x) + [] == Names(x);
    } else {
      SilencedSkips(Names(x), Trim(name), Names(y));
    }
  }

  lemma MorePartsSilenceMore(x: seq<string>, part: string, y: seq<string>)
    requires AreParts(x) && Free(part, ',') && AreParts(y)
    ensures MetricList(ListOf(x + y)).0 <= MetricList(ListOf(x + [part] + y)).0
  {
    NamesOfList(x + [part] + y);
    NamesOfList(x + y);
    NamesConcat(x + [part], y);
    NamesConcat(x, [part]);
    NamesConcat(x, y);
  }

  /** Mistyping a name, anywhere in a list, can only narrow what the list silences. */
  lemma TypoNarrows(x: seq<string>, meant: string, typo: string, y: seq<string>)
    requires AreParts(x) && Free(meant, ',') && Free(typo, ',') && AreParts(y) && !Usable(Trim(typo))
    ensures MetricList(ListOf(x + [typo] + y)).0 <= MetricList(ListOf(x + [meant] + y)).0
  {
    UnusableNameSilencesNothing(x, typo, y);
    MorePartsSilenceMore(x, meant, y);
  }

  lemma SilencedSkips(xs: seq<string>, name: string, ys: seq<string>)
    requires !Usable(name)
    ensures Silenced(xs + [name] + ys) == Silenced(xs + ys)
  {
    forall m: Metric | m != Tokens ensures Name(m) != name {
      NamedIff(name, m);
    }
  }

  lemma {:induction false} NamesConcat(a: seq<string>, b: seq<string>)
    ensures Names(a + b) == Names(a) + Names(b)
  {
    if b == [] {
      assert a + b == a;
    } else {
      NamesConcat(a, b[..|b| - 1]);
      assert (a + b)[..|a + b| - 1] == a + b[..|b| - 1];
    }
  }

  // ---------------------------------------------------------------- the native dialect

  predicate EndsVerb(c: char) {
    !('a' <= c <= 'z' || 'A' <= c <= 'Z' || c == '-')
  }

  predicate IsClose(c: char) {
    c == ')'
  }

  /** What follows the verb: nothing, or a list in parentheses and then anything. */
  function ParseScope(kind: Kind, after: string, body: string): (scan: MarkerScan)
  {
    if after == "" then MarkerScan(Some(Suppression(kind, All, Native)), [])
    else if after[0] == '(' then
      var list := after[1..];
      var close := FindFirst(IsClose, list);
      if close == |list| then Rejected(MalformedBody(body))
      else
        var (metrics, diagnostics) := MetricList(list[..close]);
        MarkerScan(Some(Suppression(kind, Only(metrics), Native)), diagnostics)
    else Rejected(MalformedBody(body))
  }

  /** `parse_native`. */
  function ParseNative(body: string): (scan: MarkerScan)
  {
    if !("bca:" <= body) then NOT_A_MARKER
    else
      var rest := TrimStart(IsWhitespace, body[4..]);
      if rest == "" then NOT_A_MARKER
      else
        var verbEnd := FindFirst(EndsVerb, rest);
        var verb, after := rest[..verbEnd], TrimStart(IsWhitespace, rest[verbEnd..]);
        if verb == "suppress" then ParseScope(OnFunction, after, body)
        else if verb == "suppress-file" then ParseScope(OnFile, after, body)
        else if verb == "" then Rejected(MalformedBody(body))
        else Rejected(UnknownVerb(verb))
  }

  // ---------------------------------------------------------------- the Lizard dialect

  /** `parse_lizard`. */
  function ParseLizard(s: string): (r: Option<Suppression>)
  {
    if !("#" <= s) then None
    else
      var word := TrimStart(IsWhitespace, s[1..]);
      if !("lizard" <= word) then None
      else
        var rest := Trim(word[6..]);
        if rest == "forgives" then Some(Suppression(OnFunction, All, Lizard))
        else if rest == "forgive global" then Some(Suppression(OnFile, All, Lizard))
        else None
  }

  // ---------------------------------------------------------------- the comment around it

  predicate IsOpener(c: char) {
    c == '/' || c == '*' || c == '!' || c == ';' || c == '-' || IsWhitespace(c)
  }

  predicate IsCloser(c: char) {
    c == '*' || c == '/' || IsWhitespace(c)
  }

  predicate IsHash(c: char) {
    c == '#' || IsWhitespace(c)
  }

  function StripBlockDelims(s: string): (r: string)
  {
    StripSuffix(StripPrefix(s, "/*"), "*/")
  }

  /** The comment without its opener, except for `#`, and without its closer. */
  function NoOpener(comment: string): (r: string)
  {
    var trimmed := Trim(StripBlockDelims(Trim(comment)));
    Trim(TrimEnd(IsCloser, TrimStart(IsOpener, trimmed)))
  }

  /** One `#` may be the language's own opener; a `#l` is taken as it stands. */
  function LizardCandidate(noOpener: string): (r: string)
  {
    if "#l" <= noOpener then noOpener
    else if "#" <= noOpener then TrimStart(IsWhitespace, noOpener[1..])
    else noOpener
  }

  function NativeBody(noOpener: string): (r: string)
  {
    Trim(TrimStart(IsHash, noOpener))
  }

  /** `parse_marker`. */
  function ParseMarker(comment: string): (scan: MarkerScan)
  {
    if !Contains(comment, "bca:") && !Contains(comment, "lizard") then NOT_A_MARKER
    else
      var noOpener := NoOpener(comment);
      var lizard := ParseLizard(LizardCandidate(noOpener));
      if lizard.Some? then MarkerScan(lizard, []) else ParseNative(NativeBody(noOpener))
  }
}
