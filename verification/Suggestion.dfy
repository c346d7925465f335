/** "Did you mean?" candidates: the scoring of names, and which of them are suggested. */
module Suggestion {
  import opened Wrappers
  import opened ByteStrings
  import opened EditDistance
  import opened Sequences
  import opened Sorting

  const MAX_SUGGESTIONS := 3
  const MAX_EDIT_DISTANCE := 2
  const MIN_PREFIX_LEN := 3
  const USIZE_MAX: int := 0xFFFF_FFFF_FFFF_FFFF

  // ---------------------------------------------------------------- scores

  /** Lower wins, rank first. */
  datatype Score = Score(rank: nat, tie: int)

  predicate ScoreLe(x: Score, y: Score) {
    x.rank < y.rank || (x.rank == y.rank && x.tie <= y.tie)
  }

  function Shared(a: Bytes, b: Bytes): (n: nat)
    ensures n <= |a| && n <= |b| && a[..n] == b[..n]
    ensures n < |a| && n < |b| ==> a[n] != b[n]
  {
    if a == [] || b == [] || a[0] != b[0] then 0 else 1 + Shared(a[1..], b[1..])
  }

  function Cutoff(input: Bytes, name: Bytes): (n: nat)
  {
    Min(MAX_EDIT_DISTANCE, (if |input| >= |name| then |input| else |name|) / 3)
  }

  /** The name is a likely typo of the input. */
  predicate IsTypo(input: Bytes, name: Bytes) {
    Cutoff(input, name) > 0 && Distance(input, name) <= Cutoff(input, name)
  }

  /** The name is long enough in common with a long enough input. */
  predicate IsPrefixHit(input: Bytes, name: Bytes) {
    |input| >= MIN_PREFIX_LEN && Shared(input, name) >= MIN_PREFIX_LEN
  }

  function ScoreOf(input: Bytes, name: Bytes): (r: Option<Score>)
    ensures r.Some? <==> IsTypo(input, name) || IsPrefixHit(input, name)
  {
    if IsTypo(input, name) then Some(Score(0, Distance(input, name)))
    else if !IsPrefixHit(input, name) then None
    else Some(Score(if input <= name then 1 else 2, USIZE_MAX - Shared(input, name)))
  }

  method ComputeScore(input: Bytes, name: Bytes) returns (r: Option<Score>)
    ensures r == ScoreOf(input, name)
  {
    var cutoff := Cutoff(input, name);
    if cutoff > 0 {
      var d := EditDistanceWithCutoff(input, name, cutoff);
      if d <= cutoff {
        return Some(Score(0, d));
      }
    }
    if |input| < MIN_PREFIX_LEN {
      return None;
    }
    var shared := 0;
    while shared < |input| && shared < |name| && input[shared] == name[shared]
      invariant shared <= |input| && shared <= |name| && input[..shared] == name[..shared]
    {
      shared := shared + 1;
    }
    SharedIs(input, name, shared);
    if shared < MIN_PREFIX_LEN {
      return None;
    }
    var rank := (if input <= name then 0 else 1) + 1;
    return Some(Score(rank, USIZE_MAX - shared));
  }

  lemma {:induction false} SharedIs(a: Bytes, b: Bytes, n: nat)
    requires n <= |a| && n <= |b| && a[..n] == b[..n] && (n < |a| && n < |b| ==> a[n] != b[n])
    ensures n == Shared(a, b)
  {
    var m := Shared(a, b);
    assert forall k | 0 <= k < n :: a[k] == a[..n][k] == b[k];
    assert forall k | 0 <= k < m :: a[k] == a[..m][k] == b[k];
  }

  // ---------------------------------------------------------------- selection

  type Entry = (Score, Bytes)

  /** By score, then by name. */
  predicate EntryLe(x: Entry, y: Entry) {
    ScoreLe(x.0, y.0) && (x.0 == y.0 ==> LexLe(x.1, y.1))
  }

  function Scored(input: Bytes, candidates: seq<Bytes>): (r: seq<Entry>)
  {
    if candidates == [] then []
    else
      Entered(candidates[0], ScoreOf(input, candidates[0])) + Scored(input, candidates[1..])
  }

  function Entered(name: Bytes, score: Option<Score>): (r: seq<Entry>)
  {
    match score case Some(s) => [(s, name)] case None => []
  }

  /** The candidates that attain a score, as often as they occur. */
  function Attaining(input: Bytes, candidates: seq<Bytes>, best: Score): (r: seq<Bytes>)
  {
    if candidates == [] then []
    else (if ScoreOf(input, candidates[0]) == Some(best) then [candidates[0]] else [])
         + Attaining(input, candidates[1..], best)
  }

  ghost predicate IsBest(input: Bytes, candidates: seq<Bytes>, best: Score) {
    && (exists name | name in candidates :: ScoreOf(input, name) == Some(best))
    && forall name | name in candidates && ScoreOf(input, name).Some? :: ScoreLe(best, ScoreOf(input, name).value)
  }

  function TakeWhile(entries: seq<Entry>, best: Score): (r: seq<Entry>)
  {
    if entries != [] && entries[0].0 == best then [entries[0]] + TakeWhile(entries[1..], best) else []
  }

  function FirstFew<T>(s: seq<T>): (r: seq<T>)
  {
    if |s| <= MAX_SUGGESTIONS then s else s[..MAX_SUGGESTIONS]
  }

  function Names(entries: seq<Entry>): (r: seq<Bytes>)
  {
    Map((e: Entry) => e.1, entries)
  }

  function WithScore(entries: seq<Entry>, best: Score): (r: seq<Entry>)
    ensures forall e | e in r :: e in entries && e.0 == best
  {
    if entries == [] then []
    else (if entries[0].0 == best then [entries[0]] else []) + WithScore(entries[1..], best)
  }

  lemma EntryOrder()
    ensures TotalPreorder(EntryLe) && Antisymmetric(EntryLe)
  {
    LexIsTotalOrder();
  }

  lemma {:induction false} WithScoreCounts(entries: seq<Entry>, best: Score, e: Entry)
    ensures multiset(WithScore(entries, best))[e] == if e.0 == best then multiset(entries)[e] else 0
  {
    if entries == [] {
    } else {
      WithScoreCounts(entries[1..], best, e);
      assert entries == [entries[0]] + entries[1..];
    }
  }

  lemma {:induction false} WithScorePermutation(a: seq<Entry>, b: seq<Entry>, best: Score)
    requires multiset(a) == multiset(b)
    ensures multiset(WithScore(a, best)) == multiset(WithScore(b, best))
  {
    forall e ensures multiset(WithScore(a, best))[e] == multiset(WithScore(b, best))[e] {
      WithScoreCounts(a, best, e);
      WithScoreCounts(b, best, e);
    }
  }

  lemma FirstIsWorse(entries: seq<Entry>, best: Score)
    requires entries != [] && entries[0].0 != best && ScoreLe(best, entries[0].0) && Sorted(EntryLe, entries)
    ensures forall e | e in entries :: e.0 != best
  {
    forall k | 0 <= k < |entries| ensures entries[k].0 != best {
      assert k > 0 ==> EntryLe(entries[0], entries[k]);
    }
  }

  /** Among sorted entries none of which beats `best`, those with that score come first. */
  lemma {:induction false} BestComeFirst(entries: seq<Entry>, best: Score)
    requires Sorted(EntryLe, entries) && forall e | e in entries :: ScoreLe(best, e.0)
    ensures TakeWhile(entries, best) == WithScore(entries, best)
    ensures Sorted(EntryLe, TakeWhile(entries, best))
  {
    if entries == [] {
    } else {
      assert forall e | e in entries[1..] :: e in entries;
      if entries[0].0 == best {
        BestComeFirst(entries[1..], best);
        var rest := TakeWhile(entries[1..], best);
        assert forall e | e in rest :: e in entries[1..];
        forall j | 0 <= j < |rest| ensures EntryLe(entries[0], rest[j]) {
          assert rest[j] in entries[1..];
        }
      } else {
        FirstIsWorse(entries, best);
        NoneWithScore(entries, best);
      }
    }
  }

  lemma {:induction false} NoneWithScore(entries: seq<Entry>, best: Score)
    requires forall e | e in entries :: e.0 != best
    ensures WithScore(entries, best) == []
  {
    if entries == [] {
    } else {
      assert entries[0] in entries;
      assert forall e | e in entries[1..] :: e in entries;
      NoneWithScore(entries[1..], best);
    }
  }

  lemma {:induction false} ScoredHolds(input: Bytes, candidates: seq<Bytes>)
    ensures forall e | e in Scored(input, candidates) :: e.1 in candidates && ScoreOf(input, e.1) == Some(e.0)
    ensures forall name | name in candidates && ScoreOf(input, name).Some? ::
              (ScoreOf(input, name).value, name) in Scored(input, candidates)
  {
    if candidates == [] {
    } else {
      ScoredHolds(input, candidates[1..]);
      assert candidates == [candidates[0]] + candidates[1..];
    }
  }

  lemma {:induction false} NamesOfAttaining(input: Bytes, candidates: seq<Bytes>, best: Score)
    ensures Names(WithScore(Scored(input, candidates), best)) == Attaining(input, candidates, best)
  {
    if candidates == [] {
    } else {
      NamesOfAttaining(input, candidates[1..], best);
      var rest := Scored(input, candidates[1..]);
      match ScoreOf(input, candidates[0]) {
        case None =>
          assert Scored(input, candidates) == rest;
        case Some(score) =>
          var entry := (score, candidates[0]);
          assert Scored(input, candidates) == [entry] + rest && ([entry] + rest)[1..] == rest;
          MapConcat((e: Entry) => e.1, [entry], WithScore(rest, best));
      }
    }
  }

  /** Names of entries that share a score are in name order when the entries are in order. */
  lemma NamesInOrder(entries: seq<Entry>, best: Score)
    requires Sorted(EntryLe, entries) && forall e | e in entries :: e.0 == best
    ensures Sorted(LexLe, Names(entries))
  {
    forall i, j | 0 <= i < j < |entries| ensures LexLe(Names(entries)[i], Names(entries)[j]) {
      assert entries[i] in entries && entries[j] in entries;
    }
  }

  /** The suggestions, from a best score: the first few, by name, of the candidates that attain it. */
  function Suggested(input: Bytes, candidates: seq<Bytes>, best: Score): (r: seq<Bytes>)
  {
    FirstFew(Sort(LexLe, Attaining(input, candidates, best)))
  }

  lemma {:induction false} SelectionIsSuggested(input: Bytes, candidates: seq<Bytes>, entries: seq<Entry>)
    requires entries == Sort(EntryLe, Scored(input, candidates)) && entries != []
    ensures IsBest(input, candidates, entries[0].0)
    ensures Names(TakeWhile(entries, entries[0].0)) == Sort(LexLe, Attaining(input, candidates, entries[0].0))
  {
    var scored, best := Scored(input, candidates), entries[0].0;
    EntryOrder();
    SortSorts(EntryLe, scored);
    ScoredHolds(input, candidates);
    assert forall e :: e in entries <==> e in multiset(entries);
    assert forall e :: e in entries <==> e in scored;
    forall e | e in entries ensures ScoreLe(best, e.0) {
      var k :| 0 <= k < |entries| && entries[k] == e;
      assert k > 0 ==> EntryLe(entries[0], entries[k]);
    }
    BestComeFirst(entries, best);
    WithScorePermutation(entries, scored, best);
    var chosen := TakeWhile(entries, best);
    NamesInOrder(chosen, best);
    MapPermutation((e: Entry) => e.1, chosen, WithScore(scored, best));
    NamesOfAttaining(input, candidates, best);
    LexIsTotalOrder();
    var attaining := Attaining(input, candidates, best);
    SortSorts(LexLe, attaining);
    SortedUnique(LexLe, Names(chosen), Sort(LexLe, attaining));
    assert entries[0] in entries;
    assert ScoreOf(input, entries[0].1) == Some(best) && entries[0].1 in candidates;
  }

  method ScoreAll(input: Bytes, candidates: seq<Bytes>) returns (scored: seq<Entry>)
    ensures scored == Scored(input, candidates)
  {
    scored := [];
    assert candidates[0..] == candidates;
    for i := 0 to |candidates|
      invariant scored + Scored(input, candidates[i..]) == Scored(input, candidates)
    {
      ghost var before := scored;
      var score := ComputeScore(input, candidates[i]);
      if score.Some? {
        scored := scored + [(score.value, candidates[i])];
      }
      assert scored == before + Entered(candidates[i], score);
      ScoredStep(input, candidates, i, before);
    }
  }

  lemma {:induction false} ScoredStep(input: Bytes, candidates: seq<Bytes>, i: nat, scored: seq<Entry>)
    requires i < |candidates|
    ensures scored + Scored(input, candidates[i..])
         == scored + Entered(candidates[i], ScoreOf(input, candidates[i])) + Scored(input, candidates[i + 1..])
  {
    assert candidates[i..][1..] == candidates[i + 1..];
    Regroup(scored, Entered(candidates[i], ScoreOf(input, candidates[i])), Scored(input, candidates[i + 1..]));
  }

  lemma {:induction false} NoneScored(input: Bytes, candidates: seq<Bytes>)
    ensures Scored(input, candidates) == [] <==> forall name | name in candidates :: ScoreOf(input, name).None?
  {
    ScoredHolds(input, candidates);
    if Scored(input, candidates) != [] {
      var e := Scored(input, candidates)[0];
      assert e in Scored(input, candidates);
    }
  }

  lemma SortIsEmpty(entries: seq<Entry>)
    ensures Sort(EntryLe, entries) == [] <==> entries == []
  {
    EntryOrder();
    SortSorts(EntryLe, entries);
    assert |multiset(entries)| == |entries| && |multiset(Sort(EntryLe, entries))| == |Sort(EntryLe, entries)|;
  }

  lemma FirstFewNames(entries: seq<Entry>)
    ensures Names(FirstFew(entries)) == FirstFew(Names(entries))
  {
  }

  // ---------------------------------------------------------------- what is suggested

  /** At most one edit in three bytes of the longer of the two, and at most two edits. */
  ghost predicate LooksLike(input: Bytes, name: Bytes) {
    var longer := if |input| >= |name| then |input| else |name|;
    longer >= 3 && Distance(input, name) <= if longer >= 6 then 2 else 1
  }

  /** The same first three bytes. */
  ghost predicate StartsAlike(input: Bytes, name: Bytes) {
    |input| >= 3 && |name| >= 3 && input[..3] == name[..3]
  }

  lemma TypoIff(input: Bytes, name: Bytes)
    ensures IsTypo(input, name) <==> LooksLike(input, name)
  {
  }

  lemma {:induction false} SharedAtLeast(a: Bytes, b: Bytes, k: nat)
    ensures Shared(a, b) >= k <==> k <= |a| && k <= |b| && a[..k] == b[..k]
  {
    if k > 0 && a != [] && b != [] {
      SharedAtLeast(a[1..], b[1..], k - 1);
      if k <= |a| && k <= |b| {
        assert a[..k] == [a[0]] + a[1..][..k - 1] && b[..k] == [b[0]] + b[1..][..k - 1];
      }
    }
  }

  lemma PrefixHitIff(input: Bytes, name: Bytes)
    ensures IsPrefixHit(input, name) <==> StartsAlike(input, name)
  {
    SharedAtLeast(input, name, 3);
  }

  /**
   A candidate is as good as another when it loses none of the contests: being a near miss, and nearer; else
   beginning with the whole input; else sharing more of its beginning.
   */
  ghost predicate AsGood(input: Bytes, name: Bytes, other: Bytes) {
    && (LooksLike(input, other) ==> LooksLike(input, name) && Distance(input, name) <= Distance(input, other))
    && (StartsAlike(input, other) && !LooksLike(input, name) ==>
          (input <= other ==> input <= name) && (!(input <= name) ==> Shared(input, name) >= Shared(input, other)))
  }

  ghost predicate IsCandidate(input: Bytes, name: Bytes) {
    LooksLike(input, name) || StartsAlike(input, name)
  }

  lemma ScoresIff(input: Bytes, name: Bytes)
    ensures ScoreOf(input, name).Some? <==> IsCandidate(input, name)
  {
    TypoIff(input, name);
    PrefixHitIff(input, name);
  }

  lemma WholeInputShared(input: Bytes, name: Bytes)
    requires input <= name
    ensures Shared(input, name) == |input|
  {
    SharedIs(input, name, |input|);
  }

  lemma AsGoodIff(input: Bytes, name: Bytes, other: Bytes)
    requires ScoreOf(input, name).Some?
    ensures AsGood(input, name, other) <==>
            (ScoreOf(input, other).Some? ==> ScoreLe(ScoreOf(input, name).value, ScoreOf(input, other).value))
  {
    TypoIff(input, name);
    TypoIff(input, other);
    PrefixHitIff(input, name);
    PrefixHitIff(input, other);
    if input <= name {
      WholeInputShared(input, name);
    }
    if input <= other {
      WholeInputShared(input, other);
    }
  }

  /** As good as every candidate. */
  ghost predicate IsBestName(input: Bytes, candidates: seq<Bytes>, name: Bytes) {
    name in candidates && IsCandidate(input, name) && forall other | other in candidates :: AsGood(input, name, other)
  }

  /**
   At most three of the best candidates, in name order; any best candidate that is left out comes, by name, after
   three that are not.
   */
  ghost predicate AreSuggestions(input: Bytes, candidates: seq<Bytes>, r: seq<Bytes>) {
    && |r| <= 3
    && (forall name | name in r :: IsBestName(input, candidates, name))
    && (forall i, j | 0 <= i < j < |r| :: Precedes(r[i], r[j]))
    && forall other | IsBestName(input, candidates, other) && other !in r :: |r| == 3 && Precedes(r[2], other)
  }

  lemma BestNameIff(input: Bytes, candidates: seq<Bytes>, best: Score, name: Bytes)
    requires IsBest(input, candidates, best)
    ensures IsBestName(input, candidates, name) <==> name in candidates && ScoreOf(input, name) == Some(best)
  {
    ScoresIff(input, name);
    if ScoreOf(input, name).Some? {
      forall other ensures AsGood(input, name, other) <==>
          (ScoreOf(input, other).Some? ==> ScoreLe(ScoreOf(input, name).value, ScoreOf(input, other).value)) {
        AsGoodIff(input, name, other);
      }
    }
  }

  lemma {:induction false} AttainingHolds(input: Bytes, candidates: seq<Bytes>, best: Score)
    ensures forall name :: name in Attaining(input, candidates, best) <==> name in candidates && ScoreOf(input, name) == Some(best)
  {
    if candidates == [] {
    } else {
      AttainingHolds(input, candidates[1..], best);
      assert forall name :: name in candidates <==> name == candidates[0] || name in candidates[1..];
    }
  }

  lemma FirstFewSorted(names: seq<Bytes>)
    requires Sorted(LexLe, names)
    ensures var r := FirstFew(names);
            && |r| <= 3 && (forall i, j | 0 <= i < j < |r| :: Precedes(r[i], r[j])) && (forall x | x in r :: x in names)
            && forall x | x in names && x !in r :: |r| == 3 && Precedes(r[2], x)
  {
    var r := FirstFew(names);
    forall i, j | 0 <= i < j < |names| ensures Precedes(names[i], names[j]) {
      LexIsPrecedes(names[i], names[j]);
    }
  }

  lemma SuggestedAre(input: Bytes, candidates: seq<Bytes>, best: Score)
    requires IsBest(input, candidates, best)
    ensures AreSuggestions(input, candidates, Suggested(input, candidates, best))
  {
    var attaining := Attaining(input, candidates, best);
    var names := Sort(LexLe, attaining);
    LexIsTotalOrder();
    SortSorts(LexLe, attaining);
    AttainingHolds(input, candidates, best);
    FirstFewSorted(names);
    forall name ensures name in names <==> IsBestName(input, candidates, name) {
      BestNameIff(input, candidates, best, name);
      assert name in names <==> name in multiset(names);
      assert name in attaining <==> name in multiset(attaining);
    }
  }

  /**
   The suggestions are the first three, in name order, of the candidates that attain the best score; there are
   none exactly when no candidate is a near miss or begins alike.
   */
  method ClosestNames(input: Bytes, candidates: seq<Bytes>) returns (r: seq<Bytes>)
    ensures r == [] <==> forall name | name in candidates :: !IsCandidate(input, name)
    ensures r != [] ==> exists best :: IsBest(input, candidates, best) && r == Suggested(input, candidates, best)
    ensures AreSuggestions(input, candidates, r)
  {
    var scored := ScoreAll(input, candidates);
    NoneScored(input, candidates);
    forall name ensures ScoreOf(input, name).Some? <==> IsCandidate(input, name) {
      ScoresIff(input, name);
    }
    SortIsEmpty(scored);
    scored := Sort(EntryLe, scored);
    if scored == [] {
      return [];
    }
    SelectionIsSuggested(input, candidates, scored);
    var best := scored[0].0;
    var tied := TakeWhile(scored, best);
    r := Names(FirstFew(tied));
    FirstFewNames(tied);
    SuggestedAre(input, candidates, best);
  }

  /**
   What a suggestion is worth against any other candidate: a typo hit beats every prefix hit and the
   nearest typo wins; then a name the input is a prefix of wins; then the longer shared prefix.
   */
  lemma SuggestionsOutrank(input: Bytes, candidates: seq<Bytes>, best: Score, name: Bytes, other: Bytes)
    requires IsBest(input, candidates, best) && name in Suggested(input, candidates, best)
    requires other in candidates
    ensures IsTypo(input, other) ==> IsTypo(input, name) && Distance(input, name) <= Distance(input, other)
    ensures IsPrefixHit(input, other) && !IsTypo(input, name) ==> (input <= other ==> input <= name)
    ensures IsPrefixHit(input, other) && !IsTypo(input, name) && !(input <= name) ==>
              Shared(input, name) >= Shared(input, other)
  {
    var attaining := Attaining(input, candidates, best);
    LexIsTotalOrder();
    SortSorts(LexLe, attaining);
    AttainingHolds(input, candidates, best);
    assert name in Sort(LexLe, attaining);
    assert name in multiset(Sort(LexLe, attaining));
    assert ScoreOf(input, name) == Some(best);
  }
}
