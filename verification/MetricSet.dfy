/** Sets of metrics as a bit field, and their closure under dependencies, circular ones too, by a worklist. */
module MetricSet {
  import opened BitFields
  import opened Metrics

  // ---------------------------------------------------------------- the bit field

  /** The fields in use: no bit but those of the thirteen metrics is ever set. */
  type Field = s: nat | s < 0x2000

  lemma ThirteenBits()
    ensures Pow2(13) == 0x2000
  {
  }

  /** `1 << (self as u32)`. */
  function Bit(m: Metric): (b: Field)
  {
    PowerGrows(Index(m), 13);
    ThirteenBits();
    Pow2(Index(m))
  }

  function Contains(s: Field, m: Metric): (r: bool)
    ensures r == HasBit(s, Index(m))
  {
    AndPowerIff(s, Index(m));
    And(s, Bit(m)) != 0
  }

  function Union(a: Field, b: Field): (r: Field)
  {
    ThirteenBits();
    OrFits(a, b, 13);
    Or(a, b)
  }

  /** `with`, and what `insert` does in place. */
  function With(s: Field, m: Metric): (r: Field)
  {
    Union(s, Bit(m))
  }

  /** The set a bit field stands for. */
  function Members(s: Field): (members: set<Metric>)
  {
    set m: Metric | Contains(s, m)
  }

  lemma EmptyMembers()
    ensures Members(0) == {}
  {
    forall m: Metric ensures !Contains(0, m) {
      ZeroHasNoBit(Index(m));
    }
  }

  lemma UnionMembers(a: Field, b: Field)
    ensures Members(Union(a, b)) == Members(a) + Members(b)
  {
    forall n: Metric ensures n in Members(Union(a, b)) <==> n in Members(a) + Members(b) {
      OrHasBit(a, b, Index(n));
    }
  }

  lemma BitMembers(m: Metric)
    ensures Members(Bit(m)) == {m}
  {
    forall n: Metric ensures n in Members(Bit(m)) <==> n == m {
      PowerHasOneBit(Index(m), Index(n));
      assert ALL[Index(m)] == m && ALL[Index(n)] == n;
    }
  }

  /** Inserting adds exactly the one metric. */
  lemma WithMembers(s: Field, m: Metric)
    ensures Members(With(s, m)) == Members(s) + {m}
  {
    UnionMembers(s, Bit(m));
    BitMembers(m);
  }

  /** A bit field is determined by the set it stands for. */
  lemma MembersDetermine(a: Field, b: Field)
    requires Members(a) == Members(b)
    ensures a == b
  {
    forall i | 0 <= i < 13 ensures HasBit(a, i) == HasBit(b, i) {
      var m := ALL[i];
      assert Index(m) == i;
      assert m in Members(a) <==> m in Members(b);
    }
    ThirteenBits();
    BitsDetermine(a, b, 13);
  }

  // ---------------------------------------------------------------- closure under dependencies

  ghost predicate Closed(deps: Metric -> seq<Metric>, s: set<Metric>) {
    forall m, d | m in s && d in deps(m) :: d in s
  }

  /** In every closed set that has all of `s`. */
  ghost predicate Forced(deps: Metric -> seq<Metric>, s: set<Metric>, m: Metric) {
    forall t: set<Metric> | s <= t && Closed(deps, t) :: m in t
  }

  ghost function Closure(deps: Metric -> seq<Metric>, s: set<Metric>): (c: set<Metric>)
  {
    set m: Metric | Forced(deps, s, m)
  }

  /** The closure is a closed superset. */
  lemma ClosureIsClosed(deps: Metric -> seq<Metric>, s: set<Metric>)
    ensures s <= Closure(deps, s) && Closed(deps, Closure(deps, s))
  {
    var c := Closure(deps, s);
    forall m, d | m in c && d in deps(m) ensures d in c {
      forall t: set<Metric> | s <= t && Closed(deps, t) ensures d in t {
        assert m in t;
      }
    }
  }

  /** And below every other one. */
  lemma ClosureIsLeast(deps: Metric -> seq<Metric>, s: set<Metric>, t: set<Metric>)
    requires s <= t && Closed(deps, t)
    ensures Closure(deps, s) <= t
  {
  }

  lemma ClosureIdempotent(deps: Metric -> seq<Metric>, s: set<Metric>)
    ensures Closure(deps, Closure(deps, s)) == Closure(deps, s)
  {
    ClosureIsClosed(deps, s);
    ClosureIsClosed(deps, Closure(deps, s));
    ClosureIsLeast(deps, Closure(deps, s), Closure(deps, s));
  }

  lemma ClosureMonotone(deps: Metric -> seq<Metric>, a: set<Metric>, b: set<Metric>)
    requires a <= b
    ensures Closure(deps, a) <= Closure(deps, b)
  {
    ClosureIsClosed(deps, b);
    ClosureIsLeast(deps, a, Closure(deps, b));
  }

  lemma UnionIsClosed(deps: Metric -> seq<Metric>, a: set<Metric>, b: set<Metric>)
    requires Closed(deps, a) && Closed(deps, b)
    ensures Closed(deps, a + b)
  {
  }

  /** Closing a union closes its parts. */
  lemma ClosureOfUnion(deps: Metric -> seq<Metric>, a: set<Metric>, b: set<Metric>)
    ensures Closure(deps, a + b) == Closure(deps, a) + Closure(deps, b)
  {
    ClosureIsClosed(deps, a);
    ClosureIsClosed(deps, b);
    UnionIsClosed(deps, Closure(deps, a), Closure(deps, b));
    ClosureIsLeast(deps, a + b, Closure(deps, a) + Closure(deps, b));
    ClosureMonotone(deps, a, a + b);
    ClosureMonotone(deps, b, a + b);
  }

  /** The dependencies in the table have none of their own: one step closes. */
  lemma TableClosesInOneStep(s: set<Metric>)
    ensures Closure(Dependencies, s) == s + set m, d | m in s && d in Dependencies(m) :: d
  {
    var c := s + set m, d | m in s && d in Dependencies(m) :: d;
    ClosureIsClosed(Dependencies, s);
    forall m, d | m in c && d in Dependencies(m) ensures d in c {
      assert Dependencies(Loc) == Dependencies(Cyclomatic) == Dependencies(Halstead) == Dependencies(Nom) == [];
    }
    ClosureIsLeast(Dependencies, s, c);
  }

  /** What selecting one metric brings along. */
  lemma SelectingOne(m: Metric)
    ensures Closure(Dependencies, {m}) ==
            if m == Mi then {Mi, Loc, Cyclomatic, Halstead}
            else if m == Wmc then {Wmc, Cyclomatic, Nom}
            else if m in {Cognitive, Nexits, Nargs} then {m, Nom}
            else {m}
  {
    TableClosesInOneStep({m});
  }

  // ---------------------------------------------------------------- the worklist

  /** Inside `goal`, and closed but for what is on the worklist. */
  ghost predicate Working(deps: Metric -> seq<Metric>, goal: set<Metric>, now: set<Metric>, worklist: seq<Metric>) {
    && now <= goal
    && (forall m | m in worklist :: m in now)
    && (forall m, d | m in now && m !in worklist && d in deps(m) :: d in now)
  }

  /** The same while `m`, off the worklist, has only its first `k` dependencies in. */
  ghost predicate WorkingOn(deps: Metric -> seq<Metric>, goal: set<Metric>, now: set<Metric>, worklist: seq<Metric>,
                            m: Metric, k: nat)
    requires k <= |deps(m)|
  {
    && now <= goal && m in now
    && (forall n | n in worklist :: n in now)
    && (forall n, d | n in now && n !in worklist && n != m && d in deps(n) :: d in now)
    && (forall i | 0 <= i < k :: deps(m)[i] in now)
  }

  /** Nothing was added, or something was: then the set has grown. */
  ghost predicate Grown(now: set<Metric>, pending: seq<Metric>, now': set<Metric>, worklist: seq<Metric>) {
    (now' == now && worklist == pending) || now < now'
  }

  const EVERY: set<Metric> := set m: Metric | true

  /** The metrics of a field, in declaration order. */
  method Selected(self: Field) returns (worklist: seq<Metric>)
    ensures forall m :: m in worklist <==> m in Members(self)
  {
    worklist := [];
    for i := 0 to |ALL|
      invariant forall m :: m in worklist <==> m in Members(self) && Index(m) < i
    {
      assert Index(ALL[i]) == i;
      if Contains(self, ALL[i]) {
        worklist := worklist + [ALL[i]];
      }
    }
  }

  /** One dependency: into the set and onto the worklist if it is missing. */
  method Add(dep: Metric, s: Field, pending: seq<Metric>) returns (s': Field, worklist: seq<Metric>)
    ensures Members(s') == Members(s) + {dep}
    ensures worklist == if dep in Members(s) then pending else pending + [dep]
  {
    s', worklist := s, pending;
    if !Contains(s, dep) {
      WithMembers(s, dep);
      s' := With(s, dep);
      worklist := pending + [dep];
    }
  }

  lemma AddKeeps(deps: Metric -> seq<Metric>, goal: set<Metric>, now: set<Metric>, worklist: seq<Metric>, m: Metric, k: nat)
    requires k < |deps(m)| && WorkingOn(deps, goal, now, worklist, m, k) && Closed(deps, goal)
    ensures var dep := deps(m)[k];
            WorkingOn(deps, goal, now + {dep}, if dep in now then worklist else worklist + [dep], m, k + 1)
  {
    assert deps(m)[k] in deps(m);
  }

  /** The dependencies of one metric. */
  method Require(deps: Metric -> seq<Metric>, m: Metric, s: Field, pending: seq<Metric>, ghost goal: set<Metric>)
    returns (s': Field, worklist: seq<Metric>)
    requires WorkingOn(deps, goal, Members(s), pending, m, 0) && Closed(deps, goal)
    ensures Working(deps, goal, Members(s'), worklist)
    ensures Grown(Members(s), pending, Members(s'), worklist) && Members(s) <= Members(s')
  {
    s', worklist := s, pending;
    ghost var before, now := Members(s), Members(s);
    for i := 0 to |deps(m)|
      invariant now == Members(s') && WorkingOn(deps, goal, now, worklist, m, i)
      invariant Grown(before, pending, now, worklist)
    {
      AddKeeps(deps, goal, now, worklist, m, i);
      s', worklist := Add(deps(m)[i], s', worklist);
      now := now + {deps(m)[i]};
    }
    RequireDone(deps, goal, now, worklist, m);
  }

  lemma RequireDone(deps: Metric -> seq<Metric>, goal: set<Metric>, now: set<Metric>, worklist: seq<Metric>, m: Metric)
    requires WorkingOn(deps, goal, now, worklist, m, |deps(m)|)
    ensures Working(deps, goal, now, worklist)
  {
  }

  lemma TakeFromWorklist(deps: Metric -> seq<Metric>, goal: set<Metric>, now: set<Metric>, pending: seq<Metric>, m: Metric)
    requires Working(deps, goal, now, pending + [m])
    ensures WorkingOn(deps, goal, now, pending, m, 0)
  {
    assert m in pending + [m];
    forall n | n in pending ensures n in now {
      assert n in pending + [m];
    }
  }

  /** One turn: a metric comes off the worklist, and what it depends on goes in. */
  method Turn(deps: Metric -> seq<Metric>, s: Field, waiting: seq<Metric>, ghost goal: set<Metric>)
    returns (s': Field, worklist: seq<Metric>)
    requires waiting != [] && Working(deps, goal, Members(s), waiting) && Closed(deps, goal)
    ensures Members(s) <= Members(s') && Working(deps, goal, Members(s'), worklist)
    ensures |EVERY - Members(s')| < |EVERY - Members(s)| || (Members(s') == Members(s) && |worklist| < |waiting|)
  {
    var m := waiting[|waiting| - 1];
    var pending := waiting[..|waiting| - 1];
    assert waiting == pending + [m];
    TakeFromWorklist(deps, goal, Members(s), pending, m);
    s', worklist := Require(deps, m, s, pending, goal);
    FewerLeft(Members(s), Members(s'));
  }

  /** The loop of `resolved`: it ends in a closed set, inside every closed `goal` that holds the start. */
  method CloseBelow(deps: Metric -> seq<Metric>, self: Field, ghost goal: set<Metric>) returns (r: Field)
    requires Closed(deps, goal) && Members(self) <= goal
    ensures Members(self) <= Members(r) <= goal && Closed(deps, Members(r))
  {
    r := self;
    var worklist := Selected(self);
    while worklist != []
      invariant Members(self) <= Members(r) && Working(deps, goal, Members(r), worklist)
      decreases |EVERY - Members(r)|, |worklist|
    {
      r, worklist := Turn(deps, r, worklist, goal);
    }
  }

  /** `resolved`: for any dependencies, circular ones too, the least closed superset. */
  method Resolved(deps: Metric -> seq<Metric>, self: Field) returns (r: Field)
    ensures Members(r) == Closure(deps, Members(self))
  {
    ClosureIsClosed(deps, Members(self));
    r := CloseBelow(deps, self, Closure(deps, Members(self)));
    ClosureIsLeast(deps, Members(self), Members(r));
  }

  lemma FewerLeft(a: set<Metric>, b: set<Metric>)
    ensures a < b ==> |EVERY - b| < |EVERY - a|
  {
    if a < b {
      var x :| x in b && x !in a;
      SubsetSize(EVERY - b, EVERY - a - {x});
    }
  }

  lemma {:induction false} SubsetSize(a: set<Metric>, b: set<Metric>)
    requires a <= b
    ensures |a| <= |b|
    decreases a
  {
    if a == {} {
    } else {
      var x :| x in a;
      SubsetSize(a - {x}, b - {x});
    }
  }

  /** `from_slice_with_deps`: only which metrics are in the slice matters. */
  method FromSliceWithDeps(deps: Metric -> seq<Metric>, metrics: seq<Metric>) returns (r: Field)
    ensures Members(r) == Closure(deps, set m | m in metrics)
  {
    var s: Field := 0;
    EmptyMembers();
    for i := 0 to |metrics|
      invariant Members(s) == set m | m in metrics[..i]
    {
      WithMembers(s, metrics[i]);
      s := With(s, metrics[i]);
      assert metrics[..i + 1] == metrics[..i] + [metrics[i]];
    }
    assert metrics[..|metrics|] == metrics;
    r := Resolved(deps, s);
  }
}
