/** Levenshtein distance, and the two-row computation with its early exits. */
module EditDistance {
  import opened ByteStrings

  // ---------------------------------------------------------------- edit scripts

  datatype Edit = Keep | Replace(c: byte) | Insert(c: byte) | Delete

  function Init<T>(s: seq<T>): (r: seq<T>)
    requires s != []
  {
    s[..|s| - 1]
  }

  function Last<T>(s: seq<T>): (x: T)
    requires s != []
  {
    s[|s| - 1]
  }

  /** Read left to right, the edits turn `a` into `b`. */
  predicate Rewrites(script: seq<Edit>, a: Bytes, b: Bytes)
    decreases |script|
  {
    if script == [] then a == [] && b == []
    else
      match Last(script)
      case Keep => a != [] && b != [] && Last(a) == Last(b) && Rewrites(Init(script), Init(a), Init(b))
      case Replace(c) => a != [] && b != [] && Last(b) == c && Rewrites(Init(script), Init(a), Init(b))
      case Insert(c) => b != [] && Last(b) == c && Rewrites(Init(script), a, Init(b))
      case Delete => a != [] && Rewrites(Init(script), Init(a), b)
  }

  function Cost(script: seq<Edit>): (n: nat)
    decreases |script|
  {
    if script == [] then 0 else Cost(Init(script)) + (if Last(script).Keep? then 0 else 1)
  }

  // ---------------------------------------------------------------- the distance

  function Min(x: nat, y: nat): (m: nat)
  {
    if x <= y then x else y
  }

  function Distance(a: Bytes, b: Bytes): (d: nat)
    decreases |a| + |b|
  {
    if a == [] then |b|
    else if b == [] then |a|
    else
      Min(Min(Distance(Init(a), Init(b)) + (if Last(a) != Last(b) then 1 else 0), Distance(a, Init(b)) + 1),
          Distance(Init(a), b) + 1)
  }

  /** No script is cheaper than the distance. */
  lemma {:induction false} DistanceIsLeast(script: seq<Edit>, a: Bytes, b: Bytes)
    requires Rewrites(script, a, b)
    ensures Distance(a, b) <= Cost(script)
    decreases |script|
  {
    if script == [] {
    } else {
      match Last(script) {
        case Keep => DistanceIsLeast(Init(script), Init(a), Init(b));
        case Replace(_) => DistanceIsLeast(Init(script), Init(a), Init(b));
        case Insert(_) => DistanceIsLeast(Init(script), a, Init(b));
        case Delete => DistanceIsLeast(Init(script), Init(a), b);
      }
    }
  }

  /** And one script costs exactly that much. */
  lemma {:induction false} DistanceIsReached(a: Bytes, b: Bytes) returns (script: seq<Edit>)
    ensures Rewrites(script, a, b) && Cost(script) == Distance(a, b)
    decreases |a| + |b|
  {
    if a == [] && b == [] {
      script := [];
    } else if a == [] || (b != [] && Distance(a, b) == Distance(a, Init(b)) + 1) {
      script := DistanceIsReached(a, Init(b));
      script := Extended(script, Insert(Last(b)));
    } else if b == [] || Distance(a, b) == Distance(Init(a), b) + 1 {
      script := DistanceIsReached(Init(a), b);
      script := Extended(script, Delete);
    } else {
      script := DistanceIsReached(Init(a), Init(b));
      script := Extended(script, if Last(a) == Last(b) then Keep else Replace(Last(b)));
    }
  }

  lemma Extended(script: seq<Edit>, e: Edit) returns (r: seq<Edit>)
    ensures r == script + [e] && Init(r) == script && Last(r) == e
  {
    r := script + [e];
  }

  lemma {:induction false} DistanceIsSymmetric(a: Bytes, b: Bytes)
    ensures Distance(a, b) == Distance(b, a)
    decreases |a| + |b|
  {
    if a != [] && b != [] {
      DistanceIsSymmetric(Init(a), Init(b));
      DistanceIsSymmetric(a, Init(b));
      DistanceIsSymmetric(Init(a), b);
    }
  }

  /** Unequal lengths cost at least their difference. */
  lemma {:induction false} LengthsBoundDistance(a: Bytes, b: Bytes)
    ensures |a| - |b| <= Distance(a, b)
    decreases |a| + |b|
  {
    if a != [] && b != [] {
      LengthsBoundDistance(Init(a), Init(b));
      LengthsBoundDistance(a, Init(b));
      LengthsBoundDistance(Init(a), b);
    }
  }

  // ---------------------------------------------------------------- rows of the table

  /** Every cell of row `i` exceeds the cutoff. */
  ghost predicate RowAbove(a: Bytes, b: Bytes, i: nat, cutoff: nat)
    requires i <= |a|
  {
    forall j | 0 <= j <= |b| :: Distance(a[..i], b[..j]) > cutoff
  }

  lemma {:induction false} Edges(a: Bytes, b: Bytes, i: nat)
    ensures i <= |a| ==> Distance(a[..i], b[..0]) == i
    ensures i <= |b| ==> Distance(a[..0], b[..i]) == i
  {
    assert a[..0] == [] && b[..0] == [];
  }

  lemma AboveAt(a: Bytes, b: Bytes, i: nat, j: nat, cutoff: nat)
    requires i <= |a| && j <= |b| && RowAbove(a, b, i, cutoff)
    ensures Distance(a[..i], b[..j]) > cutoff
  {
  }

  lemma CellAbove(a: Bytes, b: Bytes, i: nat, j: nat, cutoff: nat)
    requires i < |a| && j < |b| && RowAbove(a, b, i, cutoff)
    requires Distance(a[..i + 1], b[..j]) > cutoff
    ensures Distance(a[..i + 1], b[..j + 1]) > cutoff
  {
    AboveAt(a, b, i, j, cutoff);
    AboveAt(a, b, i, j + 1, cutoff);
    Cell(a, b, i, j);
  }

  lemma FirstCellAbove(a: Bytes, b: Bytes, i: nat, cutoff: nat)
    requires i < |a| && RowAbove(a, b, i, cutoff)
    ensures Distance(a[..i + 1], b[..0]) > cutoff
  {
    AboveAt(a, b, i, 0, cutoff);
    Edges(a, b, i);
    Edges(a, b, i + 1);
  }

  lemma {:induction false} NextCellAbove(a: Bytes, b: Bytes, i: nat, j: nat, cutoff: nat)
    requires i < |a| && j <= |b| && RowAbove(a, b, i, cutoff)
    ensures Distance(a[..i + 1], b[..j]) > cutoff
    decreases j
  {
    if j == 0 {
      FirstCellAbove(a, b, i, cutoff);
    } else {
      NextCellAbove(a, b, i, j - 1, cutoff);
      CellAbove(a, b, i, j - 1, cutoff);
    }
  }

  /** A cell from its three neighbours. */
  lemma {:induction false} Cell(a: Bytes, b: Bytes, i: nat, j: nat)
    requires i < |a| && j < |b|
    ensures Distance(a[..i + 1], b[..j + 1]) ==
            Min(Min(Distance(a[..i], b[..j]) + (if a[i] != b[j] then 1 else 0), Distance(a[..i + 1], b[..j]) + 1),
                Distance(a[..i], b[..j + 1]) + 1)
  {
    assert Init(a[..i + 1]) == a[..i] && Init(b[..j + 1]) == b[..j];
  }

  /** Row minima never fall, so a row wholly above the cutoff settles the distance. */
  lemma {:induction false} RowsStayAbove(a: Bytes, b: Bytes, i: nat, cutoff: nat)
    requires i <= |a| && RowAbove(a, b, i, cutoff)
    ensures Distance(a, b) > cutoff
    decreases |a| - i
  {
    if i == |a| {
      assert a[..i] == a && b[..|b|] == b;
    } else {
      forall j | 0 <= j <= |b| ensures Distance(a[..i + 1], b[..j]) > cutoff {
        NextCellAbove(a, b, i, j, cutoff);
      }
      RowsStayAbove(a, b, i + 1, cutoff);
    }
  }

  // ---------------------------------------------------------------- the computation

  /** Cell `(i, j)` is the distance of the first `i` bytes of one string and the first `j` of the other. */
  type Table = (nat, nat) -> nat

  ghost predicate CellRule(table: Table, long: Bytes, short: Bytes, i: nat, j: nat) {
    i < |long| && j < |short| ==>
      table(i + 1, j + 1) ==
      Min(Min(table(i, j) + (if long[i] != short[j] then 1 else 0), table(i + 1, j) + 1), table(i, j + 1) + 1)
  }

  ghost predicate IsTable(table: Table, long: Bytes, short: Bytes) {
    && (forall i: nat | i <= |long| :: table(i, 0) == i)
    && (forall j: nat | j <= |short| :: table(0, j) == j)
    && (forall i: nat, j: nat :: CellRule(table, long, short, i, j))
  }

  ghost predicate IsCell(table: Table, long: Bytes, short: Bytes, i: nat, j: nat) {
    i <= |long| && j <= |short| ==> table(i, j) == Distance(long[..i], short[..j])
  }

  lemma {:induction false} TableOf(long: Bytes, short: Bytes) returns (table: Table)
    ensures IsTable(table, long, short)
    ensures forall i: nat, j: nat :: IsCell(table, long, short, i, j)
  {
    table := (i: nat, j: nat) => TableCell(long, short, i, j);
    forall i: nat, j: nat ensures CellRule(table, long, short, i, j) {
      TableRule(long, short, i, j);
    }
    forall i: nat ensures (i <= |long| ==> table(i, 0) == i) && (i <= |short| ==> table(0, i) == i) {
      Edges(long, short, i);
    }
  }

  ghost function TableCell(long: Bytes, short: Bytes, i: nat, j: nat): (d: nat)
  {
    if i <= |long| && j <= |short| then Distance(long[..i], short[..j]) else 0
  }

  lemma {:induction false} TableRule(long: Bytes, short: Bytes, i: nat, j: nat)
    ensures i < |long| && j < |short| ==>
              TableCell(long, short, i + 1, j + 1) ==
              Min(Min(TableCell(long, short, i, j) + (if long[i] != short[j] then 1 else 0),
                      TableCell(long, short, i + 1, j) + 1),
                  TableCell(long, short, i, j + 1) + 1)
  {
    if i < |long| && j < |short| {
      Cell(long, short, i, j);
    }
  }

  ghost predicate IsRow(row: array<nat>, table: Table, i: nat, n: nat)
    requires n <= row.Length
    reads row
  {
    forall j | 0 <= j < n :: row[j] == table(i, j)
  }

  /** One row of the table from the one above it, with its minimum. */
  method FillRow(long: Bytes, short: Bytes, i: nat, prev: array<nat>, curr: array<nat>, ghost table: Table)
    returns (rowMin: nat)
    requires i < |long| && prev != curr && prev.Length == curr.Length == |short| + 1
    requires IsTable(table, long, short) && IsRow(prev, table, i, |short| + 1)
    modifies curr
    ensures IsRow(curr, table, i + 1, |short| + 1)
    ensures forall j | 0 <= j <= |short| :: rowMin <= curr[j]
    ensures exists j | 0 <= j <= |short| :: rowMin == curr[j]
  {
    curr[0] := i + 1;
    rowMin := curr[0];
    ghost var least := 0;
    for j := 0 to |short|
      invariant IsRow(prev, table, i, |short| + 1)
      invariant IsRow(curr, table, i + 1, j + 1)
      invariant forall k | 0 <= k <= j :: rowMin <= curr[k]
      invariant 0 <= least <= j && rowMin == curr[least]
    {
      var cost := if long[i] != short[j] then 1 else 0;
      assert CellRule(table, long, short, i, j);
      curr[j + 1] := Min(Min(prev[j] + cost, prev[j + 1] + 1), curr[j] + 1);
      if curr[j + 1] < rowMin {
        least := j + 1;
      }
      rowMin := Min(rowMin, curr[j + 1]);
    }
  }

  /** Exact up to the cutoff, and above it exactly when the distance is. */
  method EditDistanceWithCutoff(a: Bytes, b: Bytes, cutoff: nat) returns (d: nat)
    ensures d <= cutoff <==> Distance(a, b) <= cutoff
    ensures d == Distance(a, b) || d == cutoff + 1
  {
    var long, short := a, b;
    if |a| < |b| {
      long, short := b, a;
      DistanceIsSymmetric(a, b);
    }
    LengthsBoundDistance(long, short);
    if |long| - |short| > cutoff {
      return cutoff + 1;
    }
    ghost var table := TableOf(long, short);
    var prev := new nat[|short| + 1](j => j);
    var curr := new nat[|short| + 1](j => 0);
    for i := 0 to |long|
      invariant prev != curr && prev.Length == curr.Length == |short| + 1
      invariant fresh(prev) && fresh(curr)
      invariant IsRow(prev, table, i, |short| + 1)
    {
      var rowMin := FillRow(long, short, i, prev, curr, table);
      if rowMin > cutoff {
        forall j | 0 <= j <= |short| ensures Distance(long[..i + 1], short[..j]) > cutoff {
          assert IsCell(table, long, short, i + 1, j);
        }
        RowsStayAbove(long, short, i + 1, cutoff);
        return cutoff + 1;
      }
      prev, curr := curr, prev;
    }
    assert long[..|long|] == long && short[..|short|] == short;
    assert IsCell(table, long, short, |long|, |short|);
    return prev[|short|];
  }
}
