/** The weight model: the authored `GridWeight` (Sources/WManager/GridWeight.swift)
    and the fixed-size `LayoutPreset` the geometry consumes
    (Sources/WManager/LayoutPreset.swift). A weight is an integer in
    [MinWeight, MaxWeight]; a weight of 0 takes a column or row out of the
    partition. */
module Weights {
  import GridCells

  const MinWeight: int := 0
  const MaxWeight: int := 5

  predicate InRange(w: int) { MinWeight <= w <= MaxWeight }

  predicate AllInRange(ws: seq<int>) {
    forall i :: 0 <= i < |ws| ==> InRange(ws[i])
  }

  /** `a` and `b` have the same length and agree everywhere except maybe at `i`. */
  predicate ChangedOnlyAt(a: seq<int>, b: seq<int>, i: int) {
    |a| == |b| && forall j :: 0 <= j < |a| && j != i ==> a[j] == b[j]
  }

  function MinInt(a: int, b: int): int { if a < b then a else b }
  function MaxInt(a: int, b: int): int { if a < b then b else a }

  /** `min(max(v, minWeight), maxWeight)`. */
  function ClampWeight(v: int): (r: int)
    ensures InRange(r)
    ensures InRange(v) ==> r == v
    ensures v < MinWeight ==> r == MinWeight
    ensures v > MaxWeight ==> r == MaxWeight
  {
    MinInt(MaxInt(v, MinWeight), MaxWeight)
  }

  function ClampAll(ws: seq<int>): (r: seq<int>)
    ensures |r| == |ws| && AllInRange(r)
    ensures forall i :: 0 <= i < |ws| ==> r[i] == ClampWeight(ws[i])
  {
    seq(|ws|, i requires 0 <= i < |ws| => ClampWeight(ws[i]))
  }

  /** Clamp every weight, then truncate or zero-pad to exactly `maxCount`
      entries. `GridWeight.normalizedWeights` and `LayoutPreset.normalize`
      are the same function (one pads with `minWeight`, the other with the
      literal 0, which is the same value). */
  function NormalizeWeights(ws: seq<int>, maxCount: nat): (r: seq<int>)
    ensures |r| == maxCount && AllInRange(r)
    ensures forall i :: 0 <= i < maxCount && i < |ws| ==> r[i] == ClampWeight(ws[i])
    ensures forall i :: |ws| <= i < maxCount ==> r[i] == MinWeight
  {
    var clamped := ClampAll(ws);
    if |clamped| == maxCount then clamped
    else if |clamped| > maxCount then clamped[..maxCount]
    else clamped + seq(maxCount - |clamped|, _ => MinWeight)
  }

  /** Normalising a normalised vector changes nothing. */
  lemma NormalizeIdempotent(ws: seq<int>, maxCount: nat)
    ensures NormalizeWeights(NormalizeWeights(ws, maxCount), maxCount) == NormalizeWeights(ws, maxCount)
  {
    var once := NormalizeWeights(ws, maxCount);
    var twice := NormalizeWeights(once, maxCount);
    assert forall i :: 0 <= i < maxCount ==> twice[i] == once[i];
  }

  /** A vector that already has the right length and range is a fixed point. */
  lemma NormalizeFixedPoint(ws: seq<int>, maxCount: nat)
    requires |ws| == maxCount && AllInRange(ws)
    ensures NormalizeWeights(ws, maxCount) == ws
  {
    var r := NormalizeWeights(ws, maxCount);
    assert forall i :: 0 <= i < maxCount ==> r[i] == ws[i];
  }

  // ---------------------------------------------------------------------
  // GridWeight

  /** The fields of a decoded `GridWeight` are not re-clamped (decoding
      bypasses the initialiser), so the datatype carries no invariant. */
  datatype GridWeight = GridWeight(columns: seq<int>, rows: seq<int>)

  predicate WellFormed(g: GridWeight) {
    AllInRange(g.columns) && AllInRange(g.rows)
  }

  /** `GridWeight.init(columns:rows:)`: clamps every weight, keeps lengths. */
  function MakeGridWeight(columns: seq<int>, rows: seq<int>): (g: GridWeight)
    ensures WellFormed(g)
    ensures |g.columns| == |columns| && |g.rows| == |rows|
    ensures forall i :: 0 <= i < |columns| ==> g.columns[i] == ClampWeight(columns[i])
    ensures forall i :: 0 <= i < |rows| ==> g.rows[i] == ClampWeight(rows[i])
    ensures AllInRange(columns) && AllInRange(rows) ==> g == GridWeight(columns, rows)
  {
    var g := GridWeight(ClampAll(columns), ClampAll(rows));
    assert AllInRange(columns) ==> g.columns == columns;
    assert AllInRange(rows) ==> g.rows == rows;
    g
  }

  /** `GridWeight.default()`: three equal columns over two equal rows. */
  function DefaultGridWeight(): (g: GridWeight)
    ensures g.columns == [1, 1, 1] && g.rows == [1, 1]
    ensures WellFormed(g)
  {
    MakeGridWeight([1, 1, 1], [1, 1])
  }

  function IncrementAt(ws: seq<int>, i: int): seq<int> {
    if 0 <= i < |ws| then ws[i := MinInt(ws[i] + 1, MaxWeight)] else ws
  }

  function DecrementAt(ws: seq<int>, i: int): seq<int> {
    if 0 <= i < |ws| then ws[i := MaxInt(ws[i] - 1, MinWeight)] else ws
  }

  function SetAt(ws: seq<int>, i: int, v: int): seq<int> {
    if 0 <= i < |ws| then ws[i := ClampWeight(v)] else ws
  }

  /** `incrementColumn(at:)`: raises one column weight, saturating at
      MaxWeight; an index outside the vector changes nothing. */
  function IncrementColumn(g: GridWeight, i: int): (r: GridWeight)
    ensures r.rows == g.rows && ChangedOnlyAt(g.columns, r.columns, i)
    ensures 0 <= i < |g.columns| ==>
      r.columns[i] == (if g.columns[i] < MaxWeight then g.columns[i] + 1 else MaxWeight)
    ensures !(0 <= i < |g.columns|) ==> r == g
    ensures WellFormed(g) ==> WellFormed(r)
  {
    g.(columns := IncrementAt(g.columns, i))
  }

  /** `decrementColumn(at:)`: lowers one column weight, never below MinWeight. */
  function DecrementColumn(g: GridWeight, i: int): (r: GridWeight)
    ensures r.rows == g.rows && ChangedOnlyAt(g.columns, r.columns, i)
    ensures 0 <= i < |g.columns| ==>
      r.columns[i] == (if g.columns[i] > MinWeight then g.columns[i] - 1 else MinWeight)
    ensures !(0 <= i < |g.columns|) ==> r == g
    ensures WellFormed(g) ==> WellFormed(r)
  {
    g.(columns := DecrementAt(g.columns, i))
  }

  /** `setColumn(at:to:)`: stores the clamped value at one index. */
  function SetColumn(g: GridWeight, i: int, v: int): (r: GridWeight)
    ensures r.rows == g.rows && ChangedOnlyAt(g.columns, r.columns, i)
    ensures 0 <= i < |g.columns| ==> InRange(r.columns[i])
    ensures 0 <= i < |g.columns| && InRange(v) ==> r.columns[i] == v
    ensures 0 <= i < |g.columns| && v < MinWeight ==> r.columns[i] == MinWeight
    ensures 0 <= i < |g.columns| && v > MaxWeight ==> r.columns[i] == MaxWeight
    ensures !(0 <= i < |g.columns|) ==> r == g
    ensures WellFormed(g) ==> WellFormed(r)
  {
    g.(columns := SetAt(g.columns, i, v))
  }

  /** `incrementRow(at:)`. */
  function IncrementRow(g: GridWeight, i: int): (r: GridWeight)
    ensures r.columns == g.columns && ChangedOnlyAt(g.rows, r.rows, i)
    ensures 0 <= i < |g.rows| ==>
      r.rows[i] == (if g.rows[i] < MaxWeight then g.rows[i] + 1 else MaxWeight)
    ensures !(0 <= i < |g.rows|) ==> r == g
    ensures WellFormed(g) ==> WellFormed(r)
  {
    g.(rows := IncrementAt(g.rows, i))
  }

  /** `decrementRow(at:)`. */
  function DecrementRow(g: GridWeight, i: int): (r: GridWeight)
    ensures r.columns == g.columns && ChangedOnlyAt(g.rows, r.rows, i)
    ensures 0 <= i < |g.rows| ==>
      r.rows[i] == (if g.rows[i] > MinWeight then g.rows[i] - 1 else MinWeight)
    ensures !(0 <= i < |g.rows|) ==> r == g
    ensures WellFormed(g) ==> WellFormed(r)
  {
    g.(rows := DecrementAt(g.rows, i))
  }

  /** `setRow(at:to:)`. */
  function SetRow(g: GridWeight, i: int, v: int): (r: GridWeight)
    ensures r.columns == g.columns && ChangedOnlyAt(g.rows, r.rows, i)
    ensures 0 <= i < |g.rows| ==> InRange(r.rows[i])
    ensures 0 <= i < |g.rows| && InRange(v) ==> r.rows[i] == v
    ensures 0 <= i < |g.rows| && v < MinWeight ==> r.rows[i] == MinWeight
    ensures 0 <= i < |g.rows| && v > MaxWeight ==> r.rows[i] == MaxWeight
    ensures !(0 <= i < |g.rows|) ==> r == g
    ensures WellFormed(g) ==> WellFormed(r)
  {
    g.(rows := SetAt(g.rows, i, v))
  }

  /** On a well-formed grid, decrementing undoes an increment that did not
      saturate, and incrementing undoes a decrement that did not saturate. */
  lemma IncrementDecrementInverse(g: GridWeight, i: int)
    requires WellFormed(g) && 0 <= i < |g.columns| && 0 <= i < |g.rows|
    ensures g.columns[i] < MaxWeight ==> DecrementColumn(IncrementColumn(g, i), i) == g
    ensures g.columns[i] > MinWeight ==> IncrementColumn(DecrementColumn(g, i), i) == g
    ensures g.rows[i] < MaxWeight ==> DecrementRow(IncrementRow(g, i), i) == g
    ensures g.rows[i] > MinWeight ==> IncrementRow(DecrementRow(g, i), i) == g
  {
    if g.columns[i] < MaxWeight {
      assert DecrementColumn(IncrementColumn(g, i), i).columns == g.columns;
    }
    if g.columns[i] > MinWeight {
      assert IncrementColumn(DecrementColumn(g, i), i).columns == g.columns;
    }
    if g.rows[i] < MaxWeight {
      assert DecrementRow(IncrementRow(g, i), i).rows == g.rows;
    }
    if g.rows[i] > MinWeight {
      assert IncrementRow(DecrementRow(g, i), i).rows == g.rows;
    }
  }

  // ---------------------------------------------------------------------
  // Active entries

  /** Positions from `start` on whose weight is positive, in ascending order. */
  function ActiveIndicesFrom(ws: seq<int>, start: nat): (r: seq<nat>)
    requires start <= |ws|
    ensures forall k :: 0 <= k < |r| ==> start <= r[k] < |ws| && ws[r[k]] > 0
    ensures forall i {:trigger i in r} :: start <= i < |ws| && ws[i] > 0 ==> i in r
    ensures forall k, l :: 0 <= k < l < |r| ==> r[k] < r[l]
    decreases |ws| - start
  {
    if start == |ws| then []
    else if ws[start] > 0 then [start] + ActiveIndicesFrom(ws, start + 1)
    else ActiveIndicesFrom(ws, start + 1)
  }

  /** `weights.enumerated().filter { $0.element > 0 }`, as the offsets:
      exactly the positive positions, in ascending order. */
  function ActiveIndices(ws: seq<int>): (r: seq<nat>)
    ensures forall k :: 0 <= k < |r| ==> r[k] < |ws| && ws[r[k]] > 0
    ensures forall i {:trigger i in r} :: 0 <= i < |ws| ==> (ws[i] > 0 <==> i in r)
    ensures forall k, l :: 0 <= k < l < |r| ==> r[k] < r[l]
  {
    ActiveIndicesFrom(ws, 0)
  }

  /** A position is active exactly when it is in range with a positive
      weight. */
  lemma ActiveMember(ws: seq<int>, i: int)
    ensures i in ActiveIndices(ws) <==> 0 <= i < |ws| && ws[i] > 0
  {
    if i in ActiveIndices(ws) {
      var k :| 0 <= k < |ActiveIndices(ws)| && ActiveIndices(ws)[k] == i;
    }
  }

  /** The active weights themselves, in order. */
  function ActiveWeights(ws: seq<int>): (r: seq<int>)
    ensures |r| == |ActiveIndices(ws)|
    ensures forall k :: 0 <= k < |r| ==> r[k] == ws[ActiveIndices(ws)[k]] && r[k] > 0
  {
    var idx := ActiveIndices(ws);
    seq(|idx|, k requires 0 <= k < |idx| => ws[idx[k]])
  }

  /** `filter { $0 > 0 }.count`. */
  function ActiveCount(ws: seq<int>): nat
  {
    if |ws| == 0 then 0
    else (if ws[0] > 0 then 1 else 0) + ActiveCount(ws[1..])
  }

  lemma {:induction false} ActiveCountFrom(ws: seq<int>, start: nat)
    requires start <= |ws|
    ensures ActiveCount(ws[start..]) == |ActiveIndicesFrom(ws, start)|
    decreases |ws| - start
  {
    if start < |ws| {
      assert ws[start..][1..] == ws[start + 1..];
      ActiveCountFrom(ws, start + 1);
    }
  }

  /** The counter agrees with the list of active positions, so it is the
      number of positive entries; a count of 0 means no entry is positive. */
  lemma ActiveCountIsActiveIndices(ws: seq<int>)
    ensures ActiveCount(ws) == |ActiveIndices(ws)|
    ensures ActiveCount(ws) == 0 <==> forall i :: 0 <= i < |ws| ==> ws[i] <= 0
  {
    ActiveCountFrom(ws, 0);
    assert ws[0..] == ws;
    if ActiveCount(ws) > 0 {
      var i := ActiveIndices(ws)[0];
      assert ws[i] > 0;
    } else {
      forall i | 0 <= i < |ws| ensures ws[i] <= 0 {
        ActiveMember(ws, i);
      }
    }
  }

  /** `activeColumnCount`: the number of columns with a positive weight. */
  function ActiveColumnCount(g: GridWeight): (n: nat)
    ensures n == |ActiveIndices(g.columns)|
    ensures n == 0 <==> forall i :: 0 <= i < |g.columns| ==> g.columns[i] <= 0
  {
    ActiveCountIsActiveIndices(g.columns);
    ActiveCount(g.columns)
  }

  /** `activeRowCount`: the number of rows with a positive weight. */
  function ActiveRowCount(g: GridWeight): (n: nat)
    ensures n == |ActiveIndices(g.rows)|
    ensures n == 0 <==> forall i :: 0 <= i < |g.rows| ==> g.rows[i] <= 0
  {
    ActiveCountIsActiveIndices(g.rows);
    ActiveCount(g.rows)
  }

  /** The source's example: `[1,0,1]` columns and `[1,0]` rows are 2 x 1. */
  lemma ActiveCountExample()
    ensures ActiveColumnCount(MakeGridWeight([1, 0, 1], [1, 0])) == 2
    ensures ActiveRowCount(MakeGridWeight([1, 0, 1], [1, 0])) == 1
  {
    var g := MakeGridWeight([1, 0, 1], [1, 0]);
    assert g.columns == [1, 0, 1] && g.rows == [1, 0];
    assert g.columns[1..] == [0, 1] && g.columns[1..][1..] == [1];
    assert g.rows[1..] == [0];
  }

  // ---------------------------------------------------------------------
  // Proportions

  function Sum(xs: seq<int>): int {
    if |xs| == 0 then 0 else xs[0] + Sum(xs[1..])
  }

  function SumReal(xs: seq<real>): real {
    if |xs| == 0 then 0.0 else xs[0] + SumReal(xs[1..])
  }

  /** Each entry of `xs` divided by `total`. */
  function Shares(xs: seq<int>, total: real): (r: seq<real>)
    requires total != 0.0
    ensures |r| == |xs|
    ensures forall k :: 0 <= k < |xs| ==> r[k] == xs[k] as real / total
  {
    seq(|xs|, k requires 0 <= k < |xs| => xs[k] as real / total)
  }

  lemma {:induction false} SharesSum(xs: seq<int>, total: real)
    requires total != 0.0
    ensures SumReal(Shares(xs, total)) == Sum(xs) as real / total
    decreases |xs|
  {
    if |xs| > 0 {
      assert Shares(xs, total)[1..] == Shares(xs[1..], total);
      SharesSum(xs[1..], total);
    }
  }

  lemma {:induction false} SumPositive(xs: seq<int>)
    requires forall k :: 0 <= k < |xs| ==> xs[k] > 0
    ensures Sum(xs) >= |xs|
    decreases |xs|
  {
    if |xs| > 0 {
      SumPositive(xs[1..]);
    }
  }

  /** `proportions(for:)`: each active weight over the sum of the active
      weights; empty when nothing is active. */
  function Proportions(ws: seq<int>): (r: seq<real>)
    ensures Sum(ActiveWeights(ws)) <= 0 ==> r == []
    ensures Sum(ActiveWeights(ws)) > 0 ==> |r| == |ActiveWeights(ws)|
    ensures forall k :: 0 <= k < |r| ==>
      k < |ActiveWeights(ws)| && r[k] == ActiveWeights(ws)[k] as real / Sum(ActiveWeights(ws)) as real
  {
    var active := ActiveWeights(ws);
    var total := Sum(active) as real;
    if total <= 0.0 then [] else Shares(active, total)
  }

  /** The active total is positive exactly when some entry is active. */
  lemma ActiveTotal(ws: seq<int>)
    ensures ActiveCount(ws) == |ActiveWeights(ws)|
    ensures ActiveCount(ws) == 0 ==> Sum(ActiveWeights(ws)) == 0
    ensures ActiveCount(ws) > 0 ==> Sum(ActiveWeights(ws)) > 0
  {
    ActiveCountIsActiveIndices(ws);
    SumPositive(ActiveWeights(ws));
  }

  /** With some position active, the active total is positive. */
  lemma ActiveSumPositive(ws: seq<int>)
    requires |ActiveIndices(ws)| > 0
    ensures Sum(ActiveWeights(ws)) > 0
  {
    SumPositive(ActiveWeights(ws));
  }

  /** What `proportions` promises the editor preview: nothing at all when
      no entry is positive; otherwise one share per active entry, in order,
      each the weight over the active total, all in (0, 1], summing to 1. */
  lemma ProportionsSpec(ws: seq<int>)
    ensures Proportions(ws) == [] <==> ActiveCount(ws) == 0
    ensures |Proportions(ws)| == |ActiveIndices(ws)| == ActiveCount(ws)
    ensures forall k :: 0 <= k < |Proportions(ws)| ==>
      Proportions(ws)[k] == ws[ActiveIndices(ws)[k]] as real / Sum(ActiveWeights(ws)) as real
    ensures forall k :: 0 <= k < |Proportions(ws)| ==> 0.0 < Proportions(ws)[k] <= 1.0
    ensures Proportions(ws) != [] ==> SumReal(Proportions(ws)) == 1.0
  {
    ProportionsShape(ws);
    ProportionsEntries(ws);
    ProportionsRange(ws);
  }

  /** The length of the proportions. */
  lemma ProportionsShape(ws: seq<int>)
    ensures Proportions(ws) == [] <==> ActiveCount(ws) == 0
    ensures |Proportions(ws)| == |ActiveIndices(ws)| == ActiveCount(ws)
  {
    ActiveTotal(ws);
    if ActiveCount(ws) > 0 {
      ProportionsOfActive(ws);
    } else {
      assert Proportions(ws) == [];
    }
  }

  /** Each proportion is its active weight over the active total. */
  lemma ProportionsEntries(ws: seq<int>)
    ensures forall k :: 0 <= k < |Proportions(ws)| ==>
      k < |ActiveIndices(ws)|
      && Proportions(ws)[k] == ws[ActiveIndices(ws)[k]] as real / Sum(ActiveWeights(ws)) as real
  {
    ProportionsShape(ws);
    if |Proportions(ws)| > 0 {
      ProportionsOfActive(ws);
    }
  }

  /** With some entry active, the proportions are the active weights'
      shares of their total. */
  lemma ProportionsOfActive(ws: seq<int>)
    requires ActiveCount(ws) > 0
    ensures Sum(ActiveWeights(ws)) > 0
    ensures Proportions(ws) == Shares(ActiveWeights(ws), Sum(ActiveWeights(ws)) as real)
  {
    ActiveTotal(ws);
  }

  /** The proportions lie in (0, 1] and add up to one. */
  lemma ProportionsRange(ws: seq<int>)
    ensures forall k :: 0 <= k < |Proportions(ws)| ==> 0.0 < Proportions(ws)[k] <= 1.0
    ensures Proportions(ws) != [] ==> SumReal(Proportions(ws)) == 1.0
  {
    var active := ActiveWeights(ws);
    ActiveTotal(ws);
    if ActiveCount(ws) > 0 {
      ProportionsOfActive(ws);
      SharesBounded(active, Sum(active) as real);
      SharesSumToOne(active);
    } else {
      assert Proportions(ws) == [];
    }
  }

  /** Positive weights over their own total lie in (0, 1]. */
  lemma SharesBounded(xs: seq<int>, total: real)
    requires forall j :: 0 <= j < |xs| ==> xs[j] > 0
    requires Sum(xs) > 0 && total == Sum(xs) as real
    ensures forall k :: 0 <= k < |xs| ==> 0.0 < Shares(xs, total)[k] <= 1.0
  {
    forall k | 0 <= k < |xs| ensures 0.0 < Shares(xs, total)[k] <= 1.0 {
      SumDominates(xs, k);
      DivBound(xs[k], Sum(xs));
    }
  }

  /** Weights over their own total add up to one. */
  lemma SharesSumToOne(xs: seq<int>)
    requires Sum(xs) > 0
    ensures SumReal(Shares(xs, Sum(xs) as real)) == 1.0
  {
    SharesSum(xs, Sum(xs) as real);
    DivSelf(Sum(xs) as real);
  }

  lemma DivSelf(t: real)
    requires t != 0.0
    ensures t / t == 1.0
  {
  }

  lemma DivBound(a: int, b: int)
    requires 0 < a <= b
    ensures 0.0 < a as real / b as real <= 1.0
  {
  }

  lemma {:induction false} SumDominates(xs: seq<int>, k: nat)
    requires forall j :: 0 <= j < |xs| ==> xs[j] > 0
    requires k < |xs|
    ensures xs[k] <= Sum(xs)
    decreases |xs|
  {
    SumPositive(xs[1..]);
    if k > 0 {
      SumDominates(xs[1..], k - 1);
    }
  }

  /** `columnProportions`: one share per active column, each in `(0, 1]`,
      adding up to 1. */
  function ColumnProportions(g: GridWeight): (r: seq<real>)
    ensures |r| == ActiveColumnCount(g)
    ensures forall k :: 0 <= k < |r| ==> 0.0 < r[k] <= 1.0
    ensures r != [] ==> SumReal(r) == 1.0
  {
    ProportionsShape(g.columns);
    ProportionsRange(g.columns);
    Proportions(g.columns)
  }

  /** `rowProportions`: one share per active row, each in `(0, 1]`, adding
      up to 1. */
  function RowProportions(g: GridWeight): (r: seq<real>)
    ensures |r| == ActiveRowCount(g)
    ensures forall k :: 0 <= k < |r| ==> 0.0 < r[k] <= 1.0
    ensures r != [] ==> SumReal(r) == 1.0
  {
    ProportionsShape(g.rows);
    ProportionsRange(g.rows);
    Proportions(g.rows)
  }

  /** With every entry positive, the proportions are the shares of the
      whole vector. */
  lemma ProportionsAllPositive(ws: seq<int>)
    requires forall i :: 0 <= i < |ws| ==> ws[i] > 0
    requires Sum(ws) > 0
    ensures Proportions(ws) == Shares(ws, Sum(ws) as real)
  {
    ActiveAllPositive(ws);
  }

  /** The source's example: columns `[1,2,1]` give a quarter, a half and a
      quarter. */
  lemma ColumnProportionsExample()
    ensures ColumnProportions(MakeGridWeight([1, 2, 1], [3, 1])) == [0.25, 0.5, 0.25]
  {
    assert MakeGridWeight([1, 2, 1], [3, 1]).columns == [1, 2, 1];
    ColumnExampleSum();
    ProportionsAllPositive([1, 2, 1]);
    ColumnExampleShares();
  }

  lemma ColumnExampleSum()
    ensures Sum([1, 2, 1]) == 4
  {
    var ws := [1, 2, 1];
    assert ws[1..] == [2, 1] && ws[1..][1..] == [1];
  }

  lemma ColumnExampleShares()
    ensures Shares([1, 2, 1], 4.0) == [0.25, 0.5, 0.25]
  {
    var r := Shares([1, 2, 1], 4.0);
    assert r[0] == 0.25 && r[1] == 0.5 && r[2] == 0.25;
  }

  /** The source's example: rows `[3,1]` give three quarters and a quarter. */
  lemma RowProportionsExample()
    ensures RowProportions(MakeGridWeight([1, 2, 1], [3, 1])) == [0.75, 0.25]
  {
    assert MakeGridWeight([1, 2, 1], [3, 1]).rows == [3, 1];
    RowExampleSum();
    ProportionsAllPositive([3, 1]);
    RowExampleShares();
  }

  lemma RowExampleSum()
    ensures Sum([3, 1]) == 4
  {
    var ws := [3, 1];
    assert ws[1..] == [1];
  }

  lemma RowExampleShares()
    ensures Shares([3, 1], 4.0) == [0.75, 0.25]
  {
    var r := Shares([3, 1], 4.0);
    assert r[0] == 0.75 && r[1] == 0.25;
  }

  lemma {:induction false} AllPositiveFrom(ws: seq<int>, start: nat)
    requires start <= |ws|
    requires forall i :: 0 <= i < |ws| ==> ws[i] > 0
    ensures |ActiveIndicesFrom(ws, start)| == |ws| - start
    ensures forall k :: 0 <= k < |ws| - start ==> ActiveIndicesFrom(ws, start)[k] == start + k
    decreases |ws| - start
  {
    if start < |ws| {
      var r := ActiveIndicesFrom(ws, start);
      var t := ActiveIndicesFrom(ws, start + 1);
      AllPositiveFrom(ws, start + 1);
      assert r == [start] + t;
      forall k | 0 <= k < |ws| - start ensures r[k] == start + k {
        if k > 0 {
          assert r[k] == t[k - 1];
        }
      }
    }
  }

  /** When every entry is positive, all of them are active. */
  lemma ActiveAllPositive(ws: seq<int>)
    requires forall i :: 0 <= i < |ws| ==> ws[i] > 0
    ensures ActiveWeights(ws) == ws
  {
    AllPositiveFrom(ws, 0);
  }

  // ---------------------------------------------------------------------
  // Normalisation to the fixed grid

  /** `normalized(maxColumns:maxRows:)`: exactly `maxColumns` columns and
      `maxRows` rows, clamped, truncated or zero-padded. */
  function Normalized(g: GridWeight, maxColumns: nat, maxRows: nat): (r: GridWeight)
    ensures WellFormed(r)
    ensures r.columns == NormalizeWeights(g.columns, maxColumns)
    ensures r.rows == NormalizeWeights(g.rows, maxRows)
  {
    MakeGridWeight(NormalizeWeights(g.columns, maxColumns), NormalizeWeights(g.rows, maxRows))
  }

  /** `normalized()` with its default arguments, the 4 x 3 grid. */
  function NormalizedToGrid(g: GridWeight): (r: GridWeight)
    ensures |r.columns| == GridCells.MaxColumns && |r.rows| == GridCells.MaxRows
    ensures WellFormed(r)
  {
    Normalized(g, GridCells.MaxColumns, GridCells.MaxRows)
  }

  /** Normalising twice is normalising once. */
  lemma NormalizedIdempotent(g: GridWeight, maxColumns: nat, maxRows: nat)
    ensures Normalized(Normalized(g, maxColumns, maxRows), maxColumns, maxRows)
         == Normalized(g, maxColumns, maxRows)
  {
    NormalizeIdempotent(g.columns, maxColumns);
    NormalizeIdempotent(g.rows, maxRows);
  }

  /** A well-formed grid of the right size is its own normalisation. */
  lemma NormalizedFixedPoint(g: GridWeight, maxColumns: nat, maxRows: nat)
    requires WellFormed(g) && |g.columns| == maxColumns && |g.rows| == maxRows
    ensures Normalized(g, maxColumns, maxRows) == g
  {
    NormalizeFixedPoint(g.columns, maxColumns);
    NormalizeFixedPoint(g.rows, maxRows);
  }

  // ---------------------------------------------------------------------
  // LayoutPreset

  datatype LayoutPreset = LayoutPreset(columnWeights: seq<int>, rowWeights: seq<int>)

  /** `LayoutPreset.init(columnWeights:rowWeights:)`: always 4 column and 3
      row weights, each in range, whatever the input lengths. */
  function MakePreset(columns: seq<int>, rows: seq<int>): (p: LayoutPreset)
    ensures |p.columnWeights| == GridCells.MaxColumns && |p.rowWeights| == GridCells.MaxRows
    ensures AllInRange(p.columnWeights) && AllInRange(p.rowWeights)
    ensures forall i :: 0 <= i < GridCells.MaxColumns && i < |columns| ==>
      p.columnWeights[i] == ClampWeight(columns[i])
    ensures forall i :: |columns| <= i < GridCells.MaxColumns ==> p.columnWeights[i] == 0
    ensures forall i :: 0 <= i < GridCells.MaxRows && i < |rows| ==>
      p.rowWeights[i] == ClampWeight(rows[i])
    ensures forall i :: |rows| <= i < GridCells.MaxRows ==> p.rowWeights[i] == 0
  {
    LayoutPreset(NormalizeWeights(columns, GridCells.MaxColumns),
                 NormalizeWeights(rows, GridCells.MaxRows))
  }

  /** Re-initialising a preset from its own vectors changes nothing. */
  lemma MakePresetIdempotent(columns: seq<int>, rows: seq<int>)
    ensures var p := MakePreset(columns, rows);
      MakePreset(p.columnWeights, p.rowWeights) == p
  {
    NormalizeIdempotent(columns, GridCells.MaxColumns);
    NormalizeIdempotent(rows, GridCells.MaxRows);
  }

  /** `LayoutPreset.defaultPreset()`: three columns over two rows. */
  function DefaultPreset(): (p: LayoutPreset)
    ensures p.columnWeights == [1, 1, 1, 0] && p.rowWeights == [1, 1, 0]
  {
    MakePreset([1, 1, 1, 0], [1, 1, 0])
  }

  /** `asLayoutPreset(maxColumns:maxRows:)`. The preset initialiser
      normalises again to 4 x 3, so the result has that shape whatever
      dimensions are passed. */
  function AsLayoutPreset(g: GridWeight, maxColumns: nat, maxRows: nat): (p: LayoutPreset)
    ensures |p.columnWeights| == GridCells.MaxColumns && |p.rowWeights| == GridCells.MaxRows
    ensures AllInRange(p.columnWeights) && AllInRange(p.rowWeights)
  {
    MakePreset(NormalizeWeights(g.columns, maxColumns), NormalizeWeights(g.rows, maxRows))
  }

  /** With the default grid dimensions, the preset carries exactly the
      vectors of `normalized()`. */
  lemma AsLayoutPresetMatchesNormalized(g: GridWeight)
    ensures AsLayoutPreset(g, GridCells.MaxColumns, GridCells.MaxRows).columnWeights
         == NormalizedToGrid(g).columns
    ensures AsLayoutPreset(g, GridCells.MaxColumns, GridCells.MaxRows).rowWeights
         == NormalizedToGrid(g).rows
  {
    NormalizeIdempotent(g.columns, GridCells.MaxColumns);
    NormalizeIdempotent(g.rows, GridCells.MaxRows);
  }

  /** The default grid weight, normalised, is the default preset. */
  lemma DefaultGridWeightIsDefaultPreset()
    ensures NormalizedToGrid(DefaultGridWeight()).columns == DefaultPreset().columnWeights
    ensures NormalizedToGrid(DefaultGridWeight()).rows == DefaultPreset().rowWeights
  {
    var n := NormalizedToGrid(DefaultGridWeight());
    assert n.columns == [1, 1, 1, 0];
    assert n.rows == [1, 1, 0];
  }
}
