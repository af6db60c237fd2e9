/** The duration distribution of ana_duration_hours.py: the frequency table
    that `value_counts().sort_index()` builds from the case durations, the
    percentage printed for each of its rows, and the colour slot each case
    point receives in the scatter plot. Durations are whole hours. */
module DurationTable {

  /** Strictly increasing, hence free of repeats. */
  predicate StrictlyAscending(s: seq<int>)
  {
    forall i, j :: 0 <= i < j < |s| ==> s[i] < s[j]
  }

  /** Adds x to an ascending list of distinct values, keeping it so. */
  function Insert(x: int, s: seq<int>): seq<int>
  {
    if s == [] then [x]
    else if x < s[0] then [x] + s
    else if x == s[0] then s
    else [s[0]] + Insert(x, s[1..])
  }

  lemma {:induction false} InsertFacts(x: int, s: seq<int>)
    requires StrictlyAscending(s)
    ensures StrictlyAscending(Insert(x, s))
    ensures forall y :: y in Insert(x, s) <==> y == x || y in s
  {
    if s != [] && x > s[0] {
      var rest := Insert(x, s[1..]);
      InsertFacts(x, s[1..]);
      assert forall y :: y in s <==> y == s[0] || y in s[1..];
      forall j | 0 <= j < |rest| ensures s[0] < rest[j] {
        assert rest[j] in rest;
        if rest[j] != x {
          var k :| 0 <= k < |s[1..]| && s[1..][k] == rest[j];
          assert s[k + 1] == rest[j];
        }
      }
      assert Insert(x, s) == [s[0]] + rest;
    }
  }

  /** The distinct durations in ascending order: the index of the table. */
  function Distinct(ds: seq<int>): seq<int>
  {
    if ds == [] then [] else Insert(ds[0], Distinct(ds[1..]))
  }

  /** The index lists each duration that occurs, once, in ascending order. */
  lemma {:induction false} DistinctFacts(ds: seq<int>)
    ensures StrictlyAscending(Distinct(ds))
    ensures forall x :: x in Distinct(ds) <==> x in ds
  {
    if ds != [] {
      DistinctFacts(ds[1..]);
      InsertFacts(ds[0], Distinct(ds[1..]));
      assert forall x :: x in ds <==> x == ds[0] || x in ds[1..];
    }
  }

  /** The number of cases whose duration equals x exactly. */
  function CountOf(x: int, ds: seq<int>): nat
  {
    if ds == [] then 0
    else (if ds[0] == x then 1 else 0) + CountOf(x, ds[1..])
  }

  lemma {:induction false} CountIsMultiplicity(x: int, ds: seq<int>)
    ensures CountOf(x, ds) == multiset(ds)[x]
  {
    if ds != [] {
      assert ds == [ds[0]] + ds[1..];
      CountIsMultiplicity(x, ds[1..]);
    }
  }

  lemma {:induction false} CountPositiveIff(x: int, ds: seq<int>)
    ensures CountOf(x, ds) > 0 <==> x in ds
  {
    if ds != [] {
      CountPositiveIff(x, ds[1..]);
      assert x in ds <==> x == ds[0] || x in ds[1..];
    }
  }

  /** One line of the printed distribution. */
  datatype Row = Row(duration: int, count: nat, percentage: real)

  /** `(count / len(df)) * 100`, over the reals. */
  function Percentage(count: nat, n: nat): real
    requires n > 0
  {
    (count as real / n as real) * 100.0
  }

  /** The table: one row per distinct duration, ascending, with its count and
      its share of all cases. */
  function Distribution(ds: seq<int>): (rows: seq<Row>)
    ensures |rows| == |Distinct(ds)|
  {
    var keys := Distinct(ds);
    DistinctFacts(ds);
    assert keys != [] ==> keys[0] in ds;
    seq(|keys|, i requires 0 <= i < |keys| && ds != [] =>
      Row(keys[i], CountOf(keys[i], ds), Percentage(CountOf(keys[i], ds), |ds|)))
  }

  /** The rows are keyed by the distinct durations, each once, ascending. */
  lemma DistributionKeys(ds: seq<int>)
    ensures forall i, j :: 0 <= i < j < |Distribution(ds)| ==>
              Distribution(ds)[i].duration < Distribution(ds)[j].duration
    ensures forall x :: x in ds <==> exists i :: 0 <= i < |Distribution(ds)| && Distribution(ds)[i].duration == x
  {
    var keys, rows := Distinct(ds), Distribution(ds);
    DistinctFacts(ds);
    forall x | x in ds
      ensures exists i :: 0 <= i < |rows| && rows[i].duration == x
    {
      var i :| 0 <= i < |keys| && keys[i] == x;
      assert rows[i].duration == x;
    }
  }

  /** Each row counts exactly the cases of its duration, so no count is 0. */
  lemma DistributionCounts(ds: seq<int>)
    ensures forall i :: 0 <= i < |Distribution(ds)| ==>
              Distribution(ds)[i].count == multiset(ds)[Distribution(ds)[i].duration]
              && Distribution(ds)[i].count >= 1
  {
    var keys, rows := Distinct(ds), Distribution(ds);
    DistinctFacts(ds);
    forall i | 0 <= i < |rows|
      ensures rows[i].count == multiset(ds)[rows[i].duration] && rows[i].count >= 1
    {
      assert keys[i] in ds;
      CountIsMultiplicity(keys[i], ds);
      CountPositiveIff(keys[i], ds);
    }
  }

  function SumCounts(rows: seq<Row>): nat
  {
    if rows == [] then 0 else rows[0].count + SumCounts(rows[1..])
  }

  function SumPercentages(rows: seq<Row>): real
  {
    if rows == [] then 0.0 else rows[0].percentage + SumPercentages(rows[1..])
  }

  /** The counts of the keys, summed over a list of keys. */
  function KeyTotal(keys: seq<int>, ds: seq<int>): nat
  {
    if keys == [] then 0 else CountOf(keys[0], ds) + KeyTotal(keys[1..], ds)
  }

  /** One more case adds one to the count of each key equal to it. */
  lemma {:induction false} KeyTotalCons(keys: seq<int>, d: int, ds: seq<int>)
    ensures KeyTotal(keys, [d] + ds) == CountOf(d, keys) + KeyTotal(keys, ds)
  {
    if keys != [] {
      assert ([d] + ds)[1..] == ds;
      KeyTotalCons(keys[1..], d, ds);
    }
  }

  lemma {:induction false} CountInAscending(x: int, keys: seq<int>)
    requires StrictlyAscending(keys)
    ensures CountOf(x, keys) == if x in keys then 1 else 0
  {
    if keys != [] {
      CountInAscending(x, keys[1..]);
      assert x in keys <==> x == keys[0] || x in keys[1..];
      if x == keys[0] {
        assert x !in keys[1..] by {
          forall j | 0 <= j < |keys[1..]| ensures keys[1..][j] != x {
            assert keys[0] < keys[j + 1];
          }
        }
      }
    }
  }

  /** Over distinct keys that cover every case, the counts add up to the
      number of cases. */
  lemma {:induction false} KeyTotalIsSize(keys: seq<int>, ds: seq<int>)
    requires StrictlyAscending(keys)
    requires forall x :: x in ds ==> x in keys
    ensures KeyTotal(keys, ds) == |ds|
  {
    if ds == [] {
      KeyTotalEmpty(keys);
    } else {
      assert ds == [ds[0]] + ds[1..];
      KeyTotalCons(keys, ds[0], ds[1..]);
      CountInAscending(ds[0], keys);
      KeyTotalIsSize(keys, ds[1..]);
    }
  }

  lemma {:induction false} KeyTotalEmpty(keys: seq<int>)
    ensures KeyTotal(keys, []) == 0
  {
    if keys != [] {
      KeyTotalEmpty(keys[1..]);
    }
  }

  /** The rows' counts are the keys' counts, in order. */
  lemma {:induction false} SumCountsOfSuffix(ds: seq<int>, k: nat)
    requires k <= |Distinct(ds)|
    ensures SumCounts(Distribution(ds)[k..]) == KeyTotal(Distinct(ds)[k..], ds)
    decreases |Distinct(ds)| - k
  {
    var keys, rows := Distinct(ds), Distribution(ds);
    if k < |keys| {
      SumCountsOfSuffix(ds, k + 1);
      assert rows[k..][1..] == rows[k + 1..];
      assert keys[k..][1..] == keys[k + 1..];
    }
  }

  /** The counts of the table add up to the number of cases. */
  lemma CountsSumToTotal(ds: seq<int>)
    ensures SumCounts(Distribution(ds)) == |ds|
  {
    var keys, rows := Distinct(ds), Distribution(ds);
    SumCountsOfSuffix(ds, 0);
    assert rows[0..] == rows && keys[0..] == keys;
    DistinctFacts(ds);
    KeyTotalIsSize(keys, ds);
  }

  lemma ScaledSum(a: real, b: real, n: real)
    requires n > 0.0
    ensures (a / n) * 100.0 + (b / n) * 100.0 == ((a + b) / n) * 100.0
  {
  }

  /** Summing the printed percentages sums the counts, scaled. */
  lemma {:induction false} SumPercentagesScaled(rows: seq<Row>, n: nat)
    requires n > 0
    requires forall i :: 0 <= i < |rows| ==> rows[i].percentage == Percentage(rows[i].count, n)
    ensures SumPercentages(rows) == (SumCounts(rows) as real / n as real) * 100.0
  {
    if rows != [] {
      SumPercentagesScaled(rows[1..], n);
      ScaledSum(rows[0].count as real, SumCounts(rows[1..]) as real, n as real);
    }
  }

  /** Over the reals the printed percentages add up to 100 exactly. */
  lemma PercentagesSumToHundred(ds: seq<int>)
    requires ds != []
    ensures SumPercentages(Distribution(ds)) == 100.0
  {
    var rows := Distribution(ds);
    SumPercentagesScaled(rows, |ds|);
    CountsSumToTotal(ds);
    DivSelf(|ds| as real);
  }

  /** Four cases of 10, 10, 20 and 40 hours print three rows. */
  lemma DistributionExample()
    ensures Distribution([10, 10, 20, 40])
            == [Row(10, 2, 50.0), Row(20, 1, 25.0), Row(40, 1, 25.0)]
  {
    var ds := [10, 10, 20, 40];
    assert Distinct(ds[3..]) == [40];
    assert Distinct(ds[2..]) == [20, 40];
    assert Distinct(ds[1..]) == [10, 20, 40];
    assert Distinct(ds) == [10, 20, 40];
    assert CountOf(10, ds) == 2 && CountOf(20, ds) == 1 && CountOf(40, ds) == 1;
  }

  /** `np.linspace(0, 1, k)`: k evenly spaced positions from 0 to 1; a single
      position is 0. */
  function Linspace(k: nat): (r: seq<real>)
    ensures |r| == k
  {
    if k == 1 then [0.0]
    else seq(k, i => i as real / (k - 1) as real)
  }

  /** The positions run from 0 to 1 and strictly increase. */
  lemma LinspaceShape(k: nat)
    ensures forall i :: 0 <= i < k ==> 0.0 <= Linspace(k)[i] <= 1.0
    ensures forall i, j :: 0 <= i < j < k ==> Linspace(k)[i] < Linspace(k)[j]
    ensures k > 1 ==> Linspace(k)[0] == 0.0 && Linspace(k)[k - 1] == 1.0
  {
    if k > 1 {
      var r, d := Linspace(k), (k - 1) as real;
      assert forall i :: 0 <= i < k ==> r[i] == i as real / d;
      forall i | 0 <= i < k ensures 0.0 <= r[i] <= 1.0 {
        DivBounds(i as real, d);
      }
      forall i, j | 0 <= i < j < k ensures r[i] < r[j] {
        DivMonotone(i as real, j as real, d);
      }
      DivSelf(d);
    }
  }

  lemma DivSelf(d: real)
    requires d > 0.0
    ensures 0.0 / d == 0.0 && d / d == 1.0
  {
  }

  lemma DivBounds(a: real, d: real)
    requires 0.0 <= a <= d && d > 0.0
    ensures 0.0 <= a / d <= 1.0
  {
  }

  lemma DivMonotone(a: real, b: real, d: real)
    requires a < b && d > 0.0
    ensures a / d < b / d
  {
  }

  /** `dict(zip(keys, vals))`: a later pair overrides an earlier one. */
  function ZipMap(keys: seq<int>, vals: seq<real>): (m: map<int, real>)
    requires |keys| == |vals|
    ensures forall x :: x in m <==> x in keys
  {
    if keys == [] then map[]
    else
      var n := |keys| - 1;
      assert forall x :: x in keys <==> x in keys[..n] || x == keys[n];
      ZipMap(keys[..n], vals[..n])[keys[n] := vals[n]]
  }

  /** With distinct keys, each key is paired with the value at its own
      position. */
  lemma {:induction false} ZipMapAt(keys: seq<int>, vals: seq<real>, i: nat)
    requires |keys| == |vals| && StrictlyAscending(keys) && i < |keys|
    ensures ZipMap(keys, vals)[keys[i]] == vals[i]
  {
    var n := |keys| - 1;
    if i < n {
      assert keys[i] != keys[n];
      ZipMapAt(keys[..n], vals[..n], i);
    }
  }

  /** `duration_color_map`: the colormap position of each distinct duration. */
  function ColorMap(ds: seq<int>): (m: map<int, real>)
    ensures forall x :: x in m <==> x in ds
  {
    DistinctFacts(ds);
    ZipMap(Distinct(ds), Linspace(|Distinct(ds)|))
  }

  /** The map has one entry per distinct duration, the i-th smallest getting
      the i-th colormap position. */
  lemma ColorMapPositions(ds: seq<int>)
    ensures forall i :: 0 <= i < |Distinct(ds)| ==>
              Distinct(ds)[i] in ColorMap(ds)
              && ColorMap(ds)[Distinct(ds)[i]] == Linspace(|Distinct(ds)|)[i]
  {
    var keys := Distinct(ds);
    DistinctFacts(ds);
    forall i | 0 <= i < |keys|
      ensures keys[i] in ColorMap(ds) && ColorMap(ds)[keys[i]] == Linspace(|keys|)[i]
    {
      ZipMapAt(keys, Linspace(|keys|), i);
    }
  }

  /** A longer duration gets a strictly later colormap position, and every
      position lies in [0, 1]. */
  lemma ColorMapMonotone(ds: seq<int>, x: int, y: int)
    requires x in ds && y in ds
    ensures 0.0 <= ColorMap(ds)[x] <= 1.0
    ensures x < y ==> ColorMap(ds)[x] < ColorMap(ds)[y]
  {
    var keys := Distinct(ds);
    var k := |keys|;
    DistinctFacts(ds);
    ColorMapPositions(ds);
    LinspaceShape(k);
    var i :| 0 <= i < k && keys[i] == x;
    var j :| 0 <= j < k && keys[j] == y;
    if x < y {
      assert i < j;
    }
  }

  /** `point_colors`: one colormap position per case, in row order. */
  function PointColors(ds: seq<int>): (r: seq<real>)
    ensures |r| == |ds|
  {
    var m := ColorMap(ds);
    seq(|ds|, i requires 0 <= i < |ds| => assert ds[i] in ds; m[ds[i]])
  }

  /** Each case gets its own duration's colour, and two cases get the same
      colour exactly when their durations are equal. */
  lemma PointColorsMatch(ds: seq<int>)
    ensures forall i :: 0 <= i < |ds| ==> PointColors(ds)[i] == ColorMap(ds)[ds[i]]
    ensures forall i, j :: 0 <= i < |ds| && 0 <= j < |ds| ==>
              (PointColors(ds)[i] == PointColors(ds)[j] <==> ds[i] == ds[j])
  {
    var r := PointColors(ds);
    forall i, j | 0 <= i < |ds| && 0 <= j < |ds|
      ensures r[i] == r[j] <==> ds[i] == ds[j]
    {
      ColorMapMonotone(ds, ds[i], ds[j]);
      ColorMapMonotone(ds, ds[j], ds[i]);
    }
  }
}
