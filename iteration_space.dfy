/** The index space of the derived-field loop: every (member, time, level)
    position, in the order the three nested loops reach them (member-major,
    then time, then level). */
module IterationSpace {

  datatype Triple = Triple(m: nat, t: nat, l: nat)

  predicate InSpace(x: Triple, nMembers: nat, nTimes: nat, nLevels: nat)
  {
    x.m < nMembers && x.t < nTimes && x.l < nLevels
  }

  /** Lexicographic order on positions: member first, then time, then level. */
  predicate LexLess(a: Triple, b: Triple)
  {
    a.m < b.m || (a.m == b.m && (a.t < b.t || (a.t == b.t && a.l < b.l)))
  }

  predicate Ascending(s: seq<Triple>)
  {
    forall i, j :: 0 <= i < j < |s| ==> LexLess(s[i], s[j])
  }

  /** The positions the innermost loop visits for member m and time t, when it
      has run n times. */
  function LevelRow(m: nat, t: nat, n: nat): (r: seq<Triple>)
    ensures |r| == n
  {
    if n == 0 then [] else LevelRow(m, t, n - 1) + [Triple(m, t, n - 1)]
  }

  /** The i-th visit of the level loop is level position i. */
  lemma {:induction false} LevelRowContents(m: nat, t: nat, n: nat)
    ensures forall i :: 0 <= i < n ==> LevelRow(m, t, n)[i] == Triple(m, t, i)
  {
    if n > 0 {
      LevelRowContents(m, t, n - 1);
      assert LevelRow(m, t, n) == LevelRow(m, t, n - 1) + [Triple(m, t, n - 1)];
    }
  }

  /** The positions visited for member m once the time loop has run nT times. */
  function TimeBlock(m: nat, nT: nat, nL: nat): (r: seq<Triple>)
  {
    if nT == 0 then [] else TimeBlock(m, nT - 1, nL) + LevelRow(m, nT - 1, nL)
  }

  /** The positions visited once the member loop has run nM times. */
  function Triples(nM: nat, nT: nat, nL: nat): (r: seq<Triple>)
  {
    if nM == 0 then [] else Triples(nM - 1, nT, nL) + TimeBlock(nM - 1, nT, nL)
  }

  lemma {:induction false} TimeBlockLength(m: nat, nT: nat, nL: nat)
    ensures |TimeBlock(m, nT, nL)| == nT * nL
  {
    if nT > 0 {
      TimeBlockLength(m, nT - 1, nL);
      assert |TimeBlock(m, nT, nL)| == |TimeBlock(m, nT - 1, nL)| + nL;
      assert (nT - 1) * nL + nL == nT * nL;
    }
  }

  /** The loop runs members x times x levels iterations. */
  lemma {:induction false} TriplesLength(nM: nat, nT: nat, nL: nat)
    ensures |Triples(nM, nT, nL)| == nM * nT * nL
  {
    if nM == 0 {
      assert nM * nT * nL == 0 * (nT * nL) by { MulAssoc(nM, nT, nL); }
    } else {
      var p := nM - 1;
      calc {
        |Triples(nM, nT, nL)|;
        |Triples(p, nT, nL)| + |TimeBlock(p, nT, nL)|;
        { TriplesLength(p, nT, nL); TimeBlockLength(p, nT, nL); }
        p * nT * nL + nT * nL;
        { MulAssoc(p, nT, nL); }
        p * (nT * nL) + nT * nL;
        (p + 1) * (nT * nL);
        { MulAssoc(nM, nT, nL); }
        nM * nT * nL;
      }
    }
  }

  lemma {:induction false} TimeBlockCover(m: nat, nT: nat, nL: nat, x: Triple)
    ensures x in TimeBlock(m, nT, nL) <==> x.m == m && x.t < nT && x.l < nL
  {
    if nT > 0 {
      TimeBlockCover(m, nT - 1, nL, x);
      LevelRowContents(m, nT - 1, nL);
      assert x in LevelRow(m, nT - 1, nL) <==> x.m == m && x.t == nT - 1 && x.l < nL;
    }
  }

  /** The positions visited are exactly those of the index space. */
  lemma {:induction false} TriplesCover(nM: nat, nT: nat, nL: nat, x: Triple)
    ensures x in Triples(nM, nT, nL) <==> InSpace(x, nM, nT, nL)
  {
    if nM > 0 {
      var p := nM - 1;
      TriplesCover(p, nT, nL, x);
      TimeBlockCover(p, nT, nL, x);
      assert Triples(nM, nT, nL) == Triples(p, nT, nL) + TimeBlock(p, nT, nL);
      assert x in Triples(nM, nT, nL) <==> x in Triples(p, nT, nL) || x in TimeBlock(p, nT, nL);
    }
  }

  lemma MulAssoc(a: nat, b: nat, c: nat)
    ensures a * b * c == a * (b * c)
  {
  }

  lemma AscendingConcat(a: seq<Triple>, b: seq<Triple>)
    requires Ascending(a) && Ascending(b)
    requires forall x, y :: x in a && y in b ==> LexLess(x, y)
    ensures Ascending(a + b)
  {
    forall i, j | 0 <= i < j < |a + b|
      ensures LexLess((a + b)[i], (a + b)[j])
    {
      if j < |a| {
      } else if i >= |a| {
        assert (a + b)[i] == b[i - |a|] && (a + b)[j] == b[j - |a|];
      } else {
        assert (a + b)[i] in a && (a + b)[j] in b;
      }
    }
  }

  lemma {:induction false} TimeBlockAscending(m: nat, nT: nat, nL: nat)
    ensures Ascending(TimeBlock(m, nT, nL))
  {
    if nT > 0 {
      TimeBlockAscending(m, nT - 1, nL);
      var row := LevelRow(m, nT - 1, nL);
      LevelRowContents(m, nT - 1, nL);
      forall x, y | x in TimeBlock(m, nT - 1, nL) && y in row
        ensures LexLess(x, y)
      {
        TimeBlockCover(m, nT - 1, nL, x);
      }
      AscendingConcat(TimeBlock(m, nT - 1, nL), row);
    }
  }

  /** The loop visits the positions in strictly increasing lexicographic order. */
  lemma {:induction false} TriplesAscending(nM: nat, nT: nat, nL: nat)
    ensures Ascending(Triples(nM, nT, nL))
  {
    if nM > 0 {
      var p := nM - 1;
      var done, block := Triples(p, nT, nL), TimeBlock(p, nT, nL);
      TriplesAscending(p, nT, nL);
      TimeBlockAscending(p, nT, nL);
      forall x, y | x in done && y in block
        ensures LexLess(x, y)
      {
        TriplesCover(p, nT, nL, x);
        TimeBlockCover(p, nT, nL, y);
      }
      AscendingConcat(done, block);
      assert Triples(nM, nT, nL) == done + block;
    }
  }

  /** Every position of the index space is visited, and exactly once. */
  lemma ExactlyOnce(nM: nat, nT: nat, nL: nat, x: Triple)
    ensures InSpace(x, nM, nT, nL) ==> multiset(Triples(nM, nT, nL))[x] == 1
    ensures !InSpace(x, nM, nT, nL) ==> multiset(Triples(nM, nT, nL))[x] == 0
  {
    var s := Triples(nM, nT, nL);
    TriplesAscending(nM, nT, nL);
    TriplesCover(nM, nT, nL, x);
    AscendingOnce(s, x);
  }

  lemma {:induction false} AscendingOnce(s: seq<Triple>, x: Triple)
    requires Ascending(s)
    ensures multiset(s)[x] == if x in s then 1 else 0
  {
    if s != [] {
      assert s == [s[0]] + s[1..];
      AscendingOnce(s[1..], x);
      if x == s[0] {
        assert x !in s[1..] by {
          forall j | 1 <= j < |s| ensures s[j] != s[0] {
            assert LexLess(s[0], s[j]);
          }
        }
      }
    }
  }

  /** In an ascending list the first position does not recur. */
  lemma AscendingHeadFresh(s: seq<Triple>)
    requires s != [] && Ascending(s)
    ensures s[0] !in s[1..]
  {
    forall j | 0 <= j < |s[1..]| ensures s[1..][j] != s[0] {
      assert LexLess(s[0], s[j + 1]);
    }
  }

  /** The positions of `ts` that satisfy `keep`, in the order of `ts`. */
  function Filter(keep: Triple -> bool, ts: seq<Triple>): seq<Triple>
  {
    if ts == [] then []
    else (if keep(ts[0]) then [ts[0]] else []) + Filter(keep, ts[1..])
  }

  lemma {:induction false} FilterMembership(keep: Triple -> bool, ts: seq<Triple>, x: Triple)
    ensures x in Filter(keep, ts) <==> x in ts && keep(x)
  {
    if ts != [] {
      assert ts == [ts[0]] + ts[1..];
      FilterMembership(keep, ts[1..], x);
    }
  }

  lemma {:induction false} FilterAppend(keep: Triple -> bool, a: seq<Triple>, b: seq<Triple>)
    ensures Filter(keep, a + b) == Filter(keep, a) + Filter(keep, b)
  {
    if a == [] {
      assert a + b == b;
    } else {
      var head := if keep(a[0]) then [a[0]] else [];
      assert (a + b)[1..] == a[1..] + b;
      assert (a + b)[0] == a[0];
      FilterAppend(keep, a[1..], b);
      assert Filter(keep, a + b) == head + Filter(keep, a[1..] + b);
      assert Filter(keep, a) == head + Filter(keep, a[1..]);
    }
  }

  /** The kept positions after the level loop for member m and time t has run
      n times, accumulated the way the loop does. */
  function RowFilter(keep: Triple -> bool, m: nat, t: nat, n: nat): seq<Triple>
  {
    if n == 0 then []
    else RowFilter(keep, m, t, n - 1) + (if keep(Triple(m, t, n - 1)) then [Triple(m, t, n - 1)] else [])
  }

  /** The kept positions after the time loop for member m has run nT times. */
  function BlockFilter(keep: Triple -> bool, m: nat, nT: nat, nL: nat): seq<Triple>
  {
    if nT == 0 then []
    else BlockFilter(keep, m, nT - 1, nL) + RowFilter(keep, m, nT - 1, nL)
  }

  /** The kept positions after the member loop has run nM times. */
  function RunFilter(keep: Triple -> bool, nM: nat, nT: nat, nL: nat): seq<Triple>
  {
    if nM == 0 then []
    else RunFilter(keep, nM - 1, nT, nL) + BlockFilter(keep, nM - 1, nT, nL)
  }

  lemma {:induction false} RowFilterIsFilter(keep: Triple -> bool, m: nat, t: nat, n: nat)
    ensures RowFilter(keep, m, t, n) == Filter(keep, LevelRow(m, t, n))
  {
    if n > 0 {
      var x := Triple(m, t, n - 1);
      RowFilterIsFilter(keep, m, t, n - 1);
      FilterAppend(keep, LevelRow(m, t, n - 1), [x]);
      assert [x][1..] == [];
    }
  }

  lemma {:induction false} BlockFilterIsFilter(keep: Triple -> bool, m: nat, nT: nat, nL: nat)
    ensures BlockFilter(keep, m, nT, nL) == Filter(keep, TimeBlock(m, nT, nL))
  {
    if nT > 0 {
      var done, row := TimeBlock(m, nT - 1, nL), LevelRow(m, nT - 1, nL);
      assert TimeBlock(m, nT, nL) == done + row;
      BlockFilterIsFilter(keep, m, nT - 1, nL);
      RowFilterIsFilter(keep, m, nT - 1, nL);
      FilterAppend(keep, done, row);
    }
  }

  /** Accumulating per member, time and level gives the filter of the whole
      visiting order. */
  lemma {:induction false} RunFilterIsFilter(keep: Triple -> bool, nM: nat, nT: nat, nL: nat)
    ensures RunFilter(keep, nM, nT, nL) == Filter(keep, Triples(nM, nT, nL))
  {
    if nM > 0 {
      var done, block := Triples(nM - 1, nT, nL), TimeBlock(nM - 1, nT, nL);
      assert Triples(nM, nT, nL) == done + block;
      RunFilterIsFilter(keep, nM - 1, nT, nL);
      BlockFilterIsFilter(keep, nM - 1, nT, nL);
      FilterAppend(keep, done, block);
    }
  }

  /** Filtering keeps the relative order of what it keeps. */
  lemma {:induction false} FilterAscending(keep: Triple -> bool, ts: seq<Triple>)
    requires Ascending(ts)
    ensures Ascending(Filter(keep, ts))
  {
    if ts != [] {
      var rest := Filter(keep, ts[1..]);
      FilterAscending(keep, ts[1..]);
      if keep(ts[0]) {
        forall y | y in rest ensures LexLess(ts[0], y) {
          FilterMembership(keep, ts[1..], y);
          var j :| 0 <= j < |ts[1..]| && ts[1..][j] == y;
          assert ts[j + 1] == y;
        }
        AscendingConcat([ts[0]], rest);
      }
    }
  }
}
