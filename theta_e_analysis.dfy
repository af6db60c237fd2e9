/** The iterative derived-field driver of calc_WRF_ThetaE_Analysis.py: six
    output arrays indexed by (member, time, level) are pre-allocated with a
    not-a-number sentinel, a member x time x level loop fills one slot per
    position and skips the positions whose computation raises, and the
    number of valid cells of each variable is reported. The numerical
    kernel (MetPy gradients, divergence, vorticity) is an opaque function. */
module ThetaEAnalysis {

  import opened Optional
  import opened IterationSpace
  import LevelFilter

  /** One horizontal field as the kernel returns it: a two-dimensional array
      with its shape (rows, cols) and its values in row-major order; the
      values themselves are never inspected. */
  datatype Plane = Plane(rows: nat, cols: nat, values: seq<real>)

  /** The six output variables, in the order the store writes them and the
      report lists them. */
  datatype Var = Eth | Dtedx | Dtedy | Absthe | Divg | Vort

  const VarOrder: seq<Var> := [Eth, Dtedx, Dtedy, Absthe, Divg, Vort]

  function Rank(v: Var): (k: nat)
    ensures k < 6 && VarOrder[k] == v
  {
    match v
    case Eth => 0
    case Dtedx => 1
    case Dtedy => 2
    case Absthe => 3
    case Divg => 4
    case Vort => 5
  }

  /** What the kernel yields for one position: theta-e, its two gradient
      components, the gradient magnitude, divergence and vorticity. */
  datatype SixPlanes = SixPlanes(eth: Plane, dtedx: Plane, dtedy: Plane,
                                 absthe: Plane, divg: Plane, vort: Plane)
  {
    function Of(v: Var): Plane
    {
      match v
      case Eth => eth
      case Dtedx => dtedx
      case Dtedy => dtedy
      case Absthe => absthe
      case Divg => divg
      case Vort => vort
    }
  }

  /** Reading the slices and computing the derived fields for member index m,
      time index t and pressure level `level`; None stands for an exception
      raised before the results are stored. */
  type Kernel = (nat, nat, int) -> Option<SixPlanes>

  /** A plane can be assigned into an (ny, nx) slot: its shape is the
      slot's shape. */
  predicate Fits(p: Plane, ny: nat, nx: nat)
  {
    p.rows == ny && p.cols == nx
  }

  /** How many variables the store writes before an assignment raises: the
      six assignments run in VarOrder and the first plane that does not fit
      the slot raises. */
  function Written(s: SixPlanes, ny: nat, nx: nat): nat
  {
    if !Fits(s.eth, ny, nx) then 0
    else if !Fits(s.dtedx, ny, nx) then 1
    else if !Fits(s.dtedy, ny, nx) then 2
    else if !Fits(s.absthe, ny, nx) then 3
    else if !Fits(s.divg, ny, nx) then 4
    else if !Fits(s.vort, ny, nx) then 5
    else 6
  }

  /** Written is the rank of the first plane that does not fit, or 6. */
  lemma WrittenIsFirstMisfit(s: SixPlanes, ny: nat, nx: nat)
    ensures Written(s, ny, nx) <= 6
    ensures forall v :: Rank(v) < Written(s, ny, nx) ==> Fits(s.Of(v), ny, nx)
    ensures Written(s, ny, nx) < 6 ==> !Fits(s.Of(VarOrder[Written(s, ny, nx)]), ny, nx)
  {
  }

  /** The content of variable v's slot once position (m, t, level) has been
      processed from a sentinel slot. */
  function Expected(kernel: Kernel, v: Var, m: nat, t: nat, level: int, ny: nat, nx: nat): Option<Plane>
  {
    match kernel(m, t, level)
    case None => None
    case Some(s) => if Rank(v) < Written(s, ny, nx) then Some(s.Of(v)) else None
  }

  /** The position raised somewhere in its try block and was reported. */
  predicate Failed(kernel: Kernel, m: nat, t: nat, level: int, ny: nat, nx: nat)
  {
    match kernel(m, t, level)
    case None => true
    case Some(s) => Written(s, ny, nx) < 6
  }

  /** The store only ever writes planes of the slot's shape. */
  lemma ExpectedFits(kernel: Kernel, v: Var, m: nat, t: nat, level: int, ny: nat, nx: nat)
    ensures Expected(kernel, v, m, t, level, ny, nx).Some?
            ==> Fits(Expected(kernel, v, m, t, level, ny, nx).value, ny, nx)
  {
    match kernel(m, t, level)
    case None =>
    case Some(s) => WrittenIsFirstMisfit(s, ny, nx);
  }

  /** A position whose kernel raises keeps the sentinel in all six slots. */
  lemma RaisedKeepsSentinel(kernel: Kernel, v: Var, m: nat, t: nat, level: int, ny: nat, nx: nat)
    requires kernel(m, t, level).None?
    ensures Failed(kernel, m, t, level, ny, nx)
    ensures Expected(kernel, v, m, t, level, ny, nx) == None
  {
  }

  /** A position is reported exactly when its last variable, vorticity, was
      not stored; a position that is not reported has all six slots filled
      with the kernel's planes. */
  lemma FailedIffIncomplete(kernel: Kernel, m: nat, t: nat, level: int, ny: nat, nx: nat)
    ensures Failed(kernel, m, t, level, ny, nx) <==> Expected(kernel, Vort, m, t, level, ny, nx) == None
    ensures !Failed(kernel, m, t, level, ny, nx) ==>
              forall v :: Expected(kernel, v, m, t, level, ny, nx) == Some(kernel(m, t, level).value.Of(v))
  {
  }

  /** A store that raises midway leaves the slot torn: the variables before
      the misfit hold computed planes, the rest keep the sentinel, and the
      position is reported all the same. */
  lemma TornSlot()
    ensures var p := Plane(1, 1, [1.0]);
            var q := Plane(1, 2, [1.0, 2.0]);
            var kernel: Kernel := (m, t, level) => Some(SixPlanes(p, p, p, q, p, p));
            && Failed(kernel, 0, 0, 850, 1, 1)
            && Expected(kernel, Eth, 0, 0, 850, 1, 1) == Some(p)
            && Expected(kernel, Dtedy, 0, 0, 850, 1, 1) == Some(p)
            && Expected(kernel, Absthe, 0, 0, 850, 1, 1) == None
            && Expected(kernel, Vort, 0, 0, 850, 1, 1) == None
  {
  }

  /** Position x, whose level index selects a level of `levels`, failed. */
  predicate FailedAt(kernel: Kernel, levels: seq<int>, ny: nat, nx: nat, x: Triple)
  {
    x.l < |levels| && Failed(kernel, x.m, x.t, levels[x.l], ny, nx)
  }

  /** The test the loop applies when it decides to report a position. */
  function Reported(kernel: Kernel, levels: seq<int>, ny: nat, nx: nat): Triple -> bool
  {
    x => FailedAt(kernel, levels, ny, nx, x)
  }

  /** The report of a whole run names each failing position of the index
      space, and nothing else. */
  lemma ReportedExactly(kernel: Kernel, levels: seq<int>, ny: nat, nx: nat,
                        nMembers: nat, nTimes: nat, x: Triple)
    ensures x in Filter(Reported(kernel, levels, ny, nx), Triples(nMembers, nTimes, |levels|))
            <==> InSpace(x, nMembers, nTimes, |levels|) && Failed(kernel, x.m, x.t, levels[x.l], ny, nx)
  {
    FilterMembership(Reported(kernel, levels, ny, nx), Triples(nMembers, nTimes, |levels|), x);
    TriplesCover(nMembers, nTimes, |levels|, x);
  }

  /** The report of a whole run lists each failing position once, in
      visiting order. */
  lemma ReportedOnce(kernel: Kernel, levels: seq<int>, ny: nat, nx: nat,
                     nMembers: nat, nTimes: nat)
    ensures Ascending(Filter(Reported(kernel, levels, ny, nx), Triples(nMembers, nTimes, |levels|)))
  {
    TriplesAscending(nMembers, nTimes, |levels|);
    FilterAscending(Reported(kernel, levels, ny, nx), Triples(nMembers, nTimes, |levels|));
  }

  class OutputArrays {
    const nMembers: nat
    const nTimes: nat
    /** The level coordinate of the output: the levels actually processed. */
    const levels: seq<int>
    const ny: nat
    const nx: nat
    const eth: array3<Option<Plane>>
    const dtedx: array3<Option<Plane>>
    const dtedy: array3<Option<Plane>>
    const absthe: array3<Option<Plane>>
    const divg: array3<Option<Plane>>
    const vort: array3<Option<Plane>>

    function Grid(v: Var): (a: array3<Option<Plane>>)
      ensures a in Repr()
    {
      match v
      case Eth => eth
      case Dtedx => dtedx
      case Dtedy => dtedy
      case Absthe => absthe
      case Divg => divg
      case Vort => vort
    }

    ghost function Repr(): set<object>
    {
      {eth, dtedx, dtedy, absthe, divg, vort}
    }

    predicate InRange(m: nat, t: nat, l: nat)
    {
      m < nMembers && t < nTimes && l < |levels|
    }

    /** Every array has shape (members, times, levels) and the six arrays are
        distinct. */
    predicate Shaped()
    {
      && (forall v :: Grid(v).Length0 == nMembers && Grid(v).Length1 == nTimes
                      && Grid(v).Length2 == |levels|)
      && (forall v, w :: v != w ==> Grid(v) != Grid(w))
    }

    /** Every slot of every variable holds the sentinel. */
    ghost predicate Sentinel()
      requires Shaped()
      reads Repr()
    {
      forall v, m: nat, t: nat, l: nat | InRange(m, t, l) :: Grid(v)[m, t, l] == None
    }

    /** Pre-allocation: six arrays of shape (members, times, levels, ny, nx),
        every cell the sentinel. */
    constructor (nMembers: nat, nTimes: nat, levels: seq<int>, ny: nat, nx: nat)
      ensures Shaped() && fresh(Repr()) && Sentinel()
      ensures this.nMembers == nMembers && this.nTimes == nTimes && this.levels == levels
      ensures this.ny == ny && this.nx == nx
    {
      this.nMembers, this.nTimes, this.levels, this.ny, this.nx := nMembers, nTimes, levels, ny, nx;
      var nl := |levels|;
      eth := new Option<Plane>[nMembers, nTimes, nl]((m, t, l) => None);
      dtedx := new Option<Plane>[nMembers, nTimes, nl]((m, t, l) => None);
      dtedy := new Option<Plane>[nMembers, nTimes, nl]((m, t, l) => None);
      absthe := new Option<Plane>[nMembers, nTimes, nl]((m, t, l) => None);
      divg := new Option<Plane>[nMembers, nTimes, nl]((m, t, l) => None);
      vort := new Option<Plane>[nMembers, nTimes, nl]((m, t, l) => None);
      new;
      forall v ensures forall m: nat, t: nat, l: nat | InRange(m, t, l) :: Grid(v)[m, t, l] == None {
        assert Grid(v) in Repr();
      }
    }

    /** One assignment `output_arrays[v][m, t, l] = p` of a plane that fits. */
    method Put(v: Var, m: nat, t: nat, l: nat, p: Plane)
      requires Shaped() && InRange(m, t, l) && Fits(p, ny, nx)
      modifies Grid(v)
      ensures Shaped()
      ensures Grid(v)[m, t, l] == Some(p)
      ensures forall w, m': nat, t': nat, l': nat
                | InRange(m', t', l') && (w != v || m' != m || t' != t || l' != l) ::
                Grid(w)[m', t', l'] == old(Grid(w)[m', t', l'])
    {
      Grid(v)[m, t, l] := Some(p);
    }

    /** The six assignments into slot (m, t, l), in VarOrder; the first plane
        that does not fit raises, leaving the variables before it written and
        the rest untouched. No other slot changes. */
    method Store(m: nat, t: nat, l: nat, s: SixPlanes) returns (complete: bool)
      requires Shaped() && InRange(m, t, l)
      modifies Repr()
      ensures Shaped()
      ensures complete == (Written(s, ny, nx) == 6)
      ensures forall v :: Grid(v)[m, t, l]
                == if Rank(v) < Written(s, ny, nx) then Some(s.Of(v)) else old(Grid(v)[m, t, l])
      ensures forall v, m': nat, t': nat, l': nat
                | InRange(m', t', l') && (m' != m || t' != t || l' != l) ::
                Grid(v)[m', t', l'] == old(Grid(v)[m', t', l'])
    {
      WrittenIsFirstMisfit(s, ny, nx);
      complete := false;
      if !Fits(s.eth, ny, nx) { return; }
      Put(Eth, m, t, l, s.eth);
      if !Fits(s.dtedx, ny, nx) { return; }
      Put(Dtedx, m, t, l, s.dtedx);
      if !Fits(s.dtedy, ny, nx) { return; }
      Put(Dtedy, m, t, l, s.dtedy);
      if !Fits(s.absthe, ny, nx) { return; }
      Put(Absthe, m, t, l, s.absthe);
      if !Fits(s.divg, ny, nx) { return; }
      Put(Divg, m, t, l, s.divg);
      if !Fits(s.vort, ny, nx) { return; }
      Put(Vort, m, t, l, s.vort);
      complete := true;
    }

    /** The try block for one position, from a sentinel slot: the kernel's
        exception leaves every slot as it was; otherwise the store runs. The
        result says whether an error was reported. */
    method Attempt(kernel: Kernel, m: nat, t: nat, l: nat) returns (failed: bool)
      requires Shaped() && InRange(m, t, l)
      requires forall v :: Grid(v)[m, t, l] == None
      modifies Repr()
      ensures Shaped()
      ensures failed == Failed(kernel, m, t, levels[l], ny, nx)
      ensures forall v :: Grid(v)[m, t, l] == Expected(kernel, v, m, t, levels[l], ny, nx)
      ensures forall v, m': nat, t': nat, l': nat
                | InRange(m', t', l') && (m' != m || t' != t || l' != l) ::
                Grid(v)[m', t', l'] == old(Grid(v)[m', t', l'])
    {
      match kernel(m, t, levels[l]) {
        case None =>
          failed := true;
        case Some(s) =>
          var complete := Store(m, t, l, s);
          failed := !complete;
      }
    }

    /** The level loop for member mi and time ti: every level position is
        attempted in order from a sentinel slot; no other slot changes. */
    method FillLevels(kernel: Kernel, ghost keep: Triple -> bool, mi: nat, ti: nat)
      returns (iterations: nat, errors: seq<Triple>)
      requires Shaped() && mi < nMembers && ti < nTimes
      requires forall x {:trigger FailedAt(kernel, levels, ny, nx, x)} ::
                 keep(x) == FailedAt(kernel, levels, ny, nx, x)
      requires forall v, l: nat | l < |levels| :: Grid(v)[mi, ti, l] == None
      modifies Repr()
      ensures iterations == |levels|
      ensures errors == RowFilter(keep, mi, ti, |levels|)
      ensures forall v, l: nat | l < |levels| ::
                Grid(v)[mi, ti, l] == Expected(kernel, v, mi, ti, levels[l], ny, nx)
      ensures forall v, m: nat, t: nat, l: nat | InRange(m, t, l) && (m != mi || t != ti) ::
                Grid(v)[m, t, l] == old(Grid(v)[m, t, l])
    {
      iterations, errors := 0, [];
      var li := 0;
      while li < |levels|
        invariant li <= |levels|
        invariant iterations == li
        invariant errors == RowFilter(keep, mi, ti, li)
        invariant forall v, l: nat | l < li ::
                    Grid(v)[mi, ti, l] == Expected(kernel, v, mi, ti, levels[l], ny, nx)
        invariant forall v, l: nat | li <= l < |levels| :: Grid(v)[mi, ti, l] == None
        invariant forall v, m: nat, t: nat, l: nat | InRange(m, t, l) && (m != mi || t != ti) ::
                    Grid(v)[m, t, l] == old(Grid(v)[m, t, l])
      {
        iterations := iterations + 1;
        label before:
        var failed := Attempt(kernel, mi, ti, li);
        assert failed == FailedAt(kernel, levels, ny, nx, Triple(mi, ti, li));
        forall v, l: nat | l < |levels| && l != li
          ensures Grid(v)[mi, ti, l] == old@before(Grid(v)[mi, ti, l])
        {
          assert InRange(mi, ti, l);
        }
        if failed {
          errors := errors + [Triple(mi, ti, li)];
        }
        li := li + 1;
      }
    }

    /** The time loop for member mi. */
    method FillTimes(kernel: Kernel, ghost keep: Triple -> bool, mi: nat)
      returns (iterations: nat, errors: seq<Triple>)
      requires Shaped() && mi < nMembers
      requires forall x {:trigger FailedAt(kernel, levels, ny, nx, x)} ::
                 keep(x) == FailedAt(kernel, levels, ny, nx, x)
      requires forall v, t: nat, l: nat | t < nTimes && l < |levels| :: Grid(v)[mi, t, l] == None
      modifies Repr()
      ensures iterations == nTimes * |levels|
      ensures errors == BlockFilter(keep, mi, nTimes, |levels|)
      ensures forall v, t: nat, l: nat | t < nTimes && l < |levels| ::
                Grid(v)[mi, t, l] == Expected(kernel, v, mi, t, levels[l], ny, nx)
      ensures forall v, m: nat, t: nat, l: nat | InRange(m, t, l) && m != mi ::
                Grid(v)[m, t, l] == old(Grid(v)[m, t, l])
    {
      iterations, errors := 0, [];
      var ti := 0;
      while ti < nTimes
        invariant ti <= nTimes
        invariant iterations == ti * |levels|
        invariant errors == BlockFilter(keep, mi, ti, |levels|)
        invariant forall v, t: nat, l: nat | t < ti && l < |levels| ::
                    Grid(v)[mi, t, l] == Expected(kernel, v, mi, t, levels[l], ny, nx)
        invariant forall v, t: nat, l: nat | ti <= t < nTimes && l < |levels| :: Grid(v)[mi, t, l] == None
        invariant forall v, m: nat, t: nat, l: nat | InRange(m, t, l) && m != mi ::
                    Grid(v)[m, t, l] == old(Grid(v)[m, t, l])
      {
        label before:
        var n, e := FillLevels(kernel, keep, mi, ti);
        forall v, t: nat, l: nat | t < nTimes && l < |levels| && t != ti
          ensures Grid(v)[mi, t, l] == old@before(Grid(v)[mi, t, l])
        {
          assert InRange(mi, t, l);
        }
        assert (ti + 1) * |levels| == ti * |levels| + |levels|;
        iterations, errors := iterations + n, errors + e;
        ti := ti + 1;
      }
    }

    /** The member x time x level loop: every position is visited once, in
        lexicographic order, and counted; a position whose kernel raises is
        reported and its slots keep the sentinel, otherwise the store fills its
        slots. The report lists the failing positions in visiting order. */
    method Fill(kernel: Kernel, ghost keep: Triple -> bool) returns (iterations: nat, errors: seq<Triple>)
      requires Shaped() && Sentinel()
      requires forall x {:trigger FailedAt(kernel, levels, ny, nx, x)} ::
                 keep(x) == FailedAt(kernel, levels, ny, nx, x)
      modifies Repr()
      ensures iterations == nMembers * nTimes * |levels|
      ensures errors == RunFilter(keep, nMembers, nTimes, |levels|)
      ensures forall v, m: nat, t: nat, l: nat | InRange(m, t, l) ::
                Grid(v)[m, t, l] == Expected(kernel, v, m, t, levels[l], ny, nx)
    {
      iterations, errors := 0, [];
      var mi := 0;
      while mi < nMembers
        invariant mi <= nMembers
        invariant iterations == mi * (nTimes * |levels|)
        invariant errors == RunFilter(keep, mi, nTimes, |levels|)
        invariant forall v, m: nat, t: nat, l: nat | InRange(m, t, l) && m < mi ::
                    Grid(v)[m, t, l] == Expected(kernel, v, m, t, levels[l], ny, nx)
        invariant forall v, m: nat, t: nat, l: nat | InRange(m, t, l) && mi <= m :: Grid(v)[m, t, l] == None
      {
        forall v, t: nat, l: nat | t < nTimes && l < |levels| ensures Grid(v)[mi, t, l] == None {
          assert InRange(mi, t, l);
        }
        var n, e := FillTimes(kernel, keep, mi);
        assert (mi + 1) * (nTimes * |levels|) == mi * (nTimes * |levels|) + nTimes * |levels|;
        iterations, errors := iterations + n, errors + e;
        mi := mi + 1;
      }
      MulAssoc(nMembers, nTimes, |levels|);
    }
  }

  /** Whether the slot of position x holds a computed plane. */
  predicate Computed(a: array3<Option<Plane>>, x: Triple)
    reads a
  {
    InSpace(x, a.Length0, a.Length1, a.Length2) && a[x.m, x.t, x.l].Some?
  }

  /** The slots among `ts` that hold a computed plane rather than the
      sentinel. */
  function SomeCount(a: array3<Option<Plane>>, ts: seq<Triple>): (n: nat)
    reads a
    ensures n <= |ts|
  {
    if ts == [] then 0
    else
      var x := ts[0];
      (if Computed(a, x) then 1 else 0)
      + SomeCount(a, ts[1..])
  }

  lemma {:induction false} SomeCountZero(a: array3<Option<Plane>>, ts: seq<Triple>)
    ensures SomeCount(a, ts) == 0
            <==> forall x | x in ts && InSpace(x, a.Length0, a.Length1, a.Length2) :: a[x.m, x.t, x.l].None?
  {
    if ts != [] {
      assert ts == [ts[0]] + ts[1..];
      SomeCountZero(a, ts[1..]);
    }
  }

  lemma {:induction false} SomeCountFull(a: array3<Option<Plane>>, ts: seq<Triple>)
    requires forall x | x in ts :: InSpace(x, a.Length0, a.Length1, a.Length2) && a[x.m, x.t, x.l].Some?
    ensures SomeCount(a, ts) == |ts|
  {
    if ts != [] {
      assert ts[0] in ts;
      SomeCountFull(a, ts[1..]);
    }
  }

  /** The positions among `ts` whose slot holds a computed plane. */
  ghost function SomeSet(a: array3<Option<Plane>>, ts: seq<Triple>): set<Triple>
    reads a
  {
    set x | x in ts && Computed(a, x)
  }

  lemma SomeSetCons(a: array3<Option<Plane>>, ts: seq<Triple>)
    requires ts != []
    ensures SomeSet(a, ts) == (if Computed(a, ts[0]) then {ts[0]} else {}) + SomeSet(a, ts[1..])
  {
    forall y ensures y in SomeSet(a, ts) <==> y in (if Computed(a, ts[0]) then {ts[0]} else {}) + SomeSet(a, ts[1..]) {
      assert y in ts <==> y == ts[0] || y in ts[1..];
    }
  }

  /** Over a list without repeats, the count is the number of computed
      slots it names. */
  lemma {:induction false} SomeCountIsCardinality(a: array3<Option<Plane>>, ts: seq<Triple>)
    requires Ascending(ts)
    ensures SomeCount(a, ts) == |SomeSet(a, ts)|
  {
    if ts != [] {
      var rest := ts[1..];
      assert Ascending(rest);
      SomeCountIsCardinality(a, rest);
      AscendingHeadFresh(ts);
      SomeSetCons(a, ts);
      assert ts[0] !in SomeSet(a, rest);
    }
  }

  /** The count taken over the whole index space is the number of cells of
      the array that are not the sentinel. */
  lemma ValidSlotsCount(a: array3<Option<Plane>>)
    ensures var ts := Triples(a.Length0, a.Length1, a.Length2);
            && SomeCount(a, ts) == |SomeSet(a, ts)|
            && forall x :: x in SomeSet(a, ts)
                 <==> InSpace(x, a.Length0, a.Length1, a.Length2) && a[x.m, x.t, x.l].Some?
  {
    var ts := Triples(a.Length0, a.Length1, a.Length2);
    TriplesAscending(a.Length0, a.Length1, a.Length2);
    SomeCountIsCardinality(a, ts);
    forall x ensures x in SomeSet(a, ts)
                     <==> InSpace(x, a.Length0, a.Length1, a.Length2) && a[x.m, x.t, x.l].Some?
    {
      TriplesCover(a.Length0, a.Length1, a.Length2, x);
    }
  }

  /** What the statistics step prints for one variable: the number of valid
      (non-sentinel) cells out of the array's size, or that there is none. */
  datatype Summary = NoValidData | Counted(valid: nat, size: nat)

  function Report(a: array3<Option<Plane>>, ny: nat, nx: nat): Summary
    reads a
  {
    var ts := Triples(a.Length0, a.Length1, a.Length2);
    var cells: nat := ny * nx;
    var valid: nat := SomeCount(a, ts) * cells;
    if valid > 0 then Counted(valid, |ts| * cells) else NoValidData
  }

  lemma MulLeft(k: nat, n: nat, c: nat)
    requires k <= n
    ensures k * c <= n * c
  {
  }

  /** A printed count is positive and never exceeds the array's size; it
      equals the size when every slot holds a computed plane. */
  lemma ReportBounds(a: array3<Option<Plane>>, ny: nat, nx: nat)
    ensures Report(a, ny, nx).Counted? ==>
              0 < Report(a, ny, nx).valid <= Report(a, ny, nx).size
              && Report(a, ny, nx).size == a.Length0 * a.Length1 * a.Length2 * ny * nx
    ensures (forall m, t, l | 0 <= m < a.Length0 && 0 <= t < a.Length1 && 0 <= l < a.Length2 :: a[m, t, l].Some?)
            && ny * nx > 0 && a.Length0 * a.Length1 * a.Length2 > 0
            ==> Report(a, ny, nx) == Counted(a.Length0 * a.Length1 * a.Length2 * ny * nx,
                                             a.Length0 * a.Length1 * a.Length2 * ny * nx)
  {
    var ts := Triples(a.Length0, a.Length1, a.Length2);
    var n := a.Length0 * a.Length1 * a.Length2;
    TriplesLength(a.Length0, a.Length1, a.Length2);
    MulLeft(SomeCount(a, ts), n, ny * nx);
    MulAssoc(n, ny, nx);
    if forall m, t, l | 0 <= m < a.Length0 && 0 <= t < a.Length1 && 0 <= l < a.Length2 :: a[m, t, l].Some? {
      forall x | x in ts ensures InSpace(x, a.Length0, a.Length1, a.Length2) && a[x.m, x.t, x.l].Some? {
        TriplesCover(a.Length0, a.Length1, a.Length2, x);
      }
      SomeCountFull(a, ts);
    }
  }

  lemma MulZero(k: nat, c: nat)
    requires c > 0
    ensures k * c == 0 <==> k == 0
  {
    if k > 0 {
      MulLeft(1, k, c);
    }
  }

  /** On a non-empty grid, "No valid data!" is printed exactly when every slot
      of the variable holds the sentinel. */
  lemma NoValidDataIff(a: array3<Option<Plane>>, ny: nat, nx: nat)
    requires ny > 0 && nx > 0
    ensures Report(a, ny, nx) == NoValidData
            <==> forall m, t, l | 0 <= m < a.Length0 && 0 <= t < a.Length1 && 0 <= l < a.Length2 :: a[m, t, l].None?
  {
    var ts := Triples(a.Length0, a.Length1, a.Length2);
    var k := SomeCount(a, ts);
    assert Report(a, ny, nx) == NoValidData <==> k * (ny * nx) == 0;
    MulLeft(1, ny, nx);
    MulZero(k, ny * nx);
    SomeCountZero(a, ts);
    if k == 0 {
      forall m, t, l | 0 <= m < a.Length0 && 0 <= t < a.Length1 && 0 <= l < a.Length2
        ensures a[m, t, l].None?
      {
        TriplesCover(a.Length0, a.Length1, a.Length2, Triple(m, t, l));
      }
    }
  }

  /** Everything from the allocation on, for the levels that passed the
      check: pre-allocate, fill, and summarise each variable in VarOrder. */
  method Run(levels: seq<int>, nMembers: nat, nTimes: nat, ny: nat, nx: nat, kernel: Kernel)
    returns (out: OutputArrays, iterations: nat, errors: seq<Triple>, summaries: seq<Summary>)
    ensures fresh(out.Repr()) && out.Shaped()
    ensures out.nMembers == nMembers && out.nTimes == nTimes && out.ny == ny && out.nx == nx
    ensures out.levels == levels
    ensures iterations == nMembers * nTimes * |levels|
    ensures errors == Filter(Reported(kernel, levels, ny, nx), Triples(nMembers, nTimes, |levels|))
    ensures forall v, m: nat, t: nat, l: nat | out.InRange(m, t, l) ::
              out.Grid(v)[m, t, l] == Expected(kernel, v, m, t, levels[l], ny, nx)
    ensures |summaries| == |VarOrder|
    ensures forall i | 0 <= i < |VarOrder| :: summaries[i] == Report(out.Grid(VarOrder[i]), ny, nx)
  {
    out := new OutputArrays(nMembers, nTimes, levels, ny, nx);
    iterations, errors := out.Fill(kernel, Reported(kernel, levels, ny, nx));
    RunFilterIsFilter(Reported(kernel, levels, ny, nx), nMembers, nTimes, |levels|);
    summaries := Summaries(out);
  }

  /** The statistics step: one summary per variable, in VarOrder. */
  method Summaries(out: OutputArrays) returns (summaries: seq<Summary>)
    requires out.Shaped()
    ensures |summaries| == |VarOrder|
    ensures forall i | 0 <= i < |VarOrder| :: summaries[i] == Report(out.Grid(VarOrder[i]), out.ny, out.nx)
  {
    summaries := [];
    for i := 0 to |VarOrder|
      invariant |summaries| == i
      invariant forall j | 0 <= j < i :: summaries[j] == Report(out.Grid(VarOrder[j]), out.ny, out.nx)
    {
      summaries := summaries + [Report(out.Grid(VarOrder[i]), out.ny, out.nx)];
    }
  }

  /** The whole run: filter the requested levels against those the input
      offers, pre-allocate the outputs, fill them position by position and
      print one summary per variable, in VarOrder. The output's level
      coordinate is the filtered list. An empty time coordinate makes the
      progress print raise, outside any try block, after the level check and
      before the allocation: the run then ends with no output (`out` is
      null). */
  method ProcessMultipleLevels(requested: seq<int>, available: seq<int>, nMembers: nat, nTimes: nat,
                               ny: nat, nx: nat, kernel: Kernel)
    returns (missing: seq<int>, out: OutputArrays?, iterations: nat, errors: seq<Triple>,
             summaries: seq<Summary>)
    ensures missing == LevelFilter.Missing(requested, available)
    ensures out == null <==> nTimes == 0
    ensures out == null ==> iterations == 0 && errors == [] && summaries == []
    ensures out != null ==> fresh(out.Repr()) && out.Shaped()
    ensures out != null ==>
              out.nMembers == nMembers && out.nTimes == nTimes && out.ny == ny && out.nx == nx
              && out.levels == LevelFilter.EffectiveLevels(requested, available)
    ensures out != null ==> iterations == nMembers * nTimes * |out.levels|
    ensures out != null ==>
              errors == Filter(Reported(kernel, out.levels, ny, nx), Triples(nMembers, nTimes, |out.levels|))
    ensures out != null ==>
              forall v, m: nat, t: nat, l: nat | out.InRange(m, t, l) ::
                out.Grid(v)[m, t, l] == Expected(kernel, v, m, t, out.levels[l], ny, nx)
    ensures out != null ==>
              |summaries| == |VarOrder|
              && forall i | 0 <= i < |VarOrder| :: summaries[i] == Report(out.Grid(VarOrder[i]), ny, nx)
  {
    missing := LevelFilter.Missing(requested, available);
    var levels := requested;
    if missing != [] {
      levels := LevelFilter.Kept(requested, available);
    }
    if nTimes == 0 {
      out, iterations, errors, summaries := null, 0, [], [];
      return;
    }
    var arrays, n, e, sums := Run(levels, nMembers, nTimes, ny, nx, kernel);
    out, iterations, errors, summaries := arrays, n, e, sums;
  }

  /** On a non-empty grid, a variable's summary says "No valid data!" exactly
      when no position of the run stored that variable. */
  lemma RunNoValidData(out: OutputArrays, kernel: Kernel, v: Var)
    requires out.Shaped() && out.ny > 0 && out.nx > 0
    requires forall w, m: nat, t: nat, l: nat | out.InRange(m, t, l) ::
               out.Grid(w)[m, t, l] == Expected(kernel, w, m, t, out.levels[l], out.ny, out.nx)
    ensures Report(out.Grid(v), out.ny, out.nx) == NoValidData
            <==> forall m: nat, t: nat, l: nat | out.InRange(m, t, l) ::
                   Expected(kernel, v, m, t, out.levels[l], out.ny, out.nx) == None
  {
    var a := out.Grid(v);
    NoValidDataIff(a, out.ny, out.nx);
    assert a.Length0 == out.nMembers && a.Length1 == out.nTimes && a.Length2 == |out.levels|;
    forall m: nat, t: nat, l: nat | out.InRange(m, t, l)
      ensures a[m, t, l].None? <==> Expected(kernel, v, m, t, out.levels[l], out.ny, out.nx) == None
    {
      assert a[m, t, l] == Expected(kernel, v, m, t, out.levels[l], out.ny, out.nx);
    }
  }
}
