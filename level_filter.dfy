/** The pressure-level check of the derived-field script: requested levels
    that the input does not hold are reported and dropped, the rest are
    processed in the order they were requested. */
module LevelFilter {

  import opened Optional

  /** Levels processed when no -L flag is given. */
  const DefaultLevels: seq<int> := [875, 850, 825]

  /** The request: the values given after -L (argparse accepts one or more),
      or the default list. */
  function RequestedLevels(flag: Option<seq<int>>): (r: seq<int>)
    requires flag.Some? ==> flag.value != []
    ensures r != []
    ensures flag.None? ==> r == [875, 850, 825]
  {
    match flag
    case None => DefaultLevels
    case Some(levels) => levels
  }

  /** The requested levels absent from the input, in request order. */
  function Missing(requested: seq<int>, available: seq<int>): (r: seq<int>)
    ensures |r| <= |requested|
    ensures forall x :: x in r <==> x in requested && x !in available
  {
    if requested == [] then []
    else
      (if requested[0] in available then [] else [requested[0]])
      + Missing(requested[1..], available)
  }

  /** The requested levels present in the input, in request order. */
  function Kept(requested: seq<int>, available: seq<int>): (r: seq<int>)
    ensures |r| <= |requested|
    ensures forall x :: x in r <==> x in requested && x in available
  {
    if requested == [] then []
    else
      (if requested[0] in available then [requested[0]] else [])
      + Kept(requested[1..], available)
  }

  /** The level list after the check: rebound to the kept levels only when
      something is missing. */
  function EffectiveLevels(requested: seq<int>, available: seq<int>): (r: seq<int>)
  {
    if Missing(requested, available) != [] then Kept(requested, available) else requested
  }

  /** Duplicates are kept: each level occurs in the missing list exactly as
      often as in the request, or not at all when it is available. */
  lemma {:induction false} MissingMultiplicity(requested: seq<int>, available: seq<int>, x: int)
    ensures multiset(Missing(requested, available))[x]
            == if x in available then 0 else multiset(requested)[x]
  {
    if requested != [] {
      var rest := requested[1..];
      MissingMultiplicity(rest, available, x);
      assert requested == [requested[0]] + rest;
      if requested[0] in available {
        assert Missing(requested, available) == Missing(rest, available);
      } else {
        assert Missing(requested, available) == [requested[0]] + Missing(rest, available);
      }
    }
  }

  /** Each available level occurs in the kept list exactly as often as in the
      request; an absent one not at all. */
  lemma {:induction false} KeptMultiplicity(requested: seq<int>, available: seq<int>, x: int)
    ensures multiset(Kept(requested, available))[x]
            == if x in available then multiset(requested)[x] else 0
  {
    if requested != [] {
      var rest := requested[1..];
      KeptMultiplicity(rest, available, x);
      assert requested == [requested[0]] + rest;
      if requested[0] in available {
        assert Kept(requested, available) == [requested[0]] + Kept(rest, available);
      } else {
        assert Kept(requested, available) == Kept(rest, available);
      }
    }
  }

  /** The missing and kept lists partition the request. */
  lemma {:induction false} Partition(requested: seq<int>, available: seq<int>)
    ensures multiset(Missing(requested, available)) + multiset(Kept(requested, available))
            == multiset(requested)
    ensures |Missing(requested, available)| + |Kept(requested, available)| == |requested|
  {
    if requested != [] {
      Partition(requested[1..], available);
      assert requested == [requested[0]] + requested[1..];
    }
  }

  /** Filtering distributes over concatenation: together with its value on a
      single level, this says the kept list is the request with the absent
      levels struck out and nothing reordered. */
  lemma {:induction false} KeptAppend(a: seq<int>, b: seq<int>, available: seq<int>)
    ensures Kept(a + b, available) == Kept(a, available) + Kept(b, available)
  {
    if a == [] {
      assert a + b == b;
    } else {
      assert (a + b)[1..] == a[1..] + b;
      KeptAppend(a[1..], b, available);
    }
  }

  /** The missing list is the request with the available levels struck out,
      likewise in order. */
  lemma {:induction false} MissingAppend(a: seq<int>, b: seq<int>, available: seq<int>)
    ensures Missing(a + b, available) == Missing(a, available) + Missing(b, available)
  {
    if a == [] {
      assert a + b == b;
    } else {
      assert (a + b)[1..] == a[1..] + b;
      MissingAppend(a[1..], b, available);
    }
  }

  /** Nothing is missing exactly when the kept list is the whole request. */
  lemma NothingMissingIff(requested: seq<int>, available: seq<int>)
    ensures Missing(requested, available) == [] <==> Kept(requested, available) == requested
  {
    Partition(requested, available);
    if Missing(requested, available) == [] {
      KeptIsRequestWhenNothingMissing(requested, available);
    }
  }

  lemma {:induction false} KeptIsRequestWhenNothingMissing(requested: seq<int>, available: seq<int>)
    requires Missing(requested, available) == []
    ensures Kept(requested, available) == requested
  {
    if requested != [] {
      KeptIsRequestWhenNothingMissing(requested[1..], available);
    }
  }

  /** Whether or not the list is rebound, the levels processed are the kept
      ones. */
  lemma EffectiveIsKept(requested: seq<int>, available: seq<int>)
    ensures EffectiveLevels(requested, available) == Kept(requested, available)
  {
    NothingMissingIff(requested, available);
  }

  /** The default request against an input holding 875 and 850 hPa: 825 is
      reported missing and only 875 and 850 are processed. */
  lemma DefaultRequestExample()
    ensures Missing(RequestedLevels(None), [875, 850]) == [825]
    ensures EffectiveLevels(RequestedLevels(None), [875, 850]) == [875, 850]
  {
    var available := [875, 850];
    assert [875, 850, 825][1..] == [850, 825];
    assert [850, 825][1..] == [825];
    assert Missing([825], available) == [825];
    assert Missing([850, 825], available) == [825];
    assert Kept([825], available) == [];
    assert Kept([850, 825], available) == [850];
  }
}
