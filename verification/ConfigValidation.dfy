/** The checks on aggregation intervals that the harvest protocol rests on. */
module ConfigValidation {
  import opened AggregatorSpec

  ghost predicate Ordered(ivls: seq<int>) {
    forall i, j :: 0 <= i < j < |ivls| ==> ivls[i] <= ivls[j]
  }

  ghost predicate Accepted(ivls: seq<int>) {
    && |ivls| > 0 && SECOND <= ivls[0] && ivls[|ivls| - 1] <= 18 * HOUR
    && Ordered(ivls)
    && (forall i :: 0 <= i < |ivls| ==> ivls[i] % ivls[0] == 0)
  }

  /** `sort.SliceIsSorted`: no neighbour is smaller, so equal neighbours pass. */
  method IsSorted(ivls: seq<int>) returns (ok: bool)
    ensures ok <==> Ordered(ivls)
  {
    var i := |ivls| - 1;
    while i > 0
      invariant -1 <= i < |ivls|
      invariant forall a, b :: 0 <= a && i <= a < b < |ivls| ==> ivls[a] <= ivls[b]
    {
      if ivls[i] < ivls[i - 1] {
        return false;
      }
      i := i - 1;
    }
    return true;
  }

  datatype Outcome = Accept | Reject | Panic

  ghost predicate DividesByZero(ivls: seq<int>) {
    Ordered(ivls) && |ivls| > 1 && ivls[0] == 0
  }

  /** The interval checks of `validateCfg`, on nanoseconds. A lowest interval of zero beside another one
      that is not smaller makes the divisibility check divide by zero, before the check that would
      reject it. */
  method ValidateIntervals(ivls: seq<int>) returns (r: Outcome)
    ensures r.Accept? <==> Accepted(ivls)
    ensures r.Panic? <==> DividesByZero(ivls)
  {
    if |ivls| == 0 {
      return Reject;
    }
    var sorted := IsSorted(ivls);
    if !sorted {
      return Reject;
    }
    var lowest, highest := ivls[0], ivls[|ivls| - 1];
    for i := 1 to |ivls|
      invariant i > 1 ==> lowest != 0
      invariant forall k :: 1 <= k < i ==> ivls[k] % lowest == 0
    {
      if lowest == 0 {
        return Panic;
      }
      if ivls[i] % lowest != 0 {
        return Reject;
      }
    }
    if lowest < SECOND {
      return Reject;
    }
    if highest > 18 * HOUR {
      return Reject;
    }
    return Accept;
  }

  /** No interval beside a minute makes the check panic; after a negative one it is only rejected. */
  lemma {:induction false} ZeroLowestDivides()
    ensures DividesByZero([0, 60 * SECOND])
    ensures !DividesByZero([0, -5]) && !Accepted([0, -5])
  {
    var bad := [0, -5];
    assert bad[0] > bad[1];
  }

  /** The checks accept exactly the configurations of the protocol model. */
  lemma {:induction false} AcceptedExactly(cfg: Config)
    ensures Accepted(cfg) <==> AcceptedConfig(cfg)
  {
    forall i | 0 <= i < |cfg| && cfg[0] > 0
      ensures cfg[i] % cfg[0] == 0 <==> Aligned(cfg[i], cfg[0])
    {
    }
    hide Aligned;
  }

  /** In numbers: from one second, a thousand million nanoseconds, to 18 hours, 64,800 seconds. */
  lemma {:induction false} AcceptedInNumbers(ivls: seq<int>)
    ensures Accepted(ivls) <==>
              && |ivls| > 0 && Ordered(ivls) && ivls[0] != 0
              && forall i :: 0 <= i < |ivls| ==> 1_000_000_000 <= ivls[i] <= 64_800_000_000_000 && ivls[i] % ivls[0] == 0
  {
    if |ivls| > 0 && Ordered(ivls) {
      var n := |ivls| - 1;
      assert forall i :: 0 < i < |ivls| ==> ivls[0] <= ivls[i];
      assert forall i :: 0 <= i < n ==> ivls[i] <= ivls[n];
    }
  }
}
