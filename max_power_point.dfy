/**
 * The maximum-power-point scan of a measured I-V curve.
 *
 * A sample (V[i], I[i]) lies in the power-generating quadrant when the
 * voltage is positive and the current negative; its power is |V[i] * I[i]|.
 * The scan returns the largest such power, scaled by 1000 (W/cm^2 to
 * mW/cm^2), and the first index that reaches it, or (0, 0) when no sample
 * generates any power. Values are exact reals.
 */
module MaxPowerPoint {

  function Abs(x: real): (r: real)
    ensures r >= 0.0
    ensures r == x || r == -x
  {
    if x < 0.0 then -x else x
  }

  /** The sample delivers power: positive voltage, negative current. */
  predicate Generating(v: real, c: real) {
    c < 0.0 && v > 0.0
  }

  /** The power of one sample (unscaled), as the scan scores it. */
  function Power(v: real, c: real): real {
    Abs(v * c)
  }

  /** The scan's accumulators: the best power so far and where it was seen. */
  datatype Best = Best(power: real, index: nat)

  /**
   * What the accumulators mean after the first n samples: b.power is the
   * largest power among the generating samples below n (0 if none has any),
   * and b.index is the first generating index that reaches it (0 if b.power is 0).
   */
  ghost predicate IsMaximumPowerPoint(V: seq<real>, I: seq<real>, n: nat, b: Best)
    requires n <= |V| <= |I|
  {
    && b.power >= 0.0
    && (forall j | 0 <= j < n && Generating(V[j], I[j]) :: Power(V[j], I[j]) <= b.power)
    && (b.power == 0.0 ==> b.index == 0)
    && (b.power > 0.0 ==>
          && b.index < n
          && Generating(V[b.index], I[b.index])
          && Power(V[b.index], I[b.index]) == b.power
          && (forall j | 0 <= j < b.index && Generating(V[j], I[j]) :: Power(V[j], I[j]) < b.power))
  }

  /**
   * Reference definition: the accumulators after the first n iterations of
   * the scan, as a recursion over the prefix. A sample replaces the best so
   * far only when its power is strictly larger, so ties keep the earlier index.
   */
  function ScanPrefix(V: seq<real>, I: seq<real>, n: nat): (b: Best)
    requires n <= |V| <= |I|
    ensures b.power >= 0.0
    ensures b.index < n || b == Best(0.0, 0)
  {
    if n == 0 then Best(0.0, 0)
    else
      var b := ScanPrefix(V, I, n - 1);
      var i := n - 1;
      if Power(V[i], I[i]) > b.power && Generating(V[i], I[i]) then Best(Power(V[i], I[i]), i) else b
  }

  /** The reference scan computes the maximum power point of every prefix. */
  lemma {:induction false} ScanPrefixIsMaximumPowerPoint(V: seq<real>, I: seq<real>, n: nat)
    requires n <= |V| <= |I|
    ensures IsMaximumPowerPoint(V, I, n, ScanPrefix(V, I, n))
  {
    if n > 0 {
      ScanPrefixIsMaximumPowerPoint(V, I, n - 1);
    }
  }

  /** The maximum power point of a prefix is determined: at most one pair of accumulators fits. */
  lemma MaximumPowerPointUnique(V: seq<real>, I: seq<real>, n: nat, b1: Best, b2: Best)
    requires n <= |V| <= |I|
    requires IsMaximumPowerPoint(V, I, n, b1)
    requires IsMaximumPowerPoint(V, I, n, b2)
    ensures b1 == b2
  {
    // Each best power bounds the other's attained power, and two first
    // indices of the same maximum coincide; Dafny finds both steps.
  }

  /**
   * The scan itself: returns the maximum power in mW/cm^2 (1000 times the
   * best |V*I|) and its index. It reads I[i] for every i < |V|.
   */
  method Mpp(V: seq<real>, I: seq<real>) returns (power: real, imax: nat)
    requires |V| <= |I|
    ensures power >= 0.0
    ensures |V| > 0 ==> imax < |V|
    ensures forall j | 0 <= j < |V| && Generating(V[j], I[j]) :: 1000.0 * Power(V[j], I[j]) <= power
    ensures power == 0.0 <==> forall j | 0 <= j < |V| :: !Generating(V[j], I[j])
    ensures power == 0.0 ==> imax == 0
    ensures power > 0.0 ==>
              && imax < |V|
              && Generating(V[imax], I[imax])
              && power == 1000.0 * Power(V[imax], I[imax])
    ensures power > 0.0 ==>
              forall j | 0 <= j < imax && Generating(V[j], I[j]) :: 1000.0 * Power(V[j], I[j]) < power
    ensures Best(power / 1000.0, imax) == ScanPrefix(V, I, |V|)
  {
    var best: real := 0.0;
    imax := 0;
    for i := 0 to |V|
      invariant IsMaximumPowerPoint(V, I, i, Best(best, imax))
    {
      if Power(V[i], I[i]) > best && Generating(V[i], I[i]) {
        imax := i;
        best := Power(V[i], I[i]);
      }
    }
    power := 1000.0 * best;
    ScanPrefixIsMaximumPowerPoint(V, I, |V|);
    MaximumPowerPointUnique(V, I, |V|, Best(best, imax), ScanPrefix(V, I, |V|));
  }
}
