/**
 * The `Utils` namespace: the constrained linear range mappers every sensor
 * conversion goes through, and the non-blocking interval timer `Ticker`.
 * All arithmetic is the target's 32-bit C++ arithmetic (module Machine).
 */
module Utils {
  import opened Machine

  // ---------------------------------------------------------------------------
  // Range mapper
  // ---------------------------------------------------------------------------

  /**
   * The arithmetic of `MapConstrain` cannot overflow a 32-bit `int`/`long`:
   * the input span, the output span and their product all fit. The clamped
   * offset `x - inMin` lies between 0 and the input span, so every
   * intermediate product lies between 0 and the full product.
   */
  predicate MapSafe(inMin: int, inMax: int, outMin: int, outMax: int) {
    inMin == inMax ||
    (IsInt32(inMax - inMin) && IsInt32(outMax - outMin) &&
     IsInt32((inMax - inMin) * (outMax - outMin)))
  }

  /** The same condition for `MapConstrainBi`, on the call it dispatches to. */
  predicate BiSafe(inA: int, inB: int, outMin: int, outMax: int) {
    inA == inB ||
    (if inA < inB then MapSafe(inA, inB, outMin, outMax)
     else MapSafe(inB, inA, outMax, outMin))
  }

  /**
   * Arduino's `constrain(x, lo, hi)`: values below the range become `lo`,
   * values above it become `hi`, values inside are kept.
   */
  function Constrain(x: int, lo: int, hi: int): (r: int)
    requires lo <= hi
    ensures lo <= r <= hi
    ensures x < lo ==> r == lo
    ensures x > hi ==> r == hi
    ensures lo <= x <= hi ==> r == x
  {
    if x < lo then lo else if x > hi then hi else x
  }

  /**
   * `Utils::mapConstrain`: a degenerate input range yields `outMin`;
   * otherwise `x` is clamped into the input range and interpolated linearly,
   * with C++ truncating division. The result always lies between the two
   * output bounds, whichever way round they are.
   */
  function MapConstrain(x: Int32, inMin: Int32, inMax: Int32, outMin: Int32, outMax: Int32): (r: Int32)
    requires MapSafe(inMin, inMax, outMin, outMax)
    ensures inMin == inMax ==> r == outMin
    ensures inMin != inMax ==> Min(outMin, outMax) <= r <= Max(outMin, outMax)
  {
    if inMin == inMax then outMin
    else
      var c := Constrain(x, Min(inMin, inMax), Max(inMin, inMax));
      var w: Int32 := inMax - inMin;
      var d: Int32 := c - inMin;
      var k: Int32 := outMax - outMin;
      ScaleBetween(d, k, w);
      var p: Int32 := d * k;
      TruncDivScaled(d, k, w);
      var q := TruncDiv(p, w);
      assert Min(0, k) <= q <= Max(0, k);
      q + outMin
  }

  /**
   * `Utils::mapConstrainBi`: like `MapConstrain`, but an inverted input
   * range (`inA > inB`) is handled by swapping the input bounds and the
   * output bounds together.
   */
  function MapConstrainBi(x: Int32, inA: Int32, inB: Int32, outMin: Int32, outMax: Int32): (r: Int32)
    requires BiSafe(inA, inB, outMin, outMax)
    ensures inA == inB ==> r == outMin
    ensures inA != inB ==> Min(outMin, outMax) <= r <= Max(outMin, outMax)
  {
    if inA == inB then outMin
    else if inA < inB then MapConstrain(x, inA, inB, outMin, outMax)
    else MapConstrain(x, inB, inA, outMax, outMin)
  }

  /** `MapConstrain` with the clamp and the offset unfolded. */
  lemma MapConstrainUnfold(x: Int32, inMin: Int32, inMax: Int32, outMin: Int32, outMax: Int32)
    requires inMin != inMax && MapSafe(inMin, inMax, outMin, outMax)
    ensures MapConstrain(x, inMin, inMax, outMin, outMax)
         == TruncDiv((Constrain(x, Min(inMin, inMax), Max(inMin, inMax)) - inMin) * (outMax - outMin),
                     inMax - inMin) + outMin
  {
  }

  /** The input bounds map exactly onto the output bounds. */
  lemma MapConstrainEndpoints(inMin: Int32, inMax: Int32, outMin: Int32, outMax: Int32)
    requires inMin != inMax && MapSafe(inMin, inMax, outMin, outMax)
    ensures MapConstrain(inMin, inMin, inMax, outMin, outMax) == outMin
    ensures MapConstrain(inMax, inMin, inMax, outMin, outMax) == outMax
  {
    var lo, hi := Min(inMin, inMax), Max(inMin, inMax);
    var w, k := inMax - inMin, outMax - outMin;
    MapConstrainUnfold(inMin, inMin, inMax, outMin, outMax);
    assert Constrain(inMin, lo, hi) - inMin == 0;
    assert 0 * k == 0;
    TruncDivZero(w);
    MapConstrainUnfold(inMax, inMin, inMax, outMin, outMax);
    assert Constrain(inMax, lo, hi) - inMin == w;
    TruncDivExact(k, w);
  }

  /** Inputs beyond either end of the input range map like that end. */
  lemma MapConstrainClamps(x: Int32, inMin: Int32, inMax: Int32, outMin: Int32, outMax: Int32)
    requires inMin != inMax && MapSafe(inMin, inMax, outMin, outMax)
    ensures x <= Min(inMin, inMax) ==>
      MapConstrain(x, inMin, inMax, outMin, outMax) == MapConstrain(Min(inMin, inMax), inMin, inMax, outMin, outMax)
    ensures x >= Max(inMin, inMax) ==>
      MapConstrain(x, inMin, inMax, outMin, outMax) == MapConstrain(Max(inMin, inMax), inMin, inMax, outMin, outMax)
  {
    MapConstrainUnfold(x, inMin, inMax, outMin, outMax);
    MapConstrainUnfold(Min(inMin, inMax), inMin, inMax, outMin, outMax);
    MapConstrainUnfold(Max(inMin, inMax), inMin, inMax, outMin, outMax);
  }

  /**
   * Over an ascending input range the mapping follows the output range:
   * non-decreasing in `x` when `outMin <= outMax`, non-increasing when
   * `outMin >= outMax`.
   */
  lemma MapConstrainMonotone(x: Int32, y: Int32, inMin: Int32, inMax: Int32, outMin: Int32, outMax: Int32)
    requires inMin < inMax && MapSafe(inMin, inMax, outMin, outMax)
    requires x <= y
    ensures outMin <= outMax ==> MapConstrain(x, inMin, inMax, outMin, outMax) <= MapConstrain(y, inMin, inMax, outMin, outMax)
    ensures outMin >= outMax ==> MapConstrain(x, inMin, inMax, outMin, outMax) >= MapConstrain(y, inMin, inMax, outMin, outMax)
  {
    MapConstrainUnfold(x, inMin, inMax, outMin, outMax);
    MapConstrainUnfold(y, inMin, inMax, outMin, outMax);
    ScaledMonotone(Constrain(x, inMin, inMax) - inMin, Constrain(y, inMin, inMax) - inMin,
                   outMax - outMin, inMax - inMin);
  }

  /** The two input orders describe the same mapping once the outputs are swapped too. */
  lemma MapConstrainBiSymmetric(x: Int32, a: Int32, b: Int32, lo: Int32, hi: Int32)
    requires a != b && BiSafe(a, b, lo, hi)
    ensures BiSafe(b, a, hi, lo)
    ensures MapConstrainBi(x, a, b, lo, hi) == MapConstrainBi(x, b, a, hi, lo)
  {
  }

  /** For `inA < inB` the bidirectional mapper is the plain one. */
  lemma MapConstrainBiDirect(x: Int32, a: Int32, b: Int32, lo: Int32, hi: Int32)
    requires a < b && BiSafe(a, b, lo, hi)
    ensures MapSafe(a, b, lo, hi)
    ensures MapConstrainBi(x, a, b, lo, hi) == MapConstrain(x, a, b, lo, hi)
  {
  }

  /**
   * Whatever the orientation, `inA` maps to `outMin` and `inB` to `outMax`,
   * and inputs beyond an end saturate at that end's output.
   */
  lemma MapConstrainBiEnds(x: Int32, a: Int32, b: Int32, lo: Int32, hi: Int32)
    requires a != b && BiSafe(a, b, lo, hi)
    ensures MapConstrainBi(a, a, b, lo, hi) == lo
    ensures MapConstrainBi(b, a, b, lo, hi) == hi
    ensures (if a < b then x <= a else x >= a) ==> MapConstrainBi(x, a, b, lo, hi) == lo
    ensures (if a < b then x >= b else x <= b) ==> MapConstrainBi(x, a, b, lo, hi) == hi
  {
    if a < b {
      MapConstrainEndpoints(a, b, lo, hi);
      MapConstrainClamps(x, a, b, lo, hi);
    } else {
      MapConstrainEndpoints(b, a, hi, lo);
      MapConstrainClamps(x, b, a, hi, lo);
    }
  }

  /**
   * The bidirectional mapper is monotone: non-decreasing in `x` when the
   * input and output run the same way, non-increasing when they run
   * opposite ways.
   */
  lemma MapConstrainBiMonotone(x: Int32, y: Int32, a: Int32, b: Int32, lo: Int32, hi: Int32)
    requires a != b && BiSafe(a, b, lo, hi)
    requires x <= y
    ensures (a < b && lo <= hi) || (b < a && hi <= lo) ==> MapConstrainBi(x, a, b, lo, hi) <= MapConstrainBi(y, a, b, lo, hi)
    ensures (a < b && lo >= hi) || (b < a && hi >= lo) ==> MapConstrainBi(x, a, b, lo, hi) >= MapConstrainBi(y, a, b, lo, hi)
  {
    if a < b {
      MapConstrainMonotone(x, y, a, b, lo, hi);
    } else {
      MapConstrainMonotone(x, y, b, a, hi, lo);
    }
  }

  /**
   * Truncation toward zero matters: one count above the water endpoint of
   * the soil range still reads 100 %, where Euclidean division of the same
   * expression gives 99.
   */
  lemma MapConstrainTruncates()
    ensures MapConstrain(1201, 1200, 3000, 100, 0) == 100
    ensures (1201 - 1200) * (0 - 100) / (3000 - 1200) + 100 == 99
  {
    MapConstrainUnfold(1201, 1200, 3000, 100, 0);
    TruncDivNonPos(-100, 1800);
  }

  // ---------------------------------------------------------------------------
  // Interval timer
  // ---------------------------------------------------------------------------

  /**
   * The firing condition of `Ticker::due`: at least `period` ms have gone
   * by since `last`, measured by wrap-around `uint32_t` subtraction.
   */
  predicate Fires(period: Uint32, last: Uint32, now: Uint32)
    ensures Fires(period, last, now) <==> (now - last) % UINT32_MODULUS >= period
  {
    Sub32(now, last) >= period
  }

  /** `Utils::Ticker`, a non-blocking periodic trigger. */
  class Ticker {
    var period: Uint32
    var last: Uint32

    /** `Ticker(periodMs = 1000)`. */
    constructor (periodMs: Uint32 := 1000)
      ensures period == periodMs && last == 0
    {
      period := periodMs;
      last := 0;
    }

    /** `set(ms)`: a new period; the reference point is left alone. */
    method Set(ms: Uint32)
      modifies this
      ensures period == ms && last == old(last)
    {
      period := ms;
    }

    /** `due(now)`: fire when the period has elapsed, taking `now` as the new reference point. */
    method Due(now: Uint32) returns (fired: bool)
      modifies this
      ensures fired == Fires(old(period), old(last), now)
      ensures period == old(period)
      ensures last == (if fired then now else old(last))
    {
      if Fires(period, last, now) {
        last := now;
        return true;
      }
      return false;
    }
  }

  /** Right after firing at `now`, asking again at the same `now` does not fire. */
  lemma NoRefireAtSameInstant(period: Uint32, now: Uint32)
    requires period > 0
    ensures !Fires(period, now, now)
  {
  }

  /** From the initial reference point 0, the first firing is at `period` or later. */
  lemma FirstFiring(period: Uint32, now: Uint32)
    ensures Fires(period, 0, now) <==> now >= period
  {
  }

  /**
   * Elapsed time survives the counter's wrap-around: 500 ms before the wrap
   * plus 600 ms after it is 1100 ms and fires a 1000 ms ticker, 400 ms after
   * it does not; the naive test `now >= last + period` would get the first
   * case wrong.
   */
  lemma FiresAcrossWrap()
    ensures Fires(1000, UINT32_MODULUS - 500, 600)
    ensures !Fires(1000, UINT32_MODULUS - 500, 400)
    ensures !(600 >= (UINT32_MODULUS - 500) + 1000)
  {
  }

  /**
   * A default (1000 ms) ticker queried at 0, 999, 1000, 1999 and 2000 ms fires at
   * 1000 and 2000 only: each firing re-bases the reference point.
   */
  method TickerTrace() returns (fired: seq<bool>)
    ensures fired == [false, false, true, false, true]
  {
    var t := new Ticker();
    var f0 := t.Due(0);
    var f1 := t.Due(999);
    var f2 := t.Due(1000);
    var f3 := t.Due(1999);
    var f4 := t.Due(2000);
    fired := [f0, f1, f2, f3, f4];
  }
}
