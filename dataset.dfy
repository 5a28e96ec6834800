/*
 * The sample container of the linear-regression trainer (class MyData in
 * main.cpp): two fixed 100-slot columns (size = feature, price = target),
 * a fill count, and running extrema of each column that start at the
 * sentinels +1e8 / -1e8 and are lowered / raised on every insertion.
 */
module Dataset {

  /** Capacity of each column (NUM_EXAMPLES). */
  const NumExamples: nat := 100

  /** Magnitude of the starting extrema, (float)1e8, which is exact in single precision. */
  const Sentinel: real := 100000000.0

  /** `a` lowered to `b` only when `b` is strictly smaller: how addData moves a column minimum. */
  function Min(a: real, b: real): real { if b < a then b else a }

  /** `a` raised to `b` only when `b` is strictly larger: how addData moves a column maximum. */
  function Max(a: real, b: real): real { if b > a then b else a }

  /** The value a running minimum holds after starting at `init` and being
      lowered by each element of `s` in turn. */
  function RunningMin(init: real, s: seq<real>): real
    decreases |s|
  {
    if |s| == 0 then init else Min(RunningMin(init, s[..|s| - 1]), s[|s| - 1])
  }

  /** The value a running maximum holds after starting at `init` and being
      raised by each element of `s` in turn. */
  function RunningMax(init: real, s: seq<real>): real
    decreases |s|
  {
    if |s| == 0 then init else Max(RunningMax(init, s[..|s| - 1]), s[|s| - 1])
  }

  /** A running minimum is the minimum of `init` and the elements: a lower
      bound of all of them, and equal to one of them. */
  lemma {:induction false} RunningMinIsMinimum(init: real, s: seq<real>)
    ensures RunningMin(init, s) <= init
    ensures forall i :: 0 <= i < |s| ==> RunningMin(init, s) <= s[i]
    ensures RunningMin(init, s) == init || exists i :: 0 <= i < |s| && RunningMin(init, s) == s[i]
  {
    if |s| > 0 {
      var p := s[..|s| - 1];
      RunningMinIsMinimum(init, p);
      assert forall i :: 0 <= i < |p| ==> p[i] == s[i];
      if RunningMin(init, s) != init && RunningMin(init, s) != s[|s| - 1] {
        var j :| 0 <= j < |p| && RunningMin(init, p) == p[j];
        assert RunningMin(init, s) == s[j];
      }
    }
  }

  /** A running maximum is the maximum of `init` and the elements. */
  lemma {:induction false} RunningMaxIsMaximum(init: real, s: seq<real>)
    ensures init <= RunningMax(init, s)
    ensures forall i :: 0 <= i < |s| ==> s[i] <= RunningMax(init, s)
    ensures RunningMax(init, s) == init || exists i :: 0 <= i < |s| && RunningMax(init, s) == s[i]
  {
    if |s| > 0 {
      var p := s[..|s| - 1];
      RunningMaxIsMaximum(init, p);
      assert forall i :: 0 <= i < |p| ==> p[i] == s[i];
      if RunningMax(init, s) != init && RunningMax(init, s) != s[|s| - 1] {
        var j :| 0 <= j < |p| && RunningMax(init, p) == p[j];
        assert RunningMax(init, s) == s[j];
      }
    }
  }

  /** Appending one value updates a running extremum by one comparison. */
  lemma RunningAppend(init: real, s: seq<real>, x: real)
    ensures RunningMin(init, s + [x]) == Min(RunningMin(init, s), x)
    ensures RunningMax(init, s + [x]) == Max(RunningMax(init, s), x)
  {
    assert (s + [x])[..|s|] == s;
  }

  /** Overwriting slot n of a column extends its first n values by the new one. */
  lemma PrefixAfterWrite(col: seq<real>, n: nat, x: real)
    requires n < |col|
    ensures col[n := x][..n + 1] == col[..n] + [x]
  {
  }

  /** The four extrema are the sentinel-started running extrema of the two columns. */
  predicate Tracks(sizeMin: real, sizeMax: real, priceMin: real, priceMax: real, sizes: seq<real>, prices: seq<real>)
  {
    sizeMin == RunningMin(Sentinel, sizes) && sizeMax == RunningMax(-Sentinel, sizes) &&
    priceMin == RunningMin(Sentinel, prices) && priceMax == RunningMax(-Sentinel, prices)
  }

  /** Lowering / raising the extrema by an appended pair keeps them tracking. */
  lemma TracksAppend(sizeMin: real, sizeMax: real, priceMin: real, priceMax: real,
                     sizes: seq<real>, prices: seq<real>, s: real, p: real)
    requires Tracks(sizeMin, sizeMax, priceMin, priceMax, sizes, prices)
    ensures Tracks(Min(sizeMin, s), Max(sizeMax, s), Min(priceMin, p), Max(priceMax, p), sizes + [s], prices + [p])
  {
    RunningAppend(Sentinel, sizes, s);
    RunningAppend(-Sentinel, sizes, s);
    RunningAppend(Sentinel, prices, p);
    RunningAppend(-Sentinel, prices, p);
  }

  /** When no stored value lies beyond the sentinels, the sentinel-started
      extrema are the true minimum and maximum of a non-empty column. */
  lemma TrueExtremaWithinSentinels(s: seq<real>)
    requires |s| > 0
    requires forall i :: 0 <= i < |s| ==> -Sentinel <= s[i] <= Sentinel
    ensures exists i :: 0 <= i < |s| && RunningMin(Sentinel, s) == s[i]
    ensures exists i :: 0 <= i < |s| && RunningMax(-Sentinel, s) == s[i]
  {
    RunningMinIsMinimum(Sentinel, s);
    RunningMaxIsMaximum(-Sentinel, s);
    if RunningMin(Sentinel, s) == Sentinel {
      assert RunningMin(Sentinel, s) == s[0];
    }
    if RunningMax(-Sentinel, s) == -Sentinel {
      assert RunningMax(-Sentinel, s) == s[0];
    }
  }

  /** The factor dataFeatureScaling multiplies by: to/(max-min)+from, which
      is not the textbook min-max factor (to-from)/(max-min). */
  function Scale(from: real, to: real, lo: real, hi: real): real
    requires hi != lo
  {
    to / (hi - lo) + from
  }

  /** The textbook min-max map of v from [lo, hi] onto [from, to], the
      reference the scaling is compared with. */
  function MinMaxNormalized(v: real, lo: real, hi: real, from: real, to: real): real
    requires hi != lo
  {
    from + (v - lo) * (to - from) / (hi - lo)
  }

  /** A column whose first n values are shifted by lo and multiplied by factor. */
  function ScaledColumn(col: seq<real>, n: nat, lo: real, factor: real): (r: seq<real>)
    requires n <= |col|
  {
    seq(|col|, i requires 0 <= i < |col| => if i < n then (col[i] - lo) * factor else col[i])
  }

  /** Scaling one more value extends a scaled prefix by one slot. */
  lemma ScaledColumnStep(col: seq<real>, n: nat, lo: real, factor: real)
    requires n < |col|
    ensures ScaledColumn(col, n + 1, lo, factor) == ScaledColumn(col, n, lo, factor)[n := (col[n] - lo) * factor]
  {
    var a, b := ScaledColumn(col, n + 1, lo, factor), ScaledColumn(col, n, lo, factor)[n := (col[n] - lo) * factor];
    assert |a| == |b|;
    forall k | 0 <= k < |a| ensures a[k] == b[k] {
    }
  }

  /** A value inside [lo, hi] is mapped into [0, to + from*(hi-lo)], so for
      from == 0 into [0, to], and never into [from, to] unless from == 0. */
  lemma ScaledValueRange(v: real, lo: real, hi: real, from: real, to: real)
    requires lo <= v <= hi && lo != hi
    requires 0.0 <= from < to
    ensures 0.0 <= (v - lo) * Scale(from, to, lo, hi) <= to + from * (hi - lo)
  {
    var d, u, k := hi - lo, v - lo, to / (hi - lo);
    assert 0.0 < d && 0.0 <= u <= d;
    assert 0.0 < k;
    assert d * k == to;
    assert u * k <= d * k;
    assert u * from <= d * from;
    assert (v - lo) * Scale(from, to, lo, hi) == u * k + u * from;
  }

  /** With from == 0 the non-standard factor agrees with textbook min-max scaling. */
  lemma ScaleAgreesWithMinMaxAtZero(v: real, lo: real, hi: real, to: real)
    requires lo != hi
    ensures (v - lo) * Scale(0.0, to, lo, hi) == MinMaxNormalized(v, lo, hi, 0.0, to)
  {
    var d := hi - lo;
    assert (v - lo) * (to / d) == (v - lo) * to / d;
  }

  /** With from != 0 the two disagree: mapping [0, 1] onto [1, 2] sends 1 to 3, not 2. */
  lemma ScaleDisagreesWithMinMax()
    ensures (1.0 - 0.0) * Scale(1.0, 2.0, 0.0, 1.0) == 3.0
    ensures MinMaxNormalized(1.0, 0.0, 1.0, 1.0, 2.0) == 2.0
  {
  }

  /** Scaling with from == 0 by the column's own bounds keeps the first n
      values inside [0, to]. */
  lemma ScaledColumnWithinRange(col: seq<real>, n: nat, lo: real, hi: real, to: real)
    requires n <= |col| && lo != hi && 0.0 < to
    requires forall i :: 0 <= i < n ==> lo <= col[i] <= hi
    ensures forall i :: 0 <= i < n ==> 0.0 <= ScaledColumn(col, n, lo, Scale(0.0, to, lo, hi))[i] <= to
  {
    forall i | 0 <= i < n
      ensures 0.0 <= ScaledColumn(col, n, lo, Scale(0.0, to, lo, hi))[i] <= to
    {
      ScaledValueRange(col[i], lo, hi, 0.0, to);
    }
  }

  /** Scaling with from == 0 by sentinel-started running extrema of the
      first n values keeps them inside [0, to]. */
  lemma ScaledStoredWithinRange(col: seq<real>, n: nat, to: real)
    requires n <= |col| && 0.0 < to
    requires RunningMin(Sentinel, col[..n]) != RunningMax(-Sentinel, col[..n])
    ensures var lo, hi := RunningMin(Sentinel, col[..n]), RunningMax(-Sentinel, col[..n]);
      forall i :: 0 <= i < n ==> 0.0 <= ScaledColumn(col, n, lo, Scale(0.0, to, lo, hi))[i] <= to
  {
    var lo, hi := RunningMin(Sentinel, col[..n]), RunningMax(-Sentinel, col[..n]);
    RunningMinIsMinimum(Sentinel, col[..n]);
    RunningMaxIsMaximum(-Sentinel, col[..n]);
    assert forall i :: 0 <= i < n ==> col[..n][i] == col[i];
    ScaledColumnWithinRange(col, n, lo, hi, to);
  }

  /** The guard of addData as written (main.cpp line 24): it rejects only
      when count > NUM_EXAMPLES. */
  function AsWrittenAdmits(count: int): bool
  {
    !(count > NumExamples)
  }

  /** The corrected guard: an insertion is admitted exactly when its slot
      exists. */
  function Admits(count: nat): (ok: bool)
  {
    !(count >= NumExamples)
  }

  /** The as-written guard never rejects a reachable count (0..NUM_EXAMPLES);
      at count == NUM_EXAMPLES it admits the insertion the corrected guard
      refuses. */
  lemma AsWrittenGuardAdmitsOverflow(count: int)
    requires 0 <= count <= NumExamples
    ensures AsWrittenAdmits(count)
    ensures count == NumExamples ==> !Admits(count)
  {
  }

  class MyData {
    const size: array<real>
    const price: array<real>
    var count: nat
    var sizeMin: real
    var sizeMax: real
    var priceMin: real
    var priceMax: real

    /** Object invariant: two distinct 100-slot columns, at most 100 filled. */
    ghost predicate Valid()
      reads this
    {
      size.Length == NumExamples && price.Length == NumExamples && size != price &&
      count <= NumExamples
    }

    /** The stored feature values. */
    ghost function Sizes(): seq<real>
      reads this, size
      requires Valid()
    {
      size[..count]
    }

    /** The stored target values. */
    ghost function Prices(): seq<real>
      reads this, price
      requires Valid()
    {
      price[..count]
    }

    /** The extrema are the sentinel-started running extrema of the stored
        values. Insertions keep this; scaling rewrites the values and not
        the extrema, so afterwards it no longer holds. */
    ghost predicate ExtremaTrack()
      reads this, size, price
      requires Valid()
    {
      Tracks(sizeMin, sizeMax, priceMin, priceMax, Sizes(), Prices())
    }

    /** An empty container; what the unfilled slots hold is left unspecified. */
    constructor ()
      ensures Valid() && fresh(size) && fresh(price)
      ensures count == 0
      ensures sizeMin == Sentinel && sizeMax == -Sentinel
      ensures priceMin == Sentinel && priceMax == -Sentinel
      ensures ExtremaTrack()
    {
      size := new real[NumExamples];
      price := new real[NumExamples];
      count := 0;
      sizeMin, sizeMax := Sentinel, -Sentinel;
      priceMin, priceMax := Sentinel, -Sentinel;
    }

    /** Appends the pair (s, p) unless the columns are full. */
    method AddData(s: real, p: real) returns (ok: bool)
      requires Valid()
      modifies this, size, price
      ensures Valid()
      ensures ok <==> old(count) < NumExamples
      ensures ok ==> count == old(count) + 1
      ensures ok ==> size[..] == old(size[..])[old(count) := s] && price[..] == old(price[..])[old(count) := p]
      ensures ok ==> Sizes() == old(Sizes()) + [s] && Prices() == old(Prices()) + [p]
      ensures ok ==> sizeMin == Min(old(sizeMin), s) && sizeMax == Max(old(sizeMax), s)
      ensures ok ==> priceMin == Min(old(priceMin), p) && priceMax == Max(old(priceMax), p)
      ensures !ok ==> unchanged(this) && unchanged(size) && unchanged(price)
      ensures old(ExtremaTrack()) ==> ExtremaTrack()
    {
      if !Admits(count) {
        return false;
      }
      ghost var oldSizes, oldPrices := Sizes(), Prices();
      sizeMin, sizeMax := Min(sizeMin, s), Max(sizeMax, s);
      priceMin, priceMax := Min(priceMin, p), Max(priceMax, p);
      size[count] := s;
      price[count] := p;
      PrefixAfterWrite(old(size[..]), count, s);
      PrefixAfterWrite(old(price[..]), count, p);
      count := count + 1;
      if old(ExtremaTrack()) {
        TracksAppend(old(sizeMin), old(sizeMax), old(priceMin), old(priceMax), oldSizes, oldPrices, s, p);
      }
      return true;
    }

    /** Rescales the stored values of both columns in place with the factor
        to/(max-min)+from, each column by its own extrema; an empty target
        range (from >= to) is refused and changes nothing. */
    method DataFeatureScaling(from: real, to: real) returns (ok: bool)
      requires Valid()
      requires sizeMax != sizeMin && priceMax != priceMin
      modifies size, price
      ensures ok <==> from < to
      ensures !ok ==> unchanged(size) && unchanged(price)
      ensures ok ==> size[..] == ScaledColumn(old(size[..]), count, sizeMin, Scale(from, to, sizeMin, sizeMax))
      ensures ok ==> price[..] == ScaledColumn(old(price[..]), count, priceMin, Scale(from, to, priceMin, priceMax))
      ensures ok && from == 0.0 && old(ExtremaTrack()) ==>
                forall i :: 0 <= i < count ==> 0.0 <= size[i] <= to && 0.0 <= price[i] <= to
    {
      if from >= to {
        return false;
      }
      ghost var oldSize, oldPrice := size[..], price[..];
      var sizeScale := Scale(from, to, sizeMin, sizeMax);
      var priceScale := Scale(from, to, priceMin, priceMax);
      var sizeLo, priceLo := sizeMin, priceMin;
      for i := 0 to count
        invariant size[..] == ScaledColumn(oldSize, i, sizeLo, sizeScale)
        invariant price[..] == ScaledColumn(oldPrice, i, priceLo, priceScale)
      {
        ScaledColumnStep(oldSize, i, sizeLo, sizeScale);
        ScaledColumnStep(oldPrice, i, priceLo, priceScale);
        assert size[..][i] == oldSize[i] && price[..][i] == oldPrice[i];
        ghost var before := size[..];
        size[i] := size[i] - sizeLo;
        size[i] := size[i] * sizeScale;
        assert size[i] == (oldSize[i] - sizeLo) * sizeScale;
        assert size[..] == before[i := (oldSize[i] - sizeLo) * sizeScale];
        before := price[..];
        price[i] := price[i] - priceLo;
        price[i] := price[i] * priceScale;
        assert price[i] == (oldPrice[i] - priceLo) * priceScale;
        assert price[..] == before[i := (oldPrice[i] - priceLo) * priceScale];
      }
      if from == 0.0 && old(ExtremaTrack()) {
        ScaledStoredWithinRange(oldSize, count, to);
        ScaledStoredWithinRange(oldPrice, count, to);
      }
      return true;
    }

    /** The feature column (getSize). */
    function GetSize(): (a: array<real>)
      reads this
      requires Valid()
      ensures a.Length == NumExamples && a == size
    {
      size
    }

    /** The target column (getPrice). */
    function GetPrice(): (a: array<real>)
      reads this
      requires Valid()
      ensures a.Length == NumExamples && a == price
    {
      price
    }

    /** The number of stored pairs (getCount). */
    function GetCount(): (c: nat)
      reads this
      requires Valid()
      ensures c <= NumExamples && c == count
    {
      count
    }
  }

  /** On a full container the as-written guard lets addData through, and the
      slot it then writes, index count, is one past the end of both columns. */
  lemma AsWrittenWritesPastEnd(d: MyData)
    requires d.Valid() && d.count == NumExamples
    ensures AsWrittenAdmits(d.count)
    ensures d.count == d.size.Length && d.count == d.price.Length
  {
  }
}
