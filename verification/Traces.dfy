/** Sequences of reals: their extremes and their sums. */
module Traces {
  import opened MrftSpec

  function Pvs(ticks: seq<Tick>): (r: seq<real>)
    ensures |r| == |ticks|
    ensures forall i | 0 <= i < |r| :: r[i] == ticks[i].pv
  {
    seq(|ticks|, i requires 0 <= i < |ticks| => ticks[i].pv)
  }

  /** The largest element of a nonempty sequence. */
  function MaxOf(xs: seq<real>): real
    requires xs != []
  {
    var last := xs[|xs| - 1];
    if |xs| == 1 then last else Max(MaxOf(xs[..|xs| - 1]), last)
  }

  /** The smallest element of a nonempty sequence. */
  function MinOf(xs: seq<real>): real
    requires xs != []
  {
    var last := xs[|xs| - 1];
    if |xs| == 1 then last else Min(MinOf(xs[..|xs| - 1]), last)
  }

  lemma {:induction false} Extremes(xs: seq<real>)
    requires xs != []
    ensures MinOf(xs) in xs && MaxOf(xs) in xs
    ensures forall i | 0 <= i < |xs| :: MinOf(xs) <= xs[i] <= MaxOf(xs)
  {
    if |xs| > 1 {
      Extremes(xs[..|xs| - 1]);
    }
  }

  lemma ExtremesAppend(xs: seq<real>, x: real)
    requires xs != []
    ensures MaxOf(xs + [x]) == Max(MaxOf(xs), x)
    ensures MinOf(xs + [x]) == Min(MinOf(xs), x)
  {
    assert (xs + [x])[..|xs|] == xs;
  }

  /** The largest distance of any element from `center`; zero when there is none. */
  function MaxDeviation(xs: seq<real>, center: real): real {
    if xs == [] then 0.0
    else Max(MaxDeviation(xs[..|xs| - 1], center), Abs(xs[|xs| - 1] - center))
  }

  lemma {:induction false} DeviationIsLargest(xs: seq<real>, center: real)
    ensures MaxDeviation(xs, center) >= 0.0
    ensures forall i | 0 <= i < |xs| :: Abs(xs[i] - center) <= MaxDeviation(xs, center)
    ensures xs != [] ==> exists i | 0 <= i < |xs| :: MaxDeviation(xs, center) == Abs(xs[i] - center)
  {
    if xs != [] {
      DeviationIsLargest(xs[..|xs| - 1], center);
      assert Abs(xs[|xs| - 1] - center) <= MaxDeviation(xs, center);
    }
  }

  /** Trackers reset to `center` measure the largest distance from it. */
  lemma {:induction false} DeviationFromExtremes(xs: seq<real>, center: real)
    ensures var all := [center] + xs;
      Max(MaxOf(all) - center, center - MinOf(all)) == MaxDeviation(xs, center)
  {
    if xs != [] {
      var init, last := xs[..|xs| - 1], xs[|xs| - 1];
      DeviationFromExtremes(init, center);
      var before := [center] + init;
      Extremes(before);
      assert before[0] == center;
      assert [center] + xs == before + [last];
      ExtremesAppend(before, last);
      WidenDeviation(MaxOf(before), MinOf(before), last, center);
    }
  }

  lemma WidenDeviation(hi: real, lo: real, x: real, center: real)
    requires lo <= center <= hi
    ensures Max(Max(hi, x) - center, center - Min(lo, x)) == Max(Max(hi - center, center - lo), Abs(x - center))
  {
  }

  function Sum(xs: seq<real>): real {
    if xs == [] then 0.0 else Sum(xs[..|xs| - 1]) + xs[|xs| - 1]
  }

  /** A sum is that of its parts, and of one number that number. */
  lemma {:induction false} SumOfParts(xs: seq<real>, ys: seq<real>)
    ensures Sum(xs + ys) == Sum(xs) + Sum(ys)
    ensures |xs| == 1 ==> Sum(xs) == xs[0]
  {
    if ys == [] {
      assert xs + ys == xs;
    } else {
      assert (xs + ys)[..|xs + ys| - 1] == xs + ys[..|ys| - 1];
      SumOfParts(xs, ys[..|ys| - 1]);
    }
    if |xs| == 1 {
      assert xs[..0] == [];
    }
  }

  function Multiple(n: nat, x: real): real { n as real * x }

  lemma {:induction false} SumAtLeast(xs: seq<real>, lo: real)
    requires forall i | 0 <= i < |xs| :: lo <= xs[i]
    ensures Sum(xs) >= Multiple(|xs|, lo)
  {
    if xs != [] {
      SumAtLeast(xs[..|xs| - 1], lo);
    }
  }

  lemma {:induction false} SumAtMost(xs: seq<real>, hi: real)
    requires forall i | 0 <= i < |xs| :: xs[i] <= hi
    ensures Sum(xs) <= Multiple(|xs|, hi)
  {
    if xs != [] {
      SumAtMost(xs[..|xs| - 1], hi);
    }
  }

  lemma {:induction false} SumAbove(xs: seq<real>, lo: real)
    requires xs != [] && forall i | 0 <= i < |xs| :: lo < xs[i]
    ensures Sum(xs) > Multiple(|xs|, lo)
  {
    if |xs| > 1 {
      SumAbove(xs[..|xs| - 1], lo);
    }
  }

  lemma {:induction false} SumBelow(xs: seq<real>, hi: real)
    requires xs != [] && forall i | 0 <= i < |xs| :: xs[i] < hi
    ensures Sum(xs) < Multiple(|xs|, hi)
  {
    if |xs| > 1 {
      SumBelow(xs[..|xs| - 1], hi);
    }
  }
}
