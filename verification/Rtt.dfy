/** The round-trip estimate: an exponentially weighted average truncated to an integer
    after every sample (`src/ClientSender.cpp`, `estimated_rtt`). The weights 7/8 and 1/8
    are binary fractions, so the source's floating-point arithmetic is exact here. */
module Rtt {
  const INITIAL := 1000

  /** The C++ conversion of a floating-point number to `int`. */
  function Trunc(x: real): int {
    if x >= 0.0 then x.Floor else -((-x).Floor)
  }

  /** Towards zero, and by less than one. */
  lemma {:induction false} TruncIs(x: real)
    ensures if x >= 0.0 then 0.0 <= Trunc(x) as real <= x < Trunc(x) as real + 1.0
            else Trunc(x) as real - 1.0 < x <= Trunc(x) as real <= 0.0
  {
  }

  /** One update, in eighths; `NextIsWeighted` relates it to the source's formula. */
  function Next(estimate: int, sample: int): int {
    var v := 7 * estimate + sample;
    if v >= 0 then v / 8 else -((-v) / 8)
  }

  function Estimate(estimate: int, samples: seq<int>): int {
    if samples == [] then estimate
    else Next(Estimate(estimate, samples[..|samples| - 1]), samples[|samples| - 1])
  }

  /** The update is the weighted average of estimate and sample, truncated towards zero. */
  lemma {:induction false} NextIsWeighted(e: int, s: int)
    ensures Next(e, s) == Trunc(0.875 * (e as real) + 0.125 * (s as real))
  {
  }

  /** Turning every time around turns the estimate around. */
  lemma {:induction false} Mirror(e: int, s: int)
    ensures Next(-e, -s) == -Next(e, s)
  {
  }

  /** Whatever the samples, the estimate stays between the smallest and the largest of the
      start value and the samples. */
  lemma {:induction false} Bounded(start: int, samples: seq<int>, lo: int, hi: int)
    requires lo <= start <= hi
    requires forall i :: 0 <= i < |samples| ==> lo <= samples[i] <= hi
    ensures lo <= Estimate(start, samples) <= hi
  {
    if samples != [] {
      var n := |samples| - 1;
      Bounded(start, samples[..n], lo, hi);
    }
  }

  function Constant(s: int, n: nat): (r: seq<int>)
    ensures |r| == n && forall i :: 0 <= i < n ==> r[i] == s
  {
    seq(n, _ => s)
  }

  /** A sample that is not negative leaves the estimate alone exactly when the estimate is
      at most the sample and less than eight below it (and not negative). */
  lemma {:induction false} FixedPoint(e: int, s: int)
    requires s >= 0
    ensures Next(e, s) == e <==> 0 <= e && s - 7 <= e <= s
  {
  }

  /** A constant sample drives every start value, in at most as many steps as it is away,
      to a fixed point in `[s - 7, s]`, which is `s` itself when coming from above. */
  lemma {:induction false} Converges(e: int, s: int, n: nat)
    requires s >= 0 && n >= e - s && n >= s - e
    ensures var r := Estimate(e, Constant(s, n));
            Next(r, s) == r && s - 7 <= r <= s && (e >= s ==> r == s)
  {
    Progress(e, s, n);
    FixedPoint(Estimate(e, Constant(s, n)), s);
  }

  lemma {:induction false} Progress(e: int, s: int, n: nat)
    requires s >= 0
    ensures var r := Estimate(e, Constant(s, n));
            if e >= s then s <= r && (r == s || r <= e - n)
            else r <= s && ((0 <= r && s - 7 <= r) || r >= e + n)
  {
    if n > 0 {
      Progress(e, s, n - 1);
      assert Constant(s, n)[..n - 1] == Constant(s, n - 1);
    }
  }
}
