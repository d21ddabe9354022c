/**
 * The λF scoring engine: the volume-weighted average sentiment of the topic
 * readings, and λF, that average shifted by 0.5 and clamped to [0, 1].
 * Arithmetic is over the reals; floating-point rounding is not modelled.
 */
module Scoring {
  import opened Inputs

  /** What one reading adds to the weighted score: volume times sentiment. */
  function Contribution(r: Reading): real
  {
    r.volume as real * r.sentiment
  }

  /** What one reading adds to the total volume. */
  function Volume(r: Reading): real
  {
    r.volume as real
  }

  /** The sum of `w` over the readings, the last reading added last. */
  function Total(rs: seq<Reading>, w: Reading -> real): real
  {
    if rs == [] then 0.0 else Total(rs[..|rs| - 1], w) + w(rs[|rs| - 1])
  }

  /** Σ volume·sentiment. */
  function WeightedScore(rs: seq<Reading>): real
  {
    Total(rs, Contribution)
  }

  /** Σ volume. */
  function TotalVolume(rs: seq<Reading>): real
  {
    Total(rs, Volume)
  }

  /** The volume-weighted average sentiment; 0 when there is no volume at all. */
  function AverageSentiment(rs: seq<Reading>): real
  {
    var volume := TotalVolume(rs);
    if volume > 0.0 then WeightedScore(rs) / volume else 0.0
  }

  function Min(x: real, y: real): real
  {
    if x <= y then x else y
  }

  function Max(x: real, y: real): real
  {
    if x >= y then x else y
  }

  /** λF: the average sentiment shifted by 0.5, clamped to [0, 1]. */
  function LambdaF(avg: real): (score: real)
    ensures 0.0 <= score <= 1.0
    ensures avg < -0.5 ==> score == 0.0
    ensures avg > 0.5 ==> score == 1.0
    ensures -0.5 <= avg <= 0.5 ==> score == avg + 0.5
  {
    Min(Max(avg + 0.5, 0.0), 1.0)
  }

  /** `calculate_lambda_f`: one pass over the dictionary's values with two accumulators. */
  method CalculateLambdaF(inputs: Dict) returns (avg: real, lambdaF: real)
    ensures avg == AverageSentiment(Values(inputs))
    ensures lambdaF == LambdaF(avg)
  {
    ghost var values := Values(inputs);
    var totalScore: real, totalTweets: nat := 0.0, 0;
    for i := 0 to |inputs|
      invariant totalScore == WeightedScore(values[..i])
      invariant totalTweets as real == TotalVolume(values[..i])
    {
      assert values[..i + 1][..i] == values[..i];
      var r := inputs[i].reading;
      totalScore := totalScore + r.volume as real * r.sentiment;
      totalTweets := totalTweets + r.volume;
    }
    assert values[..|inputs|] == values;
    avg := if totalTweets > 0 then totalScore / totalTweets as real else 0.0;
    lambdaF := Min(Max(avg + 0.5, 0.0), 1.0);
  }

  /** The sum over a concatenation is the sum of the sums. */
  lemma {:induction false} TotalConcat(a: seq<Reading>, b: seq<Reading>, w: Reading -> real)
    ensures Total(a + b, w) == Total(a, w) + Total(b, w)
  {
    if b == [] {
      assert a + b == a;
    } else {
      var n := |b|;
      assert (a + b)[..|a + b| - 1] == a + b[..n - 1];
      TotalConcat(a, b[..n - 1], w);
    }
  }

  /** A sum does not depend on the order of its terms. */
  lemma {:induction false} TotalPermutation(a: seq<Reading>, b: seq<Reading>, w: Reading -> real)
    requires multiset(a) == multiset(b)
    ensures Total(a, w) == Total(b, w)
  {
    if a == [] {
      assert |b| == |multiset(b)| == 0;
    } else {
      var n := |a|;
      var x := a[n - 1];
      assert a == a[..n - 1] + [x];
      assert x in multiset(b);
      var j :| 0 <= j < |b| && b[j] == x;
      var b' := b[..j] + b[j + 1..];
      assert b == b[..j] + ([x] + b[j + 1..]);
      calc {
        multiset(a[..n - 1]);
        multiset(a) - multiset{x};
        multiset(b) - multiset{x};
        multiset(b[..j]) + multiset(b[j + 1..]);
        multiset(b');
      }
      TotalPermutation(a[..n - 1], b', w);
      TotalConcat(b[..j], [x] + b[j + 1..], w);
      TotalConcat([x], b[j + 1..], w);
      TotalConcat(b[..j], b[j + 1..], w);
      assert Total([x], w) == w(x) by { assert [x][..0] == []; }
    }
  }

  /** The result does not depend on the order in which the readings are visited. */
  lemma ScoreIndependentOfOrder(a: seq<Reading>, b: seq<Reading>)
    requires multiset(a) == multiset(b)
    ensures AverageSentiment(a) == AverageSentiment(b)
    ensures LambdaF(AverageSentiment(a)) == LambdaF(AverageSentiment(b))
  {
    TotalPermutation(a, b, Contribution);
    TotalPermutation(a, b, Volume);
  }

  /**
   * The result depends only on which reading each topic maps to, not on the
   * order in which the topics were inserted into the dictionary.
   */
  lemma ScoreDependsOnlyOnMapping(d1: Dict, d2: Dict)
    requires UniqueKeys(d1) && UniqueKeys(d2)
    requires forall k :: Lookup(d1, k) == Lookup(d2, k)
    ensures AverageSentiment(Values(d1)) == AverageSentiment(Values(d2))
  {
    SameMappingSameValues(d1, d2);
    ScoreIndependentOfOrder(Values(d1), Values(d2));
  }

  /** The total volume is zero exactly when every reading has volume zero (so also for no readings). */
  lemma {:induction false} NoVolumeIffAllSilent(rs: seq<Reading>)
    ensures TotalVolume(rs) >= 0.0
    ensures TotalVolume(rs) == 0.0 <==> forall i | 0 <= i < |rs| :: rs[i].volume == 0
  {
    if rs != [] {
      var n := |rs|;
      NoVolumeIffAllSilent(rs[..n - 1]);
      assert forall i | 0 <= i < n - 1 :: rs[..n - 1][i] == rs[i];
    }
  }

  /** Without any volume the average is 0 and λF is the neutral 0.5. */
  lemma NoVolumeIsNeutral(rs: seq<Reading>)
    requires forall i | 0 <= i < |rs| :: rs[i].volume == 0
    ensures AverageSentiment(rs) == 0.0
    ensures LambdaF(AverageSentiment(rs)) == 0.5
  {
    NoVolumeIffAllSilent(rs);
  }

  /** A reading's volume-weighted deviation from the sentiment `a`. */
  function Deviation(a: real): Reading -> real
  {
    (r: Reading) => r.volume as real * (r.sentiment - a)
  }

  /** The weighted score is the volume-weighted sum of the deviations from `a`, plus `a` times the volume. */
  lemma {:induction false} DeviationSum(rs: seq<Reading>, a: real)
    ensures Total(rs, Deviation(a)) == WeightedScore(rs) - a * TotalVolume(rs)
  {
    if rs != [] {
      DeviationSum(rs[..|rs| - 1], a);
    }
  }

  /**
   * With some volume, the average is the one value from which the
   * volume-weighted deviations of the sentiments cancel out.
   */
  lemma AverageIsBalancePoint(rs: seq<Reading>, a: real)
    requires TotalVolume(rs) > 0.0
    ensures Total(rs, Deviation(a)) == 0.0 <==> a == AverageSentiment(rs)
  {
    DeviationSum(rs, a);
    var v, s := TotalVolume(rs), WeightedScore(rs);
    assert s - a * v == 0.0 <==> a == s / v;
  }

  /** Sentiments within [lo, hi] keep the weighted score between lo and hi times the volume. */
  lemma {:induction false} WeightedScoreBounds(rs: seq<Reading>, lo: real, hi: real)
    requires forall i | 0 <= i < |rs| :: lo <= rs[i].sentiment <= hi
    ensures lo * TotalVolume(rs) <= WeightedScore(rs) <= hi * TotalVolume(rs)
  {
    if rs != [] {
      var n := |rs|;
      var r := rs[n - 1];
      assert forall i | 0 <= i < n - 1 :: rs[..n - 1][i] == rs[i];
      WeightedScoreBounds(rs[..n - 1], lo, hi);
      var v := r.volume as real;
      assert lo * v <= v * r.sentiment <= hi * v by {
        assert v * (r.sentiment - lo) >= 0.0;
        assert v * (hi - r.sentiment) >= 0.0;
      }
    }
  }

  /** With some volume, the average lies between the least and the greatest sentiment bound. */
  lemma AverageWithinBounds(rs: seq<Reading>, lo: real, hi: real)
    requires forall i | 0 <= i < |rs| :: lo <= rs[i].sentiment <= hi
    requires TotalVolume(rs) > 0.0
    ensures lo <= AverageSentiment(rs) <= hi
  {
    WeightedScoreBounds(rs, lo, hi);
    var v, s := TotalVolume(rs), WeightedScore(rs);
    assert s / v * v == s;
  }

  /** Readings within the sidebar's ranges give an average within [-1, 1]. */
  lemma AverageInRange(rs: seq<Reading>)
    requires forall r | r in rs :: InRange(r)
    ensures -1.0 <= AverageSentiment(rs) <= 1.0
  {
    NoVolumeIffAllSilent(rs);
    if TotalVolume(rs) > 0.0 {
      assert forall i | 0 <= i < |rs| :: InRange(rs[i]) by {
        forall i | 0 <= i < |rs| ensures InRange(rs[i]) { assert rs[i] in rs; }
      }
      AverageWithinBounds(rs, -1.0, 1.0);
    }
  }
}
