/** The percentiles of a distribution counted by occurrences, as the comment in the percentile loop
    has it, against those the loop computes by summing the values. */
module OccurrencePercentiles {
  import opened Distributions

  /** The running count over the ranges first exceeds the share inside the range (l, r). */
  ghost predicate OccursAbove(c: Scale, recorded: seq<nat>, share: real, l: nat, r: nat)
  {
    && r < c.ranges
    && CountIn(recorded, 0, c.Edge(l, r)) as real <= share < CountIn(recorded, 0, c.Edge(l, r + 1)) as real
  }

  /** value is the k-th percentile of the recorded values, by occurrences. */
  ghost predicate IsOccurrencePercentile(c: Scale, recorded: seq<nat>, k: Rank, value: real) {
    exists l: nat, r: nat ::
      OccursAbove(c, recorded, Share(k, |recorded|), l, r) && value == Middle(c.Edge(l, r), c.Size(l))
  }

  // ---------------------------------------------------------------- shares of the sum and of the count

  lemma {:induction false} ValuesBelow(s: seq<nat>, e: nat)
    ensures SumIn(s, 0, e) <= e * CountIn(s, 0, e)
    ensures Sum(s) - SumIn(s, 0, e) >= e * (|s| - CountIn(s, 0, e))
    ensures CountIn(s, 0, e) <= |s|
  {
    if s != [] {
      var rest, v := s[..|s| - 1], s[|s| - 1];
      ValuesBelow(rest, e);
      var n, m := CountIn(rest, 0, e), |rest| - CountIn(rest, 0, e);
      assert e * (n + 1) == e * n + e && e * (m + 1) == e * m + e;
    }
  }

  /** The values below any point have at most the same share of the sum as of the occurrences. */
  lemma SumLagsBehind(s: seq<nat>, e: nat)
    ensures SumIn(s, 0, e) * |s| <= CountIn(s, 0, e) * Sum(s)
  {
    ValuesBelow(s, e);
    var low, n := SumIn(s, 0, e), CountIn(s, 0, e);
    CrossProducts(low, n, Sum(s) - low, |s| - n, e);
  }

  lemma CrossProducts(low: nat, n: nat, high: int, m: nat, e: nat)
    requires low <= e * n && high >= e * m
    ensures low * (n + m) <= n * (low + high)
  {
    assert low * m <= e * n * m by {
      assert (e * n - low) * m >= 0;
    }
    assert n * high >= n * (e * m) by {
      assert n * (high - e * m) >= 0;
    }
    assert n * (e * m) == e * n * m;
  }

  /** Where the running sum exceeds its share, the running count has exceeded the same share. */
  lemma CountExceedsToo(s: seq<nat>, k: nat, e: nat)
    requires k < 4 && SumIn(s, 0, e) as real > Share(k, Sum(s))
    ensures CountIn(s, 0, e) as real > Share(k, |s|)
  {
    hide SumIn, CountIn, Sum;
    SumLagsBehind(s, e);
    PartOfSum(s, 0, e);
    Cancel(SumIn(s, 0, e) as real, CountIn(s, 0, e) as real, Sum(s) as real, |s| as real, PERCENTILES[k]);
  }

  lemma Cancel(low: real, n: real, sum: real, all: real, p: real)
    requires sum > 0.0 && all > 0.0 && low * all <= n * sum && low > p * sum / 100.0
    ensures n > p * all / 100.0
  {
    var q := p / 100.0;
    assert p * sum / 100.0 == q * sum && p * all / 100.0 == q * all;
    assert (low - q * sum) * all > 0.0;
    assert (low - q * sum) * all == low * all - q * all * sum;
    assert (n - q * all) * sum > 0.0;
  }

  lemma CountGrows(s: seq<nat>, e: nat, f: nat)
    requires e <= f
    ensures CountIn(s, 0, e) <= CountIn(s, 0, f)
  {
    Adjacent(s, 0, e, f);
  }

  // ---------------------------------------------------------------- main results

  /** A percentile reported is never below the one by occurrences. */
  lemma NeverBelowOccurrences(c: Scale, recorded: seq<nat>, k: nat, value: real, byOccurrences: real)
    requires k < 4
    requires IsPercentile(c, recorded, k, value) && IsOccurrencePercentile(c, recorded, k, byOccurrences)
    ensures byOccurrences <= value
  {
    hide Middle, Share, SumIn, CountIn, Sum, Scale.Edge, Scale.Size;
    var l: nat, r: nat :| FirstAbove(c, recorded, Share(k, Sum(recorded)), l, r) && value == Middle(c.Edge(l, r), c.Size(l));
    var m: nat, q: nat :| OccursAbove(c, recorded, Share(k, |recorded|), m, q) && byOccurrences == Middle(c.Edge(m, q), c.Size(m));
    CountExceedsToo(recorded, k, c.Edge(l, r + 1));
    if value <= byOccurrences {
      MiddlesInOrder(c, l, r, m, q);
      if c.Edge(l, r + 1) <= c.Edge(m, q) {
        CountGrows(recorded, c.Edge(l, r + 1), c.Edge(m, q));
      }
    }
  }

  /** The percentile reported for the range (l, r) is the one by occurrences if and only if the
      occurrences below the range do not exceed the share. */
  lemma CoincideIff(c: Scale, recorded: seq<nat>, k: nat, l: nat, r: nat)
    requires k < 4 && FirstAbove(c, recorded, Share(k, Sum(recorded)), l, r)
    ensures IsOccurrencePercentile(c, recorded, k, Middle(c.Edge(l, r), c.Size(l))) <==>
            CountIn(recorded, 0, c.Edge(l, r)) as real <= Share(k, |recorded|)
  {
    hide Middle, Share, SumIn, CountIn, Sum, Scale.Edge, Scale.Size;
    var value := Middle(c.Edge(l, r), c.Size(l));
    CountExceedsToo(recorded, k, c.Edge(l, r + 1));
    if CountIn(recorded, 0, c.Edge(l, r)) as real <= Share(k, |recorded|) {
      assert OccursAbove(c, recorded, Share(k, |recorded|), l, r);
    }
    if IsOccurrencePercentile(c, recorded, k, value) {
      var m: nat, q: nat :| OccursAbove(c, recorded, Share(k, |recorded|), m, q) && value == Middle(c.Edge(m, q), c.Size(m));
      SameMiddle(c, l, r, m, q);
    }
  }

  /** In particular when all values lie in one range. */
  lemma CoincideInOneRange(c: Scale, recorded: seq<nat>, k: nat, l: nat, r: nat)
    requires k < 4 && r < c.ranges && Sum(recorded) > 0
    requires forall i :: 0 <= i < |recorded| ==> c.InCell(l, r, recorded[i])
    ensures var value := Middle(c.Edge(l, r), c.Size(l));
            IsPercentile(c, recorded, k, value) && IsOccurrencePercentile(c, recorded, k, value)
  {
    hide Middle, Share, SumIn, CountIn, Sum, Scale.Edge, Scale.Size;
    NothingIn(recorded, 0, c.Edge(l, r));
    EverythingIn(recorded, c.Edge(l, r + 1));
    SharesGrow(k, Sum(recorded));
    SharesGrow(k, |recorded|);
    assert FirstAbove(c, recorded, Share(k, Sum(recorded)), l, r);
    CoincideIff(c, recorded, k, l, r);
  }

  /** Ten values 1 and one value 100, in buckets of ten ranges: the 90th percentile by occurrences
      is 1, the one reported is 145. */
  lemma OneLargeValue()
    ensures var c, s := Scale(10, 10), [1, 1, 1, 1, 1, 1, 1, 1, 1, 1, 100];
            IsOccurrencePercentile(c, s, 0, 1.0) && IsPercentile(c, s, 0, 145.0)
  {
    var c, s := Scale(10, 10), [1, 1, 1, 1, 1, 1, 1, 1, 1, 1, 100];
    var ones := [1, 1, 1, 1, 1, 1, 1, 1, 1, 1];
    assert s == ones + [100];
    Ones(ones, 0, 1);
    Ones(ones, 0, 2);
    Ones(ones, 0, 100);
    Ones(ones, 0, 190);
    EverythingIn(s, 190);
    assert Pow(10, 0) == 1 && Pow(10, 1) == 10;
    assert c.Edge(0, 1) == 1 && c.Edge(0, 2) == 2 && c.Size(0) == 1;
    assert c.Begin(2) == 100 && c.Size(2) == 90 && c.Edge(2, 0) == 100 && c.Edge(2, 1) == 190;
    assert OccursAbove(c, s, Share(0, |s|), 0, 1);
    assert FirstAbove(c, s, Share(0, Sum(s)), 2, 0);
  }

  lemma {:induction false} Ones(s: seq<nat>, lo: nat, hi: nat)
    requires forall i :: 0 <= i < |s| ==> s[i] == 1
    ensures CountIn(s, lo, hi) == SumIn(s, lo, hi) == if lo <= 1 < hi then |s| else 0
  {
    if s != [] {
      Ones(s[..|s| - 1], lo, hi);
    }
  }
}
