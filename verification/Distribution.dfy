/** The exponential-bucket distribution: a histogram whose buckets grow by a constant base, and
    percentiles read off the running sum of its ranges. Integers and reals are exact. */
module Distributions {

  import Arithmetic
  import opened Common

  const UINT64_MAX: nat := UINT64 - 1

  function Pow(base: nat, n: nat): (p: nat)
    requires base >= 1
    ensures p >= 1
  {
    if n == 0 then 1 else Products(base, Pow(base, n - 1), 0); Products(Pow(base, n - 1), base, 0); base * Pow(base, n - 1)
  }

  lemma Products(a: nat, b: nat, c: nat)
    ensures b >= 1 ==> a * b >= a
    ensures (a + b) * c == a * c + b * c && a * c == c * a
    ensures a <= b ==> a * c <= b * c
  {}

  type Growth = n: nat | n >= 2 witness 2

  /** The shape of a distribution: ranges per bucket, and the growth of the buckets. */
  datatype Scale = Scale(ranges: Positive, base: Growth) {
    /** The first value above the bucket. */
    function Top(level: nat): nat
    {
      Pow(base, level) * ranges
    }

    function Begin(level: nat): nat
    {
      if level == 0 then 0 else Top(level - 1)
    }

    function Size(level: nat): nat
    {
      if level == 0 then 1 else Pow(base, level - 1) * (base - 1)
    }

    /** Where range r of a bucket begins. */
    function Edge(level: nat, r: nat): nat
    {
      Begin(level) + r * Size(level)
    }

    predicate InCell(level: nat, r: nat, value: nat)
    {
      r < ranges && Edge(level, r) <= value < Edge(level, r + 1)
    }
  }

  lemma BucketShape(c: Scale, level: nat)
    ensures c.Begin(level) < c.Top(level)
    ensures c.Size(level) >= 1
    ensures c.ranges * c.Size(level) == c.Top(level) - c.Begin(level)
    ensures c.Edge(level, 0) == c.Begin(level)
    ensures c.Edge(level, c.ranges) == c.Top(level) == c.Begin(level + 1)
  {
    if level > 0 {
      var p := Pow(c.base, level - 1);
      Products(p, c.base - 1, 0);
      assert c.Top(level) == c.base * p * c.ranges;
      assert c.base * p == p * (c.base - 1) + p;
      Products(p * (c.base - 1), p, c.ranges);
    }
    Products(c.Size(level), c.ranges, 0);
  }

  /** The first bucket has ranges of one value. From then on each bucket ends base times further
      than the one before, and its ranges are no wider than a fixed share of their values. */
  lemma BucketsGrow(c: Scale, level: nat, r: nat, value: nat)
    ensures c.Edge(0, 1) == 1 && c.Top(0) == c.ranges && c.Top(level + 1) == c.base * c.Top(level)
    ensures level > 0 && c.InCell(level, r, value) ==>
              c.ranges * (c.Edge(level, r + 1) - c.Edge(level, r)) <= (c.base - 1) * value
  {
    TopGrows(c, level);
    assert c.Top(0) == c.ranges && c.Edge(0, 1) == 1;
    hide Scale.Top, Pow;
    if level > 0 && c.InCell(level, r, value) {
      hide Scale.Edge, Scale.Size;
      InBucket(c, level, r, value);
      EdgeStep(c, level, r);
      BucketShape(c, level);
      BucketShape(c, level - 1);
      TopGrows(c, level - 1);
      var width := c.Edge(level, r + 1) - c.Edge(level, r);
      assert width == c.Size(level);
      Spread(c.base, c.Begin(level), value);
    }
  }

  lemma TopGrows(c: Scale, level: nat)
    ensures c.Top(level + 1) == c.base * c.Top(level)
  {
    Associates(c.base, Pow(c.base, level), c.ranges);
  }

  lemma Associates(a: nat, b: nat, c: nat)
    ensures a * b * c == a * (b * c)
  {}

  lemma Spread(base: nat, begin: nat, value: nat)
    requires base > 0 && begin <= value
    ensures base * begin - begin <= (base - 1) * value
  {
    var d := value - begin;
    assert (base - 1) * (begin + d) == (base - 1) * begin + (base - 1) * d;
    assert (base - 1) * begin == base * begin - begin;
  }

  lemma EdgeStep(c: Scale, level: nat, r: nat)
    ensures c.Edge(level, r + 1) == c.Edge(level, r) + c.Size(level)
  {}

  lemma EdgesInOrder(c: Scale, level: nat, q: nat, r: nat)
    requires q <= r
    ensures c.Edge(level, q) <= c.Edge(level, r)
  {
    Products(q, r, c.Size(level));
  }

  lemma {:induction false} TopsInOrder(c: Scale, k: nat, l: nat)
    requires k <= l
    ensures c.Top(k) <= c.Top(l)
    decreases l
  {
    if k < l {
      TopsInOrder(c, k, l - 1);
      BucketShape(c, l);
    }
  }

  /** Every value is in exactly one range of exactly one bucket. */
  lemma CellsTile(c: Scale, value: nat)
    ensures exists l: nat, r: nat :: c.InCell(l, r, value)
    ensures forall k: nat, q: nat, l: nat, r: nat :: c.InCell(k, q, value) && c.InCell(l, r, value) ==> k == l && q == r
  {
    var l := LevelOf(c, value, 0);
    RangeOfValue(c, l, value);
    forall k: nat, q: nat, l: nat, r: nat | c.InCell(k, q, value) && c.InCell(l, r, value)
      ensures k == l && q == r
    {
      CellIsUnique(c, k, q, l, r, value);
    }
  }

  lemma CellIsUnique(c: Scale, k: nat, q: nat, l: nat, r: nat, value: nat)
    requires c.InCell(k, q, value) && c.InCell(l, r, value)
    ensures k == l && q == r
  {
    InBucket(c, k, q, value);
    InBucket(c, l, r, value);
    if k < l {
      TopsInOrder(c, k, l - 1);
    } else if l < k {
      TopsInOrder(c, l, k - 1);
    } else if q < r {
      EdgesInOrder(c, l, q + 1, r);
    } else if r < q {
      EdgesInOrder(c, l, r + 1, q);
    }
  }

  lemma InBucket(c: Scale, l: nat, r: nat, value: nat)
    requires c.InCell(l, r, value)
    ensures c.Begin(l) <= value < c.Top(l)
  {
    EdgesInOrder(c, l, 0, r);
    EdgesInOrder(c, l, r + 1, c.ranges);
    BucketShape(c, l);
  }

  /** The search of getBucket: the first level from l on that reaches the value. */
  ghost function LevelOf(c: Scale, value: nat, l: nat): (r: nat)
    requires c.Begin(l) <= value
    ensures c.Begin(r) <= value < c.Top(r)
    decreases value - c.Begin(l)
  {
    BucketShape(c, l);
    if value < c.Top(l) then l else LevelOf(c, value, l + 1)
  }

  /** The range index computed by operator+= is that of the range holding the value. */
  lemma RangeOfValue(c: Scale, l: nat, value: nat)
    requires c.Begin(l) <= value < c.Top(l)
    ensures c.Size(l) >= 1 && c.InCell(l, (value - c.Begin(l)) / c.Size(l), value)
  {
    hide Scale.Begin, Scale.Size, Scale.Top;
    BucketShape(c, l);
    var x, s := value - c.Begin(l), c.Size(l);
    var q := x / s;
    assert q * s <= x < (q + 1) * s by {
      assert x == s * q + x % s;
    }
    Products(c.ranges, q, s);
  }

  // ---------------------------------------------------------------- buckets

  datatype Bucket = Bucket(begin: nat, end: nat, rangeSize: nat, sum: seq<nat>, count: seq<nat>)

  /** The constructor, as coded: the last value is kept and the range size divided out. */
  function NewBucket(c: Scale, level: nat): Bucket
  {
    BucketShape(c, level);
    var end := Pow(c.base, level) * c.ranges - 1;
    var begin := if level > 0 then Pow(c.base, level - 1) * c.ranges else 0;
    Bucket(begin, end, (end - begin + 1) / c.ranges, seq(c.ranges, i => 0), seq(c.ranges, i => 0))
  }

  datatype Result<T> = Ok(value: T) | Exception

  /** Bucket::operator+=. */
  function Add(b: Bucket, value: nat): Result<Bucket>
    requires b.rangeSize > 0 && |b.sum| == |b.count|
  {
    if value < b.begin || value > b.end then Exception
    else
      var id := (value - b.begin) / b.rangeSize;
      if id < |b.count| then
        Ok(b.(sum := b.sum[id := b.sum[id] + value], count := b.count[id := b.count[id] + 1]))
      else Exception
  }

  /** What a bucket holds after the values of a run. */
  ghost predicate Exact(c: Scale, level: nat, b: Bucket, recorded: seq<nat>)
  {
    && b.begin == c.Begin(level) && b.end == c.Top(level) - 1 && b.rangeSize == c.Size(level) > 0
    && |b.sum| == |b.count| == c.ranges
    && forall r :: 0 <= r < c.ranges ==>
         && b.count[r] == CountIn(recorded, c.Edge(level, r), c.Edge(level, r + 1))
         && b.sum[r] == SumIn(recorded, c.Edge(level, r), c.Edge(level, r + 1))
  }

  /** How many of the values are in [lo, hi). */
  ghost function CountIn(s: seq<nat>, lo: nat, hi: nat): nat {
    if s == [] then 0 else CountIn(s[..|s| - 1], lo, hi) + if lo <= s[|s| - 1] < hi then 1 else 0
  }

  /** The sum of those values. */
  ghost function SumIn(s: seq<nat>, lo: nat, hi: nat): nat {
    if s == [] then 0 else SumIn(s[..|s| - 1], lo, hi) + if lo <= s[|s| - 1] < hi then s[|s| - 1] else 0
  }

  lemma RecordOne(s: seq<nat>, v: nat, lo: nat, hi: nat)
    ensures CountIn(s + [v], lo, hi) == CountIn(s, lo, hi) + if lo <= v < hi then 1 else 0
    ensures SumIn(s + [v], lo, hi) == SumIn(s, lo, hi) + if lo <= v < hi then v else 0
  {}

  lemma {:induction false} Adjacent(s: seq<nat>, lo: nat, mid: nat, hi: nat)
    requires lo <= mid <= hi
    ensures CountIn(s, lo, mid) + CountIn(s, mid, hi) == CountIn(s, lo, hi)
    ensures SumIn(s, lo, mid) + SumIn(s, mid, hi) == SumIn(s, lo, hi)
  {
    if s != [] {
      Adjacent(s[..|s| - 1], lo, mid, hi);
    }
  }

  ghost predicate Below(s: seq<nat>, hi: nat) {
    forall i :: 0 <= i < |s| ==> s[i] < hi
  }

  lemma {:induction false} NothingIn(s: seq<nat>, lo: nat, hi: nat)
    requires forall i :: 0 <= i < |s| ==> !(lo <= s[i] < hi)
    ensures CountIn(s, lo, hi) == SumIn(s, lo, hi) == 0
  {
    if s != [] {
      NothingIn(s[..|s| - 1], lo, hi);
    }
  }

  lemma {:induction false} EverythingIn(s: seq<nat>, hi: nat)
    requires Below(s, hi)
    ensures CountIn(s, 0, hi) == |s| && SumIn(s, 0, hi) == Sum(s)
  {
    if s != [] {
      EverythingIn(s[..|s| - 1], hi);
    }
  }

  ghost function Sum(s: seq<nat>): nat {
    if s == [] then 0 else Sum(s[..|s| - 1]) + s[|s| - 1]
  }

  lemma DivideOut(a: nat, b: nat)
    requires a > 0
    ensures a * b / a == b
  {
    Arithmetic.UniqueRemainder(a * b, a, b, 0);
  }

  lemma NewBucketBounds(c: Scale, level: nat)
    ensures var b := NewBucket(c, level);
            && b.begin == c.Begin(level) && b.end == c.Top(level) - 1 && b.rangeSize == c.Size(level) > 0
            && |b.sum| == |b.count| == c.ranges
            && forall r :: 0 <= r < c.ranges ==> b.sum[r] == b.count[r] == 0
  {
    hide Pow;
    BucketShape(c, level);
    DivideOut(c.ranges, c.Size(level));
  }

  /** A bucket created late is exact: none of the values recorded so far was in it. */
  lemma NewBucketExact(c: Scale, level: nat, recorded: seq<nat>)
    requires Below(recorded, c.Begin(level))
    ensures Exact(c, level, NewBucket(c, level), recorded)
  {
    hide NewBucket, CountIn, SumIn, Scale.Edge, Scale.Size, Scale.Begin;
    NewBucketBounds(c, level);
    BucketShape(c, level);
    forall r: nat | r < c.ranges
      ensures CountIn(recorded, c.Edge(level, r), c.Edge(level, r + 1)) == 0
      ensures SumIn(recorded, c.Edge(level, r), c.Edge(level, r + 1)) == 0
    {
      EdgesInOrder(c, level, 0, r);
      NothingIn(recorded, c.Edge(level, r), c.Edge(level, r + 1));
    }
  }

  /** The bucket of a value takes it without an exception and stays exact. */
  lemma AddIsExact(c: Scale, level: nat, b: Bucket, recorded: seq<nat>, value: nat)
    requires Exact(c, level, b, recorded) && c.Begin(level) <= value < c.Top(level)
    ensures Add(b, value).Ok? && Exact(c, level, Add(b, value).value, recorded + [value])
  {
    hide Scale.Edge, Scale.Size, Scale.Begin, Scale.Top, CountIn, SumIn;
    RangeOfValue(c, level, value);
    var id := (value - b.begin) / b.rangeSize;
    var b' := Add(b, value).value;
    forall r: nat | r < c.ranges
      ensures b'.count[r] == CountIn(recorded + [value], c.Edge(level, r), c.Edge(level, r + 1))
      ensures b'.sum[r] == SumIn(recorded + [value], c.Edge(level, r), c.Edge(level, r + 1))
    {
      RecordOne(recorded, value, c.Edge(level, r), c.Edge(level, r + 1));
      OnlyInItsRange(c, level, id, r, value);
    }
  }

  lemma OnlyInItsRange(c: Scale, level: nat, id: nat, r: nat, value: nat)
    requires c.InCell(level, id, value) && r < c.ranges
    ensures c.Edge(level, r) <= value < c.Edge(level, r + 1) <==> r == id
  {
    hide Scale.Edge;
    if c.InCell(level, r, value) {
      CellIsUnique(c, level, r, level, id, value);
    }
  }

  /** Every other bucket stays exact. */
  lemma OthersStayExact(c: Scale, level: nat, b: Bucket, recorded: seq<nat>, value: nat)
    requires Exact(c, level, b, recorded) && !(c.Begin(level) <= value < c.Top(level))
    ensures Exact(c, level, b, recorded + [value])
  {
    forall r: nat | r < c.ranges
      ensures b.count[r] == CountIn(recorded + [value], c.Edge(level, r), c.Edge(level, r + 1))
      ensures b.sum[r] == SumIn(recorded + [value], c.Edge(level, r), c.Edge(level, r + 1))
    {
      if c.InCell(level, r, value) {
        InBucket(c, level, r, value);
      }
    }
  }

  ghost predicate AllExact(c: Scale, buckets: seq<Bucket>, recorded: seq<nat>)
  {
    && Below(recorded, c.Begin(|buckets|))
    && (forall l :: 0 <= l < |buckets| ==> Exact(c, l, buckets[l], recorded))
  }

  lemma ExtendExact(c: Scale, buckets: seq<Bucket>, recorded: seq<nat>)
    requires AllExact(c, buckets, recorded)
    ensures AllExact(c, buckets + [NewBucket(c, |buckets|)], recorded)
  {
    hide Exact, NewBucket, Scale.Begin;
    NewBucketExact(c, |buckets|, recorded);
    BucketShape(c, |buckets|);
  }

  /** Adding a value to its bucket keeps the whole histogram exact. */
  lemma RecordExact(c: Scale, buckets: seq<Bucket>, recorded: seq<nat>, level: nat, value: nat)
    requires AllExact(c, buckets, recorded)
    requires level < |buckets| && c.Begin(level) <= value < c.Top(level)
    ensures buckets[level].rangeSize > 0 && |buckets[level].sum| == |buckets[level].count|
    ensures Add(buckets[level], value).Ok?
    ensures AllExact(c, buckets[level := Add(buckets[level], value).value], recorded + [value])
  {
    AddIsExact(c, level, buckets[level], recorded, value);
    hide Exact, Add, Scale.Begin;
    TopsInOrder(c, level, |buckets| - 1);
    BucketShape(c, |buckets| - 1);
    forall l: nat | l < |buckets| && l != level
      ensures Exact(c, l, buckets[l], recorded + [value])
    {
      if l < level {
        TopsInOrder(c, l, level - 1);
        BucketShape(c, level - 1);
      } else {
        TopsInOrder(c, level, l - 1);
        BucketShape(c, l - 1);
      }
      OthersStayExact(c, l, buckets[l], recorded, value);
    }
  }

  /** The number of buckets: those up to the bucket of the largest value. */
  ghost predicate JustEnough(c: Scale, levels: nat, recorded: seq<nat>, max: nat) {
    if recorded == [] then levels == 0 else levels > 0 && c.Begin(levels - 1) <= max < c.Top(levels - 1)
  }

  lemma JustEnoughAfter(c: Scale, levels: nat, recorded: seq<nat>, max: nat, level: nat, value: nat)
    requires JustEnough(c, levels, recorded, max) && (recorded == [] ==> max == 0)
    requires c.Begin(level) <= value < c.Top(level)
    ensures JustEnough(c, Max(levels, level + 1), recorded + [value], Max(max, value))
  {
    if recorded != [] {
      if level >= levels {
        TopsInOrder(c, levels - 1, level - 1);
      } else if level < levels - 1 {
        TopsInOrder(c, level, levels - 2);
      }
    }
  }

  // ---------------------------------------------------------------- the histogram

  datatype HistogramRange = HistogramRange(begin: nat, end: int, count: nat)

  /** The ranges cover [lo, hi) without gap or overlap, in order. */
  ghost predicate Chained(s: seq<HistogramRange>, lo: nat, hi: nat) {
    if s == [] then lo == hi
    else
      var last := s[|s| - 1];
      last.begin <= last.end && last.end + 1 == hi && Chained(s[..|s| - 1], lo, last.begin)
  }

  ghost function CountSum(s: seq<HistogramRange>): nat {
    if s == [] then 0 else CountSum(s[..|s| - 1]) + s[|s| - 1].count
  }

  ghost predicate CountsExact(s: seq<HistogramRange>, recorded: seq<nat>) {
    forall e :: e in s ==> e.begin <= e.end && e.count == CountIn(recorded, e.begin, e.end + 1)
  }

  lemma ChainOne(s: seq<HistogramRange>, lo: nat, e: HistogramRange, recorded: seq<nat>)
    requires Chained(s, lo, e.begin) && e.begin <= e.end && CountsExact(s, recorded)
    requires e.count == CountIn(recorded, e.begin, e.end + 1)
    ensures Chained(s + [e], lo, e.end + 1) && CountsExact(s + [e], recorded)
  {}

  /** Every entry is one range of one bucket. */
  ghost predicate AreCells(c: Scale, s: seq<HistogramRange>) {
    forall i :: 0 <= i < |s| ==> IsCell(c, s[i])
  }

  ghost predicate IsCell(c: Scale, e: HistogramRange) {
    exists l: nat, r: nat :: Spans(c, l, r, e)
  }

  predicate Spans(c: Scale, l: nat, r: nat, e: HistogramRange) {
    r < c.ranges && e.begin == c.Edge(l, r) && e.end + 1 == c.Edge(l, r + 1)
  }

  /** Given the values, a list of ranges that cover an interval is determined. */
  lemma {:induction false} HistogramIsUnique(c: Scale, s: seq<HistogramRange>, t: seq<HistogramRange>, hi: nat, recorded: seq<nat>)
    requires Chained(s, 0, hi) && AreCells(c, s) && CountsExact(s, recorded)
    requires Chained(t, 0, hi) && AreCells(c, t) && CountsExact(t, recorded)
    ensures s == t
    decreases |s|
  {
    hide CountIn, Scale.Edge;
    if s != [] && t != [] {
      var a, b := s[|s| - 1], t[|t| - 1];
      SameLastCell(c, a, b);
      HistogramIsUnique(c, s[..|s| - 1], t[..|t| - 1], a.begin, recorded);
    } else {
      ChainOrder(s, 0, hi);
    }
  }

  lemma SameLastCell(c: Scale, a: HistogramRange, b: HistogramRange)
    requires IsCell(c, a) && IsCell(c, b) && a.begin <= a.end && b.begin <= b.end && a.end == b.end
    ensures a.begin == b.begin
  {
    hide Scale.Edge;
    var l: nat, r: nat :| Spans(c, l, r, a);
    var k: nat, q: nat :| Spans(c, k, q, b);
    CellIsUnique(c, l, r, k, q, a.end);
  }

  lemma {:induction false} ChainOrder(s: seq<HistogramRange>, lo: nat, hi: nat)
    requires Chained(s, lo, hi)
    ensures lo <= hi
  {
    if s != [] {
      ChainOrder(s[..|s| - 1], lo, s[|s| - 1].begin);
    }
  }

  lemma {:induction false} ChainCounts(s: seq<HistogramRange>, lo: nat, hi: nat, recorded: seq<nat>)
    requires Chained(s, lo, hi) && CountsExact(s, recorded)
    ensures CountSum(s) == CountIn(recorded, lo, hi)
  {
    if s == [] {
      NothingIn(recorded, lo, hi);
    } else {
      var last := s[|s| - 1];
      ChainCounts(s[..|s| - 1], lo, last.begin, recorded);
      ChainOrder(s[..|s| - 1], lo, last.begin);
      Adjacent(recorded, lo, last.begin, hi);
    }
  }

  // ---------------------------------------------------------------- percentiles

  const PERCENTILES: seq<real> := [90.0, 99.0, 99.9, 99.99]

  /** The place of a percentile in the table. */
  type Rank = k: nat | k < 4

  function Share(k: Rank, total: nat): real {
    PERCENTILES[k] * (total as real) / 100.0
  }

  lemma SharesGrow(k: nat, total: nat)
    requires k < 4
    ensures 0.0 <= Share(k, total) && Share(k, total) <= total as real
    ensures total > 0 ==> Share(k, total) < total as real
    ensures k < 3 ==> Share(k, total) <= Share(k + 1, total)
  {}

  /** The value reported for a range: its middle, or its only value. */
  function Middle(begin: nat, size: nat): real {
    if size > 1 then begin as real + size as real / 2.0 else begin as real
  }

  /** The running sum over the ranges first exceeds the share inside the range (l, r). */
  ghost predicate FirstAbove(c: Scale, recorded: seq<nat>, share: real, l: nat, r: nat)
  {
    && r < c.ranges
    && SumIn(recorded, 0, c.Edge(l, r)) as real <= share < SumIn(recorded, 0, c.Edge(l, r + 1)) as real
  }

  /** value is the k-th percentile of the recorded values. */
  ghost predicate IsPercentile(c: Scale, recorded: seq<nat>, k: Rank, value: real) {
    exists l: nat, r: nat ::
      FirstAbove(c, recorded, Share(k, Sum(recorded)), l, r) && value == Middle(c.Edge(l, r), c.Size(l))
  }

  /** The percentiles found in front of the range (l, r) or inside it: the running sum before the
      range does not exceed the next share. */
  ghost predicate Collected(c: Scale, recorded: seq<nat>, out: seq<real>, l: nat, r: nat)
  {
    && |out| <= 4
    && (forall k :: 0 <= k < |out| ==> IsPercentile(c, recorded, k, out[k]) && out[k] <= Middle(c.Edge(l, r), c.Size(l)))
    && (forall j, k :: 0 <= j < k < |out| ==> out[j] <= out[k])
    && (|out| < 4 ==> SumIn(recorded, 0, c.Edge(l, r)) as real <= Share(|out|, Sum(recorded)))
  }

  lemma CollectOne(c: Scale, recorded: seq<nat>, out: seq<real>, l: nat, r: nat)
    requires Collected(c, recorded, out, l, r) && r < c.ranges && |out| < 4
    requires SumIn(recorded, 0, c.Edge(l, r + 1)) as real > Share(|out|, Sum(recorded))
    ensures Collected(c, recorded, out + [Middle(c.Edge(l, r), c.Size(l))], l, r)
  {
    hide SumIn, Sum, Middle, Share, Scale.Edge, Scale.Size;
    SharesGrow(|out|, Sum(recorded));
    assert FirstAbove(c, recorded, Share(|out|, Sum(recorded)), l, r);
    assert IsPercentile(c, recorded, |out|, Middle(c.Edge(l, r), c.Size(l)));
  }

  /** Moving on to the next range of the bucket. */
  lemma CollectNext(c: Scale, recorded: seq<nat>, out: seq<real>, l: nat, r: nat)
    requires Collected(c, recorded, out, l, r)
    requires |out| < 4 ==> SumIn(recorded, 0, c.Edge(l, r + 1)) as real <= Share(|out|, Sum(recorded))
    ensures Collected(c, recorded, out, l, r + 1)
  {}

  lemma SizesGrow(c: Scale, l: nat)
    ensures c.Size(l) <= c.Size(l + 1)
  {}

  /** The end of a bucket is the beginning of the next one, whose ranges are no smaller. */
  lemma CollectBucket(c: Scale, recorded: seq<nat>, out: seq<real>, l: nat)
    requires Collected(c, recorded, out, l, c.ranges)
    ensures c.Edge(l, c.ranges) == c.Edge(l + 1, 0)
    ensures Collected(c, recorded, out, l + 1, 0)
  {
    hide SumIn, Sum, Share, IsPercentile;
    BucketShape(c, l);
    BucketShape(c, l + 1);
    SizesGrow(c, l);
    hide Scale.Edge, Scale.Size, Scale.Begin, Scale.Top, Pow;
    assert Middle(c.Edge(l, c.ranges), c.Size(l)) <= Middle(c.Edge(l + 1, 0), c.Size(l + 1));
  }

  /** What the two nested loops begin with. */
  lemma NothingYet(c: Scale, recorded: seq<nat>)
    ensures Chained([], 0, c.Begin(0)) && CountsExact([], recorded) && CountSum([]) == 0
    ensures Collected(c, recorded, [], 0, 0) && SumIn(recorded, 0, c.Edge(0, 0)) == 0
  {}

  lemma {:induction false} PartOfSum(s: seq<nat>, lo: nat, hi: nat)
    ensures SumIn(s, lo, hi) <= Sum(s)
    ensures Sum(s) > 0 ==> s != []
  {
    if s != [] {
      PartOfSum(s[..|s| - 1], lo, hi);
    }
  }

  lemma NeedsPositiveSum(c: Scale, recorded: seq<nat>, k: nat, value: real)
    requires k < 4 && IsPercentile(c, recorded, k, value)
    ensures Sum(recorded) > 0
  {
    hide Middle, Share, SumIn, Sum, Scale.Edge;
    var l: nat, r: nat :|
      FirstAbove(c, recorded, Share(k, Sum(recorded)), l, r) && value == Middle(c.Edge(l, r), c.Size(l));
    PartOfSum(recorded, 0, c.Edge(l, r + 1));
  }

  /** After the last bucket all percentiles are there, unless every value is zero. */
  lemma CollectedAll(c: Scale, recorded: seq<nat>, out: seq<real>, l: nat)
    requires Collected(c, recorded, out, l, 0)
    requires SumIn(recorded, 0, c.Begin(l)) == Sum(recorded)
    ensures |out| == if Sum(recorded) > 0 then 4 else 0
    ensures forall k :: 0 <= k < |out| ==> IsPercentile(c, recorded, k, out[k])
    ensures forall j, k :: 0 <= j < k < |out| ==> out[j] <= out[k]
  {
    assert c.Edge(l, 0) == c.Begin(l);
    hide Middle, Share, SumIn, Sum, Scale.Edge, Scale.Begin, Scale.Size, Pow, IsPercentile;
    if |out| > 0 {
      NeedsPositiveSum(c, recorded, 0, out[0]);
    }
  }

  /** The sum kept for a range is what the running sum grows by across it. */
  lemma RangeSum(c: Scale, l: nat, b: Bucket, recorded: seq<nat>, r: nat)
    requires Exact(c, l, b, recorded) && r < c.ranges
    ensures SumIn(recorded, 0, c.Edge(l, r + 1)) == SumIn(recorded, 0, c.Edge(l, r)) + b.sum[r]
  {
    Adjacent(recorded, 0, c.Edge(l, r), c.Edge(l, r + 1));
  }

  lemma MiddleInside(c: Scale, l: nat, r: nat)
    ensures c.Edge(l, r) < c.Edge(l, r + 1)
    ensures c.Edge(l, r) as real <= Middle(c.Edge(l, r), c.Size(l)) < c.Edge(l, r + 1) as real
  {
    BucketShape(c, l);
  }

  /** Ranges are ordered by their middles. */
  lemma MiddlesInOrder(c: Scale, l: nat, r: nat, l': nat, r': nat)
    requires r < c.ranges && r' < c.ranges
    requires Middle(c.Edge(l, r), c.Size(l)) <= Middle(c.Edge(l', r'), c.Size(l'))
    ensures (l == l' && r == r') || c.Edge(l, r + 1) <= c.Edge(l', r')
  {
    hide Middle, Scale.Edge, Scale.Size;
    MiddleInside(c, l, r);
    MiddleInside(c, l', r');
    var e, e' := c.Edge(l, r), c.Edge(l', r');
    if e <= e' < c.Edge(l, r + 1) {
      CellIsUnique(c, l, r, l', r', e');
    } else if e' < e {
      assert e < c.Edge(l', r' + 1);
      CellIsUnique(c, l, r, l', r', e);
    }
  }

  lemma SameMiddle(c: Scale, l: nat, r: nat, m: nat, q: nat)
    requires r < c.ranges && q < c.ranges
    requires Middle(c.Edge(l, r), c.Size(l)) == Middle(c.Edge(m, q), c.Size(m))
    ensures l == m && r == q
  {
    hide Middle, Scale.Edge, Scale.Size;
    MiddleInside(c, l, r);
    MiddleInside(c, m, q);
    MiddlesInOrder(c, l, r, m, q);
    MiddlesInOrder(c, m, q, l, r);
  }

  /** A percentile is determined. */
  lemma PercentileIsUnique(c: Scale, recorded: seq<nat>, k: nat, value: real, other: real)
    requires k < 4 && IsPercentile(c, recorded, k, value) && IsPercentile(c, recorded, k, other)
    ensures value == other
  {
    hide Middle, Share, SumIn, Sum, Scale.Edge, Scale.Size;
    var share := Share(k, Sum(recorded));
    var l: nat, r: nat :| FirstAbove(c, recorded, share, l, r) && value == Middle(c.Edge(l, r), c.Size(l));
    var m: nat, q: nat :| FirstAbove(c, recorded, share, m, q) && other == Middle(c.Edge(m, q), c.Size(m));
    if value <= other {
      MiddlesInOrder(c, l, r, m, q);
      SumGrows(recorded, c.Edge(l, r + 1), c.Edge(m, q));
    }
    if other <= value {
      MiddlesInOrder(c, m, q, l, r);
      SumGrows(recorded, c.Edge(m, q + 1), c.Edge(l, r));
    }
  }

  lemma SumGrows(s: seq<nat>, e: nat, f: nat)
    ensures e <= f ==> SumIn(s, 0, e) <= SumIn(s, 0, f)
  {
    if e <= f {
      Adjacent(s, 0, e, f);
    }
  }

  /** The values above the range (l, r) make up less than one n-th of the sum, those in it and
      above it at least that. */
  ghost predicate TailBegins(c: Scale, recorded: seq<nat>, n: nat, l: nat, r: nat) {
    && r < c.ranges
    && n * (Sum(recorded) - SumIn(recorded, 0, c.Edge(l, r + 1))) < Sum(recorded)
    && Sum(recorded) <= n * (Sum(recorded) - SumIn(recorded, 0, c.Edge(l, r)))
  }

  /** The value is the one value of the range (l, r), or half way between its edges. */
  predicate HalfWay(c: Scale, l: nat, r: nat, value: real) {
    if c.Edge(l, r + 1) == c.Edge(l, r) + 1 then value == c.Edge(l, r) as real
    else 2.0 * value == (c.Edge(l, r) + c.Edge(l, r + 1)) as real
  }

  /** The k-th percentile stands half way in the range in which the last tenth, hundredth,
      thousandth or ten-thousandth of the sum begins. */
  lemma PercentileIff(c: Scale, recorded: seq<nat>, k: nat, value: real)
    requires k < 4
    ensures IsPercentile(c, recorded, k, value) <==>
            exists l: nat, r: nat :: TailBegins(c, recorded, [10, 100, 1000, 10000][k], l, r) && HalfWay(c, l, r, value)
  {
    hide SumIn, Sum, Scale.Edge, Scale.Size;
    forall l: nat, r: nat
      ensures FirstAbove(c, recorded, Share(k, Sum(recorded)), l, r) <==> TailBegins(c, recorded, [10, 100, 1000, 10000][k], l, r)
      ensures value == Middle(c.Edge(l, r), c.Size(l)) <==> HalfWay(c, l, r, value)
    {
      EdgeStep(c, l, r);
      BucketShape(c, l);
    }
  }

  datatype Statistics = Statistics(average: nat, min: nat, max: nat, total: nat, percentiles: seq<real>)

  /** The smallest and largest recorded value. */
  ghost predicate Extremes(recorded: seq<nat>, min: nat, max: nat) {
    && (forall v :: v in recorded ==> min <= v <= max)
    && (if recorded == [] then min == UINT64_MAX && max == 0 else min in recorded && max in recorded)
  }

  // ---------------------------------------------------------------- the class

  class Distribution {
    const scale: Scale
    var total: nat
    var count: nat
    var min: nat
    var max: nat
    var histogram: seq<Bucket>
    ghost var recorded: seq<nat>

    ghost predicate Valid()
      reads this
    {
      Counted() && JustEnough(scale, |histogram|, recorded, max)
    }

    ghost predicate Counted()
      reads this
    {
      && total == Sum(recorded) && count == |recorded|
      && Extremes(recorded, min, max)
      && AllExact(scale, histogram, recorded)
    }

    constructor (ranges: nat, base: nat)
      requires ranges >= 1 && base >= 2
      ensures Valid() && recorded == [] && scale == Scale(ranges, base)
    {
      scale, total, count, min, max, histogram := Scale(ranges, base), 0, 0, UINT64_MAX, 0, [];
      recorded := [];
    }

    /** getBucket: the level of the value, whose bucket exists afterwards. */
    method GetBucket(value: nat) returns (level: nat)
      requires Valid()
      modifies this`histogram
      ensures Counted() && |histogram| == Max(|old(histogram)|, level + 1)
      ensures scale.Begin(level) <= value < scale.Top(level)
      ensures old(histogram) <= histogram
    {
      level := FindLevel(value);
      hide AllExact, NewBucket, Scale.Begin, Scale.Top, Sum, Extremes;
      var j := |histogram|;
      while j <= level
        invariant Counted() && |histogram| == j == Max(|old(histogram)|, j) && old(histogram) <= histogram
        invariant j <= Max(|old(histogram)|, level + 1)
      {
        ExtendExact(scale, histogram, recorded);
        histogram := histogram + [NewBucket(scale, j)];
        j := j + 1;
      }
    }

    /** The search at the head of getBucket. */
    method FindLevel(value: nat) returns (level: nat)
            ensures scale.Begin(level) <= value < scale.Top(level)
    {
      level := 0;
      var end: int, power := scale.ranges - 1, 1;
      while end < value
        invariant power == Pow(scale.base, level) && end == scale.Top(level) - 1
        invariant scale.Begin(level) <= value
        decreases value - end
      {
        BucketShape(scale, level);
        BucketShape(scale, level + 1);
        level := level + 1;
        power := scale.base * power;
        end := power * scale.ranges - 1;
      }
    }

    /** operator+=; ok is false when a bucket throws. */
    method Record(value: nat) returns (ok: bool)
      requires Valid() && value <= UINT64_MAX
      modifies this
      ensures ok && Valid() && recorded == old(recorded) + [value]
    {
      hide AllExact, Add, Scale.Begin, Scale.Top, JustEnough;
      ghost var levels := |histogram|;
      var level := GetBucket(value);
      JustEnoughAfter(scale, levels, recorded, max, level, value);
      RecordExact(scale, histogram, recorded, level, value);
      assert (recorded + [value])[..|recorded|] == recorded;
      total := total + value;
      count := count + 1;
      min := if value < min then value else min;
      max := if value > max then value else max;
      var bucket := Add(histogram[level], value);
      if bucket.Exception? {
        ok := false;
      } else {
        ok, histogram := true, histogram[level := bucket.value];
      }
      recorded := recorded + [value];
    }

    method GetHistogram() returns (out: seq<HistogramRange>)
      requires Valid()
      ensures AreCells(scale, out) && CountsExact(out, recorded) && CountSum(out) == count
      ensures recorded == [] ==> out == []
      ensures recorded != [] ==> exists top: nat ::
                scale.Begin(top) <= max < scale.Top(top) && Chained(out, 0, scale.Top(top)) && Below(recorded, scale.Top(top))
    {
      hide CountIn, SumIn, Sum, Chained, CountsExact, CountSum, Extremes, Below, Pow, Scale.Begin, Scale.Size, Scale.Edge;
      out := [];
      NothingYet(scale, recorded);
      if count == 0 {
        return;
      }
      for l := 0 to |histogram|
        invariant Chained(out, 0, scale.Begin(l)) && AreCells(scale, out) && CountsExact(out, recorded)
      {
        var bucket := histogram[l];
        var rangeBegin, rangeEnd: int := bucket.begin, bucket.begin + bucket.rangeSize - 1;
        BucketShape(scale, l);
        assert Exact(scale, l, bucket, recorded);
        for r := 0 to |bucket.count|
          invariant rangeBegin == scale.Edge(l, r) && rangeEnd == rangeBegin + bucket.rangeSize - 1
          invariant Chained(out, 0, rangeBegin) && AreCells(scale, out) && CountsExact(out, recorded)
        {
          EdgeStep(scale, l, r);
          ChainOne(out, 0, HistogramRange(rangeBegin, rangeEnd, bucket.count[r]), recorded);
          assert Spans(scale, l, r, HistogramRange(rangeBegin, rangeEnd, bucket.count[r]));
          out := out + [HistogramRange(rangeBegin, rangeEnd, bucket.count[r])];
          rangeBegin, rangeEnd := rangeBegin + bucket.rangeSize, rangeEnd + bucket.rangeSize;
        }
      }
      ChainCounts(out, 0, scale.Begin(|histogram|), recorded);
      EverythingIn(recorded, scale.Begin(|histogram|));
      BucketShape(scale, |histogram| - 1);
    }

    method GetStatistics() returns (out: Statistics)
      requires Valid()
      ensures out.total == Sum(recorded)
      ensures if recorded == [] then out == Statistics(0, 0, 0, 0, [])
              else out.average == Sum(recorded) / |recorded| && Extremes(recorded, out.min, out.max)
      ensures |out.percentiles| == if Sum(recorded) > 0 then 4 else 0
      ensures forall k :: 0 <= k < |out.percentiles| ==> IsPercentile(scale, recorded, k, out.percentiles[k])
      ensures forall j, k :: 0 <= j < k < |out.percentiles| ==> out.percentiles[j] <= out.percentiles[k]
    {
      out := Statistics(0, 0, max, total, []);
      if count == 0 {
        return;
      }
      out := out.(average := total / count, min := min);
      var percentiles, _ := Percentiles();
      out := out.(percentiles := percentiles);
    }

    /** The percentile loop of getStatistics. The code's condition reads PERCENTILES[iPercentile]
        before it tests the index; readsBeyond tells whether it ever does so past the end. */
    method Percentiles() returns (out: seq<real>, ghost readsBeyond: bool)
      requires Valid()
      ensures |out| == if Sum(recorded) > 0 then 4 else 0
      ensures forall k :: 0 <= k < |out| ==> IsPercentile(scale, recorded, k, out[k])
      ensures forall j, k :: 0 <= j < k < |out| ==> out[j] <= out[k]
      ensures readsBeyond <==> Sum(recorded) > 0
    {
      hide SumIn, Sum, CountIn, Collected, IsPercentile, Share, Extremes, Pow, Below, Scale.Begin, Scale.Size;
      out, readsBeyond := [], false;
      var sum, checkNext := 0.0, false;
      NothingYet(scale, recorded);
      for l := 0 to |histogram|
        invariant !checkNext && Collected(scale, recorded, out, l, 0)
        invariant sum == SumIn(recorded, 0, scale.Edge(l, 0)) as real
        invariant readsBeyond <==> |out| == |PERCENTILES|
      {
        var bucket, r := histogram[l], 0;
        assert Exact(scale, l, bucket, recorded);
        while r < |bucket.sum|
          invariant r <= |bucket.sum| && Collected(scale, recorded, out, l, r)
          invariant checkNext ==> r < |bucket.sum|
          invariant readsBeyond ==> |out| == |PERCENTILES|
          invariant |out| == |PERCENTILES| ==> readsBeyond || checkNext
          invariant sum == SumIn(recorded, 0, scale.Edge(l, if checkNext then r + 1 else r)) as real
          decreases |bucket.sum| - r, 4 - |out|
        {
          RangeSum(scale, l, bucket, recorded, r);
          if !checkNext {
            sum := sum + bucket.sum[r] as real;
          }
          readsBeyond := readsBeyond || |out| == |PERCENTILES|;
          if |out| < |PERCENTILES| && sum > Share(|out|, total) {
            var value := bucket.begin as real + (bucket.rangeSize * r) as real;
            if bucket.rangeSize > 1 {
              value := value + bucket.rangeSize as real / 2.0;
            }
            assert value == Middle(scale.Edge(l, r), scale.Size(l));
            CollectOne(scale, recorded, out, l, r);
            out := out + [value];
            checkNext := true;
          } else {
            CollectNext(scale, recorded, out, l, r);
            checkNext := false;
            r := r + 1;
          }
        }
        CollectBucket(scale, recorded, out, l);
      }
      EverythingIn(recorded, scale.Begin(|histogram|));
      CollectedAll(scale, recorded, out, |histogram|);
    }
  }
}
