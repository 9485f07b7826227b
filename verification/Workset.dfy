/** The workset calculator: a std::set of half-open ranges in which overlapping or touching
    ranges count as equal, and a peak that is only refreshed when a removal finds something.
    The set is kept as the sequence its iterator walks. */
module Workset {
  import opened Common

  datatype Range = Range(begin: nat, end: nat) {
    function Len(): int { end - begin }
  }

  /** doRangesOverlap: touching ranges overlap too. */
  predicate Overlap(r: Range, q: Range) {
    r.begin <= q.end && r.end >= q.begin
  }

  /** operator<, the order of the std::set. */
  predicate Less(r: Range, q: Range) {
    !Overlap(r, q) && r.begin < q.begin
  }

  /** Sorted, non-empty, and separated by a gap of at least one. */
  ghost predicate Canonical(s: seq<Range>) {
    && (forall i :: 0 <= i < |s| ==> s[i].begin < s[i].end)
    && (forall i, j :: 0 <= i < j < |s| ==> s[i].end < s[j].begin)
  }

  // ---------------------------------------------------------------- std::set

  /** lower_bound: the first element that is not less than the key. */
  function LowerBound(s: seq<Range>, key: Range): (i: nat)
    ensures i <= |s|
    ensures forall j :: 0 <= j < i ==> Less(s[j], key)
    ensures i < |s| ==> !Less(s[i], key)
  {
    if s == [] || !Less(s[0], key) then 0 else 1 + LowerBound(s[1..], key)
  }

  /** find: the lower bound if it is equivalent to the key, else the end. */
  function Find(s: seq<Range>, key: Range): (i: nat)
    ensures i <= |s|
  {
    var i := LowerBound(s, key);
    if i < |s| && !Less(key, s[i]) then i else |s|
  }

  /** insert: does nothing when an equivalent element is present. */
  function SetInsert(s: seq<Range>, r: Range): seq<Range> {
    var i := LowerBound(s, r);
    if i < |s| && !Less(r, s[i]) then s else s[..i] + [r] + s[i..]
  }

  function Erase(s: seq<Range>, i: nat): seq<Range> {
    if i < |s| then s[..i] + s[i + 1..] else s
  }

  lemma SetInsertAt(s: seq<Range>, i: nat, r: Range)
    requires i <= |s| && (forall j :: 0 <= j < i ==> Less(s[j], r)) && (i < |s| ==> Less(r, s[i]))
    ensures SetInsert(s, r) == s[..i] + [r] + s[i..]
  {
  }

  /** In a canonical set find returns the first range the key overlaps. */
  lemma FindFirst(s: seq<Range>, key: Range)
    requires Canonical(s) && key.begin <= key.end
    ensures var i := Find(s, key);
            if i < |s| then Overlap(s[i], key) && forall j :: 0 <= j < i ==> s[j].end < key.begin
            else forall j :: 0 <= j < |s| ==> !Overlap(s[j], key)
  {}

  // ---------------------------------------------------------------- what the operations compute

  /** The number of leading ranges that end before b. */
  function Before(s: seq<Range>, b: nat): (i: nat)
    ensures i <= |s| && (forall j :: 0 <= j < i ==> s[j].end < b) && (i < |s| ==> s[i].end >= b)
  {
    if s == [] || s[0].end >= b then 0 else 1 + Before(s[1..], b)
  }

  /** The number of leading ranges that begin no later than e. */
  function Upto(s: seq<Range>, e: nat): (i: nat)
    ensures i <= |s| && (forall j :: 0 <= j < i ==> s[j].begin <= e) && (i < |s| ==> s[i].begin > e)
  {
    if s == [] || s[0].begin > e then 0 else 1 + Upto(s[1..], e)
  }

  /** [b, e) joined with every range it overlaps. */
  function Hull(s: seq<Range>, b: nat, e: nat): Range {
    var i, j := Before(s, b), Upto(s, e);
    if i >= j then Range(b, e) else Range(Min(b, s[i].begin), Max(e, s[j - 1].end))
  }

  /** The overlapped ranges replaced by their hull. */
  function Inserted(s: seq<Range>, b: nat, e: nat): seq<Range> {
    s[..Before(s, b)] + ([Hull(s, b, e)] + s[Max(Before(s, b), Upto(s, e))..])
  }

  /** r lies in [b, e) without being equal to it. */
  predicate StrictlyInside(r: Range, b: nat, e: nat) {
    b <= r.begin && r.end <= e && r != Range(b, e)
  }

  /** What a removal of [b, e) leaves of one stored range: a range strictly inside is kept,
      and when the removed range is empty the part behind it gets lost. */
  function Cut(r: Range, b: nat, e: nat): (pieces: seq<Range>) {
    if !Overlap(r, Range(b, e)) || StrictlyInside(r, b, e) then [r]
    else
      (if r.begin < b then [Range(r.begin, b)] else []) +
      (if r.end > e && !(b == e && r.begin < b) then [Range(e, r.end)] else [])
  }

  function Removed(s: seq<Range>, b: nat, e: nat): seq<Range> {
    if s == [] then [] else Cut(s[0], b, e) + Removed(s[1..], b, e)
  }

  function Length(s: seq<Range>): int {
    if s == [] then 0 else s[0].Len() + Length(s[1..])
  }

  // ---------------------------------------------------------------- ranges and sets of points

  ghost function Interval(b: nat, e: nat): (p: set<nat>)
    ensures forall x :: x in p <==> b <= x < e
  {
    set x: nat | b <= x < e && Has(Range(b, e), x)
  }

  predicate Has(r: Range, x: nat) { r.begin <= x < r.end }

  ghost predicate Covered(s: seq<Range>, x: nat) {
    exists i :: 0 <= i < |s| && Has(s[i], x)
  }

  /** The points covered by the ranges. */
  ghost function Points(s: seq<Range>): (p: set<nat>)
    ensures forall x: nat :: x in p <==> Covered(s, x)
    decreases |s|
  {
    if s == [] then {}
    else
      CoveredConcat(s[..1], s[1..]);
      assert s == s[..1] + s[1..];
      Interval(s[0].begin, s[0].end) + Points(s[1..])
  }

  lemma CoveredOne(r: Range, x: nat)
    ensures (Covered([r], x) <==> Has(r, x)) && !Covered([], x)
  {
    assert [r][0] == r;
  }

  lemma CoveredConcat(s: seq<Range>, t: seq<Range>)
    ensures forall x: nat :: Covered(s + t, x) <==> Covered(s, x) || Covered(t, x)
  {
    forall x: nat
      ensures Covered(s + t, x) <==> Covered(s, x) || Covered(t, x)
    {
      if Covered(s, x) {
        var i :| 0 <= i < |s| && Has(s[i], x);
        assert Has((s + t)[i], x);
      }
      if Covered(t, x) {
        var i :| 0 <= i < |t| && Has(t[i], x);
        assert Has((s + t)[|s| + i], x);
      }
    }
  }

  lemma {:induction false} IntervalSize(b: nat, e: nat)
    requires b <= e
    ensures |Interval(b, e)| == e - b
    decreases e - b
  {
    if b < e {
      assert Interval(b, e) == {b} + Interval(b + 1, e);
      IntervalSize(b + 1, e);
    } else {
      assert Interval(b, e) == {};
    }
  }

  lemma PointsOfRest(s: seq<Range>)
    requires Canonical(s) && s != []
    ensures Points(s[1..]) == Points(s) - Interval(s[0].begin, s[0].end)
  {}

  /** The summed lengths of a canonical set count its points. */
  lemma {:induction false} LengthCountsPoints(s: seq<Range>)
    requires Canonical(s)
    ensures |Points(s)| == Length(s)
  {
    if s != [] {
      var first, rest := Interval(s[0].begin, s[0].end), s[1..];
      LengthCountsPoints(rest);
      IntervalSize(s[0].begin, s[0].end);
      PointsOfRest(s);
      assert Points(s) == first + Points(rest);
    }
  }

  lemma GapAfterFirst(t: seq<Range>)
    requires Canonical(t) && t != []
    ensures !Covered(t, t[0].end)
  {
  }

  lemma FirstEnds(s: seq<Range>, t: seq<Range>)
    requires Canonical(s) && Canonical(t) && s != [] && t != []
    requires Points(s) == Points(t) && s[0].begin == t[0].begin
    ensures s[0].end <= t[0].end
  {
    var x := t[0].end;
    if x < s[0].end {
      assert Has(s[0], x);
      GapAfterFirst(t);
    }
  }

  lemma SomePoint(s: seq<Range>)
    requires Canonical(s) && s != []
    ensures Points(s) != {}
  {
    assert Has(s[0], s[0].begin);
    assert s[0].begin in Points(s);
  }

  /** A set of points has one canonical representation. */
  lemma {:induction false} CanonicalIsUnique(s: seq<Range>, t: seq<Range>)
    requires Canonical(s) && Canonical(t) && Points(s) == Points(t)
    ensures s == t
    decreases |s|
  {
    if s == [] {
      if t != [] {
        SomePoint(t);
      }
    } else if t == [] {
      SomePoint(s);
    } else {
      assert Has(s[0], s[0].begin) && s[0].begin in Points(s);
      assert Has(t[0], t[0].begin) && t[0].begin in Points(t);
      FirstEnds(s, t);
      FirstEnds(t, s);
      CanonicalIsUnique(s[1..], t[1..]);
    }
  }

  /** The stretch of ranges that [b, e) overlaps, joined with it. */
  lemma HullCovers(mid: seq<Range>, b: nat, e: nat, x: nat)
    requires Canonical(mid) && b < e && mid != [] && forall k :: 0 <= k < |mid| ==> Overlap(mid[k], Range(b, e))
    ensures Has(Range(Min(b, mid[0].begin), Max(e, mid[|mid| - 1].end)), x) <==> Covered(mid, x) || b <= x < e
  {}

  /** The three stretches of a canonical set that an insertion distinguishes. */
  lemma InsertStretches(s: seq<Range>, b: nat, e: nat)
    requires Canonical(s) && b < e
    ensures Before(s, b) <= Upto(s, e)
    ensures forall k :: Before(s, b) <= k < Upto(s, e) ==> Overlap(s[k], Range(b, e))
    ensures forall k :: Upto(s, e) <= k < |s| ==> e < s[k].begin
  {
    hide Before, Upto;
    RestEndsLate(s, b);
    RestBeginsLate(s, e);
    forall k | 0 <= k < Before(s, b)
      ensures s[k].begin <= e
    {
    }
  }

  lemma RestEndsLate(s: seq<Range>, b: nat)
    requires Canonical(s)
    ensures forall k :: Before(s, b) <= k < |s| ==> s[k].end >= b
  {
    hide Before;
    var i := Before(s, b);
    forall k | i < k < |s|
      ensures s[k].end >= b
    {
      assert s[i].end < s[k].begin;
    }
  }

  lemma RestBeginsLate(s: seq<Range>, e: nat)
    requires Canonical(s)
    ensures forall k :: Upto(s, e) <= k < |s| ==> e < s[k].begin
  {
    hide Upto;
    var i := Upto(s, e);
    forall k | i < k < |s|
      ensures e < s[k].begin
    {
      assert s[i].end < s[k].begin;
    }
  }

  /** The hull fits between the stretches it leaves alone. */
  lemma HullFits(s: seq<Range>, b: nat, e: nat)
    requires Canonical(s) && b < e
    ensures Before(s, b) <= Upto(s, e)
    ensures var i, j, h := Before(s, b), Upto(s, e), Hull(s, b, e);
            && h.begin < h.end
            && (forall k :: 0 <= k < i ==> s[k].end < h.begin)
            && (forall k :: j <= k < |s| ==> h.end < s[k].begin)
  {
    hide Before, Upto;
    InsertStretches(s, b, e);
  }

  /** A range between two stretches of a canonical set. */
  lemma CanonicalBetween(s: seq<Range>, i: nat, h: Range, j: nat)
    requires Canonical(s) && i <= j <= |s| && h.begin < h.end
    requires forall k :: 0 <= k < i ==> s[k].end < h.begin
    requires forall k :: j <= k < |s| ==> h.end < s[k].begin
    ensures Canonical(s[..i] + ([h] + s[j..]))
  {
    var r := s[..i] + ([h] + s[j..]);
    forall k: nat, l: nat | k <= l < |r|
      ensures r[k].begin < r[k].end && (k < l ==> r[k].end < r[l].begin)
    {
    }
  }

  lemma InsertIsCanonical(s: seq<Range>, b: nat, e: nat)
    requires Canonical(s) && b < e
    ensures Canonical(Inserted(s, b, e))
  {
    hide Before, Upto, Hull, Canonical;
    HullFits(s, b, e);
    CanonicalBetween(s, Before(s, b), Hull(s, b, e), Upto(s, e));
  }

  lemma HullIsUnion(s: seq<Range>, b: nat, e: nat)
    requires Canonical(s) && b < e && Before(s, b) <= Upto(s, e)
    ensures forall x: nat :: Covered([Hull(s, b, e)], x) <==> Covered(s[Before(s, b)..Upto(s, e)], x) || b <= x < e
  {
    hide Covered, Before, Upto;
    InsertStretches(s, b, e);
    var i, j, h := Before(s, b), Upto(s, e), Hull(s, b, e);
    var mid := s[i..j];
    assert i < j ==> mid[0] == s[i] && mid[|mid| - 1] == s[j - 1];
    forall x: nat
      ensures Covered([h], x) <==> Covered(mid, x) || b <= x < e
    {
      CoveredOne(h, x);
      if i < j {
        HullCovers(mid, b, e, x);
      } else {
        assert mid == [];
      }
    }
  }

  /** Insertion is set union, in canonical form. */
  lemma InsertIsUnion(s: seq<Range>, b: nat, e: nat)
    requires Canonical(s) && b < e
    ensures Canonical(Inserted(s, b, e))
    ensures Points(Inserted(s, b, e)) == Points(s) + Interval(b, e)
  {
    hide Before, Upto, Hull, Covered, Points;
    InsertIsCanonical(s, b, e);
    InsertStretches(s, b, e);
    var i, j, h := Before(s, b), Upto(s, e), Hull(s, b, e);
    var mid, rest := s[i..j], s[j..];
    HullIsUnion(s, b, e);
    assert s == s[..i] + (mid + rest);
    UnionOfStretches(s[..i], mid, [h], rest, b, e);
  }

  lemma UnionOfStretches(front: seq<Range>, mid: seq<Range>, mid': seq<Range>, rest: seq<Range>, b: nat, e: nat)
    requires forall x: nat :: Covered(mid', x) <==> Covered(mid, x) || b <= x < e
    ensures Points(front + (mid' + rest)) == Points(front + (mid + rest)) + Interval(b, e)
  {
    hide Covered;
    CoveredConcat(front, mid + rest);
    CoveredConcat(front, mid' + rest);
    CoveredConcat(mid, rest);
    CoveredConcat(mid', rest);
  }

  // ---------------------------------------------------------------- removal

  lemma {:induction false} RemovedSplits(s: seq<Range>, t: seq<Range>, b: nat, e: nat)
    ensures Removed(s + t, b, e) == Removed(s, b, e) + Removed(t, b, e)
    decreases |s|
  {
    if s == [] {
      assert s + t == t;
    } else {
      assert (s + t)[1..] == s[1..] + t;
      RemovedSplits(s[1..], t, b, e);
    }
  }

  lemma CutShape(r: Range, b: nat, e: nat)
    requires r.begin < r.end && b <= e
    ensures Canonical(Cut(r, b, e))
    ensures forall k :: 0 <= k < |Cut(r, b, e)| ==> r.begin <= Cut(r, b, e)[k].begin && Cut(r, b, e)[k].end <= r.end
  {
  }

  /** Every range left by a removal is a part of a stored one. */
  lemma {:induction false} RemovedShape(s: seq<Range>, b: nat, e: nat)
    requires Canonical(s) && b <= e
    ensures Canonical(Removed(s, b, e))
    ensures forall k :: 0 <= k < |Removed(s, b, e)| ==>
              s != [] && s[0].begin <= Removed(s, b, e)[k].begin && Removed(s, b, e)[k].end <= s[|s| - 1].end
  {
    if s != [] {
      var c, rest := Cut(s[0], b, e), Removed(s[1..], b, e);
      RemovedShape(s[1..], b, e);
      CutShape(s[0], b, e);
      forall k | 0 <= k < |rest|
        ensures s[0].end < rest[k].begin && rest[k].end <= s[|s| - 1].end
      {
        assert s[1..][0] == s[1] && s[0].end < s[1].begin;
      }
      if |s| > 1 {
        assert s[0].end < s[|s| - 1].begin;
      }
      hide Cut;
      assert Removed(s, b, e) == c + rest;
    }
  }

  lemma CutEffect(r: Range, b: nat, e: nat, x: nat)
    requires r.begin < r.end && b < e
    ensures Covered(Cut(r, b, e), x) <==> Has(r, x) && (!(b <= x < e) || StrictlyInside(r, b, e))
  {
    var c := Cut(r, b, e);
    if Has(r, x) && (!(b <= x < e) || StrictlyInside(r, b, e)) {
      assert Has(c[if |c| == 2 && x >= e then 1 else 0], x);
    }
  }

  /** x lies in a stored range that lies strictly inside [b, e). */
  ghost predicate Sheltered(s: seq<Range>, b: nat, e: nat, x: nat) {
    exists i :: 0 <= i < |s| && Has(s[i], x) && StrictlyInside(s[i], b, e)
  }

  lemma ShelteredFirst(s: seq<Range>, b: nat, e: nat, x: nat)
    requires s != []
    ensures Sheltered(s, b, e, x) <==> (Has(s[0], x) && StrictlyInside(s[0], b, e)) || Sheltered(s[1..], b, e, x)
  {}

  /** The exact effect: a covered point survives a removal if and only if it is outside the
      removed range or its stored range lies strictly inside. */
  lemma {:induction false} RemoveEffect(s: seq<Range>, b: nat, e: nat, x: nat)
    requires Canonical(s) && b < e
    ensures Covered(Removed(s, b, e), x) <==> Covered(s, x) && (!(b <= x < e) || Sheltered(s, b, e, x))
    decreases |s|
  {
    if s != [] {
      RemoveEffect(s[1..], b, e, x);
      CutEffect(s[0], b, e, x);
      ShelteredFirst(s, b, e, x);
      CoveredConcat(Cut(s[0], b, e), Removed(s[1..], b, e));
      assert s == s[..1] + s[1..];
      CoveredConcat(s[..1], s[1..]);
      assert Covered(s[..1], x) <==> Has(s[0], x) by { assert s[..1][0] == s[0]; }
      assert Has(s[0], x) ==> forall i :: 0 <= i < |s[1..]| ==> !Has(s[1..][i], x);
    }
  }

  /** removeRange removes the range, as its documentation says, exactly when no stored range
      lies strictly inside it. */
  lemma RemoveIsDifference(s: seq<Range>, b: nat, e: nat)
    requires Canonical(s) && b < e
    ensures Points(Removed(s, b, e)) == Points(s) - Interval(b, e)
            <==> forall i :: 0 <= i < |s| ==> !StrictlyInside(s[i], b, e)
  {
    forall x: nat
      ensures x in Points(Removed(s, b, e)) <==> x in Points(s) && (!(b <= x < e) || Sheltered(s, b, e, x))
    {
      RemoveEffect(s, b, e, x);
    }
    if i :| 0 <= i < |s| && StrictlyInside(s[i], b, e) {
      var x := s[i].begin;
      assert Has(s[i], x) && Sheltered(s, b, e, x);
      assert x in Points(Removed(s, b, e)) && x !in Points(s) - Interval(b, e);
    }
  }

  /** Removing [0, 10) from a set that holds [2, 4) removes nothing. */
  lemma RangeInsideIsKept()
    ensures var s := [Range(2, 4)];
            Canonical(s) && Removed(s, 0, 10) == s && Points(Removed(s, 0, 10)) != Points(s) - Interval(0, 10)
  {
    var s := [Range(2, 4)];
    assert Removed(s[1..], 0, 10) == [];
    assert StrictlyInside(s[0], 0, 10);
    RemoveIsDifference(s, 0, 10);
  }

  /** What removeRange counts for one range: its length minus the lengths of its pieces. */
  function CutCount(r: Range, b: nat, e: nat): int {
    if !Overlap(r, Range(b, e)) || StrictlyInside(r, b, e) then 0
    else r.Len() - (if r.begin < b then b - r.begin else 0) - (if r.end > e then r.end - e else 0)
  }

  function RemovedCount(s: seq<Range>, b: nat, e: nat): int {
    if s == [] then 0 else CutCount(s[0], b, e) + RemovedCount(s[1..], b, e)
  }

  lemma {:induction false} LengthConcat(s: seq<Range>, t: seq<Range>)
    ensures Length(s + t) == Length(s) + Length(t)
    decreases |s|
  {
    if s == [] {
      assert s + t == t;
    } else {
      assert (s + t)[1..] == s[1..] + t;
      LengthConcat(s[1..], t);
    }
  }

  lemma CutLength(r: Range, b: nat, e: nat)
    requires r.begin < r.end && b <= e
    ensures Length(Cut(r, b, e)) == r.Len() - CutCount(r, b, e) - (if b == e && r.begin < b < r.end then r.end - b else 0)
    ensures b == e ==> CutCount(r, b, e) == 0
  {
    var c := Cut(r, b, e);
    if |c| == 2 {
      assert c[1..] == [c[1]] && Length([c[1]]) == c[1].Len();
    }
  }

  /** The covered length that a removal at one point, [b, b), loses. */
  function LostAt(s: seq<Range>, b: nat): nat {
    if s == [] then 0 else (if s[0].begin < b < s[0].end then s[0].end - b else 0) + LostAt(s[1..], b)
  }

  lemma {:induction false} RemovalLength(s: seq<Range>, b: nat, e: nat)
    requires Canonical(s) && b <= e
    ensures Length(Removed(s, b, e)) == Length(s) - RemovedCount(s, b, e) - (if b == e then LostAt(s, b) else 0)
    ensures b == e ==> RemovedCount(s, b, e) == 0
  {
    if s != [] {
      hide Cut, CutCount;
      RemovalLength(s[1..], b, e);
      CutLength(s[0], b, e);
      LengthConcat(Cut(s[0], b, e), Removed(s[1..], b, e));
    }
  }

  lemma {:induction false} LostOnlyInside(s: seq<Range>, b: nat)
    ensures LostAt(s, b) == 0 <==> forall i :: 0 <= i < |s| ==> !(s[i].begin < b < s[i].end)
  {
    if s != [] {
      LostOnlyInside(s[1..], b);
      assert forall i :: 1 <= i < |s| ==> s[i] == s[1..][i - 1];
    }
  }

  /** The returned length is the covered length before minus after, for every removal except
      that of an empty range at a point in the interior of a stored range. */
  lemma CountIsExact(s: seq<Range>, b: nat, e: nat)
    requires Canonical(s) && b <= e
    ensures RemovedCount(s, b, e) == |Points(s)| - |Points(Removed(s, b, e))|
            <==> !(b == e && exists i :: 0 <= i < |s| && s[i].begin < b < s[i].end)
  {
    RemovedShape(s, b, e);
    LengthCountsPoints(s);
    LengthCountsPoints(Removed(s, b, e));
    RemovalLength(s, b, e);
    LostOnlyInside(s, b);
  }

  /** Removing the empty range [5, 5) from a set that holds [0, 10) returns 0 and loses [5, 10). */
  lemma EmptyRemovalLosesPoints()
    ensures Removed([Range(0, 10)], 5, 5) == [Range(0, 5)] && RemovedCount([Range(0, 10)], 5, 5) == 0
  {}

  lemma {:induction false} CountNonNegative(s: seq<Range>, b: nat, e: nat)
    requires Canonical(s) && b <= e
    ensures RemovedCount(s, b, e) >= 0
  {
    if s != [] {
      CountNonNegative(s[1..], b, e);
    }
  }

  // ---------------------------------------------------------------- the calculator and its runs

  /** m_hitRanges, m_max, m_isMaxFresh. */
  datatype Calc = Calc(ranges: seq<Range>, max: int, isMaxFresh: bool)

  datatype Op = Insert(begin: nat, len: nat) | Remove(begin: nat, len: nat)

  /** What getWorkset reports. */
  function Workset(c: Calc): int {
    if c.isMaxFresh then c.max else if c.max >= Length(c.ranges) then c.max else Length(c.ranges)
  }

  function Step(c: Calc, op: Op): Calc {
    match op
    case Insert(b, len) =>
      if len == 0 then c else Calc(Inserted(c.ranges, b, b + len), c.max, false)
    case Remove(b, len) =>
      if Find(c.ranges, Range(b, b + len)) == |c.ranges| then c
      else Calc(Removed(c.ranges, b, b + len), Workset(c), true)
  }

  function Run(ops: seq<Op>): Calc {
    if ops == [] then Calc([], 0, true) else Step(Run(ops[..|ops| - 1]), ops[|ops| - 1])
  }

  /** The largest number of points covered in any state of the run. */
  ghost function Peak(ops: seq<Op>): nat {
    if ops == [] then 0 else Max(Peak(ops[..|ops| - 1]), |Points(Run(ops).ranges)|)
  }

  lemma StepKeepsPeak(c: Calc, op: Op, peak: nat)
    requires Canonical(c.ranges) && Workset(c) == peak && |Points(c.ranges)| <= peak
    ensures Canonical(Step(c, op).ranges)
    ensures Workset(Step(c, op)) == Max(peak, |Points(Step(c, op).ranges)|)
  {
    hide Inserted, Removed, Find, Points, Canonical, RemovedCount;
    LengthCountsPoints(c.ranges);
    match op {
      case Insert(b, len) =>
        if len > 0 {
          InsertIsUnion(c.ranges, b, b + len);
          LengthCountsPoints(Inserted(c.ranges, b, b + len));
          Monotone(Points(c.ranges), Points(Inserted(c.ranges, b, b + len)));
        }
      case Remove(b, len) =>
        RemovedShape(c.ranges, b, b + len);
        LengthCountsPoints(Removed(c.ranges, b, b + len));
        RemovalLength(c.ranges, b, b + len);
        CountNonNegative(c.ranges, b, b + len);
    }
  }

  lemma Monotone(a: set<nat>, b: set<nat>)
    requires a <= b
    ensures |a| <= |b|
  {
    assert b == a + (b - a);
  }

  /** For every sequence of insertions and removals getWorkset is the largest number of points
      covered at any moment, although the stored peak is refreshed only by removals. */
  lemma {:induction false} WorksetIsPeak(ops: seq<Op>)
    ensures Canonical(Run(ops).ranges)
    ensures Workset(Run(ops)) == Peak(ops) && |Points(Run(ops).ranges)| <= Peak(ops)
  {
    hide Step;
    if ops != [] {
      var before := ops[..|ops| - 1];
      WorksetIsPeak(before);
      StepKeepsPeak(Run(before), ops[|ops| - 1], Peak(before));
    }
  }

  // ---------------------------------------------------------------- steps of the methods

  /** Inserting between two stretches of a set that leave room for the range. */
  lemma InsertBetween(p: seq<Range>, r: Range, q: seq<Range>)
    requires r.begin < r.end
    requires forall j :: 0 <= j < |p| ==> p[j].begin < p[j].end < r.begin
    requires q != [] ==> r.end < q[0].begin
    ensures SetInsert(p + q, r) == p + [r] + q
  {
    SetInsertAt(p + q, |p|, r);
  }

  lemma NoOverlapInserted(s: seq<Range>, r: Range)
    requires Before(s, r.begin) == Upto(s, r.end)
    ensures Inserted(s, r.begin, r.end) == s[..Before(s, r.begin)] + [r] + s[Before(s, r.begin)..]
  {}

  lemma InsertAtFind(s: seq<Range>, r: Range)
    requires Canonical(s) && r.begin < r.end
    ensures Find(s, r) < |s| ==> Find(s, r) == Before(s, r.begin) < Upto(s, r.end)
    ensures Find(s, r) == |s| ==> SetInsert(s, r) == Inserted(s, r.begin, r.end)
  {
    hide Find, LowerBound, Before, Upto, Inserted, SetInsert;
    FindFirst(s, r);
    InsertStretches(s, r.begin, r.end);
    if Find(s, r) == |s| {
      InsertApart(s, r);
    }
  }

  /** No stored range overlaps r: it goes between those in front of it and those behind. */
  lemma InsertApart(s: seq<Range>, r: Range)
    requires Canonical(s) && r.begin < r.end && forall j :: 0 <= j < |s| ==> !Overlap(s[j], r)
    ensures SetInsert(s, r) == Inserted(s, r.begin, r.end)
  {
    hide LowerBound, Inserted, SetInsert;
    var i := Before(s, r.begin);
    assert i == Upto(s, r.end) by {
      hide Before, Upto;
      InsertStretches(s, r.begin, r.end);
    }
    hide Before, Upto;
    assert s == s[..i] + s[i..];
    InsertBetween(s[..i], r, s[i..]);
    NoOverlapInserted(s, r);
  }

  /** A range inside a stored one changes nothing. */
  lemma SubrangeInserted(s: seq<Range>, b: nat, e: nat)
    requires Canonical(s) && b < e && Before(s, b) < Upto(s, e)
    requires s[Before(s, b)].begin <= b && e <= s[Before(s, b)].end
    ensures Inserted(s, b, e) == s
  {
    hide Before, Upto;
    var i, j := Before(s, b), Upto(s, e);
    forall k | i < k < |s|
      ensures e < s[k].begin
    {
    }
  }

  lemma HullOf(s: seq<Range>, b: nat, e: nat)
    requires Before(s, b) < Upto(s, e)
    ensures Hull(s, b, e) == Range(Min(b, s[Before(s, b)].begin), Max(e, s[Upto(s, e) - 1].end))
    ensures Inserted(s, b, e) == s[..Before(s, b)] + [Hull(s, b, e)] + s[Upto(s, e)..]
  {}

  /** The ranges i to k - 1 of the set have been absorbed, and end is where the last one or r ends. */
  predicate Absorbing(s: seq<Range>, r: Range, i: nat, k: nat, end: nat) {
    i < k <= |s| && end == Max(r.end, s[k - 1].end) && forall m :: i <= m < k ==> s[m].begin <= r.end
  }

  lemma AbsorbNext(s: seq<Range>, r: Range, i: nat, k: nat, end: nat)
    requires Canonical(s) && i <= k < |s|
    ensures k == i && s[i].begin <= r.end ==> Absorbing(s, r, i, i + 1, Max(s[i].end, r.end))
    ensures Absorbing(s, r, i, k, end) && Overlap(r, s[k]) ==> Absorbing(s, r, i, k + 1, Max(end, s[k].end))
  {}

  lemma AbsorbedAll(s: seq<Range>, r: Range, i: nat, k: nat, end: nat)
    requires Canonical(s) && r.begin < r.end && i == Before(s, r.begin) < Upto(s, r.end) && Absorbing(s, r, i, k, end)
    requires k < |s| ==> !Overlap(r, s[k])
    ensures k == Upto(s, r.end)
  {}

  /** Where the loop stops the hull is inserted. */
  lemma AbsorbedHull(s: seq<Range>, r: Range, i: nat, k: nat, end: nat)
    requires Canonical(s) && r.begin < r.end && i == Before(s, r.begin) < Upto(s, r.end) && Absorbing(s, r, i, k, end)
    requires k < |s| ==> !Overlap(r, s[k])
    ensures SetInsert(s[..i] + s[k..], Range(Min(s[i].begin, r.begin), end)) == Inserted(s, r.begin, r.end)
  {
    hide Before, Upto, SetInsert, Inserted, Overlap;
    AbsorbedAll(s, r, i, k, end);
    MergeStops(s, r.begin, r.end);
  }

  /** The absorbing loop erases the range at position k of the original set. */
  lemma EraseNext(s: seq<Range>, i: nat, k: nat)
    requires i <= k < |s|
    ensures (s[..i] + s[k..])[i] == s[k] && Erase(s[..i] + s[k..], i) == s[..i] + s[k + 1..]
  {}

  /** What is inserted where the absorbing loop has stopped. */
  lemma MergeStops(s: seq<Range>, b: nat, e: nat)
    requires Canonical(s) && b < e && Before(s, b) < Upto(s, e)
    ensures var i, k := Before(s, b), Upto(s, e);
            SetInsert(s[..i] + s[k..], Range(Min(s[i].begin, b), Max(e, s[k - 1].end))) == Inserted(s, b, e)
  {
    hide Before, Upto, Hull, LowerBound, SetInsert, Overlap, Inserted;
    HullOf(s, b, e);
    var i, k, h := Before(s, b), Upto(s, e), Hull(s, b, e);
    assert h == Range(Min(s[i].begin, b), Max(e, s[k - 1].end));
    hide Min, Max;
    InsertBetween(s[..i], h, s[k..]);
  }

  lemma {:induction false} NothingToRemove(s: seq<Range>, b: nat, e: nat)
    requires forall j :: 0 <= j < |s| ==> !Overlap(s[j], Range(b, e))
    ensures Removed(s, b, e) == s && RemovedCount(s, b, e) == 0
  {
    if s != [] {
      NothingToRemove(s[1..], b, e);
    }
  }

  lemma {:induction false} CountConcat(s: seq<Range>, t: seq<Range>, b: nat, e: nat)
    ensures RemovedCount(s + t, b, e) == RemovedCount(s, b, e) + RemovedCount(t, b, e)
    decreases |s|
  {
    if s == [] {
      assert s + t == t;
    } else {
      assert (s + t)[1..] == s[1..] + t;
      CountConcat(s[1..], t, b, e);
    }
  }

  /** One more stored range processed. */
  lemma NextRange(s: seq<Range>, k: nat, b: nat, e: nat)
    requires Canonical(s) && b <= e && k < |s|
    ensures Removed(s[..k + 1], b, e) == Removed(s[..k], b, e) + Cut(s[k], b, e)
    ensures RemovedCount(s[..k + 1], b, e) == RemovedCount(s[..k], b, e) + CutCount(s[k], b, e)
    ensures forall j :: 0 <= j < |Removed(s[..k], b, e)| ==>
              Removed(s[..k], b, e)[j].begin < Removed(s[..k], b, e)[j].end < s[k].begin
    ensures s[k].begin < s[k].end && (k + 1 < |s| ==> s[k].end < s[k + 1].begin)
  {
    assert s[..k + 1] == s[..k] + [s[k]];
    RemovedSplits(s[..k], [s[k]], b, e);
    assert [s[k]][1..] == [] && Removed([s[k]], b, e) == Cut(s[k], b, e);
    CountConcat(s[..k], [s[k]], b, e);
    RemovedShape(s[..k], b, e);
  }

  /** A range erased between two stretches and its pieces inserted again: the second piece
      is refused when it touches the first. */
  lemma PiecesInserted(p: seq<Range>, r: Range, q: seq<Range>, b: nat, e: nat)
    requires r.begin < r.end && b <= e && Overlap(r, Range(b, e)) && !StrictlyInside(r, b, e)
    requires forall j :: 0 <= j < |p| ==> p[j].begin < p[j].end < r.begin
    requires q != [] ==> r.end < q[0].begin
    ensures var h := if r.begin < b then SetInsert(p + q, Range(r.begin, b)) else p + q;
            (if r.end > e then SetInsert(h, Range(e, r.end)) else h) == p + Cut(r, b, e) + q
  {
    hide SetInsert;
    var first, second := Range(r.begin, b), Range(e, r.end);
    if r.begin < b {
      InsertBetween(p, first, q);
      if r.end > e {
        if b < e {
          InsertBetween(p + [first], second, q);
        } else {
          InsertRefused(p, first, second, q);
        }
      }
    } else if r.end > e {
      InsertBetween(p, second, q);
    }
  }

  lemma EraseBetween(p: seq<Range>, r: Range, q: seq<Range>)
    ensures Erase(p + [r] + q, |p|) == p + q
  {
  }

  lemma InsertRefused(p: seq<Range>, first: Range, second: Range, q: seq<Range>)
    requires first.begin < first.end == second.begin < second.end
    requires forall j :: 0 <= j < |p| ==> p[j].begin < p[j].end < first.begin
    ensures SetInsert(p + [first] + q, second) == p + [first] + q
  {
    var s := p + [first] + q;
    forall j | 0 <= j < |p|
      ensures Less(s[j], second)
    {
      assert s[j] == p[j];
    }
    assert s[|p|] == first && !Less(first, second);
    assert LowerBound(s, second) == |p|;
  }

  lemma RemovalStops(s: seq<Range>, i: nat, k: nat, b: nat, e: nat)
    requires Canonical(s) && b <= e && k <= |s|
    requires i <= k && i < |s| && Overlap(s[i], Range(b, e)) && (k < |s| ==> !Overlap(Range(b, e), s[k]))
    ensures Removed(s, b, e) == Removed(s[..k], b, e) + s[k..]
    ensures RemovedCount(s, b, e) == RemovedCount(s[..k], b, e)
  {
    hide Removed, RemovedCount;
    assert s == s[..k] + s[k..];
    RemovedSplits(s[..k], s[k..], b, e);
    forall j | k <= j < |s|
      ensures !Overlap(s[j], Range(b, e))
    {
      assert s[i].end < s[k].begin;
      assert j > k ==> s[k].end < s[j].begin;
    }
    NothingToRemove(s[k..], b, e);
    CountConcat(s[..k], s[k..], b, e);
  }

  class WorksetCalculator {
    var hitRanges: seq<Range>
    var max: int
    var isMaxFresh: bool

    function View(): Calc
      reads this
    {
      Calc(hitRanges, max, isMaxFresh)
    }

    ghost predicate Valid()
      reads this
    {
      Canonical(hitRanges)
    }

    constructor ()
      ensures Valid() && View() == Run([])
    {
      hitRanges, max, isMaxFresh := [], 0, true;
    }

    method InsertRange(begin: nat, len: nat)
      requires Valid() && begin + len < UINT64
      modifies this
      ensures Valid() && View() == Step(old(View()), Insert(begin, len))
      ensures Points(hitRanges) == old(Points(hitRanges)) + Interval(begin, begin + len)
    {
      hide Find, SetInsert, Inserted, Before, Upto, Points;
      if len == 0 {
        assert Interval(begin, begin) == {};
        return;
      }
      var newRange := Range(begin, begin + len);
      InsertIsUnion(hitRanges, begin, begin + len);
      InsertAtFind(hitRanges, newRange);
      var iter := Find(hitRanges, newRange);
      if iter < |hitRanges| {
        MergeRanges(newRange, iter);
      } else {
        hitRanges := SetInsert(hitRanges, newRange);
      }
      isMaxFresh := false;
    }

    /** mergeRanges: iter is the first range that newRange overlaps. */
    method MergeRanges(newRange: Range, iter: nat)
      requires Valid() && newRange.begin < newRange.end && iter < |hitRanges|
      requires iter == Before(hitRanges, newRange.begin) < Upto(hitRanges, newRange.end)
      modifies this`hitRanges
      ensures hitRanges == Inserted(old(hitRanges), newRange.begin, newRange.end)
    {
      hide Before, Upto, Inserted, SetInsert, Erase, Absorbing, Min, Max;
      ghost var s := hitRanges;
      EraseNext(s, iter, iter);
      assert s[..iter] + s[iter..] == s;
      var minBegin := Min(hitRanges[iter].begin, newRange.begin);
      var maxEnd := Max(hitRanges[iter].end, newRange.end);
      if newRange.begin >= hitRanges[iter].begin && newRange.end <= hitRanges[iter].end {
        SubrangeInserted(s, newRange.begin, newRange.end);
        return;
      }
      AbsorbNext(s, newRange, iter, iter, 0);
      hitRanges := Erase(hitRanges, iter);
      ghost var k := iter + 1;
      while iter < |hitRanges| && Overlap(newRange, hitRanges[iter])
        invariant iter < k <= |s| && hitRanges == s[..iter] + s[k..]
        invariant Absorbing(s, newRange, iter, k, maxEnd)
        decreases |hitRanges|
      {
        EraseNext(s, iter, k);
        AbsorbNext(s, newRange, iter, k, maxEnd);
        maxEnd := Max(maxEnd, hitRanges[iter].end);
        hitRanges := Erase(hitRanges, iter);
        k := k + 1;
      }
      assert k < |s| ==> (s[..iter] + s[k..])[iter] == s[k];
      AbsorbedHull(s, newRange, iter, k, maxEnd);
      hitRanges := SetInsert(hitRanges, Range(minBegin, maxEnd));
    }

    method GetWorkset() returns (workset: int)
      requires Valid()
      ensures workset == Workset(View())
    {
      if isMaxFresh {
        return max;
      }
      workset := 0;
      for i := 0 to |hitRanges|
        invariant workset == Length(hitRanges[..i])
      {
        workset := workset + hitRanges[i].Len();
        assert hitRanges[..i + 1] == hitRanges[..i] + [hitRanges[i]];
        LengthConcat(hitRanges[..i], [hitRanges[i]]);
      }
      assert hitRanges[..|hitRanges|] == hitRanges;
      if max >= workset {
        workset := max;
      }
    }

    /** The body of removeRange's loop: the range at iter is cut, or skipped if it lies
        strictly inside; p and q are the ranges before and behind it. */
    method CutAt(iter: nat, rangeToRemove: Range, ghost p: seq<Range>, ghost q: seq<Range>) returns (next: nat, count: int)
      requires iter == |p| < |hitRanges| && hitRanges == p + [hitRanges[iter]] + q
      requires rangeToRemove.begin <= rangeToRemove.end && Overlap(hitRanges[iter], rangeToRemove)
      requires hitRanges[iter].begin < hitRanges[iter].end
      requires forall j :: 0 <= j < |p| ==> p[j].begin < p[j].end < hitRanges[iter].begin
      requires q != [] ==> hitRanges[iter].end < q[0].begin
      modifies this`hitRanges
      ensures var c := Cut(old(hitRanges)[iter], rangeToRemove.begin, rangeToRemove.end);
              hitRanges == p + c + q && next == iter + |c|
      ensures count == CutCount(old(hitRanges)[iter], rangeToRemove.begin, rangeToRemove.end)
    {
      hide SetInsert;
      var r := hitRanges[iter];
      var splitBegin, splitEnd := Range(0, 0), Range(0, 0);
      var removeRange := false;
      if r.begin < rangeToRemove.begin {
        removeRange := true;
        splitBegin := Range(r.begin, rangeToRemove.begin);
      }
      if r.end > rangeToRemove.end {
        removeRange := true;
        splitEnd := Range(rangeToRemove.end, r.end);
      } else if r.end == rangeToRemove.end && r.begin == rangeToRemove.begin {
        removeRange := true;
      }
      count, next := 0, iter + 1;
      if removeRange {
        PiecesInserted(p, r, q, rangeToRemove.begin, rangeToRemove.end);
        count := r.Len();
        EraseBetween(p, r, q);
        hitRanges := Erase(hitRanges, iter);
        var size := |hitRanges|;
        if splitBegin.begin != splitBegin.end {
          count := count - splitBegin.Len();
          hitRanges := SetInsert(hitRanges, splitBegin);
        }
        if splitEnd.begin != splitEnd.end {
          count := count - splitEnd.Len();
          hitRanges := SetInsert(hitRanges, splitEnd);
        }
        next := iter + (|hitRanges| - size);  // the iterator stays behind the insertions
      }
    }

    /** removeRange's loop, from the first range the removed one overlaps. */
    method CutAll(first: nat, rangeToRemove: Range) returns (lengthRemoved: int)
      requires Valid() && rangeToRemove.begin <= rangeToRemove.end
      requires first == Find(hitRanges, rangeToRemove) < |hitRanges|
      modifies this`hitRanges
      ensures hitRanges == Removed(old(hitRanges), rangeToRemove.begin, rangeToRemove.end)
      ensures lengthRemoved == RemovedCount(old(hitRanges), rangeToRemove.begin, rangeToRemove.end)
    {
      hide Removed, RemovedCount, SetInsert, Find, Cut, CutCount, Canonical;
      ghost var s := hitRanges;
      ghost var b, e := rangeToRemove.begin, rangeToRemove.end;
      FindFirst(s, rangeToRemove);
      var iter := first;
      lengthRemoved := 0;
      ghost var k, p := iter, s[..iter];
      NothingToRemove(p, b, e);
      while iter < |hitRanges| && Overlap(rangeToRemove, hitRanges[iter])
        invariant first <= k <= |s|
        invariant p == Removed(s[..k], b, e)
        invariant iter == |p| && hitRanges == p + s[k..]
        invariant lengthRemoved == RemovedCount(s[..k], b, e)
        decreases |s| - k
      {
        NextRange(s, k, b, e);
        assert s[k..] == [s[k]] + s[k + 1..];
        var count: int;
        iter, count := CutAt(iter, rangeToRemove, p, s[k + 1..]);
        lengthRemoved := lengthRemoved + count;
        k := k + 1;
        p := Removed(s[..k], b, e);
      }
      RemovalStops(s, first, k, b, e);
    }

    method RemoveRange(begin: nat, length: nat) returns (lengthRemoved: int)
      requires Valid() && begin + length < UINT64
      modifies this
      ensures Valid() && View() == Step(old(View()), Remove(begin, length))
      ensures lengthRemoved == RemovedCount(old(hitRanges), begin, begin + length)
      ensures length > 0 ==> lengthRemoved == |old(Points(hitRanges))| - |Points(hitRanges)|
    {
      hide Removed, RemovedCount, Find, Points, Canonical;
      var rangeToRemove := Range(begin, begin + length);
      CountIsExact(hitRanges, begin, begin + length);
      RemovedShape(hitRanges, begin, begin + length);
      var iter := Find(hitRanges, rangeToRemove);
      if iter == |hitRanges| {
        FindFirst(hitRanges, rangeToRemove);
        NothingToRemove(hitRanges, begin, begin + length);
        return 0;
      }
      if !isMaxFresh {
        max := GetWorkset();
        isMaxFresh := true;
      }
      lengthRemoved := CutAll(iter, rangeToRemove);
    }
  }
}
