/**
 Range coalescing: nearby byte ranges are merged before they are fetched, and the fetched bytes are sliced
 back. The optimisation is invisible to the caller, and the merged list does not depend on the order in which
 the ranges are given.
 */
module RangeCoalescing {
  import opened Prelude

  datatype Range = Range(start: u64, end: u64)

  predicate WellFormed(ranges: seq<Range>) {
    forall i :: 0 <= i < |ranges| ==> ranges[i].start <= ranges[i].end
  }

  predicate SortedByStart(ranges: seq<Range>) {
    forall i, j :: 0 <= i < j < |ranges| ==> ranges[i].start <= ranges[j].start
  }

  function Max(a: u64, b: u64): u64 { if a < b then b else a }

  // ---- the merge of a list sorted by start ----

  /** The open merged range `[lo, hi)` takes in every range starting at most `gap` bytes after its end. */
  function CoalesceFrom(lo: u64, hi: u64, rest: seq<Range>, gap: u64): seq<Range>
    decreases |rest|
  {
    if rest == [] then [Range(lo, hi)]
    else if rest[0].start <= hi + gap then CoalesceFrom(lo, Max(hi, rest[0].end), rest[1..], gap)
    else [Range(lo, hi)] + CoalesceFrom(rest[0].start, rest[0].end, rest[1..], gap)
  }

  function Coalesce(sorted: seq<Range>, gap: u64): seq<Range> {
    if sorted == [] then [] else CoalesceFrom(sorted[0].start, sorted[0].end, sorted[1..], gap)
  }

  // ---- the result does not depend on the order of ties ----

  /** Moving a range to the front of the ranges it ties with. */
  lemma {:induction false} MoveToFront(lo: u64, hi: u64, ties: seq<Range>, a: Range, rest: seq<Range>, gap: u64)
    requires WellFormed(ties) && a.start <= a.end
    requires forall i :: 0 <= i < |ties| ==> ties[i].start == a.start
    ensures CoalesceFrom(lo, hi, ties + [a] + rest, gap) == CoalesceFrom(lo, hi, [a] + ties + rest, gap)
    decreases |ties|
  {
    if ties == [] {
      assert ties + [a] + rest == [a] + ties + rest;
    } else {
      var t, tail := ties[0], ties[1..];
      assert ties + [a] + rest == [t] + (tail + [a] + rest);
      assert [t, a] + (tail + rest) == [t] + ([a] + tail + rest);
      assert [a, t] + (tail + rest) == [a] + ties + rest;
      var moved := [a] + tail + rest;
      assert ([t] + moved)[1..] == moved && ([t] + (tail + [a] + rest))[1..] == tail + [a] + rest;
      if t.start <= hi + gap {
        MoveToFront(lo, Max(hi, t.end), tail, a, rest, gap);
      } else {
        MoveToFront(t.start, t.end, tail, a, rest, gap);
      }
    }
  }

  lemma {:induction false} MoveToVeryFront(ties: seq<Range>, a: Range, rest: seq<Range>, gap: u64)
    requires WellFormed(ties) && a.start <= a.end
    requires forall i :: 0 <= i < |ties| ==> ties[i].start == a.start
    ensures Coalesce(ties + [a] + rest, gap) == Coalesce([a] + ties + rest, gap)
  {
    if ties == [] {
      assert ties + [a] + rest == [a] + ties + rest;
    } else {
      var t, tail := ties[0], ties[1..];
      assert (ties + [a] + rest)[1..] == tail + [a] + rest;
      assert [t, a] + (tail + rest) == [t] + ([a] + tail + rest);
      assert [a, t] + (tail + rest) == [a] + ties + rest;
      assert ([t] + ([a] + tail + rest))[1..] == [a] + tail + rest;
      MoveToFront(t.start, t.end, tail, a, rest, gap);
    }
  }

  lemma {:induction false} SameFrom(lo: u64, hi: u64, s: seq<Range>, t: seq<Range>, gap: u64)
    requires multiset(s) == multiset(t) && SortedByStart(s) && SortedByStart(t) && WellFormed(s) && WellFormed(t)
    ensures CoalesceFrom(lo, hi, s, gap) == CoalesceFrom(lo, hi, t, gap)
    decreases |s|
  {
    if s == [] {
      assert |multiset(t)| == |multiset(s)| == 0;
    } else {
      var a := s[0];
      var k := FirstOf(s, t);
      var u := Without(t, k);
      assert t == t[..k] + [a] + t[k + 1..];
      assert [a] + t[..k] + t[k + 1..] == [a] + u;
      MoveToFront(lo, hi, t[..k], a, t[k + 1..], gap);
      RestOf(s, t, k);
      assert ([a] + u)[1..] == u;
      if a.start <= hi + gap {
        SameFrom(lo, Max(hi, a.end), s[1..], u, gap);
      } else {
        SameFrom(a.start, a.end, s[1..], u, gap);
      }
    }
  }

  /** Where the first range of `s` stands in another sorted arrangement; only ties come before it. */
  lemma {:induction false} FirstOf(s: seq<Range>, t: seq<Range>) returns (k: nat)
    requires s != [] && multiset(s) == multiset(t) && SortedByStart(s) && SortedByStart(t)
    ensures k < |t| && t[k] == s[0] && forall i :: 0 <= i < k ==> t[i].start == s[0].start
  {
    assert s[0] in multiset(t);
    k :| 0 <= k < |t| && t[k] == s[0];
    forall i | 0 <= i < k ensures t[i].start == s[0].start {
      assert t[i] in multiset(s);
      var j :| 0 <= j < |s| && s[j] == t[i];
    }
  }

  /** `t` without its element at `k`. */
  function Without(t: seq<Range>, k: nat): (u: seq<Range>)
    requires k < |t|
    ensures |u| == |t| - 1 && forall i :: 0 <= i < |u| ==> u[i] == t[if i < k then i else i + 1]
  {
    t[..k] + t[k + 1..]
  }

  lemma {:induction false} WithoutBag(t: seq<Range>, k: nat)
    requires k < |t|
    ensures multiset(t) == multiset{t[k]} + multiset(Without(t, k))
  {
    assert t == t[..k] + [t[k]] + t[k + 1..];
  }

  lemma {:induction false} WithoutSorted(t: seq<Range>, k: nat)
    requires k < |t| && SortedByStart(t) && WellFormed(t)
    ensures SortedByStart(Without(t, k)) && WellFormed(Without(t, k))
  {
  }

  lemma {:induction false} RestOf(s: seq<Range>, t: seq<Range>, k: nat)
    requires s != [] && k < |t| && t[k] == s[0] && multiset(s) == multiset(t)
    requires SortedByStart(t) && WellFormed(t)
    ensures multiset(s[1..]) == multiset(Without(t, k)) && SortedByStart(Without(t, k)) && WellFormed(Without(t, k))
  {
    WithoutBag(s, 0);
    WithoutBag(t, k);
    WithoutSorted(t, k);
    assert s[1..] == Without(s, 0);
    assert multiset(s[1..]) == multiset(s) - multiset{s[0]} == multiset(Without(t, k));
  }

  /** The merged list is a function of the ranges as a bag: every sorted arrangement gives the same one. */
  lemma {:induction false} CoalesceCanonical(s: seq<Range>, t: seq<Range>, gap: u64)
    requires multiset(s) == multiset(t) && SortedByStart(s) && SortedByStart(t) && WellFormed(s) && WellFormed(t)
    ensures Coalesce(s, gap) == Coalesce(t, gap)
  {
    if s == [] {
      assert |multiset(t)| == |multiset(s)| == 0;
    } else {
      var a := s[0];
      var k := FirstOf(s, t);
      var u := Without(t, k);
      assert t == t[..k] + [a] + t[k + 1..];
      assert [a] + t[..k] + t[k + 1..] == [a] + u;
      MoveToVeryFront(t[..k], a, t[k + 1..], gap);
      RestOf(s, t, k);
      assert ([a] + u)[1..] == u;
      SameFrom(a.start, a.end, s[1..], u, gap);
    }
  }

  // ---- what the merged list looks like ----

  /** Consecutive merged ranges are more than `gap` bytes apart, so their starts strictly increase. */
  ghost predicate Separated(merged: seq<Range>, gap: u64) {
    && WellFormed(merged)
    && forall i, j :: 0 <= i < j < |merged| ==> merged[i].end + gap < merged[j].start
  }

  predicate Contains(m: Range, r: Range) { m.start <= r.start && r.end <= m.end }

  ghost predicate Within(merged: seq<Range>, r: Range) {
    exists i :: 0 <= i < |merged| && Contains(merged[i], r)
  }

  /** The ranges still to come start no earlier than the open range and no earlier than one another. */
  predicate Upcoming(lo: u64, rest: seq<Range>) {
    SortedByStart(rest) && WellFormed(rest) && forall k :: 0 <= k < |rest| ==> lo <= rest[k].start
  }

  lemma {:induction false} CoalesceFromShape(lo: u64, hi: u64, rest: seq<Range>, gap: u64)
    requires lo <= hi && Upcoming(lo, rest)
    ensures var m := CoalesceFrom(lo, hi, rest, gap);
            m != [] && m[0].start == lo && hi <= m[0].end && Separated(m, gap)
    decreases |rest|
  {
    if rest != [] {
      if rest[0].start <= hi + gap {
        CoalesceFromShape(lo, Max(hi, rest[0].end), rest[1..], gap);
      } else {
        CoalesceFromShape(rest[0].start, rest[0].end, rest[1..], gap);
        SeparatedCons(Range(lo, hi), CoalesceFrom(rest[0].start, rest[0].end, rest[1..], gap), gap);
      }
    }
  }

  lemma {:induction false} SeparatedCons(r: Range, m: seq<Range>, gap: u64)
    requires r.start <= r.end && Separated(m, gap) && m != [] && r.end + gap < m[0].start
    ensures Separated([r] + m, gap)
  {
    var n := [r] + m;
    forall i, j | 0 <= i < j < |n| ensures n[i].end + gap < n[j].start {
      if j > 1 { assert m[0].start <= m[j - 1].start by { if j > 2 { assert m[0].end + gap < m[j - 1].start; } } }
      if i > 0 { assert m[i - 1].end + gap < m[j - 1].start; }
    }
  }

  lemma {:induction false} CoalesceFromCovers(lo: u64, hi: u64, rest: seq<Range>, gap: u64, k: nat)
    requires lo <= hi && Upcoming(lo, rest) && k < |rest|
    ensures Within(CoalesceFrom(lo, hi, rest, gap), rest[k])
    decreases |rest|
  {
    var r, tail := rest[0], rest[1..];
    if r.start <= hi + gap {
      CoalesceFromShape(lo, Max(hi, r.end), tail, gap);
      if k == 0 { assert Contains(CoalesceFrom(lo, hi, rest, gap)[0], r); }
      else { CoalesceFromCovers(lo, Max(hi, r.end), tail, gap, k - 1); }
    } else {
      var n := CoalesceFrom(r.start, r.end, tail, gap);
      CoalesceFromShape(r.start, r.end, tail, gap);
      if k > 0 { CoalesceFromCovers(r.start, r.end, tail, gap, k - 1); }
      var i :| 0 <= i < |n| && Contains(n[i], rest[k]);
      assert ([Range(lo, hi)] + n)[i + 1] == n[i];
    }
  }

  lemma {:induction false} CoalesceShape(sorted: seq<Range>, gap: u64)
    requires SortedByStart(sorted) && WellFormed(sorted)
    ensures Separated(Coalesce(sorted, gap), gap)
    ensures forall k :: 0 <= k < |sorted| ==> Within(Coalesce(sorted, gap), sorted[k])
    ensures var merged := Coalesce(sorted, gap);
            && (forall i, j :: 0 <= i < j < |merged| ==> merged[i].end + gap < merged[j].start)
            && (forall r :: r in sorted ==> exists m :: m in merged && m.start <= r.start && r.end <= m.end)
  {
    if sorted != [] {
      var lo, hi, rest := sorted[0].start, sorted[0].end, sorted[1..];
      CoalesceFromShape(lo, hi, rest, gap);
      forall k | 0 <= k < |sorted| ensures Within(Coalesce(sorted, gap), sorted[k]) {
        if k == 0 { assert Contains(Coalesce(sorted, gap)[0], sorted[0]); }
        else { CoalesceFromCovers(lo, hi, rest, gap, k - 1); }
      }
    }
  }

  /** Merging what is already merged changes nothing. */
  lemma {:induction false} CoalesceIdempotent(merged: seq<Range>, gap: u64)
    requires Separated(merged, gap)
    ensures Coalesce(merged, gap) == merged
    decreases |merged|
  {
    if merged != [] {
      var rest := merged[1..];
      CoalesceIdempotent(rest, gap);
      if rest != [] { assert merged[0].end + gap < merged[1].start; }
      assert merged == [Range(merged[0].start, merged[0].end)] + rest;
    }
  }

  // ---- the bytes fetched but not asked for ----

  ghost predicate Requested(ranges: seq<Range>, p: int) {
    exists k :: 0 <= k < |ranges| && ranges[k].start <= p < ranges[k].end
  }

  /** `[a, b)` is asked for by nobody, begins where some request ends, ends where another begins, and is short. */
  ghost predicate ShortHole(ranges: seq<Range>, a: nat, b: nat, gap: u64) {
    && a < b <= a + gap
    && (forall q :: a <= q < b ==> !Requested(ranges, q))
    && (exists k :: 0 <= k < |ranges| && ranges[k].end == a)
    && (exists k :: 0 <= k < |ranges| && ranges[k].start == b)
  }

  ghost predicate Accounted(ranges: seq<Range>, p: int, gap: u64) {
    Requested(ranges, p) || exists a: nat, b: nat :: a <= p < b && ShortHole(ranges, a, b, gap)
  }

  ghost predicate RangeAccounted(ranges: seq<Range>, m: Range, gap: u64) {
    forall p :: m.start <= p < m.end ==> Accounted(ranges, p, gap)
  }

  ghost predicate AllAccounted(ranges: seq<Range>, merged: seq<Range>, gap: u64) {
    forall i :: 0 <= i < |merged| ==> RangeAccounted(ranges, merged[i], gap)
  }

  lemma {:induction false} HoleBefore(all: seq<Range>, n: nat, hi: u64, gap: u64)
    requires 0 < n < |all| && SortedByStart(all) && WellFormed(all)
    requires forall k :: 0 <= k < n ==> all[k].end <= hi
    requires exists k :: 0 <= k < n && all[k].end == hi
    requires hi < all[n].start <= hi + gap
    ensures ShortHole(all, hi, all[n].start, gap)
  {
    forall k | 0 <= k < |all| ensures all[n].start <= all[k].start || all[k].end <= hi {
      assert n < k ==> all[n].start <= all[k].start;
    }
  }

  lemma {:induction false} CoalesceFromAccounted(lo: u64, hi: u64, all: seq<Range>, n: nat, gap: u64)
    requires 0 < n <= |all| && SortedByStart(all) && WellFormed(all)
    requires forall k :: 0 <= k < n ==> all[k].end <= hi
    requires exists k :: 0 <= k < n && all[k].end == hi
    requires RangeAccounted(all, Range(lo, hi), gap)
    ensures AllAccounted(all, CoalesceFrom(lo, hi, all[n..], gap), gap)
    decreases |all| - n
  {
    if n < |all| {
      var r := all[n];
      assert all[n..][0] == r && all[n..][1..] == all[n + 1..];
      assert RangeAccounted(all, r, gap) by {
        assert forall p :: r.start <= p < r.end ==> Requested(all, p);
      }
      if r.start <= hi + gap {
        if hi < r.start {
          HoleBefore(all, n, hi, gap);
          assert RangeAccounted(all, Range(hi, r.start), gap);
        }
        forall p | lo <= p < Max(hi, r.end) ensures Accounted(all, p, gap) {
          var part := if p < hi then Range(lo, hi) else if p < r.start then Range(hi, r.start) else r;
          assert RangeAccounted(all, part, gap);
        }
        CoalesceFromAccounted(lo, Max(hi, r.end), all, n + 1, gap);
      } else {
        CoalesceFromAccounted(r.start, r.end, all, n + 1, gap);
        assert CoalesceFrom(lo, hi, all[n..], gap) == [Range(lo, hi)] + CoalesceFrom(r.start, r.end, all[n + 1..], gap);
      }
    } else {
      assert all[n..] == [];
    }
  }

  /** Every fetched byte is asked for, or lies in a hole of at most `gap` bytes between two requests. */
  lemma {:induction false} CoalesceAccounted(sorted: seq<Range>, gap: u64)
    requires SortedByStart(sorted) && WellFormed(sorted)
    ensures AllAccounted(sorted, Coalesce(sorted, gap), gap)
  {
    if sorted != [] {
      assert forall p :: sorted[0].start <= p < sorted[0].end ==> Requested(sorted, p);
      CoalesceFromAccounted(sorted[0].start, sorted[0].end, sorted, 1, gap);
    }
  }

  // ---- the ends of merged ranges ----

  predicate EndsBy(m: seq<Range>, limit: nat) { forall i :: 0 <= i < |m| ==> m[i].end <= limit }

  lemma {:induction false} CoalesceFromEnds(lo: u64, hi: u64, rest: seq<Range>, gap: u64, limit: nat)
    requires hi <= limit && EndsBy(rest, limit)
    ensures EndsBy(CoalesceFrom(lo, hi, rest, gap), limit)
    decreases |rest|
  {
    if rest != [] {
      assert rest[0].end <= limit;
      if rest[0].start <= hi + gap {
        CoalesceFromEnds(lo, Max(hi, rest[0].end), rest[1..], gap, limit);
      } else {
        CoalesceFromEnds(rest[0].start, rest[0].end, rest[1..], gap, limit);
      }
    }
  }

  lemma {:induction false} CoalesceEnds(sorted: seq<Range>, gap: u64, limit: nat)
    requires EndsBy(sorted, limit)
    ensures EndsBy(Coalesce(sorted, gap), limit)
  {
    if sorted != [] {
      CoalesceFromEnds(sorted[0].start, sorted[0].end, sorted[1..], gap, limit);
    }
  }

  // ---- the two functions of the reader ----

  function InsertByStart(s: seq<Range>, r: Range): (t: seq<Range>)
    ensures multiset(t) == multiset(s) + multiset{r}
  {
    if s == [] || r.start < s[0].start then [r] + s
    else
      assert s == [s[0]] + s[1..];
      [s[0]] + InsertByStart(s[1..], r)
  }

  lemma {:induction false} InsertByStartSorted(s: seq<Range>, r: Range)
    requires SortedByStart(s)
    ensures SortedByStart(InsertByStart(s, r))
  {
    if s != [] && s[0].start <= r.start {
      var t := InsertByStart(s[1..], r);
      InsertByStartSorted(s[1..], r);
      forall x | x in t ensures s[0].start <= x.start { InsertedFromEither(s[1..], r, x); }
      InFrontSorted(s[0], t);
    } else {
      InFrontSorted(r, s);
    }
  }

  lemma {:induction false} InsertedFromEither(s: seq<Range>, r: Range, x: Range)
    requires x in InsertByStart(s, r)
    ensures x == r || x in s
  {
    assert x in multiset(InsertByStart(s, r));
  }

  lemma {:induction false} InFrontSorted(r: Range, s: seq<Range>)
    requires SortedByStart(s) && forall x :: x in s ==> r.start <= x.start
    ensures SortedByStart([r] + s)
  {
  }

  /** Some arrangement of the ranges by start; nothing is promised about ties. */
  method SortUnstableByStart(ranges: seq<Range>) returns (sorted: seq<Range>)
    ensures IsArrangement(sorted, ranges)
  {
    sorted := [];
    for i := 0 to |ranges|
      invariant IsArrangement(sorted, ranges[..i])
    {
      InsertByStartSorted(sorted, ranges[i]);
      assert ranges[..i + 1] == ranges[..i] + [ranges[i]];
      sorted := InsertByStart(sorted, ranges[i]);
    }
    assert ranges[..|ranges|] == ranges;
  }

  ghost predicate IsArrangement(s: seq<Range>, ranges: seq<Range>) {
    multiset(s) == multiset(ranges) && SortedByStart(s)
  }

  lemma {:induction false} SameMembers(ranges: seq<Range>, sorted: seq<Range>)
    requires multiset(sorted) == multiset(ranges)
    ensures forall r :: r in ranges <==> r in sorted
  {
    forall r ensures r in ranges <==> r in sorted {
      assert r in multiset(ranges) <==> r in multiset(sorted);
    }
  }

  lemma {:induction false} RequestedSame(ranges: seq<Range>, sorted: seq<Range>, p: int)
    requires forall r :: r in ranges <==> r in sorted
    ensures Requested(ranges, p) <==> Requested(sorted, p)
  {
    if Requested(ranges, p) {
      var k :| 0 <= k < |ranges| && ranges[k].start <= p < ranges[k].end;
      assert ranges[k] in sorted;
    }
    if Requested(sorted, p) {
      var k :| 0 <= k < |sorted| && sorted[k].start <= p < sorted[k].end;
      assert sorted[k] in ranges;
    }
  }

  lemma {:induction false} AccountedSame(ranges: seq<Range>, sorted: seq<Range>, p: int, gap: u64)
    requires forall r :: r in ranges <==> r in sorted
    requires Accounted(sorted, p, gap)
    ensures Accounted(ranges, p, gap)
  {
    RequestedSame(ranges, sorted, p);
    if !Requested(sorted, p) {
      var a: nat, b: nat :| a <= p < b && ShortHole(sorted, a, b, gap);
      var k :| 0 <= k < |sorted| && sorted[k].end == a;
      var l :| 0 <= l < |sorted| && sorted[l].start == b;
      assert sorted[k] in ranges && sorted[l] in ranges;
      forall q | a <= q < b ensures !Requested(ranges, q) { RequestedSame(ranges, sorted, q); }
      assert ShortHole(ranges, a, b, gap);
    }
  }

  lemma {:induction false} MergedShape(ranges: seq<Range>, sorted: seq<Range>, gap: u64)
    requires IsArrangement(sorted, ranges) && WellFormed(ranges)
    ensures Separated(Coalesce(sorted, gap), gap)
    ensures forall k :: 0 <= k < |ranges| ==> Within(Coalesce(sorted, gap), ranges[k])
    ensures AllAccounted(ranges, Coalesce(sorted, gap), gap)
    ensures forall s :: IsArrangement(s, ranges) ==> Coalesce(sorted, gap) == Coalesce(s, gap)
  {
    SameMembers(ranges, sorted);
    assert forall i :: 0 <= i < |sorted| ==> sorted[i] in ranges;
    CoalesceShape(sorted, gap);
    CoalesceAccounted(sorted, gap);
    forall i, p | 0 <= i < |Coalesce(sorted, gap)| && Coalesce(sorted, gap)[i].start <= p < Coalesce(sorted, gap)[i].end
      ensures Accounted(ranges, p, gap)
    {
      assert RangeAccounted(sorted, Coalesce(sorted, gap)[i], gap);
      AccountedSame(ranges, sorted, p, gap);
    }
    forall k | 0 <= k < |ranges| ensures Within(Coalesce(sorted, gap), ranges[k]) {
      assert ranges[k] in sorted;
    }
    forall s | IsArrangement(s, ranges) ensures Coalesce(sorted, gap) == Coalesce(s, gap) {
      SameMembers(ranges, s);
      assert forall i :: 0 <= i < |s| ==> s[i] in ranges;
      CoalesceCanonical(sorted, s, gap);
    }
  }

  lemma {:induction false} MergedEnds(ranges: seq<Range>, sorted: seq<Range>, gap: u64, limit: nat)
    requires IsArrangement(sorted, ranges) && WellFormed(ranges)
    ensures EndsBy(Coalesce(sorted, gap), limit) <==> EndsBy(ranges, limit)
  {
    SameMembers(ranges, sorted);
    MergedShape(ranges, sorted, gap);
    var m := Coalesce(sorted, gap);
    if EndsBy(ranges, limit) {
      assert forall i :: 0 <= i < |sorted| ==> sorted[i] in ranges;
      CoalesceEnds(sorted, gap, limit);
    }
    if EndsBy(m, limit) {
      forall k | 0 <= k < |ranges| ensures ranges[k].end <= limit {
        assert Within(m, ranges[k]);
        var i :| 0 <= i < |m| && Contains(m[i], ranges[k]);
        assert m[i].end <= limit;
      }
    }
  }

  predicate Joins(end: u64, next: Range, gap: u64) {
    next.start < end || next.start - end <= gap
  }

  /** The merge of what follows index `i`, with and without an open range. */
  function MergeAfter(sorted: seq<Range>, i: nat, gap: u64): seq<Range>
    requires i <= |sorted|
  {
    Coalesce(sorted[i..], gap)
  }

  function MergeOpen(lo: u64, hi: u64, sorted: seq<Range>, i: nat, gap: u64): seq<Range>
    requires i <= |sorted|
  {
    CoalesceFrom(lo, hi, sorted[i..], gap)
  }

  lemma {:induction false} MergeSteps(lo: u64, hi: u64, sorted: seq<Range>, i: nat, gap: u64)
    requires i <= |sorted|
    ensures i < |sorted| ==> MergeAfter(sorted, i, gap) == MergeOpen(sorted[i].start, sorted[i].end, sorted, i + 1, gap)
    ensures i < |sorted| && Joins(hi, sorted[i], gap) ==>
              MergeOpen(lo, hi, sorted, i, gap) == MergeOpen(lo, Max(hi, sorted[i].end), sorted, i + 1, gap)
    ensures i == |sorted| || !Joins(hi, sorted[i], gap) ==>
              MergeOpen(lo, hi, sorted, i, gap) == [Range(lo, hi)] + MergeAfter(sorted, i, gap)
  {
    if i < |sorted| { assert sorted[i..][1..] == sorted[i + 1..]; }
  }

  lemma {:induction false} MergeEnds(sorted: seq<Range>, gap: u64)
    ensures MergeAfter(sorted, 0, gap) == Coalesce(sorted, gap)
    ensures MergeAfter(sorted, |sorted|, gap) == []
  {
    assert sorted[0..] == sorted;
  }

  /** The two nested loops of `merge_ranges`, over the sorted ranges. */
  method MergeSorted(sorted: seq<Range>, gap: u64) returns (merged: seq<Range>)
    ensures merged == Coalesce(sorted, gap)
  {
    hide MergeAfter, MergeOpen, Coalesce;
    MergeEnds(sorted, gap);
    merged := [];
    if sorted == [] { return; }
    var startIdx, endIdx := 0, 1;
    while startIdx != |sorted|
      invariant 0 <= startIdx <= |sorted| && endIdx == startIdx + 1
      invariant Coalesce(sorted, gap) == merged + MergeAfter(sorted, startIdx, gap)
      decreases |sorted| - startIdx
    {
      var start, rangeEnd := sorted[startIdx].start, sorted[startIdx].end;
      MergeSteps(start, rangeEnd, sorted, startIdx, gap);
      while endIdx != |sorted| && Joins(rangeEnd, sorted[endIdx], gap)
        invariant startIdx < endIdx <= |sorted|
        invariant MergeAfter(sorted, startIdx, gap) == MergeOpen(start, rangeEnd, sorted, endIdx, gap)
      {
        MergeSteps(start, rangeEnd, sorted, endIdx, gap);
        rangeEnd := Max(rangeEnd, sorted[endIdx].end);
        endIdx := endIdx + 1;
      }
      MergeSteps(start, rangeEnd, sorted, endIdx, gap);
      merged := merged + [Range(start, rangeEnd)];
      startIdx := endIdx;
      endIdx := endIdx + 1;
    }
  }

  /**
   `merge_ranges`. Whatever arrangement the unstable sort picks, the result is the merge of every sorted
   arrangement of the input; it covers every request, keeps merged ranges apart, fetches only short holes beside
   what was asked for, and reaches no further than the furthest request.
   */
  method MergeRanges(ranges: seq<Range>, gap: u64) returns (merged: seq<Range>)
    requires WellFormed(ranges)
    ensures forall s :: IsArrangement(s, ranges) ==> merged == Coalesce(s, gap)
    ensures Separated(merged, gap) && forall k :: 0 <= k < |ranges| ==> Within(merged, ranges[k])
    ensures AllAccounted(ranges, merged, gap)
    ensures forall limit: nat :: EndsBy(merged, limit) <==> EndsBy(ranges, limit)
  {
    var sorted := SortUnstableByStart(ranges);
    merged := MergeSorted(sorted, gap);
    MergedShape(ranges, sorted, gap);
    forall limit: nat { MergedEnds(ranges, sorted, gap, limit); }
  }

  /** `FileRead::read`: the bytes of the range, or an error when it reaches past the end of the file. */
  function Read<Byte>(file: seq<Byte>, r: Range): Result<seq<Byte>>
    requires r.start <= r.end
  {
    if r.end <= |file| then Ok(file[r.start..r.end]) else Err
  }

  /** `partition_point`: how many leading elements start at or before `x`. */
  method PartitionPoint(merged: seq<Range>, x: u64) returns (n: nat)
    requires SortedByStart(merged)
    ensures n <= |merged|
    ensures forall i :: 0 <= i < n ==> merged[i].start <= x
    ensures forall i :: n <= i < |merged| ==> merged[i].start > x
  {
    n := 0;
    while n < |merged| && merged[n].start <= x
      invariant n <= |merged|
      invariant forall i :: 0 <= i < n ==> merged[i].start <= x
    {
      n := n + 1;
    }
  }

  /** The merged range that holds a request is the last one starting at or before it. */
  lemma {:induction false} LastStartContains(merged: seq<Range>, r: Range, n: nat, gap: u64)
    requires Separated(merged, gap) && Within(merged, r) && r.start <= r.end && n <= |merged|
    requires forall i :: 0 <= i < n ==> merged[i].start <= r.start
    requires forall i :: n <= i < |merged| ==> merged[i].start > r.start
    ensures n > 0 && Contains(merged[n - 1], r)
  {
    var i :| 0 <= i < |merged| && Contains(merged[i], r);
    assert i < n;
  }

  lemma {:induction false} SliceOfSlice<T>(s: seq<T>, a: nat, b: nat, c: nat, d: nat)
    requires a <= b <= |s| && c <= d <= b - a
    ensures s[a..b][c..d] == s[a + c..a + d]
  {
    var t := s[a..b];
    forall i | 0 <= i < d - c ensures t[c..d][i] == s[a + c..a + d][i] {
      assert t[c..d][i] == t[c + i] == s[a + c + i];
    }
  }

  lemma {:induction false} SliceBack<Byte>(file: seq<Byte>, fetch: Range, bytes: seq<Byte>, r: Range)
    requires Contains(fetch, r) && r.start <= r.end && Read(file, fetch) == Ok(bytes)
    ensures r.end <= |file| && r.end - fetch.start <= |bytes|
    ensures bytes[r.start - fetch.start..r.end - fetch.start] == file[r.start..r.end]
  {
    SliceOfSlice(file, fetch.start, fetch.end, r.start - fetch.start, r.end - fetch.start);
  }

  /**
   `get_byte_ranges`. With every range inside the file the caller gets exactly the bytes of each requested
   range, in request order, whatever the gap; otherwise it gets an error. The lookup never underflows.
   */
  method GetByteRanges<Byte>(file: seq<Byte>, ranges: seq<Range>, gap: u64) returns (result: Result<seq<seq<Byte>>>)
    requires WellFormed(ranges)
    ensures result.Ok? <==> forall k :: 0 <= k < |ranges| ==> ranges[k].end <= |file|
    ensures result.Ok? ==> |result.value| == |ranges| &&
                           forall k :: 0 <= k < |ranges| ==>
                                         ranges[k].end <= |file| &&
                                         result.value[k] == file[ranges[k].start..ranges[k].end]
  {
    hide Coalesce, IsArrangement, AllAccounted, Separated, Within, SortedByStart;
    var fetchRanges := MergeRanges(ranges, gap);
    SeparatedSorted(fetchRanges, gap);
    assert EndsBy(fetchRanges, |file|) <==> EndsBy(ranges, |file|);
    var fetched := [];
    for i := 0 to |fetchRanges|
      invariant |fetched| == i
      invariant AllRead(file, fetchRanges[..i], fetched)
    {
      var bytes := Read(file, fetchRanges[i]);
      if bytes.Err? { return Err; }
      fetched := fetched + [bytes.value];
    }
    assert fetchRanges[..|fetchRanges|] == fetchRanges;
    ReadEnds(file, fetchRanges, fetched);
    var slices := [];
    for k := 0 to |ranges|
      invariant |slices| == k
      invariant forall j :: 0 <= j < k ==> slices[j] == file[ranges[j].start..ranges[j].end]
    {
      var r := ranges[k];
      var n := PartitionPoint(fetchRanges, r.start);
      RequestedBytes(file, fetchRanges, fetched, r, n, gap);
      var idx := n - 1;
      var start, end := r.start - fetchRanges[idx].start, r.end - fetchRanges[idx].start;
      var slice := fetched[idx][start..if end < |fetched[idx]| then end else |fetched[idx]|];
      slices := slices + [slice];
    }
    result := Ok(slices);
  }

  ghost predicate AllRead<Byte>(file: seq<Byte>, merged: seq<Range>, fetched: seq<seq<Byte>>) {
    |fetched| == |merged| &&
    forall j :: 0 <= j < |merged| ==> merged[j].start <= merged[j].end && Read(file, merged[j]) == Ok(fetched[j])
  }

  lemma {:induction false} ReadEnds<Byte>(file: seq<Byte>, merged: seq<Range>, fetched: seq<seq<Byte>>)
    requires AllRead(file, merged, fetched)
    ensures EndsBy(merged, |file|)
  {
    forall j | 0 <= j < |merged| ensures merged[j].end <= |file| {
      assert Read(file, merged[j]).Ok?;
    }
  }

  /** The last range that starts at or before a request has been read to a text that holds the request's bytes. */
  lemma {:induction false} RequestedBytes<Byte>(
      file: seq<Byte>, merged: seq<Range>, fetched: seq<seq<Byte>>, r: Range, n: nat, gap: u64)
    requires Separated(merged, gap) && Within(merged, r) && r.start <= r.end && n <= |merged| &&
             AllRead(file, merged, fetched)
    requires forall i :: 0 <= i < n ==> merged[i].start <= r.start
    requires forall i :: n <= i < |merged| ==> merged[i].start > r.start
    ensures n > 0 && merged[n - 1].start <= r.start && r.end <= |file|
    ensures var start, end := r.start - merged[n - 1].start, r.end - merged[n - 1].start;
            end <= |fetched[n - 1]| && fetched[n - 1][start..end] == file[r.start..r.end]
  {
    hide Separated, Within, Read;
    LastStartContains(merged, r, n, gap);
    SliceBack(file, merged[n - 1], fetched[n - 1], r);
  }

  lemma {:induction false} SeparatedSorted(merged: seq<Range>, gap: u64)
    requires Separated(merged, gap)
    ensures SortedByStart(merged) && WellFormed(merged)
  {
    forall i, j | 0 <= i < j < |merged| ensures merged[i].start <= merged[j].start {
      assert merged[i].end + gap < merged[j].start;
    }
  }
}
