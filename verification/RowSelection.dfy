/**
 Positional deletes to a Parquet row selection: the run-length list built for the selected row groups
 expands to one boolean per row, false exactly on the deleted rows.
 */
module RowSelections {
  import opened Prelude
  import opened DeleteVectors

  datatype RowSelector = RowSelector(rowCount: nat, skip: bool)

  function Select(n: nat): RowSelector { RowSelector(n, false) }

  function Skip(n: nat): RowSelector { RowSelector(n, true) }

  // ---- what a run list means ----

  function Run(r: RowSelector): (s: seq<bool>)
    ensures |s| == r.rowCount && forall i :: 0 <= i < |s| ==> s[i] == !r.skip
  {
    seq(r.rowCount, i => !r.skip)
  }

  /** One boolean per row, true iff the row is read. */
  function Expand(runs: seq<RowSelector>): seq<bool> {
    if runs == [] then [] else Run(runs[0]) + Expand(runs[1..])
  }

  lemma {:induction false} ExpandConcat(a: seq<RowSelector>, b: seq<RowSelector>)
    ensures Expand(a + b) == Expand(a) + Expand(b)
  {
    if a == [] {
      assert a + b == b;
    } else {
      assert (a + b)[1..] == a[1..] + b;
      ExpandConcat(a[1..], b);
    }
  }

  lemma {:induction false} ExpandPush(runs: seq<RowSelector>, r: RowSelector)
    ensures Expand(runs + [r]) == Expand(runs) + Run(r)
  {
    ExpandConcat(runs, [r]);
    assert Expand([r]) == Run(r) + Expand([r][1..]) == Run(r);
  }

  // ---- row groups ----

  /** The position in the file of the first row of group `g`. */
  function Base(groups: seq<nat>, g: nat): nat
    requires g <= |groups|
  {
    if g == 0 then 0 else Base(groups, g - 1) + groups[g - 1]
  }

  lemma {:induction false} BaseStart(groups: seq<nat>)
    ensures Base(groups, 0) == 0
  {
  }

  lemma {:induction false} BaseStep(groups: seq<nat>, g: nat)
    requires g < |groups|
    ensures Base(groups, g + 1) == Base(groups, g) + groups[g]
  {
  }

  function TotalRows(groups: seq<nat>): nat { Base(groups, |groups|) }

  lemma {:induction false} BaseMonotone(groups: seq<nat>, g: nat, h: nat)
    requires g <= h <= |groups|
    ensures Base(groups, g) <= Base(groups, h)
    decreases h - g
  {
    if g < h { BaseMonotone(groups, g, h - 1); }
  }

  /** A selection of row groups is absent (all of them) or a strictly ascending list of indices. */
  ghost predicate ValidGroups(selected: Option<seq<nat>>, n: nat) {
    selected.Some? ==> Ascending(selected.value) && forall k :: 0 <= k < |selected.value| ==> selected.value[k] < n
  }

  predicate IsSelected(selected: Option<seq<nat>>, g: nat) {
    selected.None? || g in selected.value
  }

  /**
   Selections the iterator can serve: all row groups, an initial stretch of them (no group is skipped before
   the last selected one), or groups that all end before row 2^32.
   */
  ghost predicate ServableSelection(groups: seq<nat>, selected: Option<seq<nat>>)
    requires ValidGroups(selected, |groups|)
  {
    selected.None? || selected.value == [] ||
    var last := selected.value[|selected.value| - 1];
    last + 1 == |selected.value| || Base(groups, last + 1) < TWO_32
  }

  lemma {:induction false} InitialStretch(s: seq<nat>, i: nat)
    requires Ascending(s) && i < |s| && s[|s| - 1] + 1 == |s|
    ensures s[i] == i
    decreases |s|
  {
    if i + 1 < |s| {
      AscendingAtLeast(s, |s| - 2);
      var front := s[..|s| - 1];
      assert front[|front| - 1] == s[|s| - 2];
      InitialStretch(front, i);
    }
  }

  lemma {:induction false} AscendingAtLeast(s: seq<nat>, i: nat)
    requires Ascending(s) && i < |s|
    ensures s[i] >= i
  {
    if i > 0 { AscendingAtLeast(s, i - 1); }
  }

  // ---- the specification: one boolean per row of the selected groups, in file order ----

  ghost function Alive(deleted: set<u64>, lo: nat, hi: nat): (s: seq<bool>)
    requires lo <= hi
    ensures |s| == hi - lo && forall i :: 0 <= i < |s| ==> (s[i] <==> lo + i !in deleted)
  {
    seq(hi - lo, i => lo + i !in deleted)
  }

  ghost function AliveRows(groups: seq<nat>, selected: Option<seq<nat>>, deleted: set<u64>, g: nat): seq<bool>
    requires g <= |groups|
  {
    if g == 0 then []
    else AliveRows(groups, selected, deleted, g - 1) +
         if IsSelected(selected, g - 1) then Alive(deleted, Base(groups, g - 1), Base(groups, g)) else []
  }

  lemma {:induction false} NoMoreSelected(
      groups: seq<nat>, selected: Option<seq<nat>>, deleted: set<u64>, g: nat, h: nat)
    requires g <= h <= |groups|
    requires forall k :: g <= k < h ==> !IsSelected(selected, k)
    ensures AliveRows(groups, selected, deleted, h) == AliveRows(groups, selected, deleted, g)
    decreases h
  {
    if g < h {
      NoMoreSelected(groups, selected, deleted, g, h - 1);
    }
  }

  // ---- the cached "next delete" and the iterator behind it ----

  /**
   The iterator state the loops keep: with `cached` taken out of the iterator, the two together hold exactly
   the deletes of `[at, limit)`, nothing before `at`, and `cached` comes first.
   */
  ghost predicate Tracks(cached: Option<u64>, c: Cursor, deleted: set<u64>, at: nat, limit: nat) {
    && c.Valid() && c.Started()
    && (cached.None? ==> c.Remaining() == [])
    && (cached.Some? ==> cached.value >= at && forall x :: x in c.Remaining() ==> cached.value < x)
    && forall x: u64 :: at <= x < limit ==> (x in deleted <==> cached == Some(x) || x in c.Remaining())
  }

  /** Stepping over rows that hold no cached delete keeps the state. */
  lemma {:induction false} TracksLater(
      cached: Option<u64>, c: Cursor, deleted: set<u64>, at: nat, later: nat, limit: nat)
    requires Tracks(cached, c, deleted, at, limit) && at <= later
    requires cached.Some? ==> cached.value >= later
    ensures Tracks(cached, c, deleted, later, limit)
    ensures forall x: u64 :: at <= x < later && x < limit ==> x !in deleted
  {
  }

  /** Consuming the cached delete at the current row and taking the next one. */
  lemma {:induction false} TracksNext(
      cached: Option<u64>, c: Cursor, next: Option<u64>, d: Cursor, deleted: set<u64>, at: nat, limit: nat)
    requires Tracks(cached, c, deleted, at, limit) && cached == Some(at)
    requires d.Valid() && d.Started()
    requires if c.Remaining() == [] then next == None && d.Remaining() == []
             else next == Some(c.Remaining()[0]) && d.Remaining() == c.Remaining()[1..]
    ensures Tracks(next, d, deleted, at + 1, limit)
    ensures at < limit ==> at in deleted
  {
    if c.Remaining() != [] { TakeFirst(c, next, d); }
  }

  lemma {:induction false} TakeFirst(c: Cursor, next: Option<u64>, d: Cursor)
    requires c.Valid() && c.Remaining() != []
    requires next == Some(c.Remaining()[0]) && d.Remaining() == c.Remaining()[1..]
    ensures forall x :: x in d.Remaining() ==> next.value < x
    ensures forall x :: x in c.Remaining() <==> next == Some(x) || x in d.Remaining()
  {
    PositionsAscending(c.Bitmaps());
    assert c.Remaining() == [c.Remaining()[0]] + d.Remaining();
  }

  // ---- the walk over the row groups, as it behaves ----

  /** The cached next delete and the iterator it was taken from. */
  datatype Held = Held(next: Option<u64>, rest: Cursor) {
    /** With nothing cached nothing is left, and what is cached comes before what is left. */
    ghost predicate Valid() {
      && rest.Valid() && rest.Started()
      && (next.None? ==> rest.Remaining() == [])
      && (next.Some? ==> forall x :: x in rest.Remaining() ==> next.value < x)
    }

    /** The deletes still held. */
    ghost function Deletes(): set<u64> { SetOf(rest.Remaining()) + if next.Some? then {next.value} else {} }
  }

  /** The cache is refilled from the iterator. */
  function Refilled(c: Cursor): (h: Held)
    requires c.Valid()
    ensures h.Valid()
    ensures |h.rest.Remaining()| == if c.Remaining() == [] then 0 else |c.Remaining()| - 1
    ensures c.Remaining() == [] ==> h.next == None
  {
    NextOfMeaning(c);
    var (r, d) := NextOf(c);
    assert c.Remaining() != [] ==> forall x :: x in d.Remaining() ==> r.value < x by {
      if c.Remaining() != [] { TakeFirst(c, r, d); }
    }
    Held(r, d)
  }

  /** Skipping a row group that ends at `end`: `advance_to`, then the cache is refilled only if it is stale. */
  function Skipped(h: Held, end: u64): (r: Held)
    requires h.Valid()
    ensures r.Valid()
  {
    AdvancedIsPart(h.rest, end);
    var c := Advanced(h.rest, end);
    assert h.rest.Remaining() == [] ==> c.Remaining() == []
           by { if c.Remaining() != [] { assert c.Remaining()[0] in c.Remaining(); } }
    if h.next.Some? && h.next.value < end then Refilled(c) else Held(h.next, c)
  }

  /** Everything before `end` is taken out. */
  function TakenUntil(h: Held, end: u64): (r: Held)
    requires h.Valid()
    ensures r.Valid()
    decreases |h.rest.Remaining()| + if h.next.Some? then 1 else 0
  {
    if h.next.Some? && h.next.value < end then TakenUntil(Refilled(h.rest), end) else h
  }

  /** What is held when the walk reaches row group `g`, each group before it having been selected or skipped. */
  ghost function Walk(groups: seq<nat>, selected: Option<seq<nat>>, t: Treemap, g: nat): (h: Held)
    requires g <= |groups| && TotalRows(groups) < TWO_64 && ValidTreemap(t)
    ensures h.Valid()
  {
    BaseMonotone(groups, g, |groups|);
    if g == 0 then
      assert Cursor(None, t).Bitmaps() == t;
      Refilled(Cursor(None, t))
    else
      var h := Walk(groups, selected, t, g - 1);
      if IsSelected(selected, g - 1) then TakenUntil(h, Base(groups, g)) else Skipped(h, Base(groups, g))
  }

  /** No selected row group is reached with a cached delete that lies before it. */
  ghost predicate NeverStale(groups: seq<nat>, selected: Option<seq<nat>>, t: Treemap)
    requires TotalRows(groups) < TWO_64 && ValidTreemap(t)
  {
    forall g: nat :: g < |groups| && IsSelected(selected, g) ==> NotStale(Walk(groups, selected, t, g), Base(groups, g))
  }

  predicate NotStale(h: Held, base: nat) { h.next.Some? ==> h.next.value >= base }

  /** The deletes the walk finds in row group `g`. */
  ghost function HeldIn(groups: seq<nat>, selected: Option<seq<nat>>, t: Treemap, g: nat): set<u64>
    requires g < |groups| && TotalRows(groups) < TWO_64 && ValidTreemap(t)
  {
    if !IsSelected(selected, g) then {}
    else set x | x in Walk(groups, selected, t, g).Deletes() && Base(groups, g) <= x < Base(groups, g + 1)
  }

  /** The deletes the walk finds in the selected row groups below `g`. */
  ghost function Effective(groups: seq<nat>, selected: Option<seq<nat>>, t: Treemap, g: nat): set<u64>
    requires g <= |groups| && TotalRows(groups) < TWO_64 && ValidTreemap(t)
  {
    if g == 0 then {} else Effective(groups, selected, t, g - 1) + HeldIn(groups, selected, t, g - 1)
  }

  /** The walk finds exactly the deletes of each selected row group. */
  ghost predicate Served(groups: seq<nat>, selected: Option<seq<nat>>, t: Treemap, deleted: set<u64>)
    requires TotalRows(groups) < TWO_64 && ValidTreemap(t)
  {
    forall g: nat :: g < |groups| && IsSelected(selected, g) ==> ServedIn(groups, selected, t, deleted, g)
  }

  ghost predicate ServedIn(groups: seq<nat>, selected: Option<seq<nat>>, t: Treemap, deleted: set<u64>, g: nat)
    requires g < |groups| && TotalRows(groups) < TWO_64 && ValidTreemap(t)
  {
    forall x: u64 :: Base(groups, g) <= x < Base(groups, g + 1) ==>
                       (x in Walk(groups, selected, t, g).Deletes() <==> x in deleted)
  }

  lemma {:induction false} EffectiveBelow(groups: seq<nat>, selected: Option<seq<nat>>, t: Treemap, g: nat)
    requires g <= |groups| && TotalRows(groups) < TWO_64 && ValidTreemap(t)
    ensures forall x :: x in Effective(groups, selected, t, g) ==> x < Base(groups, g)
  {
    hide Walk, Base, HeldIn;
    if g > 0 {
      BaseStep(groups, g - 1);
      EffectiveBelow(groups, selected, t, g - 1);
      HeldInRange(groups, selected, t, g - 1);
    }
  }

  /** In the rows of a selected group the effective deletes are those held when the walk reaches it. */
  lemma {:induction false} EffectiveAt(groups: seq<nat>, selected: Option<seq<nat>>, t: Treemap, g: nat, n: nat)
    requires g < n <= |groups| && TotalRows(groups) < TWO_64 && ValidTreemap(t)
    ensures forall x: u64 :: Base(groups, g) <= x < Base(groups, g + 1) ==>
                               (x in Effective(groups, selected, t, n) <==> x in HeldIn(groups, selected, t, g))
    decreases n
  {
    hide Walk, Base, HeldIn;
    BaseStep(groups, n - 1);
    EffectiveBelow(groups, selected, t, n - 1);
    HeldInRange(groups, selected, t, n - 1);
    if g < n - 1 {
      BaseMonotone(groups, g + 1, n - 1);
      EffectiveAt(groups, selected, t, g, n - 1);
    }
  }

  lemma {:induction false} HeldInRange(groups: seq<nat>, selected: Option<seq<nat>>, t: Treemap, g: nat)
    requires g < |groups| && TotalRows(groups) < TWO_64 && ValidTreemap(t)
    ensures forall x :: x in HeldIn(groups, selected, t, g) ==> Base(groups, g) <= x < Base(groups, g + 1)
  {
    hide Walk, Base;
  }

  lemma {:induction false} AliveSame(a: set<u64>, b: set<u64>, lo: nat, hi: nat)
    requires lo <= hi <= TWO_64
    ensures Alive(a, lo, hi) == Alive(b, lo, hi) <==> forall x: u64 :: lo <= x < hi ==> (x in a <==> x in b)
  {
    if Alive(a, lo, hi) == Alive(b, lo, hi) {
      forall x: u64 | lo <= x < hi ensures x in a <==> x in b {
        assert Alive(a, lo, hi)[x - lo] == Alive(b, lo, hi)[x - lo];
      }
    }
  }

  /** Two sets of deletes give the same rows exactly when they agree in every selected row group. */
  lemma {:induction false} AliveRowsSame(groups: seq<nat>, selected: Option<seq<nat>>, a: set<u64>, b: set<u64>, g: nat)
    requires g <= |groups| && TotalRows(groups) < TWO_64
    ensures |AliveRows(groups, selected, a, g)| == |AliveRows(groups, selected, b, g)|
    ensures AliveRows(groups, selected, a, g) == AliveRows(groups, selected, b, g) <==>
            forall k: nat :: k < g && IsSelected(selected, k) ==> SameIn(groups, a, b, k)
  {
    hide Base, Alive;
    if g > 0 {
      BaseStep(groups, g - 1);
      BaseMonotone(groups, g, |groups|);
      AliveRowsSame(groups, selected, a, b, g - 1);
      var lo, hi := Base(groups, g - 1), Base(groups, g);
      var here := IsSelected(selected, g - 1);
      var s, t := if here then Alive(a, lo, hi) else [], if here then Alive(b, lo, hi) else [];
      AliveSame(a, b, lo, hi);
      assert AliveRows(groups, selected, a, g) == AliveRows(groups, selected, a, g - 1) + s;
      assert AliveRows(groups, selected, b, g) == AliveRows(groups, selected, b, g - 1) + t;
      ConcatSame(AliveRows(groups, selected, a, g - 1), s, AliveRows(groups, selected, b, g - 1), t);
    }
  }

  ghost predicate SameIn(groups: seq<nat>, a: set<u64>, b: set<u64>, g: nat)
    requires g < |groups|
  {
    forall x: u64 :: Base(groups, g) <= x < Base(groups, g + 1) ==> (x in a <==> x in b)
  }

  lemma {:induction false} ConcatSame<T>(a: seq<T>, b: seq<T>, c: seq<T>, d: seq<T>)
    requires |a| == |c|
    ensures a + b == c + d <==> a == c && b == d
  {
    if a + b == c + d {
      assert a == (a + b)[..|a|] && c == (c + d)[..|a|];
      assert b == (a + b)[|a|..] && d == (c + d)[|a|..];
    }
  }

  /**
   The deletes the walk finds give the right rows if and only if it finds exactly the deletes of each selected row
   group.
   */
  lemma {:induction false} RightWhenServed(groups: seq<nat>, selected: Option<seq<nat>>, t: Treemap, deleted: set<u64>)
    requires TotalRows(groups) < TWO_64 && ValidTreemap(t)
    ensures var n := |groups|;
            AliveRows(groups, selected, Effective(groups, selected, t, n), n) == AliveRows(groups, selected, deleted, n)
            <==> Served(groups, selected, t, deleted)
  {
    hide Base, Walk, AliveRows, Effective;
    var n := |groups|;
    var found := Effective(groups, selected, t, n);
    AliveRowsSame(groups, selected, found, deleted, n);
    forall g: nat | g < n && IsSelected(selected, g)
      ensures SameIn(groups, found, deleted, g) <==> ServedIn(groups, selected, t, deleted, g)
    {
      EffectiveAt(groups, selected, t, g, n);
    }
  }

  // ---- stepping through the walk ----

  /** Skipping an unselected row group. */
  method SkipRowGroup(it: DeleteVectorIterator, cached: Option<u64>, end: u64) returns (next: Option<u64>)
    requires Held(cached, it.State()).Valid()
    modifies it
    ensures Held(next, it.State()) == Skipped(Held(cached, old(it.State())), end)
  {
    hide Advanced, NextOf;
    AdvancedIsPart(it.State(), end);
    it.AdvanceTo(end);
    next := cached;
    if cached.Some? && cached.value < end { next := it.Next(); }
  }

  lemma {:induction false} TracksFacts(cached: Option<u64>, c: Cursor, deleted: set<u64>, at: nat, limit: nat)
    requires Tracks(cached, c, deleted, at, limit)
    ensures c.Valid() && c.Started()
    ensures cached.Some? ==> cached.value >= at
  {
  }

  /** A cache that is not behind row `at` and its iterator track what they hold. */
  lemma {:induction false} HeldTracks(h: Held, at: nat, limit: nat)
    requires h.Valid() && NotStale(h, at)
    ensures Tracks(h.next, h.rest, h.Deletes(), at, limit)
  {
  }

  /** The inner loop: consecutive deletes are taken out as long as they are the current row. */
  function SkipRun(h: Held, current: nat, end: nat): (Held, nat)
    requires h.Valid()
    decreases end - current
  {
    if h.next == Some(current) && current < end then SkipRun(Refilled(h.rest), current + 1, end) else (h, current)
  }

  /** One pass of the loop around it: up to the next delete, then past the consecutive ones. */
  function ChunkStep(h: Held, current: nat, end: nat): (r: (Held, nat))
    requires h.Valid()
    ensures h.next.None? || h.next.value >= end ==> r == (h, current)
  {
    if h.next.Some? && h.next.value < end then SkipRun(h, if current < h.next.value then h.next.value else current, end)
    else (h, current)
  }

  /** With a stale delete in the cache a pass changes nothing, so the loop never ends. */
  lemma {:induction false} StaleStalls(h: Held, current: nat, end: nat)
    requires h.Valid() && h.next.Some? && h.next.value < current <= end
    ensures h.next.value < end && ChunkStep(h, current, end) == (h, current)
  {
  }

  lemma {:induction false} NothingBefore(h: Held, end: u64)
    requires h.Valid() && NotStale(h, end)
    ensures TakenUntil(h, end) == h
  {
  }

  /** So a call that reaches a selected row group with a stale delete stays in its first loop for ever. */
  lemma {:induction false} StaleNeverReturns(groups: seq<nat>, selected: Option<seq<nat>>, t: Treemap, g: nat)
    requires TotalRows(groups) < TWO_64 && ValidTreemap(t) && g < |groups| && IsSelected(selected, g)
    requires !NotStale(Walk(groups, selected, t, g), Base(groups, g))
    ensures !NeverStale(groups, selected, t)
    ensures var h, base, end := Walk(groups, selected, t, g), Base(groups, g), Base(groups, g + 1);
            h.next.value < end && ChunkStep(h, base, end) == (h, base)
  {
    hide Base, Walk;
    BaseStep(groups, g);
    StaleStalls(Walk(groups, selected, t, g), Base(groups, g), Base(groups, g + 1));
  }

  lemma {:induction false} SkipRunTakes(h: Held, current: nat, end: u64)
    requires h.Valid()
    ensures SkipRun(h, current, end).0.Valid()
    ensures TakenUntil(SkipRun(h, current, end).0, end) == TakenUntil(h, end)
    decreases end - current
  {
    hide Refilled;
    if h.next == Some(current) && current < end { SkipRunTakes(Refilled(h.rest), current + 1, end); }
  }

  lemma {:induction false} SkipRunStep(
      cached: Option<u64>, c: Cursor, next: Option<u64>, d: Cursor, current: nat, end: nat)
    requires Held(cached, c).Valid() && cached == Some(current) && current < end && (next, d) == NextOf(c)
    ensures Held(next, d).Valid()
    ensures SkipRun(Held(next, d), current + 1, end) == SkipRun(Held(cached, c), current, end)
  {
    hide NextOf;
    assert Refilled(c) == Held(next, d);
  }

  lemma {:induction false} SkipRunDone(h: Held, current: nat, end: nat)
    requires h.Valid() && !(h.next == Some(current) && current < end)
    ensures SkipRun(h, current, end) == (h, current)
  {
  }

  /**
   The inner loop: counts the consecutive deletes starting at `current`, stopping at `end` or when no delete is
   left.
   */
  method CountDeletedRun(it: DeleteVectorIterator, cached: Option<u64>, current: u64, end: u64,
                         ghost deleted: set<u64>, ghost limit: nat)
    returns (runLength: nat, next: Option<u64>)
    requires Tracks(cached, it.State(), deleted, current, limit) && current < end <= limit && cached == Some(current)
    requires Held(cached, it.State()).Valid()
    modifies it
    ensures 0 < runLength && current + runLength <= end
    ensures forall x :: current <= x < current + runLength ==> x in deleted
    ensures Tracks(next, it.State(), deleted, current + runLength, limit)
    ensures Held(next, it.State()).Valid()
    ensures (Held(next, it.State()), current + runLength) == SkipRun(Held(cached, old(it.State())), current, end)
  {
    hide *;
    runLength := 0;
    next := cached;
    while next == Some(current + runLength) && current + runLength < end
      invariant current + runLength <= end
      invariant runLength == 0 ==> next == Some(current)
      invariant Tracks(next, it.State(), deleted, current + runLength, limit)
      invariant Held(next, it.State()).Valid()
      invariant SkipRun(Held(next, it.State()), current + runLength, end) ==
                SkipRun(Held(cached, old(it.State())), current, end)
      invariant forall x :: current <= x < current + runLength ==> x in deleted
      decreases end - current - runLength
    {
      ghost var was, state := next, it.State();
      TracksFacts(was, state, deleted, current + runLength, limit);
      next := it.Next();
      TracksNext(was, state, next, it.State(), deleted, current + runLength, limit);
      SkipRunStep(was, state, next, it.State(), current + runLength, end);
      runLength := runLength + 1;
    }
    SkipRunDone(Held(next, it.State()), current + runLength, end);
  }

  /**
   The runs of one selected row group `[base, end)`: `select` up to the next delete, `skip` the consecutive
   deletes, and so on. It terminates because the cached delete is never behind the current row.
   */
  method SelectRowGroup(it: DeleteVectorIterator, cached: Option<u64>, base: u64, end: u64)
    returns (runs: seq<RowSelector>, next: Option<u64>)
    requires Held(cached, it.State()).Valid() && NotStale(Held(cached, it.State()), base) && base <= end
    modifies it
    ensures Expand(runs) == Alive(Held(cached, old(it.State())).Deletes(), base, end)
    ensures Held(next, it.State()) == TakenUntil(Held(cached, old(it.State())), end)
  {
    hide *;
    ghost var start := Held(cached, it.State());
    ghost var deleted, limit := start.Deletes(), end;
    HeldTracks(start, base, limit);
    next := cached;
    runs := [];
    NoRuns(deleted, base);
    if next.None? || next.value >= end {
      PushSelect(runs, next, it.State(), deleted, base, base, end, limit);
      NothingBefore(start, end);
      runs := runs + [Select(end - base)];
      return;
    }
    var current := base;
    while next.Some? && next.value < end
      invariant base <= current <= end
      invariant next.Some? ==> next.value >= current
      invariant Tracks(next, it.State(), deleted, current, limit)
      invariant Held(next, it.State()).Valid()
      invariant TakenUntil(Held(next, it.State()), end) == TakenUntil(start, end)
      invariant Expand(runs) == Alive(deleted, base, current)
      decreases end - current
    {
      if current < next.value {
        PushSelect(runs, next, it.State(), deleted, base, current, next.value, limit);
        runs := runs + [Select(next.value - current)];
        current := next.value;
      }
      var runLength;
      SkipRunTakes(Held(next, it.State()), current, end);
      runLength, next := CountDeletedRun(it, next, current, end, deleted, limit);
      PushSkip(runs, deleted, base, current, runLength);
      runs := runs + [Skip(runLength)];
      current := current + runLength;
      TracksFacts(next, it.State(), deleted, current, limit);
    }
    if current < end {
      PushSelect(runs, next, it.State(), deleted, base, current, end, limit);
      runs := runs + [Select(end - current)];
    }
    NothingBefore(Held(next, it.State()), end);
  }

  lemma {:induction false} NoRuns(deleted: set<u64>, base: nat)
    ensures Expand([]) == Alive(deleted, base, base)
  {
  }

  lemma {:induction false} PushSelect(runs: seq<RowSelector>, cached: Option<u64>, c: Cursor, deleted: set<u64>,
                   base: nat, current: nat, later: nat, limit: nat)
    requires Tracks(cached, c, deleted, current, limit) && base <= current <= later <= limit
    requires cached.Some? ==> cached.value >= later
    requires Expand(runs) == Alive(deleted, base, current)
    ensures Tracks(cached, c, deleted, later, limit)
    ensures Expand(runs + [Select(later - current)]) == Alive(deleted, base, later)
  {
    TracksLater(cached, c, deleted, current, later, limit);
    ExpandPush(runs, Select(later - current));
    assert Run(Select(later - current)) == Alive(deleted, current, later);
  }

  lemma {:induction false} PushSkip(runs: seq<RowSelector>, deleted: set<u64>, base: nat, current: nat, runLength: nat)
    requires base <= current
    requires forall x :: current <= x < current + runLength ==> x in deleted
    requires Expand(runs) == Alive(deleted, base, current)
    ensures Expand(runs + [Skip(runLength)]) == Alive(deleted, base, current + runLength)
  {
    ExpandPush(runs, Skip(runLength));
    assert Run(Skip(runLength)) == Alive(deleted, current, current + runLength);
  }

  /** A fresh iterator with its first delete taken out into the cache. */
  method FirstDelete(deletes: DeleteVector) returns (it: DeleteVectorIterator, cached: Option<u64>)
    requires deletes.Valid()
    ensures Cursor(None, deletes.inner).Valid()
    ensures fresh(it) && Held(cached, it.State()) == Refilled(Cursor(None, deletes.inner))
  {
    hide NextOf;
    it := deletes.Iter();
    cached := it.Next();
  }

  /**
   The run list built from a data file's positional deletes, for every vector and selection on which the code returns
   at all: one boolean per row of the selected row groups, in file order, true iff the row is not among the deletes
   the walk finds. These rows are the undeleted ones if and only if each selected row group is served its deletes.
   */
  method BuildDeletesRowSelection(groups: seq<nat>, selected: Option<seq<nat>>, deletes: DeleteVector)
    returns (runs: seq<RowSelector>)
    requires deletes.Valid() && ValidGroups(selected, |groups|) && TotalRows(groups) < TWO_64
    requires NeverStale(groups, selected, deletes.inner)
    ensures Expand(runs) == AliveRows(groups, selected, Effective(groups, selected, deletes.inner, |groups|), |groups|)
    ensures Expand(runs) == AliveRows(groups, selected, deletes.Deleted(), |groups|)
            <==> Served(groups, selected, deletes.inner, deletes.Deleted())
  {
    hide *;
    runs := [];
    ValidInner(deletes);
    var selectedIdx := 0;
    var current := 0;
    ghost var t := deletes.inner;
    ghost var found := Effective(groups, selected, t, |groups|);
    RightWhenServed(groups, selected, t, deletes.Deleted());
    var it, cached := FirstDelete(deletes);
    NoGroups(groups, selected, found);
    WalkStarts(groups, selected, t);
    var idx := 0;
    while idx < |groups|
      invariant 0 <= idx <= |groups| && current == Base(groups, idx)
      invariant Consumed(selected, selectedIdx, idx)
      invariant selected.Some? ==> 0 <= selectedIdx <= |selected.value|
      invariant Held(cached, it.State()) == Walk(groups, selected, t, idx)
      invariant Expand(runs) == AliveRows(groups, selected, found, idx)
    {
      BaseStep(groups, idx);
      BaseMonotone(groups, idx + 1, |groups|);
      WalkStep(groups, selected, t, idx);
      var end := current + groups[idx];
      if selected.Some? && selectedIdx == |selected.value| {
        AllConsumed(groups, selected, selectedIdx, idx, found);
        return;
      }
      ConsumedStep(selected, selectedIdx, idx, |groups|);
      if selected.Some? && idx != selected.value[selectedIdx] {
        cached := SkipRowGroup(it, cached, end);
        PushGroup(groups, selected, found, idx, runs, []);
        assert runs + [] == runs;
      } else {
        selectedIdx := selectedIdx + 1;
        NotStaleAt(groups, selected, t, idx);
        var more;
        more, cached := SelectRowGroup(it, cached, current, end);
        AliveFound(groups, selected, t, idx);
        PushGroup(groups, selected, found, idx, runs, more);
        runs := runs + more;
      }
      current := end;
      idx := idx + 1;
    }
  }

  lemma {:induction false} ValidInner(deletes: DeleteVector)
    requires deletes.Valid()
    ensures ValidTreemap(deletes.inner)
  {
  }

  lemma {:induction false} NotStaleAt(groups: seq<nat>, selected: Option<seq<nat>>, t: Treemap, g: nat)
    requires TotalRows(groups) < TWO_64 && ValidTreemap(t) && NeverStale(groups, selected, t)
    requires g < |groups| && IsSelected(selected, g)
    ensures NotStale(Walk(groups, selected, t, g), Base(groups, g))
  {
  }

  lemma {:induction false} WalkStarts(groups: seq<nat>, selected: Option<seq<nat>>, t: Treemap)
    requires TotalRows(groups) < TWO_64 && ValidTreemap(t) && Cursor(None, t).Valid()
    ensures Walk(groups, selected, t, 0) == Refilled(Cursor(None, t)) && Base(groups, 0) == 0
  {
  }

  lemma {:induction false} WalkStep(groups: seq<nat>, selected: Option<seq<nat>>, t: Treemap, g: nat)
    requires g < |groups| && TotalRows(groups) < TWO_64 && ValidTreemap(t)
    ensures Base(groups, g) <= Base(groups, g + 1) < 0x1_0000_0000_0000_0000
    ensures var h := Walk(groups, selected, t, g);
            Walk(groups, selected, t, g + 1) ==
            if IsSelected(selected, g) then TakenUntil(h, Base(groups, g + 1)) else Skipped(h, Base(groups, g + 1))
  {
    hide Base, Refilled, Skipped, TakenUntil;
    BaseMonotone(groups, g, g + 1);
    BaseMonotone(groups, g + 1, |groups|);
  }

  lemma {:induction false} AliveFound(groups: seq<nat>, selected: Option<seq<nat>>, t: Treemap, g: nat)
    requires g < |groups| && TotalRows(groups) < TWO_64 && ValidTreemap(t) && IsSelected(selected, g)
    ensures Base(groups, g) <= Base(groups, g + 1)
    ensures Alive(Walk(groups, selected, t, g).Deletes(), Base(groups, g), Base(groups, g + 1)) ==
            Alive(Effective(groups, selected, t, |groups|), Base(groups, g), Base(groups, g + 1))
  {
    hide Base, Walk, Effective;
    BaseStep(groups, g);
    BaseMonotone(groups, g + 1, |groups|);
    EffectiveAt(groups, selected, t, g, |groups|);
    AliveSame(Walk(groups, selected, t, g).Deletes(), Effective(groups, selected, t, |groups|),
              Base(groups, g), Base(groups, g + 1));
  }

  /** `selectedIdx` counts the selected groups before `idx`. */
  ghost predicate Consumed(selected: Option<seq<nat>>, selectedIdx: nat, idx: nat) {
    selected.Some? ==>
      && selectedIdx <= |selected.value|
      && (forall k :: 0 <= k < selectedIdx ==> selected.value[k] < idx)
      && (forall k :: selectedIdx <= k < |selected.value| ==> selected.value[k] >= idx)
  }

  lemma {:induction false} NothingConsumed(selected: Option<seq<nat>>)
    ensures Consumed(selected, 0, 0)
  {
  }

  /** Row group `idx` is selected iff it is the next one in the list, and the count follows. */
  lemma {:induction false} ConsumedStep(selected: Option<seq<nat>>, selectedIdx: nat, idx: nat, n: nat)
    requires ValidGroups(selected, n) && Consumed(selected, selectedIdx, idx)
    requires selected.Some? ==> selectedIdx < |selected.value|
    ensures IsSelected(selected, idx) <==> selected.None? || selected.value[selectedIdx] == idx
    ensures IsSelected(selected, idx) ==> Consumed(selected, selectedIdx + 1, idx + 1)
    ensures IsSelected(selected, idx) && selected.None? ==> Consumed(selected, selectedIdx, idx + 1)
    ensures !IsSelected(selected, idx) ==> Consumed(selected, selectedIdx, idx + 1)
  {
  }

  lemma {:induction false} NoGroups(groups: seq<nat>, selected: Option<seq<nat>>, deleted: set<u64>)
    ensures Consumed(selected, 0, 0)
    ensures Expand([]) == AliveRows(groups, selected, deleted, 0)
  {
  }

  lemma {:induction false} AllConsumed(
      groups: seq<nat>, selected: Option<seq<nat>>, selectedIdx: nat, idx: nat, deleted: set<u64>)
    requires Consumed(selected, selectedIdx, idx) && idx <= |groups|
    requires selected.Some? && selectedIdx == |selected.value|
    ensures AliveRows(groups, selected, deleted, |groups|) == AliveRows(groups, selected, deleted, idx)
  {
    NoMoreSelected(groups, selected, deleted, idx, |groups|);
  }

  lemma {:induction false} PushGroup(groups: seq<nat>, selected: Option<seq<nat>>, deleted: set<u64>, idx: nat,
                  runs: seq<RowSelector>, more: seq<RowSelector>)
    requires idx < |groups| && Expand(runs) == AliveRows(groups, selected, deleted, idx)
    requires if IsSelected(selected, idx) then Expand(more) == Alive(deleted, Base(groups, idx), Base(groups, idx + 1))
             else more == []
    ensures Expand(runs + more) == AliveRows(groups, selected, deleted, idx + 1)
  {
    ExpandConcat(runs, more);
  }

  // ---- when every selected row group is served ----

  /** Before row group `g`, what is held tracks the deletes from there on, as far as `limit`. */
  ghost predicate OnTrack(groups: seq<nat>, selected: Option<seq<nat>>, t: Treemap, g: nat, limit: nat)
    requires g <= |groups| && TotalRows(groups) < TWO_64 && ValidTreemap(t)
  {
    var h := Walk(groups, selected, t, g);
    Tracks(h.next, h.rest, Members(t), Base(groups, g), limit)
  }

  /** A skip is harmless when it ends below 2^32 and nothing beyond matters, or when `advance_to` is exact there. */
  ghost predicate HarmlessSkip(groups: seq<nat>, selected: Option<seq<nat>>, t: Treemap, g: nat, limit: nat)
    requires g < |groups| && TotalRows(groups) < TWO_64 && ValidTreemap(t)
  {
    || IsSelected(selected, g)
    || (limit == TWO_32 && Base(groups, g + 1) < TWO_32)
    || (Base(groups, g + 1) < TWO_64 && AdvanceIsExact(Walk(groups, selected, t, g).rest, Base(groups, g + 1)))
  }

  lemma {:induction false} TakenOneTracks(h: Held, deleted: set<u64>, at: nat, limit: nat)
    requires h.Valid() && h.next.Some? && Tracks(h.next, h.rest, deleted, at, limit)
    ensures var r := Refilled(h.rest); Tracks(r.next, r.rest, deleted, h.next.value + 1, limit)
  {
    hide Tracks, NextOf, Positions;
    TracksFacts(h.next, h.rest, deleted, at, limit);
    TracksLater(h.next, h.rest, deleted, at, h.next.value, limit);
    NextOfMeaning(h.rest);
    var (r, d) := NextOf(h.rest);
    TracksNext(h.next, h.rest, r, d, deleted, h.next.value, limit);
  }

  lemma {:induction false} TakenUntilTracks(h: Held, deleted: set<u64>, at: nat, end: u64, limit: nat)
    requires h.Valid() && Tracks(h.next, h.rest, deleted, at, limit) && at <= end
    ensures var r := TakenUntil(h, end); Tracks(r.next, r.rest, deleted, end, limit)
    decreases |h.rest.Remaining()| + if h.next.Some? then 1 else 0
  {
    hide Tracks, Refilled, NextOf, Positions;
    if h.next.Some? && h.next.value < end {
      TakenOneTracks(h, deleted, at, limit);
      TakenUntilTracks(Refilled(h.rest), deleted, h.next.value + 1, end, limit);
    } else {
      TracksLater(h.next, h.rest, deleted, at, end, limit);
    }
  }

  /** Skipping keeps track when the iterator loses nothing that counts and keeps nothing behind. */
  lemma {:induction false} SkippedTracks(h: Held, deleted: set<u64>, at: nat, end: u64, limit: nat)
    requires h.Valid() && Tracks(h.next, h.rest, deleted, at, limit) && at <= end
    requires (limit == TWO_32 && end < TWO_32) || AdvanceIsExact(h.rest, end)
    ensures var r := Skipped(h, end); Tracks(r.next, r.rest, deleted, end, limit)
  {
    hide Positions, NextOf, Advanced, AdvanceIsExact;
    var c := Advanced(h.rest, end);
    AdvancedIsPart(h.rest, end);
    if AdvanceIsExact(h.rest, end) {
      AdvanceExactness(h.rest, end);
    } else {
      AdvanceBelow32(h.rest, end);
    }
    assert forall x :: x in c.Remaining() ==> x in h.rest.Remaining() && x >= end;
    assert forall x :: x in h.rest.Remaining() && end <= x < limit ==> x in c.Remaining();
    if h.next.Some? && h.next.value < end {
      NextOfMeaning(c);
      if c.Remaining() != [] { TakeFirst(c, NextOf(c).0, NextOf(c).1); }
    }
  }

  lemma {:induction false} TracksAtStart(groups: seq<nat>, selected: Option<seq<nat>>, t: Treemap, limit: nat)
    requires TotalRows(groups) < TWO_64 && ValidTreemap(t)
    ensures OnTrack(groups, selected, t, 0, limit)
  {
    var c := Cursor(None, t);
    assert c.Bitmaps() == t;
    NextOfMeaning(c);
    if c.Remaining() != [] { TakeFirst(c, NextOf(c).0, NextOf(c).1); }
  }

  lemma {:induction false} WalkTracks(groups: seq<nat>, selected: Option<seq<nat>>, t: Treemap, g: nat, limit: nat)
    requires g <= |groups| && TotalRows(groups) < TWO_64 && ValidTreemap(t)
    requires forall k: nat :: k < g ==> HarmlessSkip(groups, selected, t, k, limit)
    ensures OnTrack(groups, selected, t, g, limit)
  {
    hide Walk, Tracks, Base, TakenUntil, Skipped, Members;
    if g == 0 {
      TracksAtStart(groups, selected, t, limit);
    } else {
      WalkTracks(groups, selected, t, g - 1, limit);
      WalkStep(groups, selected, t, g - 1);
      BaseStep(groups, g - 1);
      var h := Walk(groups, selected, t, g - 1);
      if IsSelected(selected, g - 1) {
        TakenUntilTracks(h, Members(t), Base(groups, g - 1), Base(groups, g), limit);
      } else {
        assert HarmlessSkip(groups, selected, t, g - 1, limit);
        SkippedTracks(h, Members(t), Base(groups, g - 1), Base(groups, g), limit);
      }
    }
  }

  lemma {:induction false} OnTrackServes(groups: seq<nat>, selected: Option<seq<nat>>, t: Treemap, g: nat, limit: nat)
    requires g < |groups| && TotalRows(groups) < TWO_64 && ValidTreemap(t) && OnTrack(groups, selected, t, g, limit)
    requires Base(groups, g + 1) <= limit
    ensures ServedIn(groups, selected, t, Members(t), g) && NotStale(Walk(groups, selected, t, g), Base(groups, g))
  {
    hide Walk, Base, Members;
  }

  /** Every skip before the last selected row group is harmless, and the limit covers the selected ones. */
  ghost predicate HarmlessSkips(groups: seq<nat>, selected: Option<seq<nat>>, t: Treemap, limit: nat)
    requires TotalRows(groups) < TWO_64 && ValidTreemap(t)
  {
    forall g: nat :: g < |groups| && IsSelected(selected, g) ==>
                       Base(groups, g + 1) <= limit &&
                       forall k: nat :: k < g ==> HarmlessSkip(groups, selected, t, k, limit)
  }

  /**
   Where `advance_to` is exact at the end of each skipped row group, the call returns and serves every selected row
   group, whatever the size of the file.
   */
  lemma {:induction false} HarmlessSkipsServe(groups: seq<nat>, selected: Option<seq<nat>>, t: Treemap, limit: nat)
    requires TotalRows(groups) < TWO_64 && ValidTreemap(t) && HarmlessSkips(groups, selected, t, limit)
    ensures NeverStale(groups, selected, t) && Served(groups, selected, t, Members(t))
  {
    hide Walk, Base, Members, OnTrack, HarmlessSkip, ServedIn, NotStale;
    forall g: nat | g < |groups| && IsSelected(selected, g)
      ensures ServedIn(groups, selected, t, Members(t), g) && NotStale(Walk(groups, selected, t, g), Base(groups, g))
    {
      WalkTracks(groups, selected, t, g, limit);
      OnTrackServes(groups, selected, t, g, limit);
    }
  }

  /**
   Whatever is deleted, a selection that skips nothing before its last row group, or ends below row 2^32, is served.
   */
  lemma {:induction false} ServableIsServed(groups: seq<nat>, selected: Option<seq<nat>>, t: Treemap)
    requires TotalRows(groups) < TWO_64 && ValidTreemap(t) && ValidGroups(selected, |groups|)
    requires ServableSelection(groups, selected)
    ensures NeverStale(groups, selected, t) && Served(groups, selected, t, Members(t))
  {
    hide Walk, Base, Members, NeverStale, Served, AdvanceIsExact;
    var below := selected.Some? && selected.value != [] && selected.value[|selected.value| - 1] + 1 != |selected.value|;
    var limit := if below then TWO_32 else TWO_64;
    forall g: nat | g < |groups| && IsSelected(selected, g)
      ensures Base(groups, g + 1) <= limit && forall k: nat :: k < g ==> HarmlessSkip(groups, selected, t, k, limit)
    {
      BaseMonotone(groups, g + 1, |groups|);
      if below { UpToLast(groups, selected.value, g); }
      forall k: nat | k < g ensures HarmlessSkip(groups, selected, t, k, limit) {
        BaseMonotone(groups, k + 1, g + 1);
        if selected.Some? && !below { AllBeforeSelected(selected.value, g, k); }
      }
    }
    HarmlessSkipsServe(groups, selected, t, limit);
  }

  lemma {:induction false} UpToLast(groups: seq<nat>, s: seq<nat>, g: nat)
    requires Ascending(s) && g in s && forall k :: 0 <= k < |s| ==> s[k] < |groups|
    ensures Base(groups, g + 1) <= Base(groups, s[|s| - 1] + 1)
  {
    hide Base;
    var i :| 0 <= i < |s| && s[i] == g;
    BaseMonotone(groups, g + 1, s[|s| - 1] + 1);
  }

  lemma {:induction false} AllBeforeSelected(s: seq<nat>, g: nat, k: nat)
    requires Ascending(s) && g in s && k < g && s[|s| - 1] + 1 == |s|
    ensures k in s
  {
    var i :| 0 <= i < |s| && s[i] == g;
    AscendingAtLeast(s, i);
    InitialStretch(s, i);
    InitialStretch(s, k);
  }

  // ---- beyond ----

  /** The second of two row groups is selected: what is held on reaching it. */
  lemma {:induction false} SecondOfTwo(a: nat, b: nat, t: Treemap)
    requires a + b < TWO_64 && ValidTreemap(t) && Cursor(None, t).Valid()
    ensures TotalRows([a, b]) == a + b && Base([a, b], 1) == a && Base([a, b], 2) == a + b
    ensures Walk([a, b], Some([1]), t, 1) == Skipped(Refilled(Cursor(None, t)), a)
  {
    assert Base([a, b], 1) == a;
    assert Base([a, b], 2) == a + b;
    WalkStarts([a, b], Some([1]), t);
    WalkStep([a, b], Some([1]), t, 0);
  }

  /** The first of two positions taken out of a single bitmap. */
  lemma {:induction false} OneBitmap(high: u32, x: u32, y: u32)
    requires x < y
    ensures var t := [Bitmap(high, [x, y])];
            && ValidTreemap(t) && Cursor(None, t).Valid()
            && Positions(t) == [Join(high, x), Join(high, y)]
            && Refilled(Cursor(None, t)) == Held(Some(Join(high, x)), Cursor(Some(Bitmap(high, [y])), []))
  {
    var t := [Bitmap(high, [x, y])];
    assert Cursor(None, t).Bitmaps() == t;
    assert t[1..] == [];
    assert BitmapPositions(t[0]) == [Join(high, x), Join(high, y)];
    assert [x, y][1..] == [y];
    assert Cursor(Some(t[0]), t[1..]) == Cursor(Some(Bitmap(high, [x, y])), []);
    assert NextOf(Cursor(Some(Bitmap(high, [x, y])), [])) == (Some(Join(high, x)), Cursor(Some(Bitmap(high, [y])), []));
  }

  lemma {:induction false} NotServed(
      groups: seq<nat>, selected: Option<seq<nat>>, t: Treemap, deleted: set<u64>, g: nat, x: u64)
    requires TotalRows(groups) < TWO_64 && ValidTreemap(t) && g < |groups| && IsSelected(selected, g)
    requires Base(groups, g) <= x < Base(groups, g + 1)
    requires x in deleted && x !in Walk(groups, selected, t, g).Deletes()
    ensures !Served(groups, selected, t, deleted)
    ensures x !in Effective(groups, selected, t, |groups|)
  {
    hide Walk, Base, Effective;
    assert !ServedIn(groups, selected, t, deleted, g);
    EffectiveAt(groups, selected, t, g, |groups|);
  }

  lemma {:induction false} SkipLoses(h: Held)
    requires h.Valid() && h == Held(Some(TWO_32 + 1), Cursor(Some(Bitmap(1, [2])), []))
    ensures var r := Skipped(h, 10);
            r == Held(Some(TWO_32 + 1), Cursor(Some(Bitmap(1, [])), [])) && r.Deletes() == {TWO_32 + 1}
  {
    assert From([2], 10) == [];
    var r := Skipped(h, 10);
    assert r.rest.Bitmaps() == [Bitmap(1, [])];
    assert r.rest.Remaining() == [];
  }

  lemma {:induction false} SkipKeeps(h: Held)
    requires h.Valid() && h == Held(Some(5), Cursor(Some(Bitmap(0, [7])), []))
    ensures Skipped(h, TWO_32) == Held(Some(7), Cursor(Some(Bitmap(0, [])), []))
  {
    assert Advanced(h.rest, TWO_32) == h.rest;
    assert [7][1..] == [];
  }

  /**
   A file of more than 2^32 rows in two groups, the first skipped, rows 2^32 + 1 and 2^32 + 2 deleted: the call returns,
   and reads row 2^32 + 2.
   */
  lemma {:induction false} DeleteLostInFile()
    ensures var groups, selected, t := [10, TWO_32], Some([1]), [Bitmap(1, [1, 2])];
            && ValidTreemap(t) && ValidGroups(selected, 2) && TotalRows(groups) < TWO_64
            && NeverStale(groups, selected, t) && !Served(groups, selected, t, Members(t))
            && TWO_32 + 2 in Members(t) && TWO_32 + 2 !in Effective(groups, selected, t, 2)
  {
    hide Skipped, Refilled, Walk, Base, Positions, NextOf, Advanced, Effective, Served, ValidTreemap;
    var groups, selected, t := [10, TWO_32], Some([1]), [Bitmap(1, [1, 2])];
    OneBitmap(1, 1, 2);
    SecondOfTwo(10, TWO_32, t);
    SkipLoses(Refilled(Cursor(None, t)));
    assert Positions(t)[1] == TWO_32 + 2;
    NotServed(groups, selected, t, Members(t), 1, TWO_32 + 2);
  }

  /**
   A file whose first group ends at row 2^32 and is skipped, rows 5 and 7 deleted: row 7 is still cached when the second
   group is reached, and the loop over that group never ends.
   */
  lemma {:induction false} DeleteStallsFile()
    ensures var groups, selected, t := [TWO_32, 1], Some([1]), [Bitmap(0, [5, 7])];
            && ValidTreemap(t) && ValidGroups(selected, 2) && TotalRows(groups) < TWO_64
            && !NeverStale(groups, selected, t)
            && var h := Walk(groups, selected, t, 1);
               h.next == Some(7) && Base(groups, 1) == TWO_32 && ChunkStep(h, TWO_32, TWO_32 + 1) == (h, TWO_32)
  {
    hide Skipped, Refilled, Walk, Base, Positions, NextOf, Advanced, ChunkStep;
    var groups, selected, t := [TWO_32, 1], Some([1]), [Bitmap(0, [5, 7])];
    OneBitmap(0, 5, 7);
    SecondOfTwo(TWO_32, 1, t);
    SkipKeeps(Refilled(Cursor(None, t)));
    var h := Walk(groups, selected, t, 1);
    assert !NotStale(h, TWO_32);
    StaleStalls(h, TWO_32, TWO_32 + 1);
  }
}
