/**
 For which row groups and which selections of them the walk over the positional deletes is right whatever is deleted:
 a condition on the first and last rows of the row groups alone.
 */
module SkippedGroups {
  import opened Prelude
  import opened DeleteVectors
  import opened RowSelections

  // ---- the condition ----

  /** Row `p` is in a selected row group, the `g`-th or a later one. */
  ghost predicate SelectedFrom(groups: seq<nat>, selected: Option<seq<nat>>, g: nat, p: nat) {
    exists k: nat :: g <= k < |groups| && IsSelected(selected, k) && Base(groups, k) <= p < Base(groups, k + 1)
  }

  /** Row group `s` is the first selected one from `g` on. */
  ghost predicate FirstSelected(selected: Option<seq<nat>>, n: nat, g: nat, s: nat) {
    g <= s < n && IsSelected(selected, s) && forall k: nat :: g <= k < s ==> !IsSelected(selected, k)
  }

  /**
   Skipping row group `g` may drop a delete of row `p`, of a row group selected later: its high bits are beyond those of
   the group's end and its low bits before those of the end. A row with low bits zero is safe unless the group
   contains a row with smaller high bits than its end.
   */
  ghost predicate Drops(groups: seq<nat>, selected: Option<seq<nat>>, g: nat, p: u64)
    requires g < |groups| && TotalRows(groups) < TWO_64
  {
    BaseMonotone(groups, g + 1, |groups|);
    var end: u64 := Base(groups, g + 1);
    && !IsSelected(selected, g) && SelectedFrom(groups, selected, g + 1, p)
    && High(p) > High(end) && Low(p) < Low(end) && (Low(p) > 0 || Base(groups, g) < High(end) * TWO_32)
  }

  /**
   The most stale deletes that a skip from row `base` to row `end` leaves behind: they fit before the last multiple of
   2^32 up to `end`, and into one bitmap, and one delete is taken out.
   */
  function StaleLimit(base: nat, end: u64): int {
    var room := High(end) * TWO_32 - base;
    if room <= TWO_32 then room - 1 else TWO_32
  }

  /**
   Skipping row group `g` may leave a stale delete behind until the next selected row group `s`: there can be more of
   them than there are skips on the way, each of which takes out one.
   */
  ghost predicate Stalls(groups: seq<nat>, selected: Option<seq<nat>>, g: nat, s: nat)
    requires g < |groups| && TotalRows(groups) < TWO_64
  {
    BaseMonotone(groups, g + 1, |groups|);
    var end: u64 := Base(groups, g + 1);
    && !IsSelected(selected, g) && FirstSelected(selected, |groups|, g, s)
    && s - g <= StaleLimit(Base(groups, g), end)
  }

  ghost predicate SafeSelection(groups: seq<nat>, selected: Option<seq<nat>>)
    requires TotalRows(groups) < TWO_64
  {
    && (forall g: nat, p: u64 :: g < |groups| ==> !Drops(groups, selected, g, p))
    && (forall g: nat, s: nat :: g < |groups| ==> !Stalls(groups, selected, g, s))
  }

  /** Whatever is deleted, the call returns and serves every selected row group. */
  ghost predicate RightForAll(groups: seq<nat>, selected: Option<seq<nat>>)
    requires TotalRows(groups) < TWO_64
  {
    forall t: Treemap :: ValidTreemap(t) ==> NeverStale(groups, selected, t) && Served(groups, selected, t, Members(t))
  }

  // ---- positions of a treemap ----

  predicate InMap(t: Treemap, x: u64) { exists k :: 0 <= k < |t| && t[k].high == High(x) && Low(x) in t[k].lows }

  lemma {:induction false} InPositions(t: Treemap, x: u64)
    ensures x in Positions(t) <==> InMap(t, x)
  {
    if x in Positions(t) {
      var i :| 0 <= i < |Positions(t)| && Positions(t)[i] == x;
      PositionsHigh(t, i);
    }
    if InMap(t, x) {
      var k :| 0 <= k < |t| && t[k].high == High(x) && Low(x) in t[k].lows;
      MapPosition(t, k, x);
    }
  }

  lemma {:induction false} MapPosition(t: Treemap, k: nat, x: u64)
    requires k < |t| && t[k].high == High(x) && Low(x) in t[k].lows
    ensures x in Positions(t)
  {
    if k == 0 {
      var i :| 0 <= i < |t[0].lows| && t[0].lows[i] == Low(x);
      SplitJoin(x);
      assert BitmapPositions(t[0])[i] == x;
    } else {
      MapPosition(t[1..], k - 1, x);
    }
  }

  lemma {:induction false} InRemaining(c: Cursor, x: u64)
    ensures x in c.Remaining() <==>
            (c.inner.Some? && c.inner.value.high == High(x) && Low(x) in c.inner.value.lows) || InMap(c.outer, x)
  {
    InPositions(c.Bitmaps(), x);
    if c.inner.Some? {
      assert c.Bitmaps()[0] == c.inner.value;
      assert forall k :: 0 <= k < |c.outer| ==> c.Bitmaps()[k + 1] == c.outer[k];
      assert forall k :: 1 <= k < |c.Bitmaps()| ==> c.Bitmaps()[k] == c.outer[k - 1];
    }
  }

  lemma {:induction false} LaterHigher(c: Cursor, x: u64)
    requires c.Valid() && c.inner.Some? && InMap(c.outer, x)
    ensures High(x) > c.inner.value.high
  {
    var k :| 0 <= k < |c.outer| && c.outer[k].high == High(x) && Low(x) in c.outer[k].lows;
    assert c.Bitmaps()[0] == c.inner.value && c.Bitmaps()[k + 1] == c.outer[k];
  }

  // ---- what advance_to does to a started iterator ----

  /** It stays behind, on the last bitmap, or it lands on the first bitmap that reaches the high bits. */
  ghost predicate Landed(c: Cursor, d: Cursor, pos: u64) {
    && d.inner.Some? && d.inner.value.high >= High(pos)
    && forall x: u64 :: x in c.Remaining() ==>
                          && (High(x) < d.inner.value.high ==> High(x) < High(pos))
                          && (x in d.Remaining() <==>
                                High(x) > d.inner.value.high || (High(x) == d.inner.value.high && Low(x) >= Low(pos)))
  }

  ghost predicate Behind(c: Cursor, d: Cursor, pos: u64) {
    && d.inner.Some? && d.inner.value.high < High(pos) && d.outer == []
    && forall x: u64 :: x in c.Remaining() ==> High(x) <= d.inner.value.high
  }

  lemma {:induction false} AdvancedShape(c: Cursor, pos: u64)
    requires c.Valid() && c.inner.Some?
    ensures var d := Advanced(c, pos);
            && (Landed(c, d, pos) || Behind(c, d, pos))
            && c.inner.value.high <= d.inner.value.high
            && (c.inner.value.high >= High(pos) ==> d.inner.value.high == c.inner.value.high)
            && (c.inner.value.high == d.inner.value.high && d.inner.value.high < High(pos) ==> d == c)
    decreases |c.outer|
  {
    hide Positions, BitmapPositions, ValidTreemap;
    var d := Advanced(c, pos);
    forall x: u64 ensures InMap(c.outer, x) ==> High(x) > c.inner.value.high {
      if InMap(c.outer, x) { LaterHigher(c, x); }
    }
    forall x: u64
      ensures x in c.Remaining() <==>
              (c.inner.value.high == High(x) && Low(x) in c.inner.value.lows) || InMap(c.outer, x)
    {
      InRemaining(c, x);
    }
    if c.inner.value.high >= High(pos) {
      forall x: u64
        ensures x in d.Remaining() <==>
                (d.inner.value.high == High(x) && Low(x) in d.inner.value.lows) || InMap(d.outer, x)
      {
        InRemaining(d, x);
      }
    } else if c.outer == [] {
      assert forall x: u64 :: !InMap(c.outer, x);
    } else {
      ValidTail(c);
      var e := Cursor(Some(c.outer[0]), c.outer[1..]);
      AdvancedShape(e, pos);
      FirstHigher(c);
      forall x: u64 ensures x in e.Remaining() <==> InMap(c.outer, x) { InPositions(c.outer, x); }
      AdvancedIsPart(e, pos);
      assert Landed(e, d, pos) ==> Landed(c, d, pos);
      assert Behind(e, d, pos) ==> Behind(c, d, pos);
    }
  }

  lemma {:induction false} FirstHigher(c: Cursor)
    requires c.Valid() && c.inner.Some? && c.outer != []
    ensures c.outer[0].high > c.inner.value.high
  {
    assert c.Bitmaps()[0] == c.inner.value && c.Bitmaps()[1] == c.outer[0];
  }

  /** The position that `next` yields is of the bitmap that is then current. */
  lemma {:induction false} NextShape(c: Cursor)
    ensures var (r, d) := NextOf(c);
            && (r.Some? ==> d.inner.Some? && d.inner.value.high == High(r.value))
            && (c.outer == [] && c.inner.Some? ==>
                  && (c.inner.value.lows == [] ==> r == None)
                  && (c.inner.value.lows != [] ==>
                        && r == Some(Join(c.inner.value.high, c.inner.value.lows[0]))
                        && d == Cursor(Some(Bitmap(c.inner.value.high, c.inner.value.lows[1..])), [])))
    decreases |c.outer|
  {
    if c.inner.Some? && c.inner.value.lows != [] {
      JoinOrder(c.inner.value.high, c.inner.value.lows[0], 0, 0);
    } else if c.outer != [] {
      NextShape(Cursor(Some(c.outer[0]), c.outer[1..]));
    }
  }

  // ---- on course ----

  /** Nothing held is behind row `base`, everything held is deleted, and every wanted delete is held. */
  ghost predicate OnCourse(h: Held, base: nat, wanted: set<u64>, deleted: set<u64>) {
    && h.Valid() && h.Deletes() <= deleted && wanted <= h.Deletes()
    && (h.next.Some? ==> h.next.value >= base && h.rest.inner.Some? && h.rest.inner.value.high == High(h.next.value))
  }

  /** What is held is stale, all of one bitmap, and taken out by so many skips. */
  ghost predicate Draining(h: Held, base: nat, skips: int) {
    && h.Valid() && h.next.Some? && h.rest.inner.Some? && h.rest.outer == []
    && h.rest.inner.value.high == High(h.next.value) < base / TWO_32 && |h.rest.inner.value.lows| + 1 <= skips
  }

  lemma {:induction false} RefilledOnCourse(c: Cursor, base: nat, wanted: set<u64>, deleted: set<u64>)
    requires c.Valid() && (forall x :: x in c.Remaining() ==> x >= base && x in deleted)
    requires forall x :: x in wanted ==> x in c.Remaining()
    ensures OnCourse(Refilled(c), base, wanted, deleted)
  {
    hide Positions, NextOf;
    NextOfMeaning(c);
    NextShape(c);
    if c.Remaining() != [] { TakeFirst(c, NextOf(c).0, NextOf(c).1); }
  }

  lemma {:induction false} TakenOnCourse(
      h: Held, base: nat, end: u64, wanted: set<u64>, later: set<u64>, deleted: set<u64>)
    requires OnCourse(h, base, wanted, deleted) && base <= end
    requires later <= wanted && forall x :: x in later ==> x >= end
    ensures OnCourse(TakenUntil(h, end), end, later, deleted)
    decreases |h.rest.Remaining()| + if h.next.Some? then 1 else 0
  {
    hide Positions, Refilled;
    if h.next.Some? && h.next.value < end {
      RefilledOnCourse(h.rest, h.next.value, later, deleted);
      TakenOnCourse(Refilled(h.rest), h.next.value, end, later, later, deleted);
    }
  }

  // ---- one skip ----

  /** The wanted deletes that a skip to `end` from row `base` may drop. */
  predicate Droppable(base: nat, end: u64, x: u64) {
    High(x) > High(end) && Low(x) < Low(end) && (Low(x) > 0 || base < High(end) * TWO_32)
  }

  /** What the skip leaves where nothing is left behind. */
  lemma {:induction false} LandedOnCourse(
      h: Held, base: nat, end: u64, wanted: set<u64>, later: set<u64>, deleted: set<u64>)
    requires OnCourse(h, base, wanted, deleted) && base <= end && h.next.Some?
    requires later <= wanted && forall x :: x in later ==> x >= end && !Droppable(base, end, x)
    requires Landed(h.rest, Advanced(h.rest, end), end)
    requires h.rest.inner.value.high >= High(end) ==> Advanced(h.rest, end).inner.value.high == h.rest.inner.value.high
    ensures OnCourse(Skipped(h, end), end, later, deleted)
  {
    hide Positions, NextOf, Advanced, Refilled;
    var c := Advanced(h.rest, end);
    AdvancedIsPart(h.rest, end);
    if h.next.value < end { RefilledOnCourse(c, end, later, deleted); }
  }

  /** A bitmap holds no more members than there are low bits from its first one on. */
  lemma {:induction false} MembersFit(lows: seq<u32>, from: nat)
    requires Ascending(lows) && from <= TWO_32 && forall i :: 0 <= i < |lows| ==> lows[i] >= from
    ensures |lows| <= TWO_32 - from
  {
    if lows != [] {
      var n := |lows| - 1;
      LastIsFar(lows, n);
    }
  }

  lemma {:induction false} LastIsFar(lows: seq<u32>, k: nat)
    requires Ascending(lows) && k < |lows|
    ensures lows[k] >= lows[0] + k
  {
    if k > 0 { LastIsFar(lows, k - 1); }
  }

  /** Refilling from the last bitmap, short of row `end`: one delete fewer, all of them stale. */
  lemma {:induction false} RefillDrains(c: Cursor, end: u64, deleted: set<u64>, n: int)
    requires c.Valid() && c.inner.Some? && c.outer == [] && c.inner.value.high < High(end)
    requires |c.inner.value.lows| <= n && forall x :: x in c.Remaining() ==> x in deleted
    ensures var r := Refilled(c);
            OnCourse(r, end, {}, deleted) || (r.Deletes() <= deleted && Draining(r, end, n))
  {
    hide Positions, NextOf;
    NextShape(c);
    NextOfMeaning(c);
    var r := Refilled(c);
    if c.inner.value.lows == [] {
      NothingLeft(c);
    } else {
      JoinOrder(c.inner.value.high, c.inner.value.lows[0], 0, 0);
      TakeFirst(c, r.next, r.rest);
      assert forall x :: x in r.Deletes() ==> x in c.Remaining();
    }
  }

  /** What the skip leaves where it stays behind: nothing wanted, and as many stale deletes as fit before its end. */
  lemma {:induction false} BehindDrains(
      h: Held, base: nat, end: u64, wanted: set<u64>, later: set<u64>, deleted: set<u64>)
    requires OnCourse(h, base, wanted, deleted) && base <= end && h.next.Some?
    requires later <= wanted && forall x :: x in later ==> x >= end
    requires Behind(h.rest, Advanced(h.rest, end), end)
    requires h.rest.inner.value.high <= Advanced(h.rest, end).inner.value.high
    requires h.rest.inner.value.high == Advanced(h.rest, end).inner.value.high < High(end) ==>
             Advanced(h.rest, end) == h.rest
    ensures later == {}
    ensures var r := Skipped(h, end);
            OnCourse(r, end, {}, deleted) || (r.Deletes() <= deleted && Draining(r, end, StaleLimit(base, end)))
  {
    hide Positions, NextOf, Advanced, Refilled;
    var c := Advanced(h.rest, end);
    AdvancedIsPart(h.rest, end);
    assert High(h.next.value) <= c.inner.value.high < High(end);
    assert h.next.value < end;
    CountBehind(h, base, end);
    RefillDrains(c, end, deleted, StaleLimit(base, end));
    assert forall x :: x in h.Deletes() ==> High(x) <= c.inner.value.high && x < end;
  }

  lemma {:induction false} CountBehind(h: Held, base: nat, end: u64)
    requires h.Valid() && h.next.Some? && h.next.value >= base && h.rest.inner.Some?
    requires h.rest.inner.value.high == High(h.next.value)
    requires Behind(h.rest, Advanced(h.rest, end), end) && Advanced(h.rest, end).Valid()
    requires h.rest.inner.value.high <= Advanced(h.rest, end).inner.value.high
    requires h.rest.inner.value.high == Advanced(h.rest, end).inner.value.high ==> Advanced(h.rest, end) == h.rest
    ensures |Advanced(h.rest, end).inner.value.lows| <= StaleLimit(base, end)
  {
    hide Positions, NextOf, Advanced, Refilled;
    var c := Advanced(h.rest, end);
    var b := c.inner.value;
    assert c.Bitmaps()[0] == b;
    if c == h.rest {
      forall i | 0 <= i < |b.lows| ensures b.lows[i] >= Low(h.next.value) + 1 {
        var x := Join(b.high, b.lows[i]);
        JoinOrder(b.high, b.lows[i], 0, 0);
        InRemaining(c, x);
        assert h.next.value < x;
      }
      MembersFit(b.lows, Low(h.next.value) + 1);
    } else {
      MembersFit(b.lows, 0);
    }
  }

  lemma {:induction false} DrainingSkip(h: Held, base: nat, end: u64, skips: int, deleted: set<u64>)
    requires Draining(h, base, skips) && h.Deletes() <= deleted && base <= end
    ensures var r := Skipped(h, end);
            OnCourse(r, end, {}, deleted) || (r.Deletes() <= deleted && Draining(r, end, skips - 1))
  {
    hide Positions, NextOf, Refilled;
    assert Advanced(h.rest, end) == h.rest;
    assert h.next.value < end;
    RefillDrains(h.rest, end, deleted, skips - 1);
  }

  // ---- the whole walk ----

  /** The deletes of the selected row groups from `g` on. */
  ghost function WantedFrom(groups: seq<nat>, selected: Option<seq<nat>>, t: Treemap, g: nat): set<u64> {
    set x | x in Members(t) && SelectedFrom(groups, selected, g, x)
  }

  /**
   On reaching row group `g` no selected one is left, or the walk is on course, or stale until the next selected one.
   */
  ghost predicate InCourse(groups: seq<nat>, selected: Option<seq<nat>>, t: Treemap, g: nat)
    requires g <= |groups| && TotalRows(groups) < TWO_64 && ValidTreemap(t)
  {
    var h, base := Walk(groups, selected, t, g), Base(groups, g);
    || (forall k: nat :: g <= k < |groups| ==> !IsSelected(selected, k))
    || OnCourse(h, base, WantedFrom(groups, selected, t, g), Members(t))
    || (WantedFrom(groups, selected, t, g) == {} && h.Deletes() <= Members(t) &&
        exists s: nat :: FirstSelected(selected, |groups|, g, s) && Draining(h, base, s - g))
  }

  lemma {:induction false} SelectedLater(groups: seq<nat>, selected: Option<seq<nat>>, g: nat, x: nat)
    requires g < |groups| && SelectedFrom(groups, selected, g + 1, x)
    ensures SelectedFrom(groups, selected, g, x) && x >= Base(groups, g + 1)
  {
    hide Base;
    var k: nat :| g + 1 <= k < |groups| && IsSelected(selected, k) && Base(groups, k) <= x < Base(groups, k + 1);
    BaseMonotone(groups, g + 1, k);
  }

  lemma {:induction false} WantedLater(groups: seq<nat>, selected: Option<seq<nat>>, t: Treemap, g: nat)
    requires g < |groups|
    ensures var later := WantedFrom(groups, selected, t, g + 1);
            later <= WantedFrom(groups, selected, t, g) && forall x :: x in later ==> x >= Base(groups, g + 1)
  {
    hide Base, Members, SelectedFrom;
    forall x: u64 | SelectedFrom(groups, selected, g + 1, x)
      ensures SelectedFrom(groups, selected, g, x) && x >= Base(groups, g + 1)
    {
      SelectedLater(groups, selected, g, x);
    }
  }

  lemma {:induction false} StartsOnCourse(groups: seq<nat>, selected: Option<seq<nat>>, t: Treemap)
    requires TotalRows(groups) < TWO_64 && ValidTreemap(t)
    ensures InCourse(groups, selected, t, 0)
  {
    hide NextOf;
    var c := Cursor(None, t);
    assert c.Bitmaps() == t;
    WalkStarts(groups, selected, t);
    RefilledOnCourse(c, 0, WantedFrom(groups, selected, t, 0), Members(t));
  }

  lemma {:induction false} SelectedInCourse(groups: seq<nat>, selected: Option<seq<nat>>, t: Treemap, g: nat)
    requires g < |groups| && TotalRows(groups) < TWO_64 && ValidTreemap(t)
    requires IsSelected(selected, g) && InCourse(groups, selected, t, g)
    ensures OnCourse(Walk(groups, selected, t, g), Base(groups, g), WantedFrom(groups, selected, t, g), Members(t))
    ensures InCourse(groups, selected, t, g + 1)
  {
    hide Walk, Base, Members, OnCourse, WantedFrom, TakenUntil;
    BaseMonotone(groups, g, g + 1);
    BaseMonotone(groups, g + 1, |groups|);
    WalkStep(groups, selected, t, g);
    WantedLater(groups, selected, t, g);
    TakenOnCourse(Walk(groups, selected, t, g), Base(groups, g), Base(groups, g + 1),
                  WantedFrom(groups, selected, t, g), WantedFrom(groups, selected, t, g + 1), Members(t));
  }

  /** Off course before a skipped row group, what is held is stale until the next selected one. */
  lemma {:induction false} OffCourse(groups: seq<nat>, selected: Option<seq<nat>>, t: Treemap, g: nat, s: nat)
    requires g < |groups| && TotalRows(groups) < TWO_64 && ValidTreemap(t) && FirstSelected(selected, |groups|, g, s)
    requires InCourse(groups, selected, t, g) && !IsSelected(selected, g)
    requires !OnCourse(Walk(groups, selected, t, g), Base(groups, g), WantedFrom(groups, selected, t, g), Members(t))
    ensures var h := Walk(groups, selected, t, g);
            && WantedFrom(groups, selected, t, g) == {} && h.Deletes() <= Members(t)
            && Draining(h, Base(groups, g), s - g) && FirstSelected(selected, |groups|, g + 1, s)
  {
    hide Walk, Base, Members, OnCourse, Draining, WantedFrom;
    var h, base := Walk(groups, selected, t, g), Base(groups, g);
    var q: nat :| FirstSelected(selected, |groups|, g, q) && Draining(h, base, q - g);
    assert q == s;
  }

  lemma {:induction false} SkippedInCourse(groups: seq<nat>, selected: Option<seq<nat>>, t: Treemap, g: nat, s: nat)
    requires g < |groups| && TotalRows(groups) < TWO_64 && ValidTreemap(t) && !IsSelected(selected, g)
    requires InCourse(groups, selected, t, g) && SafeSelection(groups, selected) &&
             FirstSelected(selected, |groups|, g, s)
    ensures InCourse(groups, selected, t, g + 1)
  {
    hide *;
    if OnCourse(Walk(groups, selected, t, g), Base(groups, g), WantedFrom(groups, selected, t, g), Members(t)) {
      SkipOnCourse(groups, selected, t, g, s);
    } else {
      WalkStep(groups, selected, t, g);
      WantedLater(groups, selected, t, g);
      OffCourse(groups, selected, t, g, s);
      DrainingSkip(Walk(groups, selected, t, g), Base(groups, g), Base(groups, g + 1), s - g, Members(t));
      assert WantedFrom(groups, selected, t, g + 1) == {};
      InCourseWhen(groups, selected, t, g + 1, s);
    }
  }

  lemma {:induction false} LaterNotDroppable(
      groups: seq<nat>, selected: Option<seq<nat>>, t: Treemap, g: nat, base: nat, end: u64)
    requires g < |groups| && TotalRows(groups) < TWO_64 && SafeSelection(groups, selected) && !IsSelected(selected, g)
    requires base == Base(groups, g) && end == Base(groups, g + 1)
    ensures var later := WantedFrom(groups, selected, t, g + 1); forall x :: x in later ==> !Droppable(base, end, x)
  {
    hide Base, Members, SelectedFrom, High, Low;
    var later := WantedFrom(groups, selected, t, g + 1);
    forall x | x in later ensures !Droppable(base, end, x) {
      assert !Drops(groups, selected, g, x);
    }
  }

  /** One skip: still on course, or nothing is wanted any more and few enough stale deletes are left. */
  lemma {:induction false} SkipKeepsCourse(
      h: Held, base: nat, end: u64, wanted: set<u64>, later: set<u64>, deleted: set<u64>, skips: int)
    requires OnCourse(h, base, wanted, deleted) && base <= end
    requires later <= wanted && forall x :: x in later ==> x >= end && !Droppable(base, end, x)
    requires StaleLimit(base, end) <= skips
    ensures var r := Skipped(h, end);
            OnCourse(r, end, later, deleted) || (later == {} && r.Deletes() <= deleted && Draining(r, end, skips))
  {
    hide Draining, Skipped, Advanced, Landed, Behind;
    if h.next.Some? {
      AdvancedShape(h.rest, end);
      if Landed(h.rest, Advanced(h.rest, end), end) {
        LandedOnCourse(h, base, end, wanted, later, deleted);
      } else {
        BehindDrains(h, base, end, wanted, later, deleted);
        var r := Skipped(h, end);
        if !OnCourse(r, end, {}, deleted) { DrainsSooner(r, end, StaleLimit(base, end), skips); }
      }
    } else {
      NothingToSkip(h, end);
    }
  }

  lemma {:induction false} FewStale(groups: seq<nat>, selected: Option<seq<nat>>, g: nat, s: nat, base: nat, end: u64)
    requires g < |groups| && TotalRows(groups) < TWO_64 && SafeSelection(groups, selected) && !IsSelected(selected, g)
    requires FirstSelected(selected, |groups|, g, s) && base == Base(groups, g) && end == Base(groups, g + 1)
    ensures StaleLimit(base, end) <= s - (g + 1) && FirstSelected(selected, |groups|, g + 1, s)
  {
    hide Base, StaleLimit, Drops;
    assert !Stalls(groups, selected, g, s);
  }

  lemma {:induction false} InCourseWhen(groups: seq<nat>, selected: Option<seq<nat>>, t: Treemap, g: nat, s: nat)
    requires g <= |groups| && TotalRows(groups) < TWO_64 && ValidTreemap(t) && FirstSelected(selected, |groups|, g, s)
    requires var h, base, wanted := Walk(groups, selected, t, g), Base(groups, g), WantedFrom(groups, selected, t, g);
             || OnCourse(h, base, wanted, Members(t))
             || (wanted == {} && h.Deletes() <= Members(t) && Draining(h, base, s - g))
    ensures InCourse(groups, selected, t, g)
  {
    hide Walk, Base, Members, OnCourse, Draining, WantedFrom;
  }

  lemma {:induction false} SkipOnCourse(groups: seq<nat>, selected: Option<seq<nat>>, t: Treemap, g: nat, s: nat)
    requires g < |groups| && TotalRows(groups) < TWO_64 && ValidTreemap(t) && !IsSelected(selected, g)
    requires SafeSelection(groups, selected) && FirstSelected(selected, |groups|, g, s)
    requires OnCourse(Walk(groups, selected, t, g), Base(groups, g), WantedFrom(groups, selected, t, g), Members(t))
    ensures InCourse(groups, selected, t, g + 1)
  {
    hide *;
    WalkStep(groups, selected, t, g);
    WantedLater(groups, selected, t, g);
    var base, end: u64 := Base(groups, g), Base(groups, g + 1);
    var wanted, later := WantedFrom(groups, selected, t, g), WantedFrom(groups, selected, t, g + 1);
    LaterNotDroppable(groups, selected, t, g, base, end);
    FewStale(groups, selected, g, s, base, end);
    HeldIsValid(Walk(groups, selected, t, g), base, wanted, Members(t));
    SkipKeepsCourse(Walk(groups, selected, t, g), base, end, wanted, later, Members(t), s - (g + 1));
    InCourseWhen(groups, selected, t, g + 1, s);
  }

  lemma {:induction false} HeldIsValid(h: Held, base: nat, wanted: set<u64>, deleted: set<u64>)
    requires OnCourse(h, base, wanted, deleted)
    ensures h.Valid()
  {
  }

  lemma {:induction false} DrainsSooner(h: Held, base: nat, n: int, skips: int)
    requires Draining(h, base, n) && n <= skips
    ensures Draining(h, base, skips)
  {
  }

  lemma {:induction false} NothingToSkip(h: Held, end: u64)
    requires h.Valid() && h.next.None?
    ensures Skipped(h, end).next.None? && Skipped(h, end).Deletes() == {}
  {
    AdvancedIsPart(h.rest, end);
  }

  lemma {:induction false} StaysInCourse(groups: seq<nat>, selected: Option<seq<nat>>, t: Treemap, g: nat)
    requires g <= |groups| && TotalRows(groups) < TWO_64 && ValidTreemap(t) && SafeSelection(groups, selected)
    ensures InCourse(groups, selected, t, g)
  {
    hide Walk, Base, Members, OnCourse, Draining, WantedFrom, SafeSelection, InCourse;
    if g == 0 {
      StartsOnCourse(groups, selected, t);
    } else {
      StaysInCourse(groups, selected, t, g - 1);
      if IsSelected(selected, g - 1) {
        SelectedInCourse(groups, selected, t, g - 1);
      } else if exists k: nat :: g <= k < |groups| && IsSelected(selected, k) {
        var k: nat :| g <= k < |groups| && IsSelected(selected, k);
        var s := FirstFrom(selected, |groups|, g - 1, k);
        SkippedInCourse(groups, selected, t, g - 1, s);
      } else {
        NothingLeftToServe(groups, selected, t, g);
      }
    }
  }

  lemma {:induction false} NothingLeftToServe(groups: seq<nat>, selected: Option<seq<nat>>, t: Treemap, g: nat)
    requires g <= |groups| && TotalRows(groups) < TWO_64 && ValidTreemap(t)
    requires forall k: nat :: g <= k < |groups| ==> !IsSelected(selected, k)
    ensures InCourse(groups, selected, t, g)
  {
  }

  lemma {:induction false} FirstFrom(selected: Option<seq<nat>>, n: nat, g: nat, k: nat) returns (s: nat)
    requires g <= k < n && IsSelected(selected, k)
    ensures FirstSelected(selected, n, g, s)
  {
    s := g;
    while !IsSelected(selected, s)
      invariant g <= s <= k && forall j: nat :: g <= j < s ==> !IsSelected(selected, j)
      decreases k - s
    {
      s := s + 1;
    }
  }

  /** A selection that drops and stalls nothing is right for every delete vector. */
  lemma {:induction false} SafeIsRight(groups: seq<nat>, selected: Option<seq<nat>>, t: Treemap)
    requires TotalRows(groups) < TWO_64 && ValidTreemap(t) && SafeSelection(groups, selected)
    ensures NeverStale(groups, selected, t) && Served(groups, selected, t, Members(t))
  {
    hide Walk, Base, Members, SafeSelection, WantedFrom;
    forall g: nat | g < |groups| && IsSelected(selected, g)
      ensures ServedIn(groups, selected, t, Members(t), g) && NotStale(Walk(groups, selected, t, g), Base(groups, g))
    {
      StaysInCourse(groups, selected, t, g);
      SelectedInCourse(groups, selected, t, g);
      OnCourseServes(groups, selected, t, g);
    }
  }

  lemma {:induction false} OnCourseServes(groups: seq<nat>, selected: Option<seq<nat>>, t: Treemap, g: nat)
    requires g < |groups| && TotalRows(groups) < TWO_64 && ValidTreemap(t) && IsSelected(selected, g)
    requires OnCourse(Walk(groups, selected, t, g), Base(groups, g), WantedFrom(groups, selected, t, g), Members(t))
    ensures ServedIn(groups, selected, t, Members(t), g) && NotStale(Walk(groups, selected, t, g), Base(groups, g))
  {
    hide Walk, Base, Members;
    forall x: u64 | Base(groups, g) <= x < Base(groups, g + 1)
      ensures x in Walk(groups, selected, t, g).Deletes() <==> x in Members(t)
    {
      if x in Members(t) { assert SelectedFrom(groups, selected, g, x); }
    }
  }

  // ---- what goes wrong otherwise: iterators in concrete states ----

  lemma {:induction false} RefilledFromInner(b: Bitmap, outer: seq<Bitmap>)
    requires b.lows != [] && Cursor(Some(b), outer).Valid()
    ensures Refilled(Cursor(Some(b), outer)) ==
            Held(Some(Join(b.high, b.lows[0])), Cursor(Some(Bitmap(b.high, b.lows[1..])), outer))
  {
  }

  lemma {:induction false} RefilledFromOuter(inner: Option<Bitmap>, b: Bitmap, outer: seq<Bitmap>)
    requires b.lows != [] && (inner.Some? ==> inner.value.lows == []) && Cursor(inner, [b] + outer).Valid()
    requires Cursor(Some(b), outer).Valid()
    ensures Refilled(Cursor(inner, [b] + outer)) ==
            Held(Some(Join(b.high, b.lows[0])), Cursor(Some(Bitmap(b.high, b.lows[1..])), outer))
  {
    assert ([b] + outer)[0] == b && ([b] + outer)[1..] == outer;
    assert NextOf(Cursor(inner, [b] + outer)) == NextOf(Cursor(Some(b), outer));
    RefilledFromInner(b, outer);
  }

  /** What is held, with nothing left of the bitmap its cache came from. */
  predicate Alone(h: Held) {
    h.next.Some? && h.rest.inner == Some(Bitmap(High(h.next.value), []))
  }

  /** Until its cached delete is reached, such a state does not change. */
  lemma {:induction false} AloneStays(h: Held, end: u64)
    requires h.Valid() && Alone(h) && end <= h.next.value
    ensures Skipped(h, end) == h && TakenUntil(h, end) == h
  {
  }

  lemma {:induction false} AloneUntil(groups: seq<nat>, selected: Option<seq<nat>>, t: Treemap, g: nat)
    requires g <= |groups| && TotalRows(groups) < TWO_64 && ValidTreemap(t) && Cursor(None, t).Valid()
    requires Alone(Refilled(Cursor(None, t))) && Base(groups, g) <= Refilled(Cursor(None, t)).next.value
    ensures Walk(groups, selected, t, g) == Refilled(Cursor(None, t))
  {
    hide *;
    if g == 0 {
      WalkStarts(groups, selected, t);
    } else {
      BaseMonotone(groups, g - 1, g);
      BaseMonotone(groups, g, |groups|);
      AloneUntil(groups, selected, t, g - 1);
      WalkStep(groups, selected, t, g - 1);
      AloneStays(Refilled(Cursor(None, t)), Base(groups, g));
    }
  }

  /** What is lost stays lost. */
  lemma {:induction false} HeldShrinks(groups: seq<nat>, selected: Option<seq<nat>>, t: Treemap, g: nat, k: nat)
    requires g <= k <= |groups| && TotalRows(groups) < TWO_64 && ValidTreemap(t)
    ensures Walk(groups, selected, t, k).Deletes() <= Walk(groups, selected, t, g).Deletes()
    decreases k
  {
    hide *;
    if g < k {
      HeldShrinks(groups, selected, t, g, k - 1);
      BaseMonotone(groups, k, |groups|);
      WalkStep(groups, selected, t, k - 1);
      SkippedShrinks(Walk(groups, selected, t, k - 1), Base(groups, k));
      TakenShrinks(Walk(groups, selected, t, k - 1), Base(groups, k));
    }
  }

  lemma {:induction false} RefilledShrinks(c: Cursor)
    requires c.Valid()
    ensures forall x :: x in Refilled(c).Deletes() ==> x in c.Remaining()
  {
    hide NextOf;
    NextOfMeaning(c);
  }

  lemma {:induction false} SkippedShrinks(h: Held, end: u64)
    requires h.Valid()
    ensures Skipped(h, end).Deletes() <= h.Deletes()
  {
    hide Advanced, Refilled;
    AdvancedIsPart(h.rest, end);
    RefilledShrinks(Advanced(h.rest, end));
  }

  lemma {:induction false} TakenShrinks(h: Held, end: u64)
    requires h.Valid()
    ensures TakenUntil(h, end).Deletes() <= h.Deletes()
    decreases |h.rest.Remaining()| + if h.next.Some? then 1 else 0
  {
    hide Refilled;
    if h.next.Some? && h.next.value < end {
      RefilledShrinks(h.rest);
      TakenShrinks(Refilled(h.rest), end);
    }
  }

  lemma {:induction false} LostForGood(groups: seq<nat>, selected: Option<seq<nat>>, t: Treemap, g: nat, p: u64)
    requires g <= |groups| && TotalRows(groups) < TWO_64 && ValidTreemap(t) && SelectedFrom(groups, selected, g, p)
    requires p in Members(t) && p !in Walk(groups, selected, t, g).Deletes()
    ensures !Served(groups, selected, t, Members(t))
  {
    hide Base, Walk, Members;
    var k: nat :| g <= k < |groups| && IsSelected(selected, k) && Base(groups, k) <= p < Base(groups, k + 1);
    HeldShrinks(groups, selected, t, g, k);
    assert !ServedIn(groups, selected, t, Members(t), k);
  }

  // ---- a delete that is dropped ----

  /** The first position of a bitmap is cached; at most one more is left of it. */
  predicate Pair(h: Held, high: u32, low: u32) {
    && h.next == Some(Join(high, 0)) && h.rest.inner.Some? && h.rest.outer == []
    && h.rest.inner.value.high == high && h.rest.inner.value.lows in {[low], []}
  }

  lemma {:induction false} PairStep(h: Held, high: u32, low: u32, end: u64)
    requires h.Valid() && Pair(h, high, low) && end <= Join(high, 0)
    ensures Pair(Skipped(h, end), high, low) && TakenUntil(h, end) == h
    ensures High(end) < high && low < Low(end) ==> Skipped(h, end).rest.inner.value.lows == []
  {
    hide Refilled;
    if low >= Low(end) { FromAll([low], Low(end)); } else { FromNone([low], Low(end)); }
    assert From([], Low(end)) == [];
  }

  lemma {:induction false} PairUntil(
      groups: seq<nat>, selected: Option<seq<nat>>, t: Treemap, g: nat, high: u32, low: u32)
    requires g <= |groups| && TotalRows(groups) < TWO_64 && ValidTreemap(t) && Cursor(None, t).Valid()
    requires Pair(Refilled(Cursor(None, t)), high, low) && Base(groups, g) <= Join(high, 0)
    ensures Pair(Walk(groups, selected, t, g), high, low)
  {
    hide *;
    if g == 0 {
      WalkStarts(groups, selected, t);
    } else {
      BaseMonotone(groups, g - 1, g);
      BaseMonotone(groups, g, |groups|);
      PairUntil(groups, selected, t, g - 1, high, low);
      WalkStep(groups, selected, t, g - 1);
      PairStep(Walk(groups, selected, t, g - 1), high, low, Base(groups, g));
    }
  }

  lemma {:induction false} PairGone(h: Held, high: u32, low: u32)
    requires h.Valid() && Pair(h, high, low) && h.rest.inner.value.lows == [] && low > 0
    ensures Join(high, low) !in h.Deletes()
  {
    NothingLeft(h.rest);
  }

  /** A row with low bits above zero: its delete is dropped behind one of the first row with the same high bits. */
  lemma {:induction false} DropsAboveZero(groups: seq<nat>, selected: Option<seq<nat>>, g: nat, p: u64)
    requires g < |groups| && TotalRows(groups) < TWO_64 && Drops(groups, selected, g, p) && Low(p) > 0
    ensures !RightForAll(groups, selected)
  {
    hide Base, Walk, Skipped, Refilled, TakenUntil, Positions, SelectedFrom, Served, NeverStale;
    var high, low := High(p), Low(p);
    var t := [Bitmap(high, [0, low])];
    OneBitmap(high, 0, low);
    SplitJoin(p);
    BaseMonotone(groups, g, g + 1);
    BaseMonotone(groups, g + 1, |groups|);
    JoinOrder(High(Base(groups, g + 1)), Low(Base(groups, g + 1)), high, 0);
    SplitJoin(Base(groups, g + 1));
    PairUntil(groups, selected, t, g, high, low);
    WalkStep(groups, selected, t, g);
    PairStep(Walk(groups, selected, t, g), high, low, Base(groups, g + 1));
    PairGone(Walk(groups, selected, t, g + 1), high, low);
    assert Positions(t)[1] == p;
    LostForGood(groups, selected, t, g + 1, p);
  }

  lemma {:induction false} LandingDrops(first: u64, high: u32, end: u64)
    requires High(first) < High(end) < high && Low(end) > 0
    requires Held(Some(first), Cursor(Some(Bitmap(High(first), [])), [Bitmap(high, [0])])).Valid()
    ensures Skipped(Held(Some(first), Cursor(Some(Bitmap(High(first), [])), [Bitmap(high, [0])])), end).Deletes() == {}
  {
    hide Refilled;
    var h := Held(Some(first), Cursor(Some(Bitmap(High(first), [])), [Bitmap(high, [0])]));
    FromNone([0], Low(end));
    var c := Advanced(h.rest, end);
    assert h.rest.outer[1..] == [];
    assert c == Advanced(Cursor(Some(Bitmap(high, [0])), []), end);
    assert c == Cursor(Some(Bitmap(high, [])), []);
    AdvancedIsPart(h.rest, end);
    NothingLeft(c);
    RefilledShrinks(c);
  }

  /** One position in each of two bitmaps. */
  lemma {:induction false} TwoBitmaps(x: u64, b: Bitmap)
    requires High(x) < b.high && Ascending(b.lows) && b.lows != []
    ensures var t := [Bitmap(High(x), [Low(x)]), b];
            && ValidTreemap(t) && Cursor(None, t).Valid()
            && Refilled(Cursor(None, t)) == Held(Some(x), Cursor(Some(Bitmap(High(x), [])), [b]))
  {
    hide Refilled;
    var t := [Bitmap(High(x), [Low(x)]), b];
    assert Cursor(None, t).Bitmaps() == t && Cursor(Some(t[0]), [b]).Bitmaps() == t;
    assert t == [t[0]] + [b];
    SplitJoin(x);
    RefilledFromOuter(None, t[0], [b]);
    assert [Low(x)][1..] == [];
  }

  /** A row with low bits zero: its delete is dropped when one of the group's first row lies in an earlier bitmap. */
  lemma {:induction false} DropsAtZero(groups: seq<nat>, selected: Option<seq<nat>>, g: nat, p: u64)
    requires g < |groups| && TotalRows(groups) < TWO_64 && Drops(groups, selected, g, p) && Low(p) == 0
    ensures !RightForAll(groups, selected)
  {
    hide Base, Walk, Skipped, Refilled, TakenUntil, Positions, SelectedFrom, Served, NeverStale;
    BaseMonotone(groups, g, g + 1);
    BaseMonotone(groups, g + 1, |groups|);
    var first: u64, b := Base(groups, g), Bitmap(High(p), [0]);
    var t := [Bitmap(High(first), [Low(first)]), b];
    TwoBitmaps(first, b);
    AloneUntil(groups, selected, t, g);
    WalkStep(groups, selected, t, g);
    LandingDrops(first, High(p), Base(groups, g + 1));
    MapPosition(t, 1, p);
    LostForGood(groups, selected, t, g + 1, p);
  }

  // ---- a delete that goes stale ----

  function Lows(from: nat, m: nat): (s: seq<u32>)
    requires from + m <= TWO_32
    ensures |s| == m && forall i :: 0 <= i < m ==> s[i] == from + i
  {
    seq(m, i requires 0 <= i < m => from + i)
  }

  /** Exactly so many stale deletes are held. */
  ghost predicate Stale(h: Held, base: nat, m: nat) {
    Draining(h, base, m) && |h.rest.inner.value.lows| + 1 == m
  }

  lemma {:induction false} StaleStep(h: Held, base: nat, end: u64, m: nat)
    requires Stale(h, base, m) && m >= 2 && base <= end
    ensures Stale(Skipped(h, end), end, m - 1)
  {
    hide Positions, Refilled;
    var b := h.rest.inner.value;
    assert h.rest == Cursor(Some(b), []);
    JoinOrder(b.high, b.lows[0], 0, 0);
    RefilledFromInner(b, []);
    assert Advanced(h.rest, end) == h.rest;
    assert h.next.value < end;
  }

  /** A stale delete stays until a selected row group is reached. */
  lemma {:induction false} StaleUntil(groups: seq<nat>, selected: Option<seq<nat>>, t: Treemap, g: nat, k: nat, s: nat)
    requires g < |groups| && TotalRows(groups) < TWO_64 && ValidTreemap(t) && FirstSelected(selected, |groups|, g, s)
    requires g < k <= s && Stale(Walk(groups, selected, t, g + 1), Base(groups, g + 1), s - g)
    ensures Stale(Walk(groups, selected, t, k), Base(groups, k), s - k + 1)
    decreases k
  {
    hide *;
    if g + 1 < k {
      StaleUntil(groups, selected, t, g, k - 1, s);
      NotYetSelected(selected, |groups|, g, s, k - 1);
      WalkStep(groups, selected, t, k - 1);
      StaleStep(Walk(groups, selected, t, k - 1), Base(groups, k - 1), Base(groups, k), s - k + 2);
    }
  }

  lemma {:induction false} NotYetSelected(selected: Option<seq<nat>>, n: nat, g: nat, s: nat, k: nat)
    requires FirstSelected(selected, n, g, s) && g <= k < s
    ensures k < n && !IsSelected(selected, k)
  {
  }

  lemma {:induction false} StaleStopsWalk(groups: seq<nat>, selected: Option<seq<nat>>, t: Treemap, g: nat, s: nat)
    requires g < |groups| && TotalRows(groups) < TWO_64 && ValidTreemap(t)
    requires !IsSelected(selected, g) && FirstSelected(selected, |groups|, g, s)
    requires Stale(Walk(groups, selected, t, g + 1), Base(groups, g + 1), s - g)
    ensures !RightForAll(groups, selected)
  {
    hide Base, Walk, Members, Served;
    StaleUntil(groups, selected, t, g, s, s);
    assert !NotStale(Walk(groups, selected, t, s), Base(groups, s));
  }

  /** The group starts far before the last multiple of 2^32: its first row, then rows just before that multiple. */
  lemma {:induction false} StallsFar(groups: seq<nat>, selected: Option<seq<nat>>, g: nat, s: nat)
    requires g < |groups| && TotalRows(groups) < TWO_64 && Stalls(groups, selected, g, s)
    requires Base(groups, g + 1) < TWO_64 && Base(groups, g) < (High(Base(groups, g + 1)) - 1) * TWO_32
    ensures !RightForAll(groups, selected)
  {
    hide Base, Walk, Refilled, TakenUntil, Positions, RightForAll;
    BaseMonotone(groups, g, g + 1);
    var first: u64, end: u64 := Base(groups, g), Base(groups, g + 1);
    var b := Bitmap(High(end) - 1, Lows(0, s - g));
    var t := [Bitmap(High(first), [Low(first)]), b];
    TwoBitmaps(first, b);
    AloneUntil(groups, selected, t, g);
    WalkStep(groups, selected, t, g);
    var h := Walk(groups, selected, t, g);
    assert h.rest.outer[1..] == [];
    assert Advanced(h.rest, end) == Cursor(Some(b), []);
    AdvancedIsPart(h.rest, end);
    RefilledFromInner(b, []);
    JoinOrder(b.high, b.lows[0], 0, 0);
    StaleStopsWalk(groups, selected, t, g, s);
  }

  // ---- a group that starts in the last bitmap before its end ----

  /** The first of some consecutive positions is cached and the others are left. */
  function AtRun(first: u64, m: nat): Held
    requires Low(first) + m < TWO_32
  {
    Held(Some(first), Cursor(Some(Bitmap(High(first), Lows(Low(first) + 1, m))), []))
  }

  function RunOf(first: u64, m: nat): Bitmap
    requires Low(first) + m < TWO_32
  {
    Bitmap(High(first), Lows(Low(first), m + 1))
  }

  lemma {:induction false} RunRefilled(c: Cursor, first: u64, m: nat)
    requires Low(first) + m < TWO_32 && c.Valid() && c == Cursor(Some(RunOf(first, m)), [])
    ensures Refilled(c) == AtRun(first, m)
  {
    hide Positions, ValidTreemap, Refilled, NextOf;
    SplitJoin(first);
    RefilledFromInner(RunOf(first, m), []);
    assert Lows(Low(first), m + 1)[1..] == Lows(Low(first) + 1, m);
  }

  /** Rows of the same bitmap before the run do not touch it. */
  lemma {:induction false} RunStays(first: u64, m: nat, end: u64)
    requires Low(first) + m < TWO_32 && end <= first && High(end) == High(first) && AtRun(first, m).Valid()
    ensures Skipped(AtRun(first, m), end) == AtRun(first, m) && TakenUntil(AtRun(first, m), end) == AtRun(first, m)
  {
    hide Refilled;
    assert Low(end) <= Low(first);
    FromAll(Lows(Low(first) + 1, m), Low(end));
  }

  /** One position just before the bitmap of the run is cached. */
  function BeforeRun(last: u64, first: u64, m: nat): Held
    requires Low(first) + m < TWO_32
  {
    Held(Some(last), Cursor(Some(Bitmap(High(last), [])), [RunOf(first, m)]))
  }

  /** The group that holds that position brings the run to the front, whether it is selected or skipped. */
  lemma {:induction false} RunReached(last: u64, first: u64, m: nat, end: u64)
    requires Low(first) + m < TWO_32 && BeforeRun(last, first, m).Valid()
    requires High(last) + 1 == High(first) == High(end) && last < end <= first
    requires Cursor(Some(RunOf(first, m)), []).Valid()
    ensures Skipped(BeforeRun(last, first, m), end) == AtRun(first, m)
    ensures TakenUntil(BeforeRun(last, first, m), end) == AtRun(first, m)
  {
    hide Refilled, Positions;
    var h, b := BeforeRun(last, first, m), RunOf(first, m);
    assert h.rest.outer == [b] && h.rest.outer[1..] == [];
    FromAll(b.lows, Low(end));
    assert Advanced(h.rest, end) == Advanced(Cursor(Some(b), []), end) == Cursor(Some(b), []);
    RunRefilled(Cursor(Some(b), []), first, m);
    assert [b] + [] == [b];
    RefilledFromOuter(h.rest.inner, b, []);
    RefilledFromInner(b, []);
    assert Refilled(h.rest) == AtRun(first, m);
    assert TakenUntil(AtRun(first, m), end) == AtRun(first, m);
  }

  /** The deletes for a group that starts in the last bitmap before its end: a run of its rows, and one row before. */
  function RunDeletes(first: u64, m: nat): Treemap
    requires Low(first) + m < TWO_32
  {
    if High(first) == 0 then [RunOf(first, m)] else [Bitmap(High(first) - 1, [0xFFFF_FFFF]), RunOf(first, m)]
  }

  /** What the walk over them holds on reaching row `base`. */
  function RunHeld(first: u64, m: nat, base: nat): Held
    requires Low(first) + m < TWO_32
  {
    if base < High(first) * TWO_32 then BeforeRun(High(first) * TWO_32 - 1, first, m) else AtRun(first, m)
  }

  lemma {:induction false} RunAlone(first: u64, m: nat)
    requires Low(first) + m < TWO_32
    ensures var t := [RunOf(first, m)];
            && ValidTreemap(t) && Cursor(None, t).Valid() && Cursor(Some(RunOf(first, m)), []).Valid()
            && Refilled(Cursor(None, t)) == AtRun(first, m)
  {
    hide Refilled, Positions, High, Low;
    var b := RunOf(first, m);
    assert Cursor(None, [b]).Bitmaps() == [b] && Cursor(Some(b), []).Bitmaps() == [b];
    assert [b] == [b] + [];
    RefilledFromOuter(None, b, []);
    RefilledFromInner(b, []);
    RunRefilled(Cursor(Some(b), []), first, m);
  }

  lemma {:induction false} RunStarts(first: u64, m: nat)
    requires Low(first) + m < TWO_32
    ensures var t := RunDeletes(first, m);
            && ValidTreemap(t) && Cursor(None, t).Valid() && Cursor(Some(RunOf(first, m)), []).Valid()
            && Refilled(Cursor(None, t)) == RunHeld(first, m, 0)
  {
    hide Refilled, Positions, AtRun, RunOf, High, Low, ValidTreemap;
    RunAlone(first, m);
    if High(first) > 0 {
      var b := RunOf(first, m);
      JustBefore(first, 0);
      LastOfBitmap(High(first) - 1);
      RunShape(first, m);
      TwoBitmaps(High(first) * TWO_32 - 1, b);
    }
  }

  lemma {:induction false} RunShape(first: u64, m: nat)
    requires Low(first) + m < TWO_32
    ensures var b := RunOf(first, m); b.high == High(first) && Ascending(b.lows) && b.lows != []
  {
  }

  lemma {:induction false} LastOfBitmap(high: u32)
    requires high + 1 < TWO_32
    ensures var last := (high + 1) * TWO_32 - 1; last < TWO_64 && High(last) == high && Low(last) == 0xFFFF_FFFF
  {
    JoinOrder(high, 0xFFFF_FFFF, 0, 0);
  }

  lemma {:induction false} RunStep(first: u64, m: nat, base: nat, end: u64)
    requires Low(first) + m < TWO_32 && base <= end <= first && RunHeld(first, m, base).Valid()
    requires Cursor(Some(RunOf(first, m)), []).Valid()
    ensures Skipped(RunHeld(first, m, base), end) == TakenUntil(RunHeld(first, m, base), end) == RunHeld(first, m, end)
  {
    hide Skipped, TakenUntil, AtRun, BeforeRun, High, Low;
    if base < High(first) * TWO_32 {
      JustBefore(first, end);
      var last: u64 := High(first) * TWO_32 - 1;
      if end <= last {
        RunWaits(last, first, m, end);
      } else {
        RunReached(last, first, m, end);
      }
    } else {
      JustBefore(first, end);
      RunStays(first, m, end);
    }
  }

  lemma {:induction false} JustBefore(first: u64, end: u64)
    requires end <= first
    ensures end >= High(first) * TWO_32 ==> High(end) == High(first)
    ensures High(first) > 0 ==> High(High(first) * TWO_32 - 1) + 1 == High(first)
  {
  }

  lemma {:induction false} RunWaits(last: u64, first: u64, m: nat, end: u64)
    requires Low(first) + m < TWO_32 && BeforeRun(last, first, m).Valid() && end <= last
    ensures Skipped(BeforeRun(last, first, m), end) == TakenUntil(BeforeRun(last, first, m), end) ==
            BeforeRun(last, first, m)
  {
    AloneStays(BeforeRun(last, first, m), end);
  }

  lemma {:induction false} RunUntil(groups: seq<nat>, selected: Option<seq<nat>>, first: u64, m: nat, g: nat)
    requires g <= |groups| && TotalRows(groups) < TWO_64 && Low(first) + m < TWO_32 && Base(groups, g) <= first
    ensures ValidTreemap(RunDeletes(first, m))
    ensures Walk(groups, selected, RunDeletes(first, m), g) == RunHeld(first, m, Base(groups, g))
  {
    hide *;
    RunStarts(first, m);
    if g == 0 {
      WalkStarts(groups, selected, RunDeletes(first, m));
    } else {
      BaseMonotone(groups, g - 1, g);
      BaseMonotone(groups, g, |groups|);
      RunUntil(groups, selected, first, m, g - 1);
      WalkStep(groups, selected, RunDeletes(first, m), g - 1);
      RunStep(first, m, Base(groups, g - 1), Base(groups, g));
    }
  }

  lemma {:induction false} RunGoesStale(first: u64, m: nat, end: u64)
    requires Low(first) + m < TWO_32 && m > 0 && AtRun(first, m).Valid() && High(first) < High(end)
    ensures Stale(Skipped(AtRun(first, m), end), end, m)
  {
    hide Refilled, Positions;
    var h := AtRun(first, m);
    var b := h.rest.inner.value;
    assert Advanced(h.rest, end) == h.rest == Cursor(Some(b), []);
    RefilledFromInner(b, []);
    JoinOrder(b.high, b.lows[0], 0, 0);
  }

  lemma {:induction false} StallsNear(groups: seq<nat>, selected: Option<seq<nat>>, g: nat, s: nat)
    requires g < |groups| && TotalRows(groups) < TWO_64 && Stalls(groups, selected, g, s)
    requires Base(groups, g + 1) < TWO_64 && Base(groups, g) >= (High(Base(groups, g + 1)) - 1) * TWO_32
    ensures !RightForAll(groups, selected)
  {
    hide Base, Walk, Refilled, TakenUntil, Skipped, Positions, RightForAll, AtRun, BeforeRun, Stale;
    BaseMonotone(groups, g, g + 1);
    var first: u64, end: u64, m := Base(groups, g), Base(groups, g + 1), s - g;
    assert High(first) + 1 == High(end) && Low(first) + m < TWO_32;
    var t := RunDeletes(first, m);
    RunUntil(groups, selected, first, m, g);
    WalkStep(groups, selected, t, g);
    RunGoesStale(first, m, end);
    StaleStopsWalk(groups, selected, t, g, s);
  }

  /**
   The walk is right for every delete vector if and only if no skipped row group can drop a delete of a row group
   selected later, or leave a stale delete behind for the next selected one.
   */
  lemma {:induction false} RightWhenSafe(groups: seq<nat>, selected: Option<seq<nat>>)
    requires TotalRows(groups) < TWO_64
    ensures RightForAll(groups, selected) <==> SafeSelection(groups, selected)
  {
    hide Base, Drops, Stalls, Served, NeverStale, Members;
    if SafeSelection(groups, selected) {
      forall t: Treemap | ValidTreemap(t)
        ensures NeverStale(groups, selected, t) && Served(groups, selected, t, Members(t))
      {
        SafeIsRight(groups, selected, t);
      }
    } else if exists g: nat, p: u64 :: g < |groups| && Drops(groups, selected, g, p) {
      var g: nat, p: u64 :| g < |groups| && Drops(groups, selected, g, p);
      if Low(p) > 0 { DropsAboveZero(groups, selected, g, p); } else { DropsAtZero(groups, selected, g, p); }
    } else {
      var g: nat, s: nat :| g < |groups| && Stalls(groups, selected, g, s);
      BaseMonotone(groups, g + 1, |groups|);
      if Base(groups, g) < (High(Base(groups, g + 1)) - 1) * TWO_32 { StallsFar(groups, selected, g, s); }
      else { StallsNear(groups, selected, g, s); }
    }
  }

  /** In particular below 2^32 rows. */
  lemma {:induction false} SmallFilesSafe(groups: seq<nat>, selected: Option<seq<nat>>)
    requires TotalRows(groups) < TWO_32
    ensures SafeSelection(groups, selected)
  {
    hide Base, Drops, Stalls;
    forall g: nat, p: u64 | g < |groups| ensures !Drops(groups, selected, g, p) {
      SmallDropsNothing(groups, selected, g, p);
    }
    forall g: nat, s: nat | g < |groups| ensures !Stalls(groups, selected, g, s) {
      SmallStallsNever(groups, selected, g, s);
    }
  }

  lemma {:induction false} SmallDropsNothing(groups: seq<nat>, selected: Option<seq<nat>>, g: nat, p: u64)
    requires g < |groups| && TotalRows(groups) < TWO_32
    ensures !Drops(groups, selected, g, p)
  {
    hide Base, Drops, High;
    if Drops(groups, selected, g, p) {
      DropsBeyond(groups, selected, g, p);
      SelectedInFile(groups, selected, g + 1, p);
      SmallHigh(p);
    }
  }

  lemma {:induction false} DropsBeyond(groups: seq<nat>, selected: Option<seq<nat>>, g: nat, p: u64)
    requires g < |groups| && TotalRows(groups) < TWO_64 && Drops(groups, selected, g, p)
    ensures SelectedFrom(groups, selected, g + 1, p) && High(p) > 0
  {
    hide Base, SelectedFrom, High, Low;
  }

  lemma {:induction false} SelectedInFile(groups: seq<nat>, selected: Option<seq<nat>>, g: nat, p: nat)
    requires SelectedFrom(groups, selected, g, p)
    ensures p < TotalRows(groups)
  {
    hide Base;
    var k: nat :| g <= k < |groups| && IsSelected(selected, k) && Base(groups, k) <= p < Base(groups, k + 1);
    BaseMonotone(groups, k + 1, |groups|);
  }

  lemma {:induction false} SmallHigh(p: u64)
    requires p < TWO_32
    ensures High(p) == 0
  {
  }

  lemma {:induction false} SmallStallsNever(groups: seq<nat>, selected: Option<seq<nat>>, g: nat, s: nat)
    requires g < |groups| && TotalRows(groups) < TWO_32
    ensures !Stalls(groups, selected, g, s)
  {
    hide Base;
    BaseMonotone(groups, g + 1, |groups|);
  }

  /** And not only there: skipping a group without rows is safe before a group of any size. */
  lemma {:induction false} EmptyGroupSafe(n: nat)
    requires n < TWO_64
    ensures TotalRows([0, n]) == n && SafeSelection([0, n], Some([1]))
    ensures n >= TWO_32 ==> !ServableSelection([0, n], Some([1]))
  {
    hide Base;
    var groups, selected := [0, n], Some([1]);
    BaseStart(groups);
    BaseStep(groups, 0);
    BaseStep(groups, 1);
    assert IsSelected(selected, 1);
  }
}
