/**
 The positional delete vector: a two-level bitmap keyed by the high 32 bits of a row position,
 its iterator, and the iterator's `AdvanceTo`.

 The treemap is modelled as the ascending list of its (high bits, low bits) bitmaps, each bitmap
 as the ascending list of its members.
 */
module DeleteVectors {
  import opened Prelude

  datatype Bitmap = Bitmap(high: u32, lows: seq<u32>)

  type Treemap = seq<Bitmap>

  /** `u64::from(high) << 32 | u64::from(low)`. */
  function Join(high: u32, low: u32): (pos: u64) {
    high * TWO_32 + low
  }

  function High(pos: u64): u32 { pos / TWO_32 }

  function Low(pos: u64): u32 { pos % TWO_32 }

  lemma {:induction false} JoinOrder(h1: u32, l1: u32, h2: u32, l2: u32)
    ensures Join(h1, l1) < Join(h2, l2) <==> h1 < h2 || (h1 == h2 && l1 < l2)
    ensures High(Join(h1, l1)) == h1 && Low(Join(h1, l1)) == l1
  {
  }

  lemma {:induction false} SplitJoin(pos: u64)
    ensures Join(High(pos), Low(pos)) == pos
  {
  }

  // ---- the positions held by a bitmap and by a treemap ----

  function BitmapPositions(b: Bitmap): (s: seq<u64>)
    ensures |s| == |b.lows|
    ensures forall i :: 0 <= i < |s| ==> s[i] == Join(b.high, b.lows[i])
  {
    seq(|b.lows|, i requires 0 <= i < |b.lows| => Join(b.high, b.lows[i]))
  }

  function Positions(t: Treemap): (s: seq<u64>) {
    if t == [] then [] else BitmapPositions(t[0]) + Positions(t[1..])
  }

  ghost predicate ValidTreemap(t: Treemap) {
    && (forall i :: 0 <= i < |t| ==> Ascending(t[i].lows))
    && (forall i, j :: 0 <= i < j < |t| ==> t[i].high < t[j].high)
  }

  /** Every position of a treemap carries the high bits of one of its bitmaps. */
  lemma {:induction false} PositionsHigh(t: Treemap, i: nat)
    requires i < |Positions(t)|
    ensures exists k :: 0 <= k < |t| && High(Positions(t)[i]) == t[k].high && Low(Positions(t)[i]) in t[k].lows
  {
    var first := BitmapPositions(t[0]);
    if i < |first| {
      JoinOrder(t[0].high, t[0].lows[i], 0, 0);
      assert High(Positions(t)[i]) == t[0].high && Low(Positions(t)[i]) in t[0].lows;
    } else {
      PositionsHigh(t[1..], i - |first|);
      var k :| 0 <= k < |t[1..]| && High(Positions(t)[i]) == t[1..][k].high && Low(Positions(t)[i]) in t[1..][k].lows;
      assert t[1..][k] == t[k + 1];
    }
  }

  lemma {:induction false} PositionsAscending(t: Treemap)
    requires ValidTreemap(t)
    ensures Ascending(Positions(t))
  {
    if t != [] {
      var first, rest := BitmapPositions(t[0]), Positions(t[1..]);
      PositionsAscending(t[1..]);
      forall i, j | 0 <= i < j < |first + rest| ensures (first + rest)[i] < (first + rest)[j] {
        if j < |first| {
          JoinOrder(t[0].high, t[0].lows[i], t[0].high, t[0].lows[j]);
        } else if i < |first| {
          PositionsHigh(t[1..], j - |first|);
          var p := rest[j - |first|];
          SplitJoin(p);
          JoinOrder(t[0].high, t[0].lows[i], High(p), Low(p));
        }
      }
    }
  }

  // ---- filtering a list from a bound ----

  /** The members of `s` that are at least `bound`, in order. */
  function From(s: seq<int>, bound: int): (r: seq<int>)
    ensures forall x :: x in r <==> x in s && x >= bound
    ensures forall i :: 0 <= i < |r| ==> r[i] in s
  {
    if s == [] then []
    else if s[0] >= bound then [s[0]] + From(s[1..], bound)
    else From(s[1..], bound)
  }

  lemma {:induction false} FromAll(s: seq<int>, bound: int)
    requires forall i :: 0 <= i < |s| ==> s[i] >= bound
    ensures From(s, bound) == s
  {
    if s != [] {
      FromAll(s[1..], bound);
    }
  }

  lemma {:induction false} FromNone(s: seq<int>, bound: int)
    requires forall i :: 0 <= i < |s| ==> s[i] < bound
    ensures From(s, bound) == []
  {
    if s != [] {
      FromNone(s[1..], bound);
    }
  }

  lemma {:induction false} FromConcat(a: seq<int>, b: seq<int>, bound: int)
    ensures From(a + b, bound) == From(a, bound) + From(b, bound)
  {
    if a == [] {
      assert a + b == b;
    } else {
      assert (a + b)[1..] == a[1..] + b;
      FromConcat(a[1..], b, bound);
    }
  }

  lemma {:induction false} FromAscending(s: seq<int>, bound: int)
    requires Ascending(s)
    ensures Ascending(From(s, bound))
  {
    if s != [] {
      FromAscending(s[1..], bound);
      forall k | 0 <= k < |From(s[1..], bound)| ensures s[0] < From(s[1..], bound)[k] {
        assert From(s[1..], bound)[k] in s[1..];
      }
    }
  }

  // ---- the iterator ----

  /** What an iterator still has to yield: the rest of the current bitmap, then the later bitmaps. */
  datatype Cursor = Cursor(inner: Option<Bitmap>, outer: seq<Bitmap>) {
    function Bitmaps(): Treemap {
      if inner.Some? then [inner.value] + outer else outer
    }

    ghost predicate Valid() {
      ValidTreemap(Bitmaps())
    }

    function Remaining(): seq<u64> {
      Positions(Bitmaps())
    }

    /** `next` has been called: with no current bitmap there is none left either. */
    predicate Started() {
      inner.None? ==> outer == []
    }
  }

  /** Positions of a cursor with a current bitmap, split at that bitmap. */
  lemma {:induction false} RemainingSplit(c: Cursor)
    requires c.inner.Some?
    ensures c.Remaining() == BitmapPositions(c.inner.value) + Positions(c.outer)
  {
    assert c.Bitmaps()[1..] == c.outer;
  }

  lemma {:induction false} ValidTail(c: Cursor)
    requires c.Valid() && c.outer != []
    ensures Cursor(Some(c.outer[0]), c.outer[1..]).Valid()
    ensures Cursor(Some(c.outer[0]), c.outer[1..]).Remaining() == Positions(c.outer)
  {
    assert Cursor(Some(c.outer[0]), c.outer[1..]).Bitmaps() == c.outer;
    if c.inner.Some? { LaterBitmaps(c); }
  }

  /**
   `advance_to`, as it behaves: bitmaps with smaller high bits are dropped, but when they run out the
   iterator is left on the last one; the low bits are then applied to whatever bitmap is current,
   whether or not its high bits are those of `pos`.
   */
  function Advanced(c: Cursor, pos: u64): Cursor
    decreases |c.outer|
  {
    match c.inner
    case None => c
    case Some(b) =>
      if b.high < High(pos) then
        if c.outer == [] then c else Advanced(Cursor(Some(c.outer[0]), c.outer[1..]), pos)
      else
        var lows := From(b.lows, Low(pos));
        assert forall i :: 0 <= i < |lows| ==> lows[i] in b.lows;
        Cursor(Some(Bitmap(b.high, lows)), c.outer)
  }

  /**
   When `advance_to(pos)` does what its callers take it to do. It fails in two families of states:
   the current bitmap (the first one reaching the high bits of `pos`) lies beyond those high bits and
   has a member with smaller low bits, or every bitmap falls short of the high bits and the last one
   still has members. An iterator that was never started does not move at all.
   */
  predicate AdvanceIsExact(c: Cursor, pos: u64)
    decreases |c.outer|
  {
    match c.inner
    case None => c.Remaining() == [] || c.Remaining()[0] >= pos
    case Some(b) =>
      if b.high < High(pos) then
        if c.outer == [] then b.lows == []
        else AdvanceIsExact(Cursor(Some(c.outer[0]), c.outer[1..]), pos)
      else
        b.high == High(pos) || forall i :: 0 <= i < |b.lows| ==> b.lows[i] >= Low(pos)
  }

  /** `advance_to(pos)` leaves exactly the remaining positions at or after `pos`, in order, iff `AdvanceIsExact`. */
  lemma {:induction false} AdvanceExactness(c: Cursor, pos: u64)
    requires c.Valid()
    ensures Advanced(c, pos).Remaining() == From(c.Remaining(), pos) <==> AdvanceIsExact(c, pos)
    decreases |c.outer|
  {
    match c.inner
    case None =>
      FromExactness(c.Remaining(), pos);
      PositionsAscending(c.Bitmaps());
    case Some(b) =>
      if b.high >= High(pos) {
        LowBitsExactness(c, pos);
      } else {
        RemainingSplit(c);
        FromConcat(BitmapPositions(b), Positions(c.outer), pos);
        BitmapBelow(b, pos);
        if c.outer != [] {
          ValidTail(c);
          AdvanceExactness(Cursor(Some(c.outer[0]), c.outer[1..]), pos);
        } else {
          assert |c.Remaining()| == |b.lows|;
        }
      }
  }

  /** The step on the low bits, once a bitmap reaching the high bits of `pos` is current. */
  lemma {:induction false} LowBitsExactness(c: Cursor, pos: u64)
    requires c.Valid() && c.inner.Some? && c.inner.value.high >= High(pos)
    ensures Advanced(c, pos).Remaining() == From(c.Remaining(), pos) <==> AdvanceIsExact(c, pos)
  {
    var b, d := c.inner.value, Advanced(c, pos);
    RemainingSplit(c);
    RemainingSplit(d);
    FromConcat(BitmapPositions(b), Positions(c.outer), pos);
    LaterBitmaps(c);
    LaterBitmapsKept(c.outer, pos);
    if b.high == High(pos) {
      BitmapFrom(b, pos);
    } else {
      BitmapAbove(b, pos);
      CutLows(b.lows, Low(pos));
      assert From(c.Remaining(), pos) == c.Remaining();
      assert |d.Remaining()| == |From(b.lows, Low(pos))| + |Positions(c.outer)|;
      if |From(b.lows, Low(pos))| == |b.lows| {
        FromAll(b.lows, Low(pos));
      }
    }
  }

  lemma {:induction false} LaterBitmaps(c: Cursor)
    requires c.Valid() && c.inner.Some?
    ensures ValidTreemap(c.outer)
    ensures forall i :: 0 <= i < |c.outer| ==> c.outer[i].high > c.inner.value.high
  {
    assert c.Bitmaps()[1..] == c.outer;
    ValidSuffix(c.Bitmaps());
  }

  lemma {:induction false} ValidSuffix(t: Treemap)
    requires ValidTreemap(t) && t != []
    ensures ValidTreemap(t[1..])
    ensures forall i :: 0 <= i < |t[1..]| ==> t[1..][i].high > t[0].high
  {
  }

  lemma {:induction false} PrefixedValid(b: Bitmap, t: Treemap)
    requires Ascending(b.lows) && ValidTreemap(t)
    requires forall i :: 0 <= i < |t| ==> t[i].high > b.high
    ensures ValidTreemap([b] + t)
  {
  }

  lemma {:induction false} FromExactness(s: seq<int>, bound: int)
    ensures s == From(s, bound) <==> forall i :: 0 <= i < |s| ==> s[i] >= bound
  {
    CutLows(s, bound);
    if |From(s, bound)| == |s| { FromAll(s, bound); }
  }

  lemma {:induction false} BitmapBelow(b: Bitmap, pos: u64)
    requires b.high < High(pos)
    ensures From(BitmapPositions(b), pos) == []
  {
    SplitJoin(pos);
    forall i | 0 <= i < |b.lows| ensures BitmapPositions(b)[i] < pos {
      JoinOrder(b.high, b.lows[i], High(pos), Low(pos));
    }
    FromNone(BitmapPositions(b), pos);
  }

  lemma {:induction false} BitmapAbove(b: Bitmap, pos: u64)
    requires b.high > High(pos)
    ensures From(BitmapPositions(b), pos) == BitmapPositions(b)
  {
    SplitJoin(pos);
    forall i | 0 <= i < |b.lows| ensures BitmapPositions(b)[i] >= pos {
      JoinOrder(High(pos), Low(pos), b.high, b.lows[i]);
    }
    FromAll(BitmapPositions(b), pos);
  }

  /** Within the bitmap of `pos`, filtering the low bits is filtering the positions. */
  lemma {:induction false} BitmapFrom(b: Bitmap, pos: u64)
    requires b.high == High(pos)
    ensures var lows: seq<u32> := From(b.lows, Low(pos));
            From(BitmapPositions(b), pos) == BitmapPositions(Bitmap(b.high, lows))
    decreases |b.lows|
  {
    if b.lows != [] {
      var tail := Bitmap(b.high, b.lows[1..]);
      BitmapFrom(tail, pos);
      SplitJoin(pos);
      JoinOrder(b.high, b.lows[0], High(pos), Low(pos));
      assert BitmapPositions(b)[1..] == BitmapPositions(tail);
    }
  }

  lemma {:induction false} LaterBitmapsKept(t: Treemap, pos: u64)
    requires forall i :: 0 <= i < |t| ==> t[i].high > High(pos)
    ensures From(Positions(t), pos) == Positions(t)
  {
    SplitJoin(pos);
    forall i | 0 <= i < |Positions(t)| ensures Positions(t)[i] >= pos {
      PositionsHigh(t, i);
      var p := Positions(t)[i];
      SplitJoin(p);
      JoinOrder(High(pos), Low(pos), High(p), Low(p));
    }
    FromAll(Positions(t), pos);
  }

  lemma {:induction false} CutLows(s: seq<int>, bound: int)
    ensures |From(s, bound)| <= |s|
    ensures |From(s, bound)| == |s| <==> forall i :: 0 <= i < |s| ==> s[i] >= bound
  {
    if s != [] {
      CutLows(s[1..], bound);
      if s[0] >= bound && |From(s, bound)| == |s| {
        forall i | 0 <= i < |s| ensures s[i] >= bound {
          if i > 0 { assert s[i] == s[1..][i - 1]; }
        }
      }
    }
  }

  /**
   Below 2^32 the iterator is safe: it loses nothing from `[pos, 2^32)`, keeps nothing below `pos`, and
   invents nothing. What it may lose lies at or beyond 2^32.
   */
  lemma {:induction false} AdvanceBelow32(c: Cursor, pos: u64)
    requires c.Valid() && c.Started() && pos < TWO_32
    ensures var d := Advanced(c, pos);
            && d.Valid() && d.Started()
            && (forall x :: x in d.Remaining() ==> x in c.Remaining() && x >= pos)
            && (forall x :: x in c.Remaining() && pos <= x < TWO_32 ==> x in d.Remaining())
  {
    if c.inner.Some? {
      AdvancedValid(c, pos);
      AdvancedKeeps(c, pos);
    }
  }

  /** When the current bitmap reaches the high bits of `pos`, advancing only thins it out. */
  lemma {:induction false} AdvancedValid(c: Cursor, pos: u64)
    requires c.Valid() && c.inner.Some? && c.inner.value.high >= High(pos)
    ensures Advanced(c, pos).Valid()
  {
    var b, d := c.inner.value, Advanced(c, pos);
    assert c.Bitmaps()[0] == b;
    FromAscending(b.lows, Low(pos));
    forall i | 0 <= i < |d.Bitmaps()|
      ensures Ascending(d.Bitmaps()[i].lows) && d.Bitmaps()[i].high == c.Bitmaps()[i].high
    {
      assert i > 0 ==> d.Bitmaps()[i] == c.Bitmaps()[i];
    }
  }

  lemma {:induction false} AdvancedKeeps(c: Cursor, pos: u64)
    requires c.Valid() && c.inner.Some? && pos < TWO_32
    ensures forall x :: x in Advanced(c, pos).Remaining() ==> x in c.Remaining() && x >= pos
    ensures forall x :: x in c.Remaining() && pos <= x < TWO_32 ==> x in Advanced(c, pos).Remaining()
  {
    if c.inner.value.high == 0 {
      AdvanceExactness(c, pos);
      assert Advanced(c, pos).Remaining() == From(c.Remaining(), pos);
    } else {
      AdvancedBeyond(c, pos);
    }
  }

  /** From a bitmap beyond the first one, every position is past `pos` anyway. */
  lemma {:induction false} AdvancedBeyond(c: Cursor, pos: u64)
    requires c.Valid() && c.inner.Some? && c.inner.value.high > 0 && pos < TWO_32
    ensures forall x :: x in Advanced(c, pos).Remaining() ==> x in c.Remaining()
    ensures forall x :: x in c.Remaining() ==> x >= TWO_32
  {
    var b, d := c.inner.value, Advanced(c, pos);
    LaterBitmaps(c);
    AllHigh(c.Bitmaps());
    BitmapSubset(b, d.inner.value);
    RemainingSplit(c);
    RemainingSplit(d);
    hide Positions, BitmapPositions, Advanced;
  }

  /**
   Beyond 2^32 both failure families are reachable. With 2^32 + 1 already taken out of {2^32 + 1, 2^32 + 2},
   skipping a row group that ends at row 10 drops 2^32 + 2. With 5 taken out of {5, 7}, skipping a row group
   that ends at row 2^32 leaves 7 behind, and the selection loop would then never pass it.
   */
  lemma {:induction false} AdvanceFailsBeyond32()
    ensures var c := Cursor(Some(Bitmap(1, [2])), []);
            && !AdvanceIsExact(c, 10)
            && TWO_32 + 2 in c.Remaining() && TWO_32 + 2 !in Advanced(c, 10).Remaining()
    ensures var c := Cursor(Some(Bitmap(0, [7])), []);
            && !AdvanceIsExact(c, TWO_32)
            && Advanced(c, TWO_32).Remaining() == [7]
  {
    var c := Cursor(Some(Bitmap(1, [2])), []);
    assert c.Bitmaps() == [Bitmap(1, [2])];
    assert c.Remaining()[0] == Join(1, 2);
    var d := Cursor(Some(Bitmap(0, [7])), []);
    assert d.Bitmaps() == [Bitmap(0, [7])];
    assert d.Remaining() == [Join(0, 7)];
  }

  lemma {:induction false} BitmapSubset(b: Bitmap, kept: Bitmap)
    requires kept.high == b.high && forall i :: 0 <= i < |kept.lows| ==> kept.lows[i] in b.lows
    ensures forall x :: x in BitmapPositions(kept) ==> x in BitmapPositions(b)
  {
    forall i | 0 <= i < |kept.lows| ensures BitmapPositions(kept)[i] in BitmapPositions(b) {
      assert kept.lows[i] in b.lows;
      var j :| 0 <= j < |b.lows| && b.lows[j] == kept.lows[i];
      assert BitmapPositions(b)[j] == BitmapPositions(kept)[i];
    }
  }

  lemma {:induction false} AllHigh(t: Treemap)
    requires forall i :: 0 <= i < |t| ==> t[i].high > 0
    ensures forall x :: x in Positions(t) ==> x >= TWO_32
  {
    forall i | 0 <= i < |Positions(t)| ensures Positions(t)[i] >= TWO_32 {
      PositionsHigh(t, i);
      SplitJoin(Positions(t)[i]);
    }
  }

  lemma {:induction false} TakeLow(c: Cursor)
    requires c.Valid() && c.inner.Some? && c.inner.value.lows != []
    ensures var b := c.inner.value;
            var d := Cursor(Some(Bitmap(b.high, b.lows[1..])), c.outer);
            d.Valid() && c.Remaining() == [Join(b.high, b.lows[0])] + d.Remaining()
  {
    hide Positions, BitmapPositions, Cursor.Valid;
    var b := c.inner.value;
    var rest := Bitmap(b.high, b.lows[1..]);
    TakeLowValid(c);
    RemainingSplit(c);
    RemainingSplit(Cursor(Some(rest), c.outer));
    BitmapHead(b);
    Associates([Join(b.high, b.lows[0])], BitmapPositions(rest), Positions(c.outer));
  }

  lemma {:induction false} TakeLowValid(c: Cursor)
    requires c.Valid() && c.inner.Some? && c.inner.value.lows != []
    ensures Cursor(Some(Bitmap(c.inner.value.high, c.inner.value.lows[1..])), c.outer).Valid()
  {
    hide Positions, BitmapPositions;
    assert c.Bitmaps()[0] == c.inner.value;
    LaterBitmaps(c);
    PrefixedValid(Bitmap(c.inner.value.high, c.inner.value.lows[1..]), c.outer);
  }

  lemma {:induction false} BitmapHead(b: Bitmap)
    requires b.lows != []
    ensures BitmapPositions(b) == [Join(b.high, b.lows[0])] + BitmapPositions(Bitmap(b.high, b.lows[1..]))
  {
  }

  lemma {:induction false} TakeBitmap(c: Cursor)
    requires c.Valid() && c.outer != [] && (c.inner.Some? ==> c.inner.value.lows == [])
    ensures var d := Cursor(Some(c.outer[0]), c.outer[1..]); d.Valid() && d.Remaining() == c.Remaining()
  {
    ValidTail(c);
    if c.inner.Some? {
      RemainingSplit(c);
      assert BitmapPositions(c.inner.value) == [];
    }
  }

  lemma {:induction false} NothingLeft(c: Cursor)
    requires c.outer == [] && (c.inner.Some? ==> c.inner.value.lows == [])
    ensures c.Remaining() == []
  {
    if c.inner.Some? {
      RemainingSplit(c);
    }
  }

  /** `next`: the first member of the current bitmap, else the next bitmap is made current and asked. */
  function NextOf(c: Cursor): (Option<u64>, Cursor)
    decreases |c.outer|
  {
    if c.inner.Some? && c.inner.value.lows != [] then
      var b := c.inner.value;
      (Some(Join(b.high, b.lows[0])), Cursor(Some(Bitmap(b.high, b.lows[1..])), c.outer))
    else if c.outer == [] then (None, c)
    else NextOf(Cursor(Some(c.outer[0]), c.outer[1..]))
  }

  /** The first remaining position is yielded and exactly the others are left; at the end it stays at the end. */
  lemma {:induction false} NextOfMeaning(c: Cursor)
    requires c.Valid()
    ensures var (r, d) := NextOf(c);
            && d.Valid() && d.Started()
            && if c.Remaining() == [] then r == None && d.Remaining() == []
               else r == Some(c.Remaining()[0]) && d.Remaining() == c.Remaining()[1..]
    decreases |c.outer|
  {
    hide Positions, BitmapPositions, ValidTreemap;
    if c.inner.Some? && c.inner.value.lows != [] {
      TakeLow(c);
    } else if c.outer == [] {
      NothingLeft(c);
    } else {
      TakeBitmap(c);
      NextOfMeaning(Cursor(Some(c.outer[0]), c.outer[1..]));
    }
  }

  /** Advancing keeps a cursor in order and only drops positions. */
  lemma {:induction false} AdvancedIsPart(c: Cursor, pos: u64)
    requires c.Valid() && c.Started()
    ensures Advanced(c, pos).Valid() && Advanced(c, pos).Started()
    ensures forall x :: x in Advanced(c, pos).Remaining() ==> x in c.Remaining()
    decreases |c.outer|
  {
    if c.inner.Some? {
      var b := c.inner.value;
      RemainingSplit(c);
      if b.high >= High(pos) {
        AdvancedValid(c, pos);
        BitmapSubset(b, Advanced(c, pos).inner.value);
        RemainingSplit(Advanced(c, pos));
      } else if c.outer != [] {
        ValidTail(c);
        AdvancedIsPart(Cursor(Some(c.outer[0]), c.outer[1..]), pos);
      }
    }
  }

  /** A delete vector's iterator, updated in place by `Next` and `AdvanceTo`. */
  class DeleteVectorIterator {
    var outer: seq<Bitmap>
    var inner: Option<Bitmap>

    function State(): Cursor reads this { Cursor(inner, outer) }

    constructor (bitmaps: seq<Bitmap>)
      ensures State() == Cursor(None, bitmaps)
    {
      outer := bitmaps;
      inner := None;
    }

    /** Yields the remaining positions one by one, in ascending order. */
    method Next() returns (r: Option<u64>)
      requires State().Valid()
      modifies this
      ensures (r, State()) == NextOf(old(State()))
      ensures State().Valid() && State().Started()
      ensures var before := old(State().Remaining());
              if before == [] then r == None && State().Remaining() == []
              else r == Some(before[0]) && State().Remaining() == before[1..]
      decreases |outer|
    {
      hide Positions, BitmapPositions, ValidTreemap;
      NextOfMeaning(State());
      if inner.Some? {
        var b := inner.value;
        if b.lows != [] {
          inner := Some(Bitmap(b.high, b.lows[1..]));
          return Some(Join(b.high, b.lows[0]));
        }
      }
      if outer == [] { return None; }
      TakeBitmap(State());
      inner, outer := Some(outer[0]), outer[1..];
      r := Next();
    }

    /** The in-place form of `Advanced`. */
    method AdvanceTo(pos: u64)
      modifies this
      ensures State() == Advanced(old(State()), pos)
    {
      var hi, lo := High(pos), Low(pos);
      if inner.None? { return; }
      while inner.value.high < hi
        invariant inner.Some?
        invariant Advanced(State(), pos) == Advanced(old(State()), pos)
        decreases |outer|
      {
        if outer == [] { return; }
        inner, outer := Some(outer[0]), outer[1..];
      }
      var kept := From(inner.value.lows, lo);
      assert forall i :: 0 <= i < |kept| ==> kept[i] in inner.value.lows;
      inner := Some(Bitmap(inner.value.high, kept));
    }
  }

  // ---- insertion ----

  function InsertLow(lows: seq<u32>, low: u32): (r: seq<u32>)
    ensures forall x :: x in r <==> x in lows || x == low
  {
    if lows == [] || low < lows[0] then [low] + lows
    else if low == lows[0] then lows
    else [lows[0]] + InsertLow(lows[1..], low)
  }

  lemma {:induction false} InsertLowAscending(lows: seq<u32>, low: u32)
    requires Ascending(lows)
    ensures Ascending(InsertLow(lows, low))
  {
    if lows != [] && low > lows[0] {
      InsertLowAscending(lows[1..], low);
      var r := InsertLow(lows[1..], low);
      forall k | 0 <= k < |r| ensures lows[0] < r[k] { assert r[k] in r; }
    }
  }

  /** `RoaringTreemap::insert`: the bitmap of the position's high bits is found or created. */
  function Inserted(t: Treemap, pos: u64): Treemap {
    if t == [] || High(pos) < t[0].high then [Bitmap(High(pos), [Low(pos)])] + t
    else if High(pos) == t[0].high then [Bitmap(t[0].high, InsertLow(t[0].lows, Low(pos)))] + t[1..]
    else [t[0]] + Inserted(t[1..], pos)
  }

  lemma {:induction false} BitmapMembers(b: Bitmap)
    ensures forall x: u64 :: x in BitmapPositions(b) <==> High(x) == b.high && Low(x) in b.lows
  {
    forall x: u64 ensures x in BitmapPositions(b) <==> High(x) == b.high && Low(x) in b.lows {
      if x in BitmapPositions(b) {
        var i :| 0 <= i < |b.lows| && BitmapPositions(b)[i] == x;
        JoinOrder(b.high, b.lows[i], 0, 0);
      }
      if High(x) == b.high && Low(x) in b.lows {
        var i :| 0 <= i < |b.lows| && b.lows[i] == Low(x);
        SplitJoin(x);
        assert BitmapPositions(b)[i] == x;
      }
    }
  }

  lemma {:induction false} InsertMembers(t: Treemap, pos: u64)
    requires ValidTreemap(t)
    ensures ValidTreemap(Inserted(t, pos))
    ensures forall x: u64 :: x in Positions(Inserted(t, pos)) <==> x in Positions(t) || x == pos
  {
    SplitJoin(pos);
    forall x: u64 { SplitJoin(x); }
    var r := Inserted(t, pos);
    BitmapMembers(Bitmap(High(pos), [Low(pos)]));
    if t == [] || High(pos) < t[0].high {
      assert r[1..] == t;
    } else if High(pos) == t[0].high {
      BitmapMembers(t[0]);
      BitmapMembers(r[0]);
      InsertLowAscending(t[0].lows, Low(pos));
      assert r[1..] == t[1..];
    } else {
      InsertMembers(t[1..], pos);
      assert r[1..] == Inserted(t[1..], pos);
      InsertHighs(t[1..], pos, t[0].high);
    }
  }

  lemma {:induction false} InsertHighs(t: Treemap, pos: u64, bound: u32)
    requires forall i :: 0 <= i < |t| ==> bound < t[i].high
    requires bound < High(pos)
    ensures forall i :: 0 <= i < |Inserted(t, pos)| ==> bound < Inserted(t, pos)[i].high
  {
    if !(t == [] || High(pos) <= t[0].high) {
      InsertHighs(t[1..], pos, bound);
    }
  }

  ghost function SetOf(s: seq<u64>): set<u64> { set x | x in s }

  ghost function Members(t: Treemap): set<u64> { SetOf(Positions(t)) }

  lemma {:induction false} InsertedSet(t: Treemap, pos: u64)
    requires ValidTreemap(t)
    ensures ValidTreemap(Inserted(t, pos)) && Members(Inserted(t, pos)) == Members(t) + {pos}
  {
    InsertMembers(t, pos);
  }

  function InsertedAll(t: Treemap, more: seq<u64>): Treemap
    decreases |more|
  {
    if more == [] then t else InsertedAll(Inserted(t, more[0]), more[1..])
  }

  lemma {:induction false} InsertedAllSet(t: Treemap, more: seq<u64>)
    requires ValidTreemap(t)
    ensures ValidTreemap(InsertedAll(t, more)) && Members(InsertedAll(t, more)) == Members(t) + SetOf(more)
    decreases |more|
  {
    if more != [] {
      InsertedSet(t, more[0]);
      InsertedAllSet(Inserted(t, more[0]), more[1..]);
      assert more == [more[0]] + more[1..];
    }
  }

  ghost predicate AllBelow(s: set<u64>, bound: u64) { forall x :: x in s ==> x < bound }

  /** How many leading elements of `more` can be appended after `max`, each beyond the one before it. */
  function AppendablePrefix(max: Option<u64>, more: seq<u64>): (k: nat)
    ensures k <= |more|
    decreases |more|
  {
    if more == [] || (max.Some? && more[0] <= max.value) then 0
    else 1 + AppendablePrefix(Some(more[0]), more[1..])
  }

  lemma {:induction false} AppendableWhenAscending(max: Option<u64>, more: seq<u64>)
    ensures AppendablePrefix(max, more) == |more| <==>
            Ascending(more) && (more == [] || max.None? || max.value < more[0])
    ensures Ascending(more[..AppendablePrefix(max, more)])
    decreases |more|
  {
    if more != [] && (max.None? || max.value < more[0]) {
      var k := AppendablePrefix(Some(more[0]), more[1..]);
      AppendableWhenAscending(Some(more[0]), more[1..]);
      var rest := more[1..][..k];
      assert more[..k + 1] == [more[0]] + rest;
      if k > 0 {
        assert forall j :: 0 <= j < |rest| ==> more[0] < rest[j] by { assert rest[0] == more[1]; }
      }
      if Ascending(more) && |more| > 1 {
        assert forall i :: 0 <= i < |more[1..]| ==> more[1..][i] == more[i + 1];
        assert more[0] < more[1];
      }
    }
  }

  lemma {:induction false} AppendableStops(max: Option<u64>, more: seq<u64>)
    ensures var k := AppendablePrefix(max, more);
            && (k < |more| ==> if k == 0 then max.Some? && more[0] <= max.value else more[k] <= more[k - 1])
            && (k > 0 && max.Some? ==> max.value < more[0])
    decreases |more|
  {
    if more != [] && (max.None? || max.value < more[0]) {
      AppendableStops(Some(more[0]), more[1..]);
    }
  }

  function Largest(t: Treemap): Option<u64> {
    var all := Positions(t);
    if all == [] then None else Some(all[|all| - 1])
  }

  /** The first `k` positions can be appended, and position `k`, if there is one, cannot. */
  ghost predicate AppendsExactly(present: set<u64>, positions: seq<u64>, k: nat) {
    && k <= |positions| && Ascending(positions[..k])
    && (k > 0 ==> AllBelow(present, positions[0]))
    && (k < |positions| ==> if k == 0 then !AllBelow(present, positions[0]) else positions[k] <= positions[k - 1])
  }

  lemma {:induction false} LargestBounds(t: Treemap, x: u64)
    requires ValidTreemap(t)
    ensures AllBelow(Members(t), x) <==> Largest(t).None? || Largest(t).value < x
  {
    PositionsAscending(t);
    var all := Positions(t);
    if all != [] {
      assert all[|all| - 1] in Members(t);
      assert forall y :: y in all ==> y <= all[|all| - 1];
    }
  }

  lemma {:induction false} AppendFacts(t: Treemap, positions: seq<u64>)
    requires ValidTreemap(t)
    ensures var k := AppendablePrefix(Largest(t), positions);
            && AppendsExactly(Members(t), positions, k)
            && (k == |positions| <==> Ascending(positions) && (positions == [] || AllBelow(Members(t), positions[0])))
  {
    hide Members, ValidTreemap, Largest, AllBelow;
    AppendableWhenAscending(Largest(t), positions);
    AppendableStops(Largest(t), positions);
    if positions != [] { LargestBounds(t, positions[0]); }
  }

  /** The set of deleted row positions of one data file. */
  class DeleteVector {
    var inner: Treemap

    ghost predicate Valid() reads this { ValidTreemap(inner) }

    ghost function Deleted(): set<u64> reads this { Members(inner) }

    constructor ()
      ensures Valid() && Deleted() == {}
    {
      inner := [];
    }

    method Insert(pos: u64) returns (added: bool)
      requires Valid()
      modifies this
      ensures Valid() && Deleted() == old(Deleted()) + {pos}
      ensures added <==> pos !in old(Deleted())
    {
      added := pos !in Positions(inner);
      InsertedSet(inner, pos);
      inner := Inserted(inner, pos);
    }

    /**
     Bulk append. It succeeds iff the input is strictly ascending and lies beyond every position already
     present; a failed call has added exactly the positions before the first offending one.
     */
    method InsertPositions(positions: seq<u64>) returns (count: Result<nat>)
      requires Valid()
      modifies this
      ensures Valid()
      ensures count.Ok? <==>
              Ascending(positions) && (positions == [] || AllBelow(old(Deleted()), positions[0]))
      ensures count.Ok? ==> count.value == |positions| && Deleted() == old(Deleted()) + SetOf(positions)
      ensures exists k: nat :: k <= |positions| && AppendsExactly(old(Deleted()), positions, k) &&
                               Deleted() == old(Deleted()) + SetOf(positions[..k])
    {
      hide Members, ValidTreemap, SetOf, AllBelow, AppendsExactly;
      var k := AppendablePrefix(Largest(inner), positions);
      AppendFacts(inner, positions);
      InsertedAllSet(inner, positions[..k]);
      inner := InsertedAll(inner, positions[..k]);
      assert k == |positions| ==> positions[..k] == positions;
      count := if k < |positions| then Err else Ok(|positions|);
    }

    /** `|=`: the positions of `other` are merged into this vector; `other` is only read. */
    method BitOrAssign(other: DeleteVector)
      requires Valid() && other.Valid()
      modifies this
      ensures Valid() && Deleted() == old(Deleted()) + old(other.Deleted())
    {
      InsertedAllSet(inner, Positions(other.inner));
      inner := InsertedAll(inner, Positions(other.inner));
    }

    method Iter() returns (it: DeleteVectorIterator)
      requires Valid()
      ensures fresh(it) && it.State() == Cursor(None, inner) && it.State().Valid()
      ensures it.State().Remaining() == Positions(inner)
    {
      it := new DeleteVectorIterator(inner);
    }
  }
}
