/**
 The combining part of a file scan: row groups are chosen by byte range and by predicate, page and delete
 selections are intersected, and the row filter has the last word. The pruned scan returns exactly the rows a
 scan of every row would return.
 */
module ScanPruning {
  import opened Prelude
  import opened DeleteVectors
  import opened RowSelections
  import opened Predicates

  /** One scan task over one data file, with what the unseen evaluators answer for its final predicate. */
  datatype Scan = Scan(
    rows: seq<nat>,                                          // rows of each row group
    sizes: seq<nat>,                                         // compressed size of each row group
    start: u64,
    length: u64,
    hasPredicate: bool,
    truth: seq<Kleene>,                                      // the final predicate on each row of the file
    rowGroupFiltering: bool,
    rowSelection: bool,
    groupMayMatch: seq<Result<bool>>,                        // RowGroupMetricsEvaluator
    pageIndex: Option<seq<Result<seq<RowSelector>>>>)        // PageIndexEvaluator, when the file has a page index

  ghost predicate ValidScan(scan: Scan) {
    && |scan.sizes| == |scan.rows| == |scan.groupMayMatch|
    && (scan.pageIndex.Some? ==> |scan.pageIndex.value| == |scan.rows|)
    && |scan.truth| == TotalRows(scan.rows) < TWO_64
  }

  predicate Passes(scan: Scan, p: nat) {
    p < |scan.truth| && (scan.hasPredicate ==> scan.truth[p] == True)
  }

  /** Row group `g` holds no row on which the predicate is true. */
  ghost predicate NothingIn(scan: Scan, g: nat)
    requires g < |scan.rows|
  {
    forall p: nat :: Base(scan.rows, g) <= p < Base(scan.rows, g + 1) && p < |scan.truth| ==> scan.truth[p] != True
  }

  ghost predicate PagesConservative(scan: Scan, g: nat, runs: seq<RowSelector>)
    requires g < |scan.rows|
  {
    && |Expand(runs)| == scan.rows[g]
    && forall i: nat :: i < scan.rows[g] && !Expand(runs)[i] && Base(scan.rows, g) + i < |scan.truth| ==>
                          scan.truth[Base(scan.rows, g) + i] != True
  }

  predicate RuledOut(answer: Result<bool>) { answer.Ok? && !answer.value }

  predicate MayMatch(answer: Result<bool>) { answer.Ok? && answer.value }

  /** The hypothesis on the evaluators: neither ever drops a row on which the predicate is true. */
  ghost predicate Conservative(scan: Scan)
    requires ValidScan(scan)
  {
    && (forall g: nat :: g < |scan.rows| && RuledOut(scan.groupMayMatch[g]) ==> NothingIn(scan, g))
    && (scan.pageIndex.Some? ==> forall g: nat :: g < |scan.rows| && scan.pageIndex.value[g].Ok? ==>
                                               PagesConservative(scan, g, scan.pageIndex.value[g].value))
  }

  // ---- row groups by byte range and by predicate ----

  /** The indices below `n` that satisfy `f`, in ascending order. */
  function Indices(n: nat, f: nat -> bool): (s: seq<nat>)
    ensures forall i: nat :: i in s <==> i < n && f(i)
    ensures forall k :: 0 <= k < |s| ==> s[k] < n
  {
    if n == 0 then [] else Indices(n - 1, f) + if f(n - 1) then [n - 1] else []
  }

  lemma {:induction false} IndicesAscending(n: nat, f: nat -> bool)
    ensures Ascending(Indices(n, f))
  {
    if n > 0 { IndicesAscending(n - 1, f); }
  }

  /** Row groups are stored one after the other behind the 4-byte magic header. */
  predicate Overlaps(sizes: seq<nat>, start: nat, end: nat, g: nat) {
    g < |sizes| && 4 + Base(sizes, g) < end && start < 4 + Base(sizes, g + 1)
  }

  function ByteRangeGroups(sizes: seq<nat>, start: nat, end: nat): (s: seq<nat>)
    ensures forall g: nat :: g in s <==> Overlaps(sizes, start, end, g)
  {
    Indices(|sizes|, (g: nat) => Overlaps(sizes, start, end, g))
  }

  lemma {:induction false} ByteRangeAscending(sizes: seq<nat>, start: nat, end: nat)
    ensures Ascending(ByteRangeGroups(sizes, start, end))
    ensures forall g: nat :: g in ByteRangeGroups(sizes, start, end) ==> g < |sizes|
  {
    IndicesAscending(|sizes|, (g: nat) => Overlaps(sizes, start, end, g));
  }

  /** `start + length` in 64 bits. */
  function EndOf(start: u64, length: u64): u64 { (start + length) % TWO_64 }

  /**
   `filter_row_groups_by_byte_range`: in ascending order, exactly the row groups that share a byte with the range, the
   first one starting at byte 4. The end of the range wraps around in 64 bits.
   */
  method FilterRowGroupsByByteRange(sizes: seq<nat>, start: u64, length: u64) returns (selected: seq<nat>)
    ensures selected == ByteRangeGroups(sizes, start, EndOf(start, length)) && Ascending(selected)
    ensures start + length < TWO_64 ==>
              forall g: nat :: g in selected <==>
                g < |sizes| && 4 + Base(sizes, g) < start + length && start < 4 + Base(sizes, g + 1)
    ensures start + length >= TWO_64 ==>
              forall g: nat :: g in selected <==>
                g < |sizes| && 4 + Base(sizes, g) < start + length - TWO_64 && start < 4 + Base(sizes, g + 1)
  {
    hide Base, Indices;
    selected := [];
    var end := EndOf(start, length);
    var current := 4;
    ghost var f := (g: nat) => Overlaps(sizes, start, end, g);
    BaseStart(sizes);
    IndicesStep(0, f);
    for idx := 0 to |sizes|
      invariant current == 4 + Base(sizes, idx)
      invariant selected == Indices(idx, f)
    {
      BaseStep(sizes, idx);
      IndicesStep(idx + 1, f);
      var groupEnd := current + sizes[idx];
      if current < end && start < groupEnd {
        selected := selected + [idx];
      }
      current := groupEnd;
    }
    assert selected == ByteRangeGroups(sizes, start, end) by {
      SameIndices(|sizes|, f, (g: nat) => Overlaps(sizes, start, end, g));
    }
    ByteRangeAscending(sizes, start, end);
  }

  lemma {:induction false} SameIndices(n: nat, f: nat -> bool, h: nat -> bool)
    requires forall i: nat :: i < n ==> f(i) == h(i)
    ensures Indices(n, f) == Indices(n, h)
  {
    if n > 0 { SameIndices(n - 1, f, h); }
  }

  // ---- file splitting ----

  function Rows(lo: nat, hi: nat): (s: seq<nat>)
    requires lo <= hi
    ensures |s| == hi - lo && forall i :: 0 <= i < |s| ==> s[i] == lo + i
  {
    seq(hi - lo, i requires 0 <= i => lo + i)
  }

  predicate NonEmptyGroups(sizes: seq<nat>) { forall g :: 0 <= g < |sizes| ==> sizes[g] > 0 }

  lemma {:induction false} OffsetsIncrease(sizes: seq<nat>, g: nat, h: nat)
    requires NonEmptyGroups(sizes) && g < h <= |sizes|
    ensures Base(sizes, g) < Base(sizes, h)
    decreases h
  {
    hide Base;
    BaseStep(sizes, h - 1);
    if g < h - 1 { OffsetsIncrease(sizes, g, h - 1); }
  }

  /** A split that begins and ends at row-group boundaries selects exactly the groups between them. */
  lemma {:induction false} BoundarySplit(sizes: seq<nat>, a: nat, b: nat)
    requires NonEmptyGroups(sizes) && a <= b <= |sizes|
    ensures ByteRangeGroups(sizes, 4 + Base(sizes, a), 4 + Base(sizes, b)) == Rows(a, b)
  {
    hide Base;
    var start, end := 4 + Base(sizes, a), 4 + Base(sizes, b);
    forall g: nat | g < |sizes| ensures Overlaps(sizes, start, end, g) <==> a <= g < b {
      if g < a { if g + 1 < a { OffsetsIncrease(sizes, g + 1, a); } }
      if a <= g { OffsetsIncrease(sizes, a, g + 1); }
      if g < b { OffsetsIncrease(sizes, g, b); }
      if b < g { OffsetsIncrease(sizes, b, g); }
    }
    IndicesOfRange(|sizes|, a, b, (g: nat) => Overlaps(sizes, start, end, g));
  }

  lemma {:induction false} IndicesOfRange(n: nat, a: nat, b: nat, f: nat -> bool)
    requires a <= b && forall g: nat :: g < n ==> (f(g) <==> a <= g < b)
    ensures Indices(n, f) == if n <= a then [] else Rows(a, if n < b then n else b)
  {
    hide Rows, Indices;
    IndicesStep(n, f);
    if n > 0 {
      IndicesOfRange(n - 1, a, b, f);
      RowsStep(a, if n < b then n else b);
    }
  }

  lemma {:induction false} IndicesStep(n: nat, f: nat -> bool)
    ensures Indices(n, f) == if n == 0 then [] else if f(n - 1) then Indices(n - 1, f) + [n - 1] else Indices(n - 1, f)
  {
  }

  lemma {:induction false} RowsStep(lo: nat, hi: nat)
    ensures lo == hi ==> Rows(lo, hi) == []
    ensures lo < hi ==> Rows(lo, hi) == Rows(lo, hi - 1) + [hi - 1]
  {
  }

  /** What the consecutive splits at the given row-group boundaries select, one after the other. */
  function SplitSelections(sizes: seq<nat>, bounds: seq<nat>): seq<nat>
    requires forall i :: 0 <= i < |bounds| ==> bounds[i] <= |sizes|
  {
    if |bounds| < 2 then []
    else ByteRangeGroups(sizes, 4 + Base(sizes, bounds[0]), 4 + Base(sizes, bounds[1])) +
         SplitSelections(sizes, bounds[1..])
  }

  /** Cutting a file at row-group boundaries reads every row group once, in order. */
  lemma {:induction false} SplitsPartition(sizes: seq<nat>, bounds: seq<nat>)
    requires NonEmptyGroups(sizes) && bounds != []
    requires forall i :: 0 <= i < |bounds| ==> bounds[i] <= |sizes|
    requires forall i, j :: 0 <= i < j < |bounds| ==> bounds[i] <= bounds[j]
    ensures SplitSelections(sizes, bounds) == Rows(bounds[0], bounds[|bounds| - 1])
    decreases |bounds|
  {
    hide Base, ByteRangeGroups;
    if |bounds| >= 2 {
      SplitsPartition(sizes, bounds[1..]);
      BoundarySplit(sizes, bounds[0], bounds[1]);
    }
  }

  /** Wherever the consecutive splits are cut, every non-empty row group is selected by one of them. */
  lemma {:induction false} SplitsCover(sizes: seq<nat>, cuts: seq<nat>, g: nat) returns (j: nat)
    requires g < |sizes| && sizes[g] > 0 && |cuts| >= 2
    requires cuts[0] <= 4 && cuts[|cuts| - 1] >= 4 + Base(sizes, |sizes|)
    ensures j + 1 < |cuts| && g in ByteRangeGroups(sizes, cuts[j], cuts[j + 1])
  {
    hide Base;
    BaseStep(sizes, g);
    BaseMonotone(sizes, g + 1, |sizes|);
    j := 0;
    while cuts[j + 1] <= 4 + Base(sizes, g)
      invariant j + 1 < |cuts| && cuts[j] <= 4 + Base(sizes, g)
      decreases |cuts| - j
    {
      j := j + 1;
    }
  }

  predicate IsInside(sizes: seq<nat>, cut: nat, g: nat)
    requires g < |sizes|
  {
    4 + Base(sizes, g) < cut < 4 + Base(sizes, g + 1)
  }

  /** The number of cuts strictly inside row group `g`. */
  function CutsInside(sizes: seq<nat>, cuts: seq<nat>, g: nat): nat
    requires g < |sizes|
  {
    if cuts == [] then 0
    else CutsInside(sizes, cuts[..|cuts| - 1], g) + if IsInside(sizes, cuts[|cuts| - 1], g) then 1 else 0
  }

  /** The number of consecutive splits that select row group `g`. */
  function Readings(sizes: seq<nat>, cuts: seq<nat>, g: nat): nat
    requires g < |sizes|
  {
    var n := |cuts|;
    if n < 2 then 0
    else Readings(sizes, cuts[..n - 1], g) + if g in ByteRangeGroups(sizes, cuts[n - 2], cuts[n - 1]) then 1 else 0
  }

  predicate Sorted(cuts: seq<nat>) { forall i, j :: 0 <= i < j < |cuts| ==> cuts[i] <= cuts[j] }

  /** Splits up to a cut read the group once for each cut inside it, and once more if the last cut is behind it. */
  lemma {:induction false} ReadingsSoFar(sizes: seq<nat>, cuts: seq<nat>, g: nat)
    requires g < |sizes| && sizes[g] > 0 && cuts != [] && Sorted(cuts) && cuts[0] <= 4 + Base(sizes, g)
    ensures Readings(sizes, cuts, g) ==
            CutsInside(sizes, cuts, g) + if cuts[|cuts| - 1] < 4 + Base(sizes, g + 1) then 0 else 1
    decreases |cuts|
  {
    hide Base;
    BaseStep(sizes, g);
    var n := |cuts|;
    var front := cuts[..n - 1];
    if n == 1 {
      assert CutsInside(sizes, front, g) == 0;
    } else {
      assert front[n - 2] == cuts[n - 2];
      ReadingsSoFar(sizes, front, g);
      if cuts[n - 2] <= 4 + Base(sizes, g) { NoneInside(sizes, front, g); }
    }
  }

  lemma {:induction false} NoneInside(sizes: seq<nat>, cuts: seq<nat>, g: nat)
    requires g < |sizes|
    ensures CutsInside(sizes, cuts, g) == 0 <==> forall k :: 0 <= k < |cuts| ==> !IsInside(sizes, cuts[k], g)
  {
    hide IsInside;
    if cuts != [] { NoneInside(sizes, cuts[..|cuts| - 1], g); }
  }

  /**
   A row group is read once more for every cut inside it, so wherever the splits are cut its rows are read exactly once
   if and only if no cut is inside it.
   */
  lemma {:induction false} SplitsReadings(sizes: seq<nat>, cuts: seq<nat>, g: nat)
    requires g < |sizes| && sizes[g] > 0 && |cuts| >= 2 && Sorted(cuts)
    requires cuts[0] <= 4 && cuts[|cuts| - 1] >= 4 + Base(sizes, |sizes|)
    ensures Readings(sizes, cuts, g) == 1 + CutsInside(sizes, cuts, g)
    ensures Readings(sizes, cuts, g) == 1 <==> forall k :: 0 <= k < |cuts| ==> !IsInside(sizes, cuts[k], g)
  {
    hide Base, Readings, CutsInside, IsInside;
    BaseMonotone(sizes, g + 1, |sizes|);
    ReadingsSoFar(sizes, cuts, g);
    NoneInside(sizes, cuts, g);
  }

  function MatchingGroups(groupMayMatch: seq<Result<bool>>): (s: seq<nat>)
    ensures forall g: nat :: g in s <==> g < |groupMayMatch| && MayMatch(groupMayMatch[g])
  {
    Indices(|groupMayMatch|, (g: nat) => g < |groupMayMatch| && MayMatch(groupMayMatch[g]))
  }

  /** `get_selected_row_group_indices`: the groups the metrics evaluator cannot rule out, or its first error. */
  method GetSelectedRowGroupIndices(groupMayMatch: seq<Result<bool>>) returns (r: Result<seq<nat>>)
    ensures r.Ok? <==> forall g :: 0 <= g < |groupMayMatch| ==> groupMayMatch[g].Ok?
    ensures r.Ok? ==> r.value == MatchingGroups(groupMayMatch) && Ascending(r.value)
    ensures r.Ok? ==> forall g: nat :: g in r.value <==> g < |groupMayMatch| && groupMayMatch[g] == Ok(true)
  {
    var results := [];
    ghost var f := (g: nat) => g < |groupMayMatch| && MayMatch(groupMayMatch[g]);
    for idx := 0 to |groupMayMatch|
      invariant forall g :: 0 <= g < idx ==> groupMayMatch[g].Ok?
      invariant results == Indices(idx, f)
    {
      if groupMayMatch[idx].Err? { return Err; }
      if groupMayMatch[idx].value { results := results + [idx]; }
    }
    SameIndices(|groupMayMatch|, f, (g: nat) => g < |groupMayMatch| && MayMatch(groupMayMatch[g]));
    IndicesAscending(|groupMayMatch|, f);
    r := Ok(results);
  }

  /** The two lists of row groups, intersected in the order of the first. */
  function Intersect(a: seq<nat>, b: seq<nat>): (s: seq<nat>)
    ensures forall i: nat :: i in s <==> i in a && i in b
    ensures forall k :: 0 <= k < |s| ==> s[k] in a
  {
    if a == [] then []
    else (if a[0] in b then [a[0]] else []) + Intersect(a[1..], b)
  }

  lemma {:induction false} IntersectAscending(a: seq<nat>, b: seq<nat>)
    requires Ascending(a)
    ensures Ascending(Intersect(a, b))
  {
    if a != [] {
      IntersectAscending(a[1..], b);
      var rest := Intersect(a[1..], b);
      forall k | 0 <= k < |rest| ensures a[0] < rest[k] { assert rest[k] in a[1..]; }
    }
  }

  // ---- page selection ----

  ghost predicate PagesOk(scan: Scan, selected: Option<seq<nat>>) {
    && scan.pageIndex.Some?
    && forall g: nat :: g < |scan.pageIndex.value| && IsSelected(selected, g) ==> scan.pageIndex.value[g].Ok?
  }

  /** The page selection of group `g` if it is selected; groups whose evaluation failed count for nothing. */
  function PageChunk(scan: Scan, selected: Option<seq<nat>>, g: nat): seq<RowSelector> {
    if IsSelected(selected, g) && scan.pageIndex.Some? && g < |scan.pageIndex.value| && scan.pageIndex.value[g].Ok?
    then scan.pageIndex.value[g].value else []
  }

  /** The page selections of the selected groups below `g`, one after the other. */
  function PageRuns(scan: Scan, selected: Option<seq<nat>>, g: nat): seq<RowSelector> {
    if g == 0 then [] else PageRuns(scan, selected, g - 1) + PageChunk(scan, selected, g - 1)
  }

  lemma {:induction false} NoMorePages(scan: Scan, selected: Option<seq<nat>>, g: nat, h: nat)
    requires g <= h && forall k: nat :: g <= k < h ==> !IsSelected(selected, k)
    ensures PageRuns(scan, selected, h) == PageRuns(scan, selected, g)
  {
    if g < h { NoMorePages(scan, selected, g, h - 1); }
  }

  function Joined<T>(xs: seq<seq<T>>): seq<T> {
    if xs == [] then [] else Joined(xs[..|xs| - 1]) + xs[|xs| - 1]
  }

  /** The page selections that the list of row groups names, group after group. */
  function NamedPages(scan: Scan, groups: seq<nat>): (s: seq<seq<RowSelector>>)
    requires scan.pageIndex.Some? && forall k :: 0 <= k < |groups| ==>
             groups[k] < |scan.pageIndex.value| && scan.pageIndex.value[groups[k]].Ok?
    ensures |s| == |groups| && forall k :: 0 <= k < |s| ==> s[k] == scan.pageIndex.value[groups[k]].value
  {
    seq(|groups|, k requires 0 <= k < |groups| => scan.pageIndex.value[groups[k]].value)
  }

  /** The page runs up to a row group are those of the selected groups before it. */
  lemma {:induction false} PageRunsNamed(scan: Scan, groups: seq<nat>, k: nat, g: nat)
    requires scan.pageIndex.Some? && forall i :: 0 <= i < |groups| ==>
             groups[i] < |scan.pageIndex.value| && scan.pageIndex.value[groups[i]].Ok?
    requires Ascending(groups) && k <= |groups|
    requires (k > 0 ==> groups[k - 1] < g) && (k < |groups| ==> g <= groups[k])
    ensures PageRuns(scan, Some(groups), g) == Joined(NamedPages(scan, groups[..k]))
    decreases k
  {
    hide PageRuns, PageChunk;
    if k == 0 {
      NoMorePages(scan, Some(groups), 0, g);
      NoPages(scan, Some(groups));
    } else {
      var last := groups[k - 1];
      PageRunsNamed(scan, groups, k - 1, last);
      PageRunsStep(scan, Some(groups), last);
      NoMorePages(scan, Some(groups), last + 1, g);
      assert groups[..k][..k - 1] == groups[..k - 1];
      assert NamedPages(scan, groups[..k])[..k - 1] == NamedPages(scan, groups[..k - 1]);
    }
  }

  /**
   `get_row_selection_for_filter_predicate`. The index into the selected row groups stays in bounds because the
   loop leaves as soon as the last of them has been taken.
   */
  method GetRowSelectionForFilterPredicate(scan: Scan, selected: Option<seq<nat>>) returns (r: Result<seq<RowSelector>>)
    requires ValidScan(scan) && ValidGroups(selected, |scan.rows|)
    ensures r.Ok? <==> PagesOk(scan, selected)
    ensures r.Ok? ==> r.value == PageRuns(scan, selected, |scan.rows|)
    ensures r.Ok? ==> var groups := if selected.Some? then selected.value else Rows(0, |scan.rows|);
                      && (forall k :: 0 <= k < |groups| ==> groups[k] < |scan.pageIndex.value| &&
                                                            scan.pageIndex.value[groups[k]].Ok?)
                      && r.value == Joined(NamedPages(scan, groups))
  {
    hide Base, PageRuns, Consumed, ValidGroups, PageChunk, Joined, NamedPages;
    if PagesOk(scan, selected) { SelectedPages(scan, selected); }
    if scan.pageIndex.None? { return Err; }
    var pages := scan.pageIndex.value;
    if selected == Some([]) {
      NoMorePages(scan, selected, 0, |pages|);
      NoPages(scan, selected);
      return Ok([]);
    }
    var selectedIdx := 0;
    var results := [];
    var idx := 0;
    NoPages(scan, selected);
    NothingConsumed(selected);
    while idx < |pages|
      invariant 0 <= idx <= |pages|
      invariant selected.Some? ==> 0 <= selectedIdx < |selected.value|
      invariant Consumed(selected, selectedIdx, idx)
      invariant forall g: nat :: g < idx && IsSelected(selected, g) ==> pages[g].Ok?
      invariant results == PageRuns(scan, selected, idx)
    {
      ConsumedStep(selected, selectedIdx, idx, |pages|);
      PageRunsStep(scan, selected, idx);
      if selected.Some? && idx != selected.value[selectedIdx] {
        idx := idx + 1;
        continue;
      }
      if pages[idx].Err? { return Err; }
      results := results + pages[idx].value;
      idx := idx + 1;
      if selected.Some? {
        selectedIdx := selectedIdx + 1;
        if selectedIdx == |selected.value| {
          NoMorePages(scan, selected, idx, |pages|);
          return Ok(results);
        }
      }
    }
    r := Ok(results);
  }

  lemma {:induction false} SelectedPages(scan: Scan, selected: Option<seq<nat>>)
    requires ValidScan(scan) && ValidGroups(selected, |scan.rows|) && PagesOk(scan, selected)
    ensures var groups := if selected.Some? then selected.value else Rows(0, |scan.rows|);
            && (forall k :: 0 <= k < |groups| ==> groups[k] < |scan.pageIndex.value| &&
                                                  scan.pageIndex.value[groups[k]].Ok?)
            && PageRuns(scan, selected, |scan.rows|) == Joined(NamedPages(scan, groups))
  {
    hide Base, PageRuns, Joined, NamedPages;
    var groups := if selected.Some? then selected.value else Rows(0, |scan.rows|);
    forall k | 0 <= k < |groups| ensures groups[k] < |scan.rows| && scan.pageIndex.value[groups[k]].Ok? {
      assert IsSelected(selected, groups[k]);
    }
    PageRunsNamed(scan, groups, |groups|, |scan.rows|);
    assert groups[..|groups|] == groups;
    forall g: nat | g < |scan.rows| ensures IsSelected(Some(groups), g) == IsSelected(selected, g) {
      if selected.None? { assert groups[g] == g; }
    }
    SamePageRuns(scan, Some(groups), selected, |scan.rows|);
  }

  lemma {:induction false} SamePageRuns(scan: Scan, a: Option<seq<nat>>, b: Option<seq<nat>>, g: nat)
    requires forall k: nat :: k < g ==> IsSelected(a, k) == IsSelected(b, k)
    ensures PageRuns(scan, a, g) == PageRuns(scan, b, g)
  {
    if g > 0 { SamePageRuns(scan, a, b, g - 1); }
  }

  lemma {:induction false} NoPages(scan: Scan, selected: Option<seq<nat>>)
    ensures PageRuns(scan, selected, 0) == []
  {
  }

  lemma {:induction false} PageRunsStep(scan: Scan, selected: Option<seq<nat>>, g: nat)
    requires scan.pageIndex.Some? && g < |scan.pageIndex.value|
    ensures !IsSelected(selected, g) ==> PageRuns(scan, selected, g + 1) == PageRuns(scan, selected, g)
    ensures IsSelected(selected, g) && scan.pageIndex.value[g].Ok? ==>
              PageRuns(scan, selected, g + 1) == PageRuns(scan, selected, g) + scan.pageIndex.value[g].value
  {
  }

  // ---- data of the selected row groups ----

  /** The chunks of the selected row groups below `g`, one chunk per row group, concatenated in file order. */
  function Gather<T>(chunks: seq<seq<T>>, selected: Option<seq<nat>>, g: nat): seq<T>
    requires g <= |chunks|
  {
    if g == 0 then [] else Gather(chunks, selected, g - 1) + GatherBlock(chunks, selected, g - 1)
  }

  function GatherBlock<T>(chunks: seq<seq<T>>, selected: Option<seq<nat>>, g: nat): seq<T>
    requires g < |chunks|
  {
    if IsSelected(selected, g) then chunks[g] else []
  }

  lemma {:induction false} GatherStep<T>(chunks: seq<seq<T>>, selected: Option<seq<nat>>, g: nat)
    requires g < |chunks|
    ensures Gather(chunks, selected, g + 1) == Gather(chunks, selected, g) + GatherBlock(chunks, selected, g)
  {
  }

  ghost predicate SameSizes<S, T>(a: seq<seq<S>>, b: seq<seq<T>>) {
    |a| == |b| && forall g :: 0 <= g < |a| ==> |a[g]| == |b[g]|
  }

  lemma {:induction false} GatherLength<S, T>(a: seq<seq<S>>, b: seq<seq<T>>, selected: Option<seq<nat>>, g: nat)
    requires SameSizes(a, b) && g <= |a|
    ensures |Gather(a, selected, g)| == |Gather(b, selected, g)|
  {
    if g > 0 { GatherLength(a, b, selected, g - 1); }
  }

  function Both(a: seq<bool>, b: seq<bool>): (s: seq<bool>)
    requires |a| == |b|
    ensures |s| == |a| && forall i :: 0 <= i < |s| ==> s[i] == (a[i] && b[i])
  {
    seq(|a|, i requires 0 <= i < |a| => a[i] && b[i])
  }

  lemma {:induction false} BothConcat(a: seq<bool>, b: seq<bool>, c: seq<bool>, d: seq<bool>)
    requires |a| == |b| && |c| == |d|
    ensures Both(a + c, b + d) == Both(a, b) + Both(c, d)
  {
  }

  function BothChunks(a: seq<seq<bool>>, b: seq<seq<bool>>): (s: seq<seq<bool>>)
    requires SameSizes(a, b)
    ensures |s| == |a| && forall g :: 0 <= g < |s| ==> s[g] == Both(a[g], b[g])
  {
    seq(|a|, g requires 0 <= g < |a| => Both(a[g], b[g]))
  }

  /** Intersecting two selections of the same row groups is intersecting them group by group. */
  lemma {:induction false} GatherBoth(a: seq<seq<bool>>, b: seq<seq<bool>>, selected: Option<seq<nat>>, g: nat)
    requires SameSizes(a, b) && g <= |a|
    ensures |Gather(a, selected, g)| == |Gather(b, selected, g)|
    ensures Both(Gather(a, selected, g), Gather(b, selected, g)) == Gather(BothChunks(a, b), selected, g)
  {
    GatherLength(a, b, selected, g);
    if g > 0 {
      GatherBoth(a, b, selected, g - 1);
      if IsSelected(selected, g - 1) {
        BothConcat(Gather(a, selected, g - 1), Gather(b, selected, g - 1), a[g - 1], b[g - 1]);
      }
    }
  }

  /** `RowSelection::intersection`: the row is read iff both selections read it. */
  function Intersection(a: seq<RowSelector>, b: seq<RowSelector>): seq<RowSelector>
    requires |Expand(a)| == |Expand(b)|
  {
    Unit(Both(Expand(a), Expand(b)))
  }

  /** A mask written as runs of length one. */
  function Unit(mask: seq<bool>): seq<RowSelector> {
    if mask == [] then [] else [RowSelector(1, !mask[0])] + Unit(mask[1..])
  }

  lemma {:induction false} ExpandUnit(mask: seq<bool>)
    ensures Expand(Unit(mask)) == mask
  {
    if mask != [] {
      ExpandUnit(mask[1..]);
      ExpandConcat([RowSelector(1, !mask[0])], Unit(mask[1..]));
      ExpandPush([], RowSelector(1, !mask[0]));
      assert Expand([RowSelector(1, !mask[0])]) == [mask[0]];
      hide Expand;
    }
  }

  // ---- the two selections, chunk by chunk ----

  /** Where each row group begins and ends. */
  function Span(rows: seq<nat>, g: nat): (r: (nat, nat))
    requires g < |rows|
    ensures r.0 == Base(rows, g) && r.1 == Base(rows, g + 1) && r.1 == r.0 + rows[g]
  {
    (Base(rows, g), Base(rows, g + 1))
  }

  ghost function AliveChunks(rows: seq<nat>, deleted: set<u64>): (s: seq<seq<bool>>)
    ensures |s| == |rows|
    ensures forall g :: 0 <= g < |s| ==> s[g] == Alive(deleted, Span(rows, g).0, Span(rows, g).1)
  {
    hide Base;
    seq(|rows|, g requires 0 <= g < |rows| => Alive(deleted, Span(rows, g).0, Span(rows, g).1))
  }

  lemma {:induction false} AliveRowsGathered(rows: seq<nat>, selected: Option<seq<nat>>, deleted: set<u64>, g: nat)
    requires g <= |rows|
    ensures AliveRows(rows, selected, deleted, g) == Gather(AliveChunks(rows, deleted), selected, g)
  {
    hide Base;
    if g > 0 { AliveRowsGathered(rows, selected, deleted, g - 1); }
  }

  function Filled(n: nat, value: bool): (s: seq<bool>)
    ensures |s| == n && forall i :: 0 <= i < n ==> s[i] == value
  {
    seq(n, i => value)
  }

  /** The page selection of a group, expanded; a group whose evaluation failed is not read. */
  function PageMask(scan: Scan, g: nat): seq<bool>
    requires g < |scan.rows|
  {
    if scan.pageIndex.Some? && g < |scan.pageIndex.value| && scan.pageIndex.value[g].Ok?
    then Expand(scan.pageIndex.value[g].value) else Filled(scan.rows[g], false)
  }

  function PageChunks(scan: Scan): (s: seq<seq<bool>>)
    ensures |s| == |scan.rows| && forall g :: 0 <= g < |s| ==> s[g] == PageMask(scan, g)
  {
    seq(|scan.rows|, g requires 0 <= g < |scan.rows| => PageMask(scan, g))
  }

  lemma {:induction false} PageBlock(scan: Scan, selected: Option<seq<nat>>, g: nat)
    requires ValidScan(scan) && PagesOk(scan, selected) && g < |scan.rows|
    ensures Expand(PageChunk(scan, selected, g)) == GatherBlock(PageChunks(scan), selected, g)
  {
    hide Base;
  }

  lemma {:induction false} PageRunsGathered(scan: Scan, selected: Option<seq<nat>>, g: nat)
    requires ValidScan(scan) && PagesOk(scan, selected) && g <= |scan.rows|
    ensures Expand(PageRuns(scan, selected, g)) == Gather(PageChunks(scan), selected, g)
  {
    hide *;
    if g == 0 {
      NoPageRuns(scan, selected);
    } else {
      PageRunsGathered(scan, selected, g - 1);
      PageRunsPush(scan, selected, g - 1);
      PageBlock(scan, selected, g - 1);
      GatherStep(PageChunks(scan), selected, g - 1);
    }
  }

  lemma {:induction false} NoPageRuns(scan: Scan, selected: Option<seq<nat>>)
    ensures Expand(PageRuns(scan, selected, 0)) == Gather(PageChunks(scan), selected, 0)
  {
  }

  lemma {:induction false} PageRunsPush(scan: Scan, selected: Option<seq<nat>>, g: nat)
    requires g < |scan.rows|
    ensures Expand(PageRuns(scan, selected, g + 1)) == Expand(PageRuns(scan, selected, g)) +
            Expand(PageChunk(scan, selected, g))
    ensures g < |PageChunks(scan)|
  {
    ExpandConcat(PageRuns(scan, selected, g), PageChunk(scan, selected, g));
    hide PageChunk, Expand;
  }

  function TrueChunks(rows: seq<nat>): (s: seq<seq<bool>>)
    ensures |s| == |rows| && forall g :: 0 <= g < |s| ==> s[g] == Filled(rows[g], true)
  {
    seq(|rows|, g requires 0 <= g < |rows| => Filled(rows[g], true))
  }

  lemma {:induction false} TrueGathered(rows: seq<nat>, selected: Option<seq<nat>>, g: nat)
    requires g <= |rows|
    ensures forall i :: 0 <= i < |Gather(TrueChunks(rows), selected, g)| ==> Gather(TrueChunks(rows), selected, g)[i]
  {
    if g > 0 { TrueGathered(rows, selected, g - 1); }
  }

  // ---- what the reader emits ----

  function PositionChunks(rows: seq<nat>): (s: seq<seq<nat>>)
    ensures |s| == |rows| && forall g :: 0 <= g < |s| ==> s[g] == Rows(Span(rows, g).0, Span(rows, g).1)
  {
    hide Base;
    seq(|rows|, g requires 0 <= g < |rows| => Rows(Span(rows, g).0, Span(rows, g).1))
  }

  /** The row filter and the selection on a list of row positions. */
  function Pick(passing: seq<bool>, positions: seq<nat>, mask: seq<bool>): seq<nat> {
    if positions == [] || mask == [] then []
    else (if mask[0] && positions[0] < |passing| && passing[positions[0]] then [positions[0]] else []) +
         Pick(passing, positions[1..], mask[1..])
  }

  lemma {:induction false} PickConcat(passing: seq<bool>, p1: seq<nat>, m1: seq<bool>, p2: seq<nat>, m2: seq<bool>)
    requires |p1| == |m1|
    ensures Pick(passing, p1 + p2, m1 + m2) == Pick(passing, p1, m1) + Pick(passing, p2, m2)
  {
    if p1 == [] {
      assert p1 + p2 == p2 && m1 + m2 == m2;
    } else {
      assert (p1 + p2)[1..] == p1[1..] + p2 && (m1 + m2)[1..] == m1[1..] + m2;
      PickConcat(passing, p1[1..], m1[1..], p2, m2);
    }
  }

  /** `r` lists the members of `s` in ascending order. */
  ghost predicate Enumerates(r: seq<nat>, s: iset<nat>) {
    Ascending(r) && forall p: nat :: p in r <==> p in s
  }

  lemma {:induction false} EnumeratesConcat(a: seq<nat>, s: iset<nat>, b: seq<nat>, t: iset<nat>, bound: nat)
    requires Enumerates(a, s) && Enumerates(b, t)
    requires forall x: nat :: x in s ==> x < bound
    requires forall x: nat :: x in t ==> x >= bound
    ensures Enumerates(a + b, s + t)
  {
    forall i, j | 0 <= i < j < |a + b| ensures (a + b)[i] < (a + b)[j] {
      assert (a + b)[i] in (if i < |a| then a else b) && (a + b)[j] in (if j < |a| then a else b);
    }
  }

  ghost function PassingRows(passing: seq<bool>, lo: nat, mask: seq<bool>): iset<nat> {
    iset p: nat | lo <= p < lo + |mask| && p < |passing| && mask[p - lo] && passing[p]
  }

  /** From a contiguous block the reader emits, in order, the rows that pass and that the mask reads. */
  lemma {:induction false} PickBlock(passing: seq<bool>, lo: nat, hi: nat, mask: seq<bool>)
    requires lo <= hi && |mask| == hi - lo
    ensures Enumerates(Pick(passing, Rows(lo, hi), mask), PassingRows(passing, lo, mask))
    decreases hi - lo
  {
    if lo < hi {
      PickBlock(passing, lo + 1, hi, mask[1..]);
      assert Rows(lo, hi)[1..] == Rows(lo + 1, hi);
      var rest := Pick(passing, Rows(lo + 1, hi), mask[1..]);
      var all := PassingRows(passing, lo, mask);
      assert forall p: nat :: p in all && p != lo <==> p in PassingRows(passing, lo + 1, mask[1..]);
      forall k | 0 <= k < |rest| ensures lo < rest[k] { assert rest[k] in rest; }
    }
  }

  /** The passing rows of the selected groups below `g` that their chunk of the mask reads. */
  ghost function EmittedRows(
      rows: seq<nat>, passing: seq<bool>, mask: seq<seq<bool>>, selected: Option<seq<nat>>, g: nat): iset<nat>
    requires g <= |rows| && g <= |mask|
  {
    if g == 0 then iset{}
    else EmittedRows(rows, passing, mask, selected, g - 1) + EmittedBlock(rows, passing, mask, selected, g - 1)
  }

  ghost function EmittedBlock(
      rows: seq<nat>, passing: seq<bool>, mask: seq<seq<bool>>, selected: Option<seq<nat>>, g: nat): iset<nat>
    requires g < |rows| && g < |mask|
  {
    if IsSelected(selected, g) then PassingRows(passing, Base(rows, g), mask[g]) else iset{}
  }

  ghost predicate Fits<T>(rows: seq<nat>, chunks: seq<seq<T>>) {
    |chunks| == |rows| && forall g :: 0 <= g < |rows| ==> |chunks[g]| == rows[g]
  }

  lemma {:induction false} EmittedBelow(
      rows: seq<nat>, passing: seq<bool>, mask: seq<seq<bool>>, selected: Option<seq<nat>>, g: nat)
    requires Fits(rows, mask) && g <= |rows|
    ensures forall p: nat :: p in EmittedRows(rows, passing, mask, selected, g) ==> p < Base(rows, g)
  {
    hide Base;
    if g > 0 {
      BaseStep(rows, g - 1);
      EmittedBelow(rows, passing, mask, selected, g - 1);
    }
  }

  /** The Parquet reader emits exactly those rows, in ascending order. */
  lemma {:induction false} ReaderEmits(
      rows: seq<nat>, passing: seq<bool>, mask: seq<seq<bool>>, selected: Option<seq<nat>>, g: nat)
    requires Fits(rows, mask) && g <= |rows|
    ensures Enumerates(Pick(passing, Gather(PositionChunks(rows), selected, g), Gather(mask, selected, g)),
                       EmittedRows(rows, passing, mask, selected, g))
  {
    hide *;
    ChunkCounts(rows, mask);
    if g == 0 {
      EmitsNothing(rows, passing, mask, selected);
    } else {
      ReaderEmits(rows, passing, mask, selected, g - 1);
      PickGroup(rows, passing, mask, selected, g - 1);
      GatherStep(PositionChunks(rows), selected, g - 1);
      GatherStep(mask, selected, g - 1);
      var before := Gather(PositionChunks(rows), selected, g - 1);
      var block := GatherBlock(PositionChunks(rows), selected, g - 1);
      var read, bits := Gather(mask, selected, g - 1), GatherBlock(mask, selected, g - 1);
      PickConcat(passing, before, read, block, bits);
      EnumeratesConcat(Pick(passing, before, read), EmittedRows(rows, passing, mask, selected, g - 1),
                       Pick(passing, block, bits), EmittedBlock(rows, passing, mask, selected, g - 1),
                       Base(rows, g - 1));
      EmittedStep(rows, passing, mask, selected, g - 1);
    }
  }

  lemma {:induction false} ChunkCounts(rows: seq<nat>, mask: seq<seq<bool>>)
    requires Fits(rows, mask)
    ensures |mask| == |rows| == |PositionChunks(rows)|
  {
  }

  lemma {:induction false} EmitsNothing(
      rows: seq<nat>, passing: seq<bool>, mask: seq<seq<bool>>, selected: Option<seq<nat>>)
    ensures Enumerates(Pick(passing, Gather(PositionChunks(rows), selected, 0), Gather(mask, selected, 0)),
                       EmittedRows(rows, passing, mask, selected, 0))
  {
  }

  lemma {:induction false} PickGroup(
      rows: seq<nat>, passing: seq<bool>, mask: seq<seq<bool>>, selected: Option<seq<nat>>, g: nat)
    requires Fits(rows, mask) && g < |rows|
    ensures |Gather(PositionChunks(rows), selected, g)| == |Gather(mask, selected, g)|
    ensures Enumerates(Pick(passing, GatherBlock(PositionChunks(rows), selected, g), GatherBlock(mask, selected, g)),
                       EmittedBlock(rows, passing, mask, selected, g))
    ensures forall p: nat :: p in EmittedRows(rows, passing, mask, selected, g) ==> p < Base(rows, g)
    ensures forall p: nat :: p in EmittedBlock(rows, passing, mask, selected, g) ==> p >= Base(rows, g)
  {
    hide Base, Pick, Enumerates;
    GatherLength(PositionChunks(rows), mask, selected, g);
    EmittedBelow(rows, passing, mask, selected, g);
    BaseStep(rows, g);
    if IsSelected(selected, g) {
      PickBlock(passing, Base(rows, g), Base(rows, g + 1), mask[g]);
    } else {
      PickBlock(passing, 0, 0, []);
      assert Rows(0, 0) == [];
      assert PassingRows(passing, 0, []) == iset{};
    }
  }

  lemma {:induction false} EmittedStep(
      rows: seq<nat>, passing: seq<bool>, mask: seq<seq<bool>>, selected: Option<seq<nat>>, g: nat)
    requires g < |rows| && g < |mask|
    ensures EmittedRows(rows, passing, mask, selected, g + 1) ==
            EmittedRows(rows, passing, mask, selected, g) + EmittedBlock(rows, passing, mask, selected, g)
  {
    hide Base, EmittedBlock;
  }

  // ---- the whole scan ----

  /** The task reads row group `g`: it overlaps the byte range, or the whole file is read. */
  predicate InByteRange(scan: Scan, g: nat) {
    || (scan.start == 0 && scan.length == 0)
    || Overlaps(scan.sizes, scan.start, EndOf(scan.start, scan.length), g)
  }

  ghost predicate HoldsRow(rows: seq<nat>, g: nat, p: nat) {
    g < |rows| && Base(rows, g) <= p < Base(rows, g + 1)
  }

  /**
   A scan of every row keeps a row iff it is in a row group of the scan task, not deleted, and the predicate is true on
   it.
   */
  ghost predicate Wanted(scan: Scan, deleted: set<u64>, p: nat) {
    && (exists g: nat :: HoldsRow(scan.rows, g, p) && InByteRange(scan, g))
    && p !in deleted
    && Passes(scan, p)
  }

  /** The row groups left after both filters. */
  ghost predicate Chosen(scan: Scan, selected: Option<seq<nat>>)
    requires |scan.groupMayMatch| == |scan.rows|
  {
    && ValidGroups(selected, |scan.rows|)
    && forall g: nat :: g < |scan.rows| ==>
        (IsSelected(selected, g) <==>
         InByteRange(scan, g) && (scan.hasPredicate && scan.rowGroupFiltering ==> MayMatch(scan.groupMayMatch[g])))
  }

  function Passing(scan: Scan): (s: seq<bool>)
    ensures |s| == |scan.truth| && forall p :: 0 <= p < |s| ==> s[p] == Passes(scan, p)
  {
    seq(|scan.truth|, p requires 0 <= p < |scan.truth| => Passes(scan, p))
  }

  lemma {:induction false} EmittedIff(
      rows: seq<nat>, passing: seq<bool>, mask: seq<seq<bool>>, selected: Option<seq<nat>>, g: nat, p: nat)
    requires Fits(rows, mask) && g <= |rows|
    ensures p in EmittedRows(rows, passing, mask, selected, g) <==>
            exists k: nat :: k < g && p in EmittedBlock(rows, passing, mask, selected, k)
  {
    hide Base, EmittedBlock;
    if g > 0 { EmittedIff(rows, passing, mask, selected, g - 1, p); }
  }

  /** What a mask must say of the rows of the selected groups for the scan to be right. */
  ghost predicate FaithfulMask(scan: Scan, deleted: set<u64>, selected: Option<seq<nat>>, mask: seq<seq<bool>>)
    requires Fits(scan.rows, mask)
  {
    forall g: nat, i: nat :: g < |scan.rows| && i < scan.rows[g] && IsSelected(selected, g) &&
                             Passes(scan, Base(scan.rows, g) + i) ==>
                               (mask[g][i] <==> Base(scan.rows, g) + i !in deleted)
  }

  /** Pruning drops no wanted row and keeps no other. */
  lemma {:induction false} PrunedIsWanted(
      scan: Scan, deleted: set<u64>, selected: Option<seq<nat>>, mask: seq<seq<bool>>, p: nat)
    requires ValidScan(scan) && Conservative(scan) && GroupsEvaluated(scan) && Chosen(scan, selected)
    requires Fits(scan.rows, mask) && FaithfulMask(scan, deleted, selected, mask)
    ensures p in EmittedRows(scan.rows, Passing(scan), mask, selected, |scan.rows|) <==> Wanted(scan, deleted, p)
  {
    hide Base, Conservative, ValidGroups, FaithfulMask, Chosen, PassingRows, HoldsRow;
    EmittedIff(scan.rows, Passing(scan), mask, selected, |scan.rows|, p);
    forall g: nat | g < |scan.rows|
      ensures p in EmittedBlock(scan.rows, Passing(scan), mask, selected, g) <==>
              HoldsRow(scan.rows, g, p) && InByteRange(scan, g) && p !in deleted && Passes(scan, p)
    {
      BlockIsWanted(scan, deleted, selected, mask, g, p);
    }
    if Wanted(scan, deleted, p) {
      var g: nat :| HoldsRow(scan.rows, g, p) && InByteRange(scan, g);
      assert g < |scan.rows| by { InFile(scan.rows, g, p); }
      assert p in EmittedBlock(scan.rows, Passing(scan), mask, selected, g);
    }
  }

  lemma {:induction false} InFile(rows: seq<nat>, g: nat, p: nat)
    requires HoldsRow(rows, g, p)
    ensures g < |rows|
  {
  }

  ghost predicate GroupsEvaluated(scan: Scan) {
    scan.hasPredicate && scan.rowGroupFiltering ==>
      forall g: nat :: g < |scan.groupMayMatch| ==> scan.groupMayMatch[g].Ok?
  }

  lemma {:induction false} BlockIsWanted(
      scan: Scan, deleted: set<u64>, selected: Option<seq<nat>>, mask: seq<seq<bool>>, g: nat, p: nat)
    requires ValidScan(scan) && Conservative(scan) && GroupsEvaluated(scan) && Chosen(scan, selected)
    requires Fits(scan.rows, mask) && FaithfulMask(scan, deleted, selected, mask) && g < |scan.rows|
    ensures p in EmittedBlock(scan.rows, Passing(scan), mask, selected, g) <==>
            HoldsRow(scan.rows, g, p) && InByteRange(scan, g) && p !in deleted && Passes(scan, p)
  {
    hide Base;
    BaseStep(scan.rows, g);
    if HoldsRow(scan.rows, g, p) && InByteRange(scan, g) && Passes(scan, p) {
      GroupSurvives(scan, g, p);
      assert IsSelected(selected, g);
      assert mask[g][p - Base(scan.rows, g)] <==> Base(scan.rows, g) + (p - Base(scan.rows, g)) !in deleted;
    }
  }

  /** A group with a passing row is not ruled out. */
  lemma {:induction false} GroupSurvives(scan: Scan, g: nat, p: nat)
    requires ValidScan(scan) && Conservative(scan) && GroupsEvaluated(scan) && HoldsRow(scan.rows, g, p) &&
             Passes(scan, p)
    ensures scan.hasPredicate && scan.rowGroupFiltering ==> MayMatch(scan.groupMayMatch[g])
  {
    hide Base;
    if scan.hasPredicate && scan.rowGroupFiltering {
      assert !NothingIn(scan, g);
    }
  }

  // ---- the four combinations of selections ----

  lemma {:induction false} ChunksFit(scan: Scan, deleted: set<u64>)
    requires ValidScan(scan) && Conservative(scan)
    ensures Fits(scan.rows, AliveChunks(scan.rows, deleted))
    ensures Fits(scan.rows, PageChunks(scan))
    ensures Fits(scan.rows, TrueChunks(scan.rows))
  {
    hide Base;
  }

  lemma {:induction false} AliveFaithful(scan: Scan, deleted: set<u64>, selected: Option<seq<nat>>)
    requires ValidScan(scan)
    ensures Fits(scan.rows, AliveChunks(scan.rows, deleted))
    ensures FaithfulMask(scan, deleted, selected, AliveChunks(scan.rows, deleted))
  {
    hide Base;
  }

  lemma {:induction false} TrueFaithful(scan: Scan, selected: Option<seq<nat>>)
    requires ValidScan(scan) && Fits(scan.rows, TrueChunks(scan.rows))
    ensures FaithfulMask(scan, {}, selected, TrueChunks(scan.rows))
  {
    hide Base;
  }

  lemma {:induction false} PagesFaithful(scan: Scan, selected: Option<seq<nat>>)
    requires ValidScan(scan) && Conservative(scan) && scan.hasPredicate && PagesOk(scan, selected)
    requires Fits(scan.rows, PageChunks(scan))
    ensures FaithfulMask(scan, {}, selected, PageChunks(scan))
  {
    hide Base;
    forall g: nat, i: nat | g < |scan.rows| && i < scan.rows[g] && IsSelected(selected, g) &&
                            Passes(scan, Base(scan.rows, g) + i)
      ensures PageChunks(scan)[g][i]
    {
      assert PagesConservative(scan, g, scan.pageIndex.value[g].value);
    }
  }

  lemma {:induction false} BothFaithful(
      scan: Scan, deleted: set<u64>, selected: Option<seq<nat>>, a: seq<seq<bool>>, b: seq<seq<bool>>)
    requires Fits(scan.rows, a) && Fits(scan.rows, b) && FaithfulMask(scan, {}, selected, a) &&
             FaithfulMask(scan, deleted, selected, b)
    ensures Fits(scan.rows, BothChunks(a, b)) && FaithfulMask(scan, deleted, selected, BothChunks(a, b))
  {
    hide Base;
  }

  /** The rows the Parquet reader returns for the selected row groups, the row selection and the row filter. */
  function ReaderRows(scan: Scan, selected: Option<seq<nat>>, selection: Option<seq<RowSelector>>): seq<nat> {
    var positions := Gather(PositionChunks(scan.rows), selected, |scan.rows|);
    Pick(Passing(scan), positions, if selection.Some? then Expand(selection.value) else Filled(|positions|, true))
  }

  /** The selection, if any, is the given mask on the selected row groups. */
  ghost predicate Carries(
      scan: Scan, selected: Option<seq<nat>>, selection: Option<seq<RowSelector>>, mask: seq<seq<bool>>)
    requires |mask| == |scan.rows|
  {
    if selection.Some? then Expand(selection.value) == Gather(mask, selected, |scan.rows|)
    else mask == TrueChunks(scan.rows)
  }

  /** A reader given a faithful selection returns exactly the wanted rows, in ascending order. */
  lemma {:induction false} ReaderReturnsWanted(
      scan: Scan, deleted: set<u64>, selected: Option<seq<nat>>, selection: Option<seq<RowSelector>>,
      mask: seq<seq<bool>>)
    requires ValidScan(scan) && Conservative(scan) && GroupsEvaluated(scan) && Chosen(scan, selected)
    requires Fits(scan.rows, mask) && FaithfulMask(scan, deleted, selected, mask)
    requires Carries(scan, selected, selection, mask)
    ensures selection.Some? ==> |Expand(selection.value)| == |Gather(PositionChunks(scan.rows), selected, |scan.rows|)|
    ensures Enumerates(ReaderRows(scan, selected, selection), iset p: nat | Wanted(scan, deleted, p))
  {
    hide *;
    ReaderIsPick(scan, selected, selection, mask);
    ReaderEmits(scan.rows, Passing(scan), mask, selected, |scan.rows|);
    WantedSet(scan, deleted, selected, mask);
  }

  lemma {:induction false} ReaderIsPick(
      scan: Scan, selected: Option<seq<nat>>, selection: Option<seq<RowSelector>>, mask: seq<seq<bool>>)
    requires Fits(scan.rows, mask) && Carries(scan, selected, selection, mask)
    ensures var positions := Gather(PositionChunks(scan.rows), selected, |scan.rows|);
            && ReaderRows(scan, selected, selection) ==
               Pick(Passing(scan), positions, Gather(mask, selected, |scan.rows|))
            && (selection.Some? ==> |Expand(selection.value)| == |positions|)
  {
    hide Base, Expand, Pick;
    var n := |scan.rows|;
    GatherLength(PositionChunks(scan.rows), mask, selected, n);
    if selection.None? {
      TrueGathered(scan.rows, selected, n);
      assert Gather(mask, selected, n) == Filled(|Gather(mask, selected, n)|, true);
    }
  }

  lemma {:induction false} WantedSet(scan: Scan, deleted: set<u64>, selected: Option<seq<nat>>, mask: seq<seq<bool>>)
    requires ValidScan(scan) && Conservative(scan) && GroupsEvaluated(scan) && Chosen(scan, selected)
    requires Fits(scan.rows, mask) && FaithfulMask(scan, deleted, selected, mask)
    ensures EmittedRows(scan.rows, Passing(scan), mask, selected, |scan.rows|) == iset p: nat | Wanted(scan, deleted, p)
  {
    hide Wanted, EmittedRows, Conservative, Chosen, Base;
    forall p: nat
      ensures p in EmittedRows(scan.rows, Passing(scan), mask, selected, |scan.rows|) <==> Wanted(scan, deleted, p)
    {
      PrunedIsWanted(scan, deleted, selected, mask, p);
    }
  }

  // ---- the combining part of the scan task ----

  /** The row groups selected by byte range and by predicate; absent when neither applies. */
  function ChosenGroups(scan: Scan): Option<seq<nat>> {
    var byRange :=
      if scan.start == 0 && scan.length == 0 then None
      else Some(ByteRangeGroups(scan.sizes, scan.start, EndOf(scan.start, scan.length)));
    if scan.hasPredicate && scan.rowGroupFiltering then
      var byPredicate := MatchingGroups(scan.groupMayMatch);
      Some(if byRange.Some? then Intersect(byRange.value, byPredicate) else byPredicate)
    else byRange
  }

  lemma {:induction false} MatchingAscending(groupMayMatch: seq<Result<bool>>)
    ensures Ascending(MatchingGroups(groupMayMatch))
  {
    IndicesAscending(|groupMayMatch|, (g: nat) => g < |groupMayMatch| && MayMatch(groupMayMatch[g]));
  }

  /** They are exactly the groups in the byte range that the predicate cannot rule out, in ascending order. */
  lemma {:induction false} ChosenGroupsChosen(scan: Scan)
    requires ValidScan(scan)
    ensures Chosen(scan, ChosenGroups(scan))
  {
    hide Base, Overlaps, ByteRangeGroups, MatchingGroups, Intersect, MayMatch;
    var end := EndOf(scan.start, scan.length);
    ByteRangeAscending(scan.sizes, scan.start, end);
    MatchingAscending(scan.groupMayMatch);
    IntersectAscending(ByteRangeGroups(scan.sizes, scan.start, end), MatchingGroups(scan.groupMayMatch));
    var selected := ChosenGroups(scan);
    assert ValidGroups(selected, |scan.rows|) by {
      if selected.Some? {
        forall k | 0 <= k < |selected.value| ensures selected.value[k] < |scan.rows| {
          assert selected.value[k] in selected.value;
        }
      }
    }
    forall g: nat | g < |scan.rows|
      ensures IsSelected(selected, g) <==>
              InByteRange(scan, g) && (scan.hasPredicate && scan.rowGroupFiltering ==> MayMatch(scan.groupMayMatch[g]))
    {
      assert g in ByteRangeGroups(scan.sizes, scan.start, end) <==> Overlaps(scan.sizes, scan.start, end, g);
    }
  }

  /** The row group list: byte range first, then the predicate, intersected when both apply. */
  method ChooseRowGroups(scan: Scan) returns (r: Result<Option<seq<nat>>>)
    requires ValidScan(scan)
    ensures r.Ok? <==> GroupsEvaluated(scan)
    ensures r.Ok? ==> r.value == ChosenGroups(scan) && Chosen(scan, r.value)
  {
    hide Base, Overlaps, Chosen, ByteRangeGroups, MatchingGroups, Intersect;
    ChosenGroupsChosen(scan);
    var selected: Option<seq<nat>> := None;
    if scan.start != 0 || scan.length != 0 {
      var byRange := FilterRowGroupsByByteRange(scan.sizes, scan.start, scan.length);
      selected := Some(byRange);
    }
    if scan.hasPredicate && scan.rowGroupFiltering {
      var byPredicate := GetSelectedRowGroupIndices(scan.groupMayMatch);
      if byPredicate.Err? { return Err; }
      selected := Some(if selected.Some? then Intersect(selected.value, byPredicate.value) else byPredicate.value);
    }
    r := Ok(selected);
  }

  /** The deletes that the walk over the selected row groups finds. */
  ghost function Found(scan: Scan, selected: Option<seq<nat>>, deletes: Option<DeleteVector>): set<u64>
    requires ValidScan(scan) && (deletes.Some? ==> deletes.value.Valid())
    reads if deletes.Some? then {deletes.value} else {}
  {
    if deletes.Some? then Effective(scan.rows, selected, deletes.value.inner, |scan.rows|) else {}
  }

  /** The row selection: pages first, then positional deletes, intersected when both apply. */
  method SelectRows(scan: Scan, selected: Option<seq<nat>>, deletes: Option<DeleteVector>)
    returns (r: Result<Option<seq<RowSelector>>>, ghost mask: seq<seq<bool>>)
    requires ValidScan(scan) && Conservative(scan) && ValidGroups(selected, |scan.rows|)
    requires deletes.Some? ==> deletes.value.Valid() && NeverStale(scan.rows, selected, deletes.value.inner)
    ensures r.Ok? <==> (scan.hasPredicate && scan.rowSelection ==> PagesOk(scan, selected))
    ensures r.Ok? ==> Fits(scan.rows, mask) && FaithfulMask(scan, Found(scan, selected, deletes), selected, mask)
    ensures r.Ok? ==> Carries(scan, selected, r.value, mask)
  {
    hide Base, FaithfulMask, Expand, Gather, AliveRows, Conservative, NeverStale, Effective, Served;
    var n := |scan.rows|;
    var selection: Option<seq<RowSelector>> := None;
    mask := TrueChunks(scan.rows);
    ghost var found := Found(scan, selected, deletes);
    ChunksFit(scan, found);
    TrueFaithful(scan, selected);
    if scan.hasPredicate && scan.rowSelection {
      var pages := GetRowSelectionForFilterPredicate(scan, selected);
      if pages.Err? { return Err, mask; }
      PageRunsGathered(scan, selected, n);
      PagesFaithful(scan, selected);
      selection, mask := Some(pages.value), PageChunks(scan);
    }
    if deletes.Some? {
      var deleteSelection := BuildDeletesRowSelection(scan.rows, selected, deletes.value);
      var alive := AliveChunks(scan.rows, found);
      AliveRowsGathered(scan.rows, selected, found, n);
      AliveFaithful(scan, found, selected);
      if selection.None? {
        selection, mask := Some(deleteSelection), alive;
      } else {
        GatherBoth(mask, alive, selected, n);
        BothFaithful(scan, found, selected, mask, alive);
        ExpandUnit(Both(Expand(selection.value), Expand(deleteSelection)));
        selection, mask := Some(Intersection(selection.value, deleteSelection)), BothChunks(mask, alive);
      }
    }
    r := Ok(selection);
  }

  ghost function DeletedIn(deletes: Option<DeleteVector>): set<u64>
    reads if deletes.Some? then {deletes.value} else {}
  {
    if deletes.Some? then deletes.value.Deleted() else {}
  }

  /** No evaluation that the scan asks for fails. */
  ghost predicate Evaluates(scan: Scan)
    requires ValidScan(scan)
  {
    GroupsEvaluated(scan) && (scan.hasPredicate && scan.rowSelection ==> PagesOk(scan, ChosenGroups(scan)))
  }

  /** The walk over the row groups returns. */
  ghost predicate Returns(scan: Scan, deletes: Option<DeleteVector>)
    requires ValidScan(scan) && (deletes.Some? ==> deletes.value.Valid())
    reads if deletes.Some? then {deletes.value} else {}
  {
    deletes.Some? ==> NeverStale(scan.rows, ChosenGroups(scan), deletes.value.inner)
  }

  /** The walk over the row groups finds exactly the deletes of each selected one. */
  ghost predicate ServesDeletes(scan: Scan, deletes: Option<DeleteVector>)
    requires ValidScan(scan) && (deletes.Some? ==> deletes.value.Valid())
    reads if deletes.Some? then {deletes.value} else {}
  {
    deletes.Some? ==> Served(scan.rows, ChosenGroups(scan), deletes.value.inner, deletes.value.Deleted())
  }

  /** A row wanted when some deletes are taken away is wanted with others that agree in the selected row groups. */
  lemma {:induction false} SameWanted(scan: Scan, selected: Option<seq<nat>>, a: set<u64>, b: set<u64>)
    requires ValidScan(scan) && Conservative(scan) && GroupsEvaluated(scan) && Chosen(scan, selected)
    requires forall g: nat :: g < |scan.rows| && IsSelected(selected, g) ==> SameIn(scan.rows, a, b, g)
    ensures (iset p: nat | Wanted(scan, a, p)) == iset p: nat | Wanted(scan, b, p)
  {
    hide Base, Conservative, NothingIn;
    forall p: nat ensures Wanted(scan, a, p) <==> Wanted(scan, b, p) {
      if (exists g: nat :: HoldsRow(scan.rows, g, p) && InByteRange(scan, g)) && Passes(scan, p) {
        var g: nat :| HoldsRow(scan.rows, g, p) && InByteRange(scan, g);
        GroupSurvives(scan, g, p);
        BaseMonotone(scan.rows, g + 1, |scan.rows|);
        assert SameIn(scan.rows, a, b, g);
      }
    }
  }

  lemma {:induction false} ServedWanted(scan: Scan, deletes: Option<DeleteVector>)
    requires ValidScan(scan) && Conservative(scan) && GroupsEvaluated(scan)
    requires deletes.Some? ==> deletes.value.Valid()
    requires ServesDeletes(scan, deletes)
    ensures (iset p: nat | Wanted(scan, Found(scan, ChosenGroups(scan), deletes), p)) ==
            iset p: nat | Wanted(scan, DeletedIn(deletes), p)
  {
    hide Base, Conservative, Wanted, ChosenGroups, Effective, Members, Walk, Chosen, GroupsEvaluated;
    ChosenGroupsChosen(scan);
    var selected, found := ChosenGroups(scan), Found(scan, ChosenGroups(scan), deletes);
    forall g: nat | g < |scan.rows| && IsSelected(selected, g) ensures SameIn(scan.rows, found, DeletedIn(deletes), g) {
      if deletes.Some? {
        EffectiveAt(scan.rows, selected, deletes.value.inner, g, |scan.rows|);
        assert ServedIn(scan.rows, selected, deletes.value.inner, deletes.value.Deleted(), g);
      }
    }
    SameWanted(scan, selected, found, DeletedIn(deletes));
  }

  /**
   The pruned scan refines the scan of every row: whatever is switched on, the positions returned are exactly the
   ascending positions in the scan task's row groups that are not among the deletes found and on which the final
   predicate is true; where the walk serves every selected row group, those are the undeleted ones. It fails only when
   an evaluator fails or the page index it needs is missing.
   */
  method ScanFile(scan: Scan, deletes: Option<DeleteVector>) returns (r: Result<seq<nat>>)
    requires ValidScan(scan) && Conservative(scan)
    requires deletes.Some? ==> deletes.value.Valid()
    requires Returns(scan, deletes)
    ensures r.Ok? ==> Enumerates(r.value, iset p: nat | Wanted(scan, Found(scan, ChosenGroups(scan), deletes), p))
    ensures r.Ok? && ServesDeletes(scan, deletes) ==>
              Enumerates(r.value, iset p: nat | Wanted(scan, DeletedIn(deletes), p))
    ensures r.Ok? <==> Evaluates(scan)
  {
    hide Base, Conservative, Enumerates, FaithfulMask, Carries;
    hide Fits, ReaderRows, ChosenGroups, NeverStale, Found, Wanted;
    var chosen := ChooseRowGroups(scan);
    if chosen.Err? { return Err; }
    var selected := chosen.value;
    var selection;
    ghost var mask;
    selection, mask := SelectRows(scan, selected, deletes);
    if selection.Err? { return Err; }
    ghost var found := Found(scan, selected, deletes);
    ReaderReturnsWanted(scan, found, selected, selection.value, mask);
    if ServesDeletes(scan, deletes) { ServedWanted(scan, deletes); }
    r := Ok(ReaderRows(scan, selected, selection.value));
  }

  /**
   A file of fewer than 2^32 rows, or a scan that selects no row groups, returns and is served, whatever is deleted.
   */
  lemma {:induction false} SmallFileServed(scan: Scan, deletes: Option<DeleteVector>)
    requires ValidScan(scan) && (deletes.Some? ==> deletes.value.Valid())
    requires TotalRows(scan.rows) < TWO_32 || ChosenGroups(scan) == None
    ensures Returns(scan, deletes) && ServesDeletes(scan, deletes)
  {
    hide Base, ChosenGroups, NeverStale, Served, Members;
    ChosenGroupsChosen(scan);
    var selected := ChosenGroups(scan);
    if deletes.Some? {
      if selected.Some? && selected.value != [] {
        BaseMonotone(scan.rows, selected.value[|selected.value| - 1] + 1, |scan.rows|);
      }
      ServableIsServed(scan.rows, selected, deletes.value.inner);
    }
  }
}
