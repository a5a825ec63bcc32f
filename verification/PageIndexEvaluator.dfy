/**
 Skipping pages by the column index, one row selection for each row group, and what both evaluators together have to
 satisfy for a scan to be pruned safely.
 */
module PageIndexEvaluators {
  import opened Prelude
  import opened Predicates
  import opened RowSelections
  import opened ScanPruning
  import opened RowGroupMetrics

  // ---- pages by the column index ----

  datatype Page = Page(min: Option<Datum>, max: Option<Datum>, nullCount: Option<nat>)

  /**
   The column index of one column. `comparable`: the stored bounds become literals of the column's own type. They do not
   where the stored type is not the one the type's literals have, as for promoted integers and for decimals.
   */
  datatype ColumnIndex = NoIndex | Unsupported | Pages(pages: seq<Page>, comparable: bool)

  /** A column of a row group: is it a primitive field of the schema, its column index, and where its pages begin. */
  datatype PagedColumn = PagedColumn(inSchema: bool, index: Option<ColumnIndex>, firstRows: Option<seq<nat>>)

  datatype PagedGroup = PagedGroup(rows: nat, columns: map<string, PagedColumn>)

  ghost predicate ValidOffsets(rows: nat, firstRows: seq<nat>) {
    && firstRows != [] && firstRows[0] == 0 && firstRows[|firstRows| - 1] <= rows
    && forall i, j :: 0 <= i < j < |firstRows| ==> firstRows[i] <= firstRows[j]
  }

  /** The pages of a column cover the row group, and its column index has an entry for each. */
  ghost predicate ValidPaged(g: PagedGroup) {
    forall term :: term in g.columns && g.columns[term].firstRows.Some? ==>
                     var c := g.columns[term];
                     && ValidOffsets(g.rows, c.firstRows.value)
                     && (c.index.Some? && c.index.value.Pages? ==> |c.index.value.pages| == |c.firstRows.value|)
  }

  function PageEnd(rows: nat, firstRows: seq<nat>, i: nat): nat
    requires i < |firstRows|
  {
    if i + 1 < |firstRows| then firstRows[i + 1] else rows
  }

  lemma {:induction false} OffsetsInside(rows: nat, firstRows: seq<nat>, i: nat)
    requires ValidOffsets(rows, firstRows) && i < |firstRows|
    ensures firstRows[i] <= PageEnd(rows, firstRows, i) <= rows
  {
    if i + 1 < |firstRows| { assert firstRows[i + 1] <= firstRows[|firstRows| - 1]; }
  }

  /** `calc_row_counts`: the rows of each page, the last page taking what remains. */
  method CalcRowCounts(rows: nat, firstRows: seq<nat>) returns (counts: seq<nat>)
    requires ValidOffsets(rows, firstRows)
    ensures |counts| == |firstRows|
    ensures forall i :: 0 <= i < |counts| ==> firstRows[i] + counts[i] == PageEnd(rows, firstRows, i)
    ensures forall i :: 0 <= i < |counts| ==>
                          firstRows[i] + counts[i] == if i == |counts| - 1 then rows else firstRows[i + 1]
  {
    counts := [];
    var remaining := rows;
    for idx := 0 to |firstRows|
      invariant |counts| == idx && (idx < |firstRows| ==> remaining == rows - firstRows[idx])
      invariant forall i :: 0 <= i < idx ==> firstRows[i] + counts[i] == PageEnd(rows, firstRows, i)
    {
      OffsetsInside(rows, firstRows, idx);
      if idx < |firstRows| - 1 {
        var rowCount := firstRows[idx + 1] - firstRows[idx];
        remaining := remaining - rowCount;
        counts := counts + [rowCount];
      } else {
        counts := counts + [remaining];
      }
    }
  }

  datatype PageNulls = AllNull | NoneNull | SomeNull | UnknownNulls

  function NullsOf(count: nat, nullCount: Option<nat>): PageNulls {
    match nullCount
    case None => UnknownNulls
    case Some(k) => if k == count then AllNull else if k == 0 then NoneNull else SomeNull
  }

  /** Comparing two literals; when their types differ no comparison holds. */
  predicate Holds(comparable: bool, op: PredicateOperator, a: Datum, b: Datum) { comparable && Compares(op, a, b) }

  function PageStartsWith(page: Page, nulls: PageNulls, prefix: string): Result<bool> {
    if nulls == AllNull then Ok(false)
    else if page.min.Some? && !page.min.value.Text? then Err
    else if page.min.Some? && TextLess(prefix, Cut(page.min.value.s, prefix)) then Ok(false)
    else if page.max.Some? && !page.max.value.Text? then Err
    else Ok(!(page.max.Some? && TextLess(Cut(page.max.value.s, prefix), prefix)))
  }

  function PageNotStartsWith(page: Page, nulls: PageNulls, prefix: string): Result<bool> {
    if nulls != NoneNull || page.min.None? then Ok(true)
    else if !page.min.value.Text? then Err
    else if TextLess(page.min.value.s, prefix) || !(prefix <= page.min.value.s) || page.max.None? then Ok(true)
    else if !page.max.value.Text? then Err
    else Ok(!(prefix <= page.max.value.s))
  }

  predicate PageIn(page: Page, comparable: bool, literals: set<Datum>) {
    match (page.min, page.max)
    case (Some(min), Some(max)) =>
      exists d :: d in literals && !Holds(comparable, LessThan, d, min) && !Holds(comparable, GreaterThan, d, max)
    case (Some(min), None) => exists d :: d in literals && Holds(comparable, GreaterThanOrEq, d, min)
    case (None, Some(max)) => exists d :: d in literals && Holds(comparable, LessThanOrEq, d, max)
    case (None, None) => true
  }

  function PageBinary(
      page: Page, nulls: PageNulls, comparable: bool, op: PredicateOperator, datum: Datum): Result<bool>
  {
    match op
    case Eq =>
      Ok(nulls != AllNull && !(page.min.Some? && Holds(comparable, GreaterThan, page.min.value, datum)) &&
         !(page.max.Some? && Holds(comparable, LessThan, page.max.value, datum)))
    case StartsWith => if datum.Text? then PageStartsWith(page, nulls, datum.s) else Err
    case NotStartsWith => if datum.Text? then PageNotStartsWith(page, nulls, datum.s) else Err
    case _ =>
      var bound := if op in {LessThan, LessThanOrEq} then page.min else page.max;
      Ok(nulls != AllNull && (datum.Nan? || bound.None? || Holds(comparable, op, bound.value, datum)))
  }

  /** The closures given to `calc_row_selection`: may the page hold a row on which the leaf is true? */
  function PageMayMatch(p: Predicate, page: Page, count: nat, comparable: bool): Result<bool>
    requires IsLeaf(p)
  {
    var nulls := NullsOf(count, page.nullCount);
    match p
    case Unary(op, _) => Ok(if op == IsNull then nulls != NoneNull else nulls != AllNull)
    case Binary(op, _, datum) => PageBinary(page, nulls, comparable, op, datum)
    case Set(_, _, literals) => Ok(nulls != AllNull && PageIn(page, comparable, literals))
  }

  function Uniform(n: nat, b: bool): (m: seq<bool>)
    ensures |m| == n && forall r :: 0 <= r < n ==> m[r] == b
  {
    seq(n, _ => b)
  }

  /** The first `k` pages of a column, each read or skipped as its entry says; fails on the first failing entry. */
  function PagesMask(g: PagedGroup, p: Predicate, c: PagedColumn, k: nat): (m: Result<seq<bool>>)
    requires IsLeaf(p) && c.index.Some? && c.index.value.Pages? && c.firstRows.Some?
    requires ValidOffsets(g.rows, c.firstRows.value) && k <= |c.index.value.pages| == |c.firstRows.value|
    ensures m.Ok? ==> |m.value| == if k == 0 then 0 else PageEnd(g.rows, c.firstRows.value, k - 1)
  {
    if k == 0 then Ok([])
    else
      var front :- PagesMask(g, p, c, k - 1);
      var count := PageEnd(g.rows, c.firstRows.value, k - 1) - c.firstRows.value[k - 1];
      var selected :- PageMayMatch(p, c.index.value.pages[k - 1], count, c.index.value.comparable);
      Ok(front + Uniform(count, selected))
  }

  /** `calc_row_selection`. */
  function CalcRowSelection(g: PagedGroup, p: Predicate, missingMightMatch: bool): (m: Result<seq<bool>>)
    requires IsLeaf(p) && ValidPaged(g)
    ensures m.Ok? ==> |m.value| == g.rows
  {
    if p.term !in g.columns then Ok(Uniform(g.rows, missingMightMatch))
    else
      var c := g.columns[p.term];
      if !c.inSchema then Err
      else if c.index.None? then Ok(Uniform(g.rows, true))
      else if c.firstRows.None? || c.index.value.Unsupported? then Err
      else if c.index.value.NoIndex? then Ok(Uniform(g.rows, true))
      else PagesMask(g, p, c, |c.firstRows.value|)
  }

  function VisitPagesLeaf(g: PagedGroup, s: Schema, p: Predicate): (m: Result<seq<bool>>)
    requires IsLeaf(p) && ValidPaged(g)
    ensures m.Ok? ==> |m.value| == g.rows
  {
    match p.op
    case IsNan => Ok(Uniform(g.rows, p.term in s.floating))
    case NotNan => Ok(Uniform(g.rows, true))
    case NotEq => Ok(Uniform(g.rows, true))
    case NotIn => Ok(Uniform(g.rows, true))
    case In =>
      if p.Set? && |p.literals| > IN_PREDICATE_LIMIT then Ok(Uniform(g.rows, true)) else CalcRowSelection(g, p, false)
    case StartsWith => if p.Binary? && !p.literal.Text? then Err else CalcRowSelection(g, p, false)
    case NotStartsWith => if p.Binary? && !p.literal.Text? then Err else CalcRowSelection(g, p, true)
    case NotNull => CalcRowSelection(g, p, false)
    case Eq => CalcRowSelection(g, p, false)
    case _ => CalcRowSelection(g, p, true)
  }

  function Either(a: seq<bool>, b: seq<bool>): (m: seq<bool>)
    requires |a| == |b|
    ensures |m| == |a| && forall r :: 0 <= r < |m| ==> m[r] == (a[r] || b[r])
  {
    seq(|a|, r requires 0 <= r < |a| => a[r] || b[r])
  }

  /** The visitor of `PageIndexEvaluator`, as one boolean for each row of the row group. */
  function VisitPages(g: PagedGroup, s: Schema, p: Predicate): (m: Result<seq<bool>>)
    requires ValidPaged(g)
    ensures m.Ok? ==> |m.value| == g.rows
  {
    match p
    case AlwaysTrue => Ok(Uniform(g.rows, true))
    case AlwaysFalse => Ok(Uniform(g.rows, false))
    case And(l, r) =>
      var a :- VisitPages(g, s, l);
      var b :- VisitPages(g, s, r);
      Ok(Both(a, b))
    case Or(l, r) =>
      var a :- VisitPages(g, s, l);
      var b :- VisitPages(g, s, r);
      Ok(Either(a, b))
    case Not(_) => Err
    case _ => VisitPagesLeaf(g, s, p)
  }

  /** `PageIndexEvaluator::eval`. */
  function EvalPages(g: PagedGroup, s: Schema, p: Predicate): (m: Result<seq<bool>>)
    requires ValidPaged(g)
    ensures m.Ok? ==> |m.value| == g.rows
  {
    if g.rows == 0 then Ok([]) else VisitPages(g, s, p)
  }

  // ---- what the column index has to say ----

  predicate Usable(c: PagedColumn) { c.inSchema && c.index.Some? && c.index.value.Pages? && c.firstRows.Some? }

  /** The rows of page `i`. */
  function PageRows(g: PagedGroup, c: PagedColumn, rows: seq<Row>, i: nat): seq<Row>
    requires c.firstRows.Some? && ValidOffsets(g.rows, c.firstRows.value) && i < |c.firstRows.value| && |rows| == g.rows
  {
    OffsetsInside(g.rows, c.firstRows.value, i);
    rows[c.firstRows.value[i]..PageEnd(g.rows, c.firstRows.value, i)]
  }

  ghost predicate PageTrue(page: Page, comparable: bool, rows: seq<Row>, term: string) {
    && NullsAgree(page.nullCount, rows, term)
    && AtLeast(page.min, rows, term) && AtMost(page.max, rows, term)
    && (comparable || (page.min.None? && page.max.None?) || forall i :: 0 <= i < |rows| ==> rows[i](term).None?)
  }

  /** The entries say the truth about their pages, and bounds of pages with values compare with literals. */
  ghost predicate PagesSound(g: PagedGroup, rows: seq<Row>)
    requires ValidPaged(g) && |rows| == g.rows
  {
    forall term, i :: term in g.columns && Usable(g.columns[term]) && 0 <= i < |g.columns[term].firstRows.value| ==>
                        PageSound(g, g.columns[term], rows, term, i)
  }

  ghost predicate PageSound(g: PagedGroup, c: PagedColumn, rows: seq<Row>, term: string, i: nat)
    requires Usable(c) && ValidOffsets(g.rows, c.firstRows.value) && |rows| == g.rows
    requires i < |c.index.value.pages| == |c.firstRows.value|
  {
    PageTrue(c.index.value.pages[i], c.index.value.comparable, PageRows(g, c, rows, i), term)
  }

  ghost predicate PageTyped(s: Schema, term: string, page: Page) {
    (page.min.Some? ==> OfType(s, term, page.min.value)) && (page.max.Some? ==> OfType(s, term, page.max.value))
  }

  ghost predicate PagesTyped(s: Schema, g: PagedGroup) {
    forall term, i :: term in g.columns && Usable(g.columns[term]) && 0 <= i < |g.columns[term].index.value.pages| ==>
                        PageTyped(s, term, g.columns[term].index.value.pages[i])
  }

  ghost predicate SkipsSafely(p: Predicate, columns: set<string>, mask: seq<bool>, rows: seq<Row>)
    requires |mask| == |rows|
  {
    forall r :: 0 <= r < |rows| && !mask[r] ==> Filter(p, columns, rows[r]) != True
  }

  /** Skipping pages never loses a row. */
  ghost predicate PageIndexConservative(g: PagedGroup, s: Schema, rows: seq<Row>)
    requires ValidPaged(g) && |rows| == g.rows
  {
    forall p: Predicate :: Bound(p, s) && EvalPages(g, s, p).Ok? ==>
                             SkipsSafely(p, g.columns.Keys, EvalPages(g, s, p).value, rows)
  }

  // ---- one value in a page ----

  predicate UsesBounds(p: Predicate) {
    && IsLeaf(p)
    && p.op in {IsNull, NotNull, LessThan, LessThanOrEq, GreaterThan, GreaterThanOrEq, Eq, StartsWith, NotStartsWith,
                In}
  }

  lemma {:induction false} PageComparisonRuledOut(page: Page, n: nat, op: PredicateOperator, v: Datum, d: Datum)
    requires SameKind(v, d) && Between(Stats(page.nullCount, Ok(page.min), Ok(page.max)), v) &&
             page.nullCount != Some(n)
    requires op in {LessThan, LessThanOrEq, GreaterThan, GreaterThanOrEq, Eq}
    requires PageBinary(page, NullsOf(n, page.nullCount), true, op, d) == Ok(false)
    ensures !Compares(op, v, d)
  {
    hide Less, LessEq;
    if page.min.Some? {
      LowerRulesOut(page.min.value, v, d);
      Trichotomy(page.min.value, v);
    }
    if page.max.Some? {
      UpperRulesOut(page.max.value, v, d);
      Trichotomy(v, page.max.value);
    }
  }

  lemma {:induction false} PagePrefixRuledOut(page: Page, n: nat, op: PredicateOperator, v: Datum, d: Datum)
    requires SameKind(v, d) && Between(Stats(page.nullCount, Ok(page.min), Ok(page.max)), v) &&
             page.nullCount != Some(n)
    requires op in {StartsWith, NotStartsWith} && n > 0
    requires PageBinary(page, NullsOf(n, page.nullCount), true, op, d) == Ok(false)
    ensures !Compares(op, v, d)
  {
    hide TextLess, TextLessEq, Cut, Compares;
    PrefixRuledOut(Stats(page.nullCount, Ok(page.min), Ok(page.max)), n, op, v, d);
  }

  lemma {:induction false} PageInRuledOut(page: Page, v: Datum, literals: set<Datum>)
    requires Between(Stats(page.nullCount, Ok(page.min), Ok(page.max)), v) && !PageIn(page, true, literals)
    ensures v !in literals
  {
    hide Less, LessEq;
    if page.min.Some? { Trichotomy(page.min.value, v); }
    if page.max.Some? { Trichotomy(v, page.max.value); }
  }

  /** A row of a page that its entry rules out. */
  lemma {:induction false} PageRuledOut(s: Schema, p: Predicate, page: Page, comparable: bool, rows: seq<Row>, j: nat)
    requires UsesBounds(p) && Bound(p, s) && RowsTyped(s, rows) && PageTyped(s, p.term, page)
    requires PageTrue(page, comparable, rows, p.term) && j < |rows|
    requires PageMayMatch(p, page, |rows|, comparable) == Ok(false)
    ensures Eval(p, rows[j]) != True
  {
    hide Compares, LessEq, PageBinary, PageIn;
    var cell := rows[j](p.term);
    if cell.Some? && !p.Unary? {
      assert Between(Stats(page.nullCount, Ok(page.min), Ok(page.max)), cell.value);
      assert page.nullCount != Some(|rows|);
      Unbounded(p, page, |rows|, comparable);
      if p.Set? { PageInRuledOut(page, cell.value, p.literals); }
      else if p.op in {StartsWith, NotStartsWith} { PagePrefixRuledOut(page, |rows|, p.op, cell.value, p.literal); }
      else { PageComparisonRuledOut(page, |rows|, p.op, cell.value, p.literal); }
    }
  }

  /** Without bounds it does not matter whether literals compare. */
  lemma {:induction false} Unbounded(p: Predicate, page: Page, n: nat, comparable: bool)
    requires UsesBounds(p) && (comparable || (page.min.None? && page.max.None?))
    ensures PageMayMatch(p, page, n, comparable) == PageMayMatch(p, page, n, true)
  {
  }

  // ---- rows and pages ----

  lemma {:induction false} PageOfRow(rows: nat, firstRows: seq<nat>, r: nat) returns (i: nat)
    requires ValidOffsets(rows, firstRows) && r < rows
    ensures i < |firstRows| && firstRows[i] <= r < PageEnd(rows, firstRows, i)
  {
    i := 0;
    while i + 1 < |firstRows| && firstRows[i + 1] <= r
      invariant i < |firstRows| && firstRows[i] <= r
    {
      i := i + 1;
    }
  }

  /** A row is read as the entry of its page says. */
  lemma {:induction false} MaskAt(g: PagedGroup, p: Predicate, c: PagedColumn, k: nat, i: nat, r: nat)
    requires IsLeaf(p) && c.index.Some? && c.index.value.Pages? && c.firstRows.Some?
    requires ValidOffsets(g.rows, c.firstRows.value) && i < k <= |c.index.value.pages| == |c.firstRows.value|
    requires PagesMask(g, p, c, k).Ok? && c.firstRows.value[i] <= r < PageEnd(g.rows, c.firstRows.value, i)
    ensures r < |PagesMask(g, p, c, k).value|
    ensures PageMayMatch(p, c.index.value.pages[i], PageEnd(g.rows, c.firstRows.value, i) - c.firstRows.value[i],
                         c.index.value.comparable) == Ok(PagesMask(g, p, c, k).value[r])
    decreases k
  {
    hide PageMayMatch;
    if i < k - 1 { MaskAt(g, p, c, k - 1, i, r); }
  }

  lemma {:induction false} SelectionSkipsSafely(
      g: PagedGroup, s: Schema, p: Predicate, missing: bool, rows: seq<Row>, r: nat)
    requires ValidPaged(g) && UsesBounds(p) && Bound(p, s) && RowsTyped(s, rows) && PagesTyped(s, g) &&
             r < |rows| == g.rows
    requires PagesSound(g, rows) && p.term in g.columns
    requires CalcRowSelection(g, p, missing).Ok? && !CalcRowSelection(g, p, missing).value[r]
    ensures Eval(p, rows[r]) != True
  {
    hide Eval, PageMayMatch, PageTrue, PageTyped, PageEnd, PagesMask, Bound;
    var c := g.columns[p.term];
    assert Usable(c) && PagesMask(g, p, c, |c.firstRows.value|) == CalcRowSelection(g, p, missing);
    var i := PageOfRow(g.rows, c.firstRows.value, r);
    OffsetsInside(g.rows, c.firstRows.value, i);
    MaskAt(g, p, c, |c.firstRows.value|, i, r);
    assert PageSound(g, c, rows, p.term, i);
    var slice := PageRows(g, c, rows, i);
    assert slice[r - c.firstRows.value[i]] == rows[r];
    PageRuledOut(s, p, c.index.value.pages[i], c.index.value.comparable, slice, r - c.firstRows.value[i]);
  }

  lemma {:induction false} LeafSkipsSafely(g: PagedGroup, s: Schema, p: Predicate, rows: seq<Row>, r: nat)
    requires ValidPaged(g) && IsLeaf(p) && Bound(p, s) && RowsTyped(s, rows) && PagesTyped(s, g) && r < |rows| == g.rows
    requires PagesSound(g, rows) && VisitPagesLeaf(g, s, p).Ok? && !VisitPagesLeaf(g, s, p).value[r]
    ensures Filter(p, g.columns.Keys, rows[r]) != True
  {
    hide Eval, PagesMask, PagesSound, RowsTyped, PagesTyped, ValidPaged, OfType;
    if p.term in g.columns && UsesBounds(p) {
      var missing := p.op in {IsNull, LessThan, LessThanOrEq, GreaterThan, GreaterThanOrEq, NotStartsWith};
      assert VisitPagesLeaf(g, s, p) == CalcRowSelection(g, p, missing) ||
             VisitPagesLeaf(g, s, p) == Ok(Uniform(g.rows, true));
      SelectionSkipsSafely(g, s, p, missing, rows, r);
    }
  }

  lemma {:induction false} VisitSkipsSafely(g: PagedGroup, s: Schema, p: Predicate, rows: seq<Row>, r: nat)
    requires ValidPaged(g) && Bound(p, s) && RowsTyped(s, rows) && PagesTyped(s, g) && r < |rows| == g.rows
    requires PagesSound(g, rows) && VisitPages(g, s, p).Ok? && !VisitPages(g, s, p).value[r]
    ensures Filter(p, g.columns.Keys, rows[r]) != True
  {
    hide ValidPaged, PagesSound, PagesTyped, RowsTyped, VisitPagesLeaf, Eval, OfType;
    match p
    case And(l, r') =>
      if !VisitPages(g, s, l).value[r] {
        VisitSkipsSafely(g, s, l, rows, r);
      } else {
        VisitSkipsSafely(g, s, r', rows, r);
      }
    case Or(l, r') =>
      VisitSkipsSafely(g, s, l, rows, r);
      VisitSkipsSafely(g, s, r', rows, r);
    case AlwaysFalse => FalseIsFalse(rows[r]);
    case _ => if IsLeaf(p) { LeafSkipsSafely(g, s, p, rows, r); }
  }

  // ---- when an evaluation succeeds ----

  /** The column has no column index, or one that can be used, with the places of its pages. */
  predicate IndexReadable(c: PagedColumn) {
    c.inSchema && (c.index.None? || (c.firstRows.Some? && !c.index.value.Unsupported?))
  }

  /** Prefix tests are made of text, and the columns asked about have an index that can be used, or none. */
  predicate PagesAnswerable(g: PagedGroup, p: Predicate) {
    match p
    case And(l, r) => PagesAnswerable(g, l) && PagesAnswerable(g, r)
    case Or(l, r) => PagesAnswerable(g, l) && PagesAnswerable(g, r)
    case Unary(op, term) => op in {IsNan, NotNan} || (term in g.columns ==> IndexReadable(g.columns[term]))
    case Binary(op, term, literal) =>
      op == NotEq ||
      ((op in {StartsWith, NotStartsWith} ==> literal.Text?) && (term in g.columns ==> IndexReadable(g.columns[term])))
    case Set(op, term, literals) =>
      op == NotIn || |literals| > 200 || (term in g.columns ==> IndexReadable(g.columns[term]))
    case _ => true
  }

  lemma {:induction false} TypedPagesAnswer(g: PagedGroup, s: Schema, p: Predicate, c: PagedColumn, k: nat)
    requires IsLeaf(p) && Bound(p, s) && Usable(c) && (p.op in {StartsWith, NotStartsWith} ==> p.literal.Text?)
    requires ValidOffsets(g.rows, c.firstRows.value) && k <= |c.index.value.pages| == |c.firstRows.value|
    requires forall i :: 0 <= i < |c.index.value.pages| ==> PageTyped(s, p.term, c.index.value.pages[i])
    ensures PagesMask(g, p, c, k).Ok?
  {
    hide PageEnd, PageIn, Cut, TextLess, Compares;
    if k > 0 {
      TypedPagesAnswer(g, s, p, c, k - 1);
      assert PageTyped(s, p.term, c.index.value.pages[k - 1]);
    }
  }

  lemma {:induction false} PagesLeafSucceeds(g: PagedGroup, s: Schema, p: Predicate)
    requires ValidPaged(g) && IsLeaf(p) && Bound(p, s) && PagesTyped(s, g)
    ensures VisitPagesLeaf(g, s, p).Ok? <==> PagesAnswerable(g, p)
  {
    hide PagesMask, PageTyped, OfType;
    if p.term in g.columns && Usable(g.columns[p.term]) {
      var c := g.columns[p.term];
      if p.op in {StartsWith, NotStartsWith} ==> p.literal.Text? {
        assert forall i :: 0 <= i < |c.index.value.pages| ==> PageTyped(s, p.term, c.index.value.pages[i]);
        TypedPagesAnswer(g, s, p, c, |c.firstRows.value|);
      }
    }
  }

  /** On column indexes of the columns' types a predicate is answered exactly when it asks of usable ones. */
  lemma {:induction false} VisitPagesSucceeds(g: PagedGroup, s: Schema, p: Predicate)
    requires ValidPaged(g) && Bound(p, s) && PagesTyped(s, g)
    ensures VisitPages(g, s, p).Ok? <==> PagesAnswerable(g, p)
  {
    hide ValidPaged, PagesTyped, VisitPagesLeaf, OfType;
    match p
    case And(l, r) => VisitPagesSucceeds(g, s, l); VisitPagesSucceeds(g, s, r);
    case Or(l, r) => VisitPagesSucceeds(g, s, l); VisitPagesSucceeds(g, s, r);
    case AlwaysTrue =>
    case AlwaysFalse =>
    case _ => PagesLeafSucceeds(g, s, p);
  }

  lemma {:induction false} ReadableIsAnswerable(g: PagedGroup, p: Predicate)
    requires TextPrefixes(p) && forall term :: term in g.columns ==> IndexReadable(g.columns[term])
    ensures PagesAnswerable(g, p)
  {
    hide IndexReadable;
    match p
    case And(l, r) => ReadableIsAnswerable(g, l); ReadableIsAnswerable(g, r);
    case Or(l, r) => ReadableIsAnswerable(g, l); ReadableIsAnswerable(g, r);
    case _ =>
  }

  // ---- when a page is skipped ----

  /**
   On bounds that compare and are not NaN a page is skipped exactly when a row group with its statistics would be ruled
   out, so exactly when no value between the bounds satisfies the comparison.
   */
  lemma {:induction false} PageAgreesWithRowGroup(page: Page, n: nat, op: PredicateOperator, d: Datum)
    requires op in {LessThan, LessThanOrEq, GreaterThan, GreaterThanOrEq, Eq, StartsWith, NotStartsWith}
    requires (page.min.Some? ==> SameKind(page.min.value, d) && !page.min.value.Nan?) &&
             (page.max.Some? ==> SameKind(page.max.value, d) && !page.max.value.Nan?)
    requires op in {StartsWith, NotStartsWith} ==> d.Text? && n > 0
    ensures PageBinary(page, NullsOf(n, page.nullCount), true, op, d) ==
            VisitBinary(Stats(page.nullCount, Ok(page.min), Ok(page.max)), n, op, d)
  {
    hide TextLess, TextLessEq, Cut;
  }

  /** With a bound at hand a set test skips the page exactly when no literal lies within the bounds. */
  lemma {:induction false} PageInExactly(page: Page, literals: set<Datum>)
    requires page.min.Some? || page.max.Some?
    requires forall d :: d in literals ==> (page.min.Some? ==> SameKind(page.min.value, d)) &&
                                           (page.max.Some? ==> SameKind(page.max.value, d))
    ensures PageIn(page, true, literals) <==>
            exists d :: d in literals && (page.min.Some? ==> LessEq(page.min.value, d)) &&
                        (page.max.Some? ==> LessEq(d, page.max.value))
  {
    hide Less, LessEq;
    forall d | d in literals
      ensures page.min.Some? ==> (LessEq(page.min.value, d) <==> !Less(d, page.min.value))
      ensures page.max.Some? ==> (LessEq(d, page.max.value) <==> !Less(page.max.value, d))
    {
      if page.min.Some? { Trichotomy(page.min.value, d); }
      if page.max.Some? { Trichotomy(d, page.max.value); }
    }
  }

  /** How the selections are joined, row by row. */
  lemma {:induction false} JoinedSelections(g: PagedGroup, s: Schema, p: Predicate, q: Predicate, r: nat)
    requires ValidPaged(g) && VisitPages(g, s, p).Ok? && VisitPages(g, s, q).Ok? && r < g.rows
    ensures VisitPages(g, s, And(p, q)).Ok? && VisitPages(g, s, Or(p, q)).Ok?
    ensures VisitPages(g, s, And(p, q)).value[r] <==> VisitPages(g, s, p).value[r] && VisitPages(g, s, q).value[r]
    ensures VisitPages(g, s, Or(p, q)).value[r] <==> VisitPages(g, s, p).value[r] || VisitPages(g, s, q).value[r]
    ensures EvalPages(g, s, AlwaysTrue) == Ok(Uniform(g.rows, true)) &&
            EvalPages(g, s, AlwaysFalse) == Ok(Uniform(g.rows, false))
  {
    hide VisitPagesLeaf, ValidPaged;
  }

  /** Inequality and negated set tests skip no page. */
  lemma {:induction false} NeverSkipped(g: PagedGroup, s: Schema, term: string, d: Datum, literals: set<Datum>)
    requires ValidPaged(g)
    ensures VisitPages(g, s, Binary(NotEq, term, d)) == VisitPages(g, s, Set(NotIn, term, literals)) ==
            Ok(Uniform(g.rows, true))
  {
    hide CalcRowSelection, ValidPaged;
  }

  /**
   A column that the row group does not have: comparisons other than `=`, null tests and negated prefix tests read every
   row, and `=`, `in`, prefix and non-null tests read none.
   */
  lemma {:induction false} MissingColumnSelects(g: PagedGroup, s: Schema, p: Predicate)
    requires ValidPaged(g) && IsLeaf(p) && Bound(p, s) && p.term !in g.columns
    requires (p.Binary? && p.op in {StartsWith, NotStartsWith} ==> p.literal.Text?) && (p.Set? ==> |p.literals| <= 200)
    ensures p.op in {IsNull, LessThan, LessThanOrEq, GreaterThan, GreaterThanOrEq, NotStartsWith} ==>
              VisitPages(g, s, p) == Ok(Uniform(g.rows, true))
    ensures p.op in {NotNull, Eq, StartsWith, In} ==> VisitPages(g, s, p) == Ok(Uniform(g.rows, false))
  {
    hide ValidPaged;
  }

  // ---- exactly the sound column indexes ----

  lemma {:induction false} NeverFails(g: PagedGroup, p: Predicate, c: PagedColumn, k: nat)
    requires UsesBounds(p) && p.op !in {StartsWith, NotStartsWith} && Usable(c)
    requires ValidOffsets(g.rows, c.firstRows.value) && k <= |c.index.value.pages| == |c.firstRows.value|
    ensures PagesMask(g, p, c, k).Ok?
  {
    hide PageEnd, PageIn;
    if k > 0 { NeverFails(g, p, c, k - 1); }
  }

  /** A predicate that is true of a value which incomparable bounds, or bounds on its wrong side, rule out. */
  function Hidden(term: string, page: Page, comparable: bool, v: Datum): Predicate {
    if comparable then
      if page.min.Some? && !LessEq(page.min.value, v) then BeyondLower(term, v)
      else BeyondUpper(term, v, if page.max.Some? then page.max.value else v)
    else if page.max.Some? then Binary(GreaterThanOrEq, term, if v.Nan? then Number(0) else v)
    else if v.Nan? then Set(In, term, {Nan})
    else Binary(LessThanOrEq, term, v)
  }

  lemma {:induction false} HiddenIsRuledOut(s: Schema, term: string, page: Page, comparable: bool, n: nat, v: Datum)
    requires PageTyped(s, term, page) && OfType(s, term, v)
    requires if comparable
             then (page.min.Some? && !LessEq(page.min.value, v)) || (page.max.Some? && !LessEq(v, page.max.value))
             else page.min.Some? || page.max.Some?
    ensures var p := Hidden(term, page, comparable, v);
            && Bound(p, s) && UsesBounds(p) && p.term == term && p.op !in {StartsWith, NotStartsWith}
            && (p.Set? ==> |p.literals| == 1)
            && PageMayMatch(p, page, n, comparable) == Ok(false)
            && forall row: Row :: row(term) == Some(v) ==> Eval(p, row) == True
  {
    hide TextLess, TextLessEq;
    Trichotomy(v, v);
    if page.max.Some? {
      Trichotomy(v, page.max.value);
      Trichotomy(page.max.value, page.max.value);
    }
  }

  /** Each untrue entry hides a row of some predicate. */
  lemma {:induction false} UntruePageHides(s: Schema, page: Page, comparable: bool, rows: seq<Row>, term: string)
    returns (p: Predicate, j: nat)
    requires RowsTyped(s, rows) && PageTyped(s, term, page) && !PageTrue(page, comparable, rows, term)
    ensures Bound(p, s) && UsesBounds(p) && p.term == term && p.op !in {StartsWith, NotStartsWith}
    ensures p.Set? ==> |p.literals| == 1
    ensures j < |rows| && PageMayMatch(p, page, |rows|, comparable) == Ok(false) && Eval(p, rows[j]) == True
  {
    hide Less, LessEq, PageIn, PageBinary, Compares;
    if !NullsAgree(page.nullCount, rows, term) {
      if page.nullCount == Some(|rows|) {
        j :| j < |rows| && rows[j](term).Some?;
        p := Unary(NotNull, term);
      } else {
        j :| j < |rows| && rows[j](term).None?;
        p := Unary(IsNull, term);
      }
    } else {
      if comparable && !AtLeast(page.min, rows, term) {
        j :| j < |rows| && rows[j](term).Some? && !LessEq(page.min.value, rows[j](term).value);
      } else if comparable {
        j :| j < |rows| && rows[j](term).Some? && !LessEq(rows[j](term).value, page.max.value);
      } else {
        j :| j < |rows| && rows[j](term).Some?;
        assert page.min.Some? || page.max.Some?;
      }
      p := Hidden(term, page, comparable, rows[j](term).value);
      HiddenIsRuledOut(s, term, page, comparable, |rows|, rows[j](term).value);
    }
  }

  lemma {:induction false} UnsoundPageLosesRow(g: PagedGroup, s: Schema, rows: seq<Row>, term: string, i: nat)
    returns (p: Predicate, r: nat)
    requires ValidPaged(g) && |rows| == g.rows && RowsTyped(s, rows) && PagesTyped(s, g)
    requires term in g.columns && Usable(g.columns[term]) && i < |g.columns[term].firstRows.value|
    requires !PageSound(g, g.columns[term], rows, term, i)
    ensures Bound(p, s) && EvalPages(g, s, p).Ok? && r < |rows|
    ensures !EvalPages(g, s, p).value[r] && Filter(p, g.columns.Keys, rows[r]) == True
  {
    hide Eval, PageMayMatch, PageTrue, PageTyped, PageEnd, PagesMask, OfType;
    var c := g.columns[term];
    var page, slice := c.index.value.pages[i], PageRows(g, c, rows, i);
    OffsetsInside(g.rows, c.firstRows.value, i);
    var j;
    p, j := UntruePageHides(s, page, c.index.value.comparable, slice, term);
    r := c.firstRows.value[i] + j;
    assert slice[j] == rows[r];
    NeverFails(g, p, c, |c.firstRows.value|);
    MaskAt(g, p, c, |c.firstRows.value|, i, r);
  }

  /** The page evaluator is safe for every predicate if and only if the column index is true of the rows. */
  lemma {:induction false} PageIndexConservativeWhenSound(g: PagedGroup, s: Schema, rows: seq<Row>)
    requires ValidPaged(g) && |rows| == g.rows && RowsTyped(s, rows) && PagesTyped(s, g)
    ensures PageIndexConservative(g, s, rows) <==> PagesSound(g, rows)
  {
    hide Bound, VisitPages, Filter, PageSound, RowsTyped, PagesTyped;
    if PagesSound(g, rows) {
      forall p: Predicate | Bound(p, s) && EvalPages(g, s, p).Ok?
        ensures SkipsSafely(p, g.columns.Keys, EvalPages(g, s, p).value, rows)
      {
        forall r | 0 <= r < |rows| && !EvalPages(g, s, p).value[r] ensures Filter(p, g.columns.Keys, rows[r]) != True {
          VisitSkipsSafely(g, s, p, rows, r);
        }
      }
    } else {
      var term, i :| term in g.columns && Usable(g.columns[term]) && 0 <= i < |g.columns[term].firstRows.value| &&
                     !PageSound(g, g.columns[term], rows, term, i);
      var p, r := UnsoundPageLosesRow(g, s, rows, term, i);
    }
  }

  /** One page of one row, whose only value is 7 and whose bounds do not compare with literals. */
  function PromotedGroup(term: string): PagedGroup {
    var page := Page(Some(Number(7)), Some(Number(7)), Some(0));
    PagedGroup(1, map[term := PagedColumn(true, Some(Pages([page], false)), Some([0]))])
  }

  lemma {:induction false} PromotedMask(term: string)
    ensures var g, p := PromotedGroup(term), Binary(GreaterThan, term, Number(5));
            ValidPaged(g) && EvalPages(g, Schema({}, {}), p) == Ok([false])
  {
    hide Compares;
    var g, p := PromotedGroup(term), Binary(GreaterThan, term, Number(5));
    var c := g.columns[term];
    assert PagesMask(g, p, c, 0) == Ok([]);
    assert PageMayMatch(p, c.index.value.pages[0], 1, false) == Ok(false);
    assert PagesMask(g, p, c, 1) == Ok([] + Uniform(1, false));
    assert [] + Uniform(1, false) == [false];
  }

  /**
   Bounds that do not compare rule a page out under any inequality: a column of 32-bit integers read as 64-bit ones, of
   which the page's only row is lost although its value satisfies the predicate.
   */
  lemma {:induction false} PromotedRowLost(term: string, row: Row)
    requires row(term) == Some(Number(7))
    ensures var g, p := PromotedGroup(term), Binary(GreaterThan, term, Number(5));
            ValidPaged(g) && EvalPages(g, Schema({}, {}), p) == Ok([false]) && Filter(p, g.columns.Keys, row) == True
  {
    hide EvalPages, ValidPaged;
    PromotedMask(term);
  }

  // ---- the evaluators of a scan ----

  /** The metadata of a file, one entry for each row group. */
  datatype Metadata = Metadata(schema: Schema, groups: seq<RowGroup>, paged: seq<PagedGroup>, columns: set<string>)

  /** The rows of row group `g` of the file. */
  function GroupRows(groups: seq<nat>, rows: seq<Row>, g: nat): (r: seq<Row>)
    requires g < |groups| && |rows| == TotalRows(groups)
    ensures |r| == groups[g] && Base(groups, g) + |r| <= |rows|
    ensures forall i :: 0 <= i < |r| ==> r[i] == rows[Base(groups, g) + i]
  {
    BaseStep(groups, g);
    BaseMonotone(groups, g + 1, |groups|);
    rows[Base(groups, g)..Base(groups, g + 1)]
  }

  /** The metadata fits the file: the same row groups, columns and types in the statistics, the index and the rows. */
  ghost predicate Describes(m: Metadata, groups: seq<nat>, rows: seq<Row>)
    requires |rows| == TotalRows(groups)
  {
    && |m.groups| == |m.paged| == |groups| && RowsTyped(m.schema, rows)
    && forall g: nat :: g < |groups| ==> DescribesGroup(m, groups[g], g)
  }

  ghost predicate DescribesGroup(m: Metadata, n: nat, g: nat)
    requires g < |m.groups| == |m.paged|
  {
    && m.groups[g].rows == m.paged[g].rows == n && m.groups[g].stats.Keys == m.paged[g].columns.Keys == m.columns
    && ValidPaged(m.paged[g]) && StatsTyped(m.schema, m.groups[g]) && PagesTyped(m.schema, m.paged[g])
  }

  ghost predicate TrueMetadata(m: Metadata, groups: seq<nat>, rows: seq<Row>)
    requires |rows| == TotalRows(groups) && Describes(m, groups, rows)
  {
    forall g: nat :: g < |groups| ==> TrueGroup(m, groups, rows, g)
  }

  ghost predicate TrueGroup(m: Metadata, groups: seq<nat>, rows: seq<Row>, g: nat)
    requires |rows| == TotalRows(groups) && g < |groups| && Describes(m, groups, rows)
  {
    assert DescribesGroup(m, groups[g], g);
    StatsSound(m.groups[g], GroupRows(groups, rows, g)) && PagesSound(m.paged[g], GroupRows(groups, rows, g))
  }

  /** The scan's answers are the evaluators' on this metadata, and its truth is the row filter's. */
  ghost predicate EvaluatedOn(scan: Scan, m: Metadata, p: Predicate, rows: seq<Row>)
    requires ValidScan(scan) && |rows| == TotalRows(scan.rows) && Describes(m, scan.rows, rows)
  {
    && (forall x :: 0 <= x < |rows| ==> scan.truth[x] == Filter(p, m.columns, rows[x]))
    && (forall g :: 0 <= g < |scan.rows| ==> scan.groupMayMatch[g] == EvalRowGroup(m.groups[g], p))
    && (scan.pageIndex.Some? ==> forall g: nat :: g < |scan.rows| ==>
                                   DescribesGroup(m, scan.rows[g], g) && PagesEvaluated(scan, m, p, g))
  }

  ghost predicate PagesEvaluated(scan: Scan, m: Metadata, p: Predicate, g: nat)
    requires scan.pageIndex.Some? && g < |scan.pageIndex.value| && g < |m.paged| && ValidPaged(m.paged[g])
  {
    AnswersPages(scan.pageIndex.value[g], m.paged[g], m.schema, p)
  }

  /** A run list reads exactly the rows the evaluator reads, or both fail. */
  ghost predicate AnswersPages(runs: Result<seq<RowSelector>>, g: PagedGroup, s: Schema, p: Predicate)
    requires ValidPaged(g)
  {
    (runs.Ok? <==> EvalPages(g, s, p).Ok?) && (runs.Ok? ==> Expand(runs.value) == EvalPages(g, s, p).value)
  }

  /** On metadata that is true of the file the evaluators are conservative, whatever is asked. */
  lemma {:induction false} TrueMetadataIsConservative(scan: Scan, m: Metadata, p: Predicate, rows: seq<Row>)
    requires ValidScan(scan) && |rows| == TotalRows(scan.rows) && Describes(m, scan.rows, rows)
    requires Bound(p, m.schema) && TrueMetadata(m, scan.rows, rows) && EvaluatedOn(scan, m, p, rows)
    ensures Conservative(scan)
  {
    hide Base, Bound, EvalRowGroup, EvalPages, Filter;
    hide StatsSound, PagesSound, RowsTyped, DescribesGroup, NothingIn, PagesConservative;
    forall g: nat | g < |scan.rows| && RuledOut(scan.groupMayMatch[g]) ensures NothingIn(scan, g) {
      GroupHasNothing(scan, m, p, rows, g);
    }
    if scan.pageIndex.Some? {
      forall g: nat | g < |scan.rows| && scan.pageIndex.value[g].Ok?
        ensures PagesConservative(scan, g, scan.pageIndex.value[g].value)
      {
        SkippedPagesHaveNothing(scan, m, p, rows, g);
      }
    }
  }

  lemma {:induction false} GroupTyped(m: Metadata, groups: seq<nat>, rows: seq<Row>, g: nat)
    requires |rows| == TotalRows(groups) && g < |groups| && Describes(m, groups, rows)
    ensures RowsTyped(m.schema, GroupRows(groups, rows, g))
  {
    hide OfType, Base;
  }

  lemma {:induction false} GroupHasNothing(scan: Scan, m: Metadata, p: Predicate, rows: seq<Row>, g: nat)
    requires ValidScan(scan) && |rows| == TotalRows(scan.rows) && Describes(m, scan.rows, rows)
    requires Bound(p, m.schema) && TrueMetadata(m, scan.rows, rows) && EvaluatedOn(scan, m, p, rows)
    requires g < |scan.rows| && RuledOut(scan.groupMayMatch[g])
    ensures NothingIn(scan, g)
  {
    hide Base, Bound, VisitRowGroup, EvalPages, Filter, StatsSound, PagesSound, RowsTyped, PagesEvaluated;
    var part := GroupRows(scan.rows, rows, g);
    GroupTyped(m, scan.rows, rows, g);
    assert DescribesGroup(m, scan.rows[g], g) && TrueGroup(m, scan.rows, rows, g);
    BaseStep(scan.rows, g);
    forall x: nat | Base(scan.rows, g) <= x < Base(scan.rows, g + 1) && x < |scan.truth| ensures scan.truth[x] != True {
      var i := x - Base(scan.rows, g);
      assert part[i] == rows[x];
      VisitRulesOut(m.groups[g], m.schema, p, part, i);
    }
  }

  lemma {:induction false} SkippedPagesHaveNothing(scan: Scan, m: Metadata, p: Predicate, rows: seq<Row>, g: nat)
    requires ValidScan(scan) && |rows| == TotalRows(scan.rows) && Describes(m, scan.rows, rows)
    requires Bound(p, m.schema) && TrueMetadata(m, scan.rows, rows) && EvaluatedOn(scan, m, p, rows)
    requires scan.pageIndex.Some? && g < |scan.rows| && scan.pageIndex.value[g].Ok?
    ensures PagesConservative(scan, g, scan.pageIndex.value[g].value)
  {
    hide Base, Bound, EvalRowGroup, VisitPages, Filter, StatsSound, PagesSound, RowsTyped, ValidPaged;
    var part, runs := GroupRows(scan.rows, rows, g), scan.pageIndex.value[g].value;
    GroupTyped(m, scan.rows, rows, g);
    assert DescribesGroup(m, scan.rows[g], g) && TrueGroup(m, scan.rows, rows, g);
    assert PagesEvaluated(scan, m, p, g);
    forall i: nat | i < scan.rows[g] && !Expand(runs)[i] && Base(scan.rows, g) + i < |scan.truth|
      ensures scan.truth[Base(scan.rows, g) + i] != True
    {
      assert part[i] == rows[Base(scan.rows, g) + i];
      VisitSkipsSafely(m.paged[g], m.schema, p, part, i);
    }
  }
}
