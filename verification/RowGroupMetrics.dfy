/**
 Ruling out whole row groups by their column statistics. A row group is ruled out safely when it holds no row that the
 row filter would let through.
 */
module RowGroupMetrics {
  import opened Prelude
  import opened Predicates

  const IN_PREDICATE_LIMIT := 200

  // ---- what binding makes sure of ----

  /** The columns of text, and those of a floating type; all columns but the first hold numbers. */
  datatype Schema = Schema(texts: set<string>, floating: set<string>)

  predicate OfType(s: Schema, term: string, v: Datum) { v.Text? <==> term in s.texts }

  /** A predicate as the evaluators get it: `NOT` eliminated, and each operand of its column's type. */
  predicate Bound(p: Predicate, s: Schema) {
    match p
    case And(l, r) => Bound(l, s) && Bound(r, s)
    case Or(l, r) => Bound(l, s) && Bound(r, s)
    case Not(_) => false
    case Unary(op, term) => op in {IsNull, NotNull} || (op in {IsNan, NotNan} && term in s.floating)
    case Binary(op, term, literal) =>
      op in {LessThan, LessThanOrEq, GreaterThan, GreaterThanOrEq, Eq, NotEq, StartsWith, NotStartsWith} &&
      OfType(s, term, literal)
    case Set(op, term, literals) => op in {In, NotIn} && forall d :: d in literals ==> OfType(s, term, d)
    case _ => true
  }

  ghost predicate RowsTyped(s: Schema, rows: seq<Row>) {
    forall i, term :: 0 <= i < |rows| && rows[i](term).Some? ==> OfType(s, term, rows[i](term).value)
  }

  // ---- bounds of a set of rows ----

  /** Zero says that no row is null, the number of rows that all are. */
  ghost predicate NullsAgree(nullCount: Option<nat>, rows: seq<Row>, term: string) {
    && (nullCount == Some(0) && rows != [] ==> forall i :: 0 <= i < |rows| ==> rows[i](term).Some?)
    && (nullCount == Some(|rows|) ==> forall i :: 0 <= i < |rows| ==> rows[i](term).None?)
  }

  ghost predicate AtLeast(bound: Option<Datum>, rows: seq<Row>, term: string) {
    bound.Some? ==> forall i :: 0 <= i < |rows| && rows[i](term).Some? ==> LessEq(bound.value, rows[i](term).value)
  }

  ghost predicate AtMost(bound: Option<Datum>, rows: seq<Row>, term: string) {
    bound.Some? ==> forall i :: 0 <= i < |rows| && rows[i](term).Some? ==> LessEq(rows[i](term).value, bound.value)
  }

  // ---- prefixes and bounds ----

  /** A bound cut to the length of a prefix. */
  function Cut(bound: string, prefix: string): (r: string)
    ensures r <= bound
  {
    bound[..if |bound| < |prefix| then |bound| else |prefix|]
  }

  lemma {:induction false} PrefixAboveLower(lower: string, v: string, prefix: string)
    requires TextLessEq(lower, v) && prefix <= v
    ensures !TextLess(prefix, Cut(lower, prefix))
    decreases |prefix|
  {
    if prefix != [] && lower != [] && lower[0] == v[0] {
      assert Cut(lower, prefix)[1..] == Cut(lower[1..], prefix[1..]);
      PrefixAboveLower(lower[1..], v[1..], prefix[1..]);
    }
  }

  lemma {:induction false} PrefixBelowUpper(v: string, upper: string, prefix: string)
    requires TextLessEq(v, upper) && prefix <= v
    ensures !TextLess(Cut(upper, prefix), prefix)
    decreases |prefix|
  {
    if prefix != [] && v[0] == upper[0] {
      assert Cut(upper, prefix)[1..] == Cut(upper[1..], prefix[1..]);
      PrefixBelowUpper(v[1..], upper[1..], prefix[1..]);
    }
  }

  /** A text between two texts with a prefix has the prefix. */
  lemma {:induction false} PrefixBetween(lower: string, v: string, upper: string, prefix: string)
    requires TextLessEq(lower, v) && TextLessEq(v, upper) && prefix <= lower && prefix <= upper
    ensures prefix <= v
    decreases |prefix|
  {
    if prefix != [] {
      assert prefix[0] == lower[0] == upper[0];
      PrefixBetween(lower[1..], v[1..], upper[1..], prefix[1..]);
    }
  }

  // ---- row groups by statistics ----

  datatype Stats = Stats(nullCount: Option<nat>, min: Result<Option<Datum>>, max: Result<Option<Datum>>)

  /** A row group with the statistics of the columns it has; a column may be without statistics. */
  datatype RowGroup = RowGroup(rows: nat, stats: map<string, Option<Stats>>)

  function StatsOf(g: RowGroup, term: string): Stats {
    if term in g.stats && g.stats[term].Some? then g.stats[term].value else Stats(None, Ok(None), Ok(None))
  }

  /** `visit_inequality`, for a column of `n` rows. */
  function VisitInequality(stats: Stats, n: nat, op: PredicateOperator, datum: Datum): Result<bool> {
    if stats.nullCount == Some(n) then Ok(false)
    else if datum.Nan? then Ok(true)
    else
      var bound :- if op in {LessThan, LessThanOrEq} then stats.min else stats.max;
      Ok(bound.None? || Compares(op, bound.value, datum))
  }

  function VisitEq(stats: Stats, n: nat, datum: Datum): Result<bool> {
    if stats.nullCount == Some(n) then Ok(false)
    else
      var lower :- stats.min;
      if lower == Some(Nan) then Ok(true)
      else if lower.Some? && Less(datum, lower.value) then Ok(false)
      else
        var upper :- stats.max;
        if upper == Some(Nan) then Ok(true) else Ok(!(upper.Some? && Less(upper.value, datum)))
  }

  function VisitStartsWith(stats: Stats, n: nat, datum: Datum): Result<bool> {
    if stats.nullCount == Some(n) then Ok(false)
    else if !datum.Text? then Err
    else
      var lower :- stats.min;
      if lower.Some? && !lower.value.Text? then Err
      else if lower.Some? && TextLess(datum.s, Cut(lower.value.s, datum.s)) then Ok(false)
      else
        var upper :- stats.max;
        if upper.Some? && !upper.value.Text? then Err
        else Ok(!(upper.Some? && TextLess(Cut(upper.value.s, datum.s), datum.s)))
  }

  function VisitNotStartsWith(stats: Stats, datum: Datum): Result<bool> {
    if stats.nullCount != Some(0) then Ok(true)
    else if !datum.Text? then Err
    else
      var lower :- stats.min;
      if lower.None? then Ok(true)
      else if !lower.value.Text? then Err
      else if TextLess(lower.value.s, datum.s) || !(datum.s <= lower.value.s) then Ok(true)
      else
        var upper :- stats.max;
        if upper.None? then Ok(true)
        else if !upper.value.Text? then Err
        else Ok(!(datum.s <= upper.value.s))
  }

  function VisitIn(stats: Stats, n: nat, literals: set<Datum>): Result<bool> {
    if stats.nullCount == Some(n) then Ok(false)
    else if |literals| > IN_PREDICATE_LIMIT then Ok(true)
    else
      var lower :- stats.min;
      if lower == Some(Nan) then Ok(true)
      else if lower.Some? && !(exists d :: d in literals && LessEq(lower.value, d)) then Ok(false)
      else
        var upper :- stats.max;
        if upper == Some(Nan) then Ok(true)
        else Ok(upper.None? || exists d :: d in literals && LessEq(d, upper.value))
  }

  function VisitBinary(stats: Stats, n: nat, op: PredicateOperator, datum: Datum): Result<bool> {
    match op
    case Eq => VisitEq(stats, n, datum)
    case NotEq => Ok(true)
    case StartsWith => VisitStartsWith(stats, n, datum)
    case NotStartsWith => VisitNotStartsWith(stats, datum)
    case _ => VisitInequality(stats, n, op, datum)
  }

  /** The visitor of `RowGroupMetricsEvaluator`: may the row group hold a row on which the predicate is true? */
  function VisitRowGroup(g: RowGroup, p: Predicate): Result<bool> {
    match p
    case AlwaysTrue => Ok(true)
    case AlwaysFalse => Ok(false)
    case And(l, r) =>
      var a :- VisitRowGroup(g, l);
      var b :- VisitRowGroup(g, r);
      Ok(a && b)
    case Or(l, r) =>
      var a :- VisitRowGroup(g, l);
      var b :- VisitRowGroup(g, r);
      Ok(a || b)
    case Not(q) =>
      var a :- VisitRowGroup(g, q);
      Ok(!a)
    case Unary(op, term) =>
      (match op
       case IsNull => Ok(StatsOf(g, term).nullCount != Some(0))
       case NotNull => Ok(StatsOf(g, term).nullCount != Some(g.rows))
       case _ => Ok(true))
    case Binary(op, term, datum) => VisitBinary(StatsOf(g, term), g.rows, op, datum)
    case Set(op, term, literals) => if op == In then VisitIn(StatsOf(g, term), g.rows, literals) else Ok(true)
  }

  /** `RowGroupMetricsEvaluator::eval`. */
  function EvalRowGroup(g: RowGroup, p: Predicate): Result<bool> {
    if g.rows == 0 then Ok(false) else VisitRowGroup(g, p)
  }

  // ---- what the statistics have to say ----

  ghost predicate BoundTyped(s: Schema, term: string, bound: Result<Option<Datum>>) {
    bound.Ok? && bound.value.Some? ==> OfType(s, term, bound.value.value)
  }

  ghost predicate StatsTyped(s: Schema, g: RowGroup) {
    forall term :: term in g.stats ==>
                     BoundTyped(s, term, StatsOf(g, term).min) && BoundTyped(s, term, StatsOf(g, term).max)
  }

  /** The statistics say the truth about the rows: nulls are counted right, and the bounds hold for every value. */
  ghost predicate StatsSound(g: RowGroup, rows: seq<Row>) {
    forall term :: term in g.stats ==> SoundAbout(StatsOf(g, term), rows, term)
  }

  ghost predicate SoundAbout(stats: Stats, rows: seq<Row>, term: string) {
    && NullsAgree(stats.nullCount, rows, term)
    && (stats.min.Ok? ==> AtLeast(stats.min.value, rows, term))
    && (stats.max.Ok? ==> AtMost(stats.max.value, rows, term))
  }

  ghost predicate NoneTrue(p: Predicate, columns: set<string>, rows: seq<Row>) {
    forall i :: 0 <= i < |rows| ==> Filter(p, columns, rows[i]) != True
  }

  /** Ruling a row group out never loses a row. */
  ghost predicate RowGroupConservative(g: RowGroup, s: Schema, rows: seq<Row>) {
    forall p: Predicate :: Bound(p, s) && EvalRowGroup(g, p) == Ok(false) ==> NoneTrue(p, g.stats.Keys, rows)
  }

  // ---- one value within the bounds ----

  lemma {:induction false} TextTransitive(a: string, b: string, c: string)
    requires TextLessEq(a, b) && TextLessEq(b, c)
    ensures TextLessEq(a, c)
  {
    if a != [] && a[0] == b[0] == c[0] { TextTransitive(a[1..], b[1..], c[1..]); }
  }

  lemma {:induction false} Transitive(a: Datum, b: Datum, c: Datum)
    requires LessEq(a, b) && LessEq(b, c)
    ensures LessEq(a, c)
  {
    if a.Text? { TextTransitive(a.s, b.s, c.s); }
  }

  ghost predicate Between(stats: Stats, v: Datum) {
    && (stats.min.Ok? && stats.min.value.Some? ==>
          SameKind(stats.min.value.value, v) && LessEq(stats.min.value.value, v))
    && (stats.max.Ok? && stats.max.value.Some? ==>
          SameKind(stats.max.value.value, v) && LessEq(v, stats.max.value.value))
  }

  lemma {:induction false} LowerRulesOut(lower: Datum, v: Datum, d: Datum)
    requires SameKind(lower, v) && SameKind(v, d) && LessEq(lower, v)
    ensures LessEq(v, d) ==> LessEq(lower, d)
    ensures Less(v, d) ==> Less(lower, d)
  {
    Trichotomy(d, v);
    Trichotomy(d, lower);
    Trichotomy(v, d);
    Trichotomy(lower, d);
    if LessEq(v, d) { Transitive(lower, v, d); }
    if LessEq(d, lower) { Transitive(d, lower, v); }
  }

  lemma {:induction false} UpperRulesOut(upper: Datum, v: Datum, d: Datum)
    requires SameKind(upper, v) && SameKind(v, d) && LessEq(v, upper)
    ensures LessEq(d, v) ==> LessEq(d, upper)
    ensures Less(d, v) ==> Less(d, upper)
  {
    Trichotomy(d, v);
    Trichotomy(d, upper);
    Trichotomy(v, d);
    Trichotomy(upper, d);
    if LessEq(d, v) { Transitive(d, v, upper); }
    if LessEq(upper, d) { Transitive(v, upper, d); }
  }

  /** A comparison that the bounds rule out is false of every value between them. */
  lemma {:induction false} ComparisonRuledOut(stats: Stats, n: nat, op: PredicateOperator, v: Datum, d: Datum)
    requires SameKind(v, d) && Between(stats, v) && stats.nullCount != Some(n)
    requires op in {LessThan, LessThanOrEq, GreaterThan, GreaterThanOrEq, Eq, NotEq}
    requires VisitBinary(stats, n, op, d) == Ok(false)
    ensures !Compares(op, v, d)
  {
    hide Less, LessEq;
    if stats.min.Ok? && stats.min.value.Some? {
      var lower := stats.min.value.value;
      LowerRulesOut(lower, v, d);
      Trichotomy(lower, v);
    }
    if stats.max.Ok? && stats.max.value.Some? {
      var upper := stats.max.value.value;
      UpperRulesOut(upper, v, d);
      Trichotomy(v, upper);
    }
  }

  lemma {:induction false} PrefixRuledOut(stats: Stats, n: nat, op: PredicateOperator, v: Datum, d: Datum)
    requires SameKind(v, d) && Between(stats, v) && stats.nullCount != Some(n) && op in {StartsWith, NotStartsWith}
    requires VisitBinary(stats, n, op, d) == Ok(false)
    ensures !Compares(op, v, d)
  {
    hide TextLess, TextLessEq, Cut;
    if op == StartsWith {
      if d.s <= v.s {
        if stats.min.value.Some? { PrefixAboveLower(stats.min.value.value.s, v.s, d.s); }
        if stats.max.Ok? && stats.max.value.Some? { PrefixBelowUpper(v.s, stats.max.value.value.s, d.s); }
      }
    } else {
      PrefixBetween(stats.min.value.value.s, v.s, stats.max.value.value.s, d.s);
    }
  }

  lemma {:induction false} InRuledOut(stats: Stats, n: nat, v: Datum, literals: set<Datum>)
    requires Between(stats, v) && stats.nullCount != Some(n) && VisitIn(stats, n, literals) == Ok(false)
    ensures v !in literals
  {
    hide LessEq;
  }

  lemma {:induction false} LeafRuledOut(g: RowGroup, s: Schema, p: Predicate, rows: seq<Row>, i: nat)
    requires IsLeaf(p) && Bound(p, s) && RowsTyped(s, rows) && StatsTyped(s, g) && StatsSound(g, rows)
    requires i < |rows| == g.rows && VisitRowGroup(g, p) == Ok(false)
    ensures Filter(p, g.stats.Keys, rows[i]) != True
  {
    hide Compares, VisitBinary, VisitIn, LessEq;
    var stats, cell := StatsOf(g, p.term), rows[i](p.term);
    if p.term in g.stats {
      assert SoundAbout(stats, rows, p.term);
      if cell.Some? && !p.Unary? {
        assert Between(stats, cell.value);
        assert stats.nullCount != Some(g.rows);
        if p.Set? { if p.op == In { InRuledOut(stats, g.rows, cell.value, p.literals); } }
        else if p.op in {StartsWith, NotStartsWith} { PrefixRuledOut(stats, g.rows, p.op, cell.value, p.literal); }
        else { ComparisonRuledOut(stats, g.rows, p.op, cell.value, p.literal); }
      }
    } else {
      MissingMightMatch(g, p);
    }
  }

  /** Without statistics nothing is ruled out. */
  lemma {:induction false} MissingMightMatch(g: RowGroup, p: Predicate)
    requires IsLeaf(p) && p.term !in g.stats
    ensures VisitRowGroup(g, p) != Ok(false)
  {
  }

  lemma {:induction false} VisitRulesOut(g: RowGroup, s: Schema, p: Predicate, rows: seq<Row>, i: nat)
    requires Bound(p, s) && RowsTyped(s, rows) && StatsTyped(s, g) && StatsSound(g, rows)
    requires i < |rows| == g.rows && VisitRowGroup(g, p) == Ok(false)
    ensures Filter(p, g.stats.Keys, rows[i]) != True
  {
    hide StatsTyped, StatsSound, RowsTyped, VisitBinary, VisitIn, Eval, OfType;
    match p
    case And(l, r) =>
      if VisitRowGroup(g, l) == Ok(false) { VisitRulesOut(g, s, l, rows, i); } else { VisitRulesOut(g, s, r, rows, i); }
    case Or(l, r) =>
      VisitRulesOut(g, s, l, rows, i);
      VisitRulesOut(g, s, r, rows, i);
    case AlwaysTrue =>
    case AlwaysFalse => FalseIsFalse(rows[i]);
    case _ => LeafRuledOut(g, s, p, rows, i);
  }

  lemma {:induction false} FalseIsFalse(row: Row)
    ensures Eval(AlwaysFalse, row) == False
  {
  }

  // ---- when an evaluation succeeds ----

  /** No bound of the row group failed to be read. */
  ghost predicate Readable(g: RowGroup) {
    forall term :: term in g.stats ==> StatsOf(g, term).min.Ok? && StatsOf(g, term).max.Ok?
  }

  /** Prefix tests are made of text, unless the null count alone decides them. */
  predicate Answerable(g: RowGroup, p: Predicate) {
    match p
    case And(l, r) => Answerable(g, l) && Answerable(g, r)
    case Or(l, r) => Answerable(g, l) && Answerable(g, r)
    case Binary(StartsWith, term, literal) => literal.Text? || StatsOf(g, term).nullCount == Some(g.rows)
    case Binary(NotStartsWith, term, literal) => literal.Text? || StatsOf(g, term).nullCount != Some(0)
    case _ => true
  }

  lemma {:induction false} LeafSucceeds(g: RowGroup, s: Schema, p: Predicate)
    requires IsLeaf(p) && Bound(p, s) && StatsTyped(s, g) && Readable(g)
    ensures VisitRowGroup(g, p).Ok? <==> Answerable(g, p)
  {
    hide Less, LessEq, TextLess, TextLessEq, Cut;
    if p.term in g.stats {
      assert BoundTyped(s, p.term, StatsOf(g, p.term).min) && BoundTyped(s, p.term, StatsOf(g, p.term).max);
    } else {
      assert StatsOf(g, p.term) == Stats(None, Ok(None), Ok(None));
    }
  }

  /** On statistics of the columns' types whose bounds can be read, every predicate is answered that tests text only. */
  lemma {:induction false} VisitSucceeds(g: RowGroup, s: Schema, p: Predicate)
    requires Bound(p, s) && StatsTyped(s, g) && Readable(g)
    ensures VisitRowGroup(g, p).Ok? <==> Answerable(g, p)
  {
    hide StatsTyped, Readable, VisitBinary, VisitIn, OfType;
    match p
    case And(l, r) => VisitSucceeds(g, s, l); VisitSucceeds(g, s, r);
    case Or(l, r) => VisitSucceeds(g, s, l); VisitSucceeds(g, s, r);
    case AlwaysTrue =>
    case AlwaysFalse =>
    case _ => LeafSucceeds(g, s, p);
  }

  /** Every prefix is a text. */
  predicate TextPrefixes(p: Predicate) {
    match p
    case And(l, r) => TextPrefixes(l) && TextPrefixes(r)
    case Or(l, r) => TextPrefixes(l) && TextPrefixes(r)
    case Not(q) => TextPrefixes(q)
    case Binary(op, _, literal) => op in {StartsWith, NotStartsWith} ==> literal.Text?
    case _ => true
  }

  lemma {:induction false} TextIsAnswerable(g: RowGroup, p: Predicate)
    requires TextPrefixes(p)
    ensures Answerable(g, p)
  {
    match p
    case And(l, r) => TextIsAnswerable(g, l); TextIsAnswerable(g, r);
    case Or(l, r) => TextIsAnswerable(g, l); TextIsAnswerable(g, r);
    case _ =>
  }

  // ---- when a row group is ruled out ----

  predicate Known(bound: Result<Option<Datum>>, d: Datum) {
    bound.Ok? && bound.value.Some? && SameKind(bound.value.value, d) && !bound.value.value.Nan?
  }

  /** The bounds a comparison looks at are known, of the literal's kind and not NaN; known bounds are ordered. */
  predicate Bounds(stats: Stats, op: PredicateOperator, d: Datum) {
    && !d.Nan?
    && (op !in {GreaterThan, GreaterThanOrEq} ==> Known(stats.min, d))
    && (op !in {LessThan, LessThanOrEq} ==> Known(stats.max, d))
    && (stats.min.Ok? && stats.min.value.Some? && stats.max.Ok? && stats.max.value.Some? ==>
          SameKind(stats.min.value.value, stats.max.value.value) &&
          LessEq(stats.min.value.value, stats.max.value.value))
  }

  /** A value between the bounds that satisfies a comparison which they do not rule out. */
  function Witness(stats: Stats, op: PredicateOperator, d: Datum): Datum
    requires Bounds(stats, op, d)
  {
    match op
    case LessThan => stats.min.value.value
    case LessThanOrEq => stats.min.value.value
    case GreaterThan => stats.max.value.value
    case GreaterThanOrEq => stats.max.value.value
    case Eq => d
    case StartsWith =>
      if HasPrefix(stats.min.value.value, d) then stats.min.value.value
      else if HasPrefix(stats.max.value.value, d) then stats.max.value.value
      else d
    case _ => if HasPrefix(stats.min.value.value, d) then stats.max.value.value else stats.min.value.value
  }

  lemma {:induction false} WitnessSatisfies(stats: Stats, n: nat, op: PredicateOperator, d: Datum)
    requires Bounds(stats, op, d) && stats.nullCount != Some(n)
    requires op in {LessThan, LessThanOrEq, GreaterThan, GreaterThanOrEq, Eq, StartsWith, NotStartsWith}
    requires op in {StartsWith, NotStartsWith} ==> d.Text?
    requires op == NotStartsWith ==> stats.nullCount == Some(0)
    requires VisitBinary(stats, n, op, d) == Ok(true)
    ensures Between(stats, Witness(stats, op, d)) && Compares(op, Witness(stats, op, d), d)
  {
    hide TextLess, TextLessEq, Cut;
    if Known(stats.min, d) {
      var min := stats.min.value.value;
      Trichotomy(min, min);
      Trichotomy(min, d);
      Trichotomy(d, min);
      if op == NotStartsWith && TextLess(min.s, d.s) { SmallerHasNot(min.s, d.s); }
    }
    if Known(stats.max, d) {
      var max := stats.max.value.value;
      Trichotomy(max, max);
      Trichotomy(d, max);
      Trichotomy(max, d);
    }
    if op == StartsWith { PrefixFits(stats.min.value.value.s, stats.max.value.value.s, d.s); }
  }

  /** A prefix that neither cut bound rules out is a prefix of a bound, or lies between them. */
  lemma {:induction false} PrefixFits(lower: string, upper: string, prefix: string)
    requires !TextLess(prefix, Cut(lower, prefix)) && !TextLess(Cut(upper, prefix), prefix)
    ensures prefix <= lower || TextLessEq(lower, prefix)
    ensures prefix <= upper || TextLessEq(prefix, upper)
  {
    CutAbove(lower, prefix);
    CutBelow(upper, prefix);
  }

  lemma {:induction false} CutAbove(lower: string, prefix: string)
    requires !TextLess(prefix, Cut(lower, prefix))
    ensures prefix <= lower || TextLessEq(lower, prefix)
    decreases |prefix|
  {
    if prefix != [] && lower != [] && prefix[0] == lower[0] {
      assert Cut(lower, prefix)[1..] == Cut(lower[1..], prefix[1..]);
      CutAbove(lower[1..], prefix[1..]);
    }
  }

  lemma {:induction false} CutBelow(upper: string, prefix: string)
    requires !TextLess(Cut(upper, prefix), prefix)
    ensures prefix <= upper || TextLessEq(prefix, upper)
    decreases |prefix|
  {
    if prefix != [] && upper != [] && prefix[0] == upper[0] {
      assert Cut(upper, prefix)[1..] == Cut(upper[1..], prefix[1..]);
      CutBelow(upper[1..], prefix[1..]);
    }
  }

  /** A text before the prefix does not begin with it. */
  lemma {:induction false} SmallerHasNot(text: string, prefix: string)
    requires TextLess(text, prefix)
    ensures !(prefix <= text)
  {
    if text != [] && text[0] == prefix[0] { SmallerHasNot(text[1..], prefix[1..]); }
  }

  /**
   With the bounds known that it looks at, a comparison is ruled out if and only if no value between the bounds
   satisfies it, or all rows are null. (A negated prefix test is ruled out only when it is known that no row is null.)
   */
  lemma {:induction false} RuledOutExactly(stats: Stats, n: nat, op: PredicateOperator, d: Datum)
    requires Bounds(stats, op, d)
    requires op in {LessThan, LessThanOrEq, GreaterThan, GreaterThanOrEq, Eq, StartsWith, NotStartsWith}
    requires op in {StartsWith, NotStartsWith} ==> d.Text?
    requires op == NotStartsWith ==> stats.nullCount == Some(0) && n > 0
    ensures VisitBinary(stats, n, op, d) == Ok(false) <==>
            stats.nullCount == Some(n) || forall v: Datum :: Between(stats, v) ==> !Compares(op, v, d)
  {
    hide Compares, LessEq, TextLess, TextLessEq, Cut;
    AnsweredWithBounds(stats, n, op, d);
    if stats.nullCount != Some(n) {
      if VisitBinary(stats, n, op, d) == Ok(false) {
        forall v: Datum | Between(stats, v) ensures !Compares(op, v, d) {
          if op in {StartsWith, NotStartsWith} { PrefixRuledOut(stats, n, op, v, d); }
          else { ComparisonRuledOut(stats, n, op, v, d); }
        }
      } else {
        WitnessSatisfies(stats, n, op, d);
      }
    }
  }

  lemma {:induction false} AnsweredWithBounds(stats: Stats, n: nat, op: PredicateOperator, d: Datum)
    requires Bounds(stats, op, d) && (op in {StartsWith, NotStartsWith} ==> d.Text?)
    ensures VisitBinary(stats, n, op, d).Ok?
    ensures stats.nullCount == Some(n) && op !in {NotEq, NotStartsWith} ==> VisitBinary(stats, n, op, d) == Ok(false)
  {
    hide Less, LessEq, TextLess, TextLessEq, Cut;
  }

  /** How the answers are joined. */
  lemma {:induction false} JoinedAnswers(g: RowGroup, p: Predicate, q: Predicate)
    requires VisitRowGroup(g, p).Ok? && VisitRowGroup(g, q).Ok?
    ensures VisitRowGroup(g, And(p, q)) == Ok(false) <==>
            VisitRowGroup(g, p) == Ok(false) || VisitRowGroup(g, q) == Ok(false)
    ensures VisitRowGroup(g, Or(p, q)) == Ok(false) <==>
            VisitRowGroup(g, p) == Ok(false) && VisitRowGroup(g, q) == Ok(false)
    ensures EvalRowGroup(g, AlwaysFalse) == Ok(false) && (EvalRowGroup(g, AlwaysTrue) == Ok(false) <==> g.rows == 0)
  {
    hide VisitIn, VisitBinary;
  }

  /** Null tests go by the null count alone; inequality and negated set tests are never ruled out. */
  lemma {:induction false} NullAnswers(g: RowGroup, term: string, d: Datum, literals: set<Datum>)
    ensures VisitRowGroup(g, Unary(IsNull, term)) == Ok(false) <==> StatsOf(g, term).nullCount == Some(0)
    ensures VisitRowGroup(g, Unary(NotNull, term)) == Ok(false) <==> StatsOf(g, term).nullCount == Some(g.rows)
    ensures VisitRowGroup(g, Binary(NotEq, term, d)) == VisitRowGroup(g, Set(NotIn, term, literals)) == Ok(true)
  {
    hide VisitIn;
  }

  /** A set test is ruled out when every literal is below the bounds, or every literal above, among at most 200. */
  lemma {:induction false} SetRuledOutExactly(stats: Stats, n: nat, min: Datum, max: Datum, literals: set<Datum>)
    requires stats.min == Ok(Some(min)) && stats.max == Ok(Some(max)) && !min.Nan? && !max.Nan?
    requires forall d :: d in literals ==> SameKind(min, d) && SameKind(max, d)
    ensures VisitIn(stats, n, literals) == Ok(false) <==>
            || stats.nullCount == Some(n)
            || (|literals| <= 200 &&
                ((forall d :: d in literals ==> Less(d, min)) || (forall d :: d in literals ==> Less(max, d))))
  {
    hide Less, LessEq;
    forall d | d in literals ensures (LessEq(min, d) <==> !Less(d, min)) && (LessEq(d, max) <==> !Less(max, d)) {
      Trichotomy(min, d);
      Trichotomy(d, max);
    }
  }

  // ---- exactly the sound statistics ----

  /** A value beyond a bound is hidden by a comparison that the bound alone rules out. */
  function BeyondLower(term: string, v: Datum): Predicate { Binary(LessThanOrEq, term, v) }

  function BeyondUpper(term: string, v: Datum, upper: Datum): Predicate {
    if v.Nan? then Binary(GreaterThan, term, upper) else Binary(GreaterThanOrEq, term, v)
  }

  lemma {:induction false} LowerHides(stats: Stats, n: nat, term: string, v: Datum)
    requires stats.min.Ok? && stats.min.value.Some? && SameKind(stats.min.value.value, v) &&
             !LessEq(stats.min.value.value, v)
    ensures VisitBinary(stats, n, LessThanOrEq, v) == Ok(false) && Compares(LessThanOrEq, v, v)
  {
    hide TextLess, TextLessEq;
    Trichotomy(v, v);
  }

  lemma {:induction false} UpperHides(stats: Stats, n: nat, term: string, v: Datum)
    requires stats.max.Ok? && stats.max.value.Some? && SameKind(stats.max.value.value, v) &&
             !LessEq(v, stats.max.value.value)
    ensures var p := BeyondUpper(term, v, stats.max.value.value);
            VisitBinary(stats, n, p.op, p.literal) == Ok(false) && Compares(p.op, v, p.literal)
  {
    hide TextLess, TextLessEq;
    Trichotomy(v, v);
    Trichotomy(v, stats.max.value.value);
    Trichotomy(stats.max.value.value, stats.max.value.value);
  }

  /** Each untrue statement about a column hides a row of some predicate. */
  lemma {:induction false} UnsoundLosesRow(g: RowGroup, s: Schema, rows: seq<Row>, term: string)
    returns (p: Predicate, i: nat)
    requires |rows| == g.rows && RowsTyped(s, rows) && StatsTyped(s, g)
    requires term in g.stats && !SoundAbout(StatsOf(g, term), rows, term)
    ensures Bound(p, s) && EvalRowGroup(g, p) == Ok(false)
    ensures i < |rows| && Filter(p, g.stats.Keys, rows[i]) == True
  {
    hide Less, LessEq, VisitBinary, Compares;
    var stats := StatsOf(g, term);
    if !NullsAgree(stats.nullCount, rows, term) {
      if stats.nullCount == Some(|rows|) && exists k :: 0 <= k < |rows| && rows[k](term).Some? {
        i :| i < |rows| && rows[i](term).Some?;
        p := Unary(NotNull, term);
      } else {
        i :| i < |rows| && rows[i](term).None?;
        p := Unary(IsNull, term);
      }
    } else if stats.min.Ok? && !AtLeast(stats.min.value, rows, term) {
      i :| i < |rows| && rows[i](term).Some? && !LessEq(stats.min.value.value, rows[i](term).value);
      p := BeyondLower(term, rows[i](term).value);
      LowerHides(stats, g.rows, term, rows[i](term).value);
    } else {
      i :| i < |rows| && rows[i](term).Some? && !LessEq(rows[i](term).value, stats.max.value.value);
      p := BeyondUpper(term, rows[i](term).value, stats.max.value.value);
      UpperHides(stats, g.rows, term, rows[i](term).value);
    }
  }

  /** The row-group evaluator is safe for every predicate if and only if the statistics are true of the rows. */
  lemma {:induction false} ConservativeWhenSound(g: RowGroup, s: Schema, rows: seq<Row>)
    requires |rows| == g.rows && RowsTyped(s, rows) && StatsTyped(s, g)
    ensures RowGroupConservative(g, s, rows) <==> StatsSound(g, rows)
  {
    hide Bound, VisitRowGroup, Filter, SoundAbout, RowsTyped, StatsTyped;
    if StatsSound(g, rows) {
      forall p: Predicate | Bound(p, s) && EvalRowGroup(g, p) == Ok(false) ensures NoneTrue(p, g.stats.Keys, rows) {
        forall i | 0 <= i < |rows| ensures Filter(p, g.stats.Keys, rows[i]) != True {
          VisitRulesOut(g, s, p, rows, i);
        }
      }
    } else {
      var term :| term in g.stats && !SoundAbout(StatsOf(g, term), rows, term);
      var p, i := UnsoundLosesRow(g, s, rows, term);
    }
  }

  /** Writers leave NaN out of the bounds, but the row filter orders it last: its row is lost to a lower limit. */
  lemma {:induction false} NanRowLost(term: string, rows: seq<Row>)
    requires |rows| == 2 && rows[0](term) == Some(Number(1)) && rows[1](term) == Some(Nan)
    ensures var g := RowGroup(2, map[term := Some(Stats(Some(0), Ok(Some(Number(1))), Ok(Some(Number(1)))))]);
            var p := Binary(GreaterThan, term, Number(5));
            EvalRowGroup(g, p) == Ok(false) && Filter(p, g.stats.Keys, rows[1]) == True
  {
  }

  /**
   Under a `NOT`, "may match" turns into "cannot": the evaluator is right only because filters are rewritten first.
   */
  lemma {:induction false} NotRulesOut(term: string, rows: seq<Row>)
    requires |rows| == 2 && rows[0](term) == Some(Number(5)) && rows[1](term) == Some(Number(6))
    ensures var g := RowGroup(2, map[term := Some(Stats(Some(0), Ok(Some(Number(5))), Ok(Some(Number(6)))))]);
            var p := Not(Binary(Eq, term, Number(5)));
            && StatsSound(g, rows) && EvalRowGroup(g, p) == Ok(false) && Filter(p, g.stats.Keys, rows[1]) == True
            && EvalRowGroup(g, RewriteNot(p)) == Ok(true)
  {
    var g := RowGroup(2, map[term := Some(Stats(Some(0), Ok(Some(Number(5))), Ok(Some(Number(6)))))]);
    assert forall t :: t in g.stats ==> t == term;
    var q := Binary(Eq, term, Number(5));
    assert RewriteNot(Not(q)) == Negate(q) == Binary(NotEq, term, Number(5));
    assert VisitRowGroup(g, q) == Ok(true);
  }
}
