/**
 Filter predicates, their three-valued meaning on a row, and the elimination of `NOT`.
 */
module Predicates {
  import opened Prelude

  // ---- Kleene logic ----

  datatype Kleene = True | False | Unknown

  function And3(a: Kleene, b: Kleene): Kleene {
    if a == False || b == False then False else if a == True && b == True then True else Unknown
  }

  function Or3(a: Kleene, b: Kleene): Kleene {
    if a == True || b == True then True else if a == False && b == False then False else Unknown
  }

  function Not3(a: Kleene): Kleene {
    match a case True => False case False => True case Unknown => Unknown
  }

  function Of(b: bool): Kleene { if b then True else False }

  // ---- predicates ----

  /** Numbers stand for every ordered numeric type; `Nan` is the one value of the floating types beyond them. */
  datatype Datum = Number(n: int) | Nan | Text(s: string)

  datatype PredicateOperator =
    | IsNull | NotNull | IsNan | NotNan
    | LessThan | LessThanOrEq | GreaterThan | GreaterThanOrEq | Eq | NotEq | StartsWith | NotStartsWith
    | In | NotIn

  function NegateOperator(op: PredicateOperator): PredicateOperator {
    match op
    case IsNull => NotNull
    case NotNull => IsNull
    case IsNan => NotNan
    case NotNan => IsNan
    case LessThan => GreaterThanOrEq
    case LessThanOrEq => GreaterThan
    case GreaterThan => LessThanOrEq
    case GreaterThanOrEq => LessThan
    case Eq => NotEq
    case NotEq => Eq
    case In => NotIn
    case NotIn => In
    case StartsWith => NotStartsWith
    case NotStartsWith => StartsWith
  }

  datatype Predicate =
    | AlwaysTrue
    | AlwaysFalse
    | And(left: Predicate, right: Predicate)
    | Or(left: Predicate, right: Predicate)
    | Not(inner: Predicate)
    | Unary(op: PredicateOperator, term: string)
    | Binary(op: PredicateOperator, term: string, literal: Datum)
    | Set(op: PredicateOperator, term: string, literals: set<Datum>)

  /** `Predicate::and`, which absorbs constants. */
  function AndOf(p: Predicate, q: Predicate): Predicate {
    if p == AlwaysFalse || q == AlwaysFalse then AlwaysFalse
    else if p == AlwaysTrue then q
    else if q == AlwaysTrue then p
    else And(p, q)
  }

  /** `Predicate::or`, which absorbs constants. */
  function OrOf(p: Predicate, q: Predicate): Predicate {
    if p == AlwaysTrue || q == AlwaysTrue then AlwaysTrue
    else if p == AlwaysFalse then q
    else if q == AlwaysFalse then p
    else Or(p, q)
  }

  /** `Predicate::negate`: inverse operators and De Morgan, without wrapping in `NOT`. */
  function Negate(p: Predicate): Predicate {
    match p
    case AlwaysTrue => AlwaysFalse
    case AlwaysFalse => AlwaysTrue
    case And(l, r) => Or(Negate(l), Negate(r))
    case Or(l, r) => And(Negate(l), Negate(r))
    case Not(q) => q
    case Unary(op, term) => Unary(NegateOperator(op), term)
    case Binary(op, term, literal) => Binary(NegateOperator(op), term, literal)
    case Set(op, term, literals) => Set(NegateOperator(op), term, literals)
  }

  /** `Predicate::rewrite_not`: a post-order visit that negates below each `NOT`. */
  function RewriteNot(p: Predicate): Predicate {
    match p
    case And(l, r) => AndOf(RewriteNot(l), RewriteNot(r))
    case Or(l, r) => OrOf(RewriteNot(l), RewriteNot(r))
    case Not(q) => Negate(RewriteNot(q))
    case _ => p
  }

  predicate NotFree(p: Predicate) {
    match p
    case And(l, r) => NotFree(l) && NotFree(r)
    case Or(l, r) => NotFree(l) && NotFree(r)
    case Not(_) => false
    case _ => true
  }

  // ---- meaning on a row ----

  /** The value of each column of a row, null as `None`. */
  type Row = string -> Option<Datum>

  predicate TextLess(a: string, b: string) {
    b != [] && (a == [] || a[0] < b[0] || (a[0] == b[0] && TextLess(a[1..], b[1..])))
  }

  predicate TextLessEq(a: string, b: string) {
    a == [] || (b != [] && (a[0] < b[0] || (a[0] == b[0] && TextLessEq(a[1..], b[1..]))))
  }

  predicate SameKind(a: Datum, b: Datum) { a.Text? <==> b.Text? }

  /** The comparison kernels take values of one kind, ordered totally with NaN last; across kinds nothing compares. */
  predicate Less(a: Datum, b: Datum) {
    match (a, b)
    case (Number(m), Number(n)) => m < n
    case (Number(_), Nan) => true
    case (Text(s), Text(t)) => TextLess(s, t)
    case _ => false
  }

  predicate LessEq(a: Datum, b: Datum) {
    match (a, b)
    case (Number(m), Number(n)) => m <= n
    case (Number(_), Nan) => true
    case (Nan, Nan) => true
    case (Text(s), Text(t)) => TextLessEq(s, t)
    case _ => false
  }

  lemma {:induction false} TextTrichotomy(a: string, b: string)
    ensures TextLess(a, b) || a == b || TextLess(b, a)
    ensures !(TextLess(a, b) && TextLess(b, a)) && (a == b ==> !TextLess(a, b))
    ensures TextLessEq(a, b) <==> !TextLess(b, a)
  {
    if a != [] && b != [] {
      TextTrichotomy(a[1..], b[1..]);
      assert a == [a[0]] + a[1..] && b == [b[0]] + b[1..];
    }
  }

  /** Values of one kind are totally ordered: exactly one of less, equal and greater, and "at most" is "not greater". */
  lemma {:induction false} Trichotomy(a: Datum, b: Datum)
    requires SameKind(a, b)
    ensures Less(a, b) || a == b || Less(b, a)
    ensures !(Less(a, b) && Less(b, a)) && (a == b ==> !Less(a, b))
    ensures LessEq(a, b) <==> !Less(b, a)
  {
    if a.Text? { TextTrichotomy(a.s, b.s); }
  }

  predicate HasPrefix(v: Datum, lit: Datum) {
    v.Text? && lit.Text? && lit.s <= v.s
  }

  predicate Compares(op: PredicateOperator, v: Datum, lit: Datum) {
    match op
    case LessThan => Less(v, lit)
    case GreaterThanOrEq => LessEq(lit, v)
    case GreaterThan => Less(lit, v)
    case LessThanOrEq => LessEq(v, lit)
    case Eq => v == lit
    case NotEq => v != lit
    case StartsWith => HasPrefix(v, lit)
    case _ => !HasPrefix(v, lit)
  }

  /** Operators used with the operands they take, as the constructors of the expressions demand. */
  predicate WellFormed(p: Predicate) {
    match p
    case And(l, r) => WellFormed(l) && WellFormed(r)
    case Or(l, r) => WellFormed(l) && WellFormed(r)
    case Not(q) => WellFormed(q)
    case Unary(op, _) => op in {IsNull, NotNull, IsNan, NotNan}
    case Binary(op, _, _) =>
      op in {LessThan, LessThanOrEq, GreaterThan, GreaterThanOrEq, Eq, NotEq, StartsWith, NotStartsWith}
    case Set(op, _, _) => op in {In, NotIn}
    case _ => true
  }

  /** Ordering comparisons meet values of their literal's kind, as binding to a schema makes sure. */
  predicate Typed(p: Predicate, row: Row) {
    match p
    case And(l, r) => Typed(l, row) && Typed(r, row)
    case Or(l, r) => Typed(l, row) && Typed(r, row)
    case Not(q) => Typed(q, row)
    case Binary(op, term, literal) =>
      op in {LessThan, LessThanOrEq, GreaterThan, GreaterThanOrEq} && row(term).Some? ==>
        SameKind(row(term).value, literal)
    case _ => true
  }

  /** `or` and `and` of the arrow kernels used for set membership: a null operand makes the result null. */
  function OrStrict(a: Kleene, b: Kleene): Kleene { if a == Unknown || b == Unknown then Unknown else Or3(a, b) }

  function AndStrict(a: Kleene, b: Kleene): Kleene { if a == Unknown || b == Unknown then Unknown else And3(a, b) }

  function CompareCell(op: PredicateOperator, cell: Option<Datum>, literal: Datum): Kleene {
    if cell.None? then Unknown else Of(Compares(op, cell.value, literal))
  }

  /** Set membership: a null value is unknown, except that membership in nothing is decided. */
  function Member(op: PredicateOperator, cell: Option<Datum>, literals: set<Datum>): Kleene {
    if literals == {} then Of(op == NotIn)
    else if cell.None? then Unknown
    else Of(cell.value in literals <==> op == In)
  }

  /** The meaning of a predicate as the row filter computes it; a row is kept iff it is `True`. */
  function Eval(p: Predicate, row: Row): Kleene {
    match p
    case AlwaysTrue => True
    case AlwaysFalse => False
    case And(l, r) => And3(Eval(l, row), Eval(r, row))
    case Or(l, r) => Or3(Eval(l, row), Eval(r, row))
    case Not(q) => Not3(Eval(q, row))
    case Unary(op, term) =>
      (match op
       case IsNull => Of(row(term).None?)
       case NotNull => Of(row(term).Some?)
       case IsNan => True   // a placeholder of the converter
       case _ => False)
    case Binary(op, term, literal) => CompareCell(op, row(term), literal)
    case Set(op, term, literals) => Member(op, row(term), literals)
  }

  // ---- columns the file does not have ----

  /** The row filter's answer on a column that the file does not have. */
  function MissingAnswer(op: PredicateOperator): Kleene {
    Of(op in {IsNull, NotNan, LessThan, LessThanOrEq, NotStartsWith, NotIn})
  }

  predicate IsLeaf(p: Predicate) { p.Unary? || p.Binary? || p.Set? }

  /** What the row filter computes on a row of a file that has only some of the columns. */
  function Filter(p: Predicate, columns: set<string>, row: Row): Kleene {
    match p
    case And(l, r) => And3(Filter(l, columns, row), Filter(r, columns, row))
    case Or(l, r) => Or3(Filter(l, columns, row), Filter(r, columns, row))
    case Not(q) => Not3(Filter(q, columns, row))
    case _ => if IsLeaf(p) && p.term !in columns then MissingAnswer(p.op) else Eval(p, row)
  }

  /**
   On a column that the file does not have, a null test answers as on a null; every other test but `!=` answers as on a
   value that sorts before the literals, has none of the prefixes and is no NaN.
   */
  lemma {:induction false} MissingIsLeast(p: Predicate, columns: set<string>, row: Row, v: Option<Datum>)
    requires IsLeaf(p) && WellFormed(p) && p.term !in columns && (p.Set? ==> p.literals != {})
    requires p.op in {IsNull, NotNull} ==> v.None?
    requires p.op !in {IsNull, NotNull} ==> v.Some?
    requires p.Binary? ==> Less(v.value, p.literal) && !HasPrefix(v.value, p.literal)
    requires p.Set? ==> forall d :: d in p.literals ==> Less(v.value, d)
    requires p.op !in {NotEq, IsNan, NotNan}
    ensures Filter(p, columns, row) == Eval(p, _ => v)
    ensures Filter(Unary(IsNan, p.term), columns, row) == False
    ensures Filter(Unary(NotNan, p.term), columns, row) == True
    ensures p.Binary? ==> Filter(Binary(NotEq, p.term, p.literal), columns, row) == False
  {
    if p.Binary? {
      Trichotomy(v.value, p.literal);
      Trichotomy(p.literal, v.value);
    }
    if p.Set? {
      forall d | d in p.literals ensures d != v.value { Trichotomy(v.value, d); }
    }
  }

  function Terms(p: Predicate): set<string> {
    match p
    case And(l, r) => Terms(l) + Terms(r)
    case Or(l, r) => Terms(l) + Terms(r)
    case Not(q) => Terms(q)
    case _ => if IsLeaf(p) then {p.term} else {}
  }

  lemma {:induction false} FilterIsEval(p: Predicate, columns: set<string>, row: Row)
    requires Terms(p) <= columns
    ensures Filter(p, columns, row) == Eval(p, row)
  {
    match p
    case And(l, r) => FilterIsEval(l, columns, row); FilterIsEval(r, columns, row);
    case Or(l, r) => FilterIsEval(l, columns, row); FilterIsEval(r, columns, row);
    case Not(q) => FilterIsEval(q, columns, row);
    case _ =>
  }

  /** A leaf and its negation answer opposite things, except equality on a column the file does not have. */
  lemma {:induction false} LeafNegated(p: Predicate, columns: set<string>, row: Row)
    requires IsLeaf(p) && WellFormed(p) && Typed(p, row)
    ensures Filter(Negate(p), columns, row) == Not3(Filter(p, columns, row)) <==>
            !(p.term !in columns && p.op in {Eq, NotEq})
  {
    hide Compares;
    if p.term in columns { NegateMeaning(p, row); }
  }

  lemma {:induction false} CompareNegated(op: PredicateOperator, v: Datum, literal: Datum)
    requires op in {LessThan, LessThanOrEq, GreaterThan, GreaterThanOrEq} ==> SameKind(v, literal)
    requires op in {LessThan, LessThanOrEq, GreaterThan, GreaterThanOrEq, Eq, NotEq, StartsWith, NotStartsWith}
    ensures Compares(NegateOperator(op), v, literal) <==> !Compares(op, v, literal)
  {
    hide Less, LessEq, HasPrefix;
    if SameKind(v, literal) {
      Trichotomy(v, literal);
      Trichotomy(literal, v);
    }
  }

  lemma {:induction false} NegateMeaning(p: Predicate, row: Row)
    requires WellFormed(p) && Typed(p, row)
    ensures Eval(Negate(p), row) == Not3(Eval(p, row)) && WellFormed(Negate(p)) && Typed(Negate(p), row)
  {
    hide Compares;
    match p
    case And(l, r) => NegateMeaning(l, row); NegateMeaning(r, row);
    case Or(l, r) => NegateMeaning(l, row); NegateMeaning(r, row);
    case Binary(op, term, literal) => if row(term).Some? { CompareNegated(op, row(term).value, literal); }
    case Set(op, _, _) =>
    case _ =>
  }

  lemma {:induction false} NegateNotFree(p: Predicate)
    requires NotFree(p)
    ensures NotFree(Negate(p))
  {
    match p
    case And(l, r) => NegateNotFree(l); NegateNotFree(r);
    case Or(l, r) => NegateNotFree(l); NegateNotFree(r);
    case _ =>
  }

  /** Eliminating `NOT` keeps the three-valued meaning on every row, and no `NOT` is left. */
  lemma {:induction false} RewriteNotMeaning(p: Predicate, row: Row)
    requires WellFormed(p) && Typed(p, row)
    ensures Eval(RewriteNot(p), row) == Eval(p, row)
    ensures WellFormed(RewriteNot(p)) && NotFree(RewriteNot(p)) && Typed(RewriteNot(p), row)
  {
    hide Compares;
    match p
    case And(l, r) => RewriteNotMeaning(l, row); RewriteNotMeaning(r, row);
    case Or(l, r) => RewriteNotMeaning(l, row); RewriteNotMeaning(r, row);
    case Not(q) =>
      RewriteNotMeaning(q, row);
      NegateMeaning(RewriteNot(q), row);
      NegateNotFree(RewriteNot(q));
    case _ =>
  }

  // ---- the elimination of NOT on a file without some of the columns ----

  /** No equality is asked about a column that the file does not have. */
  predicate EqualityPresent(p: Predicate, columns: set<string>) {
    match p
    case And(l, r) => EqualityPresent(l, columns) && EqualityPresent(r, columns)
    case Or(l, r) => EqualityPresent(l, columns) && EqualityPresent(r, columns)
    case Not(q) => EqualityPresent(q, columns)
    case Binary(op, term, _) => op in {Eq, NotEq} ==> term in columns
    case _ => true
  }

  lemma {:induction false} NegateOnFile(p: Predicate, columns: set<string>, row: Row)
    requires WellFormed(p) && Typed(p, row) && EqualityPresent(p, columns)
    ensures Filter(Negate(p), columns, row) == Not3(Filter(p, columns, row)) && EqualityPresent(Negate(p), columns)
  {
    hide Compares;
    match p
    case And(l, r) => NegateOnFile(l, columns, row); NegateOnFile(r, columns, row);
    case Or(l, r) => NegateOnFile(l, columns, row); NegateOnFile(r, columns, row);
    case Unary(_, _) => LeafNegated(p, columns, row);
    case Binary(_, _, _) => LeafNegated(p, columns, row);
    case Set(_, _, _) => LeafNegated(p, columns, row);
    case _ =>
  }

  lemma {:induction false} JoinedOnFile(p: Predicate, q: Predicate, columns: set<string>, row: Row)
    ensures Filter(AndOf(p, q), columns, row) == And3(Filter(p, columns, row), Filter(q, columns, row))
    ensures Filter(OrOf(p, q), columns, row) == Or3(Filter(p, columns, row), Filter(q, columns, row))
    ensures EqualityPresent(p, columns) && EqualityPresent(q, columns) ==>
              EqualityPresent(AndOf(p, q), columns) && EqualityPresent(OrOf(p, q), columns)
  {
    hide Compares;
  }

  /** Eliminating `NOT` also keeps the answers of the row filter, unless equality is asked of a missing column. */
  lemma {:induction false} RewriteNotOnFile(p: Predicate, columns: set<string>, row: Row)
    requires WellFormed(p) && Typed(p, row) && EqualityPresent(p, columns)
    ensures Filter(RewriteNot(p), columns, row) == Filter(p, columns, row) && EqualityPresent(RewriteNot(p), columns)
  {
    hide Eval, AndOf, OrOf, And3, Or3;
    match p
    case And(l, r) =>
      RewriteNotOnFile(l, columns, row);
      RewriteNotOnFile(r, columns, row);
      JoinedOnFile(RewriteNot(l), RewriteNot(r), columns, row);
    case Or(l, r) =>
      RewriteNotOnFile(l, columns, row);
      RewriteNotOnFile(r, columns, row);
      JoinedOnFile(RewriteNot(l), RewriteNot(r), columns, row);
    case Not(q) =>
      RewriteNotOnFile(q, columns, row);
      RewriteNotMeaning(q, row);
      NegateOnFile(RewriteNot(q), columns, row);
    case _ =>
  }

  /** There a negated equality lets every row through before the rewriting and none after it. */
  lemma {:induction false} MissingEqualityFlips(term: string, literal: Datum, columns: set<string>, row: Row)
    requires term !in columns
    ensures var p := Not(Binary(Eq, term, literal));
            Filter(p, columns, row) == True && Filter(RewriteNot(p), columns, row) == False
  {
    assert RewriteNot(Not(Binary(Eq, term, literal))) == Binary(NotEq, term, literal);
  }

  // ---- set membership, literal by literal ----

  function Literals(literals: seq<Datum>): (r: set<Datum>)
    ensures forall x :: x in r <==> x in literals
    ensures r == {} <==> literals == []
  {
    if literals == [] then {} else {literals[0]} + Literals(literals[1..])
  }

  /** The `in` fold of the converter over the literals, in whatever order the hash set yields them. */
  method EvaluateIn(cell: Option<Datum>, literals: seq<Datum>) returns (acc: Kleene)
    ensures acc == Member(In, cell, Literals(literals))
  {
    acc := False;
    for i := 0 to |literals|
      invariant cell.None? ==> acc == if i == 0 then False else Unknown
      invariant cell.Some? ==> acc == Of(cell.value in literals[..i])
    {
      assert literals[..i + 1] == literals[..i] + [literals[i]];
      acc := OrStrict(acc, CompareCell(Eq, cell, literals[i]));
    }
    assert literals[..|literals|] == literals;
    assert literals == [] <==> Literals(literals) == {};
  }

  /** The `not_in` fold. */
  method EvaluateNotIn(cell: Option<Datum>, literals: seq<Datum>) returns (acc: Kleene)
    ensures acc == Member(NotIn, cell, Literals(literals))
  {
    acc := True;
    for i := 0 to |literals|
      invariant cell.None? ==> acc == if i == 0 then True else Unknown
      invariant cell.Some? ==> acc == Of(cell.value !in literals[..i])
    {
      assert literals[..i + 1] == literals[..i] + [literals[i]];
      acc := AndStrict(acc, CompareCell(NotEq, cell, literals[i]));
    }
    assert literals[..|literals|] == literals;
    assert literals == [] <==> Literals(literals) == {};
  }
}
