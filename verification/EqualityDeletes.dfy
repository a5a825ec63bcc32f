/**
 Equality deletes to a predicate: every delete row becomes a negated row match, and the matches are combined
 into one balanced conjunction.
 */
module EqualityDeletes {
  import opened Prelude
  import opened Predicates

  /** One cell of a delete row: the column it constrains and the value deleted, null as `None`. */
  datatype Cell = Cell(field: string, value: Option<Datum>)

  /** A collected equality column of one record batch. */
  datatype Column = Column(field: string, cells: seq<Option<Datum>>)

  /** A record batch of an equality delete file, with the primitive equality columns the visitor collected. */
  datatype Batch = Batch(numColumns: nat, columns: seq<Column>)

  // ---- one delete row ----

  function CellPredicate(c: Cell): Predicate {
    match c.value
    case Some(datum) => Binary(Eq, c.field, datum)
    case None => Unary(IsNull, c.field)
  }

  /** Columns are taken in order and joined with `and`, starting from `AlwaysTrue`. */
  function RowMatch(cells: seq<Cell>): Predicate {
    if cells == [] then AlwaysTrue
    else AndOf(RowMatch(cells[..|cells| - 1]), CellPredicate(cells[|cells| - 1]))
  }

  function NegatedRow(cells: seq<Cell>): Predicate {
    RewriteNot(Not(RowMatch(cells)))
  }

  /** The data value is there and differs from the deleted one; a deleted null differs from every value. */
  predicate Differs(c: Cell, row: Row) {
    row(c.field).Some? && row(c.field) != c.value
  }

  /** Null matches null, a value matches the same value. */
  predicate Matches(cells: seq<Cell>, row: Row) {
    forall k :: 0 <= k < |cells| ==> row(cells[k].field) == cells[k].value
  }

  predicate SomeDiffers(cells: seq<Cell>, row: Row) {
    exists k :: 0 <= k < |cells| && Differs(cells[k], row)
  }

  lemma {:induction false} SomeDiffersSnoc(cells: seq<Cell>, row: Row)
    requires cells != []
    ensures SomeDiffers(cells, row) <==> SomeDiffers(cells[..|cells| - 1], row) || Differs(cells[|cells| - 1], row)
  {
    var front := cells[..|cells| - 1];
    if SomeDiffers(front, row) {
      var k :| 0 <= k < |front| && Differs(front[k], row);
      assert Differs(cells[k], row);
    }
  }

  /** The match of a delete row is `False` exactly when some column of the data row is not null and differs. */
  lemma {:induction false} RowMatchMeaning(cells: seq<Cell>, row: Row)
    ensures WellFormed(RowMatch(cells)) && Typed(RowMatch(cells), row)
    ensures Eval(RowMatch(cells), row) == False <==> SomeDiffers(cells, row)
    decreases |cells|
  {
    if cells != [] {
      var n := |cells| - 1;
      RowMatchMeaning(cells[..n], row);
      SomeDiffersSnoc(cells, row);
    }
  }

  /** The predicate of one delete row is `True` exactly when some column of the data row is not null and differs. */
  lemma {:induction false} NegatedRowMeaning(cells: seq<Cell>, row: Row)
    ensures Eval(NegatedRow(cells), row) == True <==> SomeDiffers(cells, row)
    ensures Matches(cells, row) && cells != [] ==> Eval(NegatedRow(cells), row) != True
    ensures NotFree(NegatedRow(cells))
  {
    RowMatchMeaning(cells, row);
    RewriteNotMeaning(Not(RowMatch(cells)), row);
  }

  // ---- the balanced conjunction ----

  /** The conjunction of a list, left to right. */
  function AllOf(ps: seq<Predicate>, row: Row): Kleene {
    if ps == [] then True else And3(Eval(ps[0], row), AllOf(ps[1..], row))
  }

  lemma {:induction false} AllOfTrue(ps: seq<Predicate>, row: Row)
    ensures AllOf(ps, row) == True <==> forall i :: 0 <= i < |ps| ==> Eval(ps[i], row) == True
  {
    if ps != [] {
      AllOfTrue(ps[1..], row);
      assert forall i :: 1 <= i < |ps| ==> ps[i] == ps[1..][i - 1];
    }
  }

  /** One level: neighbours are joined two by two, an odd one out is carried over. */
  function PairUp(ps: seq<Predicate>): (r: seq<Predicate>)
    ensures |r| == (|ps| + 1) / 2
  {
    if |ps| < 2 then ps else [AndOf(ps[0], ps[1])] + PairUp(ps[2..])
  }

  function BalancedAnd(ps: seq<Predicate>): Predicate
    decreases |ps|
  {
    if ps == [] then AlwaysTrue
    else if |ps| == 1 then ps[0]
    else BalancedAnd(PairUp(ps))
  }

  lemma {:induction false} PairUpMeaning(ps: seq<Predicate>, row: Row)
    ensures AllOf(PairUp(ps), row) == AllOf(ps, row)
    decreases |ps|
  {
    if |ps| >= 2 {
      PairUpMeaning(ps[2..], row);
      assert ps[1..][1..] == ps[2..];
    }
  }

  /** Balancing keeps the meaning of the conjunction on every row. */
  lemma {:induction false} BalancedAndMeaning(ps: seq<Predicate>, row: Row)
    ensures Eval(BalancedAnd(ps), row) == AllOf(ps, row)
    decreases |ps|
  {
    if |ps| == 1 {
      assert ps[1..] == [];
    } else if |ps| > 1 {
      PairUpMeaning(ps, row);
      BalancedAndMeaning(PairUp(ps), row);
    }
  }

  /** The conjuncts of a predicate, left to right. */
  function Conjuncts(p: Predicate): seq<Predicate> {
    match p
    case And(l, r) => Conjuncts(l) + Conjuncts(r)
    case _ => [p]
  }

  function AllConjuncts(ps: seq<Predicate>): seq<Predicate> {
    if ps == [] then [] else Conjuncts(ps[0]) + AllConjuncts(ps[1..])
  }

  predicate Constant(p: Predicate) { p == AlwaysTrue || p == AlwaysFalse }

  predicate NoConstants(ps: seq<Predicate>) { forall i :: 0 <= i < |ps| ==> !Constant(ps[i]) }

  lemma {:induction false} PairUpConjuncts(ps: seq<Predicate>)
    requires NoConstants(ps)
    ensures AllConjuncts(PairUp(ps)) == AllConjuncts(ps) && NoConstants(PairUp(ps))
    decreases |ps|
  {
    if |ps| >= 2 {
      PairUpConjuncts(ps[2..]);
      assert ps[1..][1..] == ps[2..];
      assert AllConjuncts(ps) == Conjuncts(ps[0]) + Conjuncts(ps[1]) + AllConjuncts(ps[2..]);
    }
  }

  /** Balancing keeps the conjuncts and their order. */
  lemma {:induction false} BalancedAndConjuncts(ps: seq<Predicate>)
    requires NoConstants(ps) && ps != []
    ensures Conjuncts(BalancedAnd(ps)) == AllConjuncts(ps)
    decreases |ps|
  {
    if |ps| == 1 {
      assert ps[1..] == [];
    } else {
      PairUpConjuncts(ps);
      BalancedAndConjuncts(PairUp(ps));
    }
  }

  /** How deeply `AND` nodes are nested from the root. */
  function AndDepth(p: Predicate): nat {
    match p
    case And(l, r) => 1 + if AndDepth(l) < AndDepth(r) then AndDepth(r) else AndDepth(l)
    case _ => 0
  }

  /** A predicate of depth `d` has at most `2^d` conjuncts. */
  lemma {:induction false} ConjunctsFit(p: Predicate)
    ensures |Conjuncts(p)| <= Pow2(AndDepth(p))
  {
    match p
    case And(l, r) =>
      ConjunctsFit(l);
      ConjunctsFit(r);
      PowGrows(AndDepth(l), AndDepth(p) - 1);
      PowGrows(AndDepth(r), AndDepth(p) - 1);
    case _ =>
  }

  lemma {:induction false} PowGrows(j: nat, k: nat)
    requires j <= k
    ensures Pow2(j) <= Pow2(k)
    decreases k
  {
    if j < k { PowGrows(j, k - 1); }
  }

  predicate DepthAtMost(ps: seq<Predicate>, d: nat) { forall i :: 0 <= i < |ps| ==> AndDepth(ps[i]) <= d }

  function Log2Ceil(n: nat): nat { if n <= 1 then 0 else 1 + Log2Ceil((n + 1) / 2) }

  function Pow2(k: nat): nat { if k == 0 then 1 else 2 * Pow2(k - 1) }

  /** `Log2Ceil(n)` is the least exponent `k` with `n <= 2^k`. */
  lemma {:induction false} Log2CeilIsLeast(n: nat, k: nat)
    ensures n <= Pow2(Log2Ceil(n))
    ensures n <= Pow2(k) ==> Log2Ceil(n) <= k
    decreases n
  {
    if n > 1 {
      Log2CeilIsLeast((n + 1) / 2, if k == 0 then 0 else k - 1);
    }
  }

  lemma {:induction false} PairUpDepth(ps: seq<Predicate>, d: nat)
    requires DepthAtMost(ps, d)
    ensures DepthAtMost(PairUp(ps), d + 1)
    decreases |ps|
  {
    if |ps| >= 2 {
      PairUpDepth(ps[2..], d);
    }
  }

  /** Combining `n` predicates of depth at most `d` nests at most `ceil(log2 n)` further levels. */
  lemma {:induction false} BalancedAndDepth(ps: seq<Predicate>, d: nat)
    requires DepthAtMost(ps, d)
    ensures AndDepth(BalancedAnd(ps)) <= d + Log2Ceil(|ps|)
    decreases |ps|
  {
    if |ps| > 1 {
      PairUpDepth(ps, d);
      BalancedAndDepth(PairUp(ps), d + 1);
    }
  }

  function PairUpAfter(ps: seq<Predicate>, i: nat): seq<Predicate>
    requires i <= |ps|
  {
    PairUp(ps[i..])
  }

  lemma {:induction false} PairUpSteps(ps: seq<Predicate>, i: nat)
    requires i <= |ps|
    ensures i == 0 ==> PairUpAfter(ps, i) == PairUp(ps)
    ensures i == |ps| ==> PairUpAfter(ps, i) == []
    ensures i + 1 == |ps| ==> PairUpAfter(ps, i) == [ps[i]] + PairUpAfter(ps, i + 1)
    ensures i + 1 < |ps| ==> PairUpAfter(ps, i) == [AndOf(ps[i], ps[i + 1])] + PairUpAfter(ps, i + 2)
  {
    assert ps[0..] == ps;
    if i + 1 < |ps| { assert ps[i..][2..] == ps[i + 2..]; }
  }

  /** One pass of the inner loop: the next level of the tree. */
  method JoinNeighbours(level: seq<Predicate>) returns (nextLevel: seq<Predicate>)
    ensures nextLevel == PairUp(level)
  {
    hide PairUpAfter, AndOf, PairUp;
    nextLevel := [];
    var i := 0;
    PairUpSteps(level, 0);
    while i < |level|
      invariant 0 <= i <= |level|
      invariant PairUp(level) == nextLevel + PairUpAfter(level, i)
    {
      PairUpSteps(level, i);
      if i + 1 < |level| {
        nextLevel := nextLevel + [AndOf(level[i], level[i + 1])];
        i := i + 2;
      } else {
        nextLevel := nextLevel + [level[i]];
        i := i + 1;
      }
    }
    PairUpSteps(level, i);
    assert nextLevel == PairUp(level);
  }

  /** The level-by-level loop that replaces a fold. */
  method CombineBalanced(rowPredicates: seq<Predicate>) returns (p: Predicate)
    ensures p == BalancedAnd(rowPredicates)
  {
    var level := rowPredicates;
    while |level| > 1
      invariant BalancedAnd(level) == BalancedAnd(rowPredicates)
      decreases |level|
    {
      level := JoinNeighbours(level);
    }
    p := if level == [] then AlwaysTrue else level[0];
  }

  // ---- the whole delete file ----

  predicate ValidBatch(b: Batch) {
    && (b.columns != [] ==> b.numColumns > 0)
    && forall i :: 0 <= i < |b.columns| ==> |b.columns[i].cells| == |b.columns[0].cells|
  }

  function RowCount(b: Batch): nat { if b.columns == [] then 0 else |b.columns[0].cells| }

  /** The columns of a valid batch are equally long: the batch has a row `k` when its first column has. */
  predicate HasRow(b: Batch, k: int) { b.columns != [] && 0 <= k < |b.columns[0].cells| }

  function RowCells(b: Batch, k: nat): seq<Cell>
    requires ValidBatch(b) && k < RowCount(b)
  {
    seq(|b.columns|, i requires 0 <= i < |b.columns| => Cell(b.columns[i].field, b.columns[i].cells[k]))
  }

  /** The delete rows of a batch from row `k` on. */
  function BatchRows(b: Batch, k: nat): seq<seq<Cell>>
    requires ValidBatch(b) && k <= RowCount(b)
    decreases RowCount(b) - k
  {
    if k == RowCount(b) then [] else [RowCells(b, k)] + BatchRows(b, k + 1)
  }

  predicate ValidBatches(bs: seq<Batch>) { forall i :: 0 <= i < |bs| ==> ValidBatch(bs[i]) }

  /** A batch without columns ends the parse: the file then deletes nothing. */
  predicate HasEmptyBatch(bs: seq<Batch>) { exists i :: 0 <= i < |bs| && bs[i].numColumns == 0 }

  function DeleteRows(bs: seq<Batch>): seq<seq<Cell>>
    requires ValidBatches(bs)
  {
    if bs == [] then [] else BatchRows(bs[0], 0) + DeleteRows(bs[1..])
  }

  function NegatedRows(rows: seq<seq<Cell>>): (ps: seq<Predicate>)
    ensures |ps| == |rows| && forall i :: 0 <= i < |rows| ==> ps[i] == NegatedRow(rows[i])
  {
    seq(|rows|, i requires 0 <= i < |rows| => NegatedRow(rows[i]))
  }

  /** The data rows a delete file keeps, as the code decides it. */
  predicate Kept(rows: seq<seq<Cell>>, row: Row) {
    forall i :: 0 <= i < |rows| ==> SomeDiffers(rows[i], row)
  }

  /** The data rows a delete file deletes by the standard: all columns equal, null being equal to null. */
  predicate Matched(rows: seq<seq<Cell>>, row: Row) {
    exists i :: 0 <= i < |rows| && Matches(rows[i], row)
  }

  /**
   The predicate of a delete file is `True` on a data row iff every delete row has a column that is not null in
   the data and differs from the deleted value.
   */
  lemma {:induction false} DeletePredicateMeaning(rows: seq<seq<Cell>>, row: Row)
    ensures Eval(BalancedAnd(NegatedRows(rows)), row) == True <==> Kept(rows, row)
  {
    var ps := NegatedRows(rows);
    BalancedAndMeaning(ps, row);
    AllOfTrue(ps, row);
    forall i | 0 <= i < |rows| ensures Eval(ps[i], row) == True <==> SomeDiffers(rows[i], row) {
      NegatedRowMeaning(rows[i], row);
    }
  }

  /** A null data value faces a deleted value, and no other column settles the matter. */
  predicate BlockedByNull(cells: seq<Cell>, row: Row) {
    && !SomeDiffers(cells, row)
    && exists k :: 0 <= k < |cells| && row(cells[k].field).None? && cells[k].value.Some?
  }

  /**
   The filter agrees with the standard on a data row ("kept iff no delete row matches") exactly when the row is
   matched anyway or no delete row leaves it undecided on a null.
   */
  lemma {:induction false} KeptAgreesWithStandard(rows: seq<seq<Cell>>, row: Row)
    ensures (Kept(rows, row) <==> !Matched(rows, row)) <==>
            Matched(rows, row) || forall i :: 0 <= i < |rows| ==> !BlockedByNull(rows[i], row)
    ensures Matched(rows, row) ==> !Kept(rows, row)
  {
    forall i | 0 <= i < |rows|
      ensures Matches(rows[i], row) ==> !SomeDiffers(rows[i], row)
      ensures !SomeDiffers(rows[i], row) <==> Matches(rows[i], row) || BlockedByNull(rows[i], row)
      ensures BlockedByNull(rows[i], row) ==> !Matches(rows[i], row)
    {
      UndecidedOrMatched(rows[i], row);
    }
  }

  lemma {:induction false} UndecidedOrMatched(cells: seq<Cell>, row: Row)
    ensures !SomeDiffers(cells, row) <==> Matches(cells, row) || BlockedByNull(cells, row)
    ensures !(Matches(cells, row) && BlockedByNull(cells, row))
  {
    if !SomeDiffers(cells, row) && !Matches(cells, row) {
      var k :| 0 <= k < |cells| && row(cells[k].field) != cells[k].value;
      assert !Differs(cells[k], row);
    }
  }

  /** So a row without nulls in the equality columns is kept iff no delete row matches it. */
  lemma {:induction false} KeptWithoutNulls(rows: seq<seq<Cell>>, row: Row)
    requires forall i, k :: 0 <= i < |rows| && 0 <= k < |rows[i]| ==> row(rows[i][k].field).Some?
    ensures Kept(rows, row) <==> !Matched(rows, row)
  {
    KeptAgreesWithStandard(rows, row);
  }

  /** Deleting `a = 1` also drops a row whose `a` is null, which no delete row matches. */
  lemma {:induction false} NullRowLost()
    ensures var rows := [[Cell("a", Some(Number(1)))]];
            var row: Row := term => None;
            !Matched(rows, row) && !Kept(rows, row) && Eval(BalancedAnd(NegatedRows(rows)), row) == Unknown
  {
    var rows := [[Cell("a", Some(Number(1)))]];
    var row: Row := term => None;
    assert !SomeDiffers(rows[0], row);
    assert rows[0][..0] == [];
    assert RowMatch(rows[0]) == Binary(Eq, "a", Number(1));
  }

  /** A row match negates to a disjunction, so it is one conjunct of the file's predicate. */
  lemma {:induction false} NegatedRowIsOneConjunct(cells: seq<Cell>)
    requires cells != []
    ensures !Constant(NegatedRow(cells)) && Conjuncts(NegatedRow(cells)) == [NegatedRow(cells)] &&
            AndDepth(NegatedRow(cells)) == 0
  {
    var n := |cells| - 1;
    RowMatchNotFree(cells);
    if n > 0 { NegatedRowIsOneConjunct(cells[..n]); }
    assert RowMatch(cells) == AndOf(RowMatch(cells[..n]), CellPredicate(cells[n]));
  }

  lemma {:induction false} RowMatchNotFree(cells: seq<Cell>)
    ensures RewriteNot(RowMatch(cells)) == RowMatch(cells)
    ensures cells != [] ==> !Constant(RowMatch(cells))
    decreases |cells|
  {
    if cells != [] { RowMatchNotFree(cells[..|cells| - 1]); }
  }

  /** The file's predicate: its conjuncts are the delete rows in order, nested exactly `ceil(log2 n)` deep. */
  lemma {:induction false} DeletePredicateShape(rows: seq<seq<Cell>>)
    requires rows != [] && forall i :: 0 <= i < |rows| ==> rows[i] != []
    ensures Conjuncts(BalancedAnd(NegatedRows(rows))) == NegatedRows(rows)
    ensures AndDepth(BalancedAnd(NegatedRows(rows))) == Log2Ceil(|rows|)
  {
    var ps := NegatedRows(rows);
    forall i | 0 <= i < |ps| ensures !Constant(ps[i]) && Conjuncts(ps[i]) == [ps[i]] && AndDepth(ps[i]) == 0 {
      NegatedRowIsOneConjunct(rows[i]);
    }
    BalancedAndConjuncts(ps);
    SingleConjuncts(ps);
    BalancedAndDepth(ps, 0);
    ConjunctsFit(BalancedAnd(ps));
    Log2CeilIsLeast(|rows|, AndDepth(BalancedAnd(ps)));
  }

  lemma {:induction false} SingleConjuncts(ps: seq<Predicate>)
    requires forall i :: 0 <= i < |ps| ==> Conjuncts(ps[i]) == [ps[i]]
    ensures AllConjuncts(ps) == ps
  {
    if ps != [] { SingleConjuncts(ps[1..]); }
  }

  // ---- parsing the file ----

  /** The predicate parsed from the batches of an equality delete file. */
  function FilePredicate(bs: seq<Batch>): Predicate
    requires ValidBatches(bs)
  {
    if HasEmptyBatch(bs) then AlwaysTrue else BalancedAnd(NegatedRows(DeleteRows(bs)))
  }

  /**
   Every delete row has a column that is there in the data row and differs. A delete row is read off the columns of
   its batch: row `k` takes cell `k` of each of them.
   */
  ghost predicate SparedBy(bs: seq<Batch>, row: Row)
    requires ValidBatches(bs)
  {
    forall i, k :: 0 <= i < |bs| && HasRow(bs[i], k) ==>
                     exists j :: 0 <= j < |bs[i].columns| && row(bs[i].columns[j].field).Some? &&
                                 row(bs[i].columns[j].field) != bs[i].columns[j].cells[k]
  }

  lemma {:induction false} SomeDiffersAt(b: Batch, k: nat, row: Row)
    requires ValidBatch(b) && k < RowCount(b)
    ensures SomeDiffers(RowCells(b, k), row) <==>
            exists j :: 0 <= j < |b.columns| && row(b.columns[j].field).Some? &&
                        row(b.columns[j].field) != b.columns[j].cells[k]
  {
    var cells := RowCells(b, k);
    if j :| 0 <= j < |b.columns| && row(b.columns[j].field).Some? && row(b.columns[j].field) != b.columns[j].cells[k] {
      assert Differs(cells[j], row);
    }
  }

  lemma {:induction false} BatchRowsAt(b: Batch, k: nat)
    requires ValidBatch(b) && k <= RowCount(b)
    ensures |BatchRows(b, k)| == RowCount(b) - k
    ensures forall m :: 0 <= m < |BatchRows(b, k)| ==> BatchRows(b, k)[m] == RowCells(b, k + m)
    decreases RowCount(b) - k
  {
    hide RowCells;
    if k < RowCount(b) { BatchRowsAt(b, k + 1); }
  }

  lemma {:induction false} KeptConcat(a: seq<seq<Cell>>, b: seq<seq<Cell>>, row: Row)
    ensures Kept(a + b, row) <==> Kept(a, row) && Kept(b, row)
  {
    hide SomeDiffers;
    if Kept(a + b, row) {
      forall i | 0 <= i < |b| ensures SomeDiffers(b[i], row) { assert (a + b)[|a| + i] == b[i]; }
      forall i | 0 <= i < |a| ensures SomeDiffers(a[i], row) { assert (a + b)[i] == a[i]; }
    }
  }

  /** The columns of one batch spare the data row at every delete row. */
  ghost predicate BatchSpares(b: Batch, row: Row)
    requires ValidBatch(b)
  {
    forall k: nat :: k < RowCount(b) ==> SomeDiffers(RowCells(b, k), row)
  }

  lemma {:induction false} BatchKept(b: Batch, row: Row)
    requires ValidBatch(b)
    ensures Kept(BatchRows(b, 0), row) <==> BatchSpares(b, row)
  {
    hide SomeDiffers, RowCells, BatchRows;
    BatchRowsAt(b, 0);
    if Kept(BatchRows(b, 0), row) {
      forall k: nat | k < RowCount(b) ensures SomeDiffers(RowCells(b, k), row) {
        assert BatchRows(b, 0)[k] == RowCells(b, k);
      }
    }
  }

  lemma {:induction false} SparedByEach(bs: seq<Batch>, row: Row)
    requires ValidBatches(bs)
    ensures SparedBy(bs, row) <==> forall i :: 0 <= i < |bs| ==> BatchSpares(bs[i], row)
  {
    hide SomeDiffers, RowCells;
    if SparedBy(bs, row) {
      forall i | 0 <= i < |bs| ensures BatchSpares(bs[i], row) {
        forall k: nat | k < RowCount(bs[i]) ensures SomeDiffers(RowCells(bs[i], k), row) {
          assert HasRow(bs[i], k);
          SomeDiffersAt(bs[i], k, row);
        }
      }
    } else {
      var i, k :| 0 <= i < |bs| && HasRow(bs[i], k) &&
        !exists j :: 0 <= j < |bs[i].columns| && row(bs[i].columns[j].field).Some? &&
                     row(bs[i].columns[j].field) != bs[i].columns[j].cells[k];
      SomeDiffersAt(bs[i], k, row);
      assert !BatchSpares(bs[i], row);
    }
  }

  /** The delete rows of the file keep a data row exactly when the columns of its batches spare it. */
  lemma {:induction false} KeptIsSpared(bs: seq<Batch>, row: Row)
    requires ValidBatches(bs)
    ensures Kept(DeleteRows(bs), row) <==> SparedBy(bs, row)
  {
    hide Kept, SparedBy, BatchRows, BatchSpares;
    KeptEach(bs, row);
    SparedByEach(bs, row);
  }

  lemma {:induction false} KeptEach(bs: seq<Batch>, row: Row)
    requires ValidBatches(bs)
    ensures Kept(DeleteRows(bs), row) <==> forall i :: 0 <= i < |bs| ==> BatchSpares(bs[i], row)
  {
    if bs != [] {
      hide Kept, BatchRows, BatchSpares;
      KeptEach(bs[1..], row);
      BatchKept(bs[0], row);
      KeptConcat(BatchRows(bs[0], 0), DeleteRows(bs[1..]), row);
      assert forall i :: 1 <= i < |bs| ==> bs[i] == bs[1..][i - 1];
    }
  }

  /**
   What the predicate of a delete file says of a data row: its columns spare the row, unless the parse ended early at
   a batch without columns.
   */
  lemma {:induction false} FilePredicateMeaning(bs: seq<Batch>, row: Row)
    requires ValidBatches(bs)
    ensures Eval(FilePredicate(bs), row) == True <==>
            (exists i :: 0 <= i < |bs| && bs[i].numColumns == 0) || SparedBy(bs, row)
  {
    hide BalancedAnd, NegatedRows, DeleteRows, Kept, SparedBy;
    DeletePredicateMeaning(DeleteRows(bs), row);
    KeptIsSpared(bs, row);
  }

  lemma {:induction false} FilePredicateByColumns(bs: seq<Batch>)
    requires ValidBatches(bs)
    ensures forall row: Row ::
              Eval(FilePredicate(bs), row) == True <==>
              (exists i :: 0 <= i < |bs| && bs[i].numColumns == 0) ||
              forall i, k :: 0 <= i < |bs| && HasRow(bs[i], k) ==>
                               exists j :: 0 <= j < |bs[i].columns| && row(bs[i].columns[j].field).Some? &&
                                           row(bs[i].columns[j].field) != bs[i].columns[j].cells[k]
  {
    hide FilePredicate, Eval;
    forall row: Row
      ensures Eval(FilePredicate(bs), row) == True <==>
              (exists i :: 0 <= i < |bs| && bs[i].numColumns == 0) ||
              forall i, k :: 0 <= i < |bs| && HasRow(bs[i], k) ==>
                               exists j :: 0 <= j < |bs[i].columns| && row(bs[i].columns[j].field).Some? &&
                                           row(bs[i].columns[j].field) != bs[i].columns[j].cells[k]
    {
      FilePredicateMeaning(bs, row);
    }
  }

  lemma {:induction false} NegatedRowsConcat(a: seq<seq<Cell>>, b: seq<seq<Cell>>)
    ensures NegatedRows(a + b) == NegatedRows(a) + NegatedRows(b)
  {
  }

  /** The columns of one delete row, taken in lockstep. */
  method ParseRow(b: Batch, k: nat) returns (rowPredicate: Predicate)
    requires ValidBatch(b) && k < RowCount(b)
    ensures rowPredicate == RowMatch(RowCells(b, k))
  {
    ghost var cells := RowCells(b, k);
    rowPredicate := AlwaysTrue;
    for j := 0 to |b.columns|
      invariant rowPredicate == RowMatch(cells[..j])
    {
      var cell := Cell(b.columns[j].field, b.columns[j].cells[k]);
      assert cells[..j + 1] == cells[..j] + [cell];
      rowPredicate := AndOf(rowPredicate, CellPredicate(cell));
    }
    assert cells[..|b.columns|] == cells;
  }

  lemma {:induction false} BatchRowsStep(b: Batch, k: nat)
    requires ValidBatch(b) && k < RowCount(b)
    ensures NegatedRows(BatchRows(b, k)) == [NegatedRow(RowCells(b, k))] + NegatedRows(BatchRows(b, k + 1))
  {
    hide RowCells, NegatedRow;
    NegatedRowsConcat([RowCells(b, k)], BatchRows(b, k + 1));
    assert NegatedRows([RowCells(b, k)]) == [NegatedRow(RowCells(b, k))];
  }

  lemma {:induction false} BatchRowsEnd(b: Batch)
    requires ValidBatch(b)
    ensures NegatedRows(BatchRows(b, RowCount(b))) == []
  {
  }

  /** The predicates of a batch, one for each delete row, by the cells of its columns. */
  lemma {:induction false} BatchPredicates(b: Batch)
    requires ValidBatch(b)
    ensures |NegatedRows(BatchRows(b, 0))| == if b.columns == [] then 0 else |b.columns[0].cells|
    ensures forall row: Row, k :: 0 <= k < |NegatedRows(BatchRows(b, 0))| ==>
                                    (Eval(NegatedRows(BatchRows(b, 0))[k], row) == True <==>
                                     exists j :: 0 <= j < |b.columns| && row(b.columns[j].field).Some? &&
                                                 row(b.columns[j].field) != b.columns[j].cells[k])
  {
    hide RowCells, BatchRows, NegatedRow, SomeDiffers, Eval;
    BatchRowsAt(b, 0);
    forall row: Row, k | 0 <= k < |NegatedRows(BatchRows(b, 0))|
      ensures Eval(NegatedRows(BatchRows(b, 0))[k], row) == True <==>
              exists j :: 0 <= j < |b.columns| && row(b.columns[j].field).Some? &&
                          row(b.columns[j].field) != b.columns[j].cells[k]
    {
      NegatedRowMeaning(RowCells(b, k), row);
      SomeDiffersAt(b, k, row);
    }
  }

  /**
   One batch: one predicate for each delete row, `True` on a data row exactly when one of the batch's columns is there
   in the data and differs from its cell of that row.
   */
  method ParseBatch(b: Batch) returns (rowPredicates: seq<Predicate>)
    requires ValidBatch(b)
    ensures rowPredicates == NegatedRows(BatchRows(b, 0))
    ensures |rowPredicates| == if b.columns == [] then 0 else |b.columns[0].cells|
    ensures forall row: Row, k :: 0 <= k < |rowPredicates| ==>
                                    (Eval(rowPredicates[k], row) == True <==>
                                     exists j :: 0 <= j < |b.columns| && row(b.columns[j].field).Some? &&
                                                 row(b.columns[j].field) != b.columns[j].cells[k])
  {
    hide RowMatch, RowCells, RewriteNot, NegatedRows, BatchRows, Eval;
    rowPredicates := [];
    var k := 0;
    while k < RowCount(b)
      invariant 0 <= k <= RowCount(b)
      invariant NegatedRows(BatchRows(b, 0)) == rowPredicates + NegatedRows(BatchRows(b, k))
    {
      var rowPredicate := ParseRow(b, k);
      BatchRowsStep(b, k);
      Associates(rowPredicates, [NegatedRow(RowCells(b, k))], NegatedRows(BatchRows(b, k + 1)));
      rowPredicates := rowPredicates + [RewriteNot(Not(rowPredicate))];
      k := k + 1;
    }
    BatchRowsEnd(b);
    BatchPredicates(b);
  }

  /**
   `parse_equality_deletes_record_batch_stream`: the predicate is `True` on a data row exactly when every delete row,
   read off the columns of its batch, has a column that is there in the data and differs, or when a batch without
   columns ended the parse.
   */
  method ParseEqualityDeletes(bs: seq<Batch>) returns (p: Predicate)
    requires ValidBatches(bs)
    ensures p == FilePredicate(bs)
    ensures forall row: Row ::
              Eval(p, row) == True <==>
              (exists i :: 0 <= i < |bs| && bs[i].numColumns == 0) ||
              forall i, k :: 0 <= i < |bs| && HasRow(bs[i], k) ==>
                               exists j :: 0 <= j < |bs[i].columns| && row(bs[i].columns[j].field).Some? &&
                                           row(bs[i].columns[j].field) != bs[i].columns[j].cells[k]
  {
    hide Eval, NegatedRows, DeleteRows, BatchRows, BalancedAnd;
    var rowPredicates := [];
    assert bs[0..] == bs;
    for i := 0 to |bs|
      invariant forall j :: 0 <= j < i ==> bs[j].numColumns != 0
      invariant NegatedRows(DeleteRows(bs)) == rowPredicates + NegatedRows(DeleteRows(bs[i..]))
    {
      if bs[i].numColumns == 0 {
        FilePredicateByColumns(bs);
        return AlwaysTrue;
      }
      var more := ParseBatch(bs[i]);
      DeleteRowsStep(bs, i);
      Associates(rowPredicates, more, NegatedRows(DeleteRows(bs[i + 1..])));
      rowPredicates := rowPredicates + more;
    }
    DeleteRowsEnd(bs);
    assert !HasEmptyBatch(bs) && rowPredicates == NegatedRows(DeleteRows(bs));
    p := CombineBalanced(rowPredicates);
    FilePredicateByColumns(bs);
  }

  lemma {:induction false} DeleteRowsStep(bs: seq<Batch>, i: nat)
    requires ValidBatches(bs) && i < |bs|
    ensures NegatedRows(DeleteRows(bs[i..])) ==
            NegatedRows(BatchRows(bs[i], 0)) + NegatedRows(DeleteRows(bs[i + 1..]))
  {
    assert bs[i..][1..] == bs[i + 1..];
    NegatedRowsConcat(BatchRows(bs[i], 0), DeleteRows(bs[i + 1..]));
  }

  lemma {:induction false} DeleteRowsEnd(bs: seq<Batch>)
    requires ValidBatches(bs)
    ensures NegatedRows(DeleteRows(bs[|bs|..])) == []
  {
  }

  // ---- all the delete files of a scan task ----

  /** What is known of one delete file of a scan task: whether it holds equality deletes, and its loaded predicate. */
  datatype TaskDelete = TaskDelete(isEquality: bool, loaded: Option<Predicate>)

  function EqualityPredicates(deletes: seq<TaskDelete>): seq<Predicate> {
    if deletes == [] then []
    else (if deletes[0].isEquality && deletes[0].loaded.Some? then [deletes[0].loaded.value] else []) +
         EqualityPredicates(deletes[1..])
  }

  /** A row passes all the equality deletes of a scan task exactly when it passes the predicate of each file. */
  lemma {:induction false} EqualityPredicatesMeaning(deletes: seq<TaskDelete>, row: Row)
    ensures AllOf(EqualityPredicates(deletes), row) == True <==>
            forall i :: 0 <= i < |deletes| && deletes[i].isEquality && deletes[i].loaded.Some? ==>
                          Eval(deletes[i].loaded.value, row) == True
  {
    hide Eval;
    if deletes != [] {
      var rest := deletes[1..];
      EqualityPredicatesMeaning(rest, row);
      var first := if deletes[0].isEquality && deletes[0].loaded.Some? then [deletes[0].loaded.value] else [];
      AllOfConcat(first, EqualityPredicates(rest), row);
      if first != [] { assert first[1..] == []; }
      assert forall i :: 1 <= i < |deletes| ==> deletes[i] == rest[i - 1];
    }
  }

  lemma {:induction false} AllOfConcat(a: seq<Predicate>, b: seq<Predicate>, row: Row)
    ensures AllOf(a + b, row) == And3(AllOf(a, row), AllOf(b, row))
  {
    if a == [] {
      assert a + b == b;
    } else {
      assert (a + b)[1..] == a[1..] + b;
      AllOfConcat(a[1..], b, row);
    }
  }

  lemma {:induction false} EqualityPredicatesSnoc(deletes: seq<TaskDelete>, i: nat)
    requires i < |deletes|
    ensures EqualityPredicates(deletes[..i + 1]) ==
            EqualityPredicates(deletes[..i]) +
            if deletes[i].isEquality && deletes[i].loaded.Some? then [deletes[i].loaded.value] else []
    decreases |deletes|
  {
    if i > 0 {
      EqualityPredicatesSnoc(deletes[1..], i - 1);
      assert deletes[..i + 1][1..] == deletes[1..][..i] && deletes[..i][1..] == deletes[1..][..i - 1];
    }
  }

  /** The loaded predicates of the equality delete files, joined in order. */
  function Combined(deletes: seq<TaskDelete>): Predicate {
    if deletes == [] then AlwaysTrue
    else
      var front, last := Combined(deletes[..|deletes| - 1]), deletes[|deletes| - 1];
      if last.isEquality && last.loaded.Some? then AndOf(front, last.loaded.value) else front
  }

  function EqualityDeletePredicate(deletes: seq<TaskDelete>): Option<Predicate> {
    if Combined(deletes) == AlwaysTrue then None else Some(Combined(deletes))
  }

  lemma {:induction false} CombinedMeaning(deletes: seq<TaskDelete>, row: Row)
    ensures Eval(Combined(deletes), row) == AllOf(EqualityPredicates(deletes), row)
    decreases |deletes|
  {
    if deletes != [] {
      var n := |deletes| - 1;
      CombinedMeaning(deletes[..n], row);
      EqualityPredicatesSnoc(deletes, n);
      assert deletes[..n + 1] == deletes;
      if deletes[n].isEquality && deletes[n].loaded.Some? {
        var next := deletes[n].loaded.value;
        AllOfConcat(EqualityPredicates(deletes[..n]), [next], row);
        assert AllOf([next], row) == Eval(next, row) by { assert [next][1..] == []; }
      } else {
        assert EqualityPredicates(deletes) == EqualityPredicates(deletes[..n]) + [] == EqualityPredicates(deletes[..n]);
      }
    }
  }

  /** The predicate of the equality deletes lets a row pass exactly when every loaded predicate does. */
  lemma {:induction false} EqualityDeletePredicateMeaning(deletes: seq<TaskDelete>, row: Row)
    ensures var p := EqualityDeletePredicate(deletes);
            (if p.None? then True else Eval(p.value, row)) == AllOf(EqualityPredicates(deletes), row)
  {
    hide Combined, EqualityPredicates, AllOf;
    CombinedMeaning(deletes, row);
  }

  /**
   `build_equality_delete_predicate`: the conjunction over all equality delete files of a scan task. It fails iff the
   predicate of one of them is missing, and returns nothing only when every row passes.
   */
  method BuildEqualityDeletePredicate(deletes: seq<TaskDelete>) returns (r: Result<Option<Predicate>>)
    ensures r.Ok? <==> forall i :: 0 <= i < |deletes| && deletes[i].isEquality ==> deletes[i].loaded.Some?
    ensures r.Ok? ==> r.value == EqualityDeletePredicate(deletes)
    ensures r.Ok? ==> forall row: Row ::
                        AllOf(EqualityPredicates(deletes), row) ==
                        if r.value.None? then True else Eval(r.value.value, row)
  {
    var combined := AlwaysTrue;
    for i := 0 to |deletes|
      invariant forall j :: 0 <= j < i && deletes[j].isEquality ==> deletes[j].loaded.Some?
      invariant combined == Combined(deletes[..i])
    {
      assert deletes[..i + 1][..i] == deletes[..i];
      if deletes[i].isEquality {
        if deletes[i].loaded.None? { return Err; }
        combined := AndOf(combined, deletes[i].loaded.value);
      }
    }
    assert deletes[..|deletes|] == deletes;
    r := Ok(if combined == AlwaysTrue then None else Some(combined));
    assert r.value == EqualityDeletePredicate(deletes);
    hide Combined, EqualityDeletePredicate, AllOf, EqualityPredicates, Eval;
    forall row: Row
      ensures AllOf(EqualityPredicates(deletes), row) == if r.value.None? then True else Eval(r.value.value, row)
    {
      EqualityDeletePredicateMeaning(deletes, row);
    }
  }
}
