/**
 Projecting nested columns by field id: a pre-order search leaves a path, innermost index first, and the path read
 backwards leads to the column.
 */
module Projector {
  import opened Prelude
  import opened ArrowTypes

  /** How a field's id is fetched, which structs are searched, and the id looked for. */
  datatype Search = Search(idOf: Field -> Result<Option<int>>, searchable: Field -> bool, target: int)

  type Path = seq<nat>

  // ---- the search ----

  /**
   The first match at or after a position, in pre-order; a match inside a struct has the struct's position pushed after
   it.
   */
  function Find(s: Search, fields: seq<Field>, from: nat): Result<Option<(Field, Path)>>
    requires from <= |fields|
    decreases fields, |fields| - from
  {
    if from == |fields| then Ok(None)
    else
      var f := fields[from];
      var id :- s.idOf(f);
      if id == Some(s.target) then Ok(Some((f, [from])))
      else
        var inside :- FindInside(s, f);
        if inside.Some? then Ok(Some((inside.value.0, inside.value.1 + [from]))) else Find(s, fields, from + 1)
  }

  function FindInside(s: Search, f: Field): Result<Option<(Field, Path)>>
    decreases f
  {
    if f.dataType.Struct? && s.searchable(f) then Find(s, f.dataType.fields, 0) else Ok(None)
  }

  /** `fetch_field_index`: on success the path is pushed, otherwise the vector is as it was. */
  method FetchFieldIndex(s: Search, fields: seq<Field>, indices: Path)
    returns (r: Result<Option<Field>>, indexVec: Path)
    ensures match Find(s, fields, 0)
            case Err => r == Err && indexVec == indices
            case Ok(None) => r == Ok(None) && indexVec == indices
            case Ok(Some((f, p))) => r == Ok(Some(f)) && indexVec == indices + p
    decreases fields
  {
    indexVec := indices;
    for pos := 0 to |fields|
      invariant Find(s, fields, 0) == Find(s, fields, pos)
      invariant indexVec == indices
    {
      var field := fields[pos];
      var id := s.idOf(field);
      if id.Err? { return Err, indexVec; }
      if id.value == Some(s.target) {
        indexVec := indexVec + [pos];
        return Ok(Some(field)), indexVec;
      }
      if field.dataType.Struct? && s.searchable(field) {
        var inside;
        inside, indexVec := FetchFieldIndex(s, field.dataType.fields, indexVec);
        if inside.Err? { return Err, indexVec; }
        if inside.value.Some? {
          ghost var p := FindInside(s, field).value.value.1;
          indexVec := indexVec + [pos];
          return inside, indexVec;
        }
      }
    }
    r := Ok(None);
  }

  // ---- what a path leads to ----

  /** The path leads to a field through searchable structs only. */
  predicate Reaches(s: Search, fields: seq<Field>, p: Path)
    decreases |p|
  {
    p != [] &&
    var last := |p| - 1;
    p[last] < |fields| &&
    var f := fields[p[last]];
    last == 0 || (f.dataType.Struct? && s.searchable(f) && Reaches(s, f.dataType.fields, p[..last]))
  }

  function FieldAlong(s: Search, fields: seq<Field>, p: Path): Field
    requires Reaches(s, fields, p)
    decreases |p|
  {
    var last := |p| - 1;
    var f := fields[p[last]];
    if last == 0 then f else FieldAlong(s, f.dataType.fields, p[..last])
  }

  /** Pre-order on paths: an ancestor before what is inside it, an earlier sibling before a later one. */
  predicate NotAfter(p: Path, q: Path)
    decreases |p|
  {
    p == [] ||
    (q != [] &&
     (p[|p| - 1] < q[|q| - 1] || (p[|p| - 1] == q[|q| - 1] && NotAfter(p[..|p| - 1], q[..|q| - 1]))))
  }

  /** A path into a list of fields, at or after a position. */
  predicate PathFrom(s: Search, fields: seq<Field>, from: nat, p: Path) { Reaches(s, fields, p) && from <= p[|p| - 1] }

  predicate Matches(s: Search, fields: seq<Field>, p: Path) {
    Reaches(s, fields, p) && s.idOf(FieldAlong(s, fields, p)) == Ok(Some(s.target))
  }

  predicate BadId(s: Search, fields: seq<Field>, p: Path) {
    Reaches(s, fields, p) && s.idOf(FieldAlong(s, fields, p)).Err?
  }

  /** The search stops at a field with the id, or at one whose id cannot be fetched. */
  predicate Stops(s: Search, fields: seq<Field>, p: Path) { Matches(s, fields, p) || BadId(s, fields, p) }

  /** A match with nothing before it, in pre-order, at which the search would stop. */
  ghost predicate FirstMatch(s: Search, fields: seq<Field>, from: nat, f: Field, p: Path) {
    && PathFrom(s, fields, from, p) && Matches(s, fields, p) && FieldAlong(s, fields, p) == f
    && forall q :: PathFrom(s, fields, from, q) && Stops(s, fields, q) ==> NotAfter(p, q)
  }

  ghost predicate NoStop(s: Search, fields: seq<Field>, from: nat) {
    forall q :: PathFrom(s, fields, from, q) ==> !Stops(s, fields, q)
  }

  /** A bad id with no match before it. */
  ghost predicate BadFirst(s: Search, fields: seq<Field>, from: nat, q: Path) {
    && PathFrom(s, fields, from, q) && BadId(s, fields, q)
    && forall m :: PathFrom(s, fields, from, m) && Matches(s, fields, m) ==> !NotAfter(m, q)
  }

  ghost predicate SomeBadFirst(s: Search, fields: seq<Field>, from: nat) {
    exists q :: BadFirst(s, fields, from, q)
  }

  /** What the outcome of a search says of the fields. */
  ghost predicate Explains(s: Search, fields: seq<Field>, from: nat, r: Result<Option<(Field, Path)>>) {
    match r
    case Ok(Some((f, p))) => FirstMatch(s, fields, from, f, p)
    case Ok(None) => NoStop(s, fields, from)
    case Err => SomeBadFirst(s, fields, from)
  }

  lemma {:induction false} Inside(s: Search, fields: seq<Field>, pos: nat, p: Path)
    requires pos < |fields| && fields[pos].dataType.Struct? && s.searchable(fields[pos])
    requires Reaches(s, fields[pos].dataType.fields, p)
    ensures Reaches(s, fields, p + [pos])
    ensures FieldAlong(s, fields, p + [pos]) == FieldAlong(s, fields[pos].dataType.fields, p)
  {
    assert (p + [pos])[..|p|] == p;
  }

  /** A path through position `pos` is the field there, or continues inside it. */
  lemma {:induction false} ThroughPosition(s: Search, fields: seq<Field>, q: Path)
    requires Reaches(s, fields, q)
    ensures |q| == 1 ==> FieldAlong(s, fields, q) == fields[q[0]]
    ensures |q| > 1 ==> var f, front := fields[q[|q| - 1]], q[..|q| - 1];
                        f.dataType.Struct? && s.searchable(f) && Reaches(s, f.dataType.fields, front) &&
                        FieldAlong(s, fields, q) == FieldAlong(s, f.dataType.fields, front)
  {
  }

  /**
   The search finds the first match in pre-order with no bad id before it, or nothing when it stops nowhere; it fails
   only on a bad id with no match before it.
   */
  lemma {:induction false} FindIsFirst(s: Search, fields: seq<Field>, from: nat)
    requires from <= |fields|
    ensures Explains(s, fields, from, Find(s, fields, from))
    decreases fields, |fields| - from
  {
    hide Find, Explains;
    if from == |fields| {
      NothingLeft(s, fields);
    } else {
      var f := fields[from];
      if f.dataType.Struct? && s.searchable(f) { FindIsFirst(s, f.dataType.fields, 0); }
      FindIsFirst(s, fields, from + 1);
      FindStep(s, fields, from);
    }
  }

  lemma {:induction false} NothingLeft(s: Search, fields: seq<Field>)
    ensures Explains(s, fields, |fields|, Find(s, fields, |fields|))
  {
  }

  lemma {:induction false} FindStep(s: Search, fields: seq<Field>, from: nat)
    requires from < |fields|
    requires var f := fields[from];
             f.dataType.Struct? && s.searchable(f) ==> Explains(s, f.dataType.fields, 0, Find(s, f.dataType.fields, 0))
    requires Explains(s, fields, from + 1, Find(s, fields, from + 1))
    ensures Explains(s, fields, from, Find(s, fields, from))
  {
    hide FirstMatch, NoStop, SomeBadFirst;
    var f := fields[from];
    var id := s.idOf(f);
    if id.Err? {
      BadHere(s, fields, from);
    } else if id.value == Some(s.target) {
      FoundHere(s, fields, from);
    } else if FindInside(s, f).Err? {
      BadInside(s, fields, from);
    } else if FindInside(s, f).value.Some? {
      var (g, p) := FindInside(s, f).value.value;
      FoundInside(s, fields, from, g, p);
    } else {
      FurtherOn(s, fields, from);
    }
  }

  lemma {:induction false} BadHere(s: Search, fields: seq<Field>, from: nat)
    requires from < |fields| && s.idOf(fields[from]).Err?
    ensures SomeBadFirst(s, fields, from)
  {
    hide FieldAlong;
    var q := [from];
    assert Reaches(s, fields, q);
    ThroughPosition(s, fields, q);
    forall m | PathFrom(s, fields, from, m) && Matches(s, fields, m) ensures !NotAfter(m, q) {
      ThroughPosition(s, fields, m);
      ReachesSomething(s, fields, m);
      assert q[..0] == [];
      if |m| == 1 { assert m[0] != from; }
    }
    assert BadFirst(s, fields, from, q);
  }

  lemma {:induction false} BadInside(s: Search, fields: seq<Field>, from: nat)
    requires from < |fields| && fields[from].dataType.Struct? && s.searchable(fields[from])
    requires s.idOf(fields[from]).Ok? && s.idOf(fields[from]).value != Some(s.target)
    requires SomeBadFirst(s, fields[from].dataType.fields, 0)
    ensures SomeBadFirst(s, fields, from)
  {
    hide Reaches, FieldAlong, NotAfter;
    var inner := fields[from].dataType.fields;
    var q :| BadFirst(s, inner, 0, q);
    Inside(s, fields, from, q);
    forall m | PathFrom(s, fields, from, m) && Matches(s, fields, m) ensures !NotAfter(m, q + [from]) {
      ThroughPosition(s, fields, m);
      ReachesSomething(s, fields, m);
      if m[|m| - 1] == from {
        assert |m| > 1;
        ReachesSomething(s, inner, m[..|m| - 1]);
        assert PathFrom(s, inner, 0, m[..|m| - 1]) && Matches(s, inner, m[..|m| - 1]);
      }
      AfterUnder(m, q, from);
    }
    assert BadFirst(s, fields, from, q + [from]);
  }

  lemma {:induction false} AfterUnder(m: Path, q: Path, from: nat)
    requires m != [] && from <= m[|m| - 1] && (m[|m| - 1] == from ==> !NotAfter(m[..|m| - 1], q))
    ensures !NotAfter(m, q + [from])
  {
    assert (q + [from])[..|q|] == q;
  }

  lemma {:induction false} FoundHere(s: Search, fields: seq<Field>, from: nat)
    requires from < |fields| && s.idOf(fields[from]) == Ok(Some(s.target))
    ensures FirstMatch(s, fields, from, fields[from], [from])
  {
    assert Reaches(s, fields, [from]) && FieldAlong(s, fields, [from]) == fields[from];
    assert [from][..0] == [];
  }

  lemma {:induction false} NotAfterUnder(p: Path, q: Path, from: nat)
    requires q != [] && from <= q[|q| - 1] && (q[|q| - 1] == from ==> NotAfter(p, q[..|q| - 1]))
    ensures NotAfter(p + [from], q)
  {
    assert (p + [from])[..|p|] == p;
  }

  lemma {:induction false} FoundInside(s: Search, fields: seq<Field>, from: nat, g: Field, p: Path)
    requires from < |fields| && fields[from].dataType.Struct? && s.searchable(fields[from])
    requires s.idOf(fields[from]).Ok? && s.idOf(fields[from]).value != Some(s.target)
    requires FirstMatch(s, fields[from].dataType.fields, 0, g, p)
    ensures FirstMatch(s, fields, from, g, p + [from])
  {
    hide Reaches, FieldAlong, NotAfter;
    var inner := fields[from].dataType.fields;
    Inside(s, fields, from, p);
    forall q | PathFrom(s, fields, from, q) && Stops(s, fields, q) ensures NotAfter(p + [from], q) {
      ThroughPosition(s, fields, q);
      ReachesSomething(s, fields, q);
      if q[|q| - 1] == from {
        assert |q| > 1;
        var front := q[..|q| - 1];
        ReachesSomething(s, inner, front);
        assert PathFrom(s, inner, 0, front) && Stops(s, inner, front);
      }
      NotAfterUnder(p, q, from);
    }
  }

  /** Nothing to stop at in the position or inside it: the outcome of the search behind it stands. */
  lemma {:induction false} FurtherOn(s: Search, fields: seq<Field>, from: nat)
    requires from < |fields| && s.idOf(fields[from]).Ok? && s.idOf(fields[from]).value != Some(s.target)
    requires fields[from].dataType.Struct? && s.searchable(fields[from]) ==> NoStop(s, fields[from].dataType.fields, 0)
    requires Explains(s, fields, from + 1, Find(s, fields, from + 1))
    ensures Explains(s, fields, from, Find(s, fields, from + 1))
  {
    hide Find, Reaches, FieldAlong, NotAfter;
    forall q | PathFrom(s, fields, from, q) && Stops(s, fields, q) ensures PathFrom(s, fields, from + 1, q) {
      ThroughPosition(s, fields, q);
      ReachesSomething(s, fields, q);
      NotInPosition(s, fields, from, q);
    }
    if Find(s, fields, from + 1).Err? {
      var q :| BadFirst(s, fields, from + 1, q);
      assert BadFirst(s, fields, from, q);
    }
  }

  lemma {:induction false} NotInPosition(s: Search, fields: seq<Field>, from: nat, q: Path)
    requires from < |fields| && s.idOf(fields[from]).Ok? && s.idOf(fields[from]).value != Some(s.target)
    requires fields[from].dataType.Struct? && s.searchable(fields[from]) ==> NoStop(s, fields[from].dataType.fields, 0)
    requires Reaches(s, fields, q) && Stops(s, fields, q) && q != []
    ensures q[|q| - 1] != from
  {
    hide Reaches, FieldAlong;
    ThroughPosition(s, fields, q);
    ReachesSomething(s, fields, q);
    if |q| > 1 {
      var front := q[..|q| - 1];
      ReachesSomething(s, fields[q[|q| - 1]].dataType.fields, front);
      assert q[|q| - 1] == from ==> PathFrom(s, fields[from].dataType.fields, 0, front);
    }
  }

  /** The search fails if and only if some reachable bad id has no match before it in pre-order. */
  lemma {:induction false} FailsWhenBadFirst(s: Search, fields: seq<Field>)
    ensures Find(s, fields, 0).Err? <==> SomeBadFirst(s, fields, 0)
  {
    hide Find, Reaches, FieldAlong, NotAfter;
    FindIsFirst(s, fields, 0);
  }

  /**
   It succeeds if and only if a field with the id is reachable through searchable structs and no bad id is before it;
   a bad id behind the match does no harm.
   */
  lemma {:induction false} FoundWhenReachable(s: Search, fields: seq<Field>)
    ensures Find(s, fields, 0).Ok? && Find(s, fields, 0).value.Some? <==>
            exists m :: Matches(s, fields, m) && forall q :: BadId(s, fields, q) ==> NotAfter(m, q)
  {
    hide Find, Reaches, FieldAlong, NotAfter;
    FindIsFirst(s, fields, 0);
    forall q | Stops(s, fields, q) ensures PathFrom(s, fields, 0, q) {
      ReachesSomething(s, fields, q);
    }
    if Find(s, fields, 0).Ok? && Find(s, fields, 0).value.Some? {
      var (f, p) := Find(s, fields, 0).value.value;
      forall q | BadId(s, fields, q) ensures NotAfter(p, q) { assert Stops(s, fields, q); }
      assert Matches(s, fields, p);
    } else {
      forall m | Matches(s, fields, m) ensures exists q :: BadId(s, fields, q) && !NotAfter(m, q) {
        assert Stops(s, fields, m) && PathFrom(s, fields, 0, m);
        var q :| BadFirst(s, fields, 0, q);
      }
    }
  }

  lemma {:induction false} ReachesSomething(s: Search, fields: seq<Field>, q: Path)
    requires Reaches(s, fields, q)
    ensures q != [] && q[|q| - 1] < |fields|
  {
  }

  // ---- following the path through the columns ----

  /** A column with its null mask, which is absent when nothing is null; a struct also has child columns. */
  datatype Arr =
    | Plain(values: seq<string>, nulls: Option<seq<bool>>)
    | StructArray(children: seq<Arr>, nulls: Option<seq<bool>>)

  predicate Sized(a: Arr, rows: nat) {
    (a.nulls.Some? ==> |a.nulls.value| == rows) &&
    (a.StructArray? ==> forall i :: 0 <= i < |a.children| ==> Sized(a.children[i], rows))
  }

  predicate AllSized(batch: seq<Arr>, rows: nat) { forall i :: 0 <= i < |batch| ==> Sized(batch[i], rows) }

  predicate NullAt(nulls: Option<seq<bool>>, row: nat)
    requires nulls.Some? ==> row < |nulls.value|
  {
    nulls.Some? && nulls.value[row]
  }

  /** `NullBuffer::union`: null where either is. */
  function Union(a: Option<seq<bool>>, b: Option<seq<bool>>): (r: Option<seq<bool>>)
    requires a.Some? && b.Some? ==> |a.value| == |b.value|
    ensures r.Some? <==> a.Some? || b.Some?
    ensures a.Some? ==> |r.value| == |a.value|
    ensures b.Some? ==> |r.value| == |b.value|
    ensures r.Some? ==> forall row :: 0 <= row < |r.value| ==> (r.value[row] <==> NullAt(a, row) || NullAt(b, row))
  {
    match (a, b)
    case (Some(x), Some(y)) => Some(seq(|x|, i requires 0 <= i < |x| => x[i] || y[i]))
    case (Some(_), None) => a
    case (None, _) => b
  }

  /** Every index of a path is one of a column that is there. */
  predicate InBounds(batch: seq<Arr>, p: Path)
    decreases |p|
  {
    p != [] &&
    var last := |p| - 1;
    p[last] < |batch| &&
    (last == 0 || (batch[p[last]].StructArray? ==> InBounds(batch[p[last]].children, p[..last])))
  }

  /** The column a path leads to; a column in between that is not a struct is an error. */
  function ArrayAlong(batch: seq<Arr>, p: Path): Result<Arr>
    requires InBounds(batch, p)
    decreases |p|
  {
    var last := |p| - 1;
    var a := batch[p[last]];
    if last == 0 then Ok(a) else if a.StructArray? then ArrayAlong(a.children, p[..last]) else Err
  }

  /** The column itself, or a struct around it, is null in a row. */
  predicate NullAlong(batch: seq<Arr>, p: Path, rows: nat, row: nat)
    requires InBounds(batch, p) && AllSized(batch, rows) && row < rows
    decreases |p|
  {
    var last := |p| - 1;
    var a := batch[p[last]];
    NullAt(a.nulls, row) || (last > 0 && a.StructArray? && NullAlong(a.children, p[..last], rows, row))
  }

  /**
   `get_column_by_field_index`: the column at the end of the path with only its null mask replaced, a row being null
   exactly when it or any struct on the way is null there.
   */
  method GetColumnByFieldIndex(batch: seq<Arr>, p: Path, rows: nat) returns (r: Result<Arr>)
    requires InBounds(batch, p) && AllSized(batch, rows)
    ensures r.Ok? <==> ArrayAlong(batch, p).Ok?
    ensures r.Ok? ==> r.value == ArrayAlong(batch, p).value.(nulls := r.value.nulls)
    ensures r.Ok? ==> (r.value.nulls.Some? ==> |r.value.nulls.value| == rows) &&
                      forall row :: 0 <= row < rows ==> (NullAt(r.value.nulls, row) <==> NullAlong(batch, p, rows, row))
  {
    var i := |p| - 1;
    var column := batch[p[i]];
    var nulls := column.nulls;
    ghost var around := batch;
    assert p[..i + 1] == p;
    while i > 0
      invariant 0 <= i < |p|
      invariant InBounds(around, p[..i + 1]) && AllSized(around, rows) && column == around[p[i]]
      invariant ArrayAlong(batch, p) == ArrayAlong(around, p[..i + 1])
      invariant nulls.Some? ==> |nulls.value| == rows
      invariant forall row :: 0 <= row < rows ==>
                  (NullAlong(batch, p, rows, row) <==> NullAt(nulls, row) || NullAlong(around, p[..i + 1], rows, row))
      invariant forall row :: 0 <= row < rows && NullAt(column.nulls, row) ==> NullAt(nulls, row)
    {
      assert p[..i + 1][..i] == p[..i];
      if column.Plain? { return Err; }
      around := column.children;
      i := i - 1;
      column := column.children[p[i]];
      assert Sized(column, rows);
      nulls := Union(nulls, column.nulls);
    }
    r := Ok(column.(nulls := nulls));
  }

  // ---- together ----

  /** Columns of a schema: a struct field has a struct column of its fields. */
  predicate Conforms(fields: seq<Field>, batch: seq<Arr>)
    decreases fields
  {
    |fields| == |batch| &&
    forall i :: 0 <= i < |fields| && fields[i].dataType.Struct? ==>
      batch[i].StructArray? && Conforms(fields[i].dataType.fields, batch[i].children)
  }

  /** A path the search found can be followed through any columns of the schema it was found in. */
  lemma {:induction false} FoundIsFollowed(s: Search, fields: seq<Field>, batch: seq<Arr>, p: Path)
    requires Reaches(s, fields, p) && Conforms(fields, batch)
    ensures InBounds(batch, p) && ArrayAlong(batch, p).Ok?
    decreases |p|
  {
    var last := |p| - 1;
    if last > 0 {
      FoundIsFollowed(s, fields[p[last]].dataType.fields, batch[p[last]].children, p[..last]);
    }
  }

  /** `RecordBatchProjector::new`: a path for each id, or an error if some id cannot be found. */
  method NewProjector(s: int -> Search, fields: seq<Field>, ids: seq<int>) returns (r: Result<(seq<Path>, seq<Field>)>)
    ensures r.Ok? <==> forall i :: 0 <= i < |ids| ==>
                                     Find(s(ids[i]), fields, 0).Ok? && Find(s(ids[i]), fields, 0).value.Some?
    ensures r.Ok? ==> |r.value.0| == |r.value.1| == |ids| &&
                      forall i :: 0 <= i < |ids| ==>
                                    Find(s(ids[i]), fields, 0) == Ok(Some((r.value.1[i], r.value.0[i])))
  {
    hide Find;
    var paths: seq<Path>, found: seq<Field> := [], [];
    for i := 0 to |ids|
      invariant |paths| == |found| == i
      invariant forall j :: 0 <= j < i ==> Find(s(ids[j]), fields, 0) == Ok(Some((found[j], paths[j])))
    {
      var field, path := FetchFieldIndex(s(ids[i]), fields, []);
      if field.Err? || field.value.None? { return Err; }
      ghost var (f, p) := Find(s(ids[i]), fields, 0).value.value;
      assert path == [] + p == p;
      assert field.value.value == f;
      assert Find(s(ids[i]), fields, 0) == Ok(Some((field.value.value, path)));
      paths, found := paths + [path], found + [field.value.value];
    }
    r := Ok((paths, found));
  }
}
