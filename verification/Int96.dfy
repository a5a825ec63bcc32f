/**
 Reading INT96 timestamps: the file reader's schema says nanoseconds, and a stack visitor rewrites it to the
 resolution of the table schema.
 */
module Int96 {
  import opened Prelude
  import opened Decimals
  import opened ArrowTypes
  import I = IcebergTypes

  /** `Schema::field_by_id`: fields at every depth, by id. */
  type TableFields = map<i32, I.NestedField>

  datatype ArrowSchema = ArrowSchema(fields: seq<Field>, metadata: map<string, string>)

  predicate IsNanoseconds(d: DataType) { d.Leaf? && d.leaf.Timestamp? && d.leaf.unit == Nanosecond }

  /** The table says, through the id in the field's metadata, that nanoseconds are meant. */
  predicate KeepsNanoseconds(f: Field, table: TableFields) {
    match FieldIdOf(f)
    case None => false
    case Some(id) => id in table && table[id].fieldType in {I.Primitive(I.TimestampNs), I.Primitive(I.TimestamptzNs)}
  }

  function UnitOf(t: I.Type): Option<TimeUnit> {
    match t
    case Primitive(Timestamp) => Some(Microsecond)
    case Primitive(Timestamptz) => Some(Microsecond)
    case Primitive(TimestampNs) => Some(Nanosecond)
    case Primitive(TimestamptzNs) => Some(Nanosecond)
    case _ => None
  }

  /** `target_unit`: a chain of options, microseconds where it breaks off. */
  function TargetUnit(f: Field, table: TableFields): (r: Option<TimeUnit>)
    ensures r == if IsNanoseconds(f.dataType) && !KeepsNanoseconds(f, table) then Some(Microsecond) else None
    ensures r == None <==>
            || !f.dataType.Leaf? || !f.dataType.leaf.Timestamp? || f.dataType.leaf.unit != Nanosecond
            || (FieldIdOf(f).Some? && FieldIdOf(f).value in table &&
                (table[FieldIdOf(f).value].fieldType == I.Primitive(I.TimestampNs) ||
                 table[FieldIdOf(f).value].fieldType == I.Primitive(I.TimestamptzNs)))
  {
    if !IsNanoseconds(f.dataType) then None
    else
      var unit := match FieldIdOf(f)
        case None => None
        case Some(id) => if id in table then UnitOf(table[id].fieldType) else None;
      var target := if unit.Some? then unit.value else Microsecond;
      if target == Nanosecond then None else Some(target)
  }

  // ---- the intended map ----

  /** Every nanosecond timestamp the table does not keep becomes microseconds; nothing else changes. */
  function CoerceField(f: Field, table: TableFields): Field
    decreases f
  {
    match f.dataType
    case Leaf(l) =>
      if IsNanoseconds(f.dataType) && !KeepsNanoseconds(f, table)
      then f.(dataType := Leaf(Timestamp(Microsecond, l.zone)))
      else f
    case List(e) => f.(dataType := List(CoerceField(e, table)))
    case LargeList(e) => f.(dataType := LargeList(CoerceField(e, table)))
    case FixedSizeList(e, size) => f.(dataType := FixedSizeList(CoerceField(e, table), size))
    case Struct(fields) => f.(dataType := Struct(CoerceFields(fields, table)))
    case Map(entry, sorted) => f.(dataType := Map(CoerceField(entry, table), sorted))
    case _ => f
  }

  function CoerceFields(fs: seq<Field>, table: TableFields): (r: seq<Field>)
    ensures |r| == |fs|
    decreases fs
  {
    if fs == [] then [] else CoerceFields(fs[..|fs| - 1], table) + [CoerceField(fs[|fs| - 1], table)]
  }

  // ---- what the visitor computes ----

  /** The visit of a type with `f` on top of the stack. */
  function Visit(d: DataType, f: Field, table: TableFields): Result<Field>
    decreases d
  {
    match d
    case Leaf(_) =>
      var unit := TargetUnit(f, table);
      Ok(f.(dataType := if unit.Some? then Leaf(Timestamp(unit.value, f.dataType.leaf.zone)) else d))
    case List(e) =>
      var v :- Visit(e.dataType, e, table);
      Ok(f.(dataType := List(v)))
    case LargeList(e) =>
      var v :- Visit(e.dataType, e, table);
      Ok(f.(dataType := LargeList(v)))
    case FixedSizeList(e, size) =>
      var v :- Visit(e.dataType, e, table);
      Ok(f.(dataType := FixedSizeList(v, size)))
    case Struct(fields) =>
      var vs :- VisitFields(fields, table);
      Ok(f.(dataType := Struct(vs)))
    case Map(entry, sorted) =>
      (match entry.dataType
       case Struct(fields) =>
         if |fields| != 2 then Err
         else
           var vs :- VisitFields(fields, table);
           Ok(f.(dataType := Map(Field(MAP_ENTRY_NAME, Struct(vs), false, map[]), sorted)))
       case _ => Err)
    case Dictionary(_, value) => Visit(value, f, table)
    case _ => Err
  }

  function VisitFields(fs: seq<Field>, table: TableFields): (r: Result<seq<Field>>)
    ensures r.Ok? ==> |r.value| == |fs|
    decreases fs
  {
    if fs == [] then Ok([])
    else
      var front :- VisitFields(fs[..|fs| - 1], table);
      var last :- Visit(fs[|fs| - 1].dataType, fs[|fs| - 1], table);
      Ok(front + [last])
  }

  /** Whether the visit sets `changed`. */
  predicate Changes(d: DataType, f: Field, table: TableFields)
    decreases d
  {
    match d
    case Leaf(_) => TargetUnit(f, table).Some?
    case List(e) => Changes(e.dataType, e, table)
    case LargeList(e) => Changes(e.dataType, e, table)
    case FixedSizeList(e, _) => Changes(e.dataType, e, table)
    case Struct(fields) => AnyChanges(fields, table)
    case Map(entry, _) => entry.dataType.Struct? && AnyChanges(entry.dataType.fields, table)
    case Dictionary(_, value) => Changes(value, f, table)
    case _ => false
  }

  predicate AnyChanges(fs: seq<Field>, table: TableFields)
    decreases fs
  {
    fs != [] && (AnyChanges(fs[..|fs| - 1], table) || Changes(fs[|fs| - 1].dataType, fs[|fs| - 1], table))
  }

  // ---- which types the visitor gets through ----

  /** No null and no run-end-encoded type is visited, and every visited map has an entry of two fields. */
  predicate Visitable(d: DataType)
    decreases d
  {
    match d
    case Leaf(_) => true
    case List(e) => Visitable(e.dataType)
    case LargeList(e) => Visitable(e.dataType)
    case FixedSizeList(e, _) => Visitable(e.dataType)
    case Struct(fields) => AllVisitable(fields)
    case Map(entry, _) =>
      (match entry.dataType
       case Struct(fields) => |fields| == 2 && AllVisitable(fields)
       case _ => false)
    case Dictionary(_, value) => Visitable(value)
    case _ => false
  }

  predicate AllVisitable(fs: seq<Field>)
    decreases fs
  {
    fs == [] || (AllVisitable(fs[..|fs| - 1]) && Visitable(fs[|fs| - 1].dataType))
  }

  /** The visit of a type succeeds exactly when the type is visitable, whatever the table. */
  lemma {:induction false} VisitSucceeds(d: DataType, f: Field, table: TableFields)
    ensures Visit(d, f, table).Ok? <==> Visitable(d)
    decreases d
  {
    hide VisitFields, AllVisitable, TargetUnit;
    match d
    case List(e) => VisitSucceeds(e.dataType, e, table);
    case LargeList(e) => VisitSucceeds(e.dataType, e, table);
    case FixedSizeList(e, _) => VisitSucceeds(e.dataType, e, table);
    case Struct(fields) => FieldsVisitSucceeds(fields, table);
    case Map(entry, _) => if entry.dataType.Struct? { FieldsVisitSucceeds(entry.dataType.fields, table); }
    case Dictionary(_, value) => VisitSucceeds(value, f, table);
    case _ =>
  }

  lemma {:induction false} FieldsVisitSucceeds(fs: seq<Field>, table: TableFields)
    ensures VisitFields(fs, table).Ok? <==> AllVisitable(fs)
    decreases fs
  {
    hide Visit, Visitable;
    if fs != [] {
      FieldsVisitSucceeds(fs[..|fs| - 1], table);
      VisitSucceeds(fs[|fs| - 1].dataType, fs[|fs| - 1], table);
    }
  }

  // ---- when the two agree ----

  /** No dictionary column, and every map entry as the visitor rebuilds it: "key_value", not null, without metadata. */
  predicate Standard(d: DataType)
    decreases d
  {
    match d
    case List(e) => Standard(e.dataType)
    case LargeList(e) => Standard(e.dataType)
    case FixedSizeList(e, _) => Standard(e.dataType)
    case Struct(fields) => AllStandard(fields)
    case Map(entry, _) =>
      && entry.name == MAP_ENTRY_NAME && !entry.nullable && entry.metadata == map[]
      && Standard(entry.dataType)
    case Dictionary(_, _) => false
    case _ => true
  }

  predicate AllStandard(fs: seq<Field>)
    decreases fs
  {
    fs == [] || (AllStandard(fs[..|fs| - 1]) && Standard(fs[|fs| - 1].dataType))
  }

  lemma {:induction false} VisitIsNotDictionary(d: DataType, f: Field, table: TableFields)
    requires Visit(d, f, table).Ok?
    ensures Visit(d, f, table).value == f.(dataType := Visit(d, f, table).value.dataType)
    ensures !Visit(d, f, table).value.dataType.Dictionary?
    decreases d
  {
    hide VisitFields, TargetUnit;
    match d
    case Dictionary(_, value) => VisitIsNotDictionary(value, f, table);
    case _ =>
  }

  /** A field comes out of the visit as intended exactly when it is visitable and standard. */
  lemma {:induction false} VisitIsCoercion(f: Field, table: TableFields)
    ensures Visit(f.dataType, f, table) == Ok(CoerceField(f, table)) <==> Visitable(f.dataType) && Standard(f.dataType)
    decreases f
  {
    hide Visitable, VisitFields, CoerceFields, AllStandard, KeepsNanoseconds;
    VisitSucceeds(f.dataType, f, table);
    if Visitable(f.dataType) {
      match f.dataType
      case Leaf(_) =>
      case List(e) => VisitIsCoercion(e, table); VisitSucceeds(e.dataType, e, table);
      case LargeList(e) => VisitIsCoercion(e, table); VisitSucceeds(e.dataType, e, table);
      case FixedSizeList(e, _) => VisitIsCoercion(e, table); VisitSucceeds(e.dataType, e, table);
      case Struct(fields) => FieldsVisitIsCoercion(fields, table); FieldsVisitSucceeds(fields, table);
      case Map(entry, sorted) => MapVisitIsCoercion(f, entry, sorted, table);
      case Dictionary(_, value) => VisitIsNotDictionary(value, f, table);
      case _ =>
    }
  }

  lemma {:induction false} MapVisitIsCoercion(f: Field, entry: Field, sorted: bool, table: TableFields)
    requires f.dataType == Map(entry, sorted) && Visit(f.dataType, f, table).Ok?
    ensures Visit(f.dataType, f, table) == Ok(CoerceField(f, table)) <==> Standard(f.dataType)
    decreases entry
  {
    hide VisitFields, CoerceFields, AllStandard, AllVisitable, KeepsNanoseconds;
    var fields := entry.dataType.fields;
    FieldsVisitIsCoercion(fields, table);
    FieldsVisitSucceeds(fields, table);
    assert CoerceField(entry, table) == entry.(dataType := Struct(CoerceFields(fields, table)));
  }

  lemma {:induction false} FieldsVisitIsCoercion(fs: seq<Field>, table: TableFields)
    ensures VisitFields(fs, table) == Ok(CoerceFields(fs, table)) <==> AllVisitable(fs) && AllStandard(fs)
    decreases fs
  {
    hide Visit, CoerceField, Visitable, Standard;
    FieldsVisitSucceeds(fs, table);
    if fs != [] && AllVisitable(fs) {
      var n := |fs| - 1;
      FieldsVisitIsCoercion(fs[..n], table);
      VisitIsCoercion(fs[n], table);
      var visited, coerced := VisitFields(fs, table).value, CoerceFields(fs, table);
      assert visited[..n] == VisitFields(fs[..n], table).value && coerced[..n] == CoerceFields(fs[..n], table);
    }
  }

  // ---- the flag ----

  /** Some nanosecond timestamp outside dictionaries is not kept by the table. */
  predicate Needs(f: Field, table: TableFields)
    decreases f
  {
    match f.dataType
    case Leaf(_) => IsNanoseconds(f.dataType) && !KeepsNanoseconds(f, table)
    case List(e) => Needs(e, table)
    case LargeList(e) => Needs(e, table)
    case FixedSizeList(e, _) => Needs(e, table)
    case Struct(fields) => AnyNeeds(fields, table)
    case Map(entry, _) => Needs(entry, table)
    case _ => false
  }

  predicate AnyNeeds(fs: seq<Field>, table: TableFields)
    decreases fs
  {
    fs != [] && (AnyNeeds(fs[..|fs| - 1], table) || Needs(fs[|fs| - 1], table))
  }

  /** The intended map changes a field exactly when the field needs it. */
  lemma {:induction false} NeedsWhenDifferent(f: Field, table: TableFields)
    ensures Needs(f, table) <==> CoerceField(f, table) != f
    decreases f
  {
    hide CoerceFields, AnyNeeds, KeepsNanoseconds;
    match f.dataType
    case List(e) => NeedsWhenDifferent(e, table);
    case LargeList(e) => NeedsWhenDifferent(e, table);
    case FixedSizeList(e, _) => NeedsWhenDifferent(e, table);
    case Struct(fields) => AnyNeedsWhenDifferent(fields, table);
    case Map(entry, _) => NeedsWhenDifferent(entry, table);
    case _ =>
  }

  lemma {:induction false} AnyNeedsWhenDifferent(fs: seq<Field>, table: TableFields)
    ensures AnyNeeds(fs, table) <==> CoerceFields(fs, table) != fs
    decreases fs
  {
    hide CoerceField, Needs;
    if fs != [] {
      var n := |fs| - 1;
      AnyNeedsWhenDifferent(fs[..n], table);
      NeedsWhenDifferent(fs[n], table);
      var coerced := CoerceFields(fs, table);
      assert coerced[..n] == CoerceFields(fs[..n], table);
    }
  }

  /** On a visitable field the flag is set whenever it is needed, and on a standard one only then. */
  lemma {:induction false} ChangesWhenNeeded(f: Field, table: TableFields)
    requires Visitable(f.dataType)
    ensures Needs(f, table) ==> Changes(f.dataType, f, table)
    ensures Standard(f.dataType) ==> (Changes(f.dataType, f, table) <==> Needs(f, table))
    decreases f
  {
    hide AnyNeeds, AllStandard, AllVisitable, AnyChanges, KeepsNanoseconds;
    match f.dataType
    case List(e) => ChangesWhenNeeded(e, table);
    case LargeList(e) => ChangesWhenNeeded(e, table);
    case FixedSizeList(e, _) => ChangesWhenNeeded(e, table);
    case Struct(fields) => AnyChangesWhenNeeded(fields, table);
    case Map(entry, _) =>
      AnyChangesWhenNeeded(entry.dataType.fields, table);
      assert Needs(entry, table) == AnyNeeds(entry.dataType.fields, table);
      assert Standard(entry.dataType) == AllStandard(entry.dataType.fields);
    case _ =>
  }

  lemma {:induction false} AnyChangesWhenNeeded(fs: seq<Field>, table: TableFields)
    requires AllVisitable(fs)
    ensures AnyNeeds(fs, table) ==> AnyChanges(fs, table)
    ensures AllStandard(fs) ==> (AnyChanges(fs, table) <==> AnyNeeds(fs, table))
    decreases fs
  {
    hide Visitable, Standard, Changes, Needs;
    if fs != [] {
      AnyChangesWhenNeeded(fs[..|fs| - 1], table);
      ChangesWhenNeeded(fs[|fs| - 1], table);
    }
  }

  /** Coercing twice is coercing once. */
  lemma {:induction false} CoerceIdempotent(f: Field, table: TableFields)
    ensures CoerceField(CoerceField(f, table), table) == CoerceField(f, table)
    decreases f
  {
    hide CoerceFields, KeepsNanoseconds;
    match f.dataType
    case List(e) => CoerceIdempotent(e, table);
    case LargeList(e) => CoerceIdempotent(e, table);
    case FixedSizeList(e, _) => CoerceIdempotent(e, table);
    case Struct(fields) => CoerceFieldsIdempotent(fields, table);
    case Map(entry, _) => CoerceIdempotent(entry, table);
    case _ =>
  }

  lemma {:induction false} CoerceFieldsIdempotent(fs: seq<Field>, table: TableFields)
    ensures CoerceFields(CoerceFields(fs, table), table) == CoerceFields(fs, table)
    decreases fs
  {
    hide CoerceField;
    if fs != [] {
      var n := |fs| - 1;
      CoerceFieldsIdempotent(fs[..n], table);
      CoerceIdempotent(fs[n], table);
      assert CoerceFields(fs, table)[..n] == CoerceFields(fs[..n], table);
    }
  }

  // ---- the coercion touches nothing but the unit of timestamps ----

  /** A type with the unit of every timestamp outside dictionaries wiped out. */
  function Blurred(d: DataType): DataType
    decreases d
  {
    match d
    case Leaf(Timestamp(_, zone)) => Leaf(Timestamp(Second, zone))
    case List(e) => List(BlurredField(e))
    case LargeList(e) => LargeList(BlurredField(e))
    case FixedSizeList(e, size) => FixedSizeList(BlurredField(e), size)
    case Struct(fields) => Struct(BlurredFields(fields))
    case Map(entry, sorted) => Map(BlurredField(entry), sorted)
    case _ => d
  }

  function BlurredField(f: Field): Field
    decreases f
  {
    f.(dataType := Blurred(f.dataType))
  }

  function BlurredFields(fs: seq<Field>): (r: seq<Field>)
    ensures |r| == |fs|
    decreases fs
  {
    if fs == [] then [] else BlurredFields(fs[..|fs| - 1]) + [BlurredField(fs[|fs| - 1])]
  }

  lemma {:induction false} NothingLeftToCoerce(f: Field, table: TableFields)
    ensures !Needs(CoerceField(f, table), table)
  {
    hide CoerceField, Needs;
    CoerceIdempotent(f, table);
    NeedsWhenDifferent(CoerceField(f, table), table);
  }

  /** Names, zones, nullability, metadata and nesting stay. */
  lemma {:induction false} OnlyUnitsChange(f: Field, table: TableFields)
    ensures BlurredField(CoerceField(f, table)) == BlurredField(f)
    ensures f.dataType.Leaf? && Needs(f, table) ==>
              CoerceField(f, table).dataType == Leaf(Timestamp(Microsecond, f.dataType.leaf.zone))
    decreases f
  {
    hide CoerceFields, BlurredFields, KeepsNanoseconds, AnyNeeds;
    match f.dataType
    case List(e) => OnlyUnitsChange(e, table);
    case LargeList(e) => OnlyUnitsChange(e, table);
    case FixedSizeList(e, _) => OnlyUnitsChange(e, table);
    case Struct(fields) => OnlyUnitsChangeIn(fields, table);
    case Map(entry, _) => OnlyUnitsChange(entry, table);
    case _ =>
  }

  lemma {:induction false} OnlyUnitsChangeIn(fs: seq<Field>, table: TableFields)
    ensures BlurredFields(CoerceFields(fs, table)) == BlurredFields(fs)
    decreases fs
  {
    hide CoerceField, BlurredField;
    if fs != [] {
      var n := |fs| - 1;
      OnlyUnitsChangeIn(fs[..n], table);
      OnlyUnitsChange(fs[n], table);
      assert CoerceFields(fs, table)[..n] == CoerceFields(fs[..n], table);
    }
  }

  // ---- the visitor ----

  lemma {:induction false} VisitFieldsStep(fs: seq<Field>, table: TableFields, i: nat)
    requires i < |fs| && VisitFields(fs[..i], table).Ok?
    ensures VisitFields(fs[..i + 1], table) ==
            match Visit(fs[i].dataType, fs[i], table)
            case Err => Err
            case Ok(last) => Ok(VisitFields(fs[..i], table).value + [last])
    ensures VisitFields(fs[..i + 1], table).Err? ==> VisitFields(fs, table).Err?
    ensures AnyChanges(fs[..i + 1], table) <==> AnyChanges(fs[..i], table) || Changes(fs[i].dataType, fs[i], table)
  {
    hide Visit, Changes;
    assert fs[..i + 1][..i] == fs[..i];
    FieldsFailEarly(fs, table, i + 1);
  }

  lemma {:induction false} FieldsFailEarly(fs: seq<Field>, table: TableFields, i: nat)
    requires i <= |fs|
    ensures VisitFields(fs[..i], table).Err? ==> VisitFields(fs, table).Err?
    decreases |fs|
  {
    hide Visit;
    if i == |fs| {
      assert fs[..i] == fs;
    } else {
      assert fs[..|fs| - 1][..i] == fs[..i];
      FieldsFailEarly(fs[..|fs| - 1], table, i);
    }
  }

  class Int96CoercionVisitor {
    const table: TableFields
    var fieldStack: seq<Field>
    var changed: bool

    constructor (table: TableFields)
      ensures this.table == table && fieldStack == [] && !changed
    {
      this.table := table;
      fieldStack := [];
      changed := false;
    }

    method Primitive(p: DataType) returns (r: Result<Field>)
      requires p.Leaf? && fieldStack != []
      modifies this`changed
      ensures r == Visit(p, fieldStack[|fieldStack| - 1], table)
      ensures changed == (old(changed) || Changes(p, fieldStack[|fieldStack| - 1], table))
    {
      var info := fieldStack[|fieldStack| - 1];
      var unit := TargetUnit(info, table);
      if unit.Some? {
        changed := true;
        r := Ok(info.(dataType := Leaf(Timestamp(unit.value, info.dataType.leaf.zone))));
      } else {
        r := Ok(info.(dataType := p));
      }
    }

    /** One child: pushed, visited, popped. */
    method VisitChild(f: Field) returns (r: Result<Field>)
      modifies this
      ensures r == Visit(f.dataType, f, table)
      ensures r.Ok? ==> fieldStack == old(fieldStack) && changed == (old(changed) || Changes(f.dataType, f, table))
      decreases f
    {
      hide Visit, Changes;
      fieldStack := fieldStack + [f];
      r := VisitType(f.dataType);
      if r.Ok? {
        fieldStack := fieldStack[..|fieldStack| - 1];
      }
    }

    method VisitChildren(fields: seq<Field>) returns (r: Result<seq<Field>>)
      modifies this
      ensures r == VisitFields(fields, table)
      ensures r.Ok? ==> fieldStack == old(fieldStack) && changed == (old(changed) || AnyChanges(fields, table))
      decreases fields
    {
      hide Visit, Changes;
      var results: seq<Field> := [];
      for i := 0 to |fields|
        invariant VisitFields(fields[..i], table) == Ok(results)
        invariant fieldStack == old(fieldStack)
        invariant changed == (old(changed) || AnyChanges(fields[..i], table))
      {
        VisitFieldsStep(fields, table, i);
        var result := VisitChild(fields[i]);
        if result.Err? { return Err; }
        results := results + [result.value];
      }
      assert fields[..|fields|] == fields;
      r := Ok(results);
    }

    /**
     `visit_type` with this visitor. With a field on the stack it never underflows; a visit that succeeds leaves the
     stack as it was and tells in the flag whether it changed anything.
     */
    method VisitType(d: DataType) returns (r: Result<Field>)
      requires fieldStack != []
      modifies this
      ensures r == Visit(d, old(fieldStack[|fieldStack| - 1]), table)
      ensures r.Ok? ==>
                && fieldStack == old(fieldStack)
                && changed == (old(changed) || Changes(d, old(fieldStack[|fieldStack| - 1]), table))
      decreases d, 0
    {
      hide VisitFields, AnyChanges, TargetUnit;
      match d
      case Leaf(_) => r := Primitive(d);
      case List(e) =>
        var v := VisitChild(e);
        if v.Err? { return Err; }
        r := Ok(fieldStack[|fieldStack| - 1].(dataType := List(v.value)));
      case LargeList(e) =>
        var v := VisitChild(e);
        if v.Err? { return Err; }
        r := Ok(fieldStack[|fieldStack| - 1].(dataType := LargeList(v.value)));
      case FixedSizeList(e, size) =>
        var v := VisitChild(e);
        if v.Err? { return Err; }
        r := Ok(fieldStack[|fieldStack| - 1].(dataType := FixedSizeList(v.value, size)));
      case Struct(fields) =>
        var vs := VisitChildren(fields);
        if vs.Err? { return Err; }
        r := Ok(fieldStack[|fieldStack| - 1].(dataType := Struct(vs.value)));
      case Map(entry, sorted) =>
        if !entry.dataType.Struct? || |entry.dataType.fields| != 2 { return Err; }
        var vs := VisitChildren(entry.dataType.fields);
        if vs.Err? { return Err; }
        var entry := Field(MAP_ENTRY_NAME, Struct(vs.value), false, map[]);
        r := Ok(fieldStack[|fieldStack| - 1].(dataType := Map(entry, sorted)));
      case Dictionary(_, value) => r := VisitType(value);
      case _ => r := Err;
    }
  }

  /** `coerce_int96_timestamps`: a new schema only if the whole schema is visitable and some timestamp was changed. */
  method CoerceInt96Timestamps(schema: ArrowSchema, table: TableFields) returns (r: Option<ArrowSchema>)
    ensures r.Some? <==> AllVisitable(schema.fields) && AnyChanges(schema.fields, table)
    ensures r.Some? ==> Ok(r.value.fields) == VisitFields(schema.fields, table) && r.value.metadata == schema.metadata
    ensures (if r.Some? then r.value.fields else schema.fields) == UsedFields(schema.fields, table)
  {
    hide AllVisitable, AnyChanges, VisitFields;
    FieldsVisitSucceeds(schema.fields, table);
    var visitor := new Int96CoercionVisitor(table);
    var fields := visitor.VisitChildren(schema.fields);
    if fields.Err? || !visitor.changed { return None; }
    r := Some(ArrowSchema(fields.value, schema.metadata));
  }

  /** The fields the reader goes on with: the visited ones if they are returned, else those of the file. */
  function UsedFields(fs: seq<Field>, table: TableFields): seq<Field> {
    var visited := VisitFields(fs, table);
    if visited.Ok? && AnyChanges(fs, table) then visited.value else fs
  }

  /**
   The reader goes on with the intended fields exactly when a schema that is replaced is standard, and one that is
   not replaced needed nothing. One column the visitor cannot visit keeps every nanosecond timestamp of the file.
   */
  lemma {:induction false} CoercedSchema(fs: seq<Field>, table: TableFields)
    ensures UsedFields(fs, table) == CoerceFields(fs, table) <==>
            if AllVisitable(fs) && AnyChanges(fs, table) then AllStandard(fs) else !AnyNeeds(fs, table)
  {
    hide VisitFields, AllVisitable, AllStandard, AnyChanges, AnyNeeds, CoerceFields;
    FieldsVisitSucceeds(fs, table);
    FieldsVisitIsCoercion(fs, table);
    AnyNeedsWhenDifferent(fs, table);
  }

  /** A visitable schema can only go wrong by being changed without being standard; a standard one never does. */
  lemma {:induction false} VisitableSchema(fs: seq<Field>, table: TableFields)
    requires AllVisitable(fs)
    ensures UsedFields(fs, table) == CoerceFields(fs, table) <==> (AnyChanges(fs, table) ==> AllStandard(fs))
  {
    hide AllVisitable, AllStandard, AnyChanges, AnyNeeds, CoerceFields, UsedFields;
    CoercedSchema(fs, table);
    AnyChangesWhenNeeded(fs, table);
  }

  /** A nanosecond timestamp without an id: needed, visited and changed, in both maps, to microseconds. */
  lemma {:induction false} PlainTimestamp(t: Field, table: TableFields)
    requires t.dataType == Leaf(Timestamp(Nanosecond, None)) && t.metadata == map[]
    ensures Visitable(t.dataType) && Standard(t.dataType) && Needs(t, table) && Changes(t.dataType, t, table)
    ensures Visit(t.dataType, t, table) == Ok(t.(dataType := Leaf(Timestamp(Microsecond, None))))
    ensures CoerceField(t, table) != t
  {
    NeedsWhenDifferent(t, table);
  }

  /** A dictionary of strings: visited and replaced by its value type, but neither needed nor changed. */
  lemma {:induction false} PlainDictionary(d: Field, table: TableFields)
    requires d.dataType == Dictionary(Leaf(Int32), Leaf(Utf8))
    ensures Visitable(d.dataType) && !Standard(d.dataType) && !Needs(d, table) && !Changes(d.dataType, d, table)
    ensures Visit(d.dataType, d, table) == Ok(d.(dataType := Leaf(Utf8)))
    ensures CoerceField(d, table) == d
  {
    assert TargetUnit(d, table) == None;
    assert Visit(Leaf(Utf8), d, table) == Ok(d.(dataType := Leaf(Utf8)));
  }

  /** A column of nulls beside a timestamp: the schema is standard, and the timestamp keeps its nanoseconds. */
  lemma {:induction false} NullColumnStopsCoercion()
    ensures var fs := [Field("n", Null, true, map[]), Field("t", Leaf(Timestamp(Nanosecond, None)), true, map[])];
            && AllStandard(fs) && !AllVisitable(fs) && AnyNeeds(fs, map[])
            && UsedFields(fs, map[]) == fs && CoerceFields(fs, map[]) != fs
  {
    hide AllStandard, AllVisitable, AnyNeeds, CoerceFields, CoerceField, VisitFields, Needs, AnyChanges;
    var n, t := Field("n", Null, true, map[]), Field("t", Leaf(Timestamp(Nanosecond, None)), true, map[]);
    PlainTimestamp(t, map[]);
    TwoFields(n, t, map[]);
    FieldsVisitSucceeds([n, t], map[]);
    AnyNeedsWhenDifferent([n, t], map[]);
  }

  /** A dictionary column beside a timestamp: the timestamp is coerced, and the dictionary becomes its value type. */
  lemma {:induction false} DictionaryIsReplaced()
    ensures var d := Field("d", Dictionary(Leaf(Int32), Leaf(Utf8)), true, map[]);
            var t := Field("t", Leaf(Timestamp(Nanosecond, None)), true, map[]);
            && AllVisitable([d, t]) && !AllStandard([d, t]) && AnyChanges([d, t], map[])
            && UsedFields([d, t], map[]) ==
               [d.(dataType := Leaf(Utf8)), t.(dataType := Leaf(Timestamp(Microsecond, None)))]
            && CoerceFields([d, t], map[])[0] == d
  {
    hide AllStandard, AllVisitable, AnyNeeds, CoerceFields, CoerceField, VisitFields;
    hide Visit, Needs, Changes, AnyChanges, Visitable, Standard;
    var d := Field("d", Dictionary(Leaf(Int32), Leaf(Utf8)), true, map[]);
    var t := Field("t", Leaf(Timestamp(Nanosecond, None)), true, map[]);
    PlainTimestamp(t, map[]);
    PlainDictionary(d, map[]);
    TwoFields(d, t, map[]);
  }

  lemma {:induction false} TwoFields(x: Field, y: Field, table: TableFields)
    ensures AllVisitable([x, y]) <==> Visitable(x.dataType) && Visitable(y.dataType)
    ensures AllStandard([x, y]) <==> Standard(x.dataType) && Standard(y.dataType)
    ensures AnyNeeds([x, y], table) <==> Needs(x, table) || Needs(y, table)
    ensures AnyChanges([x, y], table) <==> Changes(x.dataType, x, table) || Changes(y.dataType, y, table)
    ensures CoerceFields([x, y], table) == [CoerceField(x, table), CoerceField(y, table)]
    ensures var v, w := Visit(x.dataType, x, table), Visit(y.dataType, y, table);
            VisitFields([x, y], table) == if v.Ok? && w.Ok? then Ok([v.value, w.value]) else Err
  {
    assert [x, y][..1] == [x];
    OneField(x, table);
    VisitTwo(x, y, table);
  }

  lemma {:induction false} OneField(x: Field, table: TableFields)
    ensures AllVisitable([x]) <==> Visitable(x.dataType)
    ensures AllStandard([x]) <==> Standard(x.dataType)
    ensures AnyNeeds([x], table) <==> Needs(x, table)
    ensures AnyChanges([x], table) <==> Changes(x.dataType, x, table)
    ensures CoerceFields([x], table) == [CoerceField(x, table)]
  {
    assert [x][..0] == [];
    assert CoerceFields([x][..0], table) == [];
  }

  lemma {:induction false} VisitTwo(x: Field, y: Field, table: TableFields)
    ensures var v, w := Visit(x.dataType, x, table), Visit(y.dataType, y, table);
            VisitFields([x, y], table) == if v.Ok? && w.Ok? then Ok([v.value, w.value]) else Err
  {
    hide Visit;
    var v, w := Visit(x.dataType, x, table), Visit(y.dataType, y, table);
    var none: seq<Field> := [];
    assert VisitFields(none, table) == Ok(none);
    assert none + [x] == [x];
    if v.Ok? { assert VisitFields([x], table).value == none + [v.value] == [v.value]; }
    assert [x] + [y] == [x, y];
    if v.Ok? && w.Ok? { assert VisitFields([x, y], table).value == [v.value] + [w.value] == [v.value, w.value]; }
  }
}
