/**
 Bringing record batches of a data file to the table's current schema: one plan, made from the first batch's schema
 and kept, against resolving every projected field afresh for every batch.
 */
module BatchTransformer {
  import opened Prelude
  import opened Decimals
  import opened ArrowTypes
  import opened SchemaConversion
  import I = IcebergTypes

  // ---- columns and batches ----

  type Cell = Option<I.Literal>

  datatype Column = Column(dataType: DataType, cells: seq<Cell>)

  datatype RecordBatch = RecordBatch(schema: seq<Field>, columns: seq<Column>, rows: nat)

  /** `DataType::equals_datatype`: equal but for the names and the metadata of inner fields. */
  predicate EqualsDatatype(a: DataType, b: DataType)
    decreases a
  {
    match a
    case Leaf(_) => a == b
    case Null => a == b
    case List(e) => b.List? && EqualsField(e, b.element)
    case LargeList(e) => b.LargeList? && EqualsField(e, b.element)
    case FixedSizeList(e, size) => b.FixedSizeList? && size == b.size && EqualsField(e, b.element)
    case Struct(fields) =>
      b.Struct? && |fields| == |b.fields| && forall i :: 0 <= i < |fields| ==> EqualsField(fields[i], b.fields[i])
    case Map(entry, sorted) => b.Map? && sorted == b.sorted && EqualsField(entry, b.entry)
    case Dictionary(key, value) => b.Dictionary? && EqualsDatatype(key, b.key) && EqualsDatatype(value, b.value)
    case RunEndEncoded(ends, values) =>
      b.RunEndEncoded? && EqualsField(ends, b.runEnds) && EqualsField(values, b.values)
  }

  predicate EqualsField(a: Field, b: Field)
    decreases a
  {
    a.nullable == b.nullable && EqualsDatatype(a.dataType, b.dataType)
  }

  /** A type without the names and the metadata of inner fields. */
  function Anonymous(t: DataType): DataType
    decreases t
  {
    match t
    case List(e) => List(AnonymousField(e))
    case LargeList(e) => LargeList(AnonymousField(e))
    case FixedSizeList(e, size) => FixedSizeList(AnonymousField(e), size)
    case Struct(fields) =>
      Struct(seq(|fields|, i requires 0 <= i < |fields| => AnonymousField(fields[i])))
    case Map(entry, sorted) => Map(AnonymousField(entry), sorted)
    case Dictionary(key, value) => Dictionary(Anonymous(key), Anonymous(value))
    case RunEndEncoded(ends, values) => RunEndEncoded(AnonymousField(ends), AnonymousField(values))
    case _ => t
  }

  function AnonymousField(f: Field): Field
    decreases f
  {
    Field("", Anonymous(f.dataType), f.nullable, map[])
  }

  /** Two types are equal for the plan exactly when they are without the names and the metadata of inner fields. */
  lemma {:induction false} EqualWhenAnonymous(a: DataType, b: DataType)
    ensures EqualsDatatype(a, b) <==> Anonymous(a) == Anonymous(b)
    decreases a
  {
    match a
    case List(e) => if b.List? { EqualFieldsWhenAnonymous(e, b.element); }
    case LargeList(e) => if b.LargeList? { EqualFieldsWhenAnonymous(e, b.element); }
    case FixedSizeList(e, _) => if b.FixedSizeList? { EqualFieldsWhenAnonymous(e, b.element); }
    case Struct(fields) =>
      if b.Struct? { assert |Anonymous(a).fields| == |fields| && |Anonymous(b).fields| == |b.fields|; }
      if b.Struct? && |fields| == |b.fields| {
        forall i | 0 <= i < |fields|
          ensures EqualsField(fields[i], b.fields[i]) <==> AnonymousField(fields[i]) == AnonymousField(b.fields[i])
        {
          EqualFieldsWhenAnonymous(fields[i], b.fields[i]);
        }
        SameAnonymousFields(fields, b.fields);
      }
    case Map(entry, _) => if b.Map? { EqualFieldsWhenAnonymous(entry, b.entry); }
    case Dictionary(key, value) =>
      if b.Dictionary? {
        EqualWhenAnonymous(key, b.key);
        EqualWhenAnonymous(value, b.value);
      }
    case RunEndEncoded(ends, values) =>
      if b.RunEndEncoded? {
        EqualFieldsWhenAnonymous(ends, b.runEnds);
        EqualFieldsWhenAnonymous(values, b.values);
      }
    case _ =>
  }

  lemma {:induction false} EqualFieldsWhenAnonymous(a: Field, b: Field)
    ensures EqualsField(a, b) <==> AnonymousField(a) == AnonymousField(b)
    decreases a
  {
    EqualWhenAnonymous(a.dataType, b.dataType);
  }

  lemma {:induction false} SameAnonymousFields(a: seq<Field>, b: seq<Field>)
    requires |a| == |b|
    ensures Anonymous(Struct(a)) == Anonymous(Struct(b)) <==>
            forall i :: 0 <= i < |a| ==> AnonymousField(a[i]) == AnonymousField(b[i])
  {
    var p, q := Anonymous(Struct(a)).fields, Anonymous(Struct(b)).fields;
    assert forall i :: 0 <= i < |a| ==> p[i] == AnonymousField(a[i]) && q[i] == AnonymousField(b[i]);
  }

  lemma {:induction false} EqualsItself(a: DataType)
    ensures EqualsDatatype(a, a)
    decreases a
  {
    match a
    case List(e) => EqualsItself(e.dataType);
    case LargeList(e) => EqualsItself(e.dataType);
    case FixedSizeList(e, _) => EqualsItself(e.dataType);
    case Struct(fields) =>
      forall i | 0 <= i < |fields| ensures EqualsField(fields[i], fields[i]) {
        EqualsItself(fields[i].dataType);
      }
    case Map(entry, _) => EqualsItself(entry.dataType);
    case Dictionary(key, value) => EqualsItself(key); EqualsItself(value);
    case RunEndEncoded(ends, values) => EqualsItself(ends.dataType); EqualsItself(values.dataType);
    case _ =>
  }

  predicate NoNulls(c: Column) { forall i :: 0 <= i < |c.cells| ==> c.cells[i].Some? }

  predicate ColumnFits(f: Field, c: Column, rows: nat) {
    |c.cells| == rows && EqualsDatatype(c.dataType, f.dataType) && (f.nullable || NoNulls(c))
  }

  predicate Fits(schema: seq<Field>, columns: seq<Column>, rows: nat) {
    |schema| == |columns| && forall i :: 0 <= i < |schema| ==> ColumnFits(schema[i], columns[i], rows)
  }

  /** `RecordBatch::try_new_with_options`, with a row count and without matching inner field names. */
  function TryNew(schema: seq<Field>, columns: seq<Column>, rows: nat): Result<RecordBatch> {
    if Fits(schema, columns, rows) then Ok(RecordBatch(schema, columns, rows)) else Err
  }

  predicate BatchOk(b: RecordBatch) { Fits(b.schema, b.columns, b.rows) }

  /** The column library: casting a column, and filling one with a value. Either may fail; nothing else is assumed. */
  datatype Kernels = Kernels(
    cast: (Column, DataType) -> Result<Column>,
    fill: (DataType, Option<I.Literal>, nat) -> Result<Column>)

  // ---- the transformer's inputs ----

  /** The snapshot schema; `byId` has the fields of every depth. */
  datatype TableSchema = TableSchema(fields: seq<I.NestedField>, byId: map<i32, I.NestedField>)

  datatype Datum = Datum(p: I.PrimitiveType, literal: I.Literal)

  datatype MetadataColumn = MetadataColumn(name: string, required: bool)

  datatype Setup = Setup(
    table: TableSchema, projected: seq<i32>, constants: map<i32, Datum>, metadataColumns: map<i32, MetadataColumn>)

  /** A schema is indexed by the ids of its own fields. */
  predicate Indexed(table: TableSchema) {
    forall i :: 0 <= i < |table.fields| ==>
                  table.fields[i].id in table.byId && table.byId[table.fields[i].id] == table.fields[i]
  }

  /** The type of a constant column's values; several logical types are stored as their physical ones. */
  function ConstantType(p: I.PrimitiveType): LeafType {
    match p
    case Boolean => Boolean
    case Int => Int32
    case Long => Int64
    case Float => Float32
    case Double => Float64
    case Date => Date32
    case Time => Int64
    case Timestamp => Int64
    case Timestamptz => Int64
    case TimestampNs => Int64
    case TimestamptzNs => Int64
    case String => Utf8
    case Uuid => Binary
    case Fixed(_) => Binary
    case Binary => Binary
    case Decimal(precision, scale) => LeafType.Decimal128(precision % 0x100, SignedByte(scale % 0x100))
  }

  /**
   Constants have the column type of their table type, except that times and timestamps are bare 64-bit numbers, and
   that the three binary types share one type. A decimal that has no column type is cut to one byte each.
   */
  lemma {:induction false} ConstantTypeIsColumnType(p: I.PrimitiveType)
    ensures p.Time? || p.Timestamp? || p.Timestamptz? || p.TimestampNs? || p.TimestamptzNs? ==>
              Leaf(ConstantType(p)) == ToArrowPrimitive(I.Long).value
    ensures p.Uuid? || p.Fixed? || p.Binary? ==> ConstantType(p) == LeafType.Binary
    ensures p.Boolean? || p.Int? || p.Long? || p.Float? || p.Double? || p.Date? || p.String? ==>
              ToArrowPrimitive(p) == Ok(Leaf(ConstantType(p)))
    ensures p.Decimal? && ToArrowPrimitive(p).Ok? ==> ToArrowPrimitive(p) == Ok(Leaf(ConstantType(p)))
    ensures p.Decimal? ==> exists a: int, b: int ::
              && ConstantType(p) == LeafType.Decimal128(p.precision - 0x100 * a, p.scale - 0x100 * b)
              && 0 <= p.precision - 0x100 * a < 0x100 && -0x80 <= p.scale - 0x100 * b < 0x80
  {
    if p.Decimal? {
      var a := p.precision / 0x100;
      var b := if p.scale % 0x100 < 0x80 then p.scale / 0x100 else p.scale / 0x100 + 1;
      assert ConstantType(p) == LeafType.Decimal128(p.precision - 0x100 * a, p.scale - 0x100 * b);
    }
  }

  function SignedByte(b: int): int { if b < 0x80 then b else b - 0x100 }

  /** `datum_to_arrow_type_with_ree`. */
  function ReeOf(p: I.PrimitiveType): DataType {
    RunEndEncoded(Field("run_ends", Leaf(Int32), false, map[]), Field("values", Leaf(ConstantType(p)), true, map[]))
  }

  /** Only a primitive default counts. */
  function DefaultOf(f: I.NestedField): Option<I.Literal> {
    if f.initialDefault.Some? && f.initialDefault.value.PrimitiveLiteral? then f.initialDefault else None
  }

  // ---- ids to columns ----

  /** Where the last field with an id is. */
  function IndexOf(fields: seq<Field>, id: i32): (r: Option<nat>)
    ensures r.Some? ==> r.value < |fields| && FieldIdOf(fields[r.value]) == Some(id)
    ensures forall j :: (if r.Some? then r.value + 1 else 0) <= j < |fields| ==> FieldIdOf(fields[j]) != Some(id)
  {
    if fields == [] then None
    else if FieldIdOf(fields[|fields| - 1]) == Some(id) then Some(|fields| - 1)
    else IndexOf(fields[..|fields| - 1], id)
  }

  predicate IdParses(f: Field) { FIELD_ID_KEY in f.metadata ==> FieldIdOf(f).Some? }

  predicate AllIdsParse(fields: seq<Field>) { forall i :: 0 <= i < |fields| ==> IdParses(fields[i]) }

  /** `build_field_id_to_arrow_schema_map`: fields without an id are skipped, later ones win, a bad id is an error. */
  method BuildFieldIdMap(fields: seq<Field>) returns (r: Result<map<i32, (Field, nat)>>)
    ensures r.Ok? <==> AllIdsParse(fields)
    ensures r.Ok? <==> forall i :: 0 <= i < |fields| && FIELD_ID_KEY in fields[i].metadata ==>
                                     FieldIdOf(fields[i]).Some?
    ensures r.Ok? ==> forall id :: id in r.value <==> IndexOf(fields, id).Some?
    ensures r.Ok? ==> forall id :: id in r.value ==>
                                     r.value[id] == (fields[IndexOf(fields, id).value], IndexOf(fields, id).value)
  {
    hide FieldIdOf;
    var m: map<i32, (Field, nat)> := map[];
    for i := 0 to |fields|
      invariant AllIdsParse(fields[..i])
      invariant forall id :: id in m <==> IndexOf(fields[..i], id).Some?
      invariant forall id :: id in m ==>
                               m[id] == (fields[IndexOf(fields[..i], id).value], IndexOf(fields[..i], id).value)
    {
      assert fields[..i + 1][..i] == fields[..i];
      if FIELD_ID_KEY in fields[i].metadata {
        var id := FieldIdOf(fields[i]);
        if id.None? {
          assert !IdParses(fields[i]);
          return Err;
        }
        m := m[id.value := (fields[i], i)];
      } else {
        NoKeyNoId(fields[i]);
      }
    }
    assert fields[..|fields|] == fields;
    r := Ok(m);
  }

  lemma {:induction false} NoKeyNoId(f: Field)
    requires FIELD_ID_KEY !in f.metadata
    ensures FieldIdOf(f).None?
  {
  }

  lemma {:induction false} TableIdsParse(fs: seq<I.NestedField>)
    requires ToArrowFields(fs).Ok?
    ensures AllIdsParse(ToArrowFields(fs).value)
    ensures forall i :: 0 <= i < |fs| ==> FieldIdOf(ToArrowFields(fs).value[i]) == Some(fs[i].id)
    decreases |fs|
  {
    hide ToArrow, FieldIdOf, IdAndDoc;
    if fs != [] {
      TableIdsParse(fs[..|fs| - 1]);
      var last := fs[|fs| - 1];
      MetadataReadBack(ToArrowField(last).value, last.id, last.doc);
    }
  }

  /** `iter().map(f).collect::<Result<Vec<_>>>()`. */
  function Collect<A, B>(xs: seq<A>, f: A -> Result<B>): (r: Result<seq<B>>)
    ensures r.Ok? ==> |r.value| == |xs| && forall i :: 0 <= i < |xs| ==> f(xs[i]) == Ok(r.value[i])
    ensures r.Err? ==> exists i :: 0 <= i < |xs| && f(xs[i]).Err?
  {
    if xs == [] then Ok([])
    else
      var front :- Collect(xs[..|xs| - 1], f);
      var last :- f(xs[|xs| - 1]);
      Ok(front + [last])
  }

  // ---- the target schema ----

  function TargetField(s: Setup, table: seq<Field>, id: i32): Result<Field> {
    if id in s.constants then
      var t := ReeOf(s.constants[id].p);
      if id in s.metadataColumns then
        var m := s.metadataColumns[id];
        Ok(Field(m.name, t, !m.required, IdAndDoc(id, None)))
      else match IndexOf(table, id)
        case None => Err
        case Some(i) => Ok(table[i].(dataType := t))
    else match IndexOf(table, id)
      case None => Err
      case Some(i) => Ok(table[i])
  }

  function TargetFields(s: Setup, table: seq<Field>): Result<seq<Field>> {
    Collect(s.projected, id => TargetField(s, table, id))
  }

  datatype SchemaComparison = Equivalent | NameChangesOnly | Different

  predicate SameShape(source: seq<Field>, target: seq<Field>) {
    |source| == |target| &&
    forall i :: 0 <= i < |source| ==>
                  source[i].dataType == target[i].dataType && source[i].nullable == target[i].nullable
  }

  predicate SameNames(source: seq<Field>, target: seq<Field>)
    requires |source| == |target|
  {
    forall i :: 0 <= i < |source| ==> source[i].name == target[i].name
  }

  function Compare(source: seq<Field>, target: seq<Field>): SchemaComparison {
    if !SameShape(source, target) then Different else if SameNames(source, target) then Equivalent else NameChangesOnly
  }

  /** `compare_schemas`: one pass with a flag. */
  method CompareSchemas(source: seq<Field>, target: seq<Field>) returns (r: SchemaComparison)
    ensures r == Compare(source, target)
    ensures r != Different <==>
            |source| == |target| && forall i :: 0 <= i < |source| ==>
              source[i].dataType == target[i].dataType && source[i].nullable == target[i].nullable
    ensures r == Equivalent <==>
            |source| == |target| && forall i :: 0 <= i < |source| ==>
              && source[i].dataType == target[i].dataType && source[i].nullable == target[i].nullable
              && source[i].name == target[i].name
  {
    if |source| != |target| { return Different; }
    var namesChanged := false;
    for i := 0 to |source|
      invariant SameShape(source[..i], target[..i])
      invariant namesChanged <==> !SameNames(source[..i], target[..i])
    {
      if source[i].dataType != target[i].dataType || source[i].nullable != target[i].nullable { return Different; }
      if source[i].name != target[i].name { namesChanged := true; }
    }
    assert source[..|source|] == source && target[..|target|] == target;
    r := if namesChanged then NameChangesOnly else Equivalent;
  }

  // ---- the plan ----

  datatype ColumnSource =
    | PassColumn(index: nat)
    | Promote(target: DataType, index: nat)
    | Add(target: DataType, value: Option<I.Literal>)

  datatype BatchTransform =
    | PassThrough
    | Modify(targetSchema: seq<Field>, operations: seq<ColumnSource>)
    | ModifySchema(targetSchema: seq<Field>)

  function Operation(s: Setup, table: seq<Field>, source: seq<Field>, id: i32): Result<ColumnSource> {
    if id in s.constants then Ok(Add(ReeOf(s.constants[id].p), Some(s.constants[id].literal)))
    else match IndexOf(table, id)
      case None => Err
      case Some(t) =>
        if id !in s.table.byId then Err
        else match IndexOf(source, id)
          case Some(j) =>
            Ok(if EqualsDatatype(source[j].dataType, table[t].dataType) then PassColumn(j)
                else Promote(table[t].dataType, j))
          case None => Ok(Add(table[t].dataType, DefaultOf(s.table.byId[id])))
  }

  function Operations(s: Setup, table: seq<Field>, source: seq<Field>): Result<seq<ColumnSource>> {
    Collect(s.projected, id => Operation(s, table, source, id))
  }

  /** `generate_batch_transform`. */
  function Generate(s: Setup, source: seq<Field>): Result<BatchTransform> {
    var table :- ToArrowFields(s.table.fields);
    var target :- TargetFields(s, table);
    match Compare(source, target)
    case Equivalent => Ok(PassThrough)
    case NameChangesOnly => Ok(ModifySchema(target))
    case Different =>
      if !AllIdsParse(source) then Err
      else
        var operations :- Operations(s, table, source);
        Ok(Modify(target, operations))
  }

  // ---- running the plan ----

  /** An index past the columns of a batch would panic; it is a failure here. */
  function ColumnAt(columns: seq<Column>, i: nat): Result<Column> { if i < |columns| then Ok(columns[i]) else Err }

  function RunOperation(k: Kernels, columns: seq<Column>, rows: nat, op: ColumnSource): Result<Column> {
    match op
    case PassColumn(i) => ColumnAt(columns, i)
    case Promote(t, i) =>
      var c :- ColumnAt(columns, i);
      k.cast(c, t)
    case Add(t, value) => k.fill(t, value, rows)
  }

  function RunOperations(k: Kernels, columns: seq<Column>, rows: nat, ops: seq<ColumnSource>): Result<seq<Column>> {
    Collect(ops, op => RunOperation(k, columns, rows, op))
  }

  /** `transform_columns`: with no columns at hand the row count is unknown and nothing is added. */
  function TransformColumns(k: Kernels, columns: seq<Column>, ops: seq<ColumnSource>): Result<seq<Column>> {
    if columns == [] then Ok([]) else RunOperations(k, columns, |columns[0].cells|, ops)
  }

  function Apply(k: Kernels, t: BatchTransform, b: RecordBatch): Result<RecordBatch> {
    match t
    case PassThrough => Ok(b)
    case Modify(target, ops) =>
      var columns :- TransformColumns(k, b.columns, ops);
      TryNew(target, columns, b.rows)
    case ModifySchema(target) => TryNew(target, b.columns, b.rows)
  }

  // ---- resolving afresh ----

  /**
   The rules for one field: a constant if there is one; else the file's column with that id, promoted when its type
   differs; else the field's initial default; else null.
   */
  function Resolve(s: Setup, k: Kernels, table: seq<Field>, b: RecordBatch, id: i32): Result<Column> {
    if id in s.constants then k.fill(ReeOf(s.constants[id].p), Some(s.constants[id].literal), b.rows)
    else match IndexOf(table, id)
      case None => Err
      case Some(t) =>
        if id !in s.table.byId then Err
        else match IndexOf(b.schema, id)
          case Some(j) =>
            var c :- ColumnAt(b.columns, j);
            if EqualsDatatype(b.schema[j].dataType, table[t].dataType) then Ok(c) else k.cast(c, table[t].dataType)
          case None => k.fill(table[t].dataType, DefaultOf(s.table.byId[id]), b.rows)
  }

  function ResolveAll(s: Setup, k: Kernels, table: seq<Field>, b: RecordBatch): Result<seq<Column>> {
    Collect(s.projected, id => Resolve(s, k, table, b, id))
  }

  // ---- the rules of column projection ----

  /** Field `j` is the last one with the id. */
  predicate IsLast(fields: seq<Field>, id: i32, j: nat) {
    j < |fields| && FieldIdOf(fields[j]) == Some(id) &&
    forall m :: j < m < |fields| ==> FieldIdOf(fields[m]) != Some(id)
  }

  /**
   A column is what the rules of column projection make of a projected id: a run-end-encoded constant if there is one;
   else the file's column with that id, cast when its type differs from the table's; else, for a field the file does
   not have, its initial default if that is a primitive value, and null otherwise.
   */
  ghost predicate FollowsRules(s: Setup, k: Kernels, b: RecordBatch, id: i32, c: Column) {
    if id in s.constants then
      var values := Field("values", Leaf(ConstantType(s.constants[id].p)), true, map[]);
      k.fill(RunEndEncoded(Field("run_ends", Leaf(Int32), false, map[]), values), Some(s.constants[id].literal), b.rows)
        == Ok(c)
    else
      (exists i :: 0 <= i < |s.table.fields| && s.table.fields[i].id == id) &&
      id in s.table.byId &&
      var f := s.table.byId[id];
      ToArrow(f.fieldType).Ok? &&
      var t := ToArrow(f.fieldType).value;
      && (forall j: nat :: IsLast(b.schema, id, j) ==>
            j < |b.columns| &&
            Ok(c) == if EqualsDatatype(b.schema[j].dataType, t) then Ok(b.columns[j]) else k.cast(b.columns[j], t))
      && ((forall j :: 0 <= j < |b.schema| ==> FieldIdOf(b.schema[j]) != Some(id)) ==>
            match f.initialDefault
            case Some(PrimitiveLiteral(text)) => k.fill(t, Some(I.PrimitiveLiteral(text)), b.rows) == Ok(c)
            case _ => k.fill(t, None, b.rows) == Ok(c))
  }

  /** The name, type and nullability that a projected id has in the result. */
  ghost predicate HasTargetField(s: Setup, id: i32, f: Field) {
    if id in s.constants && id in s.metadataColumns then
      && f.name == s.metadataColumns[id].name && f.nullable == !s.metadataColumns[id].required
      && f.dataType == ReeOf(s.constants[id].p)
    else
      (exists i :: 0 <= i < |s.table.fields| && s.table.fields[i].id == id) &&
      id in s.table.byId &&
      var column := s.table.byId[id];
      && f.name == column.name && f.nullable == !column.required
      && (if id in s.constants then f.dataType == ReeOf(s.constants[id].p)
          else ToArrow(column.fieldType) == Ok(f.dataType))
  }

  lemma {:induction false} TableFieldAt(fs: seq<I.NestedField>, i: nat)
    requires ToArrowFields(fs).Ok? && i < |fs|
    ensures ToArrowField(fs[i]) == Ok(ToArrowFields(fs).value[i])
    decreases |fs|
  {
    hide ToArrowField;
    if i < |fs| - 1 { TableFieldAt(fs[..|fs| - 1], i); }
  }

  /** A top-level field of the table is found by its id, and has the column type of the field with that id. */
  lemma {:induction false} TableColumn(s: Setup, table: seq<Field>, id: i32)
    requires ToArrowFields(s.table.fields) == Ok(table) && Indexed(s.table)
    ensures IndexOf(table, id).Some? <==> exists i :: 0 <= i < |s.table.fields| && s.table.fields[i].id == id
    ensures IndexOf(table, id).Some? ==>
              id in s.table.byId && ToArrowField(s.table.byId[id]) == Ok(table[IndexOf(table, id).value])
  {
    hide ToArrowFields, ToArrowField, FieldIdOf;
    TableIdsParse(s.table.fields);
    var found := IndexOf(table, id);
    if found.Some? {
      assert FieldIdOf(table[found.value]) == Some(s.table.fields[found.value].id);
      TableFieldAt(s.table.fields, found.value);
    }
    if i :| 0 <= i < |s.table.fields| && s.table.fields[i].id == id {
      assert FieldIdOf(table[i]) == Some(id);
    }
  }

  lemma {:induction false} ResolvedByRules(
      s: Setup, k: Kernels, table: seq<Field>, b: RecordBatch, id: i32, c: Column)
    requires ToArrowFields(s.table.fields) == Ok(table) && Indexed(s.table)
    ensures Resolve(s, k, table, b, id) == Ok(c) <==> FollowsRules(s, k, b, id, c)
  {
    hide ToArrowFields, FieldIdOf, EqualsDatatype, ConstantType, ToArrow, IndexOf, IsLast, Indexed;
    if id !in s.constants {
      TableColumn(s, table, id);
      LastField(b.schema, id);
    }
  }

  lemma {:induction false} LastField(fields: seq<Field>, id: i32)
    ensures forall j: nat :: IsLast(fields, id, j) <==> IndexOf(fields, id) == Some(j)
    ensures IndexOf(fields, id) == None <==> forall j :: 0 <= j < |fields| ==> FieldIdOf(fields[j]) != Some(id)
  {
    hide FieldIdOf;
    var found := IndexOf(fields, id);
    forall j: nat ensures IsLast(fields, id, j) <==> found == Some(j) {}
  }

  lemma {:induction false} TargetFieldAsAsked(s: Setup, table: seq<Field>, id: i32, f: Field)
    requires ToArrowFields(s.table.fields) == Ok(table) && Indexed(s.table)
    ensures HasTargetField(s, id, f) <==>
            match TargetField(s, table, id)
            case Err => false
            case Ok(t) => t.name == f.name && t.nullable == f.nullable && t.dataType == f.dataType
  {
    hide ToArrowFields, FieldIdOf, IdAndDoc, ToArrow;
    TableColumn(s, table, id);
  }

  /** The batch as it should come out; a file with an id that is no number is an error. */
  function Expected(s: Setup, k: Kernels, b: RecordBatch): Result<RecordBatch> {
    var table :- ToArrowFields(s.table.fields);
    var target :- TargetFields(s, table);
    if !AllIdsParse(b.schema) then Err
    else
      var columns :- ResolveAll(s, k, table, b);
      TryNew(target, columns, b.rows)
  }

  lemma {:induction false} AllFollowRules(s: Setup, k: Kernels, table: seq<Field>, b: RecordBatch, columns: seq<Column>)
    requires ToArrowFields(s.table.fields) == Ok(table) && Indexed(s.table)
    ensures ResolveAll(s, k, table, b) == Ok(columns) <==>
            |columns| == |s.projected| &&
            forall c :: 0 <= c < |s.projected| ==> FollowsRules(s, k, b, s.projected[c], columns[c])
  {
    hide Collect, ToArrowFields, Resolve, FollowsRules, Indexed;
    var all := ResolveAll(s, k, table, b);
    forall c | 0 <= c < |s.projected| && c < |columns|
      ensures FollowsRules(s, k, b, s.projected[c], columns[c]) <==>
              Resolve(s, k, table, b, s.projected[c]) == Ok(columns[c])
    {
      ResolvedByRules(s, k, table, b, s.projected[c], columns[c]);
    }
    if |columns| == |s.projected| &&
       forall c :: 0 <= c < |s.projected| ==> FollowsRules(s, k, b, s.projected[c], columns[c])
    {
      assert all.Ok? && all.value == columns;
    }
  }

  /** The same columns and rows, under schemas that differ at most in field metadata. */
  predicate Same(a: RecordBatch, b: RecordBatch) {
    a.columns == b.columns && a.rows == b.rows && SameShape(a.schema, b.schema) && SameNames(a.schema, b.schema)
  }

  predicate Agrees(r: Result<RecordBatch>, e: Result<RecordBatch>) {
    (r.Ok? <==> e.Ok?) && (r.Ok? ==> Same(r.value, e.value))
  }

  /**
   A result for a batch, said of the inputs alone: the table and the ids of the file can be read, and for each projected
   id there is the field it should have and a column that follows the rules and fits it.
   */
  ghost predicate IsResult(s: Setup, k: Kernels, b: RecordBatch, out: RecordBatch) {
    && AllConvertible(s.table.fields)
    && (forall i :: 0 <= i < |b.schema| && FIELD_ID_KEY in b.schema[i].metadata ==> FieldIdOf(b.schema[i]).Some?)
    && |out.schema| == |out.columns| == |s.projected| && out.rows == b.rows
    && forall c :: 0 <= c < |s.projected| ==>
         && HasTargetField(s, s.projected[c], out.schema[c])
         && FollowsRules(s, k, b, s.projected[c], out.columns[c])
         && |out.columns[c].cells| == b.rows && EqualsDatatype(out.columns[c].dataType, out.schema[c].dataType)
         && (out.schema[c].nullable || None !in out.columns[c].cells)
  }

  lemma {:induction false} NoNullCell(c: Column)
    ensures NoNulls(c) <==> None !in c.cells
  {
    if None in c.cells {
      var i :| 0 <= i < |c.cells| && c.cells[i] == None;
      assert !c.cells[i].Some?;
    }
  }

  lemma {:induction false} SameTarget(s: Setup, table: seq<Field>, fields: seq<Field>)
    requires ToArrowFields(s.table.fields) == Ok(table) && Indexed(s.table) && |fields| == |s.projected|
    ensures (forall c :: 0 <= c < |s.projected| ==> HasTargetField(s, s.projected[c], fields[c])) <==>
            match TargetFields(s, table)
            case Err => false
            case Ok(target) => SameShape(fields, target) && SameNames(fields, target)
  {
    hide Collect, ToArrowFields, TargetField, HasTargetField, Indexed;
    var target := TargetFields(s, table);
    forall c | 0 <= c < |s.projected| { TargetFieldAsAsked(s, table, s.projected[c], fields[c]); }
    if target.Err? {
      var c :| 0 <= c < |s.projected| && TargetField(s, table, s.projected[c]).Err?;
      TargetFieldAsAsked(s, table, s.projected[c], fields[c]);
    } else {
      assert forall c :: 0 <= c < |s.projected| ==> TargetField(s, table, s.projected[c]) == Ok(target.value[c]);
    }
  }

  /** Resolving afresh yields exactly the results so described. */
  lemma {:induction false} ExpectedExactly(s: Setup, k: Kernels, b: RecordBatch, out: RecordBatch)
    requires Indexed(s.table)
    ensures Agrees(Ok(out), Expected(s, k, b)) <==> IsResult(s, k, b, out)
  {
    hide Collect, ToArrowFields, TargetField, HasTargetField, FollowsRules, Indexed, FieldIdOf, EqualsDatatype, NoNulls;
    FieldsConvertWhen(s.table.fields);
    forall c: Column ensures NoNulls(c) <==> None !in c.cells { NoNullCell(c); }
    if AllConvertible(s.table.fields) && |out.schema| == |out.columns| == |s.projected| {
      var table := ToArrowFields(s.table.fields).value;
      SameTarget(s, table, out.schema);
      AllFollowRules(s, k, table, b, out.columns);
    }
  }

  lemma {:induction false} AgreeingIsResult(s: Setup, k: Kernels, b: RecordBatch, r: Result<RecordBatch>)
    requires Indexed(s.table) && Agrees(r, Expected(s, k, b))
    ensures if r.Ok? then IsResult(s, k, b, r.value) else forall out :: !IsResult(s, k, b, out)
  {
    hide Expected, IsResult, Indexed;
    forall out ensures Agrees(Ok(out), Expected(s, k, b)) <==> IsResult(s, k, b, out) {
      ExpectedExactly(s, k, b, out);
    }
    if r.Err? {
      forall out ensures !IsResult(s, k, b, out) { assert !Agrees(Ok(out), Expected(s, k, b)); }
    }
  }

  // ---- the plan is exact where it looks at ids ----

  lemma {:induction false} OperationResolves(s: Setup, k: Kernels, table: seq<Field>, b: RecordBatch, id: i32)
    ensures var op := Operation(s, table, b.schema, id);
            Resolve(s, k, table, b, id) == if op.Ok? then RunOperation(k, b.columns, b.rows, op.value) else Err
  {
    hide EqualsDatatype, IndexOf, ReeOf, DefaultOf;
  }

  lemma {:induction false} OperationsResolve(s: Setup, k: Kernels, table: seq<Field>, b: RecordBatch)
    ensures var ops := Operations(s, table, b.schema);
            ResolveAll(s, k, table, b) == if ops.Ok? then RunOperations(k, b.columns, b.rows, ops.value) else Err
    ensures ToArrowFields(s.table.fields) == Ok(table) && Indexed(s.table) ==>
              forall columns: seq<Column> ::
                ResolveAll(s, k, table, b) == Ok(columns) <==>
                |columns| == |s.projected| &&
                forall c :: 0 <= c < |columns| ==> FollowsRules(s, k, b, s.projected[c], columns[c])
  {
    hide Operation, Resolve, RunOperation, Collect, ToArrowFields, FollowsRules, Indexed;
    if ToArrowFields(s.table.fields) == Ok(table) && Indexed(s.table) {
      forall columns: seq<Column> { AllFollowRules(s, k, table, b, columns); }
    }
    forall id ensures Resolve(s, k, table, b, id) ==
                      (var op := Operation(s, table, b.schema, id);
                       if op.Ok? then RunOperation(k, b.columns, b.rows, op.value) else Err)
    {
      OperationResolves(s, k, table, b, id);
    }
    var ops, all := Operations(s, table, b.schema), ResolveAll(s, k, table, b);
    if ops.Ok? {
      var run := RunOperations(k, b.columns, b.rows, ops.value);
      if all.Ok? && run.Ok? {
        assert forall i :: 0 <= i < |s.projected| ==>
                             Ok(all.value[i]) == Resolve(s, k, table, b, s.projected[i]) == Ok(run.value[i]);
        assert all.value == run.value;
      } else if all.Err? {
        var i :| 0 <= i < |s.projected| && Resolve(s, k, table, b, s.projected[i]).Err?;
        assert RunOperation(k, b.columns, b.rows, ops.value[i]).Err?;
      }
    } else {
      var i :| 0 <= i < |s.projected| && Operation(s, table, b.schema, s.projected[i]).Err?;
      assert Resolve(s, k, table, b, s.projected[i]).Err?;
    }
  }

  predicate IsDifferent(s: Setup, source: seq<Field>) {
    var table := ToArrowFields(s.table.fields);
    table.Ok? &&
    var target := TargetFields(s, table.value);
    target.Ok? && Compare(source, target.value) == Different
  }

  /**
   When the schemas differ the plan resolves every field by id, so it is exact; but a batch without columns is lost.
   */
  lemma {:induction false} DifferentIsExact(s: Setup, k: Kernels, b: RecordBatch)
    requires BatchOk(b) && IsDifferent(s, b.schema)
    ensures var t := Generate(s, b.schema);
            if t.Err? then Expected(s, k, b).Err?
            else if b.columns == [] then Apply(k, t.value, b).Err?
            else Apply(k, t.value, b) == Expected(s, k, b)
  {
    hide Collect, Operation, Resolve, RunOperation, ColumnFits, EqualsDatatype, IdParses;
    var table := ToArrowFields(s.table.fields).value;
    OperationsResolve(s, k, table, b);
    if b.columns != [] {
      assert ColumnFits(b.schema[0], b.columns[0], b.rows);
      FittingRows(b.schema[0], b.columns[0], b.rows);
    }
  }

  lemma {:induction false} FittingRows(f: Field, c: Column, rows: nat)
    requires ColumnFits(f, c, rows)
    ensures |c.cells| == rows
  {
  }

  // ---- and where it does not, exactly when the columns are in the projected order ----

  /** Every projected field is the file's column at its own position, and none is a constant. */
  predicate Aligned(s: Setup, source: seq<Field>) {
    |source| == |s.projected| &&
    forall i :: 0 <= i < |source| ==> s.projected[i] !in s.constants && IndexOf(source, s.projected[i]) == Some(i)
  }

  /** One row, in which only column `i` has the given value. */
  function Sample(source: seq<Field>, i: nat, x: I.Literal): RecordBatch {
    RecordBatch(source, seq(|source|, j requires 0 <= j < |source| =>
                  Column(source[j].dataType, [Some(if j == i then x else I.PrimitiveLiteral(""))])), 1)
  }

  lemma {:induction false} SampleOk(source: seq<Field>, i: nat, x: I.Literal)
    ensures BatchOk(Sample(source, i, x))
  {
    hide EqualsDatatype;
    var b := Sample(source, i, x);
    forall j | 0 <= j < |source| ensures ColumnFits(source[j], b.columns[j], 1) {
      EqualsItself(source[j].dataType);
    }
  }

  lemma {:induction false} AlignedResolves(s: Setup, k: Kernels, table: seq<Field>, b: RecordBatch)
    requires ToArrowFields(s.table.fields) == Ok(table) && Indexed(s.table)
    requires TargetFields(s, table).Ok? && SameShape(b.schema, TargetFields(s, table).value)
    requires |b.columns| == |b.schema| && Aligned(s, b.schema)
    ensures ResolveAll(s, k, table, b) == Ok(b.columns)
  {
    hide Collect, EqualsDatatype, ToArrowFields, IndexOf;
    var target := TargetFields(s, table).value;
    forall i | 0 <= i < |s.projected| ensures Resolve(s, k, table, b, s.projected[i]) == Ok(b.columns[i]) {
      var id := s.projected[i];
      assert TargetField(s, table, id) == Ok(target[i]);
      var t := IndexOf(table, id).value;
      TableIdsParse(s.table.fields);
      assert FieldIdOf(table[t]) == Some(id) && s.table.fields[t].id == id;
      EqualsItself(table[t].dataType);
    }
    var all := ResolveAll(s, k, table, b);
    assert all.Ok? && all.value == b.columns;
  }

  lemma {:induction false} MisalignedIgnores(
      s: Setup, k: Kernels, table: seq<Field>, source: seq<Field>, i: nat, x: I.Literal, y: I.Literal)
    requires i < |source| == |s.projected|
    requires s.projected[i] in s.constants || IndexOf(source, s.projected[i]) != Some(i)
    ensures var id := s.projected[i];
            Resolve(s, k, table, Sample(source, i, x), id) == Resolve(s, k, table, Sample(source, i, y), id)
  {
    hide EqualsDatatype, IndexOf, ReeOf, DefaultOf;
  }

  /** A batch that shows it, of one row: the result cannot be right for both values of a column it ignores. */
  lemma {:induction false} MisalignedLoses(s: Setup, k: Kernels, table: seq<Field>, source: seq<Field>, i: nat)
    returns (b: RecordBatch)
    requires i < |source| == |s.projected|
    requires s.projected[i] in s.constants || IndexOf(source, s.projected[i]) != Some(i)
    ensures b.schema == source && BatchOk(b) && ResolveAll(s, k, table, b) != Ok(b.columns)
  {
    hide Collect, ColumnFits, Resolve, IndexOf, BatchOk;
    var x, y := I.PrimitiveLiteral("x"), I.PrimitiveLiteral("y");
    assert x.text[0] != y.text[0];
    var p, q := Sample(source, i, x), Sample(source, i, y);
    SampleOk(source, i, x);
    SampleOk(source, i, y);
    MisalignedIgnores(s, k, table, source, i, x, y);
    var id := s.projected[i];
    assert p.columns[i].cells[0] == Some(x) && q.columns[i].cells[0] == Some(y);
    b := if Resolve(s, k, table, p, id) == Ok(p.columns[i]) then q else p;
    assert Resolve(s, k, table, b, id) != Ok(b.columns[i]);
  }

  ghost predicate AlwaysExact(s: Setup, k: Kernels, table: seq<Field>, source: seq<Field>) {
    forall b: RecordBatch :: b.schema == source && BatchOk(b) ==> ResolveAll(s, k, table, b) == Ok(b.columns)
  }

  /**
   A plan that keeps the columns because names, types and nullability allow it is right for every batch if and only
   if the file's ids are the projected ones position by position. The comparison never looks at the ids, so columns
   of one type in another order are relabelled.
   */
  lemma {:induction false} KeptColumnsExact(s: Setup, k: Kernels, table: seq<Field>, source: seq<Field>)
    requires ToArrowFields(s.table.fields) == Ok(table) && Indexed(s.table)
    requires TargetFields(s, table).Ok? && SameShape(source, TargetFields(s, table).value)
    ensures AlwaysExact(s, k, table, source) <==> Aligned(s, source)
  {
    hide Collect, ColumnFits, ToArrowFields, ResolveAll, TargetField, IndexOf, Indexed;
    if Aligned(s, source) {
      forall b: RecordBatch | b.schema == source && BatchOk(b) ensures ResolveAll(s, k, table, b) == Ok(b.columns) {
        AlignedResolves(s, k, table, b);
      }
    } else {
      var i :| 0 <= i < |source| && (s.projected[i] in s.constants || IndexOf(source, s.projected[i]) != Some(i));
      var b := MisalignedLoses(s, k, table, source, i);
    }
  }

  // ---- files whose columns follow the projection ----

  predicate Subsequence<T(==)>(a: seq<T>, b: seq<T>)
    decreases |b|
  {
    a == [] ||
    (b != [] &&
     (Subsequence(a, b[..|b| - 1]) || (a[|a| - 1] == b[|b| - 1] && Subsequence(a[..|a| - 1], b[..|b| - 1]))))
  }

  lemma {:induction false} FullSubsequence<T>(a: seq<T>, b: seq<T>)
    requires Subsequence(a, b)
    ensures |a| <= |b| && (|a| == |b| ==> a == b)
    decreases |b|
  {
    if a != [] {
      if Subsequence(a, b[..|b| - 1]) {
        FullSubsequence(a, b[..|b| - 1]);
      } else {
        FullSubsequence(a[..|a| - 1], b[..|b| - 1]);
      }
    }
  }

  /**
   Every column of the file has an id; the ids are distinct and in the projected order; no column is run-end encoded.
   */
  predicate Trusted(s: Setup, source: seq<Field>) {
    && (forall i :: 0 <= i < |source| ==> FieldIdOf(source[i]).Some? && !source[i].dataType.RunEndEncoded?)
    && (forall i, j :: 0 <= i < j < |source| ==> FieldIdOf(source[i]) != FieldIdOf(source[j]))
    && Subsequence(SourceIds(source), s.projected)
  }

  function SourceIds(source: seq<Field>): (r: seq<i32>)
    requires forall i :: 0 <= i < |source| ==> FieldIdOf(source[i]).Some?
    ensures |r| == |source| && forall i :: 0 <= i < |r| ==> FieldIdOf(source[i]) == Some(r[i])
  {
    seq(|source|, i requires 0 <= i < |source| => FieldIdOf(source[i]).value)
  }

  lemma {:induction false} ConstantsAreEncoded(s: Setup, table: seq<Field>, id: i32)
    requires id in s.constants && TargetField(s, table, id).Ok?
    ensures TargetField(s, table, id).value.dataType.RunEndEncoded?
  {
  }

  /** A projected constant always makes the plan rebuild the batch: file columns are not run-end encoded. */
  lemma {:induction false} ConstantForcesModify(s: Setup, source: seq<Field>, i: nat)
    requires i < |s.projected| && s.projected[i] in s.constants
    requires forall j :: 0 <= j < |source| ==> !source[j].dataType.RunEndEncoded?
    ensures var t := Generate(s, source); t.Ok? ==> t.value.Modify?
  {
    hide Collect, TargetField, ToArrowFields, Operation;
    if Generate(s, source).Ok? {
      var table := ToArrowFields(s.table.fields).value;
      var target := TargetFields(s, table).value;
      assert TargetField(s, table, s.projected[i]) == Ok(target[i]);
      ConstantsAreEncoded(s, table, s.projected[i]);
    }
  }

  lemma {:induction false} TrustedIsAligned(s: Setup, table: seq<Field>, source: seq<Field>)
    requires Trusted(s, source) && TargetFields(s, table).Ok? && SameShape(source, TargetFields(s, table).value)
    ensures Aligned(s, source)
  {
    hide Collect, TargetField, FieldIdOf;
    var target := TargetFields(s, table).value;
    FullSubsequence(SourceIds(source), s.projected);
    forall i | 0 <= i < |source| ensures s.projected[i] !in s.constants && IndexOf(source, s.projected[i]) == Some(i) {
      var id := s.projected[i];
      assert FieldIdOf(source[i]) == Some(id);
      assert TargetField(s, table, id) == Ok(target[i]);
      if id in s.constants { ConstantsAreEncoded(s, table, id); }
    }
  }

  // ---- exact for which files ----

  /** What the transformer makes of the first batch of a file. */
  function Planned(s: Setup, k: Kernels, b: RecordBatch): Result<RecordBatch> {
    var t :- Generate(s, b.schema);
    Apply(k, t, b)
  }

  /** The plan keeps the columns: names aside, the file's schema compares equal to the target. */
  predicate KeepsColumns(s: Setup, source: seq<Field>) {
    var table := ToArrowFields(s.table.fields);
    table.Ok? &&
    var target := TargetFields(s, table.value);
    target.Ok? && SameShape(source, target.value)
  }

  /** A file whose columns are kept has them in the projected order; nothing is asked of other files. */
  predicate Sound(s: Setup, source: seq<Field>) { KeepsColumns(s, source) ==> Aligned(s, source) }

  lemma {:induction false} AlignedIdsParse(s: Setup, source: seq<Field>)
    requires Aligned(s, source)
    ensures AllIdsParse(source)
  {
    hide FieldIdOf;
    forall i | 0 <= i < |source| ensures IdParses(source[i]) {
      assert IndexOf(source, s.projected[i]) == Some(i);
    }
  }

  /** For a sound file the plan made from its schema gives, for every batch, what resolving afresh gives. */
  lemma {:induction false} PlanIsExact(s: Setup, k: Kernels, b: RecordBatch)
    requires Indexed(s.table) && Sound(s, b.schema) && BatchOk(b)
    ensures var r := Planned(s, k, b);
            && (if b.columns == [] && s.projected != [] then r.Err? else Agrees(r, Expected(s, k, b)))
            && (r.Ok? ==> r.value.rows == b.rows && BatchOk(r.value))
  {
    hide Collect, Operation, Resolve, RunOperation, TargetField;
    hide ToArrowFields, EqualsDatatype, FieldIdOf, IndexOf, IdParses;
    var table := ToArrowFields(s.table.fields);
    if table.Ok? && TargetFields(s, table.value).Ok? {
      var target := TargetFields(s, table.value).value;
      if SameShape(b.schema, target) {
        AlignedResolves(s, k, table.value, b);
        AlignedIdsParse(s, b.schema);
        assert Fits(target, b.columns, b.rows);
      } else {
        DifferentIsExact(s, k, b);
      }
    }
  }

  /** A misaligned file whose columns are kept: the batch that shows it comes out with its own columns. */
  lemma {:induction false} KeptIsWrong(s: Setup, k: Kernels, table: seq<Field>, b: RecordBatch)
    requires ToArrowFields(s.table.fields) == Ok(table) && KeepsColumns(s, b.schema) && BatchOk(b)
    requires ResolveAll(s, k, table, b) != Ok(b.columns)
    ensures Planned(s, k, b).Ok? && !Agrees(Planned(s, k, b), Expected(s, k, b))
  {
    hide Collect, Operation, Resolve, TargetField, ToArrowFields, EqualsDatatype, IdParses;
    assert Fits(TargetFields(s, table).value, b.columns, b.rows);
  }

  ghost predicate AlwaysAgrees(s: Setup, k: Kernels, source: seq<Field>) {
    forall b: RecordBatch :: b.schema == source && BatchOk(b) ==> Agrees(Planned(s, k, b), Expected(s, k, b))
  }

  /**
   Over all files with a column, the transformer is right on every batch if and only if the file is sound: its schema
   differs from the target, or its columns are the projected ones in order.
   */
  lemma {:induction false} ExactWhenSound(s: Setup, k: Kernels, source: seq<Field>)
    requires Indexed(s.table) && (source != [] || s.projected == [])
    ensures AlwaysAgrees(s, k, source) <==> Sound(s, source)
  {
    hide Collect, Fits, Generate, Apply, Expected, ResolveAll, TargetField, IndexOf, Indexed, ToArrowFields, Agrees;
    if Sound(s, source) {
      forall b: RecordBatch | b.schema == source && BatchOk(b) ensures Agrees(Planned(s, k, b), Expected(s, k, b)) {
        ColumnsOfBatch(b);
        PlanIsExact(s, k, b);
      }
    } else {
      var table := ToArrowFields(s.table.fields).value;
      var i :| 0 <= i < |source| && (s.projected[i] in s.constants || IndexOf(source, s.projected[i]) != Some(i));
      var b := MisalignedLoses(s, k, table, source, i);
      KeptIsWrong(s, k, table, b);
    }
  }

  lemma {:induction false} ColumnsOfBatch(b: RecordBatch)
    requires BatchOk(b)
    ensures |b.columns| == |b.schema|
  {
  }

  /** A file without columns: every batch fails as soon as something is projected, although it could be filled. */
  lemma {:induction false} NoColumnsFails(s: Setup, k: Kernels, b: RecordBatch)
    requires BatchOk(b) && b.schema == [] && s.projected != []
    ensures Planned(s, k, b).Err?
  {
    hide Collect, Operation, TargetField, ToArrowFields, RunOperation, EqualsDatatype;
  }

  /** One optional column is projected from rows without columns: resolving gives a column of nulls, the plan fails. */
  lemma {:induction false} NoColumnsLost(a: I.NestedField, x: Field, k: Kernels, n: nat)
    requires a.fieldType == I.Primitive(I.Int) && !a.required && a.initialDefault == None && ToArrowField(a) == Ok(x)
    requires k.fill(Leaf(Int32), None, n) == Ok(Column(Leaf(Int32), seq(n, _ => None)))
    ensures var s := Setup(TableSchema([a], map[a.id := a]), [a.id], map[], map[]);
            var b := RecordBatch([], [], n);
            && BatchOk(b) && Planned(s, k, b).Err?
            && Expected(s, k, b) == Ok(RecordBatch([x], [Column(Leaf(Int32), seq(n, _ => None))], n))
  {
    hide FieldIdOf, IdAndDoc, Collect, ToArrowFields, IndexOf, Generate, Apply;
    var s := Setup(TableSchema([a], map[a.id := a]), [a.id], map[], map[]);
    var b := RecordBatch([], [], n);
    NoColumnsFails(s, k, b);
    MetadataReadBack(x, a.id, a.doc);
    OneFieldConverts(a, x);
    LastOfOne(x, a.id);
    EqualsItself(Leaf(Int32));
    var c := Column(Leaf(Int32), seq(n, _ => None));
    var target, columns := TargetFields(s, [x]), ResolveAll(s, k, [x], b);
    assert TargetField(s, [x], a.id) == Ok(x) && Resolve(s, k, [x], b, a.id) == Ok(c);
    assert target.Ok? && target.value == [x];
    assert columns.Ok? && columns.value == [c];
    assert ColumnFits(x, c, n);
  }

  lemma {:induction false} OneFieldConverts(a: I.NestedField, x: Field)
    requires ToArrowField(a) == Ok(x)
    ensures ToArrowFields([a]) == Ok([x])
  {
    var none: seq<I.NestedField>, nothing: seq<Field> := [], [];
    FieldsPush(none, a, nothing, x);
    assert none + [a] == [a] && nothing + [x] == [x];
  }

  lemma {:induction false} LastOfOne(x: Field, a: i32)
    requires FieldIdOf(x) == Some(a)
    ensures IndexOf([x], a) == Some(0)
  {
    hide FieldIdOf;
  }

  /** Files whose ids are distinct and follow the projection are sound. */
  lemma {:induction false} TrustedIsSound(s: Setup, source: seq<Field>)
    requires Trusted(s, source)
    ensures Sound(s, source)
  {
    hide Collect, TargetField, FieldIdOf, Trusted, Aligned, ToArrowFields;
    if KeepsColumns(s, source) { TrustedIsAligned(s, ToArrowFields(s.table.fields).value, source); }
  }

  /** A file whose two integer columns come in the other order: the columns are kept and only the labels change. */
  lemma {:induction false} ReorderedIsRelabelled(
      a: I.NestedField, b: I.NestedField, x: Field, y: Field, k: Kernels, batch: RecordBatch)
    requires a.id != b.id && a.name != b.name && a.required == b.required
    requires a.fieldType == b.fieldType == I.Primitive(I.Int)
    requires ToArrowField(a) == Ok(x) && ToArrowField(b) == Ok(y) && batch.schema == [y, x] && BatchOk(batch)
    ensures var s := Setup(TableSchema([a, b], map[a.id := a, b.id := b]), [a.id, b.id], map[], map[]);
            && Generate(s, batch.schema) == Ok(ModifySchema([x, y]))
            && Apply(k, ModifySchema([x, y]), batch) == Ok(RecordBatch([x, y], batch.columns, batch.rows))
            && Resolve(s, k, [x, y], batch, a.id) == Ok(batch.columns[1])
  {
    hide FieldIdOf, IdAndDoc, EqualsDatatype, Collect, NoNulls, IndexOf, ToArrowFields;
    var s := Setup(TableSchema([a, b], map[a.id := a, b.id := b]), [a.id, b.id], map[], map[]);
    MetadataReadBack(x, a.id, a.doc);
    MetadataReadBack(y, b.id, b.doc);
    EqualsItself(Leaf(Int32));
    TwoFieldsConvert(a, b, x, y);
    LastOfTwo(x, y, a.id, b.id);
    LastOfTwo(y, x, b.id, a.id);
    var target := TargetFields(s, [x, y]);
    assert TargetField(s, [x, y], a.id) == Ok(x) && TargetField(s, [x, y], b.id) == Ok(y);
    assert target.Ok? && target.value == [x, y];
    assert ColumnFits(y, batch.columns[0], batch.rows) && ColumnFits(x, batch.columns[1], batch.rows);
    assert forall i :: 0 <= i < 2 ==> ColumnFits([x, y][i], batch.columns[i], batch.rows);
  }

  lemma {:induction false} FieldsPush(fs: seq<I.NestedField>, f: I.NestedField, front: seq<Field>, x: Field)
    requires ToArrowFields(fs) == Ok(front) && ToArrowField(f) == Ok(x)
    ensures ToArrowFields(fs + [f]) == Ok(front + [x])
  {
    assert (fs + [f])[..|fs|] == fs;
  }

  lemma {:induction false} TwoFieldsConvert(a: I.NestedField, b: I.NestedField, x: Field, y: Field)
    requires ToArrowField(a) == Ok(x) && ToArrowField(b) == Ok(y)
    ensures ToArrowFields([a, b]) == Ok([x, y])
  {
    var none: seq<I.NestedField>, nothing: seq<Field> := [], [];
    FieldsPush(none, a, nothing, x);
    assert none + [a] == [a] && nothing + [x] == [x];
    FieldsPush([a], b, [x], y);
    assert [a] + [b] == [a, b] && [x] + [y] == [x, y];
  }

  lemma {:induction false} LastOfTwo(x: Field, y: Field, a: i32, b: i32)
    requires FieldIdOf(x) == Some(a) && FieldIdOf(y) == Some(b) && a != b
    ensures IndexOf([x, y], a) == Some(0) && IndexOf([x, y], b) == Some(1)
  {
    hide FieldIdOf;
    assert [x, y][..1] == [x];
    assert IndexOf([x], a) == Some(0);
  }

  // ---- partition constants ----

  datatype Transform = Identity | Other(name: string)

  datatype PartitionField = PartitionField(sourceId: i32, transform: Transform)

  /** What one partition field asks of the schema and the data: nothing, unless its transform is the identity. */
  predicate FieldOk(f: PartitionField, value: Option<I.Literal>, table: TableSchema) {
    f.transform == Identity ==>
      f.sourceId in table.byId && table.byId[f.sourceId].fieldType.Primitive? &&
      (value.Some? ==> value.value.PrimitiveLiteral?)
  }

  predicate Supplies(f: PartitionField, value: Option<I.Literal>, id: i32) {
    f.transform == Identity && value.Some? && f.sourceId == id
  }

  /** The last partition field that supplies a constant for an id. */
  function Supplier(spec: seq<PartitionField>, data: seq<Option<I.Literal>>, id: i32): (r: Option<nat>)
    requires |data| == |spec|
    ensures r.Some? ==> r.value < |spec| && Supplies(spec[r.value], data[r.value], id)
    ensures forall j :: (if r.Some? then r.value + 1 else 0) <= j < |spec| ==> !Supplies(spec[j], data[j], id)
  {
    if spec == [] then None
    else
      var n := |spec| - 1;
      if Supplies(spec[n], data[n], id) then Some(n) else Supplier(spec[..n], data[..n], id)
  }

  function ConstantOf(table: TableSchema, id: i32, value: Option<I.Literal>): Option<Datum> {
    if id in table.byId && table.byId[id].fieldType.Primitive? && value.Some? then
      Some(Datum(table.byId[id].fieldType.p, value.value))
    else None
  }

  lemma {:induction false} SupplierStep(spec: seq<PartitionField>, data: seq<Option<I.Literal>>, pos: nat)
    requires pos < |spec| == |data|
    ensures forall id :: Supplier(spec[..pos + 1], data[..pos + 1], id) ==
                         if Supplies(spec[pos], data[pos], id) then Some(pos)
                         else Supplier(spec[..pos], data[..pos], id)
  {
    hide Supplies;
    assert spec[..pos + 1][..pos] == spec[..pos] && data[..pos + 1][..pos] == data[..pos];
  }

  /**
   `constants_map`: a constant for exactly the identity-transformed fields with a value, the last one winning; it
   fails exactly when an identity field is missing from the schema, or it or its value is not primitive.
   */
  method ConstantsMap(spec: seq<PartitionField>, data: seq<Option<I.Literal>>, table: TableSchema)
    returns (r: Result<map<i32, Datum>>)
    requires |data| == |spec|
    ensures r.Ok? <==> forall i :: 0 <= i < |spec| ==> FieldOk(spec[i], data[i], table)
    ensures r.Ok? ==> forall id :: id in r.value <==> Supplier(spec, data, id).Some?
    ensures r.Ok? ==> forall id :: id in r.value ==>
                                     Some(r.value[id]) == ConstantOf(table, id, data[Supplier(spec, data, id).value])
    ensures r.Ok? <==> forall i :: 0 <= i < |spec| && spec[i].transform == Identity ==>
                         && spec[i].sourceId in table.byId && table.byId[spec[i].sourceId].fieldType.Primitive?
                         && (data[i].Some? ==> data[i].value.PrimitiveLiteral?)
    ensures r.Ok? ==> forall i :: 0 <= i < |spec| && spec[i].transform == Identity && data[i].Some? &&
                                  (forall j :: i < j < |spec| && spec[j].transform == Identity && data[j].Some? ==>
                                     spec[j].sourceId != spec[i].sourceId) ==>
                        && spec[i].sourceId in r.value
                        && r.value[spec[i].sourceId] ==
                           Datum(table.byId[spec[i].sourceId].fieldType.p, data[i].value)
    ensures r.Ok? ==> forall id :: id in r.value ==>
                        exists i :: 0 <= i < |spec| && spec[i].transform == Identity && data[i].Some? &&
                                    spec[i].sourceId == id
  {
    hide FieldOk, ConstantOf, Supplies, Supplier;
    var constants: map<i32, Datum> := map[];
    FieldsOk(spec, data, table);
    for pos := 0 to |spec|
      invariant forall i :: 0 <= i < pos ==> FieldOk(spec[i], data[i], table)
      invariant forall id :: id in constants <==> Supplier(spec[..pos], data[..pos], id).Some?
      invariant forall id :: id in constants ==>
                  Some(constants[id]) == ConstantOf(table, id, data[Supplier(spec[..pos], data[..pos], id).value])
    {
      var field := spec[pos];
      SupplierStep(spec, data, pos);
      OneField(field, data[pos], table);
      if field.transform == Identity {
        if field.sourceId !in table.byId || !table.byId[field.sourceId].fieldType.Primitive? { return Err; }
        match data[pos]
        case None =>
        case Some(PrimitiveLiteral(text)) =>
          var constant := Datum(table.byId[field.sourceId].fieldType.p, I.PrimitiveLiteral(text));
          constants := constants[field.sourceId := constant];
        case Some(_) => return Err;
      }
    }
    assert spec[..|spec|] == spec && data[..|spec|] == data;
    r := Ok(constants);
    SuppliedByLast(spec, data, table, constants);
  }

  lemma {:induction false} FieldsOk(spec: seq<PartitionField>, data: seq<Option<I.Literal>>, table: TableSchema)
    requires |data| == |spec|
    ensures (forall i :: 0 <= i < |spec| ==> FieldOk(spec[i], data[i], table)) <==>
            forall i :: 0 <= i < |spec| && spec[i].transform == Identity ==>
              && spec[i].sourceId in table.byId && table.byId[spec[i].sourceId].fieldType.Primitive?
              && (data[i].Some? ==> data[i].value.PrimitiveLiteral?)
  {
    if forall i :: 0 <= i < |spec| ==> FieldOk(spec[i], data[i], table) {
      forall i | 0 <= i < |spec| && spec[i].transform == Identity
        ensures spec[i].sourceId in table.byId && table.byId[spec[i].sourceId].fieldType.Primitive?
        ensures data[i].Some? ==> data[i].value.PrimitiveLiteral?
      {
        assert FieldOk(spec[i], data[i], table);
      }
    }
  }

  /** The constants of the suppliers, read off the partition fields: the last one with a value wins. */
  lemma {:induction false} SuppliedByLast(
      spec: seq<PartitionField>, data: seq<Option<I.Literal>>, table: TableSchema, constants: map<i32, Datum>)
    requires |data| == |spec| && forall i :: 0 <= i < |spec| ==> FieldOk(spec[i], data[i], table)
    requires forall id :: id in constants <==> Supplier(spec, data, id).Some?
    requires forall id :: id in constants ==>
                            Some(constants[id]) == ConstantOf(table, id, data[Supplier(spec, data, id).value])
    ensures forall i :: 0 <= i < |spec| && spec[i].transform == Identity && data[i].Some? &&
                        (forall j :: i < j < |spec| && spec[j].transform == Identity && data[j].Some? ==>
                           spec[j].sourceId != spec[i].sourceId) ==>
              && spec[i].sourceId in constants
              && spec[i].sourceId in table.byId && table.byId[spec[i].sourceId].fieldType.Primitive?
              && constants[spec[i].sourceId] == Datum(table.byId[spec[i].sourceId].fieldType.p, data[i].value)
    ensures forall id :: id in constants ==>
              exists i :: 0 <= i < |spec| && spec[i].transform == Identity && data[i].Some? && spec[i].sourceId == id
  {
    hide Supplier;
    forall i | 0 <= i < |spec| && spec[i].transform == Identity && data[i].Some? &&
               (forall j :: i < j < |spec| && spec[j].transform == Identity && data[j].Some? ==>
                  spec[j].sourceId != spec[i].sourceId)
      ensures spec[i].sourceId in constants
      ensures spec[i].sourceId in table.byId && table.byId[spec[i].sourceId].fieldType.Primitive?
      ensures constants[spec[i].sourceId] == Datum(table.byId[spec[i].sourceId].fieldType.p, data[i].value)
    {
      var id := spec[i].sourceId;
      assert Supplies(spec[i], data[i], id) && FieldOk(spec[i], data[i], table);
      var last := Supplier(spec, data, id);
      assert last.Some? && Supplies(spec[last.value], data[last.value], id);
      assert last.value == i;
    }
    forall id | id in constants
      ensures exists i :: 0 <= i < |spec| && spec[i].transform == Identity && data[i].Some? && spec[i].sourceId == id
    {
      assert Supplies(spec[Supplier(spec, data, id).value], data[Supplier(spec, data, id).value], id);
    }
  }

  lemma {:induction false} OneField(f: PartitionField, value: Option<I.Literal>, table: TableSchema)
    ensures FieldOk(f, value, table) <==>
            (f.transform == Identity ==> f.sourceId in table.byId && table.byId[f.sourceId].fieldType.Primitive? &&
                                         (value.Some? ==> value.value.PrimitiveLiteral?))
    ensures forall id :: Supplies(f, value, id) <==> f.transform == Identity && value.Some? && f.sourceId == id
    ensures f.sourceId in table.byId && table.byId[f.sourceId].fieldType.Primitive? && value.Some? ==>
              ConstantOf(table, f.sourceId, value) == Some(Datum(table.byId[f.sourceId].fieldType.p, value.value))
  {
  }

  // ---- making the plan ----

  function MappedTarget(s: Setup, mapped: map<i32, (Field, nat)>, id: i32): Result<Field> {
    if id in s.constants then
      var t := ReeOf(s.constants[id].p);
      if id in s.metadataColumns then
        var m := s.metadataColumns[id];
        Ok(Field(m.name, t, !m.required, IdAndDoc(id, None)))
      else if id in mapped then Ok(mapped[id].0.(dataType := t)) else Err
    else if id in mapped then Ok(mapped[id].0) else Err
  }

  function MappedOperation(
      s: Setup, mapped: map<i32, (Field, nat)>, sources: map<i32, (Field, nat)>, id: i32): Result<ColumnSource>
  {
    if id in s.constants then Ok(Add(ReeOf(s.constants[id].p), Some(s.constants[id].literal)))
    else if id !in mapped || id !in s.table.byId then Err
    else
      var target := mapped[id].0.dataType;
      if id in sources then
        var (field, index) := sources[id];
        Ok(if EqualsDatatype(field.dataType, target) then PassColumn(index) else Promote(target, index))
      else Ok(Add(target, DefaultOf(s.table.byId[id])))
  }

  lemma {:induction false} SameCollected<A, B>(xs: seq<A>, f: A -> Result<B>, g: A -> Result<B>)
    requires forall i :: 0 <= i < |xs| ==> f(xs[i]) == g(xs[i])
    ensures Collect(xs, f) == Collect(xs, g)
  {
    if xs != [] { SameCollected(xs[..|xs| - 1], f, g); }
  }

  /** `generate_batch_transform`, looking ids up in the two maps. */
  method GenerateBatchTransform(s: Setup, source: seq<Field>) returns (r: Result<BatchTransform>)
    ensures r == Generate(s, source)
  {
    hide Collect, IndexOf, FieldIdOf, EqualsDatatype, ToArrowFields, Compare;
    var table := ToArrowFields(s.table.fields);
    if table.Err? { return Err; }
    TableIdsParse(s.table.fields);
    var mapped := BuildFieldIdMap(table.value);
    var target := Collect(s.projected, id => MappedTarget(s, mapped.value, id));
    SameCollected(s.projected, id => MappedTarget(s, mapped.value, id), id => TargetField(s, table.value, id));
    if target.Err? { return Err; }
    var comparison := CompareSchemas(source, target.value);
    match comparison
    case Equivalent => r := Ok(PassThrough);
    case NameChangesOnly => r := Ok(ModifySchema(target.value));
    case Different =>
      var sources := BuildFieldIdMap(source);
      if sources.Err? { return Err; }
      var operations := Collect(s.projected, id => MappedOperation(s, mapped.value, sources.value, id));
      SameCollected(s.projected, id => MappedOperation(s, mapped.value, sources.value, id),
                    id => Operation(s, table.value, source, id));
      r := if operations.Ok? then Ok(Modify(target.value, operations.value)) else Err;
  }

  // ---- the transformer ----

  class RecordBatchTransformer {
    const setup: Setup
    const kernels: Kernels
    var batchTransform: Option<BatchTransform>

    constructor (setup: Setup, kernels: Kernels)
      ensures this.setup == setup && this.kernels == kernels && batchTransform == None
    {
      this.setup := setup;
      this.kernels := kernels;
      batchTransform := None;
    }

    /** The plan of the first batch that has one is used for every batch after it; a failed plan is not kept. */
    method ProcessRecordBatch(b: RecordBatch) returns (r: Result<RecordBatch>)
      modifies this
      ensures match old(batchTransform)
              case Some(t) => batchTransform == Some(t) && r == Apply(kernels, t, b)
              case None =>
                match Generate(setup, b.schema)
                case Err => batchTransform == None && r == Err
                case Ok(t) => batchTransform == Some(t) && r == Apply(kernels, t, b)
    {
      hide Generate, Apply;
      match batchTransform
      case Some(t) => r := Apply(kernels, t, b);
      case None =>
        var t := GenerateBatchTransform(setup, b.schema);
        if t.Err? { return Err; }
        batchTransform := Some(t.value);
        r := Apply(kernels, t.value, b);
    }

    /**
     A whole stream of batches of one sound schema: each output agrees with resolving that batch afresh, rows
     included. Batches without any column fail when something is projected.
     */
    method ProcessStream(batches: seq<RecordBatch>) returns (outs: seq<Result<RecordBatch>>)
      requires batchTransform == None && Indexed(setup.table)
      requires forall i, j :: 0 <= i < j < |batches| ==> batches[i].schema == batches[j].schema
      requires forall i :: 0 <= i < |batches| ==> BatchOk(batches[i]) && Sound(setup, batches[i].schema)
      modifies this
      ensures |outs| == |batches|
      ensures forall i :: 0 <= i < |batches| ==>
                if batches[i].columns == [] && setup.projected != [] then outs[i].Err?
                else Agrees(outs[i], Expected(setup, kernels, batches[i]))
      ensures forall i :: 0 <= i < |batches| && outs[i].Ok? ==>
                            outs[i].value.rows == batches[i].rows && BatchOk(outs[i].value)
      ensures forall i :: 0 <= i < |batches| && (batches[i].columns != [] || setup.projected == []) ==>
                if outs[i].Ok? then IsResult(setup, kernels, batches[i], outs[i].value)
                else forall out :: !IsResult(setup, kernels, batches[i], out)
    {
      hide IsResult;
      hide Generate, Apply, Agrees, Expected, BatchOk, Sound, Indexed;
      outs := [];
      for i := 0 to |batches|
        invariant |outs| == i
        invariant batchTransform.Some? ==>
                    forall j :: 0 <= j < |batches| ==> Generate(setup, batches[j].schema) == Ok(batchTransform.value)
        invariant forall j :: 0 <= j < i ==>
                    if batches[j].columns == [] && setup.projected != [] then outs[j].Err?
                    else Agrees(outs[j], Expected(setup, kernels, batches[j]))
        invariant forall j :: 0 <= j < i && outs[j].Ok? ==>
                                outs[j].value.rows == batches[j].rows && BatchOk(outs[j].value)
      {
        PlanIsExact(setup, kernels, batches[i]);
        var r := ProcessRecordBatch(batches[i]);
        assert forall j :: 0 <= j < |batches| ==> batches[j].schema == batches[i].schema;
        outs := outs + [r];
      }
      forall i | 0 <= i < |batches| && (batches[i].columns != [] || setup.projected == [])
        ensures if outs[i].Ok? then IsResult(setup, kernels, batches[i], outs[i].value)
                else forall out :: !IsResult(setup, kernels, batches[i], out)
      {
        AgreeingIsResult(setup, kernels, batches[i], outs[i]);
      }
    }
  }
}
