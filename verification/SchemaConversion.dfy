/** Conversion between table types and column types, in both directions. */
module SchemaConversion {
  import opened Prelude
  import opened Decimals
  import opened ArrowTypes
  import I = IcebergTypes

  const UTC_TIME_ZONE := "+00:00"

  // ---- table type to column type ----

  predicate DecimalConverts(precision: u32, scale: u32) { 0 < precision <= 38 && scale <= precision }

  function ToArrowPrimitive(p: I.PrimitiveType): Result<DataType> {
    match p
    case Boolean => Ok(Leaf(Boolean))
    case Int => Ok(Leaf(Int32))
    case Long => Ok(Leaf(Int64))
    case Float => Ok(Leaf(Float32))
    case Double => Ok(Leaf(Float64))
    case Decimal(precision, scale) =>
      if precision > 0xFF || scale > 0x7F then Err                                // does not fit u8 and i8
      else if precision == 0 || precision > 38 || scale > 38 || scale > precision then Err
      else Ok(Leaf(Decimal128(precision, scale)))
    case Date => Ok(Leaf(Date32))
    case Time => Ok(Leaf(Time64(Microsecond)))
    case Timestamp => Ok(Leaf(LeafType.Timestamp(Microsecond, None)))
    case Timestamptz => Ok(Leaf(LeafType.Timestamp(Microsecond, Some(UTC_TIME_ZONE))))
    case TimestampNs => Ok(Leaf(LeafType.Timestamp(Nanosecond, None)))
    case TimestamptzNs => Ok(Leaf(LeafType.Timestamp(Nanosecond, Some(UTC_TIME_ZONE))))
    case String => Ok(Leaf(Utf8))
    case Uuid => Ok(Leaf(FixedSizeBinary(16)))
    case Fixed(length) => Ok(Leaf(if length <= MAX_I32 then FixedSizeBinary(length) else LargeBinary))
    case Binary => Ok(Leaf(LargeBinary))
  }

  function ToArrow(t: I.Type): Result<DataType>
    decreases t
  {
    match t
    case Primitive(p) => ToArrowPrimitive(p)
    case Struct(fields) =>
      var fs :- ToArrowFields(fields);
      Ok(Struct(fs))
    case List(element) =>
      var e :- ToArrowField(element);
      Ok(List(e))
    case Map(key, value) =>
      var k :- ToArrowField(key);
      var v :- ToArrowField(value);
      Ok(Map(Field(MAP_ENTRY_NAME, Struct([k, v]), false, map[]), false))
  }

  function ToArrowField(f: I.NestedField): Result<Field>
    decreases f
  {
    var d :- ToArrow(f.fieldType);
    Ok(Field(f.name, d, !f.required, IdAndDoc(f.id, f.doc)))
  }

  function ToArrowFields(fs: seq<I.NestedField>): (r: Result<seq<Field>>)
    ensures r.Ok? ==> |r.value| == |fs|
    decreases fs
  {
    if fs == [] then Ok([])
    else
      var front :- ToArrowFields(fs[..|fs| - 1]);
      var last :- ToArrowField(fs[|fs| - 1]);
      Ok(front + [last])
  }

  // ---- column type to table type ----

  function Unsigned64(w: i32): u64 { if w < 0 then w + TWO_64 else w }

  function Unsigned32(s: int): u32 { s % TWO_32 }

  function FromArrowPrimitive(l: LeafType): Result<I.PrimitiveType> {
    match l
    case Boolean => Ok(I.Boolean)
    case Int8 => Ok(I.Int)
    case Int16 => Ok(I.Int)
    case Int32 => Ok(I.Int)
    case UInt8 => Ok(I.Int)
    case UInt16 => Ok(I.Int)
    case UInt32 => Ok(I.Long)
    case Int64 => Ok(I.Long)
    case Float32 => Ok(I.Float)
    case Float64 => Ok(I.Double)
    case Decimal128(precision, scale) =>
      if 0 < precision <= 38 then Ok(I.Decimal(precision, Unsigned32(scale))) else Err
    case Date32 => Ok(I.Date)
    case Time64(Microsecond) => Ok(I.Time)
    case Timestamp(unit, zone) =>
      if zone.Some? && zone.value != "UTC" && zone.value != UTC_TIME_ZONE then Err
      else if unit == Microsecond then Ok(if zone.None? then I.Timestamp else I.Timestamptz)
      else if unit == Nanosecond then Ok(if zone.None? then I.TimestampNs else I.TimestamptzNs)
      else Err
    case Binary => Ok(I.Binary)
    case LargeBinary => Ok(I.Binary)
    case BinaryView => Ok(I.Binary)
    case FixedSizeBinary(width) => Ok(I.Fixed(Unsigned64(width)))
    case Utf8 => Ok(I.String)
    case LargeUtf8 => Ok(I.String)
    case Utf8View => Ok(I.String)
    case _ => Err
  }

  /** The column types that are read as truth values and as each integer type of the table. */
  lemma {:induction false} ReadAsInteger(l: LeafType)
    ensures FromArrowPrimitive(l) == Ok(I.Boolean) <==> l == Boolean
    ensures FromArrowPrimitive(l) == Ok(I.Int) <==> l == Int8 || l == Int16 || l == Int32 || l == UInt8 || l == UInt16
    ensures FromArrowPrimitive(l) == Ok(I.Long) <==> l == Int64 || l == UInt32
  {
    hide Unsigned32, Unsigned64;
  }

  lemma {:induction false} ReadAsFloating(l: LeafType)
    ensures FromArrowPrimitive(l) == Ok(I.Float) <==> l == Float32
    ensures FromArrowPrimitive(l) == Ok(I.Double) <==> l == Float64
  {
    hide Unsigned32, Unsigned64;
  }

  lemma {:induction false} ReadAsDecimal(l: LeafType, precision: u32, scale: u32)
    ensures FromArrowPrimitive(l) == Ok(I.Decimal(precision, scale)) <==>
            l.Decimal128? && l.precision == precision && 0 < precision <= 38 && (l.scale - scale) % TWO_32 == 0
  {
    hide Unsigned32, Unsigned64;
    if l.Decimal128? { SameUnsigned(l.scale, scale); }
  }

  /** What is not read as any table type. */
  lemma {:induction false} NotRead(l: LeafType)
    ensures FromArrowPrimitive(l).Err? <==>
            match l
            case Decimal128(precision, _) => precision <= 0 || precision > 38
            case Time64(unit) => unit != Microsecond
            case Timestamp(unit, zone) =>
              unit == Second || unit == Millisecond || zone !in [None, Some("UTC"), Some("+00:00")]
            case _ =>
              l == UInt64 || l == Float16 || l.Decimal256? || l == Date64 || l.Time32? || l.Duration? || l == Interval
  {
    hide Unsigned32, Unsigned64;
  }

  /** As each time type: no zone, or one of the two spellings of UTC. */
  lemma {:induction false} ReadAsTime(l: LeafType)
    ensures FromArrowPrimitive(l) == Ok(I.Date) <==> l == Date32
    ensures FromArrowPrimitive(l) == Ok(I.Time) <==> l == Time64(Microsecond)
    ensures FromArrowPrimitive(l) == Ok(I.Timestamp) <==> l == LeafType.Timestamp(Microsecond, None)
    ensures FromArrowPrimitive(l) == Ok(I.TimestampNs) <==> l == LeafType.Timestamp(Nanosecond, None)
    ensures FromArrowPrimitive(l) == Ok(I.Timestamptz) <==>
            l == LeafType.Timestamp(Microsecond, Some("UTC")) || l == LeafType.Timestamp(Microsecond, Some("+00:00"))
    ensures FromArrowPrimitive(l) == Ok(I.TimestamptzNs) <==>
            l == LeafType.Timestamp(Nanosecond, Some("UTC")) || l == LeafType.Timestamp(Nanosecond, Some("+00:00"))
  {
    hide Unsigned32, Unsigned64;
  }

  /** As text or bytes of each kind; no column is read as a UUID. */
  lemma {:induction false} ReadAsBytes(l: LeafType, length: u64)
    ensures FromArrowPrimitive(l) == Ok(I.String) <==> l == Utf8 || l == LargeUtf8 || l == Utf8View
    ensures FromArrowPrimitive(l) == Ok(I.Binary) <==> l == LeafType.Binary || l == LargeBinary || l == BinaryView
    ensures FromArrowPrimitive(l) == Ok(I.Fixed(length)) <==>
            l.FixedSizeBinary? && (l.width == length || l.width == length - TWO_64)
    ensures FromArrowPrimitive(l) != Ok(I.Uuid)
  {
    hide Unsigned32, Unsigned64;
    if l.FixedSizeBinary? { SameWidth(l.width, length); }
  }

  lemma {:induction false} SameUnsigned(a: int, b: u32)
    ensures Unsigned32(a) == b <==> (a - b) % TWO_32 == 0
  {
  }

  lemma {:induction false} SameWidth(w: i32, n: u64)
    ensures Unsigned64(w) == n <==> w == n || w == n - TWO_64
  {
  }

  /** The least and the greatest value of an integer column. */
  function IntegerRange(l: LeafType): Option<(int, int)> {
    match l
    case Int8 => Some((-0x80, 0x7F))
    case Int16 => Some((-0x8000, 0x7FFF))
    case Int32 => Some((-0x8000_0000, 0x7FFF_FFFF))
    case Int64 => Some((-0x8000_0000_0000_0000, 0x7FFF_FFFF_FFFF_FFFF))
    case UInt8 => Some((0, 0xFF))
    case UInt16 => Some((0, 0xFFFF))
    case UInt32 => Some((0, 0xFFFF_FFFF))
    case UInt64 => Some((0, 0xFFFF_FFFF_FFFF_FFFF))
    case _ => None
  }

  /** An integer column is read as the smallest table type that holds all its values, or not at all. */
  lemma {:induction false} IntegersWiden(l: LeafType)
    requires IntegerRange(l).Some?
    ensures var (least, greatest) := IntegerRange(l).value;
            FromArrowPrimitive(l) ==
            if -0x8000_0000 <= least && greatest <= 0x7FFF_FFFF then Ok(I.Int)
            else if -0x8000_0000_0000_0000 <= least && greatest <= 0x7FFF_FFFF_FFFF_FFFF then Ok(I.Long)
            else Err
  {
  }

  /** A value, and the next temporary id. */
  type Step<T> = Result<(T, nat)>

  /** `get_field_id`: the id in the metadata, or a fresh temporary one; running out of 32-bit ids is a failure. */
  function IdFor(f: Field, assign: bool, next: nat): Step<i32> {
    if assign then (if next < MAX_I32 then Ok((next, next + 1)) else Err)
    else match FieldIdOf(f)
      case None => Err
      case Some(id) => Ok((id, next))
  }

  function NestedOf(f: Field, id: i32, name: string, required: bool, t: I.Type): I.NestedField {
    I.NestedField(id, name, required, t, DocOf(f), None, None)
  }

  function Convert(d: DataType, assign: bool, next: nat): Step<I.Type>
    decreases d
  {
    match d
    case Leaf(l) =>
      var p :- FromArrowPrimitive(l);
      Ok((I.Primitive(p), next))
    case List(e) => ConvertList(e, assign, next)
    case LargeList(e) => ConvertList(e, assign, next)
    case FixedSizeList(e, _) => ConvertList(e, assign, next)
    case Map(entry, _) =>
      (match entry.dataType
       case Struct(fields) => if |fields| != 2 then Err else ConvertMap(fields, assign, next)
       case _ => Err)
    case Struct(fields) =>
      var (types, n1) :- ConvertTypes(fields, assign, next);
      var (nested, n2) :- NestedFields(fields, types, assign, n1);
      Ok((I.Struct(nested), n2))
    case Dictionary(_, values) => Convert(values, assign, next)
    case RunEndEncoded(_, _) => Err
    case Null => Err
  }

  function ConvertMap(fields: seq<Field>, assign: bool, next: nat): Step<I.Type>
    requires |fields| == 2
    decreases fields
  {
    var key, value := fields[0], fields[1];
    var (k, n1) :- Convert(key.dataType, assign, next);
    var (v, n2) :- Convert(value.dataType, assign, n1);
    var (kid, n3) :- IdFor(key, assign, n2);
    var (vid, n4) :- IdFor(value, assign, n3);
    Ok((I.Map(NestedOf(key, kid, I.MAP_KEY_FIELD_NAME, true, k),
              NestedOf(value, vid, I.MAP_VALUE_FIELD_NAME, !value.nullable, v)), n4))
  }

  function ConvertList(e: Field, assign: bool, next: nat): Step<I.Type>
    decreases e
  {
    var (t, n1) :- Convert(e.dataType, assign, next);
    var (id, n2) :- IdFor(e, assign, n1);
    Ok((I.List(NestedOf(e, id, I.LIST_FIELD_NAME, !e.nullable, t)), n2))
  }

  function ConvertTypes(fields: seq<Field>, assign: bool, next: nat): (r: Step<seq<I.Type>>)
    ensures r.Ok? ==> |r.value.0| == |fields|
    decreases fields
  {
    if fields == [] then Ok(([], next))
    else
      var (front, n1) :- ConvertTypes(fields[..|fields| - 1], assign, next);
      var (last, n2) :- Convert(fields[|fields| - 1].dataType, assign, n1);
      Ok((front + [last], n2))
  }

  /** `convert_fields`: the ids of a struct's own fields are taken after those of all nested ones. */
  function NestedFields(fields: seq<Field>, types: seq<I.Type>, assign: bool, next: nat): (r: Step<seq<I.NestedField>>)
    requires |types| == |fields|
    ensures r.Ok? ==> |r.value.0| == |fields|
    decreases fields
  {
    if fields == [] then Ok(([], next))
    else
      var n := |fields| - 1;
      var (front, n1) :- NestedFields(fields[..n], types[..n], assign, next);
      var (id, n2) :- IdFor(fields[n], assign, n1);
      Ok((front + [NestedOf(fields[n], id, fields[n].name, !fields[n].nullable, types[n])], n2))
  }

  // ---- what survives a round trip ----

  function NormalizePrimitive(p: I.PrimitiveType): I.PrimitiveType {
    match p
    case Uuid => I.Fixed(16)
    case Fixed(length) => if length <= MAX_I32 then p else I.Binary
    case _ => p
  }

  function Normalize(t: I.Type): I.Type
    decreases t
  {
    match t
    case Primitive(p) => I.Primitive(NormalizePrimitive(p))
    case Struct(fields) => I.Struct(NormalizeFields(fields))
    case List(element) => I.List(NormalizeField(element, I.LIST_FIELD_NAME, element.required))
    case Map(key, value) =>
      I.Map(NormalizeField(key, I.MAP_KEY_FIELD_NAME, true),
          NormalizeField(value, I.MAP_VALUE_FIELD_NAME, value.required))
  }

  /** The id and the documentation stay, the defaults are dropped. */
  function NormalizeField(f: I.NestedField, name: string, required: bool): I.NestedField
    decreases f
  {
    I.NestedField(f.id, name, required, Normalize(f.fieldType), f.doc, None, None)
  }

  function NormalizeFields(fs: seq<I.NestedField>): (r: seq<I.NestedField>)
    ensures |r| == |fs|
    decreases fs
  {
    if fs == [] then []
    else
      var last := fs[|fs| - 1];
      NormalizeFields(fs[..|fs| - 1]) + [NormalizeField(last, last.name, last.required)]
  }

  function FieldTypes(fs: seq<I.NestedField>): (r: seq<I.Type>)
    ensures |r| == |fs|
  {
    if fs == [] then [] else FieldTypes(fs[..|fs| - 1]) + [fs[|fs| - 1].fieldType]
  }

  // ---- which types convert ----

  /** Every decimal, at any depth, has a precision of 1 to 38 and a scale no larger than it. */
  predicate Convertible(t: I.Type)
    decreases t
  {
    match t
    case Primitive(Decimal(precision, scale)) => DecimalConverts(precision, scale)
    case Primitive(_) => true
    case Struct(fields) => AllConvertible(fields)
    case List(element) => Convertible(element.fieldType)
    case Map(key, value) => Convertible(key.fieldType) && Convertible(value.fieldType)
  }

  predicate AllConvertible(fs: seq<I.NestedField>)
    decreases fs
  {
    fs == [] || (AllConvertible(fs[..|fs| - 1]) && Convertible(fs[|fs| - 1].fieldType))
  }

  /** A table type converts exactly when its decimals fit the column type. */
  lemma {:induction false} ConvertsWhen(t: I.Type)
    ensures ToArrow(t).Ok? <==> Convertible(t)
    decreases t
  {
    match t
    case Primitive(p) =>
    case Struct(fields) => FieldsConvertWhen(fields);
    case List(element) => ConvertsWhen(element.fieldType);
    case Map(key, value) => ConvertsWhen(key.fieldType); ConvertsWhen(value.fieldType);
  }

  lemma {:induction false} FieldsConvertWhen(fs: seq<I.NestedField>)
    ensures ToArrowFields(fs).Ok? <==> AllConvertible(fs)
    decreases fs
  {
    if fs != [] {
      FieldsConvertWhen(fs[..|fs| - 1]);
      ConvertsWhen(fs[|fs| - 1].fieldType);
    }
  }

  // ---- the round trip ----

  lemma {:induction false} PrimitiveRoundTrip(p: I.PrimitiveType)
    requires ToArrowPrimitive(p).Ok?
    ensures ToArrowPrimitive(p).value.Leaf?
    ensures FromArrowPrimitive(ToArrowPrimitive(p).value.leaf) == Ok(NormalizePrimitive(p))
  {
  }

  lemma {:induction false} FieldRoundTrip(f: I.NestedField, next: nat)
    requires ToArrowField(f).Ok?
    ensures IdFor(ToArrowField(f).value, false, next) == Ok((f.id, next))
    ensures forall name, required, t ::
              NestedOf(ToArrowField(f).value, f.id, name, required, t) ==
                  I.NestedField(f.id, name, required, t, f.doc, None, None)
  {
    MetadataReadBack(ToArrowField(f).value, f.id, f.doc);
  }

  /**
   Converted to a column type and back, a type of any depth comes back normalised: ids, documentation and nullability
   are kept everywhere, and only what `Normalize` changes is changed.
   */
  lemma {:induction false} RoundTrip(t: I.Type, next: nat)
    requires ToArrow(t).Ok?
    ensures Convert(ToArrow(t).value, false, next) == Ok((Normalize(t), next))
    decreases t
  {
    hide ToArrowPrimitive, FromArrowPrimitive, NormalizePrimitive, ToArrowFields;
    hide ConvertTypes, NestedFields, NormalizeFields, IdFor, NestedOf;
    match t
    case Primitive(p) =>
      PrimitiveRoundTrip(p);
    case Struct(fields) =>
      FieldsRoundTrip(fields, next);
    case List(element) =>
      RoundTrip(element.fieldType, next);
      FieldRoundTrip(element, next);
    case Map(key, value) =>
      RoundTrip(key.fieldType, next);
      RoundTrip(value.fieldType, next);
      FieldRoundTrip(key, next);
      FieldRoundTrip(value, next);
  }

  lemma {:induction false} FieldsRoundTrip(fs: seq<I.NestedField>, next: nat)
    requires ToArrowFields(fs).Ok?
    ensures var columns, normal := ToArrowFields(fs).value, NormalizeFields(fs);
            && ConvertTypes(columns, false, next) == Ok((FieldTypes(normal), next))
            && NestedFields(columns, FieldTypes(normal), false, next) == Ok((normal, next))
    decreases fs
  {
    if fs != [] {
      var n := |fs| - 1;
      FieldsRoundTrip(fs[..n], next);
      RoundTrip(fs[n].fieldType, next);
      FieldRoundTrip(fs[n], next);
      var columns, normal := ToArrowFields(fs).value, NormalizeFields(fs);
      assert columns[..n] == ToArrowFields(fs[..n]).value;
      assert normal[..n] == NormalizeFields(fs[..n]);
      assert FieldTypes(normal)[..n] == FieldTypes(normal[..n]);
    }
  }

  /** A second trip changes nothing more. */
  lemma {:induction false} NormalizeIdempotent(t: I.Type)
    ensures Normalize(Normalize(t)) == Normalize(t)
    decreases t
  {
    match t
    case Primitive(p) =>
    case Struct(fields) => NormalizeFieldsIdempotent(fields);
    case List(element) => NormalizeIdempotent(element.fieldType);
    case Map(key, value) => NormalizeIdempotent(key.fieldType); NormalizeIdempotent(value.fieldType);
  }

  lemma {:induction false} NormalizeFieldsIdempotent(fs: seq<I.NestedField>)
    ensures NormalizeFields(NormalizeFields(fs)) == NormalizeFields(fs)
    decreases fs
  {
    if fs != [] {
      var n := |fs| - 1;
      NormalizeFieldsIdempotent(fs[..n]);
      NormalizeIdempotent(fs[n].fieldType);
      assert NormalizeFields(fs)[..n] == NormalizeFields(fs[..n]);
    }
  }

  // ---- what is read from columns ----

  /** No fixed-size binary, at any depth that is visited, has a negative width. */
  predicate WidthsOk(d: DataType)
    decreases d
  {
    match d
    case Leaf(FixedSizeBinary(width)) => 0 <= width
    case List(e) => WidthsOk(e.dataType)
    case LargeList(e) => WidthsOk(e.dataType)
    case FixedSizeList(e, _) => WidthsOk(e.dataType)
    case Struct(fields) => AllWidthsOk(fields)
    case Map(entry, _) =>
      (match entry.dataType
       case Struct(fields) => |fields| == 2 ==> WidthsOk(fields[0].dataType) && WidthsOk(fields[1].dataType)
       case _ => true)
    case Dictionary(_, value) => WidthsOk(value)
    case _ => true
  }

  predicate AllWidthsOk(fields: seq<Field>)
    decreases fields
  {
    fields == [] || (AllWidthsOk(fields[..|fields| - 1]) && WidthsOk(fields[|fields| - 1].dataType))
  }

  /** A type read from columns is already normal, unless a negative width was reinterpreted as a huge one. */
  lemma {:induction false} ReadIsNormal(d: DataType, assign: bool, next: nat)
    requires Convert(d, assign, next).Ok?
    ensures var t := Convert(d, assign, next).value.0;
            Normalize(t) == t <==> WidthsOk(d)
    decreases d
  {
    hide IdFor, ConvertTypes, NestedFields, NormalizeFields, AllWidthsOk;
    match d
    case Leaf(l) =>
    case List(e) => ReadIsNormal(e.dataType, assign, next);
    case LargeList(e) => ReadIsNormal(e.dataType, assign, next);
    case FixedSizeList(e, _) => ReadIsNormal(e.dataType, assign, next);
    case Struct(fields) =>
      var (types, n1) := ConvertTypes(fields, assign, next).value;
      FieldsReadAreNormal(fields, assign, next, n1);
    case Map(entry, _) =>
      var fields := entry.dataType.fields;
      var (k, n1) := Convert(fields[0].dataType, assign, next).value;
      ReadIsNormal(fields[0].dataType, assign, next);
      ReadIsNormal(fields[1].dataType, assign, n1);
    case Dictionary(_, value) => ReadIsNormal(value, assign, next);
    case _ =>
  }

  lemma {:induction false} FieldsReadAreNormal(fields: seq<Field>, assign: bool, next: nat, after: nat)
    requires ConvertTypes(fields, assign, next).Ok?
    ensures var r := NestedFields(fields, ConvertTypes(fields, assign, next).value.0, assign, after);
            r.Ok? ==> (NormalizeFields(r.value.0) == r.value.0 <==> AllWidthsOk(fields))
    decreases fields
  {
    hide IdFor, WidthsOk, Convert, Normalize;
    if fields != [] {
      var n := |fields| - 1;
      FieldsReadAreNormal(fields[..n], assign, next, after);
      var (front, n1) := ConvertTypes(fields[..n], assign, next).value;
      ReadIsNormal(fields[n].dataType, assign, n1);
      var types := ConvertTypes(fields, assign, next).value.0;
      assert types[..n] == front;
      var r := NestedFields(fields, types, assign, after);
      if r.Ok? {
        var nested := NestedFields(fields[..n], front, assign, after).value.0;
        assert r.value.0[..n] == nested && r.value.0 == nested + [r.value.0[n]];
        var last := r.value.0[n];
        assert NormalizeFields(r.value.0) == NormalizeFields(nested) + [NormalizeField(last, last.name, last.required)];
        assert NormalizeFields(r.value.0)[..n] == NormalizeFields(nested);
        assert NormalizeFields(r.value.0)[n] == NormalizeField(last, last.name, last.required);
      }
    }
  }

  /** So what was read from columns once, written back, is read the same again. */
  lemma {:induction false} ReadAgain(d: DataType, next: nat)
    requires WidthsOk(d) && Convert(d, false, next).Ok?
    ensures var t := Convert(d, false, next).value.0;
            ToArrow(t).Ok? ==> Convert(ToArrow(t).value, false, next) == Ok((t, next))
  {
    var t := Convert(d, false, next).value.0;
    ReadIsNormal(d, false, next);
    if ToArrow(t).Ok? { RoundTrip(t, next); }
  }

  // ---- which columns are read ----

  /** Every leaf that is visited has a table type, every field an id, and every map an entry of two fields. */
  predicate Readable(d: DataType, assign: bool)
    decreases d
  {
    match d
    case Leaf(l) => FromArrowPrimitive(l).Ok?
    case List(e) => Readable(e.dataType, assign) && HasId(e, assign)
    case LargeList(e) => Readable(e.dataType, assign) && HasId(e, assign)
    case FixedSizeList(e, _) => Readable(e.dataType, assign) && HasId(e, assign)
    case Struct(fields) => AllReadable(fields, assign) && AllHaveIds(fields, assign)
    case Map(entry, _) =>
      (match entry.dataType
       case Struct(fields) =>
         |fields| == 2 && Readable(fields[0].dataType, assign) && Readable(fields[1].dataType, assign) &&
         HasId(fields[0], assign) && HasId(fields[1], assign)
       case _ => false)
    case Dictionary(_, value) => Readable(value, assign)
    case _ => false
  }

  predicate AllReadable(fields: seq<Field>, assign: bool)
    decreases fields
  {
    fields == [] || (AllReadable(fields[..|fields| - 1], assign) && Readable(fields[|fields| - 1].dataType, assign))
  }

  predicate HasId(f: Field, assign: bool) { assign || FieldIdOf(f).Some? }

  predicate AllHaveIds(fields: seq<Field>, assign: bool) { forall i :: 0 <= i < |fields| ==> HasId(fields[i], assign) }

  /** The fields below a column type, at every depth. */
  function FieldCount(d: DataType): nat
    decreases d
  {
    match d
    case List(e) => FieldCount(e.dataType) + 1
    case LargeList(e) => FieldCount(e.dataType) + 1
    case FixedSizeList(e, _) => FieldCount(e.dataType) + 1
    case Struct(fields) => FieldCounts(fields) + |fields|
    case Map(entry, _) =>
      (match entry.dataType
       case Struct(fields) =>
         if |fields| != 2 then 0 else FieldCount(fields[0].dataType) + FieldCount(fields[1].dataType) + 2
       case _ => 0)
    case Dictionary(_, value) => FieldCount(value)
    case _ => 0
  }

  function FieldCounts(fields: seq<Field>): nat
    decreases fields
  {
    if fields == [] then 0 else FieldCounts(fields[..|fields| - 1]) + FieldCount(fields[|fields| - 1].dataType)
  }

  /** There are `n` more temporary ids of 32 bits. */
  predicate Enough(assign: bool, next: nat, n: nat) { assign && n > 0 ==> next + n <= MAX_I32 }

  /** A column type is read exactly when it is readable and the temporary ids, one for each field, suffice. */
  lemma {:induction false} ReadsWhen(d: DataType, assign: bool, next: nat)
    ensures Convert(d, assign, next).Ok? <==> Readable(d, assign) && Enough(assign, next, FieldCount(d))
    ensures Convert(d, assign, next).Ok? ==>
              Convert(d, assign, next).value.1 == if assign then next + FieldCount(d) else next
    decreases d, 1
  {
    hide *;
    match d
    case List(_) => ListTypeReadsWhen(d, assign, next);
    case LargeList(_) => ListTypeReadsWhen(d, assign, next);
    case FixedSizeList(_, _) => ListTypeReadsWhen(d, assign, next);
    case Struct(_) => StructReadsWhen(d, assign, next);
    case Map(_, _) => MapTypeReadsWhen(d, assign, next);
    case Dictionary(_, value) =>
      ReadsWhen(value, assign, next);
      DictionaryReadsWhen(d, assign, next);
    case _ => FlatReadsWhen(d, assign, next);
  }

  lemma {:induction false} FlatReadsWhen(d: DataType, assign: bool, next: nat)
    requires d.Leaf? || d.Null? || d.RunEndEncoded?
    ensures Convert(d, assign, next).Ok? <==> Readable(d, assign) && Enough(assign, next, FieldCount(d))
    ensures Convert(d, assign, next).Ok? ==>
              Convert(d, assign, next).value.1 == if assign then next + FieldCount(d) else next
  {
    hide FromArrowPrimitive;
  }

  lemma {:induction false} DictionaryReadsWhen(d: DataType, assign: bool, next: nat)
    requires d.Dictionary?
    ensures Convert(d, assign, next) == Convert(d.value, assign, next)
    ensures Readable(d, assign) == Readable(d.value, assign) && FieldCount(d) == FieldCount(d.value)
  {
  }

  lemma {:induction false} ListTypeReadsWhen(d: DataType, assign: bool, next: nat)
    requires d.List? || d.LargeList? || d.FixedSizeList?
    ensures Convert(d, assign, next).Ok? <==> Readable(d, assign) && Enough(assign, next, FieldCount(d))
    ensures Convert(d, assign, next).Ok? ==>
              Convert(d, assign, next).value.1 == if assign then next + FieldCount(d) else next
    decreases d, 0
  {
    hide ConvertList, HasId;
    ListReadsWhen(d.element, assign, next);
  }

  lemma {:induction false} StructReadsWhen(d: DataType, assign: bool, next: nat)
    requires d.Struct?
    ensures Convert(d, assign, next).Ok? <==> Readable(d, assign) && Enough(assign, next, FieldCount(d))
    ensures Convert(d, assign, next).Ok? ==>
              Convert(d, assign, next).value.1 == if assign then next + FieldCount(d) else next
    decreases d, 0
  {
    hide ConvertTypes, NestedFields, AllReadable, AllHaveIds, FieldCounts;
    TypesReadWhen(d.fields, assign, next);
    if ConvertTypes(d.fields, assign, next).Ok? {
      var (types, n1) := ConvertTypes(d.fields, assign, next).value;
      FieldsReadWhen(d.fields, types, assign, n1);
    }
  }

  lemma {:induction false} MapTypeReadsWhen(d: DataType, assign: bool, next: nat)
    requires d.Map?
    ensures Convert(d, assign, next).Ok? <==> Readable(d, assign) && Enough(assign, next, FieldCount(d))
    ensures Convert(d, assign, next).Ok? ==>
              Convert(d, assign, next).value.1 == if assign then next + FieldCount(d) else next
    decreases d, 0
  {
    hide ConvertMap, HasId;
    if d.entry.dataType.Struct? && |d.entry.dataType.fields| == 2 {
      MapReadsWhen(d.entry.dataType.fields, assign, next);
    }
  }

  lemma {:induction false} ListReadsWhen(e: Field, assign: bool, next: nat)
    ensures var n := FieldCount(e.dataType) + 1;
            && (ConvertList(e, assign, next).Ok? <==>
                Readable(e.dataType, assign) && HasId(e, assign) && Enough(assign, next, n))
            && (ConvertList(e, assign, next).Ok? ==>
                  ConvertList(e, assign, next).value.1 == if assign then next + n else next)
    decreases e
  {
    hide Convert, Readable, FieldCount, FieldIdOf, NestedOf;
    ReadsWhen(e.dataType, assign, next);
  }

  lemma {:induction false} MapReadsWhen(fields: seq<Field>, assign: bool, next: nat)
    requires |fields| == 2
    ensures var n := FieldCount(fields[0].dataType) + FieldCount(fields[1].dataType) + 2;
            && (ConvertMap(fields, assign, next).Ok? <==>
                && Readable(fields[0].dataType, assign) && Readable(fields[1].dataType, assign)
                && HasId(fields[0], assign) && HasId(fields[1], assign) && Enough(assign, next, n))
            && (ConvertMap(fields, assign, next).Ok? ==>
                  ConvertMap(fields, assign, next).value.1 == if assign then next + n else next)
    decreases fields
  {
    hide Convert, Readable, FieldCount, FieldIdOf, NestedOf;
    ReadsWhen(fields[0].dataType, assign, next);
    ReadsWhen(fields[1].dataType, assign, if assign then next + FieldCount(fields[0].dataType) else next);
  }

  lemma {:induction false} TypesReadWhen(fields: seq<Field>, assign: bool, next: nat)
    ensures ConvertTypes(fields, assign, next).Ok? <==>
            AllReadable(fields, assign) && Enough(assign, next, FieldCounts(fields))
    ensures ConvertTypes(fields, assign, next).Ok? ==>
              ConvertTypes(fields, assign, next).value.1 == if assign then next + FieldCounts(fields) else next
    decreases fields
  {
    hide Convert, Readable, FieldCount;
    if fields != [] {
      var n := |fields| - 1;
      TypesReadWhen(fields[..n], assign, next);
      ReadsWhen(fields[n].dataType, assign, if assign then next + FieldCounts(fields[..n]) else next);
    }
  }

  lemma {:induction false} FieldsReadWhen(fields: seq<Field>, types: seq<I.Type>, assign: bool, next: nat)
    requires |types| == |fields|
    ensures NestedFields(fields, types, assign, next).Ok? <==>
            AllHaveIds(fields, assign) && Enough(assign, next, |fields|)
    ensures NestedFields(fields, types, assign, next).Ok? ==>
              NestedFields(fields, types, assign, next).value.1 == if assign then next + |fields| else next
    decreases fields
  {
    hide FieldIdOf, NestedOf;
    if fields != [] {
      var n := |fields| - 1;
      FieldsReadWhen(fields[..n], types[..n], assign, next);
      assert AllHaveIds(fields, assign) <==> AllHaveIds(fields[..n], assign) && HasId(fields[n], assign);
    }
  }

  /** The names that nested fields get, whatever they are called in the columns; keys are required. */
  lemma {:induction false} NestedNames(d: DataType, assign: bool, next: nat)
    requires Convert(d, assign, next).Ok?
    ensures var t := Convert(d, assign, next).value.0;
            && (d.List? || d.LargeList? || d.FixedSizeList? ==>
                  t.List? && t.element.name == "element" && t.element.required == !d.element.nullable)
            && (d.Map? ==>
                  && t.Map? && t.key.name == "key" && t.value.name == "value" && t.key.required
                  && t.value.required == !d.entry.dataType.fields[1].nullable)
  {
    hide IdFor, FromArrowPrimitive, ConvertTypes, NestedFields;
  }

  // ---- the forms that writing produces stand for all others ----

  /** The column type that writing would produce: one kind of list and of map, and no dictionaries. */
  function Plain(d: DataType): DataType
    decreases d
  {
    match d
    case List(e) => List(PlainField(e))
    case LargeList(e) => List(PlainField(e))
    case FixedSizeList(e, _) => List(PlainField(e))
    case Struct(fields) => Struct(PlainFields(fields))
    case Map(entry, _) =>
      (match entry.dataType
       case Struct(fields) =>
         if |fields| != 2 then d
         else Map(Field(MAP_ENTRY_NAME, Struct([PlainField(fields[0]), PlainField(fields[1])]), false, map[]), false)
       case _ => d)
    case Dictionary(_, value) => Plain(value)
    case _ => d
  }

  function PlainField(f: Field): Field
    decreases f
  {
    f.(dataType := Plain(f.dataType))
  }

  function PlainFields(fields: seq<Field>): (r: seq<Field>)
    ensures |r| == |fields|
    decreases fields
  {
    if fields == [] then [] else PlainFields(fields[..|fields| - 1]) + [PlainField(fields[|fields| - 1])]
  }

  /** Every column type is read as its plain form is, ids included. */
  lemma {:induction false} ReadAsPlain(d: DataType, assign: bool, next: nat)
    ensures Convert(d, assign, next) == Convert(Plain(d), assign, next)
    decreases d
  {
    hide FromArrowPrimitive, ConvertTypes, NestedFields, PlainFields, ConvertList, ConvertMap, PlainField;
    match d
    case List(e) => ListReadAsPlain(e, assign, next);
    case LargeList(e) => ListReadAsPlain(e, assign, next);
    case FixedSizeList(e, _) => ListReadAsPlain(e, assign, next);
    case Struct(fields) =>
      FieldsReadAsPlain(fields, assign, next);
      if ConvertTypes(fields, assign, next).Ok? {
        var (types, n1) := ConvertTypes(fields, assign, next).value;
        PlainFieldsNested(fields, types, assign, n1);
      }
    case Map(entry, _) =>
      if entry.dataType.Struct? && |entry.dataType.fields| == 2 { MapReadAsPlain(entry.dataType.fields, assign, next); }
    case Dictionary(_, value) => ReadAsPlain(value, assign, next);
    case _ =>
  }

  lemma {:induction false} ListReadAsPlain(e: Field, assign: bool, next: nat)
    ensures ConvertList(e, assign, next) == ConvertList(PlainField(e), assign, next)
    decreases e
  {
    hide Convert, Plain;
    ReadAsPlain(e.dataType, assign, next);
  }

  lemma {:induction false} MapReadAsPlain(fields: seq<Field>, assign: bool, next: nat)
    requires |fields| == 2
    ensures ConvertMap(fields, assign, next) ==
            ConvertMap([PlainField(fields[0]), PlainField(fields[1])], assign, next)
    decreases fields
  {
    hide Convert, Plain;
    ReadAsPlain(fields[0].dataType, assign, next);
    if Convert(fields[0].dataType, assign, next).Ok? {
      ReadAsPlain(fields[1].dataType, assign, Convert(fields[0].dataType, assign, next).value.1);
    }
  }

  lemma {:induction false} FieldsReadAsPlain(fields: seq<Field>, assign: bool, next: nat)
    ensures ConvertTypes(fields, assign, next) == ConvertTypes(PlainFields(fields), assign, next)
    decreases fields
  {
    hide Convert, Plain;
    if fields != [] {
      var n := |fields| - 1;
      FieldsReadAsPlain(fields[..n], assign, next);
      assert PlainFields(fields)[..n] == PlainFields(fields[..n]);
      if ConvertTypes(fields[..n], assign, next).Ok? {
        ReadAsPlain(fields[n].dataType, assign, ConvertTypes(fields[..n], assign, next).value.1);
      }
    }
  }

  lemma {:induction false} PlainFieldsNested(fields: seq<Field>, types: seq<I.Type>, assign: bool, next: nat)
    requires |types| == |fields|
    ensures NestedFields(fields, types, assign, next) == NestedFields(PlainFields(fields), types, assign, next)
    decreases fields
  {
    hide IdFor, NestedOf, PlainField, FieldIdOf;
    if fields != [] {
      var n := |fields| - 1;
      PlainFieldsNested(fields[..n], types[..n], assign, next);
      assert PlainFields(fields)[..n] == PlainFields(fields[..n]) && PlainFields(fields)[n] == PlainField(fields[n]);
      var front := NestedFields(fields[..n], types[..n], assign, next);
      if front.Ok? {
        PlainIdSame(fields[n], assign, front.value.1);
        var id := IdFor(fields[n], assign, front.value.1);
        if id.Ok? { PlainFieldSame(fields[n], id.value.0, types[n]); }
      }
    }
  }

  lemma {:induction false} PlainIdSame(f: Field, assign: bool, next: nat)
    ensures IdFor(PlainField(f), assign, next) == IdFor(f, assign, next)
  {
    hide Plain;
  }

  lemma {:induction false} PlainFieldSame(f: Field, id: i32, t: I.Type)
    ensures NestedOf(PlainField(f), id, PlainField(f).name, !PlainField(f).nullable, t) ==
            NestedOf(f, id, f.name, !f.nullable, t)
  {
    hide Plain;
  }

  /** What writing produces is plain: map entries are called "key_value", not null and not sorted. */
  lemma {:induction false} WrittenIsPlain(t: I.Type)
    requires ToArrow(t).Ok?
    ensures Plain(ToArrow(t).value) == ToArrow(t).value
    decreases t
  {
    hide ToArrowPrimitive, ToArrowFields, PlainFields, IdAndDoc;
    match t
    case Primitive(p) => PrimitiveRoundTrip(p);
    case Struct(fields) => WrittenFieldsArePlain(fields);
    case List(element) => WrittenIsPlain(element.fieldType);
    case Map(key, value) => WrittenIsPlain(key.fieldType); WrittenIsPlain(value.fieldType);
  }

  lemma {:induction false} WrittenFieldsArePlain(fs: seq<I.NestedField>)
    requires ToArrowFields(fs).Ok?
    ensures PlainFields(ToArrowFields(fs).value) == ToArrowFields(fs).value
    decreases fs
  {
    hide ToArrow, Plain, IdAndDoc;
    if fs != [] {
      var n := |fs| - 1;
      WrittenFieldsArePlain(fs[..n]);
      WrittenIsPlain(fs[n].fieldType);
      assert ToArrowFields(fs).value[..n] == ToArrowFields(fs[..n]).value;
    }
  }

  // ---- temporary ids ----

  /** The ids of a type in the order they are assigned. */
  function Ids(t: I.Type): seq<int>
    decreases t
  {
    match t
    case Primitive(_) => []
    case Struct(fields) => InnerIds(fields) + OwnIds(fields)
    case List(element) => Ids(element.fieldType) + [element.id]
    case Map(key, value) => Ids(key.fieldType) + Ids(value.fieldType) + [key.id, value.id]
  }

  function InnerIds(fs: seq<I.NestedField>): seq<int>
    decreases fs
  {
    if fs == [] then [] else InnerIds(fs[..|fs| - 1]) + Ids(fs[|fs| - 1].fieldType)
  }

  function OwnIds(fs: seq<I.NestedField>): seq<int> {
    if fs == [] then [] else OwnIds(fs[..|fs| - 1]) + [fs[|fs| - 1].id]
  }

  function Range(from: nat, to: nat): (r: seq<int>)
    requires from <= to
    ensures |r| == to - from && forall i :: 0 <= i < |r| ==> r[i] == from + i
  {
    seq(to - from, i => from + i)
  }

  function TypeIds(types: seq<I.Type>): seq<int> {
    if types == [] then [] else TypeIds(types[..|types| - 1]) + Ids(types[|types| - 1])
  }

  /** Without ids in the metadata, every field at every depth gets its own: consecutive numbers, none used twice. */
  lemma {:induction false} TemporaryIds(d: DataType, next: nat)
    requires Convert(d, true, next).Ok?
    ensures var (t, after) := Convert(d, true, next).value;
            next <= after && Ids(t) == Range(next, after)
    decreases d
  {
    hide FromArrowPrimitive, ConvertTypes, NestedFields, InnerIds, OwnIds, Ids, ConvertList, ConvertMap, Range;
    match d
    case Leaf(l) => NoIds(d, next);
    case List(e) => TemporaryListIds(e, next);
    case LargeList(e) => TemporaryListIds(e, next);
    case FixedSizeList(e, _) => TemporaryListIds(e, next);
    case Struct(fields) =>
      var (types, n1) := ConvertTypes(fields, true, next).value;
      var (nested, n2) := NestedFields(fields, types, true, n1).value;
      TemporaryTypeIds(fields, next);
      TemporaryFieldIds(fields, types, n1);
      StructIds(nested);
    case Map(entry, _) => TemporaryMapIds(entry.dataType.fields, next);
    case Dictionary(_, value) => TemporaryIds(value, next);
    case _ =>
  }

  lemma {:induction false} StructIds(nested: seq<I.NestedField>)
    ensures Ids(I.Struct(nested)) == InnerIds(nested) + OwnIds(nested)
  {
  }

  lemma {:induction false} NoIds(d: DataType, next: nat)
    requires d.Leaf? && Convert(d, true, next).Ok?
    ensures Ids(Convert(d, true, next).value.0) == Range(next, next)
  {
  }

  lemma {:induction false} TemporaryListIds(e: Field, next: nat)
    requires ConvertList(e, true, next).Ok?
    ensures var (t, after) := ConvertList(e, true, next).value;
            next <= after && Ids(t) == Range(next, after)
    decreases e
  {
    hide Convert;
    TemporaryIds(e.dataType, next);
    var (t, n1) := Convert(e.dataType, true, next).value;
  }

  lemma {:induction false} TemporaryMapIds(fields: seq<Field>, next: nat)
    requires |fields| == 2 && ConvertMap(fields, true, next).Ok?
    ensures var (t, after) := ConvertMap(fields, true, next).value;
            next <= after && Ids(t) == Range(next, after)
    decreases fields
  {
    hide Convert;
    var key, value := fields[0], fields[1];
    var (k, n1) := Convert(key.dataType, true, next).value;
    var (v, n2) := Convert(value.dataType, true, n1).value;
    TemporaryIds(key.dataType, next);
    TemporaryIds(value.dataType, n1);
  }

  lemma {:induction false} TemporaryTypeIds(fields: seq<Field>, next: nat)
    requires ConvertTypes(fields, true, next).Ok?
    ensures var (types, after) := ConvertTypes(fields, true, next).value;
            next <= after && TypeIds(types) == Range(next, after)
    decreases fields
  {
    if fields != [] {
      var n := |fields| - 1;
      TemporaryTypeIds(fields[..n], next);
      var (front, n1) := ConvertTypes(fields[..n], true, next).value;
      TemporaryIds(fields[n].dataType, n1);
      assert ConvertTypes(fields, true, next).value.0[..n] == front;
    }
  }

  lemma {:induction false} TemporaryFieldIds(fields: seq<Field>, types: seq<I.Type>, next: nat)
    requires |types| == |fields| && NestedFields(fields, types, true, next).Ok?
    ensures var (nested, after) := NestedFields(fields, types, true, next).value;
            next <= after && OwnIds(nested) == Range(next, after) && InnerIds(nested) == TypeIds(types)
    decreases fields
  {
    if fields != [] {
      var n := |fields| - 1;
      TemporaryFieldIds(fields[..n], types[..n], next);
      var (front, n1) := NestedFields(fields[..n], types[..n], true, next).value;
      assert NestedFields(fields, types, true, next).value.0[..n] == front;
    }
  }

  // ---- the visitor ----

  /** A method's result and its new counter are what the specification step says. */
  ghost predicate Took<T>(r: Result<T>, next: nat, step: Step<T>) {
    if r.Ok? then step == Ok((r.value, next)) else step.Err?
  }

  lemma {:induction false} ConvertTypesStep(fields: seq<Field>, assign: bool, next: nat, i: nat)
    requires i < |fields| && ConvertTypes(fields[..i], assign, next).Ok?
    ensures var (front, n1) := ConvertTypes(fields[..i], assign, next).value;
            ConvertTypes(fields[..i + 1], assign, next) ==
            match Convert(fields[i].dataType, assign, n1)
            case Err => Err
            case Ok((last, n2)) => Ok((front + [last], n2))
    ensures ConvertTypes(fields[..i + 1], assign, next).Err? ==> ConvertTypes(fields, assign, next).Err?
  {
    hide Convert;
    assert fields[..i + 1][..i] == fields[..i];
    if ConvertTypes(fields[..i + 1], assign, next).Err? { TypesFailEarly(fields, assign, next, i + 1); }
  }

  lemma {:induction false} TypesFailEarly(fields: seq<Field>, assign: bool, next: nat, i: nat)
    requires i <= |fields| && ConvertTypes(fields[..i], assign, next).Err?
    ensures ConvertTypes(fields, assign, next).Err?
    decreases |fields|
  {
    hide Convert;
    if i == |fields| {
      assert fields[..i] == fields;
    } else {
      assert fields[..|fields| - 1][..i] == fields[..i];
      TypesFailEarly(fields[..|fields| - 1], assign, next, i);
    }
  }

  lemma {:induction false} NestedFieldsStep(fields: seq<Field>, types: seq<I.Type>, assign: bool, next: nat, i: nat)
    requires i < |fields| == |types| && NestedFields(fields[..i], types[..i], assign, next).Ok?
    ensures var (front, n1) := NestedFields(fields[..i], types[..i], assign, next).value;
            NestedFields(fields[..i + 1], types[..i + 1], assign, next) ==
            match IdFor(fields[i], assign, n1)
            case Err => Err
            case Ok((id, n2)) =>
              Ok((front + [NestedOf(fields[i], id, fields[i].name, !fields[i].nullable, types[i])], n2))
    ensures NestedFields(fields[..i + 1], types[..i + 1], assign, next).Err? ==>
            NestedFields(fields, types, assign, next).Err?
  {
    hide IdFor, NestedOf;
    assert fields[..i + 1][..i] == fields[..i] && types[..i + 1][..i] == types[..i];
    NestedFieldsFailEarly(fields, types, assign, next, i + 1);
  }

  lemma {:induction false} NestedFieldsFailEarly(
      fields: seq<Field>, types: seq<I.Type>, assign: bool, next: nat, i: nat)
    requires i <= |fields| == |types|
    ensures NestedFields(fields[..i], types[..i], assign, next).Err? ==> NestedFields(fields, types, assign, next).Err?
    decreases |fields|
  {
    hide IdFor, NestedOf;
    if i == |fields| {
      assert fields[..i] == fields && types[..i] == types;
    } else {
      var n := |fields| - 1;
      assert fields[..n][..i] == fields[..i] && types[..n][..i] == types[..i];
      NestedFieldsFailEarly(fields[..n], types[..n], assign, next, i);
    }
  }

  lemma {:induction false} ConvertStruct(fields: seq<Field>, assign: bool, next: nat)
    ensures Convert(Struct(fields), assign, next) ==
            match ConvertTypes(fields, assign, next)
            case Err => Err
            case Ok((types, n1)) =>
              match NestedFields(fields, types, assign, n1)
              case Err => Err
              case Ok((nested, n2)) => Ok((I.Struct(nested), n2))
  {
    hide ConvertTypes, NestedFields;
  }

  class ArrowSchemaConverter {
    const assign: bool
    var nextFieldId: nat

    constructor (assign: bool)
      ensures this.assign == assign && nextFieldId == 0
    {
      this.assign := assign;
      nextFieldId := 0;
    }

    method GetFieldId(f: Field) returns (r: Result<i32>)
      modifies this
      ensures Took(r, nextFieldId, IdFor(f, assign, old(nextFieldId)))
    {
      if assign {
        if nextFieldId >= MAX_I32 { return Err; }
        r := Ok(nextFieldId);
        nextFieldId := nextFieldId + 1;
      } else {
        var id := FieldIdOf(f);
        r := if id.Some? then Ok(id.value) else Err;
      }
    }

    method ConvertFields(fields: seq<Field>, results: seq<I.Type>) returns (r: Result<seq<I.NestedField>>)
      requires |results| == |fields|
      modifies this
      ensures Took(r, nextFieldId, NestedFields(fields, results, assign, old(nextFieldId)))
    {
      hide IdFor, NestedOf;
      var nested: seq<I.NestedField> := [];
      for i := 0 to |fields|
        invariant NestedFields(fields[..i], results[..i], assign, old(nextFieldId)) == Ok((nested, nextFieldId))
      {
        NestedFieldsStep(fields, results, assign, old(nextFieldId), i);
        var id := GetFieldId(fields[i]);
        if id.Err? {
          return Err;
        }
        nested := nested + [NestedOf(fields[i], id.value, fields[i].name, !fields[i].nullable, results[i])];
      }
      assert fields[..|fields|] == fields && results[..|fields|] == results;
      r := Ok(nested);
    }

    method VisitStruct(fields: seq<Field>) returns (r: Result<I.Type>)
      modifies this
      ensures Took(r, nextFieldId, Convert(Struct(fields), assign, old(nextFieldId)))
      decreases fields, 1
    {
      hide Convert, NestedFields;
      var results: seq<I.Type> := [];
      for i := 0 to |fields|
        invariant ConvertTypes(fields[..i], assign, old(nextFieldId)) == Ok((results, nextFieldId))
        invariant |results| == i
      {
        ConvertTypesStep(fields, assign, old(nextFieldId), i);
        var result := VisitType(fields[i].dataType);
        if result.Err? {
          ConvertStruct(fields, assign, old(nextFieldId));
          return Err;
        }
        results := results + [result.value];
      }
      assert fields[..|fields|] == fields;
      ConvertStruct(fields, assign, old(nextFieldId));
      var nested := ConvertFields(fields, results);
      r := if nested.Ok? then Ok(I.Struct(nested.value)) else Err;
    }

    method VisitList(e: Field) returns (r: Result<I.Type>)
      modifies this
      ensures Took(r, nextFieldId, ConvertList(e, assign, old(nextFieldId)))
      decreases e
    {
      hide Convert, IdFor;
      var t := VisitType(e.dataType);
      if t.Err? { return Err; }
      var id := GetFieldId(e);
      r := if id.Ok? then Ok(I.List(NestedOf(e, id.value, I.LIST_FIELD_NAME, !e.nullable, t.value))) else Err;
    }

    method VisitMap(fields: seq<Field>) returns (r: Result<I.Type>)
      requires |fields| == 2
      modifies this
      ensures Took(r, nextFieldId, ConvertMap(fields, assign, old(nextFieldId)))
      decreases fields, 0
    {
      hide Convert, IdFor;
      var k := VisitType(fields[0].dataType);
      if k.Err? { return Err; }
      var v := VisitType(fields[1].dataType);
      if v.Err? { return Err; }
      var kid := GetFieldId(fields[0]);
      if kid.Err? { return Err; }
      var vid := GetFieldId(fields[1]);
      if vid.Err? { return Err; }
      r := Ok(I.Map(NestedOf(fields[0], kid.value, I.MAP_KEY_FIELD_NAME, true, k.value),
                    NestedOf(fields[1], vid.value, I.MAP_VALUE_FIELD_NAME, !fields[1].nullable, v.value)));
    }

    /** `visit_type`: post order, the value type of a dictionary standing for it. */
    method VisitType(d: DataType) returns (r: Result<I.Type>)
      modifies this
      ensures Took(r, nextFieldId, Convert(d, assign, old(nextFieldId)))
      decreases d, 0
    {
      hide FromArrowPrimitive, ConvertList, ConvertMap, ConvertTypes, NestedFields;
      match d
      case Leaf(l) =>
        var p := FromArrowPrimitive(l);
        r := if p.Ok? then Ok(I.Primitive(p.value)) else Err;
      case List(e) => r := VisitList(e);
      case LargeList(e) => r := VisitList(e);
      case FixedSizeList(e, _) => r := VisitList(e);
      case Map(entry, _) =>
        if entry.dataType.Struct? && |entry.dataType.fields| == 2 {
          r := VisitMap(entry.dataType.fields);
        } else {
          r := Err;
        }
      case Struct(fields) => r := VisitStruct(fields);
      case Dictionary(_, value) => r := VisitType(value);
      case _ => r := Err;
    }
  }
}
