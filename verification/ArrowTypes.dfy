/** Types of the in-memory columns. */
module ArrowTypes {
  import opened Prelude
  import opened Decimals

  datatype TimeUnit = Second | Millisecond | Microsecond | Nanosecond

  /** The types a schema visitor treats as leaves. */
  datatype LeafType =
    | Boolean
    | Int8 | Int16 | Int32 | Int64 | UInt8 | UInt16 | UInt32 | UInt64
    | Float16 | Float32 | Float64
    | Decimal128(precision: int, scale: int) | Decimal256(precision: int, scale: int)
    | Date32 | Date64 | Time32(unit: TimeUnit) | Time64(unit: TimeUnit)
    | Timestamp(unit: TimeUnit, zone: Option<string>) | Duration(unit: TimeUnit) | Interval
    | Utf8 | LargeUtf8 | Utf8View
    | Binary | LargeBinary | BinaryView | FixedSizeBinary(width: i32)

  datatype Field = Field(name: string, dataType: DataType, nullable: bool, metadata: map<string, string>)

  datatype DataType =
    | Leaf(leaf: LeafType)
    | List(element: Field)
    | LargeList(element: Field)
    | FixedSizeList(element: Field, size: i32)
    | Struct(fields: seq<Field>)
    | Map(entry: Field, sorted: bool)
    | Dictionary(key: DataType, value: DataType)
    | RunEndEncoded(runEnds: Field, values: Field)
    | Null

  const FIELD_ID_KEY := "PARQUET:field_id"
  const DOC_KEY := "doc"
  const MAP_ENTRY_NAME := "key_value"

  /** The id a field carries in its metadata. */
  function FieldIdOf(f: Field): Option<i32> {
    if FIELD_ID_KEY in f.metadata then ParseI32(f.metadata[FIELD_ID_KEY]) else None
  }

  function DocOf(f: Field): Option<string> {
    if DOC_KEY in f.metadata then Some(f.metadata[DOC_KEY]) else None
  }

  function IdAndDoc(id: i32, doc: Option<string>): map<string, string> {
    match doc
    case None => map[FIELD_ID_KEY := Signed(id)]
    case Some(d) => map[FIELD_ID_KEY := Signed(id), DOC_KEY := d]
  }

  /** An id and a documentation string written as metadata are read back. */
  lemma {:induction false} MetadataReadBack(f: Field, id: i32, doc: Option<string>)
    requires f.metadata == IdAndDoc(id, doc)
    ensures FieldIdOf(f) == Some(id) && DocOf(f) == doc
  {
    ParseSigned(id);
    assert FIELD_ID_KEY[0] != DOC_KEY[0];
  }
}
