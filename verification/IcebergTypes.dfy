/** Types of the table format. */
module IcebergTypes {
  import opened Prelude
  import opened Decimals

  datatype PrimitiveType =
    | Boolean | Int | Long | Float | Double
    | Decimal(precision: u32, scale: u32)
    | Date | Time | Timestamp | Timestamptz | TimestampNs | TimestamptzNs
    | String | Uuid | Fixed(length: u64) | Binary

  /** A default value; the nested ones are not looked into. */
  datatype Literal = PrimitiveLiteral(text: string) | NestedLiteral(children: seq<Literal>)

  datatype NestedField = NestedField(
    id: i32, name: string, required: bool, fieldType: Type,
    doc: Option<string>, initialDefault: Option<Literal>, writeDefault: Option<Literal>)

  datatype Type =
    | Primitive(p: PrimitiveType)
    | Struct(fields: seq<NestedField>)
    | List(element: NestedField)
    | Map(key: NestedField, value: NestedField)

  const LIST_FIELD_NAME := "element"
  const MAP_KEY_FIELD_NAME := "key"
  const MAP_VALUE_FIELD_NAME := "value"
}
