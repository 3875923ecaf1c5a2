/**
 * The Apache Avro vocabulary the plugin protocol speaks: schemas, values,
 * and the codec the plugins call into (binary datum encoding and decoding,
 * and the JSON text of a schema).  The codec itself is a foreign library,
 * so it appears here only as a bundle of functions the rest of the model is
 * parameterised by.
 */
module Avro {
  import opened Wrappers

  newtype byte = b: int | 0 <= b < 0x100

  type Bytes = seq<byte>

  /** The Avro schemas the plugins use. */
  datatype Schema =
    | NullSchema
    | BooleanSchema
    | IntSchema
    | LongSchema
    | BytesSchema
    | StringSchema
    | UnionSchema(branches: seq<Schema>)
    | RecordSchema(name: string, fields: seq<FieldSchema>)

  datatype FieldSchema = FieldSchema(name: string, schema: Schema)

  /** An Avro value; a union value carries the value of the branch it took. */
  datatype Value =
    | NullValue
    | BooleanValue(b: bool)
    | IntValue(i: int)
    | LongValue(l: int)
    | BytesValue(bytes: Bytes)
    | StringValue(s: string)
    | UnionValue(v: Value)
    | RecordValue(fields: seq<FieldValue>)

  datatype FieldValue = FieldValue(name: string, value: Value)

  /** The range of an Avro `int` (a Rust `i32`). */
  predicate IsInt32(i: int)
  {
    -0x8000_0000 <= i < 0x8000_0000
  }

  /** The range of an Avro `long` (a Rust `i64`). */
  predicate IsInt64(i: int)
  {
    -0x8000_0000_0000_0000 <= i < 0x8000_0000_0000_0000
  }

  /**
   * `v` is a value of schema `s`: a union value holds a value of one of its
   * branches, and a record value holds the record's fields, in order.
   */
  predicate Conforms(v: Value, s: Schema)
    decreases s
  {
    match s
    case NullSchema => v.NullValue?
    case BooleanSchema => v.BooleanValue?
    case IntSchema => v.IntValue? && IsInt32(v.i)
    case LongSchema => v.LongValue? && IsInt64(v.l)
    case BytesSchema => v.BytesValue?
    case StringSchema => v.StringValue?
    case UnionSchema(branches) =>
      v.UnionValue? && exists k :: 0 <= k < |branches| && Conforms(v.v, branches[k])
    case RecordSchema(_, fields) =>
      && v.RecordValue?
      && |v.fields| == |fields|
      && forall k :: 0 <= k < |fields| ==>
           v.fields[k].name == fields[k].name && Conforms(v.fields[k].value, fields[k].schema)
  }

  /**
   * The codec library.  Each operation may fail; the failure carries the
   * text the library's error displays.
   *  - `schemaJson`: `serde_json::to_string` of a schema;
   *  - `encode`: `to_avro_datum`, a value to its binary datum;
   *  - `decode`: `from_avro_datum`, a binary datum back to a value.
   */
  datatype Codec = Codec(
    schemaJson: Schema -> Result<string, string>,
    encode: (Schema, Value) -> Result<Bytes, string>,
    decode: (Schema, Bytes) -> Result<Value, string>)
}
