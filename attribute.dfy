/**
 * The capability contract of a device attribute and the shape of a device
 * action.  An attribute's behaviour is given by its implementation, so an
 * `Attribute` carries the answers of its methods as fields; `Default`
 * supplies the answers of the methods an implementation does not override.
 */
module Attributes {
  import opened Wrappers
  import opened Avro
  import opened DeviceErrors

  datatype AttributeFlag = Read | Write

  /**
   * An attribute implementation: its schema, its capabilities, and what
   * its `read` and `write` return.
   */
  datatype Attribute = Attribute(
    schema: Schema,
    readable: bool,
    writable: bool,
    read: () -> Result<Value, DeviceError>,
    write: Value -> Result<(), DeviceError>)

  /**
   * An attribute that overrides nothing but its schema: neither readable
   * nor writable, and both `read` and `write` answer `NotImplemented`.
   */
  function Default(schema: Schema): (a: Attribute)
    ensures a.schema == schema && !a.readable && !a.writable
    ensures a.read() == Failure(NotImplemented)
    ensures forall v :: a.write(v) == Failure(NotImplemented)
  {
    Attribute(schema, false, false, () => Failure(NotImplemented), _ => Failure(NotImplemented))
  }

  /** The capability set `flags()` reports. */
  function FlagSet(a: Attribute): set<AttributeFlag>
  {
    (if a.readable then {Read} else {}) + (if a.writable then {Write} else {})
  }

  /** `flags()`: starts empty and adds `Read` if readable, then `Write` if writable. */
  method Flags(a: Attribute) returns (flags: set<AttributeFlag>)
    ensures Read in flags <==> a.readable
    ensures Write in flags <==> a.writable
    ensures flags == FlagSet(a)
  {
    flags := {};
    if a.readable {
      flags := flags + {Read};
    }
    if a.writable {
      flags := flags + {Write};
    }
  }

  /** The flag set holds exactly the capabilities the attribute reports, and nothing else. */
  lemma FlagSetExact(a: Attribute)
    ensures Read in FlagSet(a) <==> a.readable
    ensures Write in FlagSet(a) <==> a.writable
    ensures !a.readable && !a.writable ==> FlagSet(a) == {}
    ensures a.readable && a.writable ==> FlagSet(a) == {Read, Write}
    ensures |FlagSet(a)| == (if a.readable then 1 else 0) + (if a.writable then 1 else 0)
  {
  }

  /** A device action: the schemas of its input and output, and what `run` returns for an input. */
  datatype Action = Action(
    inputSchema: Schema,
    outputSchema: Schema,
    run: Value -> Result<Value, DeviceError>)
}
