/**
 * The legacy Python host plugin's Avro IPC responder: it answers the four
 * messages of the plugin protocol (`describe`, `read`, `write`, `run`)
 * from a device whose attributes and actions it calls directly.
 */
module PyResponder {
  import opened Wrappers
  import opened Avro
  import opened Protocol
  import opened PyDevices
  import PluginServer

  /**
   * The Avro library as the responder uses it: the JSON text of a schema,
   * and the two value conversions.  Serializing raises on a value the
   * schema does not describe.  Unserializing takes no schema: the source
   * passes one but reads with the schema the container carries, and it
   * raises on bytes that are not an Avro container.  Unserializing an
   * empty container gives `None`, here `NullValue`.
   */
  datatype PyCodec = PyCodec(
    schemaJson: Schema -> string,
    serialize: (Schema, Value) -> Result<Bytes, PyException>,
    unserialize: Bytes -> Result<Value, PyException>)

  /** The fields of a request the responder looks at: `path` and `data.value`. */
  datatype PyRequest = PyRequest(path: string, data: Bytes)

  /** The dictionaries `Invoke` returns. */
  datatype PyReply =
    | DeviceReply(name: string, attributes: seq<AttributeInfo>, actions: seq<ActionInfo>)
    | MessageReply(message: string)
    | AttributeMessageReply(message: string, attribute: string)
    | ValueReply(value: Bytes, time: int)
    | RunReply(value: Bytes, start: int, end: int)

  const NoAttributeMessage := "attribute not found"
  const NotReadableMessage := "attribute is not readable"
  const NotWritableMessage := "attribute is not writable"
  const NoActionMessage := "action not found"

  /**
   * The names of the flags an attribute carries, in the order the flag
   * type defines them.
   */
  function FlagNames(flags: set<PyFlag>): seq<string>
  {
    (if PyRead in flags then ["READ"] else []) + (if PyWrite in flags then ["WRITE"] else [])
  }

  /** Each flag is named exactly when it is set, once, and in definition order. */
  lemma FlagNamesListed(flags: set<PyFlag>)
    ensures "READ" in FlagNames(flags) <==> PyRead in flags
    ensures "WRITE" in FlagNames(flags) <==> PyWrite in flags
    ensures |FlagNames(flags)| == |flags|
    ensures |FlagNames(flags)| == 2 ==> FlagNames(flags) == ["READ", "WRITE"]
  {
    assert forall f :: f in flags ==> f == PyRead || f == PyWrite;
    if PyRead in flags && PyWrite in flags {
      assert flags == {PyRead, PyWrite};
    } else if PyRead in flags {
      assert flags == {PyRead};
    } else if PyWrite in flags {
      assert flags == {PyWrite};
    } else {
      assert flags == {};
    }
  }

  /**
   * The exception the unknown-message branch raises as written: it names a
   * variable `msg` that does not exist, so Python raises `NameError`
   * before the intended exception is built.
   */
  function UnknownMessageAsWritten(name: string): PyException
  {
    NameError("msg")
  }

  /** As written, the exception neither is an Avro exception nor says which message was unknown. */
  lemma UnknownMessageAsWrittenLosesName(name: string)
    ensures UnknownMessageAsWritten(name) == NameError("msg")
    ensures !UnknownMessageAsWritten(name).AvroException?
    ensures UnknownMessageAsWritten(name) == UnknownMessageAsWritten("")
  {
  }

  /** The exception the unknown-message branch evidently means to raise. */
  function UnknownMessage(name: string): PyException
  {
    AvroException(["unexpected message: ", name])
  }

  /** The intended exception is an Avro exception that tells unknown messages apart. */
  lemma UnknownMessageNamesIt(name: string, other: string)
    ensures UnknownMessage(name).AvroException?
    ensures name in UnknownMessage(name).args
    ensures UnknownMessage(name) == UnknownMessage(other) <==> name == other
  {
    if UnknownMessage(name) == UnknownMessage(other) {
      assert UnknownMessage(name).args[1] == name;
    }
  }

  class Responder {
    const device: PyDevice
    const codec: PyCodec

    constructor(device: PyDevice, codec: PyCodec)
      ensures this.device == device && this.codec == codec
    {
      this.device, this.codec := device, codec;
    }

    /** The description of the attribute at `path`. */
    function AttributeEntry(path: string): AttributeInfo
      requires path in device.attributes
      reads device
    {
      var a := device.attributes[path];
      AttributeInfo(path, FlagNames(a.flags), codec.schemaJson(a.schema))
    }

    /** The description of the action at `path`. */
    function ActionEntry(path: string): ActionInfo
      requires path in device.actions
      reads device
    {
      var a := device.actions[path];
      ActionInfo(path, codec.schemaJson(a.inputSchema), codec.schemaJson(a.outputSchema))
    }

    /**
     * `reply` describes the device: its name, and one entry per attribute
     * and per action in the order they were added.
     */
    ghost predicate DescribeAnswer(reply: PyReply)
      requires device.Valid()
      reads device
    {
      && reply.DeviceReply?
      && reply.name == device.name
      && |reply.attributes| == |device.attributeOrder|
      && (forall i :: 0 <= i < |reply.attributes| ==>
            reply.attributes[i] == AttributeEntry(device.attributeOrder[i]))
      && |reply.actions| == |device.actionOrder|
      && (forall i :: 0 <= i < |reply.actions| ==>
            reply.actions[i] == ActionEntry(device.actionOrder[i]))
    }

    /** The `describe` branch. */
    method Describe() returns (reply: PyReply)
      requires device.Valid()
      ensures DescribeAnswer(reply)
    {
      var attributes: seq<AttributeInfo> := [];
      var i := 0;
      while i < |device.attributeOrder|
        invariant i <= |device.attributeOrder|
        invariant |attributes| == i
        invariant forall k :: 0 <= k < i ==> attributes[k] == AttributeEntry(device.attributeOrder[k])
      {
        var path := device.attributeOrder[i];
        var attribute := device.attributes[path];
        var flags := FlagNames(attribute.flags);
        var schema := codec.schemaJson(attribute.schema);
        attributes := attributes + [AttributeInfo(path, flags, schema)];
        i := i + 1;
      }

      var actions: seq<ActionInfo> := [];
      i := 0;
      while i < |device.actionOrder|
        invariant i <= |device.actionOrder|
        invariant |actions| == i
        invariant forall k :: 0 <= k < i ==> actions[k] == ActionEntry(device.actionOrder[k])
      {
        var path := device.actionOrder[i];
        var action := device.actions[path];
        var inputSchema := codec.schemaJson(action.inputSchema);
        var outputSchema := codec.schemaJson(action.outputSchema);
        actions := actions + [ActionInfo(path, inputSchema, outputSchema)];
        i := i + 1;
      }

      reply := DeviceReply(device.name, attributes, actions);
    }

    /** A description lists every attribute and every action of the device, each exactly once. */
    lemma DescribedOnce(reply: PyReply)
      requires device.Valid() && DescribeAnswer(reply)
      ensures forall p :: p in device.attributes <==> exists i :: 0 <= i < |reply.attributes| && reply.attributes[i].path == p
      ensures forall i, j :: 0 <= i < j < |reply.attributes| ==> reply.attributes[i].path != reply.attributes[j].path
      ensures forall p :: p in device.actions <==> exists i :: 0 <= i < |reply.actions| && reply.actions[i].path == p
      ensures forall i, j :: 0 <= i < j < |reply.actions| ==> reply.actions[i].path != reply.actions[j].path
    {
      var order := device.attributeOrder;
      forall p | p in device.attributes
        ensures exists i :: 0 <= i < |reply.attributes| && reply.attributes[i].path == p
      {
        var i :| 0 <= i < |order| && order[i] == p;
        assert reply.attributes[i].path == p;
      }
      var actionOrder := device.actionOrder;
      forall p | p in device.actions
        ensures exists i :: 0 <= i < |reply.actions| && reply.actions[i].path == p
      {
        var i :| 0 <= i < |actionOrder| && actionOrder[i] == p;
        assert reply.actions[i].path == p;
      }
    }

    /**
     * The answer to `read` of `path`: an unknown path and an attribute
     * without the READ flag are answered with a message; otherwise the
     * attribute is read, the value serialized with its schema, and the
     * clock read afterwards stamps it.  Exceptions pass through.
     */
    ghost predicate ReadAnswer(path: string, clock: PluginServer.Clock, r: Result<PyReply, PyException>)
      reads device, device.attributes.Values
    {
      if path !in device.attributes then r == Success(MessageReply(NoAttributeMessage))
      else
        var a := device.attributes[path];
        if !a.Readable() then r == Success(AttributeMessageReply(NotReadableMessage, a.path))
        else match a.Read()
          case Failure(e) => r == Failure(e)
          case Success(v) =>
            match codec.serialize(a.schema, v)
            case Failure(e) => r == Failure(e)
            case Success(bytes) => r == Success(ValueReply(bytes, clock.first))
    }

    /** The `read` branch. */
    method Read(path: string, clock: PluginServer.Clock) returns (r: Result<PyReply, PyException>)
      requires device.Valid()
      ensures ReadAnswer(path, clock, r)
      ensures path in device.attributes && !device.attributes[path].Readable() ==>
        r == Success(AttributeMessageReply(NotReadableMessage, path))
    {
      if path !in device.attributes {
        return Success(MessageReply(NoAttributeMessage));
      }
      var attribute := device.attributes[path];
      if !attribute.Readable() {
        return Success(AttributeMessageReply(NotReadableMessage, attribute.path));
      }
      var value := attribute.Read();
      if value.Failure? {
        return Failure(value.error);
      }
      var bytes := codec.serialize(attribute.schema, value.value);
      if bytes.Failure? {
        return Failure(bytes.error);
      }
      r := Success(ValueReply(bytes.value, clock.first));
    }

    /**
     * The answer to `write` of `data` at `path`: an unknown path and an
     * attribute without the WRITE flag are answered with a message;
     * otherwise the data is unserialized and written, and the reply echoes
     * the data with the clock read after the write.  Exceptions pass through.
     */
    ghost predicate WriteAnswer(path: string, data: Bytes, clock: PluginServer.Clock, r: Result<PyReply, PyException>)
      reads device
    {
      if path !in device.attributes then r == Success(MessageReply(NoAttributeMessage))
      else
        var a := device.attributes[path];
        if !a.Writable() then r == Success(AttributeMessageReply(NotWritableMessage, a.path))
        else match codec.unserialize(data)
          case Failure(e) => r == Failure(e)
          case Success(v) =>
            match a.WriteResult(v)
            case Failure(e) => r == Failure(e)
            case Success(_) => r == Success(ValueReply(data, clock.first))
    }

    /**
     * The value a `write` of `data` at `path` leaves stored, if any: only a
     * stored attribute with the WRITE flag keeps what was unserialized.
     */
    function Stores(path: string, data: Bytes): Option<Value>
      reads device
    {
      if path !in device.attributes then None
      else
        var a := device.attributes[path];
        if !a.Writable() || !a.kind.StoredKind? then None
        else match codec.unserialize(data)
          case Failure(_) => None
          case Success(v) => Some(v)
    }

    /** The attribute object a request for `path` may change. */
    function Target(path: string): set<PyAttribute>
      reads device
    {
      if path in device.attributes then {device.attributes[path]} else {}
    }

    /** The `write` branch. */
    method Write(path: string, data: Bytes, clock: PluginServer.Clock) returns (r: Result<PyReply, PyException>)
      requires device.Valid()
      modifies Target(path)
      ensures WriteAnswer(path, data, clock, r)
      ensures path in device.attributes && !device.attributes[path].Writable() ==>
        r == Success(AttributeMessageReply(NotWritableMessage, path))
      ensures path in device.attributes ==>
        device.attributes[path].value ==
          (match Stores(path, data) case Some(v) => v case None => old(device.attributes[path].value))
    {
      if path !in device.attributes {
        return Success(MessageReply(NoAttributeMessage));
      }
      var attribute := device.attributes[path];
      if !attribute.Writable() {
        return Success(AttributeMessageReply(NotWritableMessage, attribute.path));
      }
      var value := codec.unserialize(data);
      if value.Failure? {
        return Failure(value.error);
      }
      var written := attribute.Write(value.value);
      if written.Failure? {
        return Failure(written.error);
      }
      r := Success(ValueReply(data, clock.first));
    }

    /**
     * The answer to `run` of `input` at `path`: an unknown action is
     * answered with a message; otherwise the input is unserialized, the
     * action run between two clock readings, and its output serialized
     * with the output schema.  Exceptions pass through.
     */
    ghost predicate RunAnswer(path: string, input: Bytes, clock: PluginServer.Clock, r: Result<PyReply, PyException>)
      reads device
    {
      if path !in device.actions then r == Success(MessageReply(NoActionMessage))
      else
        var a := device.actions[path];
        match codec.unserialize(input)
        case Failure(e) => r == Failure(e)
        case Success(v) =>
          match a.Run(v)
          case Failure(e) => r == Failure(e)
          case Success(output) =>
            match codec.serialize(a.outputSchema, output)
            case Failure(e) => r == Failure(e)
            case Success(bytes) => r == Success(RunReply(bytes, clock.first, clock.second))
    }

    /** The `run` branch. */
    method Run(path: string, input: Bytes, clock: PluginServer.Clock) returns (r: Result<PyReply, PyException>)
      requires device.Valid()
      ensures RunAnswer(path, input, clock, r)
      ensures r.Success? && r.value.RunReply? ==> r.value.start == clock.first && r.value.end == clock.second
    {
      if path !in device.actions {
        return Success(MessageReply(NoActionMessage));
      }
      var action := device.actions[path];
      var value := codec.unserialize(input);
      if value.Failure? {
        return Failure(value.error);
      }
      var start := clock.first;
      var output := action.Run(value.value);
      var end := clock.second;
      if output.Failure? {
        return Failure(output.error);
      }
      var bytes := codec.serialize(action.outputSchema, output.value);
      if bytes.Failure? {
        return Failure(bytes.error);
      }
      r := Success(RunReply(bytes.value, start, end));
    }

    /**
     * `Invoke`: dispatches on the message name.  Only `write` changes an
     * attribute, and only the one at the request's path; an unknown message
     * raises the `NameError` the branch's unbound name causes.
     */
    method Invoke(message: string, request: PyRequest, clock: PluginServer.Clock) returns (r: Result<PyReply, PyException>)
      requires device.Valid()
      modifies Target(request.path)
      ensures message == "describe" ==> r.Success? && DescribeAnswer(r.value)
      ensures message == "read" ==> ReadAnswer(request.path, clock, r)
      ensures message == "write" ==> WriteAnswer(request.path, request.data, clock, r)
      ensures message == "run" ==> RunAnswer(request.path, request.data, clock, r)
      ensures message !in {"describe", "read", "write", "run"} ==> r == Failure(UnknownMessageAsWritten(message))
      ensures request.path in device.attributes ==>
        device.attributes[request.path].value ==
          if message == "write" && Stores(request.path, request.data).Some?
          then Stores(request.path, request.data).value
          else old(device.attributes[request.path].value)
    {
      if message == "describe" {
        var reply := Describe();
        r := Success(reply);
      } else if message == "read" || message == "write" {
        if message == "read" {
          r := Read(request.path, clock);
        } else {
          r := Write(request.path, request.data, clock);
        }
      } else if message == "run" {
        r := Run(request.path, request.data, clock);
      } else {
        r := Failure(UnknownMessageAsWritten(message));
      }
    }

    /**
     * A value written to a stored attribute with both flags is what the next
     * read serializes: writing `data` and then reading answers with the
     * serialization of the value `data` unserializes to.
     */
    method WriteThenRead(path: string, data: Bytes, writeClock: PluginServer.Clock, readClock: PluginServer.Clock)
      returns (written: Result<PyReply, PyException>, read: Result<PyReply, PyException>)
      requires device.Valid()
      modifies Target(path)
      ensures path in device.attributes && device.attributes[path].kind.StoredKind? &&
              device.attributes[path].Readable() && device.attributes[path].Writable() ==>
        var a := device.attributes[path];
        match codec.unserialize(data)
        case Failure(e) => written == Failure(e)
        case Success(v) =>
          && written == Success(ValueReply(data, writeClock.first))
          && read == (match codec.serialize(a.schema, v)
                      case Failure(e) => Failure(e)
                      case Success(bytes) => Success(ValueReply(bytes, readClock.first)))
    {
      written := Invoke("write", PyRequest(path, data), writeClock);
      read := Invoke("read", PyRequest(path, []), readClock);
    }
  }
}
