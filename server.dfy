/**
 * The plugin side of the protocol: a server that owns a device and answers
 * each request the node sends with exactly one response, until it is told
 * to quit.
 *
 * Reading, writing and running go through the device's own implementations
 * and the Avro codec; each answer is described together with the trace of
 * outside calls (clock readings, `read`, `write`, `run`) made while
 * computing it, so that the order of those calls, and their absence after
 * a failed check, can be stated.
 */
module PluginServer {
  import opened Wrappers
  import opened Avro
  import opened DeviceErrors
  import opened Attributes
  import opened Devices
  import opened Protocol

  /** The clock readings a request may take, in the order it takes them. */
  datatype Clock = Clock(first: int, second: int)

  /** A call made outside the server while answering a request. */
  datatype Call =
    | ClockRead
    | AttributeRead(path: string)
    | AttributeWrite(path: string, value: Value)
    | ActionRun(path: string, input: Value)

  /** The response to a request and the outside calls made to compute it. */
  datatype Outcome = Outcome(response: Response, calls: seq<Call>)

  const PathNotFoundMessage := "Path not found"
  const NotAttributeMessage := "Path does not refer to an attribute"
  const NotActionMessage := "Path does not refer to an action"
  const NotReadableMessage := "Attribute not readable"
  const NotWritableMessage := "Attribute not writable"
  const ReadFailedPrefix := "Failed to read attribute: "
  const SerializeValuePrefix := "Failed to serialize value: "
  const UnserializeValuePrefix := "Failed to unserialize value: "
  const WriteFailedPrefix := "Failed to write attribute: "
  const UnserializeInputPrefix := "Failed to unserialize input value: "
  const RunFailedPrefix := "Failed to run action: "
  const SerializeOutputPrefix := "Failed to serialize output value: "
  const AttributeSchemaPrefix := "Failed to serialize attribute schema: "
  const InputSchemaPrefix := "Failed to serialize action input schema: "
  const OutputSchemaPrefix := "Failed to serialize action output schema: "

  predicate IsAttributeAt(m: map<string, Member>, path: string)
  {
    path in m && m[path].AttributeMember?
  }

  predicate IsActionAt(m: map<string, Member>, path: string)
  {
    path in m && m[path].ActionMember?
  }

  predicate ReadableAt(m: map<string, Member>, path: string)
  {
    IsAttributeAt(m, path) && m[path].attribute.readable
  }

  predicate WritableAt(m: map<string, Member>, path: string)
  {
    IsAttributeAt(m, path) && m[path].attribute.writable
  }

  // ---------------------------------------------------------------------
  // read, write, run
  // ---------------------------------------------------------------------

  /**
   * `read_attribute`: look the path up, check it is a readable attribute,
   * take the time, read, then encode what was read.
   */
  function ReadAttributeOutcome(m: map<string, Member>, codec: Codec, path: string, clock: Clock): (r: Outcome)
    ensures r.response.Error? || r.response.AttributeValue?
    ensures r.response.Error? ==> r.response.path == Some(path)
    ensures path !in m ==> r.response == Error(PathNotFoundMessage, Some(path))
    ensures IsActionAt(m, path) ==> r.response == Error(NotAttributeMessage, Some(path))
    ensures IsAttributeAt(m, path) && !ReadableAt(m, path) ==> r.response == Error(NotReadableMessage, Some(path))
    ensures r.calls == if ReadableAt(m, path) then [ClockRead, AttributeRead(path)] else []
    ensures ReadableAt(m, path) && m[path].attribute.read().Failure? ==>
      r.response == Error(ReadFailedPrefix + Display(m[path].attribute.read().error), Some(path))
    ensures ReadableAt(m, path) && m[path].attribute.read().Success? ==>
      var a := m[path].attribute;
      match codec.encode(a.schema, a.read().value)
      case Success(bytes) => r.response == AttributeValue(bytes, clock.first)
      case Failure(msg) => r.response == Error(SerializeValuePrefix + msg, Some(path))
  {
    if path !in m then Outcome(Error(PathNotFoundMessage, Some(path)), [])
    else match m[path]
      case ActionMember(_) => Outcome(Error(NotAttributeMessage, Some(path)), [])
      case AttributeMember(a) =>
        if !a.readable then Outcome(Error(NotReadableMessage, Some(path)), [])
        else
          var time := clock.first;
          var calls := [ClockRead, AttributeRead(path)];
          match a.read()
          case Failure(e) => Outcome(Error(ReadFailedPrefix + Display(e), Some(path)), calls)
          case Success(value) =>
            match codec.encode(a.schema, value)
            case Failure(msg) => Outcome(Error(SerializeValuePrefix + msg, Some(path)), calls)
            case Success(bytes) => Outcome(AttributeValue(bytes, time), calls)
  }

  /**
   * `write_attribute`: look the path up, check it is a writable attribute,
   * decode the bytes, take the time, write, and echo the request's bytes.
   */
  function WriteAttributeOutcome(m: map<string, Member>, codec: Codec, path: string, bytes: Bytes, clock: Clock): (r: Outcome)
    ensures r.response.Error? || r.response.AttributeValue?
    ensures r.response.Error? ==> r.response.path == Some(path)
    ensures r.response.AttributeValue? ==> r.response.value == bytes && r.response.time == clock.first
    ensures path !in m ==> r.response == Error(PathNotFoundMessage, Some(path))
    ensures IsActionAt(m, path) ==> r.response == Error(NotAttributeMessage, Some(path))
    ensures IsAttributeAt(m, path) && !WritableAt(m, path) ==> r.response == Error(NotWritableMessage, Some(path))
    ensures WritableAt(m, path) ==>
      var a := m[path].attribute;
      match codec.decode(a.schema, bytes)
      case Failure(msg) => r.response == Error(UnserializeValuePrefix + msg, Some(path)) && r.calls == []
      case Success(v) =>
        && r.calls == [ClockRead, AttributeWrite(path, v)]
        && (a.write(v).Success? ==> r.response == AttributeValue(bytes, clock.first))
        && (a.write(v).Failure? ==> r.response == Error(WriteFailedPrefix + Display(a.write(v).error), Some(path)))
    ensures !WritableAt(m, path) ==> r.calls == []
  {
    if path !in m then Outcome(Error(PathNotFoundMessage, Some(path)), [])
    else match m[path]
      case ActionMember(_) => Outcome(Error(NotAttributeMessage, Some(path)), [])
      case AttributeMember(a) =>
        if !a.writable then Outcome(Error(NotWritableMessage, Some(path)), [])
        else
          match codec.decode(a.schema, bytes)
          case Failure(msg) => Outcome(Error(UnserializeValuePrefix + msg, Some(path)), [])
          case Success(v) =>
            var time := clock.first;
            var calls := [ClockRead, AttributeWrite(path, v)];
            match a.write(v)
            case Failure(e) => Outcome(Error(WriteFailedPrefix + Display(e), Some(path)), calls)
            case Success(_) => Outcome(AttributeValue(bytes, time), calls)
  }

  /**
   * `run_action`: look the path up, check it is an action, decode the
   * input, take the start time, run, take the end time, encode the output.
   */
  function RunActionOutcome(m: map<string, Member>, codec: Codec, path: string, input: Bytes, clock: Clock): (r: Outcome)
    ensures r.response.Error? || r.response.ActionResult?
    ensures r.response.Error? ==> r.response.path == Some(path)
    ensures path !in m ==> r.response == Error(PathNotFoundMessage, Some(path))
    ensures IsAttributeAt(m, path) ==> r.response == Error(NotActionMessage, Some(path))
    ensures !IsActionAt(m, path) ==> r.calls == []
    ensures IsActionAt(m, path) ==>
      var act := m[path].action;
      match codec.decode(act.inputSchema, input)
      case Failure(msg) => r.response == Error(UnserializeInputPrefix + msg, Some(path)) && r.calls == []
      case Success(v) =>
        match act.run(v)
        case Failure(e) =>
          r.response == Error(RunFailedPrefix + Display(e), Some(path))
          && r.calls == [ClockRead, ActionRun(path, v)]
        case Success(out) =>
          && r.calls == [ClockRead, ActionRun(path, v), ClockRead]
          && match codec.encode(act.outputSchema, out)
             case Success(bytes) => r.response == ActionResult(bytes, clock.first, clock.second)
             case Failure(msg) => r.response == Error(SerializeOutputPrefix + msg, Some(path))
  {
    if path !in m then Outcome(Error(PathNotFoundMessage, Some(path)), [])
    else match m[path]
      case AttributeMember(_) => Outcome(Error(NotActionMessage, Some(path)), [])
      case ActionMember(act) =>
        match codec.decode(act.inputSchema, input)
        case Failure(msg) => Outcome(Error(UnserializeInputPrefix + msg, Some(path)), [])
        case Success(v) =>
          var start := clock.first;
          match act.run(v)
          case Failure(e) => Outcome(Error(RunFailedPrefix + Display(e), Some(path)), [ClockRead, ActionRun(path, v)])
          case Success(out) =>
            var end := clock.second;
            var calls := [ClockRead, ActionRun(path, v), ClockRead];
            match codec.encode(act.outputSchema, out)
            case Failure(msg) => Outcome(Error(SerializeOutputPrefix + msg, Some(path)), calls)
            case Success(bytes) => Outcome(ActionResult(bytes, start, end), calls)
  }

  /**
   * The implementation is consulted only once every check has passed: a
   * response that names a failed path or capability check comes with no
   * call at all.  A successful write is one clock reading and then the
   * `write`; a successful run is `run` between two clock readings.
   */
  lemma ChecksGuardCalls(m: map<string, Member>, codec: Codec, path: string, bytes: Bytes, clock: Clock)
    ensures var r := ReadAttributeOutcome(m, codec, path, clock);
      r.response.Error? && r.response.message in {PathNotFoundMessage, NotAttributeMessage, NotReadableMessage}
      ==> r.calls == []
    ensures var r := WriteAttributeOutcome(m, codec, path, bytes, clock);
      r.response.Error? && r.response.message in {PathNotFoundMessage, NotAttributeMessage, NotWritableMessage}
      ==> r.calls == []
    ensures var r := RunActionOutcome(m, codec, path, bytes, clock);
      r.response.Error? && r.response.message in {PathNotFoundMessage, NotActionMessage}
      ==> r.calls == []
    ensures var r := WriteAttributeOutcome(m, codec, path, bytes, clock);
      r.response.AttributeValue? ==> exists v :: r.calls == [ClockRead, AttributeWrite(path, v)]
    ensures var r := RunActionOutcome(m, codec, path, bytes, clock);
      r.response.ActionResult? ==> exists v :: r.calls == [ClockRead, ActionRun(path, v), ClockRead]
  {
    ReadChecksGuard(m, codec, path, clock);
    WriteChecksGuard(m, codec, path, bytes, clock);
    RunChecksGuard(m, codec, path, bytes, clock);
  }

  /** A failed read makes calls only once the checks passed, and its message then starts with `F`. */
  lemma ReadChecksGuard(m: map<string, Member>, codec: Codec, path: string, clock: Clock)
    ensures var r := ReadAttributeOutcome(m, codec, path, clock);
      r.response.Error? && r.calls != [] ==> r.response.message != [] && r.response.message[0] == 'F'
  {
    var r := ReadAttributeOutcome(m, codec, path, clock);
    if ReadableAt(m, path) {
      var a := m[path].attribute;
      match a.read()
      case Failure(e) =>
        assert r.response.message[0] == 'F';
      case Success(value) =>
        match codec.encode(a.schema, value)
        case Failure(msg) =>
          assert r.response.message[0] == 'F';
        case Success(_) =>
    }
  }

  /** A failed write makes calls only once the checks passed, and its message then starts with `F`. */
  lemma WriteChecksGuard(m: map<string, Member>, codec: Codec, path: string, bytes: Bytes, clock: Clock)
    ensures var r := WriteAttributeOutcome(m, codec, path, bytes, clock);
      r.response.Error? && r.calls != [] ==> r.response.message != [] && r.response.message[0] == 'F'
  {
    var r := WriteAttributeOutcome(m, codec, path, bytes, clock);
    if WritableAt(m, path) {
      var a := m[path].attribute;
      match codec.decode(a.schema, bytes)
      case Failure(_) =>
      case Success(v) =>
        if a.write(v).Failure? {
          assert r.response.message[0] == 'F';
        }
    }
  }

  /** A failed run makes calls only once the checks passed, and its message then starts with `F`. */
  lemma RunChecksGuard(m: map<string, Member>, codec: Codec, path: string, input: Bytes, clock: Clock)
    ensures var r := RunActionOutcome(m, codec, path, input, clock);
      r.response.Error? && r.calls != [] ==> r.response.message != [] && r.response.message[0] == 'F'
  {
    var r := RunActionOutcome(m, codec, path, input, clock);
    if IsActionAt(m, path) {
      var act := m[path].action;
      match codec.decode(act.inputSchema, input)
      case Failure(_) =>
      case Success(v) =>
        match act.run(v)
        case Failure(e) =>
          assert r.response.message[0] == 'F';
        case Success(out) =>
          if codec.encode(act.outputSchema, out).Failure? {
            assert r.response.message[0] == 'F';
          }
    }
  }

  // ---------------------------------------------------------------------
  // describe
  // ---------------------------------------------------------------------

  /** The name a flag is listed under in a device description. */
  function FlagName(f: AttributeFlag): string
  {
    match f
    case Read => "read"
    case Write => "write"
  }

  /** `names` lists the name of each flag in `flags` once, in some order. */
  ghost predicate NamesFlags(names: seq<string>, flags: set<AttributeFlag>)
  {
    && |names| == |flags|
    && (forall f :: f in flags <==> FlagName(f) in names)
  }

  /**
   * The flag names of a description entry.  A hash set fixes no order, so
   * the order here is arbitrary.
   */
  method RenderFlags(flags: set<AttributeFlag>) returns (names: seq<string>)
    ensures NamesFlags(names, flags)
  {
    var remaining := flags;
    names := [];
    while remaining != {}
      invariant remaining <= flags
      invariant |names| + |remaining| == |flags|
      invariant forall f :: f in flags - remaining <==> FlagName(f) in names
      decreases |remaining|
    {
      var f :| f in remaining;
      names := names + [FlagName(f)];
      remaining := remaining - {f};
      assert FlagName(Read) != FlagName(Write);
    }
  }

  /** A member whose schema text cannot be produced. */
  predicate RenderFails(member: Member, codec: Codec)
  {
    match member
    case AttributeMember(a) => codec.schemaJson(a.schema).Failure?
    case ActionMember(act) =>
      codec.schemaJson(act.inputSchema).Failure? || codec.schemaJson(act.outputSchema).Failure?
  }

  /** The error message describing a member yields when its schema text cannot be produced. */
  function RenderError(member: Member, codec: Codec): string
    requires RenderFails(member, codec)
  {
    match member
    case AttributeMember(a) => AttributeSchemaPrefix + codec.schemaJson(a.schema).error
    case ActionMember(act) =>
      if codec.schemaJson(act.inputSchema).Failure? then InputSchemaPrefix + codec.schemaJson(act.inputSchema).error
      else OutputSchemaPrefix + codec.schemaJson(act.outputSchema).error
  }

  /** The description entry of an attribute. */
  ghost predicate AttributeInfoOf(info: AttributeInfo, path: string, a: Attribute, codec: Codec)
  {
    && info.path == path
    && NamesFlags(info.flags, FlagSet(a))
    && codec.schemaJson(a.schema) == Success(info.schema)
  }

  /** The description entry of an action. */
  ghost predicate ActionInfoOf(info: ActionInfo, path: string, act: Action, codec: Codec)
  {
    && info.path == path
    && codec.schemaJson(act.inputSchema) == Success(info.inputSchema)
    && codec.schemaJson(act.outputSchema) == Success(info.outputSchema)
  }

  /**
   * `attributes` and `actions` describe the members of `m`: each attribute
   * once in `attributes`, each action once in `actions`, and nothing else.
   */
  ghost predicate Describes(m: map<string, Member>, codec: Codec, attributes: seq<AttributeInfo>, actions: seq<ActionInfo>)
  {
    && (forall i :: 0 <= i < |attributes| ==>
          IsAttributeAt(m, attributes[i].path)
          && AttributeInfoOf(attributes[i], attributes[i].path, m[attributes[i].path].attribute, codec))
    && (forall i, j :: 0 <= i < j < |attributes| ==> attributes[i].path != attributes[j].path)
    && (forall path :: IsAttributeAt(m, path) ==> exists i :: 0 <= i < |attributes| && attributes[i].path == path)
    && (forall i :: 0 <= i < |actions| ==>
          IsActionAt(m, actions[i].path)
          && ActionInfoOf(actions[i], actions[i].path, m[actions[i].path].action, codec))
    && (forall i, j :: 0 <= i < j < |actions| ==> actions[i].path != actions[j].path)
    && (forall path :: IsActionAt(m, path) ==> exists i :: 0 <= i < |actions| && actions[i].path == path)
  }

  /**
   * What `describe_device` may answer: when every schema text can be
   * produced, a description of all members; otherwise an error naming a
   * member whose schema text cannot be, and nothing of the partial lists.
   */
  ghost predicate DescribeAnswer(m: map<string, Member>, codec: Codec, response: Response)
  {
    if forall path :: path in m ==> !RenderFails(m[path], codec) then
      response.DeviceDescription? && Describes(m, codec, response.attributes, response.actions)
    else
      && response.Error?
      && response.path.Some?
      && response.path.value in m
      && RenderFails(m[response.path.value], codec)
      && response.message == RenderError(m[response.path.value], codec)
  }

  // ---------------------------------------------------------------------
  // the serve loop
  // ---------------------------------------------------------------------

  /**
   * One step of the request stream: a request that decoded, one that did
   * not (with the decoder's message), or a failure to read the stream at
   * all.  Each request comes with the clock readings it will see.
   */
  datatype Incoming = Received(request: Request, clock: Clock) | Undecodable(message: string) | Unreadable

  /** Why the serve loop ended. */
  datatype Stop = QuitSignalled | EndOfStream | ReadFailed

  predicate IsQuit(item: Incoming)
  {
    item.Received? && item.request.SignalRequest?
  }

  /** What the server may answer to one item of the stream. */
  ghost predicate Answers(m: map<string, Member>, codec: Codec, item: Incoming, response: Response)
  {
    match item
    case Unreadable => false
    case Undecodable(message) => response == Error(message, None)
    case Received(request, clock) =>
      match request
      case SignalRequest(_) => response == StatusResponse(Ok)
      case DescribeDevice => DescribeAnswer(m, codec, response)
      case ReadAttribute(path) => response == ReadAttributeOutcome(m, codec, path, clock).response
      case WriteAttribute(path, value) => response == WriteAttributeOutcome(m, codec, path, value, clock).response
      case RunAction(path, input) => response == RunActionOutcome(m, codec, path, input, clock).response
  }

  /**
   * How many items the serve loop answers, and why it stops, when it
   * starts with the quit flag at `quit`: it stops before an unreadable
   * item, and right after answering an item once the flag is set.
   */
  function Served(quit: bool, incoming: seq<Incoming>): (r: (nat, Stop))
    ensures r.0 <= |incoming|
    decreases |incoming|
  {
    if incoming == [] then (0, EndOfStream)
    else if incoming[0].Unreadable? then (0, ReadFailed)
    else if quit || IsQuit(incoming[0]) then (1, QuitSignalled)
    else
      var rest := Served(false, incoming[1..]);
      (rest.0 + 1, rest.1)
  }

  /** The stream's end is reached only when every item was answered. */
  lemma {:induction false} ServedStops(quit: bool, incoming: seq<Incoming>)
    ensures Served(quit, incoming).1 == EndOfStream ==> Served(quit, incoming).0 == |incoming|
    ensures Served(quit, incoming).1 == ReadFailed ==>
      Served(quit, incoming).0 < |incoming| && incoming[Served(quit, incoming).0].Unreadable?
    ensures Served(quit, incoming).1 == QuitSignalled ==>
      Served(quit, incoming).0 >= 1
      && (quit || IsQuit(incoming[Served(quit, incoming).0 - 1]))
    decreases |incoming|
  {
    if incoming != [] && !incoming[0].Unreadable? && !(quit || IsQuit(incoming[0])) {
      ServedStops(false, incoming[1..]);
      if Served(false, incoming[1..]).1 == QuitSignalled {
        assert incoming[1..][Served(false, incoming[1..]).0 - 1] == incoming[Served(quit, incoming).0 - 1];
      }
    }
  }

  /**
   * Nothing is answered after a quit: every answered item before the last
   * is neither a quit signal nor unreadable.
   */
  lemma {:induction false} ServedNothingAfterQuit(incoming: seq<Incoming>, k: nat)
    requires k + 1 < Served(false, incoming).0
    ensures !IsQuit(incoming[k]) && !incoming[k].Unreadable?
    decreases |incoming|
  {
    if k > 0 {
      ServedNothingAfterQuit(incoming[1..], k - 1);
    }
  }

  /**
   * A quit at position `k`, with no quit and no unreadable item before it,
   * ends serving right after its own answer.
   */
  lemma {:induction false} ServedUntilQuit(incoming: seq<Incoming>, k: nat)
    requires k < |incoming| && IsQuit(incoming[k])
    requires forall j :: 0 <= j < k ==> !IsQuit(incoming[j]) && !incoming[j].Unreadable?
    ensures Served(false, incoming) == (k + 1, QuitSignalled)
    decreases k
  {
    if k > 0 {
      ServedUntilQuit(incoming[1..], k - 1);
    }
  }

  class Server {
    const device: Device
    const codec: Codec
    var signalQuit: bool

    constructor(device: Device, codec: Codec)
      ensures this.device == device && this.codec == codec && !signalQuit
    {
      this.device := device;
      this.codec := codec;
      signalQuit := false;
    }

    /** `signal`: a quit signal raises the quit flag and is acknowledged. */
    method HandleSignal(signal: Signal) returns (response: Response)
      modifies this
      ensures signalQuit
      ensures response == StatusResponse(Ok)
    {
      match signal
      case Quit =>
        signalQuit := true;
        response := StatusResponse(Ok);
    }

    /** `describe_device`: one entry per member, or the first schema failure. */
    method Describe() returns (response: Response)
      ensures DescribeAnswer(device.members, codec, response)
    {
      var entries := device.Iter();
      var m := device.members;
      var attributes: seq<AttributeInfo> := [];
      var actions: seq<ActionInfo> := [];
      var k := 0;
      while k < |entries|
        invariant k <= |entries|
        invariant DescribedSoFar(entries, codec, k, attributes, actions)
      {
        var (path, member) := entries[k];
        assert path in m && m[path] == member;
        match member {
          case AttributeMember(a) =>
            var info := AttributeDescription(path, a);
            if info.Failure? {
              response := Error(info.error, Some(path));
              FailedDescription(m, codec, path);
              return;
            }
            AddAttributeInfo(entries, codec, k, attributes, actions, info.value);
            attributes := attributes + [info.value];
          case ActionMember(act) =>
            var info := ActionDescription(path, act);
            if info.Failure? {
              response := Error(info.error, Some(path));
              FailedDescription(m, codec, path);
              return;
            }
            AddActionInfo(entries, codec, k, attributes, actions, info.value);
            actions := actions + [info.value];
        }
        k := k + 1;
      }
      DescribedAll(entries, m, codec, attributes, actions);
      response := DeviceDescription(attributes, actions);
    }

    /** The description entry of an attribute, or the error when its schema text cannot be produced. */
    method AttributeDescription(path: string, a: Attribute) returns (r: Result<AttributeInfo, string>)
      ensures r.Success? <==> !RenderFails(AttributeMember(a), codec)
      ensures r.Success? ==> AttributeInfoOf(r.value, path, a, codec)
      ensures r.Failure? ==> r.error == RenderError(AttributeMember(a), codec)
    {
      var flags := Flags(a);
      var names := RenderFlags(flags);
      var schema := codec.schemaJson(a.schema);
      if schema.Failure? {
        return Failure(AttributeSchemaPrefix + schema.error);
      }
      r := Success(AttributeInfo(path, names, schema.value));
    }

    /** The description entry of an action, or the error for the first schema text that cannot be produced. */
    method ActionDescription(path: string, act: Action) returns (r: Result<ActionInfo, string>)
      ensures r.Success? <==> !RenderFails(ActionMember(act), codec)
      ensures r.Success? ==> ActionInfoOf(r.value, path, act, codec)
      ensures r.Failure? ==> r.error == RenderError(ActionMember(act), codec)
    {
      var inputSchema := codec.schemaJson(act.inputSchema);
      if inputSchema.Failure? {
        return Failure(InputSchemaPrefix + inputSchema.error);
      }
      var outputSchema := codec.schemaJson(act.outputSchema);
      if outputSchema.Failure? {
        return Failure(OutputSchemaPrefix + outputSchema.error);
      }
      r := Success(ActionInfo(path, inputSchema.value, outputSchema.value));
    }

    /** `process_request`: dispatches on the kind of request. */
    method ProcessRequest(request: Request, clock: Clock) returns (response: Response)
      modifies this
      ensures signalQuit == (old(signalQuit) || request.SignalRequest?)
      ensures Answers(device.members, codec, Received(request, clock), response)
    {
      match request
      case SignalRequest(signal) =>
        response := HandleSignal(signal);
      case DescribeDevice =>
        response := Describe();
      case ReadAttribute(path) =>
        response := ReadAttributeOutcome(device.members, codec, path, clock).response;
      case WriteAttribute(path, value) =>
        response := WriteAttributeOutcome(device.members, codec, path, value, clock).response;
      case RunAction(path, input) =>
        response := RunActionOutcome(device.members, codec, path, input, clock).response;
    }

    /** The answer to one item read: an item that did not decode gets an error without a path. */
    method Answer(item: Incoming) returns (response: Response)
      requires !item.Unreadable?
      modifies this
      ensures signalQuit == (old(signalQuit) || IsQuit(item))
      ensures Answers(device.members, codec, item, response)
    {
      if item.Undecodable? {
        response := Error(item.message, None);
      } else {
        response := ProcessRequest(item.request, item.clock);
      }
    }

    /**
     * `run`'s loop: answer each item in turn (an item that did not decode
     * gets an error without a path), send the answer, and stop once the
     * quit flag is up; an unreadable item ends the loop unanswered.
     */
    method Run(incoming: seq<Incoming>) returns (responses: seq<Response>, stop: Stop)
      modifies this
      ensures (|responses|, stop) == Served(old(signalQuit), incoming)
      ensures forall i :: 0 <= i < |responses| ==> Answers(device.members, codec, incoming[i], responses[i])
      ensures signalQuit <==> old(signalQuit) || stop == QuitSignalled
    {
      responses := [];
      var k := 0;
      while k < |incoming|
        invariant k == |responses| <= |incoming|
        invariant k > 0 ==> !signalQuit
        invariant k == 0 ==> signalQuit == old(signalQuit)
        invariant Served(old(signalQuit), incoming) == (k + Served(signalQuit, incoming[k..]).0, Served(signalQuit, incoming[k..]).1)
        invariant forall i :: 0 <= i < k ==> Answers(device.members, codec, incoming[i], responses[i])
      {
        var item := incoming[k];
        if item.Unreadable? {
          stop := ReadFailed;
          return;
        }
        var response := Answer(item);
        assert incoming[k..][1..] == incoming[k + 1..];
        responses := responses + [response];
        k := k + 1;
        if signalQuit {
          stop := QuitSignalled;
          return;
        }
      }
      stop := EndOfStream;
    }
  }
  /**
   * The entries of an enumeration that are attributes (when `attributes`
   * holds) or actions (when it does not), in their order.
   */
  function Select(es: seq<(string, Member)>, attributes: bool): (r: seq<(string, Member)>)
    ensures forall i :: 0 <= i < |r| ==> r[i].1.AttributeMember? == attributes
  {
    if es == [] then []
    else
      var last := es[|es| - 1];
      Select(es[..|es| - 1], attributes) + (if last.1.AttributeMember? == attributes then [last] else [])
  }

  /** Selecting from one more entry appends that entry when it is of the selected kind. */
  lemma SelectStep(es: seq<(string, Member)>, k: nat, attributes: bool)
    requires k < |es|
    ensures Select(es[..k + 1], attributes)
      == Select(es[..k], attributes) + (if es[k].1.AttributeMember? == attributes then [es[k]] else [])
  {
    assert es[..k + 1][..k] == es[..k];
  }

  /** Every selected entry is an entry. */
  lemma {:induction false} SelectIn(es: seq<(string, Member)>, attributes: bool, i: nat)
    requires i < |Select(es, attributes)|
    ensures exists j :: 0 <= j < |es| && es[j] == Select(es, attributes)[i]
    decreases |es|
  {
    var init := es[..|es| - 1];
    if i < |Select(init, attributes)| {
      SelectIn(init, attributes, i);
      var j :| 0 <= j < |init| && init[j] == Select(init, attributes)[i];
      assert es[j] == Select(es, attributes)[i];
    } else {
      assert es[|es| - 1] == Select(es, attributes)[i];
    }
  }

  /** Every entry of the selected kind is selected. */
  lemma {:induction false} SelectHas(es: seq<(string, Member)>, attributes: bool, j: nat)
    requires j < |es| && es[j].1.AttributeMember? == attributes
    ensures exists i :: 0 <= i < |Select(es, attributes)| && Select(es, attributes)[i] == es[j]
    decreases |es|
  {
    var init := es[..|es| - 1];
    if j < |es| - 1 {
      SelectHas(init, attributes, j);
      var i :| 0 <= i < |Select(init, attributes)| && Select(init, attributes)[i] == init[j];
      assert Select(es, attributes)[i] == es[j];
    } else {
      assert Select(es, attributes)[|Select(init, attributes)|] == es[j];
    }
  }

  /** Selecting from entries with distinct paths gives entries with distinct paths. */
  lemma {:induction false} SelectDistinct(es: seq<(string, Member)>, attributes: bool, i1: nat, i2: nat)
    requires forall a, b :: 0 <= a < b < |es| ==> es[a].0 != es[b].0
    requires i1 < i2 < |Select(es, attributes)|
    ensures Select(es, attributes)[i1].0 != Select(es, attributes)[i2].0
    decreases |es|
  {
    var init := es[..|es| - 1];
    if i2 < |Select(init, attributes)| {
      SelectDistinct(init, attributes, i1, i2);
    } else {
      SelectIn(init, attributes, i1);
      var j :| 0 <= j < |init| && init[j] == Select(init, attributes)[i1];
      assert es[j].0 != es[|es| - 1].0;
    }
  }

  /**
   * The loop invariant of `Describe`: the first `k` entries of the
   * enumeration all render, and `attributes` and `actions` describe, in
   * order, the attributes and the actions among them.
   */
  ghost predicate DescribedSoFar(entries: seq<(string, Member)>, codec: Codec, k: nat,
                                 attributes: seq<AttributeInfo>, actions: seq<ActionInfo>)
  {
    && k <= |entries|
    && (forall j :: 0 <= j < k ==> !RenderFails(entries[j].1, codec))
    && |attributes| == |Select(entries[..k], true)|
    && (forall i :: 0 <= i < |attributes| ==>
          AttributeInfoOf(attributes[i], Select(entries[..k], true)[i].0, Select(entries[..k], true)[i].1.attribute, codec))
    && |actions| == |Select(entries[..k], false)|
    && (forall i :: 0 <= i < |actions| ==>
          ActionInfoOf(actions[i], Select(entries[..k], false)[i].0, Select(entries[..k], false)[i].1.action, codec))
  }

  /** Describing the attribute at entry `k` keeps the invariant. */
  lemma AddAttributeInfo(entries: seq<(string, Member)>, codec: Codec, k: nat,
                         attributes: seq<AttributeInfo>, actions: seq<ActionInfo>, info: AttributeInfo)
    requires k < |entries| && DescribedSoFar(entries, codec, k, attributes, actions)
    requires entries[k].1.AttributeMember?
    requires AttributeInfoOf(info, entries[k].0, entries[k].1.attribute, codec)
    ensures DescribedSoFar(entries, codec, k + 1, attributes + [info], actions)
  {
    SelectStep(entries, k, true);
    SelectStep(entries, k, false);
  }

  /** Describing the action at entry `k` keeps the invariant. */
  lemma AddActionInfo(entries: seq<(string, Member)>, codec: Codec, k: nat,
                      attributes: seq<AttributeInfo>, actions: seq<ActionInfo>, info: ActionInfo)
    requires k < |entries| && DescribedSoFar(entries, codec, k, attributes, actions)
    requires entries[k].1.ActionMember?
    requires ActionInfoOf(info, entries[k].0, entries[k].1.action, codec)
    ensures DescribedSoFar(entries, codec, k + 1, attributes, actions + [info])
  {
    SelectStep(entries, k, true);
    SelectStep(entries, k, false);
  }

  /** An error naming a member whose schema text cannot be produced is an answer to `describe_device`. */
  lemma FailedDescription(m: map<string, Member>, codec: Codec, path: string)
    requires path in m && RenderFails(m[path], codec)
    ensures DescribeAnswer(m, codec, Error(RenderError(m[path], codec), Some(path)))
  {
  }

  /** Once every entry is described, every member of the map is, each once. */
  lemma DescribedAll(entries: seq<(string, Member)>, m: map<string, Member>, codec: Codec,
                     attributes: seq<AttributeInfo>, actions: seq<ActionInfo>)
    requires Enumerates(entries, m)
    requires DescribedSoFar(entries, codec, |entries|, attributes, actions)
    ensures forall path :: path in m ==> !RenderFails(m[path], codec)
    ensures Describes(m, codec, attributes, actions)
  {
    DescribedCovers(entries, m, codec, attributes, actions);
    DescribedAttributes(entries, m, codec, attributes, actions);
    DescribedActions(entries, m, codec, attributes, actions);
  }

  lemma DescribedCovers(entries: seq<(string, Member)>, m: map<string, Member>, codec: Codec,
                        attributes: seq<AttributeInfo>, actions: seq<ActionInfo>)
    requires Enumerates(entries, m)
    requires DescribedSoFar(entries, codec, |entries|, attributes, actions)
    ensures forall path :: path in m ==> !RenderFails(m[path], codec)
    ensures forall path :: IsAttributeAt(m, path) ==> exists i :: 0 <= i < |attributes| && attributes[i].path == path
    ensures forall path :: IsActionAt(m, path) ==> exists i :: 0 <= i < |actions| && actions[i].path == path
  {
    assert entries[..|entries|] == entries;
    forall path | path in m
      ensures !RenderFails(m[path], codec)
      ensures IsAttributeAt(m, path) ==> exists i :: 0 <= i < |attributes| && attributes[i].path == path
      ensures IsActionAt(m, path) ==> exists i :: 0 <= i < |actions| && actions[i].path == path
    {
      var j :| 0 <= j < |entries| && entries[j].0 == path;
      SelectHas(entries, entries[j].1.AttributeMember?, j);
    }
  }

  lemma DescribedAttributes(entries: seq<(string, Member)>, m: map<string, Member>, codec: Codec,
                            attributes: seq<AttributeInfo>, actions: seq<ActionInfo>)
    requires Enumerates(entries, m)
    requires DescribedSoFar(entries, codec, |entries|, attributes, actions)
    ensures forall i :: 0 <= i < |attributes| ==>
      IsAttributeAt(m, attributes[i].path)
      && AttributeInfoOf(attributes[i], attributes[i].path, m[attributes[i].path].attribute, codec)
    ensures forall i, j :: 0 <= i < j < |attributes| ==> attributes[i].path != attributes[j].path
  {
    assert entries[..|entries|] == entries;
    forall i | 0 <= i < |attributes|
      ensures IsAttributeAt(m, attributes[i].path)
      ensures AttributeInfoOf(attributes[i], attributes[i].path, m[attributes[i].path].attribute, codec)
    {
      SelectIn(entries, true, i);
    }
    forall i, j | 0 <= i < j < |attributes|
      ensures attributes[i].path != attributes[j].path
    {
      SelectDistinct(entries, true, i, j);
    }
  }

  lemma DescribedActions(entries: seq<(string, Member)>, m: map<string, Member>, codec: Codec,
                         attributes: seq<AttributeInfo>, actions: seq<ActionInfo>)
    requires Enumerates(entries, m)
    requires DescribedSoFar(entries, codec, |entries|, attributes, actions)
    ensures forall i :: 0 <= i < |actions| ==>
      IsActionAt(m, actions[i].path)
      && ActionInfoOf(actions[i], actions[i].path, m[actions[i].path].action, codec)
    ensures forall i, j :: 0 <= i < j < |actions| ==> actions[i].path != actions[j].path
  {
    assert entries[..|entries|] == entries;
    forall i | 0 <= i < |actions|
      ensures IsActionAt(m, actions[i].path)
      ensures ActionInfoOf(actions[i], actions[i].path, m[actions[i].path].action, codec)
    {
      SelectIn(entries, false, i);
    }
    forall i, j | 0 <= i < j < |actions|
      ensures actions[i].path != actions[j].path
    {
      SelectDistinct(entries, false, i, j);
    }
  }
}
