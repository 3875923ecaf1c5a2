/**
 * The macOS platform members a host plugin offers: attributes read from
 * the I/O registry through `ioreg`, and an action that speaks a message
 * through `say`.  Running a program is outside the model: its result is
 * what a `Runner` returns for the program and its arguments.
 */
module MacOs {
  import opened Wrappers
  import opened Text
  import opened Avro
  import opened DeviceErrors
  import opened Attributes
  import opened Devices

  /**
   * What a finished command returned: whether it exited successfully, and
   * its two output streams, `None` where the bytes are not UTF-8.
   */
  datatype CommandOutput = CommandOutput(success: bool, stdout: Option<string>, stderr: Option<string>)

  /** Running a program with arguments: its output, or the I/O error that kept it from running. */
  type Runner = (string, seq<string>) -> Result<CommandOutput, IoError>

  const IORegProgram := "/usr/sbin/ioreg"
  const SayProgram := "/usr/bin/say"
  const NotUtf8Message := "ioreg output not UTF-8 compatible"
  const NoPropertyMessage := "ioreg output did not contain property name"
  const BadFormatMessage := "ioreg output property line not in expected format"
  const SayInputMismatchMessage := "Action input does not match schema"
  const SayFailedPrefix := "say failed: "
  const PropertySeparator := " = "

  // ---------------------------------------------------------------------
  // ioreg attributes
  // ---------------------------------------------------------------------

  /** The arguments `ioreg` runs with: the class's registry entries that have the property, one level deep. */
  function IORegArgs(className: string, property: string): seq<string>
  {
    ["-r", "-c", className, "-k", property, "-d", "1"]
  }

  /** The characters trimmed from both ends of a property value. */
  predicate IsWrapChar(c: char)
  {
    c == '"' || c == '<' || c == '>'
  }

  /**
   * The property value in ioreg's output: on the first line that contains
   * the property name, the text after the first ` = ` and before any
   * further one, with quotes and angle brackets trimmed from both ends.
   */
  function ParseIORegOutput(property: string, stdout: string): (r: Result<string, DeviceError>)
    ensures r.Failure? ==>
      r.error == InternalError(NoPropertyMessage) || r.error == InternalError(BadFormatMessage)
    ensures r.Success? && r.value != [] ==> !IsWrapChar(r.value[0]) && !IsWrapChar(r.value[|r.value| - 1])
  {
    var lines := Lines(stdout);
    match FirstLineWith(lines, property)
    case None => Failure(FromStr(NoPropertyMessage))
    case Some(k) =>
      var parts := Split(lines[k], PropertySeparator);
      if |parts| < 2 then Failure(FromStr(BadFormatMessage))
      else Success(TrimMatches(parts[1], IsWrapChar))
  }

  /**
   * Reading fails for a missing property exactly when no line contains
   * the name; for a name without line breaks, when the output does not.
   */
  lemma ParseIORegMissing(property: string, stdout: string)
    requires property != [] && '\n' !in property && '\r' !in property
    ensures ParseIORegOutput(property, stdout) == Failure(InternalError(NoPropertyMessage))
      <==> !Contains(stdout, property)
  {
    LinesContain(stdout, property);
  }

  /** Reading fails for the format exactly when the first matching line has no ` = `. */
  lemma ParseIORegBadFormat(property: string, stdout: string)
    ensures ParseIORegOutput(property, stdout) == Failure(InternalError(BadFormatMessage))
      <==> FirstLineWith(Lines(stdout), property).Some?
           && !Contains(Lines(stdout)[FirstLineWith(Lines(stdout), property).value], PropertySeparator)
  {
    var lines := Lines(stdout);
    if FirstLineWith(lines, property).Some? {
      SplitCount(lines[FirstLineWith(lines, property).value], PropertySeparator);
    }
  }

  /**
   * `value` is what `split(" = ").nth(1)` and `trim_matches` take from
   * `line`: the second piece, from the first ` = ` to the next one or to
   * the end of the line, with the wrap characters cut from both ends.
   */
  ghost predicate SegmentValue(line: string, value: string)
  {
    exists pre, seg, post ::
      SecondPieceAt(line, PropertySeparator, pre, seg, post) && WrapTrimmed(seg, value)
  }

  /** `value` is `seg` with exactly the wrap characters cut from both ends. */
  ghost predicate WrapTrimmed(seg: string, value: string)
  {
    exists i: nat, j: nat :: TrimmedAt(seg, IsWrapChar, i, j) && value == seg[i..j]
  }

  /** A line has at most one segment value. */
  lemma SegmentValueUnique(line: string, v1: string, v2: string)
    requires SegmentValue(line, v1) && SegmentValue(line, v2)
    ensures v1 == v2
  {
    var pre1, seg1, post1 :|
      SecondPieceAt(line, PropertySeparator, pre1, seg1, post1) && WrapTrimmed(seg1, v1);
    var pre2, seg2, post2 :|
      SecondPieceAt(line, PropertySeparator, pre2, seg2, post2) && WrapTrimmed(seg2, v2);
    SecondPieceUnique(line, PropertySeparator, pre1, seg1, post1, pre2, seg2, post2);
    var i1: nat, j1: nat :| TrimmedAt(seg1, IsWrapChar, i1, j1) && v1 == seg1[i1..j1];
    var i2: nat, j2: nat :| TrimmedAt(seg1, IsWrapChar, i2, j2) && v2 == seg1[i2..j2];
    TrimmedAtUnique(seg1, IsWrapChar, i1, j1, i2, j2);
  }

  /**
   * The trimmed second piece of a line holding ` = ` is its segment value,
   * and no other text is.
   */
  lemma LineSegmentValue(line: string)
    requires Contains(line, PropertySeparator)
    ensures |Split(line, PropertySeparator)| >= 2
    ensures forall v :: SegmentValue(line, v) <==> v == TrimMatches(Split(line, PropertySeparator)[1], IsWrapChar)
  {
    var pre, seg, post := SecondSegment(line, PropertySeparator);
    var value := TrimMatches(seg, IsWrapChar);
    assert WrapTrimmed(seg, value);
    assert SegmentValue(line, value);
    forall v | SegmentValue(line, v)
      ensures v == value
    {
      SegmentValueUnique(line, v, value);
    }
  }

  /**
   * Reading succeeds exactly when the first line naming the property holds
   * a ` = `, and the value read is then that line's segment value.
   */
  lemma ParseIORegValue(property: string, stdout: string)
    ensures ParseIORegOutput(property, stdout).Success? <==>
      FirstLineWith(Lines(stdout), property).Some?
      && Contains(Lines(stdout)[FirstLineWith(Lines(stdout), property).value], PropertySeparator)
    ensures ParseIORegOutput(property, stdout).Success? ==>
      SegmentValue(Lines(stdout)[FirstLineWith(Lines(stdout), property).value], ParseIORegOutput(property, stdout).value)
  {
    var lines := Lines(stdout);
    if FirstLineWith(lines, property).Some? {
      var line := lines[FirstLineWith(lines, property).value];
      SplitCount(line, PropertySeparator);
      if Contains(line, PropertySeparator) {
        LineSegmentValue(line);
      }
    }
  }

  /** `IORegAttribute::read`, given what running `ioreg` returned. */
  function IORegRead(property: string, output: Result<CommandOutput, IoError>): (r: Result<Value, DeviceError>)
    ensures output.Failure? ==> r == Failure(Io(output.error))
    ensures output.Success? && output.value.stdout.None? ==> r == Failure(InternalError(NotUtf8Message))
    ensures output.Success? && output.value.stdout.Some? ==>
      match ParseIORegOutput(property, output.value.stdout.value)
      case Success(s) => r == Success(StringValue(s))
      case Failure(e) => r == Failure(e)
    ensures r.Success? ==> r.value.StringValue?
  {
    match output
    case Failure(e) => Failure(FromIo(e))
    case Success(out) =>
      match out.stdout
      case None => Failure(FromStr(NotUtf8Message))
      case Some(text) =>
        match ParseIORegOutput(property, text)
        case Failure(e) => Failure(e)
        case Success(s) => Success(StringValue(s))
  }

  /**
   * `IORegAttribute`: a string attribute that is readable and keeps the
   * default `writable` and `write`; reading runs `ioreg` for the class
   * and property and parses its output.
   */
  function IORegAttribute(className: string, property: string, run: Runner): (a: Attribute)
    ensures a.schema == StringSchema && a.readable && !a.writable
  {
    Default(StringSchema).(
      readable := true,
      read := () => IORegRead(property, run(IORegProgram, IORegArgs(className, property))))
  }

  /**
   * Reading runs `ioreg` for the class and property and gives a value of
   * the string schema; writing keeps the default refusal.
   */
  lemma IORegAttributeBehaviour(className: string, property: string, run: Runner)
    ensures IORegAttribute(className, property, run).read()
      == IORegRead(property, run(IORegProgram, IORegArgs(className, property)))
    ensures IORegAttribute(className, property, run).read().Success? ==>
      Conforms(IORegAttribute(className, property, run).read().value, StringSchema)
    ensures forall v :: IORegAttribute(className, property, run).write(v) == Failure(NotImplemented)
  {
    var a := IORegAttribute(className, property, run);
    assert a.write == Default(StringSchema).write;
  }

  // ---------------------------------------------------------------------
  // the say action
  // ---------------------------------------------------------------------

  /** The input of the `say` action: the message, and optionally a voice and a speaking rate. */
  datatype SaySettings = SaySettings(msg: string, voice: Option<string>, rate: Option<Int32>)

  /** A Rust `i32`. */
  type Int32 = i: int | IsInt32(i)

  /**
   * The input schema's text as the action embeds it.  The field list ends
   * with a comma before its closing bracket, which JSON does not allow.
   */
  const SayInputSchemaText := SayInputSchemaFields + SayInputSchemaClose

  /** The text up to the last field's closing brace. */
  const SayInputSchemaFields := "\n            {\n                \"type\": \"record\",\n                \"name\": \"SaySettings\",\n                \"fields\": [\n                    {\"name\": \"msg\", \"type\": \"string\"},\n                    {\"name\": \"voice\", \"type\": [\"null\", \"string\"]},\n                    {\"name\": \"rate\", \"type\": [\"null\", \"int\"]}"

  /** The rest: a comma, the closing bracket of the field list and the closing brace. */
  const SayInputSchemaClose := ",\n                ]\n            }\n        "

  /** A comma followed, after nothing but white space, by a closing bracket or brace. */
  ghost predicate HasTrailingComma(text: string)
  {
    exists i, j :: 0 <= i < j < |text| && text[i] == ',' && (text[j] == ']' || text[j] == '}')
      && forall k :: i < k < j ==> IsWhitespace(text[k])
  }

  /**
   * The embedded text is not JSON (RFC 8259, section 5, admits no comma
   * after an array's last element), so parsing it, as `input_schema` does
   * on every call, fails.
   */
  lemma SayInputSchemaTextHasTrailingComma()
    ensures HasTrailingComma(SayInputSchemaText)
  {
    CloseHasTrailingComma();
    TrailingCommaAfter(SayInputSchemaFields, SayInputSchemaClose);
  }

  /** The comma sits at the start of the closing text, before its `]`. */
  lemma CloseHasTrailingComma()
    ensures HasTrailingComma(SayInputSchemaClose)
  {
    var close := SayInputSchemaClose;
    assert close[0] == ',' && close[18] == ']';
    assert forall k :: 0 < k < 18 ==> close[k] == '\n' || close[k] == ' ';
  }

  /** A trailing comma stays one whatever text comes before it. */
  lemma TrailingCommaAfter(head: string, tail: string)
    requires HasTrailingComma(tail)
    ensures HasTrailingComma(head + tail)
  {
    var i, j :| 0 <= i < j < |tail| && tail[i] == ',' && (tail[j] == ']' || tail[j] == '}')
      && forall k :: i < k < j ==> IsWhitespace(tail[k]);
    var text := head + tail;
    assert forall k :: |head| + i < k < |head| + j ==> text[k] == tail[k - |head|];
    assert text[|head| + i] == ',' && text[|head| + j] == tail[j];
  }

  /** The schema the embedded text evidently means: the record of `SaySettings`. */
  const SayInputSchema := RecordSchema("SaySettings", [
    FieldSchema("msg", StringSchema),
    FieldSchema("voice", UnionSchema([NullSchema, StringSchema])),
    FieldSchema("rate", UnionSchema([NullSchema, IntSchema]))])

  /** The value of an optional string, as a `["null", "string"]` union. */
  function OptionalString(v: Value): Option<Option<string>>
  {
    match v
    case UnionValue(NullValue) => Some(None)
    case UnionValue(StringValue(s)) => Some(Some(s))
    case _ => None
  }

  /** The value of an optional `i32`, as a `["null", "int"]` union. */
  function OptionalInt(v: Value): Option<Option<Int32>>
  {
    match v
    case UnionValue(NullValue) => Some(None)
    case UnionValue(IntValue(i)) => if IsInt32(i) then Some(Some(i)) else None
    case _ => None
  }

  /** `from_value::<SaySettings>`: the settings a record value holds, if it holds them. */
  function SettingsOf(v: Value): Option<SaySettings>
  {
    if v.RecordValue? && |v.fields| == 3
       && v.fields[0].name == "msg" && v.fields[1].name == "voice" && v.fields[2].name == "rate"
       && v.fields[0].value.StringValue?
    then
      match (OptionalString(v.fields[1].value), OptionalInt(v.fields[2].value))
      case (Some(voice), Some(rate)) => Some(SaySettings(v.fields[0].value.s, voice, rate))
      case _ => None
    else None
  }

  /** The record value of some settings. */
  function SettingsValue(s: SaySettings): Value
  {
    RecordValue([
      FieldValue("msg", StringValue(s.msg)),
      FieldValue("voice", UnionValue(if s.voice.Some? then StringValue(s.voice.value) else NullValue)),
      FieldValue("rate", UnionValue(if s.rate.Some? then IntValue(s.rate.value) else NullValue))])
  }

  /**
   * Every value of the schema holds settings, so the `expect` on decoding
   * never fires for an input the server decoded with this schema.
   */
  lemma SchemaValuesHoldSettings(v: Value)
    requires Conforms(v, SayInputSchema)
    ensures SettingsOf(v).Some?
  {
    var fields := SayInputSchema.fields;
    assert Conforms(v.fields[1].value, fields[1].schema);
    assert Conforms(v.fields[2].value, fields[2].schema);
    OptionalStringHeld(v.fields[1].value);
    OptionalIntHeld(v.fields[2].value);
  }

  /** Every value of `["null", "string"]` is an optional string. */
  lemma OptionalStringHeld(v: Value)
    requires Conforms(v, UnionSchema([NullSchema, StringSchema]))
    ensures OptionalString(v).Some?
  {
    var k :| 0 <= k < 2 && Conforms(v.v, [NullSchema, StringSchema][k]);
  }

  /** Every value of `["null", "int"]` is an optional `i32`. */
  lemma OptionalIntHeld(v: Value)
    requires Conforms(v, UnionSchema([NullSchema, IntSchema]))
    ensures OptionalInt(v).Some?
  {
    var k :| 0 <= k < 2 && Conforms(v.v, [NullSchema, IntSchema][k]);
  }

  /** Settings are a value of the schema, and that value holds them back. */
  lemma SettingsRoundTrip(s: SaySettings)
    ensures Conforms(SettingsValue(s), SayInputSchema)
    ensures SettingsOf(SettingsValue(s)) == Some(s)
  {
    SettingsDecode(s);
    SettingsConform(s);
  }

  lemma SettingsDecode(s: SaySettings)
    ensures SettingsOf(SettingsValue(s)) == Some(s)
  {
  }

  lemma SettingsConform(s: SaySettings)
    ensures Conforms(SettingsValue(s), SayInputSchema)
  {
    var w := SettingsValue(s);
    var fields := SayInputSchema.fields;
    OptionalConforms(s.voice.Some?, if s.voice.Some? then StringValue(s.voice.value) else NullValue, StringSchema);
    OptionalConforms(s.rate.Some?, if s.rate.Some? then IntValue(s.rate.value) else NullValue, IntSchema);
    RecordOfThree(w.fields, "SaySettings", fields);
  }

  /** A value of a schema, or null, is a value of the union of null and that schema. */
  lemma OptionalConforms(present: bool, v: Value, s: Schema)
    requires present ==> Conforms(v, s)
    requires !present ==> v == NullValue
    ensures Conforms(UnionValue(v), UnionSchema([NullSchema, s]))
  {
    UnionConforms(v, [NullSchema, s], if present then 1 else 0);
  }

  /** A record of three fields conforms when each field does. */
  lemma RecordOfThree(values: seq<FieldValue>, name: string, fields: seq<FieldSchema>)
    requires |values| == 3 && |fields| == 3
    requires values[0].name == fields[0].name && Conforms(values[0].value, fields[0].schema)
    requires values[1].name == fields[1].name && Conforms(values[1].value, fields[1].schema)
    requires values[2].name == fields[2].name && Conforms(values[2].value, fields[2].schema)
    ensures Conforms(RecordValue(values), RecordSchema(name, fields))
  {
  }

  lemma UnionConforms(v: Value, branches: seq<Schema>, k: nat)
    requires k < |branches| && Conforms(v, branches[k])
    ensures Conforms(UnionValue(v), UnionSchema(branches))
  {
  }

  /** The arguments `say` runs with: `-v voice` if a voice is set, then `-r rate` if a rate is set, then the message. */
  function SayArgList(s: SaySettings): seq<string>
  {
    (if s.voice.Some? then ["-v", s.voice.value] else [])
    + (if s.rate.Some? then ["-r", IntToString(s.rate.value)] else [])
    + [s.msg]
  }

  /** Builds the argument vector as `run` does, one push at a time. */
  method SayArgs(s: SaySettings) returns (args: seq<string>)
    ensures args == SayArgList(s)
  {
    args := [];
    if s.voice.Some? {
      args := args + ["-v"];
      args := args + [s.voice.value];
    }
    if s.rate.Some? {
      args := args + ["-r"];
      args := args + [IntToString(s.rate.value)];
    }
    args := args + [s.msg];
  }

  /** Reads settings back from an argument vector: the inverse of `SayArgList`. */
  function ParseSayArgs(args: seq<string>): Option<SaySettings>
  {
    if |args| >= 3 && args[0] == "-v" then
      match ParseRateAndMessage(args[2..])
      case None => None
      case Some((rate, msg)) => Some(SaySettings(msg, Some(args[1]), rate))
    else
      match ParseRateAndMessage(args)
      case None => None
      case Some((rate, msg)) => Some(SaySettings(msg, None, rate))
  }

  function ParseRateAndMessage(args: seq<string>): Option<(Option<Int32>, string)>
  {
    if |args| == 3 && args[0] == "-r" then
      match ParseInt(args[1])
      case None => None
      case Some(rate) => if IsInt32(rate) then Some((Some(rate), args[2])) else None
    else if |args| == 1 then Some((None, args[0]))
    else None
  }

  /**
   * The argument vector determines the settings: the message is always the
   * last argument, and the options before it read back as the voice and
   * the rate they came from.
   */
  lemma SayArgsRoundTrip(s: SaySettings)
    ensures ParseSayArgs(SayArgList(s)) == Some(s)
    ensures SayArgList(s)[|SayArgList(s)| - 1] == s.msg
    ensures |SayArgList(s)| == 1 + (if s.voice.Some? then 2 else 0) + (if s.rate.Some? then 2 else 0)
  {
    var args := SayArgList(s);
    var tail := (if s.rate.Some? then ["-r", IntToString(s.rate.value)] else []) + [s.msg];
    if s.rate.Some? {
      IntToStringRoundTrip(s.rate.value);
      assert ParseRateAndMessage(tail) == Some((s.rate, s.msg));
    }
    if s.voice.Some? {
      assert args[2..] == tail;
    } else {
      assert args == tail;
    }
  }

  /**
   * What `run` answers once `say` has run, as written: a failed exit is
   * reported with the trimmed text of the command's standard output.
   */
  function SayResult(output: Result<CommandOutput, IoError>): (r: Result<Value, DeviceError>)
    ensures r.Success? <==> output.Success? && output.value.success
    ensures r.Success? ==> r.value == NullValue
    ensures output.Failure? ==> r == Failure(Io(output.error))
    ensures output.Success? && !output.value.success && output.value.stdout.None? ==>
      r == Failure(InternalError(NotUtf8Message))
    ensures output.Success? && !output.value.success && output.value.stdout.Some? ==>
      r == Failure(InternalError(SayFailedPrefix + Trim(output.value.stdout.value)))
  {
    match output
    case Failure(e) => Failure(FromIo(e))
    case Success(out) =>
      if out.success then Success(NullValue)
      else match out.stdout
        case None => Failure(FromStr(NotUtf8Message))
        case Some(text) => Failure(FromString(SayFailedPrefix + Trim(text)))
  }

  /**
   * What `run` evidently means to answer: a failed exit reported with the
   * trimmed text of the command's standard error.
   */
  function SayResultIntended(output: Result<CommandOutput, IoError>): (r: Result<Value, DeviceError>)
    ensures r.Success? <==> output.Success? && output.value.success
    ensures r.Success? ==> r.value == NullValue
    ensures output.Failure? ==> r == Failure(Io(output.error))
    ensures output.Success? && !output.value.success && output.value.stderr.None? ==>
      r == Failure(InternalError(NotUtf8Message))
    ensures output.Success? && !output.value.success && output.value.stderr.Some? ==>
      r == Failure(InternalError(SayFailedPrefix + Trim(output.value.stderr.value)))
  {
    match output
    case Failure(e) => Failure(FromIo(e))
    case Success(out) =>
      if out.success then Success(NullValue)
      else match out.stderr
        case None => Failure(FromStr(NotUtf8Message))
        case Some(text) => Failure(FromString(SayFailedPrefix + Trim(text)))
  }

  /**
   * As written, a failing `say` that reports its reason on standard error
   * and prints nothing on standard output yields just the prefix: the
   * reason is lost, whatever it is.  As intended, the error carries the
   * trimmed reason whatever standard output holds.
   */
  lemma SayFailureReason(diagnostic: string, stdout: Option<string>)
    ensures SayResult(Success(CommandOutput(false, Some(""), Some(diagnostic))))
      == Failure(InternalError(SayFailedPrefix))
    ensures SayResultIntended(Success(CommandOutput(false, stdout, Some(diagnostic))))
      == Failure(InternalError(SayFailedPrefix + Trim(diagnostic)))
  {
    TrimEmpty();
    assert SayFailedPrefix + Trim("") == SayFailedPrefix;
  }

  /**
   * `SayAction::run`: decode the settings, build the arguments, run
   * `say`, report the outcome.  An input that does not hold settings is
   * refused with an internal error.
   */
  function SayRun(input: Value, run: Runner): (r: Result<Value, DeviceError>)
    ensures SettingsOf(input).None? ==> r == Failure(InternalError(SayInputMismatchMessage))
    ensures r.Success? ==>
      && r.value == NullValue
      && SettingsOf(input).Some?
      && run(SayProgram, SayArgList(SettingsOf(input).value)).Success?
  {
    match SettingsOf(input)
    case None => Failure(InternalError(SayInputMismatchMessage))
    case Some(settings) => SayResult(run(SayProgram, SayArgList(settings)))
  }

  /** `SayAction`: the settings record in, null out. */
  function SayAction(run: Runner): (act: Action)
    ensures act.inputSchema == SayInputSchema && act.outputSchema == NullSchema
    ensures forall s: SaySettings ::
      act.run(SettingsValue(s)) == SayResult(run(SayProgram, SayArgList(s)))
    ensures forall v :: act.run(v).Success? ==> Conforms(act.run(v).value, act.outputSchema)
  {
    var act := Action(SayInputSchema, NullSchema, v => SayRun(v, run));
    forall s: SaySettings
      ensures SettingsOf(SettingsValue(s)) == Some(s)
    {
      SettingsRoundTrip(s);
    }
    act
  }

  // ---------------------------------------------------------------------
  // registration
  // ---------------------------------------------------------------------

  const SerialPath := "serial"
  const ModelPath := "model"
  const SayPath := "say"
  const PlatformClass := "IOPlatformExpertDevice"

  /**
   * `platform_attributes`: adds the serial number and model attributes and
   * the `say` action.  Each insert is unwrapped, so the three paths must be
   * free.
   */
  method PlatformAttributes(device: Device, run: Runner)
    requires SerialPath !in device.members && ModelPath !in device.members && SayPath !in device.members
    modifies device
    ensures device.members == old(device.members)
      [SerialPath := AttributeMember(IORegAttribute(PlatformClass, "IOPlatformSerialNumber", run))]
      [ModelPath := AttributeMember(IORegAttribute(PlatformClass, "model", run))]
      [SayPath := ActionMember(SayAction(run))]
  {
    var r := device.Insert(SerialPath, AttributeMember(IORegAttribute(PlatformClass, "IOPlatformSerialNumber", run)));
    r := device.Insert(ModelPath, AttributeMember(IORegAttribute(PlatformClass, "model", run)));
    r := device.Insert(SayPath, ActionMember(SayAction(run)));
  }
}
