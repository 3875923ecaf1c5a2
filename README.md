# mdcs device plugins, modelled in Dafny

mdcs exposes hardware and host facilities as *devices*. A device is a
registry of *members* under string paths. Each member is one of two kinds:

- an **attribute**: a value with an Avro schema that can be readable
  and/or writable;
- an **action**: something runnable, with an Avro input schema and an
  Avro output schema.

A node launches each device as a *plugin* process. The plugin prints one
`LISTENING ip:port` line, the node connects, and the plugin then answers
Avro-encoded requests one at a time until it is told to quit.

This project models the core of that protocol.

- **Device layer** (`attribute.dfy`, `device.dfy`, `device_error.dfy`)
  - The attribute capability contract: default answers, and the flag set
    derived from the two capability answers.
  - The device registry: a class over a map, with insert, remove, get and
    enumeration.
  - The error type of the device layer: its display texts, its source and
    its conversions.
- **Plugin server** (`server.dfy`, `protocol.dfy`)
  - The requests and responses.
  - How `read_attribute`, `write_attribute` and `run_action` check a path
    before they call the device, in which order they call it, and which
    error message each failure gives.
  - `describe_device` as a loop over the registry.
  - The serve loop: one answer per request, stopping after a quit signal
    or when the stream fails.
- **Handshake** (`handshake.dfy`)
  - The line the plugin prints.
  - How the node extracts the address from that line, and how that
    address would be parsed as `host:port`.
- **macOS host device** (`macos.dfy`)
  - The `ioreg`-backed attributes: the command line and the output
    parsing.
  - The `say` action: its input schema, decoding its settings, building
    the command line, and reporting the outcome.
  - The registration of all three members.
- **Legacy Python host** (`py_device.dfy`, `py_responder.dfy`)
  - The attribute, action and device classes.
  - The responder that answers the `describe`, `read`, `write` and `run`
    messages.
- **Support** (`wrappers.dfy`, `text.dfy`, `avro.dfy`)
  - Option/Result types.
  - The string operations the core uses: split, lines, trim, integer text.
  - Avro schemas and values, and a codec interface.

A few things are modelled as outside inputs:

- **Avro codec.** Encoding and decoding values, and rendering a schema
  as JSON text, are fields of a `Codec` record (`PyCodec` for the
  Python side). The codec is never modelled itself.
- **Device implementations.** What an attribute's `read`/`write` or an
  action's `run` returns is a function field of the member.
- **Wall clock.** Readings arrive as a `Clock` value carried with each
  request.
- **External commands.** Running `ioreg` or `say` is a `Runner` function
  from a program and its arguments to its output.

Where the source disagrees with itself, the model follows the code that
does the work:

- `device.rs` builds its errors with `DeviceError::new(ErrorKind::…)`, but
  `error.rs` declares neither `ErrorKind` nor `new`. The model builds the
  `PathExists` and `PathNotFound` variants directly.
- `server.rs` imports `response::Response`, but `response.rs` declares
  the enum as `PluginResponse`. The model uses one `Response` datatype
  with the five variants of `PluginResponse`.
- `response.rs` gives the device description a `name` field, but the
  description `describe_device` builds has no name. The model's
  `DeviceDescription` carries no name.
- `action.rs` declares the `Action` trait without `run`, and with `&str`
  schemas. The server and `macos.rs` call `run` and use `Schema` values.
  The model's `Action` has `Schema` fields and a `run` function, as
  those callers use it.

## Model

| member | source | states |
|---|---|---|
| DeviceErrors.Display | pkg/mdcs/src/device/error.rs:17-30 | Only `NotImplemented` displays as `Method not implemented`; every other variant displays a prefix that starts differently |
| DeviceErrors.DisplayRoundTrip | pkg/mdcs/src/device/error.rs:17-30 | Every error's display text reads back as the same variant with the same payload, so the eight prefixes never confuse one variant with another |
| DeviceErrors.DisplayInjective | pkg/mdcs/src/device/error.rs:17-30 | Two errors with the same display text are the same error |
| DeviceErrors.NotBothPrefixes | pkg/mdcs/src/device/error.rs:17-30 | Two texts that differ at one index are never both prefixes of a string; this is why the display prefixes are distinguishable |
| DeviceErrors.Source | pkg/mdcs/src/device/error.rs:32-39 | The error source exists exactly for the `Io` variant, and it is the wrapped I/O error |
| DeviceErrors.FromIo | pkg/mdcs/src/device/error.rs:41-45 | Converting an I/O error gives an error whose source is that I/O error and whose text is `IO error: ` followed by the I/O error's text |
| DeviceErrors.FromStr | pkg/mdcs/src/device/error.rs:47-51 | Converting a message gives an error without a source whose text reads back as an internal error carrying that message |
| DeviceErrors.FromString | pkg/mdcs/src/device/error.rs:53-57 | Converting an owned message gives the same error as converting the borrowed one |
| Attributes.Default | pkg/mdcs/src/device/attribute.rs:18-24 | An attribute that overrides nothing is neither readable nor writable, and its `read` and every `write` answer `NotImplemented` |
| Attributes.Flags | pkg/mdcs/src/device/attribute.rs:26-38 | The flag set holds `Read` if and only if the attribute is readable, and `Write` if and only if it is writable |
| Attributes.FlagSetExact | pkg/mdcs/src/device/attribute.rs:26-38 | The flag set is empty when both capabilities are off, holds both flags when both are on, and its size counts the capabilities |
| Devices.Device.constructor | pkg/mdcs/src/device/device.rs:30-34 | A new device has no members |
| Devices.Device.Get | pkg/mdcs/src/device/device.rs:36-38 | A lookup finds a member exactly when the path is registered, and it returns that member |
| Devices.Device.Insert | pkg/mdcs/src/device/device.rs:40-48 | An existing path is refused with `PathExists` and the registry is unchanged; otherwise the member is added under the path and nothing else changes |
| Devices.Device.Remove | pkg/mdcs/src/device/device.rs:50-58 | An unknown path is refused with `PathNotFound` and the registry is unchanged; otherwise exactly that path is removed; either way the path is absent afterwards |
| Devices.Device.Iter | pkg/mdcs/src/device/device.rs:60-62 | The enumeration lists every registered path exactly once, each with its own member |
| PluginServer.Server.constructor | pkg/mdcs_node/src/plugin/server.rs:34-39 | A new server owns the device and starts with the quit flag down |
| PluginServer.Server.HandleSignal | pkg/mdcs_node/src/plugin/server.rs:41-47 | A quit signal raises the quit flag and is acknowledged with status `Ok` |
| PluginServer.RenderFlags | pkg/mdcs_node/src/plugin/server.rs:57-63 | The names listed for an attribute's flags are `read` and `write`, each present exactly when its flag is set, with no duplicates |
| PluginServer.Server.AttributeDescription | pkg/mdcs_node/src/plugin/server.rs:56-80 | An attribute's entry exists exactly when its schema text can be produced; the entry holds the attribute's path, flag names and schema text; otherwise the error text is the attribute-schema prefix followed by the codec's message |
| PluginServer.Server.ActionDescription | pkg/mdcs_node/src/plugin/server.rs:81-113 | An action's entry exists exactly when both schema texts can be produced; the input schema's failure is reported before the output schema's, each with its own prefix |
| PluginServer.Server.Describe | pkg/mdcs_node/src/plugin/server.rs:50-121 | When every schema text can be produced, the description lists each attribute once and each action once, and nothing else; otherwise the answer is an error that names a member whose schema text cannot be produced, with that member's error text |
| PluginServer.DescribedAll | pkg/mdcs_node/src/plugin/server.rs:54-121 | Once the loop has described every enumerated entry, every member renders and the lists describe the registry exactly |
| PluginServer.ReadAttributeOutcome | pkg/mdcs_node/src/plugin/server.rs:123-176 | The answer is one of: `Path not found`, `Path does not refer to an attribute`, `Attribute not readable`, the read failure's text, the serialization failure's text, or the encoded value stamped with the first clock reading. Every error carries the path. The clock and `read` are called, in that order, only for a readable attribute |
| PluginServer.WriteAttributeOutcome | pkg/mdcs_node/src/plugin/server.rs:178-231 | The same path checks, with `Attribute not writable` for the capability. The bytes are decoded before anything is called. A successful write echoes the request's own bytes with the first clock reading. Nothing is called unless the attribute is writable and the bytes decode |
| PluginServer.RunActionOutcome | pkg/mdcs_node/src/plugin/server.rs:233-296 | An unknown path and an attribute path are refused. Undecodable input is refused before anything is called. `run` is called between two clock readings, and the second reading is skipped when `run` fails. The result carries the encoded output with its start and end times |
| PluginServer.ChecksGuardCalls | pkg/mdcs_node/src/plugin/server.rs:123-296 | In each of read, write and run, a failed path or capability check calls nothing on the device. A successful write reads the clock once and then calls `write`; a successful run calls `run` between two clock readings |
| PluginServer.Server.ProcessRequest | pkg/mdcs_node/src/plugin/server.rs:298-306 | Each request kind gets the answer its handler defines, and only a signal raises the quit flag |
| PluginServer.Server.Answer | pkg/mdcs_node/src/plugin/server.rs:326-336 | An item that does not decode is answered with the decoder's message and no path; a decoded request is answered as `process_request` answers it |
| PluginServer.Server.Run | pkg/mdcs_node/src/plugin/server.rs:324-350 | The loop answers exactly the items `Served` counts, each as `Answers` allows, stops for the reason `Served` gives, and leaves the quit flag up exactly when it stopped on a quit |
| PluginServer.Served | pkg/mdcs_node/src/plugin/server.rs:324-350 | The number of items answered never exceeds the number received |
| PluginServer.ServedStops | pkg/mdcs_node/src/plugin/server.rs:324-350 | Reaching the end of the stream means every item was answered. A read failure stops at an unreadable item without answering it. A quit stop comes right after answering a quit |
| PluginServer.ServedNothingAfterQuit | pkg/mdcs_node/src/plugin/server.rs:345-349 | Every answered item before the last is neither a quit nor unreadable |
| PluginServer.ServedUntilQuit | pkg/mdcs_node/src/plugin/server.rs:345-349 | The first quit, with nothing unreadable before it, is the last item answered |
| Handshake.ReadLine | pkg/mdcs_node/src/plugin/instance.rs:26 | The line read is a prefix of the stream |
| Handshake.ReadLineSpec | pkg/mdcs_node/src/plugin/instance.rs:26-30 | The line read is empty exactly at the end of the stream. It runs to and includes the first newline, or to the end of the stream when there is none |
| Handshake.ReadLineStartsWith | pkg/mdcs_node/src/plugin/instance.rs:32-35 | Checking the prefix on the line read is the same as checking it on the stream |
| Handshake.SecondToken | pkg/mdcs_node/src/plugin/instance.rs:37-41 | Once the prefix check passes, the split has a second token, so the `expect` cannot fire; that token is the first token after the prefix |
| Handshake.ListenAddress | pkg/mdcs_node/src/plugin/instance.rs:26-41 | An address is returned only for output that starts with `LISTENING `. It is a prefix of the text after `LISTENING ` and holds no space |
| Handshake.ListenAddressFailures | pkg/mdcs_node/src/plugin/instance.rs:26-35 | The handshake fails as closed exactly when the output is empty, fails as not-listening exactly when non-empty output lacks the prefix, and succeeds otherwise |
| Handshake.PrintedLineRead | pkg/mdcs_node/src/plugin/server.rs:22 | The node reads the server's printed line back whole, whatever follows it on the stream |
| Handshake.ListenAddressRoundTrip | pkg/mdcs_node/src/plugin/instance.rs:37-41 | From the server's line, the node extracts `ip:port` followed by the newline that `read_line` kept |
| Handshake.SocketAddress | pkg/mdcs_node/src/plugin/instance.rs:43 | A parsed `host:port` has a port below 65536 |
| Handshake.SocketAddressRoundTrip | pkg/mdcs_node/src/plugin/instance.rs:43 | `ip:port` parses back as the host `ip` and the port, for every 16-bit port |
| Handshake.PrintedAddressRejected | pkg/mdcs_node/src/plugin/instance.rs:37-43 | The address taken from the server's own line never parses as `host:port`, because its port text ends with a newline |
| Handshake.ListenAddressTrimmed | pkg/mdcs_node/src/plugin/instance.rs:37-43 | The trimmed address fails exactly when the untrimmed one does, with the same error, and is otherwise a prefix of it |
| Handshake.ListenAddressTrimmedRoundTrip | pkg/mdcs_node/src/plugin/instance.rs:37-43 | With the newline trimmed, the server's line yields its own `ip:port`, which parses as its own ip and port |
| MacOs.ParseIORegOutput | pkg/mdcs_node_host/src/macos.rs:34-47 | Parsing fails only with the missing-property or the bad-format internal error. A value it returns has no quote or angle bracket at either end |
| MacOs.ParseIORegMissing | pkg/mdcs_node_host/src/macos.rs:34-38 | Output that does not contain the property name gives `ioreg output did not contain property name` |
| MacOs.ParseIORegBadFormat | pkg/mdcs_node_host/src/macos.rs:40-44 | A first matching line without ` = ` gives `ioreg output property line not in expected format` |
| MacOs.ParseIORegValue | pkg/mdcs_node_host/src/macos.rs:34-47 | Reading succeeds exactly when the first line naming the property contains ` = `. The value is then that line's segment value: the piece from the first ` = ` to the next one, matched from the left, or to the end of the line, with quotes and angle brackets cut from both ends. A line has only one segment value (`SegmentValueUnique`) |
| MacOs.LineSegmentValue | pkg/mdcs_node_host/src/macos.rs:40-45 | For a line holding ` = `, `split(" = ").nth(1)` exists. That piece with exactly the wrap characters trimmed is the line's segment value, and no other text is |
| MacOs.SegmentValueUnique | pkg/mdcs_node_host/src/macos.rs:40-45 | Two segment values of one line are equal. No separator starts before the first ` = ` or inside the second piece, so both pieces are fixed, even when occurrences of ` = ` overlap |
| MacOs.IORegRead | pkg/mdcs_node_host/src/macos.rs:26-48 | A failed launch is an `Io` error; output that is not UTF-8 is the UTF-8 error; otherwise the answer is the parse of the output; a success is a string value |
| MacOs.IORegAttribute | pkg/mdcs_node_host/src/macos.rs:17-24 | The ioreg attribute has a string schema and is readable but not writable |
| MacOs.IORegAttributeBehaviour | pkg/mdcs_node_host/src/macos.rs:26-48 | Reading runs `ioreg -r -c <class> -k <property> -d 1` and parses its output. A value read conforms to the string schema. Every write answers `NotImplemented` |
| MacOs.SayInputSchemaTextHasTrailingComma | pkg/mdcs_node_host/src/macos.rs:63-75 | The embedded schema text has a comma followed only by whitespace before the `]` that closes the field list |
| MacOs.SchemaValuesHoldSettings | pkg/mdcs_node_host/src/macos.rs:54-59 | Every value conforming to the settings schema decodes to settings |
| MacOs.SettingsRoundTrip | pkg/mdcs_node_host/src/macos.rs:54-84 | Every settings record encodes to a value conforming to the settings schema, and that value decodes back to the same record |
| MacOs.UnionConforms | pkg/mdcs_node_host/src/macos.rs:69-70 | A value conforming to one branch of a union conforms to the union |
| MacOs.SayArgs | pkg/mdcs_node_host/src/macos.rs:86-98 | The arguments are `-v voice` when a voice is set, then `-r rate` when a rate is set, then the message |
| MacOs.SayArgsRoundTrip | pkg/mdcs_node_host/src/macos.rs:86-98 | The arguments parse back to the same settings; the message comes last; the count is one plus two per option set |
| MacOs.SayRun | pkg/mdcs_node_host/src/macos.rs:86-108 | Input that does not hold settings is refused with the schema-mismatch internal error. A success is null, and it comes only from input that holds settings and a `say` run on their arguments that launched |
| MacOs.SayResult | pkg/mdcs_node_host/src/macos.rs:99-108 | As written: the action succeeds with null exactly when `say` launched and exited successfully. A failed launch is the `Io` error. A failed exit is reported from standard output: the UTF-8 error when it is not UTF-8, otherwise `say failed: ` followed by the trimmed output |
| MacOs.SayResultIntended | pkg/mdcs_node_host/src/macos.rs:99-108 | The same success condition and launch failure. A failed exit is reported from standard error: the UTF-8 error when it is not UTF-8, otherwise `say failed: ` followed by the trimmed error text |
| MacOs.SayFailureReason | pkg/mdcs_node_host/src/macos.rs:101-105 | As written, a failing `say` whose reason is on standard error reports only `say failed: `. As intended, it reports the trimmed reason |
| MacOs.SayAction | pkg/mdcs_node_host/src/macos.rs:61-109 | The action's schemas are the settings record and null; running it on any settings runs `say` with those settings' arguments and reports the outcome as written (`SayResult`); any output conforms to null |
| MacOs.PlatformAttributes | pkg/mdcs_node_host/src/macos.rs:112-136 | Registration adds exactly `serial` and `model` (ioreg attributes of `IOPlatformExpertDevice`) and the `say` action |
| PyDevices.PyAttribute.Base | pkg/mdcs_node_host/mdcs_node_host/device.py:22-25 | A base attribute keeps its path, flags and schema |
| PyDevices.PyAttribute.Stored | pkg/mdcs_node_host/mdcs_node_host/device.py:67-69 | A stored attribute starts holding its initial value |
| PyDevices.PyAttribute.Delegated | pkg/mdcs_node_host/mdcs_node_host/device.py:83-86 | A delegated attribute keeps its two handlers |
| PyDevices.PyAttribute.Read | pkg/mdcs_node_host/mdcs_node_host/device.py:47-92 | The base class raises `TypeError`; a stored attribute returns its value |
| PyDevices.PyAttribute.Write | pkg/mdcs_node_host/mdcs_node_host/device.py:54-92 | The base class raises `TypeError` and changes nothing. A stored attribute keeps the value, so the next read returns it. A delegated attribute answers as its handler does and keeps its value |
| PyDevices.RunIgnoresInput | pkg/mdcs_node_host/mdcs_node_host/device.py:117-135 | Running an action does not depend on the input, and a base action raises `TypeError` |
| PyDevices.PyDevice.constructor | pkg/mdcs_node_host/mdcs_node_host/device.py:144-155 | The device is named by the given name unless it is missing or empty, in which case a fresh identifier is used; it starts with no attributes and no actions |
| PyDevices.PyDevice.AddAttribute | pkg/mdcs_node_host/mdcs_node_host/device.py:169-173 | A path used by an attribute or an action raises `attribute path is not unique` and changes nothing. Otherwise the attribute is added last. The actions and the device invariant are kept |
| PyDevices.PyDevice.RemoveAttribute | pkg/mdcs_node_host/mdcs_node_host/device.py:175-179 | An unknown path raises `attribute not found` and changes nothing. Otherwise exactly that path is deleted, and the other attributes keep their order |
| PyDevices.PyDevice.AddAction | pkg/mdcs_node_host/mdcs_node_host/device.py:185-189 | A path used by an attribute or an action raises `action path is not unique` and changes nothing. Otherwise the action is added last |
| PyDevices.PyDevice.RemoveAction | pkg/mdcs_node_host/mdcs_node_host/device.py:191-195 | As written: an unknown path raises `action not found`. A known one is stored again, so the set of action paths never shrinks |
| PyDevices.PyDevice.RemoveActionIntended | pkg/mdcs_node_host/mdcs_node_host/device.py:191-195 | As intended: an unknown path raises `action not found`, and a known one is deleted, after which the path is absent |
| PyResponder.FlagNamesListed | pkg/mdcs_node_host/mdcs_node_host/avro.py:56 | The names `READ` and `WRITE` are listed exactly for the flags set, once each, in that order |
| PyResponder.UnknownMessageAsWrittenLosesName | pkg/mdcs_node_host/mdcs_node_host/avro.py:142-144 | As written, an unknown message raises a `NameError` for `msg`, which is not an Avro exception and is the same whatever the message was |
| PyResponder.UnknownMessageNamesIt | pkg/mdcs_node_host/mdcs_node_host/avro.py:142-144 | As intended, an unknown message raises an Avro exception that carries the message's name; different names give different exceptions |
| PyResponder.Responder.constructor | pkg/mdcs_node_host/mdcs_node_host/avro.py:45-47 | The responder serves the given device |
| PyResponder.Responder.Describe | pkg/mdcs_node_host/mdcs_node_host/avro.py:53-80 | The reply carries the device's name, then one entry per attribute and one per action, in insertion order. An attribute entry holds its flag names and schema JSON; an action entry holds its two schema JSONs |
| PyResponder.Responder.DescribedOnce | pkg/mdcs_node_host/mdcs_node_host/avro.py:53-80 | A description lists every attribute and every action of the device exactly once |
| PyResponder.Responder.Read | pkg/mdcs_node_host/mdcs_node_host/avro.py:82-102 | An unknown path answers `attribute not found`. An attribute without the READ flag answers `attribute is not readable` with its path. Otherwise the value read is serialized and stamped with the clock read afterwards. Exceptions pass through |
| PyResponder.Responder.Write | pkg/mdcs_node_host/mdcs_node_host/avro.py:82-118 | An unknown path answers `attribute not found`, and a missing WRITE flag answers `attribute is not writable`. Otherwise the data is unserialized and written, and the reply echoes the data. Only a stored attribute's value changes, to the value written |
| PyResponder.Responder.Run | pkg/mdcs_node_host/mdcs_node_host/avro.py:120-140 | An unknown action answers `action not found`. Otherwise the input is unserialized, the action runs between two clock readings, and its output is serialized |
| PyResponder.Responder.Invoke | pkg/mdcs_node_host/mdcs_node_host/avro.py:52-144 | Each message name gets its branch's answer. Any other name raises what the branch raises as written: a `NameError` for `msg`. Only a `write` changes an attribute, and only the one at the request's path |
| PyResponder.Responder.WriteThenRead | pkg/mdcs_node_host/mdcs_node_host/avro.py:82-118 | On a readable and writable stored attribute, a read after a write answers with the serialization of the value written |
| Text.SplitCount | pkg/mdcs_node_host/src/macos.rs:41-44 | Splitting on a separator yields a second piece exactly when the text contains the separator |
| Text.SplitJoin | pkg/mdcs_node_host/src/macos.rs:41-44 | Joining the pieces of a split with the separator gives back the original text |
| Text.LinesContain | pkg/mdcs_node_host/src/macos.rs:34-38 | Some line of a text contains a pattern without a newline exactly when the text does |
| Text.TrimMatches | pkg/mdcs_node_host/src/macos.rs:45 | Trimming a character class yields a slice of the text whose removed ends are all in the class |
| Text.IntToStringRoundTrip | pkg/mdcs_node_host/src/macos.rs:95 | The decimal text of an integer parses back to that integer |

## Left out

- Sockets are not modelled: binding, accepting and connecting, the
  `ACCEPTED` and `QUIT` lines, and the Avro object-container framing of
  the stream. The request stream is a sequence of decoded items, and the
  answers are a sequence of responses.
- `process.rs`, `linux.rs`, `console.py`, `config.rs` and the
  setup and main programs are not part of this model. They start
  processes, parse configuration or drive a console.
- The Avro library is not modelled. Encoding, decoding and rendering a
  schema as JSON are outside functions in a codec record, so no codec
  round trip is stated. The Python `serialize_value`/`unserialize_value`
  (`avro.py:18-41`) are the same kind of outside function.
  `unserialize_value` is passed a schema but reads with the one the
  container carries, so the model's unserialize takes no schema.
- The wall clock is an input. The conversion of `SystemTime` to
  milliseconds, and Python's `int(round(time.time() * 1000))`, are not
  modelled.
- PluginServer.Server.Run: a panic while serializing or flushing a
  response, and a failed read of the stream (`value.expect`), are not
  modelled as panics. The loop stops with `ReadFailed` before an
  unreadable item, and writing the responses is not modelled.
- Handshake.ListenAddress: the two `panic!` calls of `initial_connect`
  are modelled as the `ChildStdoutClosed` and `NotListeningLine` errors.
  The `expect` on the split is proved unreachable.
- Handshake.ListenAddress: the node's standard output is taken as a
  ready string. The error `read_line` returns for an I/O failure or for
  output that is not UTF-8 (`instance.rs:26`) is not modelled.
- Handshake.SocketAddress: `TcpStream::connect` also resolves host names
  and accepts bracketed IPv6 addresses. The model only splits at the last
  `:` and reads a 16-bit port.
- MacOs.SayRun: an input that does not decode as settings panics in the
  source (`expect`). The model answers an internal error instead.
- MacOs.PlatformAttributes: each `insert` is unwrapped, so the source
  panics when one of `serial`, `model` or `say` is already registered.
  The model requires the three paths to be free and does not model the
  panic.
- MacOs.SayAction: the model gives the action the settings record the
  embedded text evidently describes. The source's own text has a
  trailing comma (see Findings), so parsing it would panic.
- PyDevices.PyAttribute.Read: a delegated attribute answers as its
  handler does. The handler is an outside function.
- In the source, `raise NotImplemented()` calls a constant that cannot
  be called. The model therefore raises `TypeError`, not
  `NotImplementedError`.
- The Python constructors parse each JSON schema with
  `avro.schema.Parse`, and that parsing may raise. The model takes the
  parsed schema as given.
- The Python device's `config` is stored and never read, so it is not
  modelled.
- The KeyErrors the Python responder would raise on a request without
  `path`, or on a `write` request without `data.value`, are not
  modelled. A request always carries a path and data.
- PyResponder.FlagNames: iterating an `IntFlag` value lists its members
  from Python 3.11 on; earlier versions raise `TypeError`. The model
  follows the newer behaviour.
- Devices.Device.Iter: a hash map enumerates in an order the source
  does not fix, and the model fixes none. Only the set of entries is
  stated.
- PluginServer.RenderFlags: a hash set fixes no order for the flag
  names, so only which names appear is stated.
- 64-bit timestamps and 32-bit `rate` values are unbounded integers.
  The `say` rate is checked to be a 32-bit value when settings are
  decoded.

## Findings

| source | as written | input that shows it | evidently intended | confidence | as-written member | corrected member |
|---|---|---|---|---|---|---|
| pkg/mdcs_node/src/plugin/instance.rs:26-43 | The token after `LISTENING ` keeps the newline that `read_line` leaves on the line, and that token is handed to `TcpStream::connect` | The plugin prints `LISTENING 127.0.0.1:5000\n`; the node's address is `127.0.0.1:5000\n`, whose port text `5000\n` is not a port | Trim the line ending first, so the address is `127.0.0.1:5000` | not executed | Handshake.PrintedAddressRejected | Handshake.ListenAddressTrimmedRoundTrip |
| pkg/mdcs_node_host/src/macos.rs:101-105 | A failed `say` is reported from `output.stdout`, in a variable named `stderr`, with the message of the `ioreg` UTF-8 error | `say -v NoSuchVoice hi` exits non-zero with its reason on standard error and nothing on standard output; the error is just `say failed: ` | Report `output.stderr`, trimmed | not executed | MacOs.SayFailureReason | MacOs.SayResultIntended |
| pkg/mdcs_node_host/src/macos.rs:63-75 | The embedded settings schema has a comma after the last field, before the closing `]` | Calling `input_schema()` parses text with `,` followed by whitespace and `]`; a strict JSON parser refuses it (RFC 8259, section 5), and the `expect` panics | The same record without the trailing comma: `msg` a string, `voice` null or a string, `rate` null or an int | not executed | MacOs.SayInputSchemaTextHasTrailingComma | MacOs.SettingsRoundTrip |
| pkg/mdcs_node_host/mdcs_node_host/device.py:191-195 | `remove_action` stores the action again under its path instead of deleting it | Add an action at `beep`, then remove it; `beep` is still among the actions | `del self._actions[action.path]`, as `remove_attribute` does | not executed | PyDevices.PyDevice.RemoveAction | PyDevices.PyDevice.RemoveActionIntended |
| pkg/mdcs_node_host/mdcs_node_host/avro.py:142-144 | The unknown-message branch uses `msg.name`, but `Invoke` has no `msg`, so it raises `NameError` instead of the Avro exception | Any message name other than `describe`, `read`, `write` or `run` | `AvroException("unexpected message: ", message.name)` | not executed | PyResponder.UnknownMessageAsWrittenLosesName | PyResponder.UnknownMessageNamesIt |
