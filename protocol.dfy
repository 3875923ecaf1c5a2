/**
 * The messages between a node and a plugin: the requests a node sends and
 * the responses a plugin answers with.
 */
module Protocol {
  import opened Wrappers
  import opened Avro

  datatype Signal = Quit

  datatype Request =
    | SignalRequest(signal: Signal)
    | DescribeDevice
    | ReadAttribute(path: string)
    | WriteAttribute(path: string, value: Bytes)
    | RunAction(path: string, input: Bytes)

  datatype Status = Ok

  /** One attribute of a device description: its path, flag names and schema text. */
  datatype AttributeInfo = AttributeInfo(path: string, flags: seq<string>, schema: string)

  /** One action of a device description: its path and the texts of its two schemas. */
  datatype ActionInfo = ActionInfo(path: string, inputSchema: string, outputSchema: string)

  /**
   * A response.  Timestamps are milliseconds since the Unix epoch.  The
   * description carries no device name: the response the server builds has
   * none.
   */
  datatype Response =
    | StatusResponse(status: Status)
    | Error(message: string, path: Option<string>)
    | DeviceDescription(attributes: seq<AttributeInfo>, actions: seq<ActionInfo>)
    | AttributeValue(value: Bytes, time: int)
    | ActionResult(output: Bytes, start: int, end: int)
}
