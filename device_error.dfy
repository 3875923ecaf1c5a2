/**
 * The error type of the device layer: its variants, the text each one
 * displays, which of them wraps an underlying cause, and the conversions
 * that build one from an I/O error or from a message.
 */
module DeviceErrors {
  import opened Wrappers
  import opened Text

  /** An operating-system I/O error, known by the text it displays. */
  datatype IoError = IoError(message: string)

  datatype DeviceError =
    | Io(cause: IoError)
    | InternalError(msg: string)
    | NotImplemented
    | ActionRunInvalid(path: string)
    | AttributeReadInvalid(path: string)
    | AttributeWriteInvalid(path: string)
    | PathExists(path: string)
    | PathNotFound(path: string)

  const IoPrefix := "IO error: "
  const InternalPrefix := "Internal error: "
  const NotImplementedText := "Method not implemented"
  const RunInvalidPrefix := "Action cannot be run: "
  const ReadInvalidPrefix := "Attribute cannot be read: "
  const WriteInvalidPrefix := "Attribute cannot be written: "
  const PathExistsPrefix := "Device path already exists: "
  const PathNotFoundPrefix := "Device path not found: "

  /**
   * The text `Display` writes for an error.  Only `NotImplemented` shows the
   * fixed text; every other variant shows a prefix and then its payload.
   */
  function Display(e: DeviceError): (r: string)
    ensures r == NotImplementedText <==> e.NotImplemented?
  {
    var (prefix, payload) := match e
      case Io(cause) => (IoPrefix, cause.message)
      case InternalError(msg) => (InternalPrefix, msg)
      case NotImplemented => (NotImplementedText, "")
      case ActionRunInvalid(path) => (RunInvalidPrefix, path)
      case AttributeReadInvalid(path) => (ReadInvalidPrefix, path)
      case AttributeWriteInvalid(path) => (WriteInvalidPrefix, path)
      case PathExists(path) => (PathExistsPrefix, path)
      case PathNotFound(path) => (PathNotFoundPrefix, path);
    // every prefix but the fixed text's starts with another letter
    assert (prefix + payload)[0] == prefix[0];
    prefix + payload
  }

  /**
   * Reads an error back from its text: the first fixed prefix the text
   * starts with decides the variant, and the rest is its payload.
   */
  function ParseDisplay(s: string): Option<DeviceError>
  {
    if StartsWith(s, IoPrefix) then Some(Io(IoError(s[|IoPrefix|..])))
    else if StartsWith(s, InternalPrefix) then Some(InternalError(s[|InternalPrefix|..]))
    else if s == NotImplementedText then Some(NotImplemented)
    else if StartsWith(s, RunInvalidPrefix) then Some(ActionRunInvalid(s[|RunInvalidPrefix|..]))
    else if StartsWith(s, ReadInvalidPrefix) then Some(AttributeReadInvalid(s[|ReadInvalidPrefix|..]))
    else if StartsWith(s, WriteInvalidPrefix) then Some(AttributeWriteInvalid(s[|WriteInvalidPrefix|..]))
    else if StartsWith(s, PathExistsPrefix) then Some(PathExists(s[|PathExistsPrefix|..]))
    else if StartsWith(s, PathNotFoundPrefix) then Some(PathNotFound(s[|PathNotFoundPrefix|..]))
    else None
  }

  /** Two texts that differ at index `k` cannot both be prefixes of one string. */
  lemma NotBothPrefixes(p: string, q: string, s: string, k: nat)
    requires k < |p| && k < |q| && p[k] != q[k]
    ensures StartsWith(s, p) ==> !StartsWith(s, q)
  {
    if StartsWith(s, p) {
      assert s[k] == p[k];
    }
  }

  /**
   * The displayed text identifies the error: reading it back gives the
   * same variant with the same payload, so no two errors display alike.
   */
  lemma DisplayRoundTrip(e: DeviceError)
    ensures ParseDisplay(Display(e)) == Some(e)
  {
    if e.Io? || e.InternalError? || e.NotImplemented? || e.ActionRunInvalid? {
      RoundTripFirst(e);
    } else {
      RoundTripRest(e);
    }
  }

  lemma RoundTripFirst(e: DeviceError)
    requires e.Io? || e.InternalError? || e.NotImplemented? || e.ActionRunInvalid?
    ensures ParseDisplay(Display(e)) == Some(e)
  {
    var s := Display(e);
    match e
    case Io(cause) =>
      assert StartsWith(s, IoPrefix);
      assert s[|IoPrefix|..] == cause.message;
    case InternalError(msg) =>
      NotBothPrefixes(InternalPrefix, IoPrefix, s, 1);
      assert s[|InternalPrefix|..] == msg;
    case NotImplemented =>
      NotBothPrefixes(NotImplementedText, IoPrefix, s, 0);
      NotBothPrefixes(NotImplementedText, InternalPrefix, s, 0);
    case ActionRunInvalid(path) =>
      NotBothPrefixes(RunInvalidPrefix, IoPrefix, s, 0);
      NotBothPrefixes(RunInvalidPrefix, InternalPrefix, s, 0);
      assert s[|RunInvalidPrefix|..] == path;
  }

  lemma RoundTripRest(e: DeviceError)
    requires !(e.Io? || e.InternalError? || e.NotImplemented? || e.ActionRunInvalid?)
    ensures ParseDisplay(Display(e)) == Some(e)
  {
    var s := Display(e);
    match e
    case AttributeReadInvalid(path) =>
      NotBothPrefixes(ReadInvalidPrefix, IoPrefix, s, 0);
      NotBothPrefixes(ReadInvalidPrefix, InternalPrefix, s, 0);
      NotBothPrefixes(ReadInvalidPrefix, RunInvalidPrefix, s, 1);
      assert s[|ReadInvalidPrefix|..] == path;
    case AttributeWriteInvalid(path) =>
      NotBothPrefixes(WriteInvalidPrefix, IoPrefix, s, 0);
      NotBothPrefixes(WriteInvalidPrefix, InternalPrefix, s, 0);
      NotBothPrefixes(WriteInvalidPrefix, RunInvalidPrefix, s, 1);
      NotBothPrefixes(WriteInvalidPrefix, ReadInvalidPrefix, s, 20);
      assert s[|WriteInvalidPrefix|..] == path;
    case PathExists(path) =>
      NotBothPrefixes(PathExistsPrefix, IoPrefix, s, 0);
      NotBothPrefixes(PathExistsPrefix, InternalPrefix, s, 0);
      NotBothPrefixes(PathExistsPrefix, RunInvalidPrefix, s, 0);
      NotBothPrefixes(PathExistsPrefix, ReadInvalidPrefix, s, 0);
      NotBothPrefixes(PathExistsPrefix, WriteInvalidPrefix, s, 0);
      assert s[|PathExistsPrefix|..] == path;
    case PathNotFound(path) =>
      NotBothPrefixes(PathNotFoundPrefix, IoPrefix, s, 0);
      NotBothPrefixes(PathNotFoundPrefix, InternalPrefix, s, 0);
      NotBothPrefixes(PathNotFoundPrefix, RunInvalidPrefix, s, 0);
      NotBothPrefixes(PathNotFoundPrefix, ReadInvalidPrefix, s, 0);
      NotBothPrefixes(PathNotFoundPrefix, WriteInvalidPrefix, s, 0);
      NotBothPrefixes(PathNotFoundPrefix, PathExistsPrefix, s, 12);
      assert s[|PathNotFoundPrefix|..] == path;
  }

  /** Different errors display different texts. */
  lemma DisplayInjective(e1: DeviceError, e2: DeviceError)
    requires Display(e1) == Display(e2)
    ensures e1 == e2
  {
    DisplayRoundTrip(e1);
    DisplayRoundTrip(e2);
  }

  /** `Error::source`: the wrapped I/O error for `Io`, nothing otherwise. */
  function Source(e: DeviceError): (r: Option<IoError>)
    ensures r.Some? <==> e.Io?
    ensures r.Some? ==> r.value == e.cause
  {
    match e
    case Io(cause) => Some(cause)
    case _ => None
  }

  /** `From<io::Error>`: wraps the I/O error, which is then the source. */
  function FromIo(err: IoError): (e: DeviceError)
    ensures Source(e) == Some(err)
    ensures Display(e) == IoPrefix + err.message
  {
    Io(err)
  }

  /** `From<&str>`: an internal error carrying the text. */
  function FromStr(msg: string): (e: DeviceError)
    ensures Source(e) == None
    ensures ParseDisplay(Display(e)) == Some(InternalError(msg))
  {
    DisplayRoundTrip(InternalError(msg));
    InternalError(msg)
  }

  /** `From<String>`: the same error `From<&str>` builds from the same text. */
  function FromString(msg: string): (e: DeviceError)
    ensures e == FromStr(msg)
  {
    InternalError(msg)
  }
}
