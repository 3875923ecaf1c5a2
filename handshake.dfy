/**
 * The start-up handshake between a node and the plugin it launched: the
 * plugin prints one line announcing the address it listens on, and the
 * node reads that line from the plugin's standard output, checks it, and
 * takes the address to connect to from it.
 */
module Handshake {
  import opened Wrappers
  import opened Text

  const ListeningPrefix := "LISTENING "

  /** The line a plugin prints once its listener is bound; `println!` ends it with a newline. */
  function ListeningLine(ip: string, port: nat): string
  {
    ListeningPrefix + ip + ":" + NatToString(port) + "\n"
  }

  /**
   * `BufRead::read_line`: the stream up to and including its first
   * newline, or all of it when it has none.
   */
  function ReadLine(stream: string): (line: string)
    ensures line <= stream
  {
    match IndexOf(stream, '\n')
    case None => stream
    case Some(i) => stream[..i + 1]
  }

  /** The line read is empty only at the end of the stream, and ends at the first newline. */
  lemma ReadLineSpec(stream: string)
    ensures ReadLine(stream) == [] <==> stream == []
    ensures '\n' !in stream ==> ReadLine(stream) == stream
    ensures '\n' in stream ==>
      var line := ReadLine(stream);
      line != [] && line[|line| - 1] == '\n' && '\n' !in line[..|line| - 1]
  {
    IndexOfSpec(stream, '\n');
  }

  /** A newline-free prefix is seen on the line read exactly when the stream starts with it. */
  lemma ReadLineStartsWith(stream: string, prefix: string)
    requires '\n' !in prefix
    ensures StartsWith(ReadLine(stream), prefix) <==> StartsWith(stream, prefix)
  {
    IndexOfSpec(stream, '\n');
  }

  datatype HandshakeError =
    | ChildStdoutClosed  // the first read returned no bytes
    | NotListeningLine   // the first line does not start with the expected prefix

  /**
   * The address `initial_connect` hands to `TcpStream::connect`: the
   * second space-separated token of the first line, once the line is known
   * to be non-empty and to start with `LISTENING `.  The token keeps
   * whatever the line ends with, its newline included.
   */
  function ListenAddress(stdout: string): (r: Result<string, HandshakeError>)
    ensures r.Success? ==> StartsWith(stdout, ListeningPrefix)
    ensures r.Success? ==> r.value <= stdout[|ListeningPrefix|..] && ' ' !in r.value
  {
    var line := ReadLine(stdout);
    if |line| == 0 then Failure(ChildStdoutClosed)
    else if !StartsWith(line, ListeningPrefix) then Failure(NotListeningLine)
    else
      SecondToken(line);
      FirstPiece(line[|ListeningPrefix|..], " ");
      ContainsChar(Split(line, " ")[1], ' ');
      Success(Split(line, " ")[1])
  }

  /**
   * Once the prefix check passes the split has a second element, so the
   * `expect` on it cannot fire; that element is the first token after the
   * prefix.
   */
  lemma SecondToken(line: string)
    requires StartsWith(line, ListeningPrefix)
    ensures |Split(line, " ")| >= 2
    ensures Split(line, " ")[1] == Split(line[|ListeningPrefix|..], " ")[0]
  {
    var rest := line[|ListeningPrefix|..];
    assert line == "LISTENING" + [' '] + rest;
    SplitAtChar("LISTENING", ' ', rest);
  }

  /**
   * The two failures: an empty stream, and a first line that does not
   * start with the prefix, which is the same as a stream that does not.
   */
  lemma ListenAddressFailures(stdout: string)
    ensures ListenAddress(stdout) == Failure(ChildStdoutClosed) <==> stdout == []
    ensures ListenAddress(stdout) == Failure(NotListeningLine) <==> stdout != [] && !StartsWith(stdout, ListeningPrefix)
    ensures ListenAddress(stdout).Success? <==> StartsWith(stdout, ListeningPrefix)
  {
    ReadLineSpec(stdout);
    ReadLineStartsWith(stdout, ListeningPrefix);
  }

  /** The token after the prefix of a line the server printed. */
  lemma PrintedLineRead(ip: string, port: nat, rest: string)
    requires '\n' !in ip
    ensures ReadLine(ListeningLine(ip, port) + rest) == ListeningLine(ip, port)
  {
    var line := ListeningLine(ip, port);
    var s := line + rest;
    var n := |line| - 1;
    assert s[n] == '\n';
    forall k | 0 <= k < n
      ensures s[k] != '\n'
    {
      if k < |ListeningPrefix| + |ip| + 1 {
        assert s[k] in ListeningPrefix + ip + ":";
      } else {
        assert s[k] == NatToString(port)[k - |ListeningPrefix| - |ip| - 1];
      }
    }
    IndexOfSpec(s, '\n');
    var i := IndexOf(s, '\n').value;
    assert s[..n + 1] == line;
  }

  /**
   * Round trip with the server's output: from the line the server prints,
   * the node extracts `ip:port` followed by the newline `read_line` kept.
   */
  lemma ListenAddressRoundTrip(ip: string, port: nat, rest: string)
    requires ' ' !in ip && '\n' !in ip
    ensures ListenAddress(ListeningLine(ip, port) + rest) == Success(ip + ":" + NatToString(port) + "\n")
  {
    var line := ListeningLine(ip, port);
    var token := ip + ":" + NatToString(port) + "\n";
    PrintedLineRead(ip, port, rest);
    SecondToken(line);
    assert line[|ListeningPrefix|..] == token;
    TokenWithoutSpace(ip, NatToString(port));
    SplitWithoutChar(token, ' ');
  }

  /** An address token built from a space-free ip and a port's digits holds no space. */
  lemma TokenWithoutSpace(ip: string, digits: string)
    requires ' ' !in ip && AllDigits(digits)
    ensures ' ' !in ip + ":" + digits + "\n"
  {
    var token := ip + ":" + digits + "\n";
    forall k | 0 <= k < |token|
      ensures token[k] != ' '
    {
      if k > |ip| && k < |token| - 1 {
        assert token[k] == digits[k - |ip| - 1];
      }
    }
  }

  // ---------------------------------------------------------------------
  // connecting to the address
  // ---------------------------------------------------------------------

  /** The position of the last `c` in `s`, if any. */
  function LastIndexOf(s: string, c: char): (r: Option<nat>)
    ensures r.Some? ==> r.value < |s| && s[r.value] == c
    decreases |s|
  {
    if s == [] then None
    else if s[|s| - 1] == c then Some(|s| - 1)
    else LastIndexOf(s[..|s| - 1], c)
  }

  /** The last `c` is the one after which no `c` follows. */
  lemma {:induction false} LastIndexOfAfter(a: string, c: char, b: string)
    requires c !in b
    ensures LastIndexOf(a + [c] + b, c) == Some(|a|)
    decreases |b|
  {
    var s := a + [c] + b;
    if b != [] {
      assert s[..|s| - 1] == a + [c] + b[..|b| - 1];
      LastIndexOfAfter(a, c, b[..|b| - 1]);
    }
  }

  /**
   * How `TcpStream::connect` reads a `host:port` string: the text after the
   * last `:` must be a `u16`, and what comes before it is the host.
   */
  function SocketAddress(addr: string): (r: Option<(string, nat)>)
    ensures r.Some? ==> r.value.1 < 0x1_0000
  {
    match LastIndexOf(addr, ':')
    case None => None
    case Some(i) =>
      match ParseU16(addr[i + 1..])
      case None => None
      case Some(port) => Some((addr[..i], port))
  }

  /**
   * The address extracted from the server's own line never connects: the
   * port text keeps the line's newline, and no `u16` reads a newline.
   */
  lemma PrintedAddressRejected(ip: string, port: nat, rest: string)
    requires ' ' !in ip && '\n' !in ip
    ensures ListenAddress(ListeningLine(ip, port) + rest).Success?
    ensures SocketAddress(ListenAddress(ListeningLine(ip, port) + rest).value) == None
  {
    ListenAddressRoundTrip(ip, port, rest);
    var digits := NatToString(port);
    var token := ip + ":" + digits + "\n";
    DigitsWithoutColon(digits + "\n");
    LastIndexOfAfter(ip, ':', digits + "\n");
    assert token[|ip| + 1..] == digits + "\n";
    PortWithNewlineRejected(digits);
  }

  /** Text made of digits and a line ending holds no `:`. */
  lemma DigitsWithoutColon(s: string)
    requires forall k :: 0 <= k < |s| ==> IsDigit(s[k]) || s[k] == '\n'
    ensures ':' !in s
  {
  }

  /** No `u16` reads a port text that ends with a newline. */
  lemma PortWithNewlineRejected(digits: string)
    requires digits != [] && AllDigits(digits)
    ensures ParseU16(digits + "\n") == None
  {
    var text := digits + "\n";
    assert text[0] != '+' by { assert IsDigit(digits[0]); }
    assert !IsDigit(text[|text| - 1]);
  }

  /**
   * The address as intended: the same token with the line ending trimmed,
   * as `str::trim_end` does.
   */
  function ListenAddressTrimmed(stdout: string): (r: Result<string, HandshakeError>)
    ensures r.Failure? <==> ListenAddress(stdout).Failure?
    ensures r.Failure? ==> r == ListenAddress(stdout)
    ensures r.Success? ==> r.value <= ListenAddress(stdout).value
  {
    match ListenAddress(stdout)
    case Failure(e) => Failure(e)
    case Success(token) => Success(TrimEnd(token, IsWhitespace))
  }

  /** Trimming the end of a line drops its newline and nothing before it. */
  lemma TrimNewline(t: string)
    requires t != [] && !IsWhitespace(t[|t| - 1])
    ensures TrimEnd(t + "\n", IsWhitespace) == t
  {
    var line := t + "\n";
    var trimmed := TrimEnd(line, IsWhitespace);
    assert line[|t| - 1] == t[|t| - 1];
    assert IsWhitespace('\n');
    assert |trimmed| == |t|;
  }

  /** `ip:port` reads back as the host `ip` and the port, for every port a listener can have. */
  lemma SocketAddressRoundTrip(ip: string, port: nat)
    requires port < 0x1_0000
    ensures SocketAddress(ip + ":" + NatToString(port)) == Some((ip, port))
  {
    var digits := NatToString(port);
    DigitsWithoutColon(digits);
    var addr := ip + ":" + digits;
    LastIndexOfAfter(ip, ':', digits);
    assert addr[|ip| + 1..] == digits && addr[..|ip|] == ip;
    assert digits[0] != '+' by { assert IsDigit(digits[0]); }
    NatToStringRoundTrip(port);
    assert ParseU16(digits) == Some(port);
  }

  /**
   * With the line ending trimmed, the server's line yields its own ip and
   * port back, for every port a listener can have.
   */
  lemma ListenAddressTrimmedRoundTrip(ip: string, port: nat, rest: string)
    requires forall k :: 0 <= k < |ip| ==> !IsWhitespace(ip[k])
    requires port < 0x1_0000
    ensures ListenAddressTrimmed(ListeningLine(ip, port) + rest) == Success(ip + ":" + NatToString(port))
    ensures SocketAddress(ListenAddressTrimmed(ListeningLine(ip, port) + rest).value) == Some((ip, port))
  {
    assert ' ' !in ip && '\n' !in ip by {
      assert IsWhitespace(' ') && IsWhitespace('\n');
    }
    ListenAddressRoundTrip(ip, port, rest);
    var digits := NatToString(port);
    var t := ip + ":" + digits;
    assert t[|t| - 1] == digits[|digits| - 1];
    assert IsDigit(digits[|digits| - 1]);
    assert ip + ":" + digits + "\n" == t + "\n";
    TrimNewline(t);
    SocketAddressRoundTrip(ip, port);
  }
}
