/** The streaming parser: one loop that reads a line or a counted body, and a small read state. */
module Parser {
  import opened Strconv
  import opened Resp

  /** `readingRepl` is never set in the repository, so it has no field here. */
  datatype ReadState = ReadState(
    readingMultiLine: bool,
    expectedArgsCount: nat,
    multi: bool,           // msgType is '*' rather than '$'
    args: seq<Arg>,
    bulkLen: nat)

  const INIT := ReadState(false, 0, false, [], 0)

  /** What is sent on the channel. A panic closes the channel and sends nothing. */
  datatype Payload = Data(reply: Reply) | ProtocolError(line: Bytes) | IoError

  datatype Line =
    | Read(msg: Bytes, rest: Bytes)   // a line with its CRLF, or a body with its two closing bytes
    | BadLine(line: Bytes, rest: Bytes)
    | EndOfInput
    | Panic

  /** The position of the first line feed, or the length when there is none. */
  function LineFeed(s: Bytes): (i: nat)
    ensures i <= |s| && (forall k :: 0 <= k < i ==> s[k] != '\n') && (i < |s| ==> s[i] == '\n')
  {
    if |s| == 0 || s[0] == '\n' then 0 else 1 + LineFeed(s[1..])
  }

  function ReadLine(input: Bytes, bulkLen: nat): (line: Line)
    ensures line.Read? ==> |line.msg| >= 2 && input == line.msg + line.rest
    ensures line.BadLine? ==> |line.rest| < |input|
  {
    if bulkLen == 0 then
      var end := LineFeed(input);
      if end == |input| then EndOfInput
      else if end == 0 then Panic                 // msg[len(msg)-2] on a one-byte line
      else if input[end - 1] != '\r' then BadLine(input[..end + 1], input[end + 1..])
      else Read(input[..end + 1], input[end + 1..])
    else if |input| < bulkLen + 2 then EndOfInput
    else Read(input[..bulkLen + 2], input[bulkLen + 2..])
  }

  function SplitSpaces(s: Bytes): seq<Bytes> {
    if ' ' !in s then [s]
    else
      var i := FirstSpace(s);
      [s[..i]] + SplitSpaces(s[i + 1..])
  }

  function FirstSpace(s: Bytes): (i: nat)
    requires ' ' in s
    ensures i < |s| && s[i] == ' '
  {
    if s[0] == ' ' then 0 else 1 + FirstSpace(s[1..])
  }

  function ParseSingleLine(msg: Bytes): Payload
    requires |msg| >= 2
  {
    var str := msg[..|msg| - 2];
    if msg[0] == '+' then Data(StatusReply(if |str| > 0 then str[1..] else []))
    else if msg[0] == '-' then Data(ErrorReply(if |str| > 0 then str[1..] else []))
    else if msg[0] == ':' then
      match ParseInt64(if |str| > 0 then str[1..] else [])
      case None => ProtocolError(msg)
      case Some(n) => Data(IntReply(n))
    else
      var words := SplitSpaces(str);
      Data(MultiBulkReply(seq(|words|, i requires 0 <= i < |words| => Some(words[i]))))
  }

  /** One line outside a multi-line reply. */
  function FeedFirst(msg: Bytes): (Option<Payload>, ReadState)
    requires |msg| >= 2
  {
    var body := if |msg| > 2 then msg[1..|msg| - 2] else [];
    if msg[0] == '*' then
      match ParseUint32(body)
      case None => (Some(ProtocolError(msg)), INIT)
      case Some(n) =>
        if n == 0 then (Some(Data(EmptyMultiBulkReply)), INIT)
        else (None, ReadState(true, n, true, [], 0))
    else if msg[0] == '$' then
      match ParseInt64(body)
      case None => (Some(ProtocolError(msg)), INIT)
      case Some(n) =>
        if n == -1 then (Some(Data(NullBulkReply)), INIT)
        else if n < 0 then (Some(ProtocolError(msg)), INIT)
        else (None, ReadState(true, 1, false, [], n))
    else (Some(ParseSingleLine(msg)), INIT)
  }

  /** `readBody`: a following line is a length header when it starts with a dollar sign, an argument otherwise. */
  function ReadBody(msg: Bytes, st: ReadState): Option<ReadState>
    requires |msg| >= 2
  {
    var line := msg[..|msg| - 2];
    if |line| > 0 && line[0] == '$' then
      match ParseInt64(line[1..])
      case None => None
      case Some(n) =>
        if n < 0 then Some(st.(args := st.args + [Some([])], bulkLen := 0))
        else Some(st.(bulkLen := n))
    else Some(st.(args := st.args + [Some(line)], bulkLen := 0))
  }

  predicate Finished(st: ReadState) {
    st.expectedArgsCount > 0 && |st.args| == st.expectedArgsCount
  }

  function Feed(msg: Bytes, st: ReadState): (Option<Payload>, ReadState)
    requires |msg| >= 2
  {
    if !st.readingMultiLine then FeedFirst(msg)
    else
      match ReadBody(msg, st)
      case None => (Some(ProtocolError(msg)), INIT)
      case Some(next) =>
        if Finished(next) then
          (Some(Data(if next.multi then MultiBulkReply(next.args) else BulkReply(next.args[0]))), INIT)
        else (None, next)
  }

  function Emit(p: Option<Payload>): seq<Payload> {
    if p.Some? then [p.value] else []
  }

  /** One turn of the loop: stop after sending `last`, or send `sent` and go on. */
  datatype Turn = Stop(last: seq<Payload>) | Go(sent: seq<Payload>, rest: Bytes, state: ReadState)

  function Step(input: Bytes, st: ReadState): (turn: Turn)
    ensures turn.Go? ==> |turn.rest| < |input|
  {
    match ReadLine(input, st.bulkLen)
    case EndOfInput => Stop([IoError])
    case Panic => Stop([])
    case BadLine(line, rest) => Go([ProtocolError(line)], rest, INIT)
    case Read(msg, rest) =>
      var (p, next) := Feed(msg, st.(bulkLen := 0));
      Go(Emit(p), rest, next)
  }

  /** Everything the parser sends for an input, from a given read state. */
  function Parse(input: Bytes, st: ReadState): seq<Payload>
    decreases |input|
  {
    match Step(input, st)
    case Stop(last) => last
    case Go(sent, rest, next) => sent + Parse(rest, next)
  }

  /** `parse0`: the loop over the reader. */
  method Parse0(input: Bytes) returns (ch: seq<Payload>)
    ensures ch == Parse(input, INIT)
  {
    ch := [];
    var reader, state := input, INIT;
    while true
      invariant ch + Parse(reader, state) == Parse(input, INIT)
      decreases |reader|
    {
      var turn := Step(reader, state);
      match turn {
        case Stop(last) =>
          ch := ch + last;
          return;
        case Go(sent, rest, next) =>
          assert (ch + sent) + Parse(rest, next) == ch + (sent + Parse(rest, next));
          ch, reader, state := ch + sent, rest, next;
      }
    }
  }
}
