/** What the parser gives back for what the printer wrote, on every input. */
module RoundTrip {
  import opened Strconv
  import opened Resp
  import opened Parser

  /** The parser takes a line that starts with a dollar sign for a length header, wherever it stands. */
  predicate StartsWithDollar(arg: Arg) {
    arg.Some? && |arg.value| > 0 && arg.value[0] == '$'
  }

  predicate NoDollar(args: seq<Arg>) {
    forall i :: 0 <= i < |args| ==> !StartsWithDollar(args[i])
  }

  /** The lengths for which `bulkLen + 2` is an int64. */
  predicate Fits(arg: Arg) {
    arg.Some? ==> |arg.value| + 2 <= MAX_INT64
  }

  predicate AllFit(args: seq<Arg>) {
    forall i :: 0 <= i < |args| ==> Fits(args[i])
  }

  /** The messages that survive: not empty, at most 2^32 - 1 arguments, none starting with a dollar sign. */
  predicate Readable(args: seq<Arg>) {
    0 < |args| <= MAX_UINT32 && NoDollar(args)
  }

  /** A nil argument comes back as an empty one. */
  function Received(arg: Arg): Arg {
    if arg.None? then Some([]) else arg
  }

  function ReceivedAll(args: seq<Arg>): (r: seq<Arg>)
    ensures |r| == |args| && forall i :: 0 <= i < |args| ==> r[i] == Received(args[i])
  {
    if |args| == 0 then [] else [Received(args[0])] + ReceivedAll(args[1..])
  }

  lemma ReadLineExact(line: Bytes, rest: Bytes)
    requires '\n' !in line
    ensures ReadLine(line + CRLF + rest, 0) == Read(line + CRLF, rest)
  {
    var input := line + CRLF + rest;
    var i := LineFeed(input);
    assert forall k :: 0 <= k < |line| ==> input[k] == line[k];
    assert input[|line|] == '\r' && input[|line| + 1] == '\n';
    assert i == |line| + 1;
    assert input[..i + 1] == line + CRLF && input[i + 1..] == rest;
  }

  lemma ReadBodyExact(body: Bytes, rest: Bytes)
    requires '\n' !in body || |body| > 0
    ensures ReadLine(body + CRLF + rest, |body|) == Read(body + CRLF, rest)
  {
    var input := body + CRLF + rest;
    if |body| == 0 {
      ReadLineExact(body, rest);
    } else {
      assert input[..|body| + 2] == body + CRLF && input[|body| + 2..] == rest;
    }
  }

  lemma DigitsHaveNoLineFeed(s: Bytes)
    requires AllDigits(s)
    ensures '\n' !in s
  {
  }

  predicate Reading(st: ReadState) {
    st.readingMultiLine && st.multi && st.bulkLen == 0 && |st.args| < st.expectedArgsCount
  }

  /** What follows once an argument has been taken in. */
  function Continue(st: ReadState, arg: Arg, rest: Bytes): seq<Payload>
    requires Reading(st)
  {
    var next := st.(args := st.args + [arg]);
    if Finished(next) then [Data(MultiBulkReply(next.args))] + Parse(rest, INIT) else Parse(rest, next)
  }

  lemma HeaderLine(n: nat, rest: Bytes, st: ReadState)
    requires Reading(st) && n <= MAX_INT64
    ensures Parse("$" + FormatNat(n) + CRLF + rest, st) == Parse(rest, st.(bulkLen := n))
  {
    var line: Bytes := "$" + FormatNat(n);
    DigitsHaveNoLineFeed(FormatNat(n));
    ReadLineExact(line, rest);
    ParseFormatInt(n);
    assert (line + CRLF)[..|line + CRLF| - 2] == line && line[1..] == FormatNat(n);
    assert Emit(None) + Parse(rest, st.(bulkLen := n)) == Parse(rest, st.(bulkLen := n));
  }

  lemma NilLine(rest: Bytes, st: ReadState)
    requires Reading(st)
    ensures Parse("$-1" + CRLF + rest, st) == Continue(st, Some([]), rest)
  {
    var line: Bytes := "$-1";
    ReadLineExact(line, rest);
    ParseFormatInt(-1);
    assert FormatInt(-1) == "-1";
    assert (line + CRLF)[..3] == line && line[1..] == "-1";
    assert [] + Parse(rest, st.(args := st.args + [Some([])])) == Parse(rest, st.(args := st.args + [Some([])]));
  }

  lemma BodyLine(body: Bytes, rest: Bytes, st: ReadState)
    requires Reading(st) && !StartsWithDollar(Some(body))
    ensures Parse(body + CRLF + rest, st.(bulkLen := |body|)) == Continue(st, Some(body), rest)
  {
    ReadBodyExact(body, rest);
    assert (body + CRLF)[..|body + CRLF| - 2] == body;
    var next := st.(args := st.args + [Some(body)]);
    assert [] + Parse(rest, next) == Parse(rest, next);
  }

  lemma ArgParses(arg: Arg, rest: Bytes, st: ReadState)
    requires Reading(st) && Fits(arg) && !StartsWithDollar(arg)
    ensures Parse(PrintArg(arg) + rest, st) == Continue(st, Received(arg), rest)
  {
    match arg {
      case None =>
        NilLine(rest, st);
      case Some(body) =>
        PrintedBulk(body, rest);
        HeaderLine(|body|, body + CRLF + rest, st);
        BodyLine(body, rest, st);
    }
  }

  lemma {:induction false} ArgsParse(args: seq<Arg>, rest: Bytes, st: ReadState)
    requires Reading(st) && |st.args| + |args| == st.expectedArgsCount
    requires |args| > 0 && AllFit(args) && NoDollar(args)
    ensures Parse(PrintArgs(args) + rest, st)
         == [Data(MultiBulkReply(st.args + ReceivedAll(args)))] + Parse(rest, INIT)
  {
    var tail := PrintArgs(args[1..]) + rest;
    FirstArg(args, rest, st.args);
    ArgParses(args[0], tail, st);
    var next := st.(args := st.args + [Received(args[0])]);
    if |args| > 1 {
      ArgsParse(args[1..], rest, next);
      assert !Finished(next);
    }
  }

  lemma FirstArg(args: seq<Arg>, rest: Bytes, before: seq<Arg>)
    requires |args| > 0
    ensures PrintArgs(args) + rest == PrintArg(args[0]) + (PrintArgs(args[1..]) + rest)
    ensures (before + [Received(args[0])]) + ReceivedAll(args[1..]) == before + ReceivedAll(args)
    ensures |args| == 1 ==> PrintArgs(args[1..]) + rest == rest && before + [Received(args[0])] == before + ReceivedAll(args)
  {
    Regroup(PrintArg(args[0]), PrintArgs(args[1..]), rest);
    Regroup(before, [Received(args[0])], ReceivedAll(args[1..]));
    if |args| == 1 { LastArg(args, rest, before); }
  }

  lemma LastArg(args: seq<Arg>, rest: Bytes, before: seq<Arg>)
    requires |args| == 1
    ensures PrintArgs(args[1..]) + rest == rest && before + [Received(args[0])] == before + ReceivedAll(args)
  {
    assert args[1..] == [];
    assert PrintArgs([]) + rest == rest;
    assert ReceivedAll(args) == [Received(args[0])];
  }

  lemma CountLine(args: seq<Arg>, rest: Bytes)
    ensures Parse("*" + FormatNat(|args|) + CRLF + rest, INIT)
         == if |args| == 0 then [Data(EmptyMultiBulkReply)] + Parse(rest, INIT)
            else if |args| <= MAX_UINT32 then Parse(rest, ReadState(true, |args|, true, [], 0))
            else [ProtocolError("*" + FormatNat(|args|) + CRLF)] + Parse(rest, INIT)
  {
    var line: Bytes := "*" + FormatNat(|args|);
    DigitsHaveNoLineFeed(FormatNat(|args|));
    ReadLineExact(line, rest);
    ParseFormatUint(|args|);
    assert (line + CRLF)[1..|line + CRLF| - 2] == FormatNat(|args|);
    var st := ReadState(true, |args|, true, [], 0);
    assert [] + Parse(rest, st) == Parse(rest, st);
  }

  lemma PrintedMessage(args: seq<Arg>, rest: Bytes)
    ensures Print(MultiBulkReply(args)) + rest == "*" + FormatNat(|args|) + CRLF + (PrintArgs(args) + rest)
  {
    Regroup("*" + FormatNat(|args|) + CRLF, PrintArgs(args), rest);
  }

  /** One readable message is taken off the stream, whatever follows it. */
  lemma MessageParses(args: seq<Arg>, rest: Bytes)
    requires Readable(args) && AllFit(args)
    ensures Parse(Print(MultiBulkReply(args)) + rest, INIT)
         == [Data(MultiBulkReply(ReceivedAll(args)))] + Parse(rest, INIT)
  {
    PrintedMessage(args, rest);
    CountLine(args, PrintArgs(args) + rest);
    var st := ReadState(true, |args|, true, [], 0);
    ArgsParse(args, rest, st);
    assert st.args + ReceivedAll(args) == ReceivedAll(args);
  }

  /** What a reply built from the lines of a message can look like. */
  predicate DollarFree(r: Reply) {
    (r.MultiBulkReply? && NoDollar(r.args)) || (r.BulkReply? && !StartsWithDollar(r.arg))
  }

  /** While a message is read, nothing that starts with a dollar sign gets into its arguments. */
  lemma {:induction false} FirstPayloadHasNoDollar(input: Bytes, st: ReadState)
    requires st.readingMultiLine && NoDollar(st.args)
    ensures var out := Parse(input, st); |out| > 0 && out[0].Data? ==> DollarFree(out[0].reply)
    decreases |input|
  {
    var line := ReadLine(input, st.bulkLen);
    if line.Read? {
      var next := ReadBody(line.msg, st.(bulkLen := 0));
      if next.Some? {
        assert NoDollar(next.value.args);
        if !Finished(next.value) {
          FirstPayloadHasNoDollar(line.rest, next.value);
          assert [] + Parse(line.rest, next.value) == Parse(line.rest, next.value);
        }
      }
    }
  }

  lemma UnreadableMessage(args: seq<Arg>, rest: Bytes)
    requires !Readable(args)
    ensures var out := Parse(Print(MultiBulkReply(args)) + rest, INIT);
            |out| > 0 ==> out[0] != Data(MultiBulkReply(ReceivedAll(args)))
  {
    PrintedMessage(args, rest);
    CountLine(args, PrintArgs(args) + rest);
    if 0 < |args| <= MAX_UINT32 {
      FirstPayloadHasNoDollar(PrintArgs(args) + rest, ReadState(true, |args|, true, [], 0));
      var i :| 0 <= i < |args| && StartsWithDollar(args[i]);
      assert ReceivedAll(args)[i] == args[i];
    }
  }

  /** The replies a client reads back unharmed. */
  predicate OnTheWire(r: Reply) {
    match r
    case StatusReply(status) => '\n' !in status
    case ErrorReply(status) => '\n' !in status
    case IntReply(code) => MIN_INT64 <= code <= MAX_INT64
    case BulkReply(arg) => !StartsWithDollar(arg)
    case MultiBulkReply(args) => |args| == 0 || Readable(args)
    case NullBulkReply => true
    case EmptyMultiBulkReply => true
  }

  function Decoded(r: Reply): Reply {
    match r
    case BulkReply(None) => NullBulkReply
    case MultiBulkReply(args) => if |args| == 0 then EmptyMultiBulkReply else MultiBulkReply(ReceivedAll(args))
    case _ => r
  }

  lemma FirstLineParses(line: Bytes, rest: Bytes)
    requires |line| > 0 && '\n' !in line
    ensures var (p, next) := FeedFirst(line + CRLF);
            Parse(line + CRLF + rest, INIT) == Emit(p) + Parse(rest, next)
  {
    ReadLineExact(line, rest);
  }

  lemma SingleLineParses(mark: Byte, text: Bytes, rest: Bytes)
    requires mark != '\n' && '\n' !in text && mark != '*' && mark != '$'
    ensures Parse([mark] + text + CRLF + rest, INIT) == [ParseSingleLine([mark] + text + CRLF)] + Parse(rest, INIT)
  {
    FirstLineParses([mark] + text, rest);
  }

  lemma BulkParses(body: Bytes, rest: Bytes)
    requires Fits(Some(body))
    ensures Parse("$" + FormatNat(|body|) + CRLF + (body + CRLF + rest), INIT)
         == Parse(body + CRLF + rest, ReadState(true, 1, false, [], |body|))
  {
    DigitsHaveNoLineFeed(FormatNat(|body|));
    ParseFormatInt(|body|);
    var line: Bytes := "$" + FormatNat(|body|);
    FirstLineParses(line, body + CRLF + rest);
    assert (line + CRLF)[1..|line + CRLF| - 2] == FormatNat(|body|);
    var st := ReadState(true, 1, false, [], |body|);
    assert [] + Parse(body + CRLF + rest, st) == Parse(body + CRLF + rest, st);
  }

  lemma BulkBody(body: Bytes, rest: Bytes)
    requires !StartsWithDollar(Some(body))
    ensures Parse(body + CRLF + rest, ReadState(true, 1, false, [], |body|))
         == [Data(BulkReply(Some(body)))] + Parse(rest, INIT)
  {
    var st, msg := ReadState(true, 1, false, [], |body|), body + CRLF;
    ReadBodyExact(body, rest);
    assert msg[..|msg| - 2] == body;
    assert ReadBody(msg, st.(bulkLen := 0)) == Some(st.(args := [] + [Some(body)], bulkLen := 0));
    assert Step(msg + rest, st) == Go([Data(BulkReply(Some(body)))], rest, INIT);
  }

  /** A status that contains a line feed is cut at it. */
  lemma CutAtLineFeed(mark: Byte, text: Bytes, rest: Bytes)
    requires '\n' in text && (mark == '+' || mark == '-')
    ensures var out := Parse([mark] + text + CRLF + rest, INIT);
            |out| > 0 && out[0].Data? ==>
              && (out[0].reply.StatusReply? || out[0].reply.ErrorReply?)
              && |out[0].reply.status| < |text|
  {
    var input := [mark] + text + CRLF + rest;
    var i := LineFeed(input);
    var k :| 0 <= k < |text| && text[k] == '\n';
    assert input[k + 1] == '\n';
    assert i <= k + 1;
  }

  lemma StatusRoundTrip(mark: Byte, status: Bytes, rest: Bytes)
    requires mark == '+' || mark == '-'
    ensures var out := Parse([mark] + status + CRLF + rest, INIT);
            var sent := if mark == '+' then StatusReply(status) else ErrorReply(status);
            if '\n' !in status then out == [Data(sent)] + Parse(rest, INIT)
            else |out| > 0 ==> out[0] != Data(sent)
  {
    if '\n' !in status {
      SingleLineParses(mark, status, rest);
      StripMark(mark, status);
    } else {
      CutAtLineFeed(mark, status, rest);
    }
  }

  lemma IntRoundTrip(code: int, rest: Bytes)
    ensures Parse([':'] + FormatInt(code) + CRLF + rest, INIT)
         == [if MIN_INT64 <= code <= MAX_INT64 then Data(IntReply(code)) else ProtocolError([':'] + FormatInt(code) + CRLF)]
            + Parse(rest, INIT)
  {
    IntHasNoLineFeed(code);
    ParseFormatInt(code);
    SingleLineParses(':', FormatInt(code), rest);
    StripMark(':', FormatInt(code));
  }

  lemma BulkRoundTrip(body: Bytes, rest: Bytes)
    requires Fits(Some(body))
    ensures var out := Parse("$" + FormatNat(|body|) + CRLF + (body + CRLF + rest), INIT);
            if !StartsWithDollar(Some(body)) then out == [Data(BulkReply(Some(body)))] + Parse(rest, INIT)
            else |out| > 0 ==> out[0] != Data(BulkReply(Some(body)))
  {
    BulkParses(body, rest);
    if !StartsWithDollar(Some(body)) {
      BulkBody(body, rest);
    } else {
      FirstPayloadHasNoDollar(body + CRLF + rest, ReadState(true, 1, false, [], |body|));
    }
  }

  lemma NoArgs(rest: Bytes)
    ensures Print(MultiBulkReply([])) + rest == "*" + FormatNat(0) + CRLF + rest
  {
    assert Print(MultiBulkReply([])) == "*" + FormatNat(0) + CRLF;
  }

  lemma MultiBulkRoundTrip(args: seq<Arg>, rest: Bytes)
    requires AllFit(args)
    ensures var out := Parse(Print(MultiBulkReply(args)) + rest, INIT);
            if |args| == 0 then out == [Data(EmptyMultiBulkReply)] + Parse(rest, INIT)
            else if Readable(args) then out == [Data(MultiBulkReply(ReceivedAll(args)))] + Parse(rest, INIT)
            else |out| > 0 ==> out[0] != Data(MultiBulkReply(ReceivedAll(args)))
  {
    if |args| == 0 {
      CountLine(args, rest);
      NoArgs(rest);
    } else if Readable(args) {
      MessageParses(args, rest);
    } else {
      UnreadableMessage(args, rest);
    }
  }

  lemma PrintedBulk(body: Bytes, rest: Bytes)
    ensures Print(BulkReply(Some(body))) + rest == "$" + FormatNat(|body|) + CRLF + (body + CRLF + rest)
  {
    Regroup("$" + FormatNat(|body|) + CRLF, body, CRLF);
    Regroup("$" + FormatNat(|body|) + CRLF, body + CRLF, rest);
  }

  lemma PrintedLine(mark: Byte, text: Bytes, rest: Bytes)
    ensures [mark] + text + CRLF + rest == ([mark] + text + CRLF) + rest
    ensures [mark] + (text + CRLF) + rest == [mark] + text + CRLF + rest
  {
  }

  /** Every reply the server prints is read back by the client exactly when it is fit for the wire. */
  lemma ReplyRoundTrip(r: Reply, rest: Bytes)
    requires r.BulkReply? ==> Fits(r.arg)
    requires r.MultiBulkReply? ==> AllFit(r.args)
    ensures OnTheWire(r) ==> Parse(Print(r) + rest, INIT) == [Data(Decoded(r))] + Parse(rest, INIT)
    ensures !OnTheWire(r) ==> var out := Parse(Print(r) + rest, INIT); |out| > 0 ==> out[0] != Data(Decoded(r))
  {
    match r {
      case StatusReply(status) =>
        PrintedLine('+', status, rest);
        StatusRoundTrip('+', status, rest);
      case ErrorReply(status) =>
        PrintedLine('-', status, rest);
        StatusRoundTrip('-', status, rest);
      case IntReply(code) =>
        PrintedLine(':', FormatInt(code), rest);
        IntRoundTrip(code, rest);
      case BulkReply(arg) =>
        if arg.None? {
          NullParses(rest);
        } else {
          PrintedBulk(arg.value, rest);
          BulkRoundTrip(arg.value, rest);
        }
      case MultiBulkReply(args) => MultiBulkRoundTrip(args, rest);
      case NullBulkReply => NullParses(rest);
      case EmptyMultiBulkReply =>
        assert Print(r) == Print(MultiBulkReply([]));
        MultiBulkRoundTrip([], rest);
    }
  }

  lemma StripMark(mark: Byte, text: Bytes)
    ensures var msg := [mark] + text + CRLF;
            |msg| > 2 && msg[..|msg| - 2] == [mark] + text && msg[..|msg| - 2][1..] == text
  {
  }

  lemma IntHasNoLineFeed(code: int)
    ensures '\n' !in FormatInt(code)
  {
  }

  lemma NullParses(rest: Bytes)
    ensures Parse("$-1" + CRLF + rest, INIT) == [Data(NullBulkReply)] + Parse(rest, INIT)
  {
    var line: Bytes := "$-1";
    FirstLineParses(line, rest);
    ParseFormatInt(-1);
    assert FormatInt(-1) == "-1";
    assert (line + CRLF)[1..|line + CRLF| - 2] == "-1";
  }

  function Messages(batch: seq<seq<Arg>>): (r: seq<Reply>)
  {
    if |batch| == 0 then [] else [MultiBulkReply(batch[0])] + Messages(batch[1..])
  }

  /** The payloads of an undamaged transmission, up to the end of the input. */
  function Delivered(batch: seq<seq<Arg>>): seq<Payload> {
    if |batch| == 0 then [IoError]
    else [Data(MultiBulkReply(ReceivedAll(batch[0])))] + Delivered(batch[1..])
  }

  /** A stream of messages arrives as it was sent exactly when every message in it is readable. */
  lemma {:induction false} StreamRoundTrip(batch: seq<seq<Arg>>)
    requires forall i :: 0 <= i < |batch| ==> AllFit(batch[i])
    ensures Parse(PrintAll(Messages(batch)), INIT) == Delivered(batch)
       <==> forall i :: 0 <= i < |batch| ==> Readable(batch[i])
  {
    if |batch| > 0 {
      var rest := PrintAll(Messages(batch[1..]));
      assert PrintAll(Messages(batch)) == Print(MultiBulkReply(batch[0])) + rest;
      if Readable(batch[0]) {
        MessageParses(batch[0], rest);
        StreamRoundTrip(batch[1..]);
        assert Delivered(batch)[1..] == Delivered(batch[1..]);
        assert Parse(PrintAll(Messages(batch)), INIT)[1..] == Parse(rest, INIT);
      } else {
        UnreadableMessage(batch[0], rest);
        assert Delivered(batch)[0] == Data(MultiBulkReply(ReceivedAll(batch[0])));
      }
    }
  }
}
