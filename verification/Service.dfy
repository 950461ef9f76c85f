/** What the server's connection loop writes back for the payloads that its parser gives it. */
module Service {
  import opened Strconv
  import opened Resp
  import opened Parser
  import opened RoundTrip

  const ERROR_PREFIX: Bytes := "protocol error: "

  /** The text of the error reply quotes the line, with its CRLF. */
  function ErrorFor(line: Bytes): Reply {
    ErrorReply(ERROR_PREFIX + line)
  }

  /** What the executor says to a command name that is not in the table. */
  function UnknownCommand(name: Bytes): Reply {
    ErrorReply(UNKNOWN + name + ['\''])
  }

  const UNKNOWN: Bytes := "ERR unknown command '"

  /** A protocol error and a multi-bulk message are answered; other payloads are logged and passed over. */
  function Replies(payloads: seq<Payload>, exec: seq<Arg> -> Reply): seq<Reply> {
    if |payloads| == 0 || payloads[0].IoError? then []
    else AnswerTo(payloads[0], exec) + Replies(payloads[1..], exec)
  }

  function AnswerTo(p: Payload, exec: seq<Arg> -> Reply): seq<Reply> {
    match p
    case IoError => []
    case ProtocolError(line) => [ErrorFor(line)]
    case Data(reply) => if reply.MultiBulkReply? then [exec(reply.args)] else []
  }

  /** `handleServer`: the loop over the channel. */
  method HandleServer(payloads: seq<Payload>, exec: seq<Arg> -> Reply) returns (written: seq<Reply>)
    ensures written == Replies(payloads, exec)
  {
    written := [];
    var i := 0;
    while i < |payloads|
      invariant i <= |payloads|
      invariant written + Replies(payloads[i..], exec) == Replies(payloads, exec)
      decreases |payloads| - i
    {
      var payload := payloads[i];
      assert payloads[i..][0] == payload && payloads[i..][1..] == payloads[i + 1..];
      match payload {
        case IoError =>
          NothingMore(written);
          return;
        case ProtocolError(line) =>
          Regroup(written, [ErrorFor(line)], Replies(payloads[i + 1..], exec));
          written := written + [ErrorFor(line)];
        case Data(reply) =>
          if reply.MultiBulkReply? {
            Regroup(written, [exec(reply.args)], Replies(payloads[i + 1..], exec));
            written := written + [exec(reply.args)];
          }
      }
      i := i + 1;
    }
    NothingMore(written);
  }

  lemma OnePayload(p: Payload, rest: seq<Payload>, exec: seq<Arg> -> Reply)
    ensures Replies([p] + rest, exec) == if p.IoError? then [] else AnswerTo(p, exec) + Replies(rest, exec)
  {
    assert ([p] + rest)[1..] == rest;
  }

  /* ---- arguments that start with a dollar sign ---- */

  /** The number that the parser sees in such an argument. */
  function Announced(arg: Arg): Option<int>
    requires StartsWithDollar(arg)
  {
    ParseInt64(arg.value[1..])
  }

  /** It is taken for a nil argument: the message keeps its shape. */
  predicate Negative(arg: Arg) {
    StartsWithDollar(arg) && Announced(arg).Some? && Announced(arg).value < 0
  }

  predicate Harmless(arg: Arg) {
    !StartsWithDollar(arg) || Negative(arg)
  }

  predicate AllHarmless(args: seq<Arg>) {
    forall i :: 0 <= i < |args| ==> Harmless(args[i])
  }

  function Taken(arg: Arg): Arg {
    if Negative(arg) then Some([]) else Received(arg)
  }

  function TakenAll(args: seq<Arg>): seq<Arg> {
    if |args| == 0 then [] else [Taken(args[0])] + TakenAll(args[1..])
  }

  /** The line of a body that starts with a dollar sign is read as a header. */
  lemma DollarBody(arg: Arg, rest: Bytes, st: ReadState)
    requires Reading(st) && StartsWithDollar(arg)
    ensures var body := arg.value;
            Parse(body + CRLF + rest, st.(bulkLen := |body|))
            == if Announced(arg).None? then [ProtocolError(body + CRLF)] + Parse(rest, INIT)
               else if Negative(arg) then Continue(st, Some([]), rest)
               else Parse(rest, st.(bulkLen := Announced(arg).value))
  {
    var body := arg.value;
    ReadBodyExact(body, rest);
    BodyLineOf(body);
    if Announced(arg).Some? {
      var n := Announced(arg).value;
      var next := if n < 0 then st.(args := st.args + [Some([])]) else st.(bulkLen := n);
      NothingMore(Parse(rest, next));
    }
  }

  lemma BodyLineOf(body: Bytes)
    ensures |body + CRLF| >= 2 && (body + CRLF)[..|body + CRLF| - 2] == body
  {
  }

  lemma DollarArg(arg: Arg, rest: Bytes, st: ReadState)
    requires Reading(st) && StartsWithDollar(arg) && Fits(arg)
    ensures Parse(PrintArg(arg) + rest, st)
         == if Announced(arg).None? then [ProtocolError(arg.value + CRLF)] + Parse(rest, INIT)
            else if Negative(arg) then Continue(st, Some([]), rest)
            else Parse(rest, st.(bulkLen := Announced(arg).value))
  {
    var body := arg.value;
    PrintedBulk(body, rest);
    HeaderLine(|body|, body + CRLF + rest, st);
    DollarBody(arg, rest, st);
  }

  lemma HarmlessArg(arg: Arg, rest: Bytes, st: ReadState)
    requires Reading(st) && Fits(arg) && Harmless(arg)
    ensures Parse(PrintArg(arg) + rest, st) == Continue(st, Taken(arg), rest)
  {
    if Negative(arg) { DollarArg(arg, rest, st); } else { ArgParses(arg, rest, st); }
  }

  /** Harmless arguments before the last one are taken in. */
  lemma {:induction false} HarmlessArgs(args: seq<Arg>, rest: Bytes, st: ReadState)
    requires Reading(st) && |st.args| + |args| < st.expectedArgsCount && AllFit(args) && AllHarmless(args)
    ensures Parse(PrintArgs(args) + rest, st) == Parse(rest, st.(args := st.args + TakenAll(args)))
    decreases |args|
  {
    if |args| == 0 {
      NothingMore(st.args);
      NothingMore(rest);
    } else {
      var next := st.(args := st.args + [Taken(args[0])]);
      Regroup(PrintArg(args[0]), PrintArgs(args[1..]), rest);
      HarmlessArg(args[0], PrintArgs(args[1..]) + rest, st);
      HarmlessArgs(args[1..], rest, next);
      Regroup(st.args, [Taken(args[0])], TakenAll(args[1..]));
    }
  }

  lemma {:induction false} PrintArgsEnd(front: seq<Arg>, last: Arg)
    ensures PrintArgs(front + [last]) == PrintArgs(front) + PrintArg(last)
    decreases |front|
  {
    var all := front + [last];
    if |front| == 0 {
      assert all == [last] && all[1..] == [];
      NothingMore(PrintArg(last));
      assert PrintArgs(all[1..]) == [];
    } else {
      assert all[0] == front[0] && all[1..] == front[1..] + [last];
      PrintArgsEnd(front[1..], last);
      Regroup(PrintArg(front[0]), PrintArgs(front[1..]), PrintArg(last));
    }
  }

  /**
   * A message whose arguments are harmless but perhaps for the last: exactly what the parser makes of it, whatever
   * follows. A last argument that announces a length is dropped, and that many bytes of what follows are taken instead.
   */
  lemma LastArgument(front: seq<Arg>, last: Arg, rest: Bytes)
    requires AllHarmless(front) && AllFit(front) && Fits(last) && |front| + 1 <= MAX_UINT32
    ensures Parse(Print(MultiBulkReply(front + [last])) + rest, INIT)
         == if Harmless(last) then [Data(MultiBulkReply(TakenAll(front) + [Taken(last)]))] + Parse(rest, INIT)
            else if Announced(last).None? then [ProtocolError(last.value + CRLF)] + Parse(rest, INIT)
            else Parse(rest, ReadState(true, |front| + 1, true, TakenAll(front), Announced(last).value))
  {
    var args := front + [last];
    PrintedMessage(args, rest);
    CountLine(args, PrintArgs(args) + rest);
    PrintArgsEnd(front, last);
    Regroup(PrintArgs(front), PrintArg(last), rest);
    var st := ReadState(true, |front| + 1, true, [], 0);
    HarmlessArgs(front, PrintArg(last) + rest, st);
    NothingMore(TakenAll(front));
    TakenAllLength(front);
    var at := st.(args := TakenAll(front));
    if Harmless(last) { HarmlessArg(last, rest, at); } else { DollarArg(last, rest, at); }
  }

  lemma {:induction false} TakenAllLength(args: seq<Arg>)
    ensures |TakenAll(args)| == |args|
  {
    if |args| > 0 { TakenAllLength(args[1..]); }
  }

  /* ---- one reply for one message ---- */

  /** The messages that the server answers once, as far as the client is concerned. */
  predicate Answerable(args: seq<Arg>) {
    0 < |args| <= MAX_UINT32 && AllFit(args) && AllHarmless(args)
  }

  /** An answerable message gets one reply, and what follows is read as if it had not been there. */
  lemma OneReply(args: seq<Arg>, rest: Bytes, exec: seq<Arg> -> Reply)
    requires Answerable(args)
    ensures Replies(Parse(Print(MultiBulkReply(args)) + rest, INIT), exec)
         == [exec(TakenAll(args))] + Replies(Parse(rest, INIT), exec)
  {
    var front, last := args[..|args| - 1], args[|args| - 1];
    assert args == front + [last];
    LastArgument(front, last, rest);
    TakenAllEnd(front, last);
    OnePayload(Data(MultiBulkReply(TakenAll(args))), Parse(rest, INIT), exec);
  }

  lemma {:induction false} TakenAllEnd(front: seq<Arg>, last: Arg)
    ensures TakenAll(front + [last]) == TakenAll(front) + [Taken(last)]
    decreases |front|
  {
    var all := front + [last];
    if |front| == 0 {
      assert all == [last] && all[1..] == [];
      assert TakenAll(all[1..]) == [];
    } else {
      assert all[0] == front[0] && all[1..] == front[1..] + [last];
      TakenAllEnd(front[1..], last);
    }
  }

  /** When the other arguments are harmless: the message alone is answered once exactly when the last announces no length. */
  lemma AnsweredOnce(front: seq<Arg>, last: Arg, exec: seq<Arg> -> Reply)
    requires AllHarmless(front) && AllFit(front) && Fits(last) && |front| + 1 <= MAX_UINT32
    ensures |Replies(Parse(Print(MultiBulkReply(front + [last])), INIT), exec)| == 1
       <==> Harmless(last) || Announced(last).None?
  {
    var bytes := Print(MultiBulkReply(front + [last]));
    NothingMore(bytes);
    LastArgument(front, last, []);
    var none: seq<Payload> := [IoError];
    assert Parse([], INIT) == none;
    OnePayload(Data(MultiBulkReply(TakenAll(front) + [Taken(last)])), none, exec);
    if !Harmless(last) && Announced(last).None? { OnePayload(ProtocolError(last.value + CRLF), none, exec); }
  }

  /** But the error reply quotes a line with its CRLF, so that the client reads two replies where the server wrote one. */
  lemma ErrorArrivesTwice(text: Bytes, rest: Bytes)
    requires '\n' !in text
    ensures Parse(Print(ErrorFor(text + CRLF)) + rest, INIT)
         == [Data(ErrorReply(ERROR_PREFIX + text)), Data(MultiBulkReply([Some([])]))] + Parse(rest, INIT)
  {
    var status := ERROR_PREFIX + text;
    var none: Bytes := [];
    TwoLines(text, rest);
    StatusRoundTrip('-', status, none + CRLF + rest);
    EmptyLine(rest);
    JoinPayloads(Data(ErrorReply(status)), Data(MultiBulkReply([Some(none)])), Parse(rest, INIT));
  }

  lemma JoinPayloads(p: Payload, q: Payload, more: seq<Payload>)
    ensures [p] + ([q] + more) == [p, q] + more
  {
  }

  /** An empty line is a message of one empty argument. */
  lemma EmptyLine(rest: Bytes)
    ensures var none: Bytes := [];
            Parse(none + CRLF + rest, INIT) == [Data(MultiBulkReply([Some(none)]))] + Parse(rest, INIT)
  {
    var none: Bytes := [];
    ReadLineExact(none, rest);
    OneWord(none);
  }

  lemma WordLine(str: Bytes, rest: Bytes)
    requires ' ' !in str && '\n' !in str && |str| > 0 && str[0] !in ['+', '-', ':', '*', '$']
    ensures Parse(str + CRLF + rest, INIT) == [Data(MultiBulkReply([Some(str)]))] + Parse(rest, INIT)
  {
    FirstLineParses(str, rest);
    OneWord(str);
    assert (str + CRLF)[0] == str[0];
  }

  lemma OneWord(str: Bytes)
    requires ' ' !in str && (|str| > 0 ==> str[0] !in ['+', '-', ':'])
    ensures |str + CRLF| >= 2 && ParseSingleLine(str + CRLF) == Data(MultiBulkReply([Some(str)]))
  {
    BodyLineOf(str);
    assert str == [] ==> (str + CRLF)[0] == '\r';
    assert str != [] ==> (str + CRLF)[0] == str[0];
    var words := SplitSpaces(str);
    assert words == [str];
    assert seq(|words|, i requires 0 <= i < |words| => Some(words[i])) == [Some(str)];
  }

  lemma TwoLines(text: Bytes, rest: Bytes)
    ensures var none: Bytes := [];
            Print(ErrorFor(text + CRLF)) + rest == ['-'] + (ERROR_PREFIX + text) + CRLF + (none + CRLF + rest)
  {
    var mark: Bytes := "-";
    Regroup(ERROR_PREFIX, text, CRLF);
    Regroup(mark, ERROR_PREFIX + text, CRLF);
    Regroup(mark + (ERROR_PREFIX + text) + CRLF, CRLF, rest);
    NothingMore(CRLF);
  }

  /**
   * Two replies to one message: in ["$3", "abc"] the first argument is read as a length, the header of the second as
   * its body, which makes a protocol error, and the rest of the second as a command line of its own.
   */
  lemma TwoReplies(exec: seq<Arg> -> Reply)
    ensures Replies(Parse(Print(MultiBulkReply([LENGTH_LIKE, NEXT])), INIT), exec) == [ErrorFor(CUT), exec([PIECE])]
  {
    var none: Bytes := [];
    TwoMessages(none);
    NothingMore(Print(MultiBulkReply([LENGTH_LIKE, NEXT])));
    assert Parse(none, INIT) == [IoError];
    TwoPayloads(ProtocolError(CUT), Data(MultiBulkReply([PIECE])), exec);
  }

  const LENGTH_LIKE: Arg := Some("$3")
  const NEXT: Arg := Some("abc")
  const CUT: Bytes := "$3\r\na"
  const PIECE: Arg := Some("bc")

  lemma TwoPayloads(p: Payload, q: Payload, exec: seq<Arg> -> Reply)
    requires !p.IoError? && !q.IoError?
    ensures Replies([p, q] + [IoError], exec) == AnswerTo(p, exec) + AnswerTo(q, exec)
  {
    OnePayload(p, [q, IoError], exec);
    OnePayload(q, [IoError], exec);
    assert [p] + [q, IoError] == [p, q] + [IoError] && [q] + [IoError] == [q, IoError];
    assert Replies([IoError], exec) == [];
    NothingMore(AnswerTo(q, exec));
  }

  lemma TwoMessages(rest: Bytes)
    ensures Parse(Print(MultiBulkReply([LENGTH_LIKE, NEXT])) + rest, INIT)
         == [ProtocolError(CUT), Data(MultiBulkReply([PIECE]))] + Parse(rest, INIT)
  {
    TwoArgs(LENGTH_LIKE, NEXT, rest);
    assert Announced(LENGTH_LIKE) == Some(3);
    CutAcross(ReadState(true, 2, true, [], 0), rest);
  }

  /** The first of two arguments announces a length. */
  lemma TwoArgs(a: Arg, b: Arg, rest: Bytes)
    requires StartsWithDollar(a) && Fits(a) && Announced(a).Some? && Announced(a).value >= 0
    ensures Parse(Print(MultiBulkReply([a, b])) + rest, INIT)
         == Parse(PrintArg(b) + rest, ReadState(true, 2, true, [], Announced(a).value))
  {
    var args := [a, b];
    PrintedMessage(args, rest);
    CountLine(args, PrintArgs(args) + rest);
    PrintArgsEnd([a], b);
    PrintArgsEnd([], a);
    assert [a] + [b] == args && [] + [a] == [a];
    NothingMore(PrintArg(a));
    Regroup(PrintArg(a), PrintArg(b), rest);
    DollarArg(a, PrintArg(b) + rest, ReadState(true, 2, true, [], 0));
  }

  /** The header and one byte are taken for the body of three bytes. */
  lemma CutAcross(st: ReadState, rest: Bytes)
    requires Reading(st)
    ensures Parse(PrintArg(NEXT) + rest, st.(bulkLen := 3))
         == [ProtocolError(CUT), Data(MultiBulkReply([PIECE]))] + Parse(rest, INIT)
  {
    var word: Bytes := "bc";
    assert FormatNat(3) == "3";
    assert PrintArg(NEXT) == CUT + (word + CRLF);
    Regroup(CUT, word + CRLF, rest);
    CutBody(word + CRLF + rest, st);
    WordLine(word, rest);
    JoinPayloads(ProtocolError(CUT), Data(MultiBulkReply([PIECE])), Parse(rest, INIT));
  }

  lemma CutBody(rest: Bytes, st: ReadState)
    requires Reading(st)
    ensures Parse(CUT + rest, st.(bulkLen := 3)) == [ProtocolError(CUT)] + Parse(rest, INIT)
  {
    assert (CUT + rest)[..5] == CUT && (CUT + rest)[5..] == rest;
    assert CUT[..3] == "$3\r" && CUT[..3][1..] == "3\r";
    assert ParseInt64(CUT[..3][1..]).None?;
  }
}
