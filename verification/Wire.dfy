/** What a stretch of bytes is to the parser at the other end, whatever follows it. */
module Wire {
  import opened Strconv
  import opened Resp
  import opened Parser
  import opened RoundTrip
  import opened Service

  /* ---- one payload at a time ---- */

  /** The next payload and the bytes behind it; nothing while the parser waits for more, or once it has panicked. */
  function NextPayload(input: Bytes, st: ReadState): Option<(Payload, Bytes)>
    decreases |input|
  {
    match Step(input, st)
    case Stop(_) => None
    case Go(sent, rest, next) => if |sent| > 0 then Some((sent[0], rest)) else NextPayload(rest, next)
  }

  /** Whenever the parser sends, it sends one payload and starts anew. */
  lemma SendsOne(input: Bytes, st: ReadState)
    ensures var turn := Step(input, st);
            turn.Go? && |turn.sent| > 0 ==> turn.state == INIT && |turn.sent| == 1 && !turn.sent[0].IoError?
  {
  }

  lemma {:induction false} ParseTakes(input: Bytes, st: ReadState)
    ensures var next := NextPayload(input, st);
            if next.Some? then
              && Parse(input, st) == [next.value.0] + Parse(next.value.1, INIT)
              && !next.value.0.IoError? && !Parse(input, st)[0].IoError?
            else |Parse(input, st)| <= 1 && (|Parse(input, st)| == 1 ==> Parse(input, st)[0].IoError?)
    decreases |input|
  {
    SendsOne(input, st);
    var turn := Step(input, st);
    if turn.Go? && |turn.sent| == 0 {
      ParseTakes(turn.rest, turn.state);
      assert Parse(input, st) == Parse(turn.rest, turn.state);
    }
  }

  lemma SameLineFeed(input: Bytes, more: Bytes)
    requires LineFeed(input) < |input|
    ensures LineFeed(input + more) == LineFeed(input)
  {
    var i, j := LineFeed(input), LineFeed(input + more);
    assert (input + more)[i] == input[i] == '\n';
    assert forall k :: 0 <= k < i ==> (input + more)[k] == input[k];
  }

  /** A turn does not depend on what comes behind the bytes it reads. */
  lemma StepLonger(input: Bytes, more: Bytes, st: ReadState)
    requires Step(input, st).Go?
    ensures var turn := Step(input, st);
            Step(input + more, st) == Go(turn.sent, turn.rest + more, turn.state)
  {
    if st.bulkLen == 0 {
      SameLineFeed(input, more);
      var end := LineFeed(input);
      assert (input + more)[..end + 1] == input[..end + 1] && (input + more)[end + 1..] == input[end + 1..] + more;
    } else {
      var n := st.bulkLen + 2;
      assert (input + more)[..n] == input[..n] && (input + more)[n..] == input[n..] + more;
    }
  }

  lemma {:induction false} TakesLonger(input: Bytes, more: Bytes, st: ReadState)
    requires NextPayload(input, st).Some?
    ensures var next := NextPayload(input, st).value;
            NextPayload(input + more, st) == Some((next.0, next.1 + more))
    decreases |input|
  {
    StepLonger(input, more, st);
    var turn := Step(input, st);
    if |turn.sent| == 0 { TakesLonger(turn.rest, more, turn.state); }
  }

  /* ---- bytes that carry payloads ---- */

  ghost predicate CarriesBefore(bytes: Bytes, payloads: seq<Payload>, rest: Bytes) {
    Parse(bytes + rest, INIT) == payloads + Parse(rest, INIT)
  }

  /** The bytes are read as these payloads, and what follows as if they had not been there. */
  ghost predicate Carries(bytes: Bytes, payloads: seq<Payload>) {
    forall rest: Bytes :: CarriesBefore(bytes, payloads, rest)
  }

  lemma NoBytesCarryNothing()
    ensures Carries([], [])
  {
    forall rest: Bytes ensures CarriesBefore([], [], rest) {
      NothingMore(rest);
      NothingMore(Parse(rest, INIT));
    }
  }

  lemma Join(a: Bytes, ps: seq<Payload>, b: Bytes, qs: seq<Payload>)
    requires Carries(a, ps) && Carries(b, qs)
    ensures Carries(a + b, ps + qs)
  {
    forall rest: Bytes ensures CarriesBefore(a + b, ps + qs, rest) {
      assert CarriesBefore(a, ps, b + rest) && CarriesBefore(b, qs, rest);
      Regroup(a, b, rest);
      Regroup(ps, qs, Parse(rest, INIT));
    }
  }

  lemma Alone(bytes: Bytes, ps: seq<Payload>)
    requires Carries(bytes, ps)
    ensures Parse(bytes, INIT) == ps + [IoError]
  {
    var none: Bytes := [];
    assert CarriesBefore(bytes, ps, none);
    NothingMore(bytes);
    assert Parse(none, INIT) == [IoError];
  }

  lemma TakeFirst(bytes: Bytes, ps: seq<Payload>)
    requires Carries(bytes, ps) && |ps| > 0
    ensures var next := NextPayload(bytes, INIT);
            next.Some? && next.value.0 == ps[0] && Carries(next.value.1, ps[1..])
  {
    Alone(bytes, ps);
    ParseTakes(bytes, INIT);
    var next := NextPayload(bytes, INIT).value;
    assert (ps + [IoError])[0] == ps[0];
    forall rest: Bytes ensures CarriesBefore(next.1, ps[1..], rest) {
      assert CarriesBefore(bytes, ps, rest);
      TakesLonger(bytes, rest, INIT);
      ParseTakes(bytes + rest, INIT);
      SameTail([next.0], Parse(next.1 + rest, INIT), ps, Parse(rest, INIT));
    }
  }

  lemma SameTail(first: seq<Payload>, more: seq<Payload>, ps: seq<Payload>, rest: seq<Payload>)
    requires |first| == 1 && |ps| > 0 && first + more == ps + rest
    ensures more == ps[1..] + rest
  {
    assert (first + more)[1..] == more && (ps + rest)[1..] == ps[1..] + rest;
  }

  lemma TakeNone(bytes: Bytes)
    requires Carries(bytes, [])
    ensures NextPayload(bytes, INIT).None?
  {
    Alone(bytes, []);
    NothingMore([IoError]);
    ParseTakes(bytes, INIT);
  }

  /** Only no bytes at all carry nothing: others wait for more, and then take from what follows. */
  lemma OnlyNoBytes(bytes: Bytes)
    requires Carries(bytes, [])
    ensures bytes == []
  {
    if bytes != [] {
      var line: Bytes := "+\r\n";
      var none: Bytes := [];
      TakeNone(bytes);
      assert CarriesBefore(bytes, [], line);
      assert [] + Parse(line, INIT) == Parse(line, INIT);
      EmptyStatus();
      NotEmptyStatus(bytes, line);
    }
  }

  lemma EmptyStatus()
    ensures var line: Bytes := "+\r\n"; |Parse(line, INIT)| > 0 && Parse(line, INIT)[0] == Data(StatusReply([]))
  {
    var none: Bytes := [];
    var line: Bytes := "+\r\n";
    assert ['+'] + none + CRLF + none == line;
    StatusRoundTrip('+', none, none);
  }

  lemma NotEmptyStatus(bytes: Bytes, line: Bytes)
    requires bytes != [] && line == "+\r\n" && NextPayload(bytes, INIT).None?
    ensures var out := Parse(bytes + line, INIT); |out| > 0 ==> out[0] != Data(StatusReply([]))
  {
    var all := bytes + line;
    if LineFeed(bytes) < |bytes| {
      SameLineFeed(bytes, line);
      if Step(bytes, INIT).Go? {
        HeaderFirst(bytes, line);
      } else {
        assert Step(all, INIT) == Stop([]);
      }
    } else {
      UnendedLine(bytes, line);
    }
  }

  lemma HeaderFirst(bytes: Bytes, line: Bytes)
    requires NextPayload(bytes, INIT).None? && Step(bytes, INIT).Go?
    ensures var out := Parse(bytes + line, INIT); |out| > 0 ==> out[0] != Data(StatusReply([]))
  {
    StepLonger(bytes, line, INIT);
    var turn := Step(bytes, INIT);
    assert turn.sent == [];
    Awaiting(bytes);
    FirstPayloadHasNoDollar(turn.rest + line, turn.state);
    NothingMore(Parse(turn.rest + line, turn.state));
  }

  lemma Awaiting(bytes: Bytes)
    ensures var turn := Step(bytes, INIT);
            turn.Go? && turn.sent == [] ==> turn.state.readingMultiLine && turn.state.args == []
  {
  }

  lemma UnendedLine(bytes: Bytes, line: Bytes)
    requires bytes != [] && line == "+\r\n" && LineFeed(bytes) == |bytes|
    ensures var out := Parse(bytes + line, INIT); |out| > 0 ==> out[0] != Data(StatusReply([]))
  {
    var none: Bytes := [];
    var text := bytes + ['+'];
    assert bytes + line == text + CRLF + none;
    FirstLineParses(text, none);
    FedLine(text);
    var (p, next) := FeedFirst(text + CRLF);
    if p.None? { FirstPayloadHasNoDollar(none, next); }
  }

  lemma FedLine(text: Bytes)
    requires |text| > 1
    ensures var (p, next) := FeedFirst(text + CRLF);
            p != Some(Data(StatusReply([]))) && (p.None? ==> next.readingMultiLine && next.args == [])
  {
    var msg := text + CRLF;
    assert msg[..|msg| - 2] == text;
  }

  /* ---- requests ---- */

  lemma MessageCarried(args: seq<Arg>)
    requires Answerable(args)
    ensures Carries(Print(MultiBulkReply(args)), [Data(MultiBulkReply(TakenAll(args)))])
  {
    var front, last := args[..|args| - 1], args[|args| - 1];
    assert args == front + [last];
    TakenAllEnd(front, last);
    forall rest: Bytes ensures CarriesBefore(Print(MultiBulkReply(args)), [Data(MultiBulkReply(TakenAll(args)))], rest) {
      LastArgument(front, last, rest);
    }
  }

  /* ---- replies ---- */

  predicate ReplyFits(r: Reply) {
    (r.BulkReply? ==> Fits(r.arg)) && (r.MultiBulkReply? ==> AllFit(r.args))
  }

  /** No argument before the last reads as a length. */
  predicate FrontHarmless(r: Reply) {
    r.MultiBulkReply? && |r.args| > 0 ==> AllHarmless(r.args[..|r.args| - 1])
  }

  /** The body is not a length that makes the parser wait for as many bytes more. */
  predicate Closed(arg: Arg) {
    Harmless(arg) || Announced(arg).None?
  }

  /** The replies that come back as one payload, though perhaps not as themselves. */
  predicate OneBack(r: Reply) {
    ReplyFits(r) &&
    match r
    case StatusReply(status) => '\n' !in status
    case ErrorReply(status) => '\n' !in status
    case IntReply(_) => true
    case BulkReply(arg) => Closed(arg)
    case MultiBulkReply(args) => |args| <= MAX_UINT32 && FrontHarmless(r) && (|args| > 0 ==> Closed(args[|args| - 1]))
    case NullBulkReply => true
    case EmptyMultiBulkReply => true
  }

  /** What comes back. */
  function Back(r: Reply): Payload {
    match r
    case IntReply(code) => if OnTheWire(r) then Data(r) else ProtocolError([':'] + FormatInt(code) + CRLF)
    case BulkReply(Some(body)) =>
      if Harmless(Some(body)) then Data(BulkReply(Taken(Some(body)))) else ProtocolError(body + CRLF)
    case MultiBulkReply(args) =>
      if |args| == 0 || Harmless(args[|args| - 1]) then
        Data(if |args| == 0 then EmptyMultiBulkReply else MultiBulkReply(TakenAll(args)))
      else ProtocolError(args[|args| - 1].value + CRLF)
    case _ => Data(Decoded(r))
  }

  /** A bulk reply whose body starts with a dollar sign. */
  lemma DollarBulk(body: Bytes, rest: Bytes)
    requires Fits(Some(body)) && StartsWithDollar(Some(body))
    ensures Parse(Print(BulkReply(Some(body))) + rest, INIT)
         == if Announced(Some(body)).None? then [ProtocolError(body + CRLF)] + Parse(rest, INIT)
            else if Negative(Some(body)) then [Data(BulkReply(Some([])))] + Parse(rest, INIT)
            else Parse(rest, ReadState(true, 1, false, [], Announced(Some(body)).value))
  {
    var st := ReadState(true, 1, false, [], |body|);
    PrintedBulk(body, rest);
    BulkParses(body, rest);
    ReadBodyExact(body, rest);
    BodyLineOf(body);
    if Announced(Some(body)).Some? && !Negative(Some(body)) {
      NothingMore(Parse(rest, st.(bulkLen := Announced(Some(body)).value)));
    }
  }

  lemma BulkCarried(arg: Arg)
    requires Fits(arg) && Closed(arg)
    ensures Carries(Print(BulkReply(arg)), [Back(BulkReply(arg))])
  {
    forall rest: Bytes ensures CarriesBefore(Print(BulkReply(arg)), [Back(BulkReply(arg))], rest) {
      if StartsWithDollar(arg) { DollarBulk(arg.value, rest); } else { ReplyRoundTrip(BulkReply(arg), rest); }
    }
  }

  lemma MultiCarried(args: seq<Arg>)
    requires OneBack(MultiBulkReply(args)) && |args| > 0
    ensures Carries(Print(MultiBulkReply(args)), [Back(MultiBulkReply(args))])
  {
    var front, last := args[..|args| - 1], args[|args| - 1];
    assert args == front + [last];
    TakenAllEnd(front, last);
    forall rest: Bytes ensures CarriesBefore(Print(MultiBulkReply(args)), [Back(MultiBulkReply(args))], rest) {
      LastArgument(front, last, rest);
    }
  }

  lemma ReplyCarried(r: Reply)
    requires OneBack(r)
    ensures Carries(Print(r), [Back(r)])
  {
    if r.BulkReply? {
      BulkCarried(r.arg);
    } else if r.MultiBulkReply? && |r.args| > 0 {
      MultiCarried(r.args);
    } else {
      forall rest: Bytes ensures CarriesBefore(Print(r), [Back(r)], rest) {
        if r.IntReply? { PrintedInt(r.code, rest); } else { ReplyRoundTrip(r, rest); }
      }
    }
  }

  lemma PrintedInt(code: int, rest: Bytes)
    ensures CarriesBefore(Print(IntReply(code)), [Back(IntReply(code))], rest)
  {
    IntRoundTrip(code, rest);
    var mark: Bytes := ":";
    assert mark == [':'];
  }

  /** A line feed cuts the line: something is sent, and something is left. */
  lemma CutLine(mark: Byte, text: Bytes)
    requires '\n' in text && (mark == '+' || mark == '-')
    ensures var next := NextPayload([mark] + text + CRLF, INIT);
            next.Some? && next.value.1 != []
  {
    var bytes := [mark] + text + CRLF;
    var k :| 0 <= k < |text| && text[k] == '\n';
    assert bytes[k + 1] == '\n';
    var i := LineFeed(bytes);
    assert 0 < i <= k + 1;
    assert bytes[..i + 1][0] == mark;
  }

  /** A reply comes back as exactly one payload, whatever follows, exactly when it says so. */
  lemma OneBackIff(r: Reply)
    requires ReplyFits(r) && FrontHarmless(r)
    ensures OneBack(r) <==> exists p :: Carries(Print(r), [p])
  {
    if OneBack(r) {
      ReplyCarried(r);
    } else if p :| Carries(Print(r), [p]) {
      NotOneBack(r, p);
    }
  }

  lemma NotOneBack(r: Reply, p: Payload)
    requires ReplyFits(r) && FrontHarmless(r) && !OneBack(r)
    ensures !Carries(Print(r), [p])
  {
    if Carries(Print(r), [p]) {
      Alone(Print(r), [p]);
      TakeFirst(Print(r), [p]);
      var left := NextPayload(Print(r), INIT).value.1;
      assert [p][1..] == [];
      OnlyNoBytes(left);
      match r {
        case StatusReply(status) => CutLine('+', status);
        case ErrorReply(status) => CutLine('-', status);
        case BulkReply(arg) => OpenBulk(arg.value);
        case MultiBulkReply(args) => if |args| > MAX_UINT32 { TooMany(args); } else { OpenMulti(args); }
      }
    }
  }

  lemma OpenBulk(body: Bytes)
    requires Fits(Some(body)) && !Closed(Some(body))
    ensures Parse(Print(BulkReply(Some(body))), INIT) == [IoError]
  {
    var none: Bytes := [];
    DollarBulk(body, none);
    NothingMore(Print(BulkReply(Some(body))));
  }

  lemma OpenMulti(args: seq<Arg>)
    requires 0 < |args| <= MAX_UINT32 && AllFit(args) && AllHarmless(args[..|args| - 1]) && !Closed(args[|args| - 1])
    ensures Parse(Print(MultiBulkReply(args)), INIT) == [IoError]
  {
    var none: Bytes := [];
    var front, last := args[..|args| - 1], args[|args| - 1];
    assert args == front + [last];
    LastArgument(front, last, none);
    NothingMore(Print(MultiBulkReply(args)));
  }

  lemma TooMany(args: seq<Arg>)
    requires |args| > MAX_UINT32
    ensures var next := NextPayload(Print(MultiBulkReply(args)), INIT);
            next.Some? && next.value.1 != []
  {
    var line := "*" + FormatNat(|args|);
    DigitsHaveNoLineFeed(FormatNat(|args|));
    ReadLineExact(line, PrintArgs(args));
    ParseFormatUint(|args|);
  }

  lemma {:induction false} TakenIsReceived(args: seq<Arg>)
    requires AllHarmless(args)
    ensures TakenAll(args) == ReceivedAll(args) <==> NoDollar(args)
  {
    if |args| > 0 {
      TakenIsReceived(args[1..]);
      assert TakenAll(args)[0] == Taken(args[0]) && TakenAll(args)[1..] == TakenAll(args[1..]);
      assert ReceivedAll(args)[0] == Received(args[0]) && ReceivedAll(args)[1..] == ReceivedAll(args[1..]);
      assert NoDollar(args) <==> !StartsWithDollar(args[0]) && NoDollar(args[1..]) by {
        forall i | 0 < i < |args| ensures args[i] == args[1..][i - 1] { }
      }
    }
  }

  /** One payload comes back, and it is the reply itself exactly when the reply is fit for the wire. */
  lemma BackIsSame(r: Reply)
    requires OneBack(r)
    ensures Back(r) == Data(Decoded(r)) <==> OnTheWire(r)
  {
    if r.MultiBulkReply? && |r.args| > 0 {
      var last := r.args[|r.args| - 1];
      assert r.args == r.args[..|r.args| - 1] + [last];
      if Harmless(last) { TakenIsReceived(r.args); }
    }
  }

  /* ---- replies that come back as two payloads ---- */

  /** A line feed inside an error text, with a single plain word behind it. */
  lemma LineFeedTwice(a: Bytes, b: Bytes)
    requires '\n' !in a && (a != [] ==> a[|a| - 1] != '\r')
    requires '\n' !in b && ' ' !in b && b != [] && b[0] !in ['+', '-', ':', '*', '$']
    ensures Carries(Print(ErrorReply(a + ['\n'] + b)), [ProtocolError(['-'] + a + ['\n']), Data(MultiBulkReply([Some(b)]))])
  {
    var first := ['-'] + a + ['\n'];
    var p, q := ProtocolError(first), Data(MultiBulkReply([Some(b)]));
    forall rest: Bytes ensures CarriesBefore(Print(ErrorReply(a + ['\n'] + b)), [p, q], rest) {
      CutBytes(a, b, rest);
      BrokenLine(a, b + CRLF + rest);
      WordLine(b, rest);
      JoinPayloads(p, q, Parse(rest, INIT));
    }
  }

  lemma CutBytes(a: Bytes, b: Bytes, rest: Bytes)
    ensures Print(ErrorReply(a + ['\n'] + b)) + rest == ['-'] + a + ['\n'] + (b + CRLF + rest)
  {
  }

  lemma BrokenLine(a: Bytes, rest: Bytes)
    requires '\n' !in a && (a != [] ==> a[|a| - 1] != '\r')
    ensures Parse(['-'] + a + ['\n'] + rest, INIT) == [ProtocolError(['-'] + a + ['\n'])] + Parse(rest, INIT)
  {
    var line := ['-'] + a + ['\n'];
    var input := line + rest;
    assert forall k :: 0 <= k <= |a| ==> input[k] == line[k];
    assert input[|a| + 1] == '\n';
    assert LineFeed(input) == |a| + 1;
    assert input[..|a| + 2] == line && input[|a| + 2..] == rest;
    assert |a| > 0 ==> input[|a|] == a[|a| - 1];
  }

  /** The error about the message of `TwoReplies` quotes a CRLF, and so is read as an error and a command line. */
  lemma CutErrorTwice()
    ensures Carries(Print(ErrorFor(CUT)), [Data(ErrorReply(CUT_TEXT)), Data(MultiBulkReply([PIECE_OF_CUT]))])
  {
    var p, q := Data(ErrorReply(CUT_TEXT)), Data(MultiBulkReply([PIECE_OF_CUT]));
    forall rest: Bytes ensures CarriesBefore(Print(ErrorFor(CUT)), [p, q], rest) {
      CutErrorBytes(rest);
      CutTextParses(CUT_WORD + CRLF + rest);
      WordLine(CUT_WORD, rest);
      JoinPayloads(p, q, Parse(rest, INIT));
    }
  }

  const CUT_TEXT: Bytes := ERROR_PREFIX + "$3"
  const CUT_WORD: Bytes := "a"
  const PIECE_OF_CUT: Arg := Some(CUT_WORD)

  lemma CutTextParses(rest: Bytes)
    ensures Parse(['-'] + CUT_TEXT + CRLF + rest, INIT) == [Data(ErrorReply(CUT_TEXT))] + Parse(rest, INIT)
  {
    StatusRoundTrip('-', CUT_TEXT, rest);
  }

  lemma CutErrorBytes(rest: Bytes)
    ensures Print(ErrorFor(CUT)) + rest == ['-'] + CUT_TEXT + CRLF + (CUT_WORD + CRLF + rest)
  {
    var head: Bytes := "$3";
    assert CUT == head + (CRLF + CUT_WORD);
    Regroup(ERROR_PREFIX, head, CRLF + CUT_WORD);
  }
}
