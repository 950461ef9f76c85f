/** The reply printer: `ToBytes` of each reply kind, in the Redis serialization protocol. */
module Resp {
  import opened Strconv

  const CRLF: Bytes := "\r\n"

  /** A nil Go slice is `None`. */
  type Arg = Option<Bytes>

  datatype Reply =
    | StatusReply(status: Bytes)
    | ErrorReply(status: Bytes)
    | IntReply(code: int)
    | BulkReply(arg: Arg)
    | MultiBulkReply(args: seq<Arg>)
    | NullBulkReply
    | EmptyMultiBulkReply

  function PrintArg(arg: Arg): Bytes {
    match arg
    case None => "$-1" + CRLF
    case Some(bytes) => "$" + FormatNat(|bytes|) + CRLF + bytes + CRLF
  }

  function PrintArgs(args: seq<Arg>): Bytes {
    if |args| == 0 then [] else PrintArg(args[0]) + PrintArgs(args[1..])
  }

  function Print(r: Reply): Bytes {
    match r
    case StatusReply(status) => "+" + status + CRLF
    case ErrorReply(status) => "-" + status + CRLF
    case IntReply(code) => ":" + FormatInt(code) + CRLF
    case BulkReply(arg) => PrintArg(arg)
    case MultiBulkReply(args) => "*" + FormatNat(|args|) + CRLF + PrintArgs(args)
    case NullBulkReply => "$-1" + CRLF
    case EmptyMultiBulkReply => "*0" + CRLF
  }

  function PrintAll(replies: seq<Reply>): Bytes {
    if |replies| == 0 then [] else Print(replies[0]) + PrintAll(replies[1..])
  }

  /** `MultiBulkReply.ToBytes`, which fills a buffer argument by argument. */
  method MultiBulkToBytes(args: seq<Arg>) returns (buf: Bytes)
    ensures buf == Print(MultiBulkReply(args))
  {
    buf := "*" + FormatNat(|args|) + CRLF;
    ghost var header := buf;
    for i := 0 to |args|
      invariant buf + PrintArgs(args[i..]) == header + PrintArgs(args)
    {
      ghost var rest := PrintArgs(args[i + 1..]);
      assert args[i..][1..] == args[i + 1..];
      var chunk: Bytes;
      if args[i].None? {
        chunk := "$-1" + CRLF;
      } else {
        chunk := "$" + FormatNat(|args[i].value|) + CRLF + args[i].value + CRLF;
      }
      assert chunk == PrintArg(args[i]);
      assert (buf + chunk) + rest == buf + (chunk + rest);
      buf := buf + chunk;
    }
    assert buf + PrintArgs([]) == buf;
  }
}
