/** The append-only file as bytes: what handleAof writes and LoadAof reads. */
module AofFile {
  import opened Strconv
  import opened Commands
  import opened Slots
  import opened Engine
  import opened Names
  import opened Resp
  import opened Parser
  import opened RoundTrip

  /** What is written: a command, or a SELECT, which the executor does not know. */
  datatype Record = Command(line: Commands.Line) | Select(index: nat)

  function Words(r: Record): (words: seq<Bytes>)
    ensures |words| > 0
  {
    match r
    case Command(line) => [Name(line.op)] + line.args
    case Select(index) => ["select", FormatNat(index)]
  }

  function ToArgs(words: seq<Bytes>): (args: seq<Arg>)
    ensures |args| == |words| && forall i :: 0 <= i < |words| ==> args[i] == Some(words[i])
  {
    seq(|words|, i requires 0 <= i < |words| => Some(words[i]))
  }

  function Batch(records: seq<Record>): seq<seq<Arg>> {
    if |records| == 0 then [] else [ToArgs(Words(records[0]))] + Batch(records[1..])
  }

  /** The bytes of a file with these records. */
  function FileOf(records: seq<Record>): Bytes {
    PrintAll(Messages(Batch(records)))
  }

  /** The commands of a file. */
  function Lines(records: seq<Record>): seq<Commands.Line> {
    if |records| == 0 then []
    else if records[0].Select? then Lines(records[1..])
    else [records[0].line] + Lines(records[1..])
  }

  /** The table lookup for a command line that was read. */
  function Decode(args: seq<Arg>): Option<Commands.Line> {
    if |args| == 0 || (exists i :: 0 <= i < |args| && args[i].None?) then None
    else match Lookup(Lower(args[0].value))
      case None => None
      case Some(op) => Some(Line(op, seq(|args| - 1, i requires 0 <= i < |args| - 1 => args[i + 1].value)))
  }

  /** Execute one payload; what is no command is reported and skipped. */
  function Apply(db: Db, p: Payload, clock: int): Db {
    if p.Data? && p.reply.MultiBulkReply? && Decode(p.reply.args).Some?
    then Exec(db, Decode(p.reply.args).value, clock).db
    else db
  }

  /** Execute payloads up to the end of the file. */
  function ApplyAll(db: Db, ch: seq<Payload>, clock: int): Db
    decreases |ch|
  {
    if |ch| == 0 || ch[0] == IoError then db else ApplyAll(Apply(db, ch[0], clock), ch[1..], clock)
  }

  /** `LoadAof`: at most maxBytes of the file, all of it when maxBytes is 0. */
  method LoadAof(db: Db, file: Bytes, maxBytes: nat, clock: int) returns (loaded: Db)
    ensures loaded == ApplyAll(db, Parse(if 0 < maxBytes < |file| then file[..maxBytes] else file, INIT), clock)
  {
    var reader := file;
    if maxBytes > 0 {
      reader := if maxBytes < |file| then file[..maxBytes] else file;
    }
    var ch := Parse0(reader);
    loaded := db;
    var i := 0;
    while i < |ch|
      invariant i <= |ch| && ApplyAll(loaded, ch[i..], clock) == ApplyAll(db, ch, clock)
    {
      if ch[i] == IoError { break; }
      assert ch[i..][1..] == ch[i + 1..];
      loaded := Apply(loaded, ch[i], clock);
      i := i + 1;
    }
  }

  /** The arguments that the parser gives back as they were. */
  predicate Writable(r: Record) {
    AllFit(ToArgs(Words(r))) && Readable(ToArgs(Words(r)))
  }

  ghost predicate AllWritable(records: seq<Record>) {
    forall i :: 0 <= i < |records| ==> Writable(records[i])
  }

  lemma DecodeCommand(line: Commands.Line)
    ensures Decode(ToArgs(Words(Command(line)))) == Some(line)
  {
    var words := Words(Command(line));
    LookupFinds(words[0], line.op);
    NameIsLower(line.op);
    assert Decode(ToArgs(words)).value.args == line.args;
  }

  /** A command is executed whatever the case of its name. */
  lemma DecodeAnyCase(word: Bytes, line: Commands.Line)
    requires Spells(word, Name(line.op))
    ensures Decode(ToArgs([word] + line.args)) == Some(line)
  {
    var words := [word] + line.args;
    LookupAnyCase(word, line.op);
    assert ToArgs(words)[0] == Some(word);
    assert Decode(ToArgs(words)).value.args == line.args;
  }

  lemma DecodeSelect(index: nat)
    ensures Decode(ToArgs(Words(Select(index)))) == None
  {
    var name: Bytes := "select";
    assert Lower(name) == name by {
      forall i | 0 <= i < |name| ensures LowerChar(name[i]) == name[i] { SelectIsLower(i); }
    }
    assert name[0] == 's' && name[1] == 'e' && name[3] == 'e';
    assert Candidate(name) == None;
  }

  lemma SelectIsLower(i: nat)
    requires i < 6
    ensures var name: Bytes := "select"; 'a' <= name[i] <= 'z'
  {
  }

  lemma ReceivedSame(args: seq<Arg>)
    requires forall i :: 0 <= i < |args| ==> args[i].Some?
    ensures ReceivedAll(args) == args
  {
  }

  lemma {:induction false} BatchAt(records: seq<Record>)
    ensures |Batch(records)| == |records|
    ensures forall i :: 0 <= i < |records| ==> Batch(records)[i] == ToArgs(Words(records[i]))
  {
    if |records| > 0 { BatchAt(records[1..]); }
  }

  lemma {:induction false} DeliveredApplies(db: Db, records: seq<Record>, clock: int)
    ensures ApplyAll(db, Delivered(Batch(records)), clock) == ExecAll(db, Lines(records), clock)
    decreases |records|
  {
    if |records| > 0 {
      var args := ToArgs(Words(records[0]));
      ReceivedSame(args);
      assert Batch(records)[1..] == Batch(records[1..]);
      var p, rest := Data(MultiBulkReply(args)), Delivered(Batch(records[1..]));
      assert Delivered(Batch(records)) == [p] + rest;
      if records[0].Command? {
        DecodeCommand(records[0].line);
        assert Lines(records)[0] == records[0].line && Lines(records)[1..] == Lines(records[1..]);
      } else {
        DecodeSelect(records[0].index);
      }
      DeliveredApplies(Apply(db, p, clock), records[1..], clock);
    }
  }

  /** A file loads as its commands execute, bytes and all. */
  lemma FileLoads(db: Db, records: seq<Record>, clock: int)
    requires AllWritable(records)
    ensures ApplyAll(db, Parse(FileOf(records), INIT), clock) == ExecAll(db, Lines(records), clock)
  {
    BatchAt(records);
    StreamRoundTrip(Batch(records));
    DeliveredApplies(db, records, clock);
  }

  /** The messages of a file are read back as they were written exactly when no argument starts with a dollar sign. */
  lemma FileReadsBack(records: seq<Record>)
    requires forall i :: 0 <= i < |records| ==> AllFit(ToArgs(Words(records[i])))
    ensures Parse(FileOf(records), INIT) == Delivered(Batch(records)) <==> AllWritable(records)
  {
    var batch := Batch(records);
    BatchReadable(records);
    StreamRoundTrip(batch);
  }

  lemma BatchReadable(records: seq<Record>)
    requires forall i :: 0 <= i < |records| ==> AllFit(ToArgs(Words(records[i])))
    ensures forall i :: 0 <= i < |Batch(records)| ==> AllFit(Batch(records)[i])
    ensures (forall i :: 0 <= i < |Batch(records)| ==> Readable(Batch(records)[i])) <==> AllWritable(records)
  {
    var batch := Batch(records);
    BatchAt(records);
    forall i | 0 <= i < |records| ensures AllFit(batch[i]) && (Readable(batch[i]) <==> Writable(records[i])) { }
  }

  lemma {:induction false} PrintAllAppend(a: seq<Reply>, b: seq<Reply>)
    ensures PrintAll(a + b) == PrintAll(a) + PrintAll(b)
  {
    if |a| == 0 {
      assert a + b == b;
    } else {
      assert (a + b)[1..] == a[1..] + b;
      PrintAllAppend(a[1..], b);
    }
  }

  lemma {:induction false} MessagesAppend(a: seq<seq<Arg>>, b: seq<seq<Arg>>)
    ensures Messages(a + b) == Messages(a) + Messages(b)
  {
    if |a| == 0 {
      assert a + b == b;
    } else {
      assert (a + b)[1..] == a[1..] + b;
      MessagesAppend(a[1..], b);
    }
  }

  /** Appending records appends their bytes: the file size stays on a record boundary. */
  lemma FileAppend(a: seq<Record>, b: seq<Record>)
    ensures FileOf(a + b) == FileOf(a) + FileOf(b)
  {
    BatchAppend(a, b);
    MessagesAppend(Batch(a), Batch(b));
    PrintAllAppend(Messages(Batch(a)), Messages(Batch(b)));
  }

  lemma {:induction false} BatchAppend(a: seq<Record>, b: seq<Record>)
    ensures Batch(a + b) == Batch(a) + Batch(b)
  {
    if |a| == 0 {
      assert a + b == b;
    } else {
      assert (a + b)[1..] == a[1..] + b;
      BatchAppend(a[1..], b);
    }
  }

  lemma {:induction false} LinesAppend(a: seq<Record>, b: seq<Record>)
    ensures Lines(a + b) == Lines(a) + Lines(b)
  {
    if |a| == 0 {
      assert a + b == b;
    } else {
      assert (a + b)[1..] == a[1..] + b;
      LinesAppend(a[1..], b);
      var first, x, y := (a + b)[0], Lines(a[1..]), Lines(b);
      assert first.Command? ==> [first.line] + (x + y) == ([first.line] + x) + y;
    }
  }
}
