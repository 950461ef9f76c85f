/** Where a rewrite does not keep the database, and what happens then, down to the bytes of the file. */
module RewriteLosses {
  import opened Strconv
  import opened Commands
  import opened Slots
  import opened Engine
  import opened Marshal
  import Names
  import Rollback
  import opened RollbackCases
  import opened AofFile
  import opened Rewrite
  import opened RewriteRuns
  import Parser
  import Resp
  import RoundTrip
  import Service

  lemma SelectWritable()
    ensures Writable(Select(0))
  {
    var words := Words(Select(0));
    assert words[0] == "select" && words[1] == "0";
    assert AllShort(words) && |words| == 2;
  }

  predicate AllShort(words: seq<Bytes>) {
    forall i :: 0 <= i < |words| ==> 0 < |words[i]| <= 6 && words[i][0] != '$'
  }

  /** What FinishRewrite leaves, when the dump and what follows it can be read back. */
  lemma FinishReloads(w: World, databases: nat, clock: int)
    requires Possible(w, Finish) && AllWritable(w.pending.dump) && AllWritable(w.records[w.pending.pre..])
    ensures Reloaded(Next(w, Finish, databases).records, clock)
         == ExecAll(Replayed(w.pending.dump, clock), Lines(w.records[w.pending.pre..]), clock)
  {
    SelectWritable();
    FinishReplays(w, databases, clock);
    FileLoads(NO_DATA, Next(w, Finish, databases).records, clock);
  }

  /** One rewrite with nothing appended meanwhile keeps what the file loads to exactly when that can be dumped. */
  lemma QuietRewrite(records: seq<Record>, databases: nat, doClock: int, clock: int)
    requires var db := Loaded(records, databases, doClock);
             records != [] && SoundDb(db) && AllWritable(RewriteFrom(0, databases, db))
    ensures var end := Next(Next(World(records, Started(|records|), []), Do(doClock), databases), Finish, databases);
            && (databases > 0 ==> (Reloaded(end.records, clock) == Reloaded(records, doClock)
                                   <==> AllDumpable(Reloaded(records, doClock))))
            && (databases == 0 ==> Reloaded(end.records, clock) == NO_DATA)
  {
    var w := World(records, Started(|records|), []);
    WholeOf(records);
    FinishReloads(Next(w, Do(doClock), databases), databases, clock);
    assert Lines([]) == [];
    if databases > 0 { DumpRebuilds(databases, Reloaded(records, doClock), clock); }
  }

  /** The configured default of no databases loses every command before the rewrite. */
  lemma NoDatabasesLosesAll(records: seq<Record>, rest: seq<Commands.Line>, doClock: int, clock: int)
    requires records != [] && AllWritable(AsRecords(rest))
    ensures var end := Next(AppendAll(Next(World(records, Started(|records|), []), Do(doClock), 0), rest), Finish, 0);
            Reloaded(end.records, clock) == ExecAll(NO_DATA, rest, clock)
  {
    var done := AppendAll(Next(World(records, Started(|records|), []), Do(doClock), 0), rest);
    assert done.records[|records|..] == AsRecords(rest);
    LinesOfCommands(rest);
    FinishReloads(done, 0, clock);
    assert Replayed([], clock) == NO_DATA;
  }

  /** A rewrite of one database with one string in it. */
  function OneString(key: Bytes, bytes: Bytes): Db {
    PutSlot(NO_DATA, key, Slot(Some(Str(bytes)), None))
  }

  predicate PlainBytes(bytes: Bytes) {
    Writable(Command(Line(Set, [bytes, bytes])))
  }

  lemma OneIsDumped(key: Bytes, bytes: Bytes, clock: int)
    requires PlainBytes(key) && PlainBytes(bytes)
    ensures var dump := RewriteFrom(0, 1, OneString(key, bytes));
            Replayed(dump, clock) == OneString(key, bytes) && AllWritable(dump)
  {
    var one := OneString(key, bytes);
    assert SoundDb(one);
    assert forall k :: k in one.data ==> At(one, k).value.Some? && k == key;
    DumpRebuilds(1, one, clock);
    OneDump(key, bytes);
    SelectWritable();
    SetWritable(key, bytes);
  }

  lemma OneDump(key: Bytes, bytes: Bytes)
    ensures RewriteFrom(0, 1, OneString(key, bytes)) == [Select(0), Command(Line(Set, [key, bytes]))]
  {
    var one := OneString(key, bytes);
    OnlyKey(one, key);
    assert RewriteFrom(1, 1, one) == [];
    assert [key][1..] == [];
    assert DumpKey(key, At(one, key)) == [Command(Line(Set, [key, bytes]))];
    assert DumpKeys(one, [key]) == DumpKey(key, At(one, key)) + DumpKeys(one, []);
  }

  lemma OnlyKey(one: Db, key: Bytes)
    requires one.data.Keys == {key}
    ensures KeyOrder(one) == [key]
  {
    var f := Least({key});
    assert {key} - {f} == {};
    assert FieldOrder({key}) == [f] + FieldOrder({});
  }

  lemma SetWritable(key: Bytes, bytes: Bytes)
    requires PlainBytes(key) && PlainBytes(bytes)
    ensures Writable(Command(Line(Set, [key, bytes])))
  {
    var k, b, words := ToArgs(Words(Command(Line(Set, [key, key])))), ToArgs(Words(Command(Line(Set, [bytes, bytes])))),
                       ToArgs(Words(Command(Line(Set, [key, bytes]))));
    assert k[1] == words[1] && b[2] == words[2] && k[0] == words[0];
  }

  /** A command appended to an empty file while it is being rewritten counts twice. */
  lemma EmptyFileCountsTwice(key: Bytes, doClock: int, clock: int)
    requires PlainBytes(key)
    ensures var w := AppendAll(Next(EMPTY_FILE, Start, 1), [Line(Incr, [key])]);
            var end := Next(Next(w, Do(doClock), 1), Finish, 1);
            && At(ExecAll(NO_DATA, end.history, clock), key).value == Some(Str("1"))
            && At(Reloaded(end.records, clock), key).value == Some(Str("2"))
  {
    var incr, one: Bytes := Line(Incr, [key]), "1";
    var w := AppendAll(Next(EMPTY_FILE, Start, 1), [incr]);
    LinesOfCommands([incr]);
    assert [] + AsRecords([incr]) == AsRecords([incr]) && [] + [incr] == [incr];
    IncrWritable(key);
    FileLoads(NO_DATA, w.records, doClock);
    IncrRuns(NO_DATA, key, doClock);
    IncrRuns(NO_DATA, key, clock);
    IncrRuns(OneString(key, one), key, clock);
    OneRecord(NO_DATA, incr, doClock);
    OneRecord(NO_DATA, incr, clock);
    OneRecord(OneString(key, one), incr, clock);
    OneIsDumped(key, one, clock);
    assert w.records[0..] == w.records;
    FinishReloads(Next(w, Do(doClock), 1), 1, clock);
  }

  lemma IncrWritable(key: Bytes)
    requires PlainBytes(key)
    ensures AllWritable(AsRecords([Line(Incr, [key])])) && PlainBytes("1")
  {
    var s, words := ToArgs(Words(Command(Line(Set, [key, key])))), ToArgs(Words(Command(Line(Incr, [key]))));
    assert s[1] == words[1];
    assert words[0] == Some(Names.Name(Incr)) && Names.Name(Incr) == "incr";
  }

  lemma IncrRuns(db: Db, key: Bytes, now: int)
    requires At(db, key) == EMPTY || At(db, key) == Slot(Some(Str("1")), None)
    ensures Exec(db, Line(Incr, [key]), now).db
         == PutSlot(db, key, Slot(Some(Str(if At(db, key) == EMPTY then "1" else "2")), None))
  {
    var bytes: Bytes := "1";
    assert bytes[..0] == [] && DigitsValue(bytes[..0]) == 0 && DigitsValue(bytes) == 1;
    assert ParseInt64(bytes) == Some(1);
    assert FormatInt(2) == "2";
  }

  /* ---- a value that reads as a length ---- */

  const LENGTH: Bytes := "$5"
  const HEADER: Bytes := "*2\r\n$"

  /**
   * SET of "$5" and DEL of the same key: the value is read as a length, the five bytes that follow it become the value,
   * and the parser trips over the rest of the DEL. The key is not in the database, and it is back after a rewrite.
   */
  lemma LengthComesBack(key: Bytes, doClock: int, clock: int)
    requires PlainBytes(key)
    ensures var w := AppendAll(EMPTY_FILE, [Line(Set, [key, LENGTH]), Line(Del, [key])]);
            var end := Next(Next(Next(w, Start, 1), Do(doClock), 1), Finish, 1);
            && ExecAll(NO_DATA, end.history, clock) == NO_DATA
            && Reloaded(end.records, clock) == OneString(key, HEADER)
  {
    var lines := [Line(Set, [key, LENGTH]), Line(Del, [key])];
    var w := AppendAll(EMPTY_FILE, lines);
    assert [] + AsRecords(lines) == AsRecords(lines) && [] + lines == lines;
    WholeOf(w.records);
    LengthIsRead(key, doClock);
    HeaderIsPlain();
    OneIsDumped(key, HEADER, clock);
    FinishReloads(Next(Next(w, Start, 1), Do(doClock), 1), 1, clock);
    assert Lines([]) == [];
    SetAndDelete(key, clock);
  }

  lemma HeaderIsPlain()
    ensures PlainBytes(HEADER)
  {
    var words := Words(Command(Line(Set, [HEADER, HEADER])));
    assert words[0] == "set" && AllShort(words);
  }

  lemma SetAndDelete(key: Bytes, clock: int)
    ensures ExecAll(NO_DATA, [Line(Set, [key, LENGTH]), Line(Del, [key])], clock) == NO_DATA
  {
    var lines := [Line(Set, [key, LENGTH]), Line(Del, [key])];
    assert lines[1..] == [lines[1]];
    var one := OneString(key, LENGTH);
    Rollback.SetRuns(EMPTY, key, LENGTH, clock);
    Rollback.DelOne(one, key, clock);
    OneRecord(one, lines[1], clock);
    PutBack(NO_DATA, key, Slot(Some(Str(LENGTH)), None));
  }

  /** What the two commands are to the parser: one message, and then a line feed where none may be. */
  lemma LengthIsRead(key: Bytes, clock: int)
    requires PlainBytes(key)
    ensures Reloaded(AsRecords([Line(Set, [key, LENGTH]), Line(Del, [key])]), clock) == OneString(key, HEADER)
  {
    var args := ToArgs(Words(Command(Line(Set, [key, HEADER]))));
    OneMessageRead(key);
    DecodeCommand(Line(Set, [key, HEADER]));
    Rollback.SetRuns(EMPTY, key, HEADER, clock);
    var p := Parser.Data(Resp.MultiBulkReply(args));
    assert [p][1..] == [];
    assert ApplyAll(Apply(NO_DATA, p, clock), [], clock) == Apply(NO_DATA, p, clock);
  }

  lemma OneMessageRead(key: Bytes)
    requires PlainBytes(key)
    ensures Parser.Parse(FileOf(AsRecords([Line(Set, [key, LENGTH]), Line(Del, [key])])), Parser.INIT)
         == [Parser.Data(Resp.MultiBulkReply(ToArgs(Words(Command(Line(Set, [key, HEADER]))))))]
  {
    var store, del := Line(Set, [key, LENGTH]), Line(Del, [key]);
    var rest := FileOf([Command(del)]);
    assert AsRecords([store, del]) == [Command(store)] + [Command(del)];
    FileAppend([Command(store)], [Command(del)]);
    OneMessage(Command(store));
    OneMessage(Command(del));
    ReadBefore(key, rest);
  }

  lemma ReadBefore(key: Bytes, rest: Bytes)
    requires PlainBytes(key) && rest == FileOf([Command(Line(Del, [key]))])
    ensures Parser.Parse(Resp.Print(Resp.MultiBulkReply(ToArgs(Words(Command(Line(Set, [key, LENGTH])))))) + rest, Parser.INIT)
         == [Parser.Data(Resp.MultiBulkReply(ToArgs(Words(Command(Line(Set, [key, HEADER]))))))]
  {
    var front := SetWords(key);
    SetMessage(key, LENGTH);
    SetMessage(key, HEADER);
    SetHarmless(key);
    LengthAnnounced();
    Service.LastArgument(front, Some(LENGTH), rest);
    DelStarts(key);
    HeaderTaken(rest, front);
  }

  const SET_NAME: Bytes := "set"

  function SetWords(key: Bytes): seq<Resp.Arg> {
    [Some(SET_NAME), Some(key)]
  }

  lemma SetMessage(key: Bytes, value: Bytes)
    ensures ToArgs(Words(Command(Line(Set, [key, value])))) == SetWords(key) + [Some(value)]
  {
  }

  lemma LengthAnnounced()
    ensures RoundTrip.Fits(Some(LENGTH)) && RoundTrip.StartsWithDollar(Some(LENGTH))
    ensures Service.Announced(Some(LENGTH)) == Some(5)
  {
  }

  lemma SetHarmless(key: Bytes)
    requires PlainBytes(key)
    ensures var front := SetWords(key);
            Service.AllHarmless(front) && RoundTrip.AllFit(front) && Service.TakenAll(front) == front
  {
    var front := SetWords(key);
    var args := ToArgs(Words(Command(Line(Set, [key, key]))));
    assert args[1] == front[1] && args[0] == front[0];
    var none: seq<Resp.Arg> := [];
    assert front[1..] == [Some(key)] && front[1..][1..] == none;
    assert Service.TakenAll(front[1..]) == [Service.Taken(Some(key))] + Service.TakenAll(none);
    assert !Service.Negative(front[0]) && !Service.Negative(front[1]);
  }

  const TAKEN: Bytes := "*2\r\n$3\r"

  lemma DelStarts(key: Bytes)
    ensures var rest := FileOf([Command(Line(Del, [key]))]);
            |rest| > 7 && rest[..7] == TAKEN && rest[7] == '\n'
  {
    var args := ToArgs(Words(Command(Line(Del, [key]))));
    OneMessage(Command(Line(Del, [key])));
    var name: Bytes := "del";
    assert args[0] == Some(name) && |args| == 2;
    assert Resp.PrintArgs(args) == Resp.PrintArg(args[0]) + Resp.PrintArgs(args[1..]);
    assert FormatNat(2) == "2" && FormatNat(3) == "3";
    assert Resp.PrintArg(args[0]) == "$3\r\ndel\r\n";
  }

  lemma HeaderTaken(rest: Bytes, front: seq<Resp.Arg>)
    requires |rest| > 7 && rest[..7] == TAKEN && rest[7] == '\n' && |front| == 2
    ensures Parser.Parse(rest, Parser.ReadState(true, 3, true, front, 5))
         == [Parser.Data(Resp.MultiBulkReply(front + [Some(HEADER)]))]
  {
    assert TAKEN[..5] == HEADER;
    var left := rest[7..];
    assert left[0] == '\n';
    assert Parser.Step(left, Parser.INIT) == Parser.Stop([]);
  }
}
