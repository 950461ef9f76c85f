/** Rewriting the append-only file while commands go on being appended. */
module Rewrite {
  import opened Strconv
  import opened Commands
  import opened Slots
  import opened Engine
  import opened Marshal
  import opened Undo
  import opened Rollback
  import opened RollbackCases
  import opened History
  import opened AofFile
  import Resp
  import RoundTrip
  import Parser

  /* ---- the dump of a database ---- */

  /** What ForEach writes for one key: nothing for a list, but its deadline all the same. */
  function DumpKey(key: Bytes, s: Slot): seq<Record>
    requires s.value.Some?
  {
    (match EntityToCmd(key, s.value.value)
     case None => []
     case Some(line) => [Command(line)])
    + if s.deadline.Some? then [Command(ExpireLine(key, s.deadline.value))] else []
  }

  function DumpKeys(db: Db, keys: seq<Bytes>): seq<Record>
    requires forall i :: 0 <= i < |keys| ==> keys[i] in db.data
  {
    if |keys| == 0 then [] else DumpKey(keys[0], At(db, keys[0])) + DumpKeys(db, keys[1..])
  }

  /** The keys in the order of the walk; as for hashes, the ascending order stands for any. */
  function KeyOrder(db: Db): (keys: seq<Bytes>)
    ensures forall i :: 0 <= i < |keys| ==> keys[i] in db.data
  {
    var keys := FieldOrder(db.data.Keys);
    assert forall i :: 0 <= i < |keys| ==> keys[i] in SetOf(keys);
    keys
  }

  /** The loop of DoRewrite from database i on. All commands were loaded into database 0. */
  function RewriteFrom(i: nat, databases: nat, db: Db): seq<Record>
    decreases databases - i
  {
    if i >= databases then []
    else [Select(i)] + (if i == 0 then DumpKeys(db, KeyOrder(db)) else []) + RewriteFrom(i + 1, databases, db)
  }

  /** What comes of loading the bytes of a file. */
  function Reloaded(records: seq<Record>, clock: int): Db {
    ApplyAll(NO_DATA, Parser.Parse(FileOf(records), Parser.INIT), clock)
  }

  /** The temporary server has as many databases as configured; without one it cannot load anything. */
  function Loaded(records: seq<Record>, databases: nat, clock: int): Db {
    if databases == 0 then NO_DATA else Reloaded(records, clock)
  }

  predicate AllDumpable(db: Db) {
    forall k :: k in db.data ==> Dumpable(At(db, k))
  }

  /** What a dump keeps of a slot. */
  function KeptSlot(s: Slot): Slot {
    if s.value.None? || s.value.value.List? then EMPTY else DumpedSlot(s)
  }

  predicate Distinct(keys: seq<Bytes>) {
    forall i, j :: 0 <= i < j < |keys| ==> keys[i] != keys[j]
  }

  lemma {:induction false} FieldOrderDistinct(names: set<Bytes>)
    ensures Distinct(FieldOrder(names))
    decreases |names|
  {
    if names != {} {
      var f := Least(names);
      var order, rest := FieldOrder(names), FieldOrder(names - {f});
      FieldOrderDistinct(names - {f});
      assert order == [f] + rest;
      forall i, j | 0 <= i < j < |order| ensures order[i] != order[j] {
        assert order[j] == rest[j - 1] && rest[j - 1] in SetOf(rest);
        assert i > 0 ==> order[i] == rest[i - 1];
      }
    }
  }

  /** A dumped key, executed where the key is absent. */
  lemma DumpKeyRuns(db: Db, key: Bytes, s: Slot, clock: int)
    requires At(db, key) == EMPTY && Sound(s) && s.value.Some?
    ensures ExecAll(db, Lines(DumpKey(key, s)), clock) == PutSlot(db, key, KeptSlot(s))
  {
    var deadline := if s.deadline.Some? then [Command(ExpireLine(key, s.deadline.value))] else [];
    PutBack(db, key, EMPTY);
    if IsList(s) {
      assert DumpKey(key, s) == deadline;
      if s.deadline.Some? {
        NoKeyToExpire(db, key, s.deadline.value, clock);
        OneRecord(db, ExpireLine(key, s.deadline.value), clock);
      }
    } else {
      var line, value := EntityToCmd(key, s.value.value).value, Slot(Some(Dumped(s.value.value)), None);
      DumpLine(db, key, s.value.value, clock);
      OneRecord(db, line, clock);
      if s.deadline.Some? {
        var written := PutSlot(db, key, value);
        TtlLineSets(written, key, s.deadline, clock);
        PutTwice(db, key, value, KeptSlot(s));
        OneRecord(written, ExpireLine(key, s.deadline.value), clock);
        LinesAppend([Command(line)], deadline);
        ExecAllAppend(db, Lines([Command(line)]), Lines(deadline), clock);
      } else {
        assert DumpKey(key, s) == [Command(line)];
      }
    }
  }

  lemma NoKeyToExpire(db: Db, key: Bytes, deadline: int, clock: int)
    requires At(db, key) == EMPTY
    ensures Exec(db, ExpireLine(key, deadline), clock).db == db
  {
    PutBack(db, key, EMPTY);
  }

  lemma OneRecord(db: Db, line: Commands.Line, clock: int)
    ensures Lines([Command(line)]) == [line] && ExecAll(db, [line], clock) == Exec(db, line, clock).db
  {
    assert [Command(line)][1..] == [] && [line][1..] == [];
    assert Lines([Command(line)]) == [line] + Lines([]);
    assert ExecAll(Exec(db, line, clock).db, [], clock) == Exec(db, line, clock).db;
  }

  lemma {:induction false} DumpKeysRun(x: Db, db: Db, keys: seq<Bytes>, clock: int)
    requires SoundDb(db) && forall i :: 0 <= i < |keys| ==> keys[i] in db.data && At(x, keys[i]) == EMPTY
    requires Distinct(keys)
    ensures var out := ExecAll(x, Lines(DumpKeys(db, keys)), clock);
            forall k :: At(out, k) == if k in keys then KeptSlot(At(db, k)) else At(x, k)
    decreases |keys|
  {
    if |keys| > 0 {
      var key, s := keys[0], At(db, keys[0]);
      var first, rest := DumpKey(key, s), DumpKeys(db, keys[1..]);
      DumpKeyRuns(x, key, s, clock);
      DumpKeysRun(PutSlot(x, key, KeptSlot(s)), db, keys[1..], clock);
      LinesAppend(first, rest);
      ExecAllAppend(x, Lines(first), Lines(rest), clock);
      assert keys == [key] + keys[1..];
    }
  }

  lemma {:induction false} OtherDatabases(i: nat, databases: nat, db: Db)
    requires i > 0
    ensures Lines(RewriteFrom(i, databases, db)) == []
    decreases databases - i
  {
    if i < databases {
      OtherDatabases(i + 1, databases, db);
      assert RewriteFrom(i, databases, db) == [Select(i)] + RewriteFrom(i + 1, databases, db);
    }
  }

  lemma RewriteLines(databases: nat, db: Db)
    requires databases > 0
    ensures Lines(RewriteFrom(0, databases, db)) == Lines(DumpKeys(db, KeyOrder(db)))
  {
    var dump, others := DumpKeys(db, KeyOrder(db)), RewriteFrom(1, databases, db);
    OtherDatabases(1, databases, db);
    var all := [Select(0)] + dump + others;
    assert RewriteFrom(0, databases, db) == all;
    assert all[0] == Select(0) && all[1..] == dump + others;
    LinesAppend(dump, others);
    assert Lines(dump) + [] == Lines(dump);
  }

  /** The dump, executed on nothing, gives the slots that can be dumped. */
  lemma DumpGives(databases: nat, db: Db, clock: int)
    requires databases > 0 && SoundDb(db)
    ensures var out := ExecAll(NO_DATA, Lines(RewriteFrom(0, databases, db)), clock);
            forall k :: At(out, k) == KeptSlot(At(db, k))
  {
    var keys := KeyOrder(db);
    FieldOrderDistinct(db.data.Keys);
    DumpKeysRun(NO_DATA, db, keys, clock);
    RewriteLines(databases, db);
    forall k ensures k in keys <==> k in db.data { assert k in keys <==> k in SetOf(keys); }
  }

  /** A dump rebuilds the database exactly when every value and every deadline can be dumped. */
  lemma DumpRebuilds(databases: nat, db: Db, clock: int)
    requires databases > 0 && SoundDb(db)
    ensures ExecAll(NO_DATA, Lines(RewriteFrom(0, databases, db)), clock) == db <==> AllDumpable(db)
  {
    var out := ExecAll(NO_DATA, Lines(RewriteFrom(0, databases, db)), clock);
    DumpGives(databases, db, clock);
    if AllDumpable(db) {
      forall k ensures At(out, k) == At(db, k) {
        assert Sound(At(db, k));
        if k in db.data { DumpedSlotSame(At(db, k)); }
      }
      SameSlots(out, db);
    } else {
      var k :| k in db.data && !Dumpable(At(db, k));
      if !IsList(At(db, k)) { DumpedSlotSame(At(db, k)); }
      assert At(out, k) != At(db, k);
    }
  }

  /* ---- the steps on the file ---- */

  datatype RewriteCtx = RewriteCtx(tmpFile: Bytes, fileSize: nat, dbIdx: nat)

  method Written(r: Record) returns (data: Bytes)
    ensures data == FileOf([r])
  {
    data := Resp.MultiBulkToBytes(ToArgs(Words(r)));
    OneMessage(r);
  }

  lemma OneMessage(r: Record)
    ensures FileOf([r]) == Resp.Print(Resp.MultiBulkReply(ToArgs(Words(r))))
  {
    var args := ToArgs(Words(r));
    var none: seq<seq<Resp.Arg>> := [];
    assert [r][1..] == [] && [args][1..] == none;
    assert Batch([r]) == [args] + Batch([]);
    var m := Resp.MultiBulkReply(args);
    assert RoundTrip.Messages([args]) == [m] + RoundTrip.Messages([]);
    assert [m][1..] == [];
    assert Resp.PrintAll([m]) == Resp.Print(m) + Resp.PrintAll([]);
  }

  /** What the walk writes for one key. */
  method WriteKey(key: Bytes, s: Slot) returns (data: Bytes)
    requires s.value.Some?
    ensures data == FileOf(DumpKey(key, s))
  {
    data := [];
    var cmd := EntityToCmd(key, s.value.value);
    var bytes;
    if cmd.Some? {
      bytes := Written(Command(cmd.value));
      data := data + bytes;
    }
    ghost var first := if cmd.Some? then [Command(cmd.value)] else [];
    assert data == FileOf(first);
    if s.deadline.Some? {
      var expire := Command(ExpireLine(key, s.deadline.value));
      FileAppend(first, [expire]);
      bytes := Written(expire);
      data := data + bytes;
      assert DumpKey(key, s) == first + [expire];
    } else {
      assert DumpKey(key, s) == first;
    }
  }

  /** The walk over the keys of database 0. */
  method WriteDump(db: Db) returns (data: Bytes)
    ensures data == FileOf(DumpKeys(db, KeyOrder(db)))
  {
    data := [];
    var keys := KeyOrder(db);
    var i := 0;
    while i < |keys|
      invariant i <= |keys|
      invariant data + FileOf(DumpKeys(db, keys[i..])) == FileOf(DumpKeys(db, keys))
    {
      assert keys[i..][0] == keys[i] && keys[i..][1..] == keys[i + 1..];
      var bytes := WriteKey(keys[i], At(db, keys[i]));
      FileAppend(DumpKey(keys[i], At(db, keys[i])), DumpKeys(db, keys[i + 1..]));
      Regroup(data, bytes, FileOf(DumpKeys(db, keys[i + 1..])));
      data := data + bytes;
      i := i + 1;
    }
    NoRecords(data);
  }

  lemma NoRecords(data: Bytes)
    ensures data + FileOf([]) == data
  {
    assert FileOf([]) == [];
  }

  /** One database: its Select, and for database 0 the keys. */
  method WriteDatabase(i: nat, db: Db) returns (bytes: Bytes, ghost records: seq<Record>)
    ensures bytes == FileOf(records) && records == [Select(i)] + if i == 0 then DumpKeys(db, KeyOrder(db)) else []
  {
    bytes := Written(Select(i));
    ghost var dump := if i == 0 then DumpKeys(db, KeyOrder(db)) else [];
    records := [Select(i)] + dump;
    FileAppend([Select(i)], dump);
    if i == 0 {
      var dumped := WriteDump(db);
      bytes := bytes + dumped;
    } else {
      NoRecords(bytes);
    }
  }

  /** The loop over the databases. */
  method WriteDatabases(databases: nat, db: Db) returns (data: Bytes)
    ensures data == FileOf(RewriteFrom(0, databases, db))
  {
    data := [];
    var i := 0;
    while i < databases
      invariant i <= databases
      invariant data + FileOf(RewriteFrom(i, databases, db)) == FileOf(RewriteFrom(0, databases, db))
    {
      var bytes;
      ghost var records;
      bytes, records := WriteDatabase(i, db);
      FileAppend(records, RewriteFrom(i + 1, databases, db));
      Regroup(data, bytes, FileOf(RewriteFrom(i + 1, databases, db)));
      data := data + bytes;
      i := i + 1;
    }
    NoRecords(data);
  }

  class Handler {
    var aofFile: Bytes
    var currentDB: nat

    constructor ()
      ensures aofFile == [] && currentDB == 0
    {
      aofFile, currentDB := [], 0;
    }

    /** One turn of `handleAof`. */
    method HandleAof(dbIndex: nat, line: Commands.Line)
      modifies this
      ensures currentDB == dbIndex
      ensures dbIndex == old(currentDB) ==> aofFile == old(aofFile) + FileOf([Command(line)])
      ensures dbIndex != old(currentDB) ==> aofFile == old(aofFile) + FileOf([Select(dbIndex)] + [Command(line)])
    {
      var data;
      if dbIndex != currentDB {
        data := Written(Select(dbIndex));
        aofFile := aofFile + data;
        currentDB := dbIndex;
      }
      data := Written(Command(line));
      FileAppend([Select(dbIndex)], [Command(line)]);
      Regroup(old(aofFile), FileOf([Select(dbIndex)]), data);
      aofFile := aofFile + data;
    }

    method StartRewrite() returns (ctx: RewriteCtx)
      ensures ctx == RewriteCtx([], |aofFile|, currentDB)
    {
      return RewriteCtx([], |aofFile|, currentDB);
    }

    /** A file size of 0 makes LoadAof read all that the file has by now. */
    method DoRewrite(ctx: RewriteCtx, databases: nat, clock: int) returns (ctx': RewriteCtx)
      ensures var part := if 0 < ctx.fileSize < |aofFile| then aofFile[..ctx.fileSize] else aofFile;
              var db := if databases == 0 then NO_DATA else ApplyAll(NO_DATA, Parser.Parse(part, Parser.INIT), clock);
              ctx' == ctx.(tmpFile := ctx.tmpFile + FileOf(RewriteFrom(0, databases, db)))
    {
      var db := NO_DATA;
      if databases > 0 {
        db := LoadAof(NO_DATA, aofFile, ctx.fileSize, clock);
      }
      var data := WriteDatabases(databases, db);
      return ctx.(tmpFile := ctx.tmpFile + data);
    }

    /** The rest of the file follows the dump, and the temporary file takes the place of the file. */
    method FinishRewrite(ctx: RewriteCtx)
      requires ctx.fileSize <= |aofFile|
      modifies this`aofFile
      ensures aofFile == ctx.tmpFile + FileOf([Select(ctx.dbIdx)]) + old(aofFile)[ctx.fileSize..] + FileOf([Select(currentDB)])
    {
      var data := Written(Select(ctx.dbIdx));
      var tmpFile := ctx.tmpFile + data + aofFile[ctx.fileSize..];
      data := Written(Select(currentDB));
      aofFile := tmpFile + data;
    }
  }
}
