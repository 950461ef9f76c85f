/** The options of SET, as a caller means them: what every accepted list of words does, and which lists are refused. */
module SetOptions {
  import opened Strconv
  import opened Commands
  import opened Slots
  import opened Engine

  /** The word in upper or lower case, letter by letter. */
  predicate IsWord(w: Bytes, name: Bytes) {
    |w| == |name| && forall i :: 0 <= i < |w| ==> w[i] == name[i] || (w[i] as int == name[i] as int + 32)
  }

  predicate Letters(name: Bytes) {
    forall i :: 0 <= i < |name| ==> 'A' <= name[i] <= 'Z'
  }

  lemma WordIsUpper(w: Bytes, name: Bytes)
    requires Letters(name)
    ensures IsWord(w, name) <==> Upper(w) == name
  {
    var u := Upper(w);
    if IsWord(w, name) {
      assert u == name;
    } else if u == name {
      forall i | 0 <= i < |w| ensures w[i] == name[i] || (w[i] as int == name[i] as int + 32) { assert u[i] == name[i]; }
    }
  }

  datatype Wish = IfNew | IfThere | Seconds(n: int) | Millis(n: int)

  const NX: Bytes := "NX"
  const XX: Bytes := "XX"
  const EX: Bytes := "EX"
  const PX: Bytes := "PX"

  /** The words say these options, one after the other. */
  ghost predicate Spells(words: seq<Bytes>, wishes: seq<Wish>)
    decreases |wishes|
  {
    if |wishes| == 0 then |words| == 0
    else match wishes[0]
      case IfNew => |words| > 0 && IsWord(words[0], NX) && Spells(words[1..], wishes[1..])
      case IfThere => |words| > 0 && IsWord(words[0], XX) && Spells(words[1..], wishes[1..])
      case Seconds(n) =>
        |words| > 1 && IsWord(words[0], EX) && ParseInt64(words[1]) == Some(n) && Spells(words[2..], wishes[1..])
      case Millis(n) =>
        |words| > 1 && IsWord(words[0], PX) && ParseInt64(words[1]) == Some(n) && Spells(words[2..], wishes[1..])
  }

  /** The durations asked for, in milliseconds. */
  function Durations(wishes: seq<Wish>): seq<int> {
    if |wishes| == 0 then []
    else match wishes[0]
      case Seconds(n) => [1000 * n] + Durations(wishes[1..])
      case Millis(n) => [n] + Durations(wishes[1..])
      case _ => Durations(wishes[1..])
  }

  /** Durations that are positive and that int64 nanoseconds can hold. */
  predicate Moderate(wishes: seq<Wish>) {
    forall i :: 0 <= i < |Durations(wishes)| ==> 0 < Durations(wishes)[i] <= MAX_MILLIS
  }

  /** NX next to XX, or more than one duration. */
  predicate Clash(wishes: seq<Wish>) {
    (IfNew in wishes && IfThere in wishes) || |Durations(wishes)| > 1
  }

  lemma ModerateTail(wishes: seq<Wish>)
    requires |wishes| > 0 && Moderate(wishes)
    ensures Moderate(wishes[1..])
    ensures wishes[0].Seconds? ==> 0 < 1000 * wishes[0].n <= MAX_MILLIS
    ensures wishes[0].Millis? ==> 0 < wishes[0].n <= MAX_MILLIS
  {
    var all, rest := Durations(wishes), Durations(wishes[1..]);
    if wishes[0].Seconds? || wishes[0].Millis? {
      assert all[0] == if wishes[0].Seconds? then 1000 * wishes[0].n else wishes[0].n;
      assert forall i :: 0 <= i < |rest| ==> rest[i] == all[i + 1];
    }
  }

  /** What the option loop makes of wishes, from a policy and a duration that it already has. */
  predicate Reads(r: Options, policy: Policy, ttl: int, wishes: seq<Wish>) {
    var insert, update := policy.Insert? || IfNew in wishes, policy.Update? || IfThere in wishes;
    var durations := (if ttl != 0 then [ttl] else []) + Durations(wishes);
    if (insert && update) || |durations| > 1 then r == Bad(Syntax)
    else r.Options? && (r.policy.Insert? <==> insert) && (r.policy.Update? <==> update)
         && r.ttl == if |durations| == 0 then 0 else durations[0]
  }

  /** One turn of the loop. */
  lemma Turn(args: seq<Bytes>, i: nat, policy: Policy, ttl: int)
    requires i < |args|
    ensures var r := ParseSet(args, i, policy, ttl);
            && (IsWord(args[i], NX) ==> r == if policy.Update? then Bad(Syntax) else ParseSet(args, i + 1, Insert, ttl))
            && (IsWord(args[i], XX) ==> r == if policy.Insert? then Bad(Syntax) else ParseSet(args, i + 1, Update, ttl))
  {
    NameOf(args[i]);
  }

  lemma TimedTurn(args: seq<Bytes>, i: nat, policy: Policy, ttl: int, n: int, length: int)
    requires i + 1 < |args| && ParseInt64(args[i + 1]) == Some(n) && 0 < length <= MAX_MILLIS
    requires (IsWord(args[i], EX) && length == 1000 * n) || (IsWord(args[i], PX) && length == n)
    ensures ParseSet(args, i, policy, ttl) == if ttl != 0 then Bad(Syntax) else ParseSet(args, i + 2, policy, length)
  {
    NameOf(args[i]);
  }

  lemma FirstWord(r: Options, policy: Policy, ttl: int, wishes: seq<Wish>)
    requires |wishes| > 0 && !(wishes[0].Seconds? || wishes[0].Millis?)
    requires var next := if wishes[0].IfNew? then Insert else Update;
             if policy.Upsert? || policy == next then Reads(r, next, ttl, wishes[1..]) else r == Bad(Syntax)
    ensures Reads(r, policy, ttl, wishes)
  {
    assert wishes == [wishes[0]] + wishes[1..];
    assert IfNew in wishes <==> wishes[0].IfNew? || IfNew in wishes[1..];
    assert IfThere in wishes <==> wishes[0].IfThere? || IfThere in wishes[1..];
  }

  lemma FirstDuration(r: Options, policy: Policy, ttl: int, wishes: seq<Wish>, length: int)
    requires |wishes| > 0 && length > 0
    requires (wishes[0].Seconds? && length == 1000 * wishes[0].n) || (wishes[0].Millis? && length == wishes[0].n)
    requires if ttl == 0 then Reads(r, policy, length, wishes[1..]) else r == Bad(Syntax)
    ensures Reads(r, policy, ttl, wishes)
  {
    assert wishes == [wishes[0]] + wishes[1..];
    assert IfNew in wishes <==> IfNew in wishes[1..];
    assert IfThere in wishes <==> IfThere in wishes[1..];
    assert Durations(wishes) == [length] + Durations(wishes[1..]);
    assert ttl == 0 ==> [] + Durations(wishes) == [length] + Durations(wishes[1..]);
  }

  lemma {:induction false} ParseReads(args: seq<Bytes>, i: nat, policy: Policy, ttl: int, wishes: seq<Wish>)
    requires i <= |args| && Spells(args[i..], wishes) && Moderate(wishes)
    ensures Reads(ParseSet(args, i, policy, ttl), policy, ttl, wishes)
    decreases |wishes|
  {
    if |wishes| > 0 {
      var r, rest := ParseSet(args, i, policy, ttl), wishes[1..];
      assert args[i..][0] == args[i];
      ModerateTail(wishes);
      if wishes[0].IfNew? || wishes[0].IfThere? {
        var next := if wishes[0].IfNew? then Insert else Update;
        assert args[i..][1..] == args[i + 1..];
        Turn(args, i, policy, ttl);
        ParseReads(args, i + 1, next, ttl, rest);
        FirstWord(r, policy, ttl, wishes);
      } else {
        var length := if wishes[0].Seconds? then 1000 * wishes[0].n else wishes[0].n;
        assert args[i..][1] == args[i + 1] && args[i..][2..] == args[i + 2..];
        TimedTurn(args, i, policy, ttl, wishes[0].n, length);
        ParseReads(args, i + 2, policy, length, rest);
        FirstDuration(r, policy, ttl, wishes, length);
      }
    }
  }

  lemma NameOf(w: Bytes)
    ensures IsWord(w, NX) <==> Upper(w) == NX
    ensures IsWord(w, XX) <==> Upper(w) == XX
    ensures IsWord(w, EX) <==> Upper(w) == EX
    ensures IsWord(w, PX) <==> Upper(w) == PX
  {
    WordIsUpper(w, NX);
    WordIsUpper(w, XX);
    WordIsUpper(w, EX);
    WordIsUpper(w, PX);
  }

  /**
   * SET with options that say something. When they clash it is a syntax error. Otherwise NX stores exactly when the
   * key holds nothing, XX exactly when it holds something, and no word of either kind always; nothing changes when
   * nothing is stored, and what is stored is the value, until now and the duration asked for, or without a deadline.
   */
  lemma SetDoes(db: Db, key: Bytes, value: Bytes, words: seq<Bytes>, wishes: seq<Wish>, now: int)
    requires Spells(words, wishes) && Moderate(wishes)
    ensures var s, r := At(db, key), Exec(db, Line(Set, [key, value] + words), now);
            if Clash(wishes) then r == Result(db, Failed(Syntax), [])
            else if (IfNew in wishes && s.value.Some?) || (IfThere in wishes && s.value.None?) then r == Result(db, NoValue, [])
            else
              && r.answer == Ok
              && At(r.db, key) == Slot(Some(Str(value)), if Durations(wishes) == [] then None else Some(now + Durations(wishes)[0]))
              && forall k :: k != key ==> At(r.db, k) == At(db, k)
  {
    var args := [key, value] + words;
    assert args[2..] == words;
    SetOnSlot(At(db, key), args, wishes, now);
    PutBack(db, key, EMPTY);
    assert Exec(db, Line(Set, args), now) == ExecOne(db, Line(Set, args), now);
  }

  lemma SetOnSlot(s: Slot, args: seq<Bytes>, wishes: seq<Wish>, now: int)
    requires |args| >= 2 && Spells(args[2..], wishes) && Moderate(wishes)
    ensures var r := RunSet(s, args, now);
            if Clash(wishes) then r == Nothing(s, Failed(Syntax))
            else if (IfNew in wishes && s.value.Some?) || (IfThere in wishes && s.value.None?) then r == Nothing(s, NoValue)
            else
              && r.answer == Ok
              && r.slot == Slot(Some(Str(args[1])), if Durations(wishes) == [] then None else Some(now + Durations(wishes)[0]))
  {
    ParseReads(args, 2, Upsert, 0, wishes);
    assert [] + Durations(wishes) == Durations(wishes);
  }

  lemma {:induction false} AcceptedSpells(args: seq<Bytes>, i: nat, policy: Policy, ttl: int) returns (wishes: seq<Wish>)
    requires i <= |args| && ParseSet(args, i, policy, ttl).Options?
    ensures Spells(args[i..], wishes)
    decreases |args| - i
  {
    if i == |args| {
      return [];
    }
    NameOf(args[i]);
    assert args[i..][0] == args[i];
    if IsWord(args[i], NX) {
      wishes := AcceptedSpells(args, i + 1, Insert, ttl);
      assert args[i..][1..] == args[i + 1..];
      wishes := [IfNew] + wishes;
    } else if IsWord(args[i], XX) {
      wishes := AcceptedSpells(args, i + 1, Update, ttl);
      assert args[i..][1..] == args[i + 1..];
      wishes := [IfThere] + wishes;
    } else {
      var n := ParseInt64(args[i + 1]).value;
      var seconds := IsWord(args[i], EX);
      wishes := AcceptedSpells(args, i + 2, policy, Wrap64(n * if seconds then 1000 else 1));
      assert args[i..][1] == args[i + 1] && args[i..][2..] == args[i + 2..];
      wishes := [if seconds then Seconds(n) else Millis(n)] + wishes;
    }
  }

  /** Words that say nothing are refused, and change nothing. */
  lemma SetRefuses(db: Db, key: Bytes, value: Bytes, words: seq<Bytes>, now: int)
    requires forall wishes :: !Spells(words, wishes)
    ensures var r := Exec(db, Line(Set, [key, value] + words), now);
            r.answer.Failed? && r.db == db && r.log == []
  {
    var args := [key, value] + words;
    assert args[2..] == words;
    if ParseSet(args, 2, Upsert, 0).Options? {
      var wishes := AcceptedSpells(args, 2, Upsert, 0);
      assert false;
    }
    PutBack(db, key, EMPTY);
    assert Exec(db, Line(Set, args), now) == ExecOne(db, Line(Set, args), now);
  }
}
