/** Inline commands: the words of a line are what stands between its spaces, in their order. */
module InlineWords {
  import opened Strconv
  import opened Resp
  import opened Parser
  import opened RoundTrip

  predicate Spaceless(words: seq<Bytes>) {
    forall i :: 0 <= i < |words| ==> ' ' !in words[i]
  }

  /** The words with one space between each and the next. */
  function Joined(words: seq<Bytes>): Bytes
    requires |words| > 0
  {
    if |words| == 1 then words[0] else words[0] + [' '] + Joined(words[1..])
  }

  /** No word holds a space, and the words joined by single spaces are the line. */
  lemma {:induction false} SplitThenJoin(s: Bytes)
    ensures |SplitSpaces(s)| > 0 && Spaceless(SplitSpaces(s)) && Joined(SplitSpaces(s)) == s
    decreases |s|
  {
    if ' ' in s {
      var i := FirstSpace(s);
      FirstIsFirst(s);
      SplitThenJoin(s[i + 1..]);
      var words := SplitSpaces(s);
      assert words[0] == s[..i] && words[1..] == SplitSpaces(s[i + 1..]);
      CutAt(s, i);
    }
  }

  lemma CutAt(s: Bytes, i: nat)
    requires i < |s|
    ensures s == s[..i] + [s[i]] + s[i + 1..]
  {
  }

  lemma {:induction false} FirstIsFirst(s: Bytes)
    requires ' ' in s
    ensures ' ' !in s[..FirstSpace(s)]
    decreases |s|
  {
    if s[0] != ' ' {
      FirstIsFirst(s[1..]);
      assert s[..FirstSpace(s)] == [s[0]] + s[1..][..FirstSpace(s[1..])];
    }
  }

  /** Words without spaces come back from their line. */
  lemma {:induction false} JoinThenSplit(words: seq<Bytes>)
    requires |words| > 0 && Spaceless(words)
    ensures SplitSpaces(Joined(words)) == words
    decreases |words|
  {
    if |words| == 1 {
      assert words == [words[0]];
    } else {
      JoinThenSplit(words[1..]);
      FirstWord(words[0], Joined(words[1..]));
      assert words == [words[0]] + words[1..];
    }
  }

  lemma FirstWord(word: Bytes, rest: Bytes)
    requires ' ' !in word
    ensures SplitSpaces(word + [' '] + rest) == [word] + SplitSpaces(rest)
  {
    var s := word + [' '] + rest;
    FirstAt(s, word, rest);
    assert s[..|word|] == word && s[|word| + 1..] == rest;
  }

  lemma {:induction false} FirstAt(s: Bytes, word: Bytes, rest: Bytes)
    requires s == word + [' '] + rest && ' ' !in word
    ensures ' ' in s && FirstSpace(s) == |word|
    decreases |word|
  {
    assert s[|word|] == ' ';
    if |word| > 0 {
      assert s[0] == word[0] && s[1..] == word[1..] + [' '] + rest;
      FirstAt(s[1..], word[1..], rest);
    }
  }

  function AsArgs(words: seq<Bytes>): (args: seq<Arg>)
    ensures |args| == |words| && forall i :: 0 <= i < |words| ==> args[i] == Some(words[i])
  {
    seq(|words|, i requires 0 <= i < |words| => Some(words[i]))
  }

  /** The line does not start like a reply. */
  predicate PlainStart(line: Bytes) {
    |line| > 0 ==> line[0] !in ['+', '-', ':', '*', '$']
  }

  /** A line of words joined by single spaces is the message of exactly those words, whatever follows it. */
  lemma WordsParse(words: seq<Bytes>, rest: Bytes)
    requires |words| > 0 && Spaceless(words) && '\n' !in Joined(words) && PlainStart(Joined(words))
    ensures Parse(Joined(words) + CRLF + rest, INIT) == [Data(MultiBulkReply(AsArgs(words)))] + Parse(rest, INIT)
  {
    JoinThenSplit(words);
    LineParses(Joined(words), rest);
    PlainLine(Joined(words));
  }

  lemma LineParses(line: Bytes, rest: Bytes)
    requires '\n' !in line
    ensures |line + CRLF| >= 2
    ensures var (p, next) := FeedFirst(line + CRLF);
            Parse(line + CRLF + rest, INIT) == Emit(p) + Parse(rest, next)
  {
    ReadLineExact(line, rest);
  }

  lemma PlainLine(line: Bytes)
    requires PlainStart(line)
    ensures |line + CRLF| >= 2
    ensures FeedFirst(line + CRLF) == (Some(Data(MultiBulkReply(AsArgs(SplitSpaces(line))))), INIT)
  {
    var msg := line + CRLF;
    assert line == [] ==> msg[0] == '\r';
    assert line != [] ==> msg[0] == line[0];
    assert msg[..|msg| - 2] == line;
  }

  /** Every line that starts like no reply is the message of the words between its spaces; and no other line is. */
  lemma LineIsWords(line: Bytes)
    requires '\n' !in line
    ensures Parse(line + CRLF, INIT) == [Data(MultiBulkReply(AsArgs(SplitSpaces(line)))), IoError] <==> PlainStart(line)
  {
    var none: Bytes := [];
    var (p, next) := FeedFirst(line + CRLF);
    NothingMore(line + CRLF);
    LineParses(line, none);
    if PlainStart(line) { PlainLine(line); } else { OtherLine(line); }
    assert Parse(none, INIT) == [IoError];
    SentAlone(p, next, Data(MultiBulkReply(AsArgs(SplitSpaces(line)))));
  }

  lemma SentAlone(p: Option<Payload>, next: ReadState, d: Payload)
    requires p.None? ==> Parse([], next) == [IoError]
    requires p.Some? ==> next == INIT && Parse([], INIT) == [IoError]
    ensures Emit(p) + Parse([], next) == [d, IoError] <==> p == Some(d)
  {
    var sent := Emit(p) + Parse([], next);
    assert p.Some? ==> sent == [p.value, IoError];
    assert p.None? ==> |sent| == 1;
  }

  lemma OtherLine(line: Bytes)
    requires !PlainStart(line)
    ensures |line + CRLF| >= 2
    ensures var (p, next) := FeedFirst(line + CRLF);
            && (p.Some? ==> next == INIT && !(p.value.Data? && p.value.reply.MultiBulkReply?))
            && (p.None? ==> Parse([], next) == [IoError])
  {
    assert (line + CRLF)[0] == line[0];
  }

  /** The words of a command line reach the executor in their order: its name first. */
  lemma NameFirst(name: Bytes, args: seq<Bytes>, rest: Bytes)
    requires name != [] && PlainStart(name) && Spaceless([name] + args) && '\n' !in Joined([name] + args)
    ensures Parse(Joined([name] + args) + CRLF + rest, INIT)
         == [Data(MultiBulkReply([Some(name)] + AsArgs(args)))] + Parse(rest, INIT)
  {
    var words := [name] + args;
    JoinedStarts(name, args);
    WordsParse(words, rest);
    assert AsArgs(words) == [Some(name)] + AsArgs(args);
  }

  lemma JoinedStarts(name: Bytes, args: seq<Bytes>)
    requires name != []
    ensures var line := Joined([name] + args);
            |line| > 0 && line[0] == name[0]
  {
    var words := [name] + args;
    assert words[0] == name;
  }
}
