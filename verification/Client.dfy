/** The pipelined client: senders, one writer, the server, and one reader that matches payloads to requests. */
module Client {
  import opened Strconv
  import opened Resp
  import opened Parser
  import opened RoundTrip
  import opened Service
  import opened Wire

  /** What Send gives its caller. */
  datatype Outcome = Replied(reply: Reply) | TimedOut

  /** What the executor was given, and what it answered. */
  datatype Exchange = Exchange(args: seq<Arg>, answer: Reply)

  /**
   * A request is known by its place in `sent`. The writer first writes and then, at some later moment, puts the
   * request on the waiting queue. Both directions are bytes, read by a parser at the other end; `written` and `said`
   * are the histories of the requests written and of the commands executed.
   */
  datatype State = State(
    sent: seq<seq<Arg>>,
    pending: seq<nat>,
    writing: Option<nat>,
    written: seq<nat>,
    upstream: Bytes,
    said: seq<Exchange>,
    downstream: Bytes,
    waiting: seq<nat>,
    finished: map<nat, Reply>,
    returned: map<nat, Outcome>)

  const INITIAL := State([], [], None, [], [], [], [], [], map[], map[])

  datatype Event =
    | Send(args: seq<Arg>)
    | Write                        // doRequest: take the next request and write its bytes
    | Enqueue                      // doRequest: put it on the waiting queue
    | Serve(exec: seq<Arg> -> Reply)   // handleServer: the next payload of the server's parser, and what is written for it
    | Finish                       // handleRead: the next payload of the client's parser goes to the next waiting request
    | Return(id: nat)              // Send comes back with the reply
    | TimeOut(id: nat)             // Send gives up; the request stays where it is

  ghost predicate Enabled(s: State, e: Event) {
    match e
    case Send(_) => true
    case Write => s.writing.None? && |s.pending| > 0 && s.pending[0] < |s.sent|
    case Enqueue => s.writing.Some?
    case Serve(_) => NextPayload(s.upstream, INIT).Some?
    case Finish => NextPayload(s.downstream, INIT).Some? && |s.waiting| > 0
    case Return(id) => id < |s.sent| && id !in s.returned && id in s.finished
    case TimeOut(id) => id < |s.sent| && id !in s.returned && id !in s.finished
  }

  function Executed(p: Payload, exec: seq<Arg> -> Reply): seq<Exchange> {
    if p.Data? && p.reply.MultiBulkReply? then [Exchange(p.reply.args, exec(p.reply.args))] else []
  }

  /** What handleRead hands over for a payload. */
  function Handed(p: Payload): Reply {
    match p
    case Data(reply) => reply
    case ProtocolError(line) => ErrorFor(line)
    case IoError => ErrorReply("EOF")
  }

  function Next(s: State, e: Event): State
    requires Enabled(s, e)
  {
    match e
    case Send(args) => s.(sent := s.sent + [args], pending := s.pending + [|s.sent|])
    case Write =>
      var id := s.pending[0];
      if |s.sent[id]| == 0 then s.(pending := s.pending[1..])
      else s.(pending := s.pending[1..], writing := Some(id), written := s.written + [id],
              upstream := s.upstream + Print(MultiBulkReply(s.sent[id])))
    case Enqueue => s.(writing := None, waiting := s.waiting + [s.writing.value])
    case Serve(exec) =>
      var (payload, rest) := NextPayload(s.upstream, INIT).value;
      s.(upstream := rest, downstream := s.downstream + PrintAll(AnswerTo(payload, exec)),
         said := s.said + Executed(payload, exec))
    case Finish =>
      var (payload, rest) := NextPayload(s.downstream, INIT).value;
      s.(downstream := rest, waiting := s.waiting[1..], finished := s.finished[s.waiting[0] := Handed(payload)])
    case Return(id) => s.(returned := s.returned[id := Replied(s.finished[id])])
    case TimeOut(id) => s.(returned := s.returned[id := TimedOut])
  }

  /* ---- the invariant ---- */

  /** The requests that are written and wait for nothing more. */
  function Done(s: State): int {
    |s.written| - |s.waiting| - (if s.writing.Some? then 1 else 0)
  }

  function Request(args: seq<Arg>): Payload {
    Data(MultiBulkReply(TakenAll(args)))
  }

  /** The payloads that the server has still to read for these requests. */
  function Requests(sent: seq<seq<Arg>>, ids: seq<nat>): (r: seq<Payload>)
    requires forall i :: 0 <= i < |ids| ==> ids[i] < |sent|
    ensures |r| == |ids| && forall i :: 0 <= i < |ids| ==> r[i] == Request(sent[ids[i]])
  {
    seq(|ids|, i requires 0 <= i < |ids| => Request(sent[ids[i]]))
  }

  /** The payloads that the client has still to read for these answers. */
  function Backs(said: seq<Exchange>): (r: seq<Payload>)
    ensures |r| == |said| && forall i :: 0 <= i < |said| ==> r[i] == Back(said[i].answer)
  {
    seq(|said|, i requires 0 <= i < |said| => Back(said[i].answer))
  }

  /** Every request is pending or was written or dropped, once. */
  ghost predicate Known(sent: seq<seq<Arg>>, pending: seq<nat>, written: seq<nat>) {
    var known :=
      && (forall i :: 0 <= i < |pending| ==> pending[i] < |sent|)
      && (forall i, j :: 0 <= i < j < |pending| ==> pending[i] != pending[j])
      && (forall i :: 0 <= i < |sent| ==> sent[i] == [] || Answerable(sent[i]))
      && (forall k :: 0 <= k < |written| ==> written[k] < |sent| && written[k] !in pending && sent[written[k]] != [])
      && DistinctIds(written);
    known
  }

  predicate DistinctIds(ids: seq<nat>) {
    forall i, j :: 0 <= i < j < |ids| ==> ids[i] != ids[j]
  }

  /** The writer and the queue hold the requests that are not done, in the order in which they were written. */
  ghost predicate Queued(s: State) {
    && 0 <= Done(s) <= |s.said| <= |s.written|
    && s.waiting + Holding(s) == s.written[Done(s)..]
  }

  function Holding(s: State): seq<nat> {
    if s.writing.Some? then [s.writing.value] else []
  }

  /** The bytes on the way to the server hold the requests that it has not served. */
  ghost predicate Upstream(sent: seq<seq<Arg>>, upstream: Bytes, written: seq<nat>, served: nat) {
    && served <= |written| && (forall k :: 0 <= k < |written| ==> written[k] < |sent|)
    && Carries(upstream, Requests(sent, written[served..]))
  }

  /** The bytes on the way back hold the answers that are not handed over. */
  ghost predicate Downstream(downstream: Bytes, said: seq<Exchange>, done: int) {
    0 <= done <= |said| && Carries(downstream, Backs(said[done..]))
  }

  /** The executor was given what was sent, and its answers come back as one payload. */
  ghost predicate Given(sent: seq<seq<Arg>>, written: seq<nat>, said: seq<Exchange>) {
    var given :=
      && |said| <= |written|
      && (forall k :: 0 <= k < |said| ==>
            written[k] < |sent| && said[k].args == TakenAll(sent[written[k]]) && OneBack(said[k].answer));
    given
  }

  /** The requests that are done, and no others, have what came back of their answers. */
  ghost predicate Matched(finished: map<nat, Reply>, written: seq<nat>, said: seq<Exchange>, done: int) {
    var matched :=
      && 0 <= done <= |said| <= |written|
      && (forall k :: 0 <= k < done ==> written[k] in finished && finished[written[k]] == Handed(Back(said[k].answer)))
      && (forall id :: id in finished ==> id in written[..done]);
    matched
  }

  /** A caller has the reply that its request got. */
  ghost predicate Told(finished: map<nat, Reply>, returned: map<nat, Outcome>) {
    forall id :: id in returned && returned[id].Replied? ==> id in finished && returned[id] == Replied(finished[id])
  }

  ghost predicate Inv(s: State) {
    var kept :=
      && Known(s.sent, s.pending, s.written) && Queued(s)
      && Upstream(s.sent, s.upstream, s.written, |s.said|) && Downstream(s.downstream, s.said, Done(s))
      && Given(s.sent, s.written, s.said)
      && Matched(s.finished, s.written, s.said, Done(s)) && Told(s.finished, s.returned);
    kept
  }

  /** What a sender and the executor keep to: messages that are answered once, and answers that come back as one payload. */
  ghost predicate Fair(s: State, e: Event)
    requires Enabled(s, e)
  {
    match e
    case Send(args) => args == [] || Answerable(args)
    case Serve(exec) =>
      var payload := NextPayload(s.upstream, INIT).value.0;
      payload.Data? && payload.reply.MultiBulkReply? ==> OneBack(exec(payload.reply.args))
    case _ => true
  }

  lemma InitialInv()
    ensures Inv(INITIAL)
  {
    NoBytesCarryNothing();
  }

  lemma SendKeeps(s: State, args: seq<Arg>)
    requires Inv(s) && Fair(s, Send(args))
    ensures Inv(Next(s, Send(args)))
  {
    SentIsKnown(s.sent, s.pending, s.written, args);
    SentUpstream(s.sent, s.upstream, s.written, |s.said|, args);
    SentIsGiven(s.sent, s.written, s.said, args);
  }

  lemma SentIsKnown(sent: seq<seq<Arg>>, pending: seq<nat>, written: seq<nat>, args: seq<Arg>)
    requires Known(sent, pending, written) && (args == [] || Answerable(args))
    ensures Known(sent + [args], pending + [|sent|], written)
  {
  }

  lemma SentUpstream(sent: seq<seq<Arg>>, upstream: Bytes, written: seq<nat>, served: nat, args: seq<Arg>)
    requires Upstream(sent, upstream, written, served)
    ensures Upstream(sent + [args], upstream, written, served)
  {
    assert Requests(sent + [args], written[served..]) == Requests(sent, written[served..]);
  }

  lemma SentIsGiven(sent: seq<seq<Arg>>, written: seq<nat>, said: seq<Exchange>, args: seq<Arg>)
    requires Given(sent, written, said)
    ensures Given(sent + [args], written, said)
  {
  }

  lemma WriteKeeps(s: State)
    requires Inv(s) && Enabled(s, Write)
    ensures Inv(Next(s, Write))
  {
    NextIsKnown(s.sent, s.pending, s.written);
    if s.sent[s.pending[0]] != [] {
      WrittenIsQueued(s);
      OneMoreRequest(s.sent, s.upstream, s.written, |s.said|, s.pending[0]);
      WrittenIsGiven(s.sent, s.written, s.said, s.pending[0]);
      WrittenIsMatched(s.finished, s.written, s.said, Done(s), s.pending[0]);
      Written(s, Next(s, Write), s.pending[0]);
    }
  }

  /** All parts of the invariant, put together. */
  lemma Written(s: State, t: State, id: nat)
    requires Known(s.sent, t.pending, s.written + [id]) && Queued(t) && Told(s.finished, s.returned)
    requires Upstream(s.sent, t.upstream, s.written + [id], |s.said|) && Downstream(s.downstream, s.said, Done(s))
    requires Given(s.sent, s.written + [id], s.said) && Matched(s.finished, s.written + [id], s.said, Done(s))
    requires t == s.(pending := t.pending, writing := t.writing, written := s.written + [id], upstream := t.upstream)
    requires Done(t) == Done(s)
    ensures Inv(t)
  {
  }

  lemma WrittenIsQueued(s: State)
    requires Queued(s) && Enabled(s, Write) && s.sent[s.pending[0]] != []
    ensures Queued(Next(s, Write)) && Done(Next(s, Write)) == Done(s)
  {
    assert (s.written + [s.pending[0]])[Done(s)..] == s.written[Done(s)..] + [s.pending[0]];
    NothingMore(s.waiting);
  }

  lemma WrittenIsGiven(sent: seq<seq<Arg>>, written: seq<nat>, said: seq<Exchange>, id: nat)
    requires Given(sent, written, said)
    ensures Given(sent, written + [id], said)
  {
  }

  lemma NextIsKnown(sent: seq<seq<Arg>>, pending: seq<nat>, written: seq<nat>)
    requires Known(sent, pending, written) && |pending| > 0
    ensures Known(sent, pending[1..], written) && (sent[pending[0]] == [] || Answerable(sent[pending[0]]))
    ensures sent[pending[0]] != [] ==> Known(sent, pending[1..], written + [pending[0]])
  {
    assert forall i :: 0 <= i < |pending| - 1 ==> pending[1..][i] == pending[i + 1];
    assert forall k :: k in pending[1..] ==> k in pending;
    assert pending[0] in pending;
  }

  lemma OneMoreRequest(sent: seq<seq<Arg>>, upstream: Bytes, written: seq<nat>, served: nat, id: nat)
    requires Upstream(sent, upstream, written, served) && id < |sent| && Answerable(sent[id])
    ensures Upstream(sent, upstream + Print(MultiBulkReply(sent[id])), written + [id], served)
  {
    var ids := written[served..];
    assert (written + [id])[served..] == ids + [id];
    MessageCarried(sent[id]);
    Join(upstream, Requests(sent, ids), Print(MultiBulkReply(sent[id])), [Request(sent[id])]);
    assert Requests(sent, ids + [id]) == Requests(sent, ids) + [Request(sent[id])];
  }

  lemma WrittenIsMatched(finished: map<nat, Reply>, written: seq<nat>, said: seq<Exchange>, done: int, id: nat)
    requires Matched(finished, written, said, done)
    ensures Matched(finished, written + [id], said, done)
  {
    assert (written + [id])[..done] == written[..done];
  }

  lemma EnqueueKeeps(s: State)
    requires Inv(s) && Enabled(s, Enqueue)
    ensures Inv(Next(s, Enqueue))
  {
    NothingMore(s.waiting + [s.writing.value]);
  }

  lemma ServeKeeps(s: State, exec: seq<Arg> -> Reply)
    requires Inv(s) && Enabled(s, Serve(exec)) && Fair(s, Serve(exec))
    ensures Inv(Next(s, Serve(exec)))
  {
    ServedNext(s.sent, s.upstream, s.written, |s.said|);
    var args := s.sent[s.written[|s.said|]];
    var x := Exchange(TakenAll(args), exec(TakenAll(args)));
    OneAnswer(x.answer);
    OneMoreBack(s.downstream, s.said, Done(s), x);
    OneMoreGiven(s.sent, s.written, s.said, x);
    OneMoreSaid(s.finished, s.written, s.said, Done(s), x);
    Served(s, Next(s, Serve(exec)), x);
  }

  lemma Served(s: State, t: State, x: Exchange)
    requires Known(s.sent, s.pending, s.written) && Queued(s) && |s.said| < |s.written| && Told(s.finished, s.returned)
    requires Upstream(s.sent, t.upstream, s.written, |s.said| + 1) && Downstream(t.downstream, s.said + [x], Done(s))
    requires Given(s.sent, s.written, s.said + [x]) && Matched(s.finished, s.written, s.said + [x], Done(s))
    requires t == s.(upstream := t.upstream, downstream := t.downstream, said := s.said + [x])
    ensures Inv(t)
  {
  }

  /** What the server reads next is the first request that it has not served. */
  lemma ServedNext(sent: seq<seq<Arg>>, upstream: Bytes, written: seq<nat>, served: nat)
    requires Upstream(sent, upstream, written, served) && NextPayload(upstream, INIT).Some?
    ensures served < |written|
    ensures var next := NextPayload(upstream, INIT).value;
            next.0 == Request(sent[written[served]]) && Upstream(sent, next.1, written, served + 1)
  {
    var ids := written[served..];
    if ids == [] { TakeNone(upstream); }
    TakeFirst(upstream, Requests(sent, ids));
    assert ids[1..] == written[served + 1..];
    assert Requests(sent, ids)[1..] == Requests(sent, ids[1..]);
  }

  lemma OneAnswer(answer: Reply)
    requires OneBack(answer)
    ensures PrintAll([answer]) == Print(answer) && Carries(Print(answer), [Back(answer)])
  {
    ReplyCarried(answer);
    OnlyReply(answer);
  }

  lemma OneMoreBack(downstream: Bytes, said: seq<Exchange>, done: int, x: Exchange)
    requires Downstream(downstream, said, done) && Carries(Print(x.answer), [Back(x.answer)])
    ensures Downstream(downstream + Print(x.answer), said + [x], done)
  {
    var out := said[done..];
    assert (said + [x])[done..] == out + [x];
    Join(downstream, Backs(out), Print(x.answer), [Back(x.answer)]);
    assert Backs(out + [x]) == Backs(out) + [Back(x.answer)];
  }

  lemma OneMoreGiven(sent: seq<seq<Arg>>, written: seq<nat>, said: seq<Exchange>, x: Exchange)
    requires Given(sent, written, said) && |said| < |written| && written[|said|] < |sent|
    requires x.args == TakenAll(sent[written[|said|]]) && OneBack(x.answer)
    ensures Given(sent, written, said + [x])
  {
  }

  lemma OneMoreSaid(finished: map<nat, Reply>, written: seq<nat>, said: seq<Exchange>, done: int, x: Exchange)
    requires Matched(finished, written, said, done) && |said| < |written|
    ensures Matched(finished, written, said + [x], done)
  {
    forall k | 0 <= k < done ensures (said + [x])[k] == said[k] { }
  }

  lemma FirstWaits(waiting: seq<nat>, rest: seq<nat>, order: seq<nat>, done: nat)
    requires done <= |order| && waiting + rest == order[done..] && |waiting| > 0
    ensures done < |order| && waiting[0] == order[done] && waiting[1..] + rest == order[done + 1..]
  {
    assert (waiting + rest)[0] == waiting[0];
    assert (waiting + rest)[1..] == waiting[1..] + rest;
  }

  lemma FinishKeeps(s: State)
    requires Inv(s) && Enabled(s, Finish)
    ensures Inv(Next(s, Finish))
  {
    ReadNext(s.downstream, s.said, Done(s));
    FirstWaits(s.waiting, Holding(s), s.written, Done(s));
    OneMoreDone(s.finished, s.written, s.said, Done(s));
    NotTold(s.finished, s.returned, s.written, s.said, Done(s), Handed(Back(s.said[Done(s)].answer)));
    Completed(s, Next(s, Finish), Done(s) + 1);
  }

  lemma Completed(s: State, t: State, done: int)
    requires Known(s.sent, s.pending, s.written) && Given(s.sent, s.written, s.said)
    requires 0 <= done <= |s.said| <= |s.written| && t.waiting + Holding(t) == s.written[done..]
    requires Upstream(s.sent, s.upstream, s.written, |s.said|) && Downstream(t.downstream, s.said, done)
    requires Matched(t.finished, s.written, s.said, done) && Told(t.finished, s.returned)
    requires t == s.(downstream := t.downstream, waiting := t.waiting, finished := t.finished) && Done(t) == done
    ensures Inv(t)
  {
  }

  /** What the client reads next is what came back of the first answer that it has not handed over. */
  lemma ReadNext(downstream: Bytes, said: seq<Exchange>, done: int)
    requires Downstream(downstream, said, done) && NextPayload(downstream, INIT).Some?
    ensures done < |said|
    ensures var next := NextPayload(downstream, INIT).value;
            next.0 == Back(said[done].answer) && Downstream(next.1, said, done + 1)
  {
    var out := said[done..];
    if out == [] { TakeNone(downstream); }
    TakeFirst(downstream, Backs(out));
    assert out[1..] == said[done + 1..];
    assert Backs(out)[1..] == Backs(out[1..]);
  }

  lemma OneMoreDone(finished: map<nat, Reply>, written: seq<nat>, said: seq<Exchange>, done: int)
    requires Matched(finished, written, said, done) && done < |said|
    requires DistinctIds(written)
    ensures Matched(finished[written[done] := Handed(Back(said[done].answer))], written, said, done + 1)
  {
    assert written[..done + 1] == written[..done] + [written[done]];
    forall k | 0 <= k < done ensures written[k] != written[done] { }
  }

  /** The request that gets its reply now has not returned with one. */
  lemma NotTold(finished: map<nat, Reply>, returned: map<nat, Outcome>, written: seq<nat>, said: seq<Exchange>, done: int, reply: Reply)
    requires Matched(finished, written, said, done) && Told(finished, returned) && done < |said|
    requires DistinctIds(written)
    ensures Told(finished[written[done] := reply], returned)
  {
    forall id | id in returned && returned[id].Replied? ensures id != written[done] {
      assert id in written[..done];
    }
  }

  lemma CallerKeeps(s: State, e: Event)
    requires Inv(s) && Enabled(s, e) && (e.Return? || e.TimeOut?)
    ensures Inv(Next(s, e))
  {
    OneMoreTold(s.finished, s.returned, e.id);
    Called(s, Next(s, e));
  }

  lemma Called(s: State, t: State)
    requires Inv(s) && t == s.(returned := t.returned) && Told(s.finished, t.returned)
    ensures Inv(t)
  {
    assert Queued(t);
  }

  lemma OneMoreTold(finished: map<nat, Reply>, returned: map<nat, Outcome>, id: nat)
    requires Told(finished, returned)
    ensures Told(finished, returned[id := TimedOut])
    ensures id in finished ==> Told(finished, returned[id := Replied(finished[id])])
  {
  }

  lemma StepKeepsInv(s: State, e: Event)
    requires Inv(s) && Enabled(s, e) && Fair(s, e)
    ensures Inv(Next(s, e))
  {
    match e {
      case Send(args) => SendKeeps(s, args);
      case Write => WriteKeeps(s);
      case Enqueue => EnqueueKeeps(s);
      case Serve(exec) => ServeKeeps(s, exec);
      case Finish => FinishKeeps(s);
      case Return(_) => CallerKeeps(s, e);
      case TimeOut(_) => CallerKeeps(s, e);
    }
  }

  ghost predicate Run(s: State, events: seq<Event>)
    decreases |events|
  {
    |events| == 0 ||
    (Enabled(s, events[0]) && Fair(s, events[0]) && Run(Next(s, events[0]), events[1..]))
  }

  ghost function End(s: State, events: seq<Event>): State
    requires Run(s, events)
    decreases |events|
  {
    if |events| == 0 then s else End(Next(s, events[0]), events[1..])
  }

  lemma {:induction false} RunKeepsInv(s: State, events: seq<Event>)
    requires Inv(s) && Run(s, events)
    ensures Inv(End(s, events))
    decreases |events|
  {
    if |events| > 0 {
      StepKeepsInv(s, events[0]);
      RunKeepsInv(Next(s, events[0]), events[1..]);
    }
  }

  /** The k-th command executed was the request, and this is what came back of its answer. */
  predicate AnsweredAt(s: State, id: nat, reply: Reply, k: nat) {
    && k < |s.said| && k < |s.written| && s.written[k] == id < |s.sent|
    && s.said[k].args == TakenAll(s.sent[id])
    && reply == Handed(Back(s.said[k].answer))
    && (reply == Decoded(s.said[k].answer) <==> OnTheWire(s.said[k].answer))
  }

  /**
   * In every interleaving, with any number of requests that have timed out in between, the reply that a caller gets
   * is what came back of the answer to the caller's own message, and it is that answer exactly when the answer is fit
   * for the wire; a request without arguments gets none.
   */
  lemma RepliesMatch(events: seq<Event>, id: nat)
    requires Run(INITIAL, events)
    ensures var s := End(INITIAL, events);
            id in s.returned && s.returned[id].Replied? ==>
              id < |s.sent| && s.sent[id] != [] && exists k :: AnsweredAt(s, id, s.returned[id].reply, k)
  {
    InitialInv();
    RunKeepsInv(INITIAL, events);
    var s := End(INITIAL, events);
    if id in s.returned && s.returned[id].Replied? {
      assert id in s.written[..Done(s)];
      var k :| 0 <= k < Done(s) && s.written[k] == id;
      HandedIsSame(s.said[k].answer);
      assert AnsweredAt(s, id, s.returned[id].reply, k);
    }
  }

  lemma HandedIsSame(answer: Reply)
    requires OneBack(answer)
    ensures Handed(Back(answer)) == Decoded(answer) <==> OnTheWire(answer)
  {
    BackIsSame(answer);
  }

  /* ---- replies that come back as two payloads ---- */

  /** A message has been sent, another one behind it; both are written and wait for their replies. */
  predicate BothWritten(s: State, first: seq<Arg>, second: seq<Arg>) {
    && s.sent == [first, second] && first != []
    && s.upstream == Print(MultiBulkReply(first)) + Print(MultiBulkReply(second)) && s.downstream == []
    && s.written == s.waiting == [0, 1] && s.writing.None?
    && s.returned == map[] && s.finished == map[]
  }

  /** The second caller gets the second payload, whatever there is behind it. */
  lemma SecondGetsSecond(s: State, p: Payload, q: Payload)
    requires Carries(s.downstream, [p, q]) && s.waiting == [0, 1] && |s.sent| == 2 && s.returned == map[]
    ensures Enabled(s, Finish) && Enabled(Next(s, Finish), Finish)
    ensures var t := Next(Next(s, Finish), Finish);
            Enabled(t, Return(1)) && Next(t, Return(1)).returned == map[1 := Replied(Handed(q))]
  {
    TakeFirst(s.downstream, [p, q]);
    assert [p, q][1..] == [q];
    var one := Next(s, Finish);
    TakeFirst(one.downstream, [q]);
    assert one.waiting == [1];
  }

  lemma FirstServed(s: State, first: seq<Arg>, second: seq<Arg>, ps: seq<Payload>, exec: seq<Arg> -> Reply)
    requires BothWritten(s, first, second) && |ps| > 0 && Carries(Print(MultiBulkReply(first)), ps)
    ensures Enabled(s, Serve(exec))
    ensures var t := Next(s, Serve(exec));
            t.downstream == PrintAll(AnswerTo(ps[0], exec)) && t == s.(upstream := t.upstream, downstream := t.downstream, said := t.said)
  {
    TakeFirst(Print(MultiBulkReply(first)), ps);
    TakesLonger(Print(MultiBulkReply(first)), Print(MultiBulkReply(second)), INIT);
  }

  /**
   * The message ["$3", "abc"] makes a protocol error, and the reply to that quotes a line with its CRLF: the caller of
   * the next message gets the command line "a", a piece of the first one, whatever the executor says.
   */
  lemma ExtraReplyShifts(s: State, second: seq<Arg>, exec: seq<Arg> -> Reply)
    requires BothWritten(s, [LENGTH_LIKE, NEXT], second)
    ensures Enabled(s, Serve(exec)) && Enabled(Next(s, Serve(exec)), Finish)
    ensures var t := Next(Next(s, Serve(exec)), Finish);
            && Enabled(t, Finish) && Enabled(Next(t, Finish), Return(1))
            && Next(Next(t, Finish), Return(1)).returned == map[1 := Replied(MultiBulkReply([PIECE_OF_CUT]))]
  {
    var ps := [ProtocolError(CUT), Data(MultiBulkReply([PIECE]))];
    forall rest: Bytes ensures CarriesBefore(Print(MultiBulkReply([LENGTH_LIKE, NEXT])), ps, rest) { TwoMessages(rest); }
    FirstServed(s, [LENGTH_LIKE, NEXT], second, ps, exec);
    OnlyReply(ErrorFor(CUT));
    CutErrorTwice();
    var p, q := Data(ErrorReply(CUT_TEXT)), Data(MultiBulkReply([PIECE_OF_CUT]));
    SecondGetsSecond(Next(s, Serve(exec)), p, q);
  }

  lemma OnlyReply(r: Reply)
    ensures PrintAll([r]) == Print(r)
  {
    assert [r][1..] == [];
    NothingMore(Print(r));
  }

  /** An answer that comes back as two payloads: the caller of the next message gets the second one. */
  lemma TwoBackShifts(s: State, first: seq<Arg>, second: seq<Arg>, exec: seq<Arg> -> Reply, p: Payload, q: Payload)
    requires BothWritten(s, first, second) && Answerable(first) && Carries(Print(exec(TakenAll(first))), [p, q])
    ensures Enabled(s, Serve(exec)) && Enabled(Next(s, Serve(exec)), Finish)
    ensures var t := Next(Next(s, Serve(exec)), Finish);
            && Enabled(t, Finish) && Enabled(Next(t, Finish), Return(1))
            && Next(Next(t, Finish), Return(1)).returned == map[1 := Replied(Handed(q))]
  {
    MessageCarried(first);
    FirstServed(s, first, second, [Request(first)], exec);
    OnlyReply(exec(TakenAll(first)));
    SecondGetsSecond(Next(s, Serve(exec)), p, q);
  }

  /**
   * A message that is answered once, without any dollar sign: the name of an unknown command is quoted in the error,
   * and with a line feed in it the caller of the next message gets what stands behind the line feed.
   */
  lemma LineFeedShifts(s: State, a: Bytes, b: Bytes, name: Bytes, second: seq<Arg>, exec: seq<Arg> -> Reply)
    requires a != [] && '\n' !in a && a[|a| - 1] != '\r' && a[0] != '$' && '\n' !in b && ' ' !in b
    requires b != [] ==> b[0] !in ['+', '-', ':', '*', '$']
    requires name == a + ['\n'] + b && Fits(Some(name))
    requires BothWritten(s, [Some(name)], second) && exec([Some(name)]) == UnknownCommand(name)
    ensures Answerable([Some(name)])
    ensures Enabled(s, Serve(exec)) && Enabled(Next(s, Serve(exec)), Finish)
    ensures var t := Next(Next(s, Serve(exec)), Finish);
            && Enabled(t, Finish) && Enabled(Next(t, Finish), Return(1))
            && Next(Next(t, Finish), Return(1)).returned == map[1 := Replied(MultiBulkReply([Some(b + ['\''])]))]
  {
    assert name[0] == a[0];
    NameTaken(name);
    UnknownTwice(a, b);
    var p, q := ProtocolError(['-'] + (UNKNOWN + a) + ['\n']), Data(MultiBulkReply([Some(b + ['\''])]));
    TwoBackShifts(s, [Some(name)], second, exec, p, q);
  }

  lemma UnknownTwice(a: Bytes, b: Bytes)
    requires a != [] && '\n' !in a && a[|a| - 1] != '\r' && '\n' !in b && ' ' !in b
    requires b != [] ==> b[0] !in ['+', '-', ':', '*', '$']
    ensures Carries(Print(UnknownCommand(a + ['\n'] + b)),
                    [ProtocolError(['-'] + (UNKNOWN + a) + ['\n']), Data(MultiBulkReply([Some(b + ['\''])]))])
  {
    var name, text := a + ['\n'] + b, UNKNOWN + a;
    assert UNKNOWN + name + ['\''] == text + ['\n'] + (b + ['\'']);
    assert text[|text| - 1] == a[|a| - 1];
    LineFeedTwice(text, b + ['\'']);
  }

  lemma NameTaken(name: Bytes)
    requires name != [] && name[0] != '$'
    ensures TakenAll([Some(name)]) == [Some(name)]
  {
    assert [Some(name)][1..] == [];
  }

  /* ---- the wire ---- */

  /** The replies as the reader's parser gives them. */
  function Arrivals(replies: seq<Reply>): seq<Payload>
    requires forall i :: 0 <= i < |replies| ==> OnTheWire(replies[i])
  {
    if |replies| == 0 then [IoError] else [Data(Decoded(replies[0]))] + Arrivals(replies[1..])
  }

  lemma {:induction false} RepliesArrive(replies: seq<Reply>)
    requires forall i :: 0 <= i < |replies| ==> OnTheWire(replies[i])
    requires forall i :: 0 <= i < |replies| ==>
      (replies[i].BulkReply? ==> Fits(replies[i].arg)) && (replies[i].MultiBulkReply? ==> AllFit(replies[i].args))
    ensures Parse(PrintAll(replies), INIT) == Arrivals(replies)
  {
    if |replies| > 0 {
      ReplyRoundTrip(replies[0], PrintAll(replies[1..]));
      RepliesArrive(replies[1..]);
    }
  }

  /** One payload for each message, in order: so the server sees the requests and the reader the replies one by one. */
  lemma WireKeepsCount(requests: seq<seq<Arg>>, replies: seq<Reply>)
    requires |replies| == |requests| && forall i :: 0 <= i < |requests| ==> AllFit(requests[i]) && Readable(requests[i])
    requires forall i :: 0 <= i < |replies| ==> OnTheWire(replies[i])
    requires forall i :: 0 <= i < |replies| ==>
      (replies[i].BulkReply? ==> Fits(replies[i].arg)) && (replies[i].MultiBulkReply? ==> AllFit(replies[i].args))
    ensures |Parse(PrintAll(Messages(requests)), INIT)| == |requests| + 1 == |Parse(PrintAll(replies), INIT)|
    ensures forall k :: 0 <= k < |requests| ==>
      && Parse(PrintAll(Messages(requests)), INIT)[k] == Data(MultiBulkReply(ReceivedAll(requests[k])))
      && Parse(PrintAll(replies), INIT)[k] == Data(Decoded(replies[k]))
  {
    StreamRoundTrip(requests);
    RepliesArrive(replies);
    DeliveredAt(requests);
    ArrivalsAt(replies);
  }

  lemma {:induction false} DeliveredAt(requests: seq<seq<Arg>>)
    ensures |Delivered(requests)| == |requests| + 1
    ensures forall k :: 0 <= k < |requests| ==> Delivered(requests)[k] == Data(MultiBulkReply(ReceivedAll(requests[k])))
  {
    if |requests| > 0 {
      DeliveredAt(requests[1..]);
      forall k | 0 <= k < |requests| ensures Delivered(requests)[k] == Data(MultiBulkReply(ReceivedAll(requests[k]))) {
        if k > 0 { assert Delivered(requests)[k] == Delivered(requests[1..])[k - 1] && requests[k] == requests[1..][k - 1]; }
      }
    }
  }

  lemma {:induction false} ArrivalsAt(replies: seq<Reply>)
    requires forall i :: 0 <= i < |replies| ==> OnTheWire(replies[i])
    ensures |Arrivals(replies)| == |replies| + 1
    ensures forall k :: 0 <= k < |replies| ==> Arrivals(replies)[k] == Data(Decoded(replies[k]))
  {
    if |replies| > 0 {
      ArrivalsAt(replies[1..]);
      forall k | 0 <= k < |replies| ensures Arrivals(replies)[k] == Data(Decoded(replies[k])) {
        if k > 0 { assert Arrivals(replies)[k] == Arrivals(replies[1..])[k - 1] && replies[k] == replies[1..][k - 1]; }
      }
    }
  }
}
