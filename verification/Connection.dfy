/** One connection of the daemon: the handshake, then requests answered one at a
    time until the peer leaves, errs, falls silent, or cannot be written to. The
    log of the whole run is proved equal to a function of what arrives, and the
    guarantees are stated about that log, at every moment of it. */
module Connection {
  import opened Basics
  import opened Framing
  import opened Handshake

  /** The product: `validate` gives the message of a refusal; `dispatch` is told
      how many commands ran before this one, and gives nothing when the command
      exceeds its time. */
  datatype App<!Cmd, !Reply> = App(
    validate: Cmd -> Option<string>,
    dispatch: (nat, Cmd) -> Option<Payload<Reply>>)

  function Dispatch<Cmd, Reply>(app: App<Cmd, Reply>, ran: nat, cmd: Cmd): Payload<Reply> {
    match app.dispatch(ran, cmd)
    case Some(payload) => payload
    case None => Failure(ErrorBody(CommandTimeout, Text("comando excedeu o tempo limite"), true))
  }

  function InvalidParamsReply<Reply>(message: string): Payload<Reply> {
    Failure(ErrorBody(InvalidParams, Text(message), false))
  }

  // The log of a run.

  function Handled<Cmd, Reply>(app: App<Cmd, Reply>, ran: nat, id: u64, cmd: Cmd, sent: bool): seq<Event<Cmd, Reply>> {
    match app.validate(cmd)
    case Some(message) => [Validated(cmd), SendEvent(sent, Response(id, InvalidParamsReply(message)))]
    case None => [Validated(cmd), Dispatched(cmd), SendEvent(sent, Response(id, Dispatch(app, ran, cmd)))]
  }

  function RanAfter<Cmd, Reply>(app: App<Cmd, Reply>, ran: nat, cmd: Cmd): nat {
    if app.validate(cmd).None? then ran + 1 else ran
  }

  predicate IsRequest<Cmd, Reply>(waited: Waited<Cmd, Reply>) {
    waited.Some? && waited.value.Arrived? && waited.value.frame.Request?
  }

  function Serving<Cmd, Reply>(
      app: App<Cmd, Reply>, delivers: nat -> bool, inbound: seq<Waited<Cmd, Reply>>, sends: nat, ran: nat)
    : seq<Event<Cmd, Reply>>
    decreases |inbound|
  {
    var waited := First(inbound);
    if !IsRequest(waited) then [Read(waited)] else
    var Request(id, cmd) := waited.value.frame;
    [Read(waited)] + Handled(app, ran, id, cmd, delivers(sends)) +
    if delivers(sends) then Serving(app, delivers, inbound[1..], sends + 1, RanAfter(app, ran, cmd)) else []
  }

  function Run<Cmd, Reply>(
      app: App<Cmd, Reply>, config: ServerConfig, nonce: seq<byte>, delivers: nat -> bool,
      inbound: seq<Waited<Cmd, Reply>>, sends: nat)
    : seq<Event<Cmd, Reply>>
  {
    var waited := First(inbound);
    var answer := Answer(config, nonce, waited);
    [Read(waited), SendEvent(delivers(sends), ServerHelloFrame(answer))] +
    if delivers(sends) && answer.accepted then Serving(app, delivers, Rest(inbound), sends + 1, 0) else []
  }

  /** Validates, runs and answers one request. */
  method Handle<Cmd, Reply>(framed: Channel<Cmd, Reply>, app: App<Cmd, Reply>, ran: nat, id: u64, cmd: Cmd)
    returns (sent: bool)
    modifies framed`log, framed`sends
    ensures sent == framed.delivers(old(framed.sends)) && framed.sends == old(framed.sends) + 1
    ensures framed.log == old(framed.log) + Handled(app, ran, id, cmd, sent)
  {
    framed.log := framed.log + [Validated(cmd)];
    match app.validate(cmd) {
      case Some(message) =>
        sent := framed.Send(Response(id, InvalidParamsReply(message)));
      case None =>
        framed.log := framed.log + [Dispatched(cmd)];
        var payload := Dispatch(app, ran, cmd);
        sent := framed.Send(Response(id, payload));
    }
  }

  method Serve<Cmd, Reply>(framed: Channel<Cmd, Reply>, app: App<Cmd, Reply>) returns (r: Result<(), Fault>)
    modifies framed`inbound, framed`sends, framed`log
    ensures framed.log == old(framed.log) + Serving(app, framed.delivers, old(framed.inbound), old(framed.sends), 0)
    ensures r == Ok(()) || r == Err(SendFailed)
    ensures framed.log != [] && (r.Err? <==> framed.log[|framed.log| - 1].Lost?)
  {
    hide Handled;
    var ran := 0;
    ghost var whole := framed.log + Serving(app, framed.delivers, framed.inbound, framed.sends, ran);
    while true
      invariant whole == framed.log + Serving(app, framed.delivers, framed.inbound, framed.sends, ran)
      decreases |framed.inbound|
    {
      ghost var rest := Serving(app, framed.delivers, framed.inbound, framed.sends, ran);
      var next := framed.Recv();
      if !IsRequest(next) {
        return Ok(());
      }
      var Request(id, cmd) := next.value.frame;
      var sent := Handle(framed, app, ran, id, cmd);
      HandledEndsInReply(app, ran, id, cmd, sent);
      ran := RanAfter(app, ran, cmd);
      if !sent {
        return Err(SendFailed);
      }
    }
  }

  lemma HandledEndsInReply<Cmd, Reply>(app: App<Cmd, Reply>, ran: nat, id: u64, cmd: Cmd, sent: bool)
    ensures var h := Handled(app, ran, id, cmd, sent);
            h != [] && (if sent then h[|h| - 1].Sent? else h[|h| - 1].Lost?)
  {
  }

  lemma RunUnfolds<Cmd, Reply>(
      app: App<Cmd, Reply>, config: ServerConfig, nonce: seq<byte>, delivers: nat -> bool,
      inbound: seq<Waited<Cmd, Reply>>, sends: nat)
    ensures var waited := First(inbound);
            var answer := Answer(config, nonce, waited);
            var shaken := [Read(waited), SendEvent(delivers(sends), ServerHelloFrame(answer))];
            Run(app, config, nonce, delivers, inbound, sends) ==
            if delivers(sends) && answer.accepted
            then shaken + Serving(app, delivers, Rest(inbound), sends + 1, 0) else shaken
  {
  }

  /** The session that the server holds is the one that it announced. */
  lemma OutcomeFollowsAnswer<Cmd, Reply>(config: ServerConfig, nonce: seq<byte>, waited: Waited<Cmd, Reply>, sent: bool)
    ensures var r := ServerOutcome(config, waited, sent);
            var answer := Answer(config, nonce, waited);
            && (r.Ok? && r.value.accepted <==> sent && answer.accepted)
            && (r.Ok? && r.value.accepted ==> r.value.minor == answer.minor)
  {
  }

  method HandleConn<Cmd, Reply>(
      framed: Channel<Cmd, Reply>, app: App<Cmd, Reply>, config: ServerConfig, nonce: seq<byte>)
    returns (r: Result<(), Fault>)
    modifies framed
    ensures framed.log == old(framed.log) +
                          Run(app, config, nonce, framed.delivers, old(framed.inbound), old(framed.sends))
    ensures match ServerOutcome(config, First(old(framed.inbound)), framed.delivers(old(framed.sends)))
            case Err(fault) => r == Err(fault)
            case Ok(shake) =>
              if shake.accepted && framed.log[|framed.log| - 1].Lost? then r == Err(SendFailed) else r == Ok(())
  {
    hide *;
    ghost var waited, sent := First(framed.inbound), framed.delivers(framed.sends);
    RunUnfolds(app, config, nonce, framed.delivers, framed.inbound, framed.sends);
    OutcomeFollowsAnswer(config, nonce, waited, sent);
    var shake := PerformServerHandshake(framed, config, nonce);
    match shake {
      case Err(fault) =>
        return Err(fault);
      case Ok(session) =>
        if !session.accepted {
          return Ok(());
        }
        r := Serve(framed, app);
    }
  }

  // What the log shows.

  function RequestIn<Cmd, Reply>(e: Event<Cmd, Reply>): Option<(u64, Cmd)> {
    if e.Read? && IsRequest(e.waited) then Some((e.waited.value.frame.id, e.waited.value.frame.cmd)) else None
  }

  function ReplyIn<Cmd, Reply>(e: Event<Cmd, Reply>): Option<Frame<Cmd, Reply>> {
    if e.Sent? || e.Lost? then Some(e.frame) else None
  }

  function ValidatedIn<Cmd, Reply>(e: Event<Cmd, Reply>): Option<Cmd> {
    if e.Validated? then Some(e.cmd) else None
  }

  function DispatchedIn<Cmd, Reply>(e: Event<Cmd, Reply>): Option<Cmd> {
    if e.Dispatched? then Some(e.cmd) else None
  }

  function Requests<Cmd, Reply>(log: seq<Event<Cmd, Reply>>): seq<(u64, Cmd)> {
    Picked(log, RequestIn<Cmd, Reply>)
  }

  /** The replies attempted, delivered or not. */
  function Replies<Cmd, Reply>(log: seq<Event<Cmd, Reply>>): seq<Frame<Cmd, Reply>> {
    Picked(log, ReplyIn<Cmd, Reply>)
  }

  /** The reply each request must get, in order: the requests a product refuses
      are not run, the others are run once each. */
  function Due<Cmd, Reply>(app: App<Cmd, Reply>, requests: seq<(u64, Cmd)>, ran: nat): seq<Frame<Cmd, Reply>> {
    if requests == [] then [] else
    var (id, cmd) := requests[0];
    var payload := if app.validate(cmd).Some? then InvalidParamsReply(app.validate(cmd).value) else Dispatch(app, ran, cmd);
    [Response(id, payload)] + Due(app, requests[1..], RanAfter(app, ran, cmd))
  }

  function Commands<Cmd>(requests: seq<(u64, Cmd)>): seq<Cmd> {
    if requests == [] then [] else [requests[0].1] + Commands(requests[1..])
  }

  /** The commands the product accepts. */
  function Runnable<Cmd, Reply>(app: App<Cmd, Reply>, commands: seq<Cmd>): seq<Cmd> {
    if commands == [] then []
    else (if app.validate(commands[0]).None? then [commands[0]] else []) + Runnable(app, commands[1..])
  }

  /** What is true of the log so far, at any moment of serving. */
  ghost predicate Accountable<Cmd, Reply>(app: App<Cmd, Reply>, ran: nat, log: seq<Event<Cmd, Reply>>) {
    && Replies(log) <= Due(app, Requests(log), ran)
    && |Replies(log)| <= |Requests(log)| <= |Replies(log)| + 1
    && Picked(log, ValidatedIn<Cmd, Reply>) <= Commands(Requests(log))
    && |Picked(log, ValidatedIn<Cmd, Reply>)| >= |Replies(log)|
    && Picked(log, DispatchedIn<Cmd, Reply>) <= Runnable(app, Picked(log, ValidatedIn<Cmd, Reply>))
    && (|Replies(log)| == |Requests(log)| ==>
          && Picked(log, ValidatedIn<Cmd, Reply>) == Commands(Requests(log))
          && Picked(log, DispatchedIn<Cmd, Reply>) == Runnable(app, Commands(Requests(log))))
  }

  /** A block that answers one request in full, in front of an accountable log. */
  lemma BlockKeepsAccount<Cmd, Reply>(
      app: App<Cmd, Reply>, ran: nat, waited: Waited<Cmd, Reply>, sent: bool, rest: seq<Event<Cmd, Reply>>)
    requires IsRequest(waited)
    requires Accountable(app, RanAfter(app, ran, waited.value.frame.cmd), rest)
    ensures var Request(id, cmd) := waited.value.frame;
            var block := [Read(waited)] + Handled(app, ran, id, cmd, sent);
            && Accountable(app, ran, block + rest)
            && |Requests(block + rest)| == 1 + |Requests(rest)|
            && |Replies(block + rest)| == 1 + |Replies(rest)|
  {
    hide Picked, Handled, Dispatch;
    var Request(id, cmd) := waited.value.frame;
    var block := [Read(waited)] + Handled(app, ran, id, cmd, sent);
    PickedAppend(block, rest, RequestIn<Cmd, Reply>);
    PickedAppend(block, rest, ReplyIn<Cmd, Reply>);
    PickedAppend(block, rest, ValidatedIn<Cmd, Reply>);
    PickedAppend(block, rest, DispatchedIn<Cmd, Reply>);
    BlockPicks(app, ran, waited, sent);
    assert Requests(block + rest)[1..] == Requests(rest);
  }

  lemma PickedOfTwo<E, T>(a: E, b: E, pick: E -> Option<T>)
    ensures Picked([a], pick) == OneOf(pick(a))
    ensures Picked([a, b], pick) == OneOf(pick(a)) + OneOf(pick(b))
  {
    assert [a, b][1..] == [b] && [a][1..] == [] && [b][1..] == [];
    assert Picked([b], pick) == OneOf(pick(b));
  }

  lemma PickedOfThree<E, T>(a: E, b: E, c: E, pick: E -> Option<T>)
    ensures Picked([a, b, c], pick) == OneOf(pick(a)) + OneOf(pick(b)) + OneOf(pick(c))
  {
    assert [a, b, c][1..] == [b, c];
    PickedOfTwo(b, c, pick);
  }

  lemma PickedOfFour<E, T>(a: E, b: E, c: E, d: E, pick: E -> Option<T>)
    ensures Picked([a, b, c, d], pick) == OneOf(pick(a)) + OneOf(pick(b)) + OneOf(pick(c)) + OneOf(pick(d))
  {
    assert [a, b, c, d][1..] == [b, c, d];
    PickedOfThree(b, c, d, pick);
  }

  lemma RefusedBlockPicks<Cmd, Reply>(id: u64, cmd: Cmd, reply: Frame<Cmd, Reply>, sent: bool)
    ensures var block := [Read(Some(Arrived(Request(id, cmd)))), Validated(cmd), SendEvent(sent, reply)];
            && Requests(block) == [(id, cmd)] && Replies(block) == [reply]
            && Picked(block, ValidatedIn<Cmd, Reply>) == [cmd] && Picked(block, DispatchedIn<Cmd, Reply>) == []
  {
    hide Picked;
    var read: Event<Cmd, Reply> := Read(Some(Arrived(Request(id, cmd))));
    PickedOfThree(read, Validated(cmd), SendEvent(sent, reply), RequestIn<Cmd, Reply>);
    PickedOfThree(read, Validated(cmd), SendEvent(sent, reply), ReplyIn<Cmd, Reply>);
    PickedOfThree(read, Validated(cmd), SendEvent(sent, reply), ValidatedIn<Cmd, Reply>);
    PickedOfThree(read, Validated(cmd), SendEvent(sent, reply), DispatchedIn<Cmd, Reply>);
  }

  lemma RunBlockPicks<Cmd, Reply>(id: u64, cmd: Cmd, reply: Frame<Cmd, Reply>, sent: bool)
    ensures var block := [Read(Some(Arrived(Request(id, cmd)))), Validated(cmd), Dispatched(cmd), SendEvent(sent, reply)];
            && Requests(block) == [(id, cmd)] && Replies(block) == [reply]
            && Picked(block, ValidatedIn<Cmd, Reply>) == [cmd] && Picked(block, DispatchedIn<Cmd, Reply>) == [cmd]
  {
    hide Picked;
    var read: Event<Cmd, Reply> := Read(Some(Arrived(Request(id, cmd))));
    PickedOfFour(read, Validated(cmd), Dispatched(cmd), SendEvent(sent, reply), RequestIn<Cmd, Reply>);
    PickedOfFour(read, Validated(cmd), Dispatched(cmd), SendEvent(sent, reply), ReplyIn<Cmd, Reply>);
    PickedOfFour(read, Validated(cmd), Dispatched(cmd), SendEvent(sent, reply), ValidatedIn<Cmd, Reply>);
    PickedOfFour(read, Validated(cmd), Dispatched(cmd), SendEvent(sent, reply), DispatchedIn<Cmd, Reply>);
  }

  lemma BlockPicks<Cmd, Reply>(app: App<Cmd, Reply>, ran: nat, waited: Waited<Cmd, Reply>, sent: bool)
    requires IsRequest(waited)
    ensures var Request(id, cmd) := waited.value.frame;
            var block := [Read(waited)] + Handled(app, ran, id, cmd, sent);
            && Requests(block) == [(id, cmd)]
            && Replies(block) == Due(app, [(id, cmd)], ran)
            && Picked(block, ValidatedIn<Cmd, Reply>) == [cmd]
            && Picked(block, DispatchedIn<Cmd, Reply>) == Runnable(app, [cmd])
  {
    hide Picked, SendEvent, Dispatch, InvalidParamsReply;
    var Request(id, cmd) := waited.value.frame;
    var block := [Read(waited)] + Handled(app, ran, id, cmd, sent);
    assert [(id, cmd)][1..] == [] && [cmd][1..] == [];
    if app.validate(cmd).Some? {
      var reply := Response(id, InvalidParamsReply(app.validate(cmd).value));
      assert block == [Read(waited), Validated(cmd), SendEvent(sent, reply)];
      RefusedBlockPicks(id, cmd, reply, sent);
    } else {
      var reply := Response(id, Dispatch(app, ran, cmd));
      assert block == [Read(waited), Validated(cmd), Dispatched(cmd), SendEvent(sent, reply)];
      RunBlockPicks(id, cmd, reply, sent);
    }
  }

  /** While one request is being handled, the log is accountable too. */
  lemma PendingIsAccountable<Cmd, Reply>(
      app: App<Cmd, Reply>, ran: nat, id: u64, cmd: Cmd, log: seq<Event<Cmd, Reply>>)
    requires Requests(log) == [(id, cmd)] && Replies(log) == []
    requires Picked(log, ValidatedIn<Cmd, Reply>) == if |log| >= 2 then [cmd] else []
    requires Picked(log, DispatchedIn<Cmd, Reply>) == if app.validate(cmd).None? && |log| == 3 then [cmd] else []
    ensures Accountable(app, ran, log)
  {
    assert [(id, cmd)][1..] == [] && [cmd][1..] == [];
    assert Commands([(id, cmd)]) == [cmd];
    assert Runnable(app, [cmd]) == if app.validate(cmd).None? then [cmd] else [];
  }

  lemma BlockPrefixPicks<Cmd, Reply>(
      app: App<Cmd, Reply>, ran: nat, waited: Waited<Cmd, Reply>, sent: bool, k: nat)
    requires IsRequest(waited)
    requires var Request(id, cmd) := waited.value.frame; 0 < k < 1 + |Handled(app, ran, id, cmd, sent)|
    ensures var Request(id, cmd) := waited.value.frame;
            var log := ([Read(waited)] + Handled(app, ran, id, cmd, sent))[..k];
            && Requests(log) == [(id, cmd)] && Replies(log) == []
            && Picked(log, ValidatedIn<Cmd, Reply>) == (if k >= 2 then [cmd] else [])
            && Picked(log, DispatchedIn<Cmd, Reply>) == if app.validate(cmd).None? && k == 3 then [cmd] else []
  {
    hide Picked, Dispatch, InvalidParamsReply, SendEvent;
    var Request(id, cmd) := waited.value.frame;
    var handled := Handled(app, ran, id, cmd, sent);
    var log := ([Read(waited)] + handled)[..k];
    var read := Read(waited);
    if k <= 2 {
      assert log == [read] || log == [read, handled[0]];
      PickedOfTwo(read, handled[0], RequestIn<Cmd, Reply>);
      PickedOfTwo(read, handled[0], ReplyIn<Cmd, Reply>);
      PickedOfTwo(read, handled[0], ValidatedIn<Cmd, Reply>);
      PickedOfTwo(read, handled[0], DispatchedIn<Cmd, Reply>);
    } else {
      assert log == [read, handled[0], handled[1]];
      PickedOfThree(read, handled[0], handled[1], RequestIn<Cmd, Reply>);
      PickedOfThree(read, handled[0], handled[1], ReplyIn<Cmd, Reply>);
      PickedOfThree(read, handled[0], handled[1], ValidatedIn<Cmd, Reply>);
      PickedOfThree(read, handled[0], handled[1], DispatchedIn<Cmd, Reply>);
    }
  }

  lemma BlockPrefixIsAccountable<Cmd, Reply>(
      app: App<Cmd, Reply>, ran: nat, waited: Waited<Cmd, Reply>, sent: bool, k: nat)
    requires IsRequest(waited)
    requires var Request(id, cmd) := waited.value.frame; k < 1 + |Handled(app, ran, id, cmd, sent)|
    ensures var Request(id, cmd) := waited.value.frame;
            Accountable(app, ran, ([Read(waited)] + Handled(app, ran, id, cmd, sent))[..k])
  {
    var Request(id, cmd) := waited.value.frame;
    var log := ([Read(waited)] + Handled(app, ran, id, cmd, sent))[..k];
    if k > 0 {
      hide Handled, Accountable;
      BlockPrefixPicks(app, ran, waited, sent, k);
      PendingIsAccountable(app, ran, id, cmd, log);
    } else {
      assert log == [];
    }
  }

  lemma QuietLogIsAccountable<Cmd, Reply>(app: App<Cmd, Reply>, ran: nat, log: seq<Event<Cmd, Reply>>)
    requires Requests(log) == [] && Replies(log) == []
    requires Picked(log, ValidatedIn<Cmd, Reply>) == [] && Picked(log, DispatchedIn<Cmd, Reply>) == []
    ensures Accountable(app, ran, log)
  {
  }

  lemma NothingIsAccountable<Cmd, Reply>(app: App<Cmd, Reply>, ran: nat)
    ensures Accountable(app, ran, [])
  {
  }

  lemma LoneReadPicksNothing<Cmd, Reply>(waited: Waited<Cmd, Reply>)
    requires !IsRequest(waited)
    ensures var log: seq<Event<Cmd, Reply>> := [Read(waited)];
            && Requests(log) == [] && Replies(log) == []
            && Picked(log, ValidatedIn<Cmd, Reply>) == [] && Picked(log, DispatchedIn<Cmd, Reply>) == []
  {
    var read: Event<Cmd, Reply> := Read(waited);
    PickedOfTwo(read, read, RequestIn<Cmd, Reply>);
    PickedOfTwo(read, read, ReplyIn<Cmd, Reply>);
    PickedOfTwo(read, read, ValidatedIn<Cmd, Reply>);
    PickedOfTwo(read, read, DispatchedIn<Cmd, Reply>);
  }

  lemma {:induction false} EveryMomentIsAccountable<Cmd, Reply>(
      app: App<Cmd, Reply>, delivers: nat -> bool, inbound: seq<Waited<Cmd, Reply>>, sends: nat, ran: nat, k: nat)
    requires k <= |Serving(app, delivers, inbound, sends, ran)|
    ensures Accountable(app, ran, Serving(app, delivers, inbound, sends, ran)[..k])
    decreases |inbound|
  {
    hide Picked, Handled, Dispatch, Accountable;
    var log := Serving(app, delivers, inbound, sends, ran);
    var waited := First(inbound);
    if IsRequest(waited) {
      var Request(id, cmd) := waited.value.frame;
      var sent := delivers(sends);
      var block := [Read(waited)] + Handled(app, ran, id, cmd, sent);
      if k < |block| {
        BlockPrefixIsAccountable(app, ran, waited, sent, k);
        assert log[..k] == block[..k];
      } else {
        var rest := log[|block|..];
        if !sent {
          NothingIsAccountable(app, RanAfter(app, ran, cmd));
          assert rest[..k - |block|] == [];
        } else {
          EveryMomentIsAccountable(app, delivers, inbound[1..], sends + 1, RanAfter(app, ran, cmd), k - |block|);
        }
        BlockKeepsAccount(app, ran, waited, sent, rest[..k - |block|]);
        assert log[..k] == block + rest[..k - |block|];
      }
    } else {
      LoneReadPicksNothing(waited);
      NothingIsAccountable(app, ran);
      QuietLogIsAccountable(app, ran, [Read(waited)]);
      assert log[..k] == [] || log[..k] == [Read(waited)];
    }
  }

  /** Serving ends at the first read that is not a request or at the first send
      that fails, whichever comes first; it only ever sends responses. */
  ghost predicate StopsInTime<Cmd, Reply>(log: seq<Event<Cmd, Reply>>) {
    && log != []
    && (forall i :: 0 <= i < |log| - 1 ==> !log[i].Lost? && (log[i].Read? ==> IsRequest(log[i].waited)))
    && var last := log[|log| - 1];
    && (last.Lost? || (last.Read? && !IsRequest(last.waited)))
    && (forall i :: 0 <= i < |log| && (log[i].Sent? || log[i].Lost?) ==> log[i].frame.Response?)
  }

  lemma {:induction false} ServingStopsInTime<Cmd, Reply>(
      app: App<Cmd, Reply>, delivers: nat -> bool, inbound: seq<Waited<Cmd, Reply>>, sends: nat, ran: nat)
    ensures StopsInTime(Serving(app, delivers, inbound, sends, ran))
    ensures var log := Serving(app, delivers, inbound, sends, ran); |Requests(log)| == |Replies(log)|
    decreases |inbound|
  {
    hide Picked, Dispatch;
    var waited := First(inbound);
    if IsRequest(waited) {
      var Request(id, cmd) := waited.value.frame;
      var block := [Read(waited)] + Handled(app, ran, id, cmd, delivers(sends));
      BlockPicks(app, ran, waited, delivers(sends));
      assert [(id, cmd)][1..] == [];
      if delivers(sends) {
        var rest := Serving(app, delivers, inbound[1..], sends + 1, RanAfter(app, ran, cmd));
        ServingStopsInTime(app, delivers, inbound[1..], sends + 1, RanAfter(app, ran, cmd));
        PickedAppend(block, rest, RequestIn<Cmd, Reply>);
        PickedAppend(block, rest, ReplyIn<Cmd, Reply>);
      } else {
        assert Serving(app, delivers, inbound, sends, ran) == block;
      }
    } else {
      LoneReadPicksNothing(waited);
    }
  }

  function WaitedIn<Cmd, Reply>(e: Event<Cmd, Reply>): Option<Waited<Cmd, Reply>> {
    if e.Read? then Some(e.waited) else None
  }

  lemma BlockReadsOnce<Cmd, Reply>(app: App<Cmd, Reply>, ran: nat, waited: Waited<Cmd, Reply>, sent: bool)
    requires IsRequest(waited)
    ensures var Request(id, cmd) := waited.value.frame;
            Picked([Read(waited)] + Handled(app, ran, id, cmd, sent), WaitedIn<Cmd, Reply>) == [waited]
  {
    hide Picked, Dispatch, InvalidParamsReply;
    var Request(id, cmd) := waited.value.frame;
    var read: Event<Cmd, Reply> := Read(waited);
    var handled := Handled(app, ran, id, cmd, sent);
    if app.validate(cmd).Some? {
      assert [read] + handled == [read, handled[0], handled[1]];
      PickedOfThree(read, handled[0], handled[1], WaitedIn<Cmd, Reply>);
    } else {
      assert [read] + handled == [read, handled[0], handled[1], handled[2]];
      PickedOfFour(read, handled[0], handled[1], handled[2], WaitedIn<Cmd, Reply>);
    }
  }

  /** What is read is what arrives, one after the other, none skipped; behind the
      last there is only silence. */
  lemma {:induction false} ReadsAreWhatArrives<Cmd, Reply>(
      app: App<Cmd, Reply>, delivers: nat -> bool, inbound: seq<Waited<Cmd, Reply>>, sends: nat, ran: nat)
    ensures Picked(Serving(app, delivers, inbound, sends, ran), WaitedIn<Cmd, Reply>) <= inbound + [None]
    decreases |inbound|
  {
    hide Picked, Handled, Dispatch;
    var waited := First(inbound);
    var read: Event<Cmd, Reply> := Read(waited);
    PickedOfTwo(read, read, WaitedIn<Cmd, Reply>);
    if IsRequest(waited) {
      var Request(id, cmd) := waited.value.frame;
      var block := [read] + Handled(app, ran, id, cmd, delivers(sends));
      BlockReadsOnce(app, ran, waited, delivers(sends));
      if delivers(sends) {
        ReadsAreWhatArrives(app, delivers, inbound[1..], sends + 1, RanAfter(app, ran, cmd));
        PickedAppend(block, Serving(app, delivers, inbound[1..], sends + 1, RanAfter(app, ran, cmd)), WaitedIn<Cmd, Reply>);
      } else {
        assert Serving(app, delivers, inbound, sends, ran) == block;
      }
      assert inbound == [waited] + inbound[1..];
    }
  }

  function SentIn<Cmd, Reply>(e: Event<Cmd, Reply>): Option<Frame<Cmd, Reply>> {
    if e.Sent? then Some(e.frame) else None
  }

  /** The replies that reached the peer. */
  function Delivered<Cmd, Reply>(log: seq<Event<Cmd, Reply>>): seq<Frame<Cmd, Reply>> {
    Picked(log, SentIn<Cmd, Reply>)
  }

  lemma {:induction false} DeliveredWhenNoneLost<Cmd, Reply>(log: seq<Event<Cmd, Reply>>)
    requires forall e :: e in log ==> !e.Lost?
    ensures Delivered(log) == Replies(log)
  {
    if log != [] {
      DeliveredWhenNoneLost(log[1..]);
    }
  }

  lemma DeliveredFallsShortByTheLost<Cmd, Reply>(log: seq<Event<Cmd, Reply>>)
    requires StopsInTime(log)
    ensures var last := log[|log| - 1];
            if last.Lost? then Delivered(log) + [last.frame] == Replies(log) else Delivered(log) == Replies(log)
  {
    var before, last := log[..|log| - 1], log[|log| - 1];
    assert log == before + [last] && [last][1..] == [];
    DeliveredWhenNoneLost(before);
    PickedAppend(before, [last], SentIn<Cmd, Reply>);
    PickedAppend(before, [last], ReplyIn<Cmd, Reply>);
  }

  /** The reply a request gets when `n` commands ran before it: the refusal the
      product gives, or what the command returned, or that it took too long. */
  ghost predicate IsAnswerTo<Cmd, Reply>(app: App<Cmd, Reply>, request: (u64, Cmd), n: nat, reply: Frame<Cmd, Reply>) {
    && reply.Response? && reply.id == request.0
    && (app.validate(request.1).Some? ==>
          reply.payload == Failure(ErrorBody(InvalidParams, Text(app.validate(request.1).value), false)))
    && (app.validate(request.1).None? && app.dispatch(n, request.1).Some? ==>
          reply.payload == app.dispatch(n, request.1).value)
    && (app.validate(request.1).None? && app.dispatch(n, request.1).None? ==>
          reply.payload == Failure(ErrorBody(CommandTimeout, Text("comando excedeu o tempo limite"), true)))
  }

  /** How many commands run for these requests. */
  function Ran<Cmd, Reply>(app: App<Cmd, Reply>, requests: seq<(u64, Cmd)>): nat {
    if requests == [] then 0 else (if app.validate(requests[0].1).None? then 1 else 0) + Ran(app, requests[1..])
  }

  lemma {:induction false} DueAnswers<Cmd, Reply>(app: App<Cmd, Reply>, requests: seq<(u64, Cmd)>, ran: nat, i: nat)
    requires i < |requests|
    ensures |Due(app, requests, ran)| == |requests|
    ensures IsAnswerTo(app, requests[i], ran + Ran(app, requests[..i]), Due(app, requests, ran)[i])
    decreases i
  {
    DueLength(app, requests, ran);
    if i > 0 {
      var next := RanAfter(app, ran, requests[0].1);
      DueAnswers(app, requests[1..], next, i - 1);
      assert requests[..i][1..] == requests[1..][..i - 1];
    }
  }

  /** Every reply of the log answers the request in the same place. */
  ghost predicate AnswersInOrder<Cmd, Reply>(app: App<Cmd, Reply>, log: seq<Event<Cmd, Reply>>) {
    && |Replies(log)| <= |Requests(log)|
    && forall i :: 0 <= i < |Replies(log)| ==>
         IsAnswerTo(app, Requests(log)[i], Ran(app, Requests(log)[..i]), Replies(log)[i])
  }

  lemma AccountableAnswersInOrder<Cmd, Reply>(app: App<Cmd, Reply>, log: seq<Event<Cmd, Reply>>)
    requires Accountable(app, 0, log)
    ensures AnswersInOrder(app, log)
  {
    hide Picked, Due, IsAnswerTo, Ran;
    forall i | 0 <= i < |Replies(log)|
      ensures IsAnswerTo(app, Requests(log)[i], Ran(app, Requests(log)[..i]), Replies(log)[i])
    {
      DueAnswers(app, Requests(log), 0, i);
    }
  }

  /** The whole connection. One ServerHello is attempted, right after the first
      read; nothing else happens unless it accepted and was sent. From there on
      the log is accountable at every moment: requests are answered in order under
      their own ids, each refused one undispatched and each other one dispatched
      once. At the end every request read has had its reply, and all of them
      reached the peer unless the last send failed, after which nothing is read. */
  lemma WholeRun<Cmd, Reply>(
      app: App<Cmd, Reply>, config: ServerConfig, nonce: seq<byte>, delivers: nat -> bool,
      inbound: seq<Waited<Cmd, Reply>>, sends: nat)
    ensures var log := Run(app, config, nonce, delivers, inbound, sends);
            && |log| >= 2 && log[0].Read? && (log[1].Sent? || log[1].Lost?) && log[1].frame.ServerHelloFrame?
            && (|log| > 2 <==> log[1].Sent? && log[1].frame.serverHello.accepted)
    ensures var log := Run(app, config, nonce, delivers, inbound, sends);
            |log| > 2 ==>
              && StopsInTime(log[2..])
              && (forall k :: 2 <= k <= |log| ==> Accountable(app, 0, log[2..k]) && AnswersInOrder(app, log[2..k]))
              && |Replies(log[2..])| == |Requests(log[2..])|
              && |Delivered(log[2..])| == |Requests(log[2..])| - if log[|log| - 1].Lost? then 1 else 0
  {
    hide Picked, Accountable, AnswersInOrder, Dispatch, StopsInTime, Due;
    var log := Run(app, config, nonce, delivers, inbound, sends);
    var waited := First(inbound);
    if |log| > 2 {
      var serving := Serving(app, delivers, Rest(inbound), sends + 1, 0);
      assert log[2..] == serving;
      ServingStopsInTime(app, delivers, Rest(inbound), sends + 1, 0);
      DeliveredFallsShortByTheLost(serving);
      forall k | 2 <= k <= |log|
        ensures Accountable(app, 0, log[2..k]) && AnswersInOrder(app, log[2..k])
      {
        EveryMomentIsAccountable(app, delivers, Rest(inbound), sends + 1, 0, k - 2);
        assert log[2..k] == serving[..k - 2];
        AccountableAnswersInOrder(app, log[2..k]);
      }
    }
    if log[1].Sent? && log[1].frame.serverHello.accepted {
      ServingStopsInTime(app, delivers, Rest(inbound), sends + 1, 0);
    }
  }

  lemma {:induction false} DueLength<Cmd, Reply>(app: App<Cmd, Reply>, requests: seq<(u64, Cmd)>, ran: nat)
    ensures |Due(app, requests, ran)| == |requests|
  {
    if requests != [] {
      DueLength(app, requests[1..], RanAfter(app, ran, requests[0].1));
    }
  }
}
