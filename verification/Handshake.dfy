/** The two halves of the handshake, each over a channel of whole frames, and
    the two halves composed over a transport that may lose either frame. */
module Handshake {
  import opened Basics
  import opened Framing

  type u64 = x: int | 0 <= x < 0x1_0000_0000_0000_0000

  datatype ErrorCode =
    | VersionUnsupported
    | HandshakeRequired
    | FrameTooLarge
    | MalformedFrame
    | InvalidParams
    | CommandTimeout
    | AppCode(code: string)

  datatype Message = Text(text: string) | MajorUnsupported(client: u16, server: u16)

  datatype ErrorBody = ErrorBody(code: ErrorCode, message: Message, retryable: bool)

  datatype Hello = Hello(major: u16, minor: u16, version: string, nonce: seq<byte>)

  datatype PeerCheck = PeerCheck(kind: string, subject: string)

  datatype ServerHello = ServerHello(
    accepted: bool, major: u16, minor: u16, version: string, nonce: seq<byte>, peer: PeerCheck, reject: Option<ErrorBody>)

  datatype Payload<+Reply> = Done(reply: Reply) | Failure(error: ErrorBody)

  datatype Frame<+Cmd, +Reply> =
    | HelloFrame(hello: Hello)
    | ServerHelloFrame(serverHello: ServerHello)
    | Request(id: u64, cmd: Cmd)
    | Response(id: u64, payload: Payload<Reply>)

  datatype Fault =
    | DeadlinePassed
    | StreamEnded
    | ReadFailed(error: RecvError)
    | UnexpectedFrame(got: string)
    | SendFailed
    | Rejected(reject: Option<ErrorBody>)
    | VersionMismatch(client: u16, server: u16)

  /** What waiting for a frame gives; `None` when the deadline passes first. */
  type Waited<Cmd, Reply> = Option<Received<Frame<Cmd, Reply>>>

  /** What a channel does, in order. */
  datatype Event<+Cmd, +Reply> =
    | Read(waited: Option<Received<Frame<Cmd, Reply>>>)
    | Sent(frame: Frame<Cmd, Reply>)
    | Lost(frame: Frame<Cmd, Reply>)
    | Validated(cmd: Cmd)
    | Dispatched(cmd: Cmd)

  function First<Cmd, Reply>(inbound: seq<Waited<Cmd, Reply>>): Waited<Cmd, Reply> {
    if inbound == [] then None else inbound[0]
  }

  function Rest<Cmd, Reply>(inbound: seq<Waited<Cmd, Reply>>): seq<Waited<Cmd, Reply>> {
    if inbound == [] then [] else inbound[1..]
  }

  function SendEvent<Cmd, Reply>(delivered: bool, frame: Frame<Cmd, Reply>): Event<Cmd, Reply> {
    if delivered then Sent(frame) else Lost(frame)
  }

  /** One side's framed stream: what will arrive on it, which of its sends
      succeed, and the log of what was done with it. */
  class Channel<Cmd, Reply> {
    const delivers: nat -> bool
    var inbound: seq<Waited<Cmd, Reply>>
    var sends: nat
    var log: seq<Event<Cmd, Reply>>

    constructor (inbound: seq<Waited<Cmd, Reply>>, delivers: nat -> bool)
      ensures this.inbound == inbound && this.delivers == delivers && sends == 0 && log == []
    {
      this.inbound, this.delivers, sends, log := inbound, delivers, 0, [];
    }

    method Recv() returns (r: Waited<Cmd, Reply>)
      modifies this`inbound, this`log
      ensures r == First(old(inbound)) && inbound == Rest(old(inbound))
      ensures log == old(log) + [Read(r)]
    {
      r := First(inbound);
      inbound := Rest(inbound);
      log := log + [Read(r)];
    }

    method Send(frame: Frame<Cmd, Reply>) returns (ok: bool)
      modifies this`sends, this`log
      ensures ok == delivers(old(sends)) && sends == old(sends) + 1
      ensures log == old(log) + [SendEvent(ok, frame)]
    {
      ok := delivers(sends);
      sends := sends + 1;
      log := log + [SendEvent(ok, frame)];
    }
  }

  // The server's half.

  datatype ServerConfig = ServerConfig(major: u16, minor: u16, version: string, peer: PeerCheck)

  datatype ServerShake = ServerShake(accepted: bool, minor: u16, clientHello: Hello)

  datatype HelloFailure = HelloFailure(fault: Fault, reject: ErrorBody)

  function FrameName<Cmd, Reply>(frame: Frame<Cmd, Reply>): string {
    match frame
    case HelloFrame(_) => "Hello"
    case ServerHelloFrame(_) => "ServerHello"
    case Request(_, _) => "Request"
    case Response(_, _) => "Response"
  }

  function Refuse(fault: Fault, code: ErrorCode, message: string): Result<Hello, HelloFailure> {
    Err(HelloFailure(fault, ErrorBody(code, Text(message), false)))
  }

  function HelloOf<Cmd, Reply>(waited: Waited<Cmd, Reply>): Result<Hello, HelloFailure> {
    match waited
    case None => Refuse(DeadlinePassed, HandshakeRequired, "handshake nao recebido dentro do prazo")
    case Some(Ended) => Refuse(StreamEnded, HandshakeRequired, "conexao fechada antes do handshake")
    case Some(Failed(Io)) => Refuse(ReadFailed(Io), HandshakeRequired, "conexao interrompida antes do handshake")
    case Some(Failed(TooLarge)) => Refuse(ReadFailed(TooLarge), FrameTooLarge, "frame de handshake acima do teto")
    case Some(Failed(Malformed)) => Refuse(ReadFailed(Malformed), MalformedFrame, "frame de handshake malformado")
    case Some(Arrived(HelloFrame(hello))) => Ok(hello)
    case Some(Arrived(Request(id, cmd))) =>
      Refuse(UnexpectedFrame("Request"), HandshakeRequired, "Request recebido antes do Hello")
    case Some(Arrived(other)) =>
      Refuse(UnexpectedFrame(FrameName(other)), MalformedFrame, "primeiro frame deve ser Hello")
  }

  function Answer<Cmd, Reply>(config: ServerConfig, nonce: seq<byte>, waited: Waited<Cmd, Reply>): ServerHello {
    match HelloOf(waited)
    case Err(failure) =>
      ServerHello(false, config.major, config.minor, config.version, nonce, config.peer, Some(failure.reject))
    case Ok(hello) =>
      if hello.major == config.major then
        ServerHello(true, config.major, Min(hello.minor, config.minor), config.version, nonce, config.peer, None)
      else
        ServerHello(false, config.major, config.minor, config.version, nonce, config.peer,
                    Some(ErrorBody(VersionUnsupported, MajorUnsupported(hello.major, config.major), false)))
  }

  function ServerOutcome<Cmd, Reply>(config: ServerConfig, waited: Waited<Cmd, Reply>, sent: bool)
    : Result<ServerShake, Fault>
  {
    match HelloOf(waited)
    case Err(failure) => Err(failure.fault)
    case Ok(hello) =>
      if sent then Ok(ServerShake(hello.major == config.major, Min(hello.minor, config.minor), hello))
      else Err(SendFailed)
  }

  method ReadHello<Cmd, Reply>(framed: Channel<Cmd, Reply>) returns (r: Result<Hello, HelloFailure>)
    modifies framed`inbound, framed`log
    ensures r == HelloOf(First(old(framed.inbound)))
    ensures framed.inbound == Rest(old(framed.inbound))
    ensures framed.log == old(framed.log) + [Read(First(old(framed.inbound)))]
  {
    var next := framed.Recv();
    var fault: Fault;
    var code: ErrorCode;
    var message: string;
    match next {
      case None =>
        fault, code, message := DeadlinePassed, HandshakeRequired, "handshake nao recebido dentro do prazo";
      case Some(Ended) =>
        fault, code, message := StreamEnded, HandshakeRequired, "conexao fechada antes do handshake";
      case Some(Failed(Io)) =>
        fault, code, message := ReadFailed(Io), HandshakeRequired, "conexao interrompida antes do handshake";
      case Some(Failed(TooLarge)) =>
        fault, code, message := ReadFailed(TooLarge), FrameTooLarge, "frame de handshake acima do teto";
      case Some(Failed(Malformed)) =>
        fault, code, message := ReadFailed(Malformed), MalformedFrame, "frame de handshake malformado";
      case Some(Arrived(HelloFrame(hello))) =>
        return Ok(hello);
      case Some(Arrived(Request(_, _))) =>
        fault, code, message := UnexpectedFrame("Request"), HandshakeRequired, "Request recebido antes do Hello";
      case Some(Arrived(other)) =>
        fault, code, message := UnexpectedFrame(FrameName(other)), MalformedFrame, "primeiro frame deve ser Hello";
    }
    return Err(HelloFailure(fault, ErrorBody(code, Text(message), false)));
  }

  method PerformServerHandshake<Cmd, Reply>(framed: Channel<Cmd, Reply>, config: ServerConfig, nonce: seq<byte>)
    returns (r: Result<ServerShake, Fault>)
    modifies framed`inbound, framed`sends, framed`log
    ensures var waited := First(old(framed.inbound));
            var sent := framed.delivers(old(framed.sends));
            && r == ServerOutcome(config, waited, sent)
            && framed.log == old(framed.log) +
                             [Read(waited), SendEvent(sent, ServerHelloFrame(Answer(config, nonce, waited)))]
    ensures framed.inbound == Rest(old(framed.inbound)) && framed.sends == old(framed.sends) + 1
  {
    var read := ReadHello(framed);
    match read {
      case Err(failure) =>
        var refusal := ServerHello(
          false, config.major, config.minor, config.version, nonce, config.peer, Some(failure.reject));
        var _ := framed.Send(ServerHelloFrame(refusal));
        return Err(failure.fault);
      case Ok(hello) =>
        var accepted := hello.major == config.major;
        var negotiated := Min(hello.minor, config.minor);
        var reject :=
          if accepted then None
          else Some(ErrorBody(VersionUnsupported, MajorUnsupported(hello.major, config.major), false));
        var sent := framed.Send(ServerHelloFrame(ServerHello(
          accepted, config.major, if accepted then negotiated else config.minor,
          config.version, nonce, config.peer, reject)));
        if !sent {
          return Err(SendFailed);
        }
        return Ok(ServerShake(accepted, negotiated, hello));
    }
  }

  /** The server's word on the wire accepts exactly a Hello of its own major, and
      is always about the server: its major, version, nonce and view of the peer. */
  lemma AcceptsExactlyItsMajor<Cmd, Reply>(config: ServerConfig, nonce: seq<byte>, waited: Waited<Cmd, Reply>)
    ensures Answer(config, nonce, waited).accepted <==>
            exists hello: Hello :: waited == Some(Arrived(HelloFrame(hello))) && hello.major == config.major
    ensures Answer(config, nonce, waited).accepted <==> Answer(config, nonce, waited).reject == None
    ensures var answer := Answer(config, nonce, waited);
            && answer.major == config.major && answer.version == config.version
            && answer.nonce == nonce && answer.peer == config.peer && answer.minor <= config.minor
            && (!answer.accepted ==> answer.minor == config.minor)
  {
    if waited.Some? && waited.value.Arrived? && waited.value.frame.HelloFrame? {
      assert waited == Some(Arrived(HelloFrame(waited.value.frame.hello)));
    }
  }

  /** A refusal tells its reason: the version, a frame above the cap, a frame
      that cannot be one here, or no Hello at all; none of them is retryable. */
  lemma RefusalTellsWhy<Cmd, Reply>(config: ServerConfig, nonce: seq<byte>, waited: Waited<Cmd, Reply>)
    requires !Answer(config, nonce, waited).accepted
    ensures var code := Answer(config, nonce, waited).reject.value.code;
            var frame := if waited.Some? && waited.value.Arrived? then Some(waited.value.frame) else None;
            && !Answer(config, nonce, waited).reject.value.retryable
            && (code == VersionUnsupported <==> frame.Some? && frame.value.HelloFrame?)
            && (code == FrameTooLarge <==> waited == Some(Failed(TooLarge)))
            && (code == MalformedFrame <==>
                waited == Some(Failed(Malformed)) || (frame.Some? && (frame.value.ServerHelloFrame? || frame.value.Response?)))
            && (code == HandshakeRequired <==>
                waited in {None, Some(Ended), Some(Failed(Io))} || (frame.Some? && frame.value.Request?))
  {
  }

  /** The fault the server ends with tells what it waited for in vain. */
  lemma ServerFaultTellsWhy<Cmd, Reply>(config: ServerConfig, waited: Waited<Cmd, Reply>, sent: bool)
    ensures var r := ServerOutcome(config, waited, sent);
            var frame := if waited.Some? && waited.value.Arrived? then Some(waited.value.frame) else None;
            && (r == Err(DeadlinePassed) <==> waited == None)
            && (r == Err(StreamEnded) <==> waited == Some(Ended))
            && (forall error :: r == Err(ReadFailed(error)) <==> waited == Some(Failed(error)))
            && (r == Err(UnexpectedFrame("Request")) <==> frame.Some? && frame.value.Request?)
            && (r == Err(UnexpectedFrame("ServerHello")) <==> frame.Some? && frame.value.ServerHelloFrame?)
            && (r == Err(UnexpectedFrame("Response")) <==> frame.Some? && frame.value.Response?)
            && (r == Err(SendFailed) <==> frame.Some? && frame.value.HelloFrame? && !sent)
            && (r.Ok? <==> frame.Some? && frame.value.HelloFrame? && sent)
            && (r.Ok? ==> r.value.clientHello == frame.value.hello)
  {
    Apart();
  }

  /** The names of the frames differ. */
  lemma Apart()
    ensures "Request" != "Response" && "Request" != "ServerHello" && "Response" != "ServerHello" && "Hello" != "Request"
    ensures "Hello" != "Response" && "Hello" != "ServerHello"
  {
    assert |"Request"| == 7 && |"Response"| == 8 && |"ServerHello"| == 11 && |"Hello"| == 5;
  }

  // The client's half.

  datatype ClientConfig = ClientConfig(major: u16, minor: u16, version: string)

  datatype ClientShake = ClientShake(serverHello: ServerHello, minor: u16)

  function Greeting(config: ClientConfig, nonce: seq<byte>): Hello {
    Hello(config.major, config.minor, config.version, nonce)
  }

  function ClientOutcome<Cmd, Reply>(config: ClientConfig, sent: bool, waited: Waited<Cmd, Reply>)
    : Result<ClientShake, Fault>
  {
    if !sent then Err(SendFailed) else
    match waited
    case None => Err(DeadlinePassed)
    case Some(Failed(error)) => Err(ReadFailed(error))
    case Some(Ended) => Err(StreamEnded)
    case Some(Arrived(ServerHelloFrame(sh))) =>
      if !sh.accepted then Err(Rejected(sh.reject))
      else if sh.major != config.major then Err(VersionMismatch(config.major, sh.major))
      else Ok(ClientShake(sh, sh.minor))
    case Some(Arrived(other)) => Err(UnexpectedFrame(FrameName(other)))
  }

  method PerformClientHandshake<Cmd, Reply>(framed: Channel<Cmd, Reply>, config: ClientConfig, nonce: seq<byte>)
    returns (r: Result<ClientShake, Fault>)
    modifies framed`inbound, framed`sends, framed`log
    ensures var sent := framed.delivers(old(framed.sends));
            var greeted := SendEvent(sent, HelloFrame(Greeting(config, nonce)));
            var waited := First(old(framed.inbound));
            && r == ClientOutcome(config, sent, waited)
            && framed.log == old(framed.log) + (if sent then [greeted, Read(waited)] else [greeted])
            && framed.inbound == if sent then Rest(old(framed.inbound)) else old(framed.inbound)
    ensures framed.sends == old(framed.sends) + 1
  {
    var sent := framed.Send(HelloFrame(Hello(config.major, config.minor, config.version, nonce)));
    if !sent {
      return Err(SendFailed);
    }
    var next := framed.Recv();
    var sh: ServerHello;
    match next {
      case None =>
        return Err(DeadlinePassed);
      case Some(Failed(error)) =>
        return Err(ReadFailed(error));
      case Some(Ended) =>
        return Err(StreamEnded);
      case Some(Arrived(ServerHelloFrame(hello))) =>
        sh := hello;
      case Some(Arrived(other)) =>
        return Err(UnexpectedFrame(FrameName(other)));
    }
    if !sh.accepted {
      return Err(Rejected(sh.reject));
    }
    if sh.major != config.major {
      return Err(VersionMismatch(config.major, sh.major));
    }
    return Ok(ClientShake(sh, sh.minor));
  }

  /** And so for the client. */
  lemma ClientFaultTellsWhy<Cmd, Reply>(config: ClientConfig, sent: bool, waited: Waited<Cmd, Reply>)
    ensures var r := ClientOutcome(config, sent, waited);
            var frame := if waited.Some? && waited.value.Arrived? then Some(waited.value.frame) else None;
            && (r == Err(SendFailed) <==> !sent)
            && (r == Err(DeadlinePassed) <==> sent && waited == None)
            && (r == Err(StreamEnded) <==> sent && waited == Some(Ended))
            && (forall error :: r == Err(ReadFailed(error)) <==> sent && waited == Some(Failed(error)))
            && (r == Err(UnexpectedFrame("Hello")) <==> sent && frame.Some? && frame.value.HelloFrame?)
            && (r == Err(UnexpectedFrame("Request")) <==> sent && frame.Some? && frame.value.Request?)
            && (r == Err(UnexpectedFrame("Response")) <==> sent && frame.Some? && frame.value.Response?)
            && (forall reject :: r == Err(Rejected(reject)) <==>
                  sent && frame.Some? && frame.value.ServerHelloFrame? && !frame.value.serverHello.accepted &&
                  reject == frame.value.serverHello.reject)
            && (r.Err? && r.error.VersionMismatch? <==>
                  sent && frame.Some? && frame.value.ServerHelloFrame? && frame.value.serverHello.accepted &&
                  frame.value.serverHello.major != config.major)
            && (r.Ok? <==>
                  sent && frame.Some? && frame.value.ServerHelloFrame? && frame.value.serverHello.accepted &&
                  frame.value.serverHello.major == config.major)
            && (r.Ok? ==> r.value.serverHello == frame.value.serverHello && r.value.minor == frame.value.serverHello.minor)
  {
    Apart();
  }

  // The two halves composed.

  /** What the transport does to one frame: hands it over, or shows the reader
      something that is not a frame at all. */
  datatype Passage = Through | Dropped(deadline: bool, error: Option<RecvError>)

  function Carried<Cmd, Reply>(frame: Frame<Cmd, Reply>, passage: Passage): Waited<Cmd, Reply> {
    match passage
    case Through => Some(Arrived(frame))
    case Dropped(deadline, error) =>
      if deadline then None else if error.Some? then Some(Failed(error.value)) else Some(Ended)
  }

  /** A passage is what the framed wire makes of one frame: the whole of it goes
      through, and any part of it shows the reader no frame. */
  lemma WireIsAPassage<Cmd(!new), Reply(!new)>(
      codec: Codec<Frame<Cmd, Reply>>, frame: Frame<Cmd, Reply>, kept: nat, ending: Ending, keepsHeader: bool)
    returns (passage: Passage)
    requires Faithful(codec) && |codec.encode(frame)| <= MAX_FRAME_BYTES && kept <= |Wire(codec.encode(frame))|
    ensures Carried(frame, passage) == Some(Decoded(codec, Next(Wire(codec.encode(frame))[..kept], ending, keepsHeader)))
    ensures passage.Through? <==> kept == |Wire(codec.encode(frame))|
  {
    var wire := Wire(codec.encode(frame));
    if kept == |wire| {
      SentFrameIsReceived(codec, frame, [], ending, keepsHeader);
      assert wire[..kept] == wire + [];
      passage := Through;
    } else {
      CutFrameIsPartial(codec.encode(frame), kept);
      var seen := Next(wire[..kept], ending, keepsHeader);
      passage := Dropped(false, if seen.Ended? then None else Some(seen.error));
    }
  }

  datatype Exchange = Exchange(
    client: ClientConfig, clientNonce: seq<byte>, clientSent: bool, up: Passage,
    server: ServerConfig, serverNonce: seq<byte>, serverSent: bool, down: Passage)
  {
    function HelloSeen<Cmd, Reply>(): Waited<Cmd, Reply> {
      Carried(HelloFrame(Greeting(client, clientNonce)), up)
    }

    function Reply<Cmd, Rep>(): ServerHello {
      Answer<Cmd, Rep>(server, serverNonce, HelloSeen())
    }

    function ServerHolds<Cmd, Rep>(): Result<ServerShake, Fault> {
      ServerOutcome<Cmd, Rep>(server, HelloSeen(), serverSent)
    }

    function ClientHolds<Cmd, Rep>(): Result<ClientShake, Fault> {
      ClientOutcome<Cmd, Rep>(client, clientSent, Carried(ServerHelloFrame(Reply<Cmd, Rep>()), down))
    }
  }

  /** A client that holds a session agrees with its server on everything. */
  lemma HalvesAgree<Cmd, Rep>(x: Exchange)
    requires x.ClientHolds<Cmd, Rep>().Ok?
    ensures x.client.major == x.server.major
    ensures x.Reply<Cmd, Rep>().accepted
    ensures x.ClientHolds<Cmd, Rep>().value.minor == Min(x.client.minor, x.server.minor)
    ensures x.serverSent ==>
              x.ServerHolds<Cmd, Rep>() ==
              Ok(ServerShake(true, x.ClientHolds<Cmd, Rep>().value.minor,
                             Hello(x.client.major, x.client.minor, x.client.version, x.clientNonce)))
    ensures var heard := x.ClientHolds<Cmd, Rep>().value.serverHello;
            heard.version == x.server.version && heard.nonce == x.serverNonce && heard.peer == x.server.peer
  {
  }

  /** With the same major and both frames through, both hold a session; with
      different majors the client never does. */
  lemma SessionIffSameMajorAndBothThrough<Cmd, Rep>(x: Exchange)
    ensures x.ClientHolds<Cmd, Rep>().Ok? <==>
            x.clientSent && x.up.Through? && x.down.Through? && x.client.major == x.server.major
  {
    var seen := x.HelloSeen<Cmd, Rep>();
    if x.up.Dropped? {
      assert HelloOf(seen).Err?;
    }
  }

  lemma DifferentMajorsAreRefused<Cmd, Rep>(x: Exchange)
    requires x.client.major != x.server.major
    ensures !x.Reply<Cmd, Rep>().accepted && !x.ClientHolds<Cmd, Rep>().Ok?
    ensures x.ServerHolds<Cmd, Rep>().Ok? ==> !x.ServerHolds<Cmd, Rep>().value.accepted
    ensures x.clientSent && x.up.Through? && x.down.Through? ==>
              && x.ClientHolds<Cmd, Rep>() == Err(Rejected(Some(
                   ErrorBody(VersionUnsupported, MajorUnsupported(x.client.major, x.server.major), false))))
              && x.Reply<Cmd, Rep>().major == x.server.major && x.Reply<Cmd, Rep>().minor == x.server.minor
  {
  }

  /** The client's own version check never fires against this server. */
  lemma VersionMismatchNeedsAnotherServer<Cmd, Rep>(x: Exchange)
    ensures !(x.ClientHolds<Cmd, Rep>().Err? && x.ClientHolds<Cmd, Rep>().error.VersionMismatch?)
  {
    AcceptsExactlyItsMajor(x.server, x.serverNonce, x.HelloSeen<Cmd, Rep>());
  }
}
