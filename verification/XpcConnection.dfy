/** The adapter that turns XPC messages into a byte stream: a sink that the
    system's event handler offers messages to and closes once, and a connection
    that hands their bytes out through reads of any size. */
module XpcConnection {
  import opened Basics
  import Framing

  /** What the system's event handler sees. */
  datatype SystemEvent = Message(data: Option<seq<byte>>) | ConnectionError

  datatype Poll<+T> = Ready(value: T) | Pending

  /** The sink and the connection together: messages queued and not yet taken,
      the unread rest of the message being read, whether the sender is still
      there, and whether the receiver is. */
  datatype State = State(queue: seq<seq<byte>>, pending: seq<byte>, open: bool, receiving: bool) {
    /** The bytes still to be handed out. */
    function Ahead(): seq<byte> {
      pending + Flatten(queue)
    }

    /** Nothing is left and nothing can come. */
    predicate AtEnd() {
      pending == [] && queue == [] && !open
    }

    ghost predicate NoEmptyMessage() {
      forall m :: m in queue ==> m != []
    }
  }

  const FRESH: State := State([], [], true, true)

  // Each operation as a function of the state.

  /** `None` closes the sink. */
  function Offered(s: State, item: Option<seq<byte>>): (State, bool) {
    match item
    case Some(bytes) =>
      if s.open && s.receiving then (s.(queue := s.queue + [bytes]), true) else (s, false)
    case None => (s.(open := false), s.open)
  }

  /** The event handler passes on only messages that carry bytes, and turns an
      error into the closing of the sink. */
  function Routed(s: State, event: SystemEvent): State {
    match event
    case ConnectionError => Offered(s, None).0
    case Message(data) => if data.Some? && data.value != [] then Offered(s, data).0 else s
  }

  function Refilled(s: State): State {
    if s.pending == [] && s.queue != [] then s.(pending := s.queue[0], queue := s.queue[1..]) else s
  }

  function Read(s: State, room: nat): (State, Poll<seq<byte>>) {
    if s.pending == [] && s.queue == [] then
      (s, if s.open then Pending else Ready([]))
    else
      var full := Refilled(s);
      var taken := Min(|full.pending|, room);
      (full.(pending := full.pending[taken..]), Ready(full.pending[..taken]))
  }

  function Received(s: State): (State, Poll<Option<seq<byte>>>) {
    if s.pending != [] then (s.(pending := []), Ready(Some(s.pending)))
    else if s.queue != [] then (s.(queue := s.queue[1..]), Ready(Some(s.queue[0])))
    else (s, if s.open then Pending else Ready(None))
  }

  lemma OneMessageAtMost(write: seq<byte>)
    ensures MessagesOf([write]) == if write == [] then [] else [write]
  {
    assert [write][1..] == [];
  }

  lemma NoMessages()
    ensures MessagesOf([]) == []
  {
  }

  lemma {:induction false} MessagesAppend(a: seq<seq<byte>>, b: seq<seq<byte>>)
    ensures MessagesOf(a + b) == MessagesOf(a) + MessagesOf(b)
  {
    if a == [] {
      assert a + b == b;
    } else {
      assert (a + b)[1..] == a[1..] + b;
      MessagesAppend(a[1..], b);
    }
  }

  // Runs, in any mix of operations.

  datatype Op = Arrive(event: SystemEvent) | ReadSome(room: nat) | TakeMessage | DropReceiver

  function Applied(s: State, op: Op): State {
    match op
    case Arrive(event) => Routed(s, event)
    case ReadSome(room) => Read(s, room).0
    case TakeMessage => Received(s).0
    case DropReceiver => s.(receiving := false)
  }

  /** The bytes an operation hands out. */
  function HandedOut(s: State, op: Op): seq<byte> {
    match op
    case ReadSome(room) => (match Read(s, room).1 case Ready(bytes) => bytes case Pending => [])
    case TakeMessage => (match Received(s).1 case Ready(Some(bytes)) => bytes case _ => [])
    case _ => []
  }

  function Final(s: State, ops: seq<Op>): State
    decreases ops
  {
    if ops == [] then s else Final(Applied(s, ops[0]), ops[1..])
  }

  /** What a run hands out, as the pieces in which it does. */
  function Chunks(s: State, ops: seq<Op>): seq<seq<byte>>
    decreases ops
  {
    if ops == [] then []
    else (if HandedOut(s, ops[0]) == [] then [] else [HandedOut(s, ops[0])]) + Chunks(Applied(s, ops[0]), ops[1..])
  }

  lemma RunUnfolds(s: State, ops: seq<Op>, i: nat)
    requires i < |ops|
    ensures Final(s, ops[i..]) == Final(Applied(s, ops[i]), ops[i + 1..])
    ensures Chunks(s, ops[i..]) ==
            (if HandedOut(s, ops[i]) == [] then [] else [HandedOut(s, ops[i])]) +
            Chunks(Applied(s, ops[i]), ops[i + 1..])
  {
    assert ops[i..][1..] == ops[i + 1..];
  }

  lemma RunEnds(s: State)
    ensures Final(s, []) == s && Chunks(s, []) == []
  {
  }

  class Connection {
    var queue: seq<seq<byte>>
    var pending: seq<byte>
    var open: bool
    var receiving: bool
    var sent: seq<seq<byte>>

    function Now(): State
      reads this
    {
      State(queue, pending, open, receiving)
    }

    constructor ()
      ensures Now() == FRESH && sent == []
    {
      queue, pending, open, receiving, sent := [], [], true, true, [];
    }

    method Offer(item: Option<seq<byte>>) returns (taken: bool)
      modifies this`queue, this`open
      ensures (Now(), taken) == Offered(old(Now()), item)
    {
      match item {
        case Some(bytes) =>
          if !open || !receiving {
            return false;
          }
          queue := queue + [bytes];
          return true;
        case None =>
          taken := open;
          open := false;
      }
    }

    method DeliverBytes(bytes: Option<seq<byte>>)
      modifies this`queue, this`open
      ensures Now() == Offered(old(Now()), bytes).0
    {
      var _ := Offer(bytes);
    }

    method Route(event: SystemEvent)
      modifies this`queue, this`open
      ensures Now() == Routed(old(Now()), event)
    {
      match event {
        case ConnectionError =>
          DeliverBytes(None);
        case Message(data) =>
          if data.Some? && |data.value| > 0 {
            DeliverBytes(data);
          }
      }
    }

    method PollRead(room: nat) returns (r: Poll<seq<byte>>)
      modifies this`queue, this`pending
      ensures (Now(), r) == Read(old(Now()), room)
    {
      if pending == [] {
        if queue == [] {
          if open {
            return Pending;
          }
          return Ready([]);
        }
        pending := queue[0];
        queue := queue[1..];
      }
      var taken := Min(|pending|, room);
      r := Ready(pending[..taken]);
      pending := pending[taken..];
    }

    method Recv() returns (r: Poll<Option<seq<byte>>>)
      modifies this`queue, this`pending
      ensures (Now(), r) == Received(old(Now()))
    {
      if pending != [] {
        r := Ready(Some(pending));
        pending := [];
        return;
      }
      if queue == [] {
        if open {
          return Pending;
        }
        return Ready(None);
      }
      r := Ready(Some(queue[0]));
      queue := queue[1..];
    }

    method DropReceiver()
      modifies this`receiving
      ensures Now() == old(Now()).(receiving := false)
    {
      receiving := false;
    }

    method Perform(op: Op) returns (bytes: seq<byte>)
      modifies this`queue, this`pending, this`open, this`receiving
      ensures Now() == Applied(old(Now()), op) && bytes == HandedOut(old(Now()), op)
    {
      bytes := [];
      match op {
        case Arrive(event) =>
          Route(event);
        case ReadSome(room) =>
          var read := PollRead(room);
          if read.Ready? {
            bytes := read.value;
          }
        case TakeMessage =>
          var received := Recv();
          if received.Ready? && received.value.Some? {
            bytes := received.value.value;
          }
        case DropReceiver =>
          DropReceiver();
      }
    }

    /** A whole run; the pieces of bytes it hands out, in order. */
    method PerformAll(ops: seq<Op>) returns (chunks: seq<seq<byte>>)
      modifies this`queue, this`pending, this`open, this`receiving
      ensures Now() == Final(old(Now()), ops) && chunks == Chunks(old(Now()), ops)
    {
      hide *;
      chunks := [];
      var i := 0;
      while i < |ops|
        invariant 0 <= i <= |ops|
        invariant Final(Now(), ops[i..]) == Final(old(Now()), ops)
        invariant chunks + Chunks(Now(), ops[i..]) == Chunks(old(Now()), ops)
      {
        RunUnfolds(Now(), ops, i);
        ghost var before := chunks;
        var bytes := Perform(ops[i]);
        if bytes != [] {
          chunks := chunks + [bytes];
        }
        i := i + 1;
        assert chunks == before + if bytes == [] then [] else [bytes];
      }
      RunEnds(Now());
      assert ops[i..] == [];
    }

    method PollWrite(bytes: seq<byte>) returns (written: nat)
      modifies this`sent
      ensures written == |bytes| && sent == old(sent) + if bytes == [] then [] else [bytes]
    {
      if bytes != [] {
        sent := sent + [bytes];
      }
      written := |bytes|;
    }

    /** A whole run of writes. */
    method WriteAll(writes: seq<seq<byte>>)
      modifies this`sent
      ensures sent == old(sent) + MessagesOf(writes)
    {
      hide MessagesOf;
      NoMessages();
      assert writes[..0] == [];
      var i := 0;
      while i < |writes|
        invariant 0 <= i <= |writes| && sent == old(sent) + MessagesOf(writes[..i])
      {
        assert writes[..i + 1] == writes[..i] + [writes[i]];
        MessagesAppend(writes[..i], [writes[i]]);
        OneMessageAtMost(writes[i]);
        var _ := PollWrite(writes[i]);
        i := i + 1;
      }
      assert writes[..i] == writes;
    }
  }

  /** The messages a list of writes sends: an empty write sends none. */
  function MessagesOf(writes: seq<seq<byte>>): seq<seq<byte>> {
    if writes == [] then [] else (if writes[0] == [] then [] else [writes[0]]) + MessagesOf(writes[1..])
  }

  /** The bytes an arrival adds to the stream: those of a message that comes
      while both ends are there. */
  function Admitted(s: State, op: Op): seq<byte> {
    if op.Arrive? && op.event.Message? && op.event.data.Some? && s.open && s.receiving then op.event.data.value else []
  }

  function Output(s: State, ops: seq<Op>): seq<byte>
    decreases ops
  {
    if ops == [] then [] else HandedOut(s, ops[0]) + Output(Applied(s, ops[0]), ops[1..])
  }

  function Input(s: State, ops: seq<Op>): seq<byte>
    decreases ops
  {
    if ops == [] then [] else Admitted(s, ops[0]) + Input(Applied(s, ops[0]), ops[1..])
  }

  lemma ArrivalConserves(s: State, event: SystemEvent)
    ensures Routed(s, event).Ahead() == s.Ahead() + Admitted(s, Arrive(event))
  {
    if event.Message? && event.data.Some? {
      var bytes := event.data.value;
      FlattenAppend(s.queue, [bytes]);
      assert Flatten([bytes]) == bytes;
      assert s.pending + (Flatten(s.queue) + bytes) == s.Ahead() + bytes;
    }
  }

  lemma RefillConserves(s: State)
    ensures Refilled(s).Ahead() == s.Ahead()
  {
  }

  lemma ReadConserves(s: State, room: nat)
    ensures HandedOut(s, ReadSome(room)) + Read(s, room).0.Ahead() == s.Ahead()
  {
    if s.pending != [] || s.queue != [] {
      var full := Refilled(s);
      RefillConserves(s);
      var taken := Min(|full.pending|, room);
      var rest := Flatten(full.queue);
      assert full.pending[..taken] + (full.pending[taken..] + rest) == full.pending + rest;
    }
  }

  lemma StepConserves(s: State, op: Op)
    ensures HandedOut(s, op) + Applied(s, op).Ahead() == s.Ahead() + Admitted(s, op)
  {
    hide Flatten;
    match op {
      case Arrive(event) =>
        ArrivalConserves(s, event);
      case ReadSome(room) =>
        ReadConserves(s, room);
      case TakeMessage =>
        RefillConserves(s);
      case DropReceiver =>
    }
  }

  /** Nothing is lost, duplicated or reordered: what was handed out, followed by
      what is still ahead, is what was ahead at first followed by what came. */
  lemma {:induction false} StreamIsConserved(s: State, ops: seq<Op>)
    ensures Output(s, ops) + Final(s, ops).Ahead() == s.Ahead() + Input(s, ops)
    decreases ops
  {
    hide Applied, HandedOut, Admitted, Flatten;
    if ops != [] {
      var next := Applied(s, ops[0]);
      StepConserves(s, ops[0]);
      StreamIsConserved(next, ops[1..]);
      StepAndRest(HandedOut(s, ops[0]), Output(next, ops[1..]), Final(next, ops[1..]).Ahead(),
                  s.Ahead(), Admitted(s, ops[0]), Input(next, ops[1..]), next.Ahead());
    }
  }

  lemma OutputIsAPrefix(ops: seq<Op>)
    ensures Output(FRESH, ops) <= Input(FRESH, ops)
  {
    StreamIsConserved(FRESH, ops);
    assert FRESH.Ahead() + Input(FRESH, ops) == Input(FRESH, ops);
  }

  // One side's writes to the other side's reads.

  function MessageIn(op: Op): Option<seq<byte>> {
    if op.Arrive? && op.event.Message? then op.event.data else None
  }

  predicate Closes(op: Op) {
    op.Arrive? && op.event.ConnectionError?
  }

  /** The reader stays, and no message comes once the connection has ended. */
  predicate Orderly(ops: seq<Op>) {
    ops == [] ||
    (!ops[0].DropReceiver? && Orderly(ops[1..]) && (Closes(ops[0]) ==> Picked(ops[1..], MessageIn) == []))
  }

  lemma {:induction false} InputIsTheMessages(s: State, ops: seq<Op>)
    requires Orderly(ops) && s.open && s.receiving
    ensures Input(s, ops) == Flatten(Picked(ops, MessageIn))
    decreases ops
  {
    if ops != [] {
      var op := ops[0];
      var next := Applied(s, op);
      FlattenAppend(OneOf(MessageIn(op)), Picked(ops[1..], MessageIn));
      FlattenOneOf(MessageIn(op));
      if Closes(op) {
        NothingArrivesAfterClose(next, ops[1..]);
      } else {
        InputIsTheMessages(next, ops[1..]);
      }
    }
  }

  lemma FlattenOneOf(message: Option<seq<byte>>)
    ensures Flatten(OneOf(message)) == match message case None => [] case Some(bytes) => bytes
  {
    if message.Some? {
      assert [message.value][1..] == [];
    }
  }

  lemma {:induction false} MessagesCarryTheWrites(writes: seq<seq<byte>>)
    ensures Flatten(MessagesOf(writes)) == Flatten(writes)
  {
    if writes != [] {
      MessagesCarryTheWrites(writes[1..]);
      var first := if writes[0] == [] then None else Some(writes[0]);
      FlattenOneOf(first);
      FlattenAppend(OneOf(first), MessagesOf(writes[1..]));
    }
  }

  /** What one side writes, in pieces of any size, the other reads, in pieces of
      any size, whether or not the writer has gone since: the bytes read and the
      bytes still ahead are the bytes written, and a reader that has come to the
      end has read them all. */
  lemma WritesAreRead(writes: seq<seq<byte>>, ops: seq<Op>)
    requires Orderly(ops) && Picked(ops, MessageIn) == MessagesOf(writes)
    ensures Output(FRESH, ops) + Final(FRESH, ops).Ahead() == Flatten(writes)
    ensures Final(FRESH, ops).AtEnd() ==> Output(FRESH, ops) == Flatten(writes)
  {
    InputIsTheMessages(FRESH, ops);
    MessagesCarryTheWrites(writes);
    StreamIsConserved(FRESH, ops);
    assert FRESH.Ahead() + Input(FRESH, ops) == Input(FRESH, ops);
  }

  lemma {:induction false} ChunksAreTheOutput(s: State, ops: seq<Op>)
    ensures Flatten(Chunks(s, ops)) == Output(s, ops)
    decreases ops
  {
    hide Applied, HandedOut;
    if ops != [] {
      var bytes := HandedOut(s, ops[0]);
      var next := Applied(s, ops[0]);
      var first := if bytes == [] then None else Some(bytes);
      ChunksAreTheOutput(next, ops[1..]);
      FlattenOneOf(first);
      FlattenAppend(OneOf(first), Chunks(next, ops[1..]));
    }
  }

  /** Frames cross the adapter: one connection writes them in pieces of any size
      and goes, the messages it sent arrive at another, which is read in pieces of
      any size until the end, and a framed receiver over those pieces yields the
      same frames in the same order, and then the end. */
  method WriteThenReceive<F>(
      codec: Framing.Codec<F>, keepsHeader: bool, writes: seq<seq<byte>>, ops: seq<Op>,
      ghost payloads: seq<seq<byte>>)
    returns (sent: seq<seq<byte>>, rs: seq<Framing.Received<seq<byte>>>)
    requires Framing.Fit(payloads) && Flatten(writes) == Framing.Wires(payloads)
    requires Orderly(ops) && Picked(ops, MessageIn) == MessagesOf(writes) && Final(FRESH, ops).AtEnd()
    ensures sent == Picked(ops, MessageIn)
    ensures rs == Framing.Arrivals(payloads) + [Framing.Ended]
  {
    hide Orderly, Picked, Final, MessagesOf;
    var writer := new Connection();
    writer.WriteAll(writes);
    sent := writer.sent;
    var reader := new Connection();
    var chunks := reader.PerformAll(ops);
    WritesAreRead(writes, ops);
    ChunksAreTheOutput(FRESH, ops);
    assert Framing.Wires(payloads) + [] == Framing.Wires(payloads);
    rs := Framing.ReceiveInChunks(codec, keepsHeader, chunks, Framing.Closed, payloads, []);
  }

  /** Such a run exists for any writes: it reads each message as it comes, and the
      end after the last. */
  lemma SomeRunReachesTheEnd(writes: seq<seq<byte>>) returns (ops: seq<Op>)
    ensures Orderly(ops) && Picked(ops, MessageIn) == MessagesOf(writes) && Final(FRESH, ops).AtEnd()
  {
    ops := MessageByMessage(MessagesOf(writes));
    MessagesAreNotEmpty(writes);
    DrainedMessageByMessage(MessagesOf(writes));
  }

  function MessageByMessage(messages: seq<seq<byte>>): seq<Op> {
    if messages == [] then [Arrive(ConnectionError)]
    else [Arrive(Message(Some(messages[0]))), TakeMessage] + MessageByMessage(messages[1..])
  }

  lemma {:induction false} MessagesAreNotEmpty(writes: seq<seq<byte>>)
    ensures forall m :: m in MessagesOf(writes) ==> m != []
  {
    if writes != [] {
      MessagesAreNotEmpty(writes[1..]);
    }
  }

  lemma OneMoreMessage(message: seq<byte>, rest: seq<Op>)
    requires message != [] && Orderly(rest)
    ensures var ops := [Arrive(Message(Some(message))), TakeMessage] + rest;
            Orderly(ops) && Picked(ops, MessageIn) == [message] + Picked(rest, MessageIn)
            && Final(FRESH, ops) == Final(FRESH, rest)
  {
    var ops := [Arrive(Message(Some(message))), TakeMessage] + rest;
    var taking := [TakeMessage] + rest;
    assert ops[1..] == taking && taking[1..] == rest;
    assert Orderly(taking) && Picked(taking, MessageIn) == Picked(rest, MessageIn);
    var arrived := Applied(FRESH, ops[0]);
    assert arrived.queue == [message];
    assert Applied(arrived, TakeMessage) == FRESH;
    assert Final(arrived, taking) == Final(FRESH, rest);
  }

  lemma JustTheEnd()
    ensures var ops := [Arrive(ConnectionError)];
            Orderly(ops) && Picked(ops, MessageIn) == [] && Final(FRESH, ops).AtEnd()
  {
    assert [Arrive(ConnectionError)][1..] == [];
  }

  lemma {:induction false} DrainedMessageByMessage(messages: seq<seq<byte>>)
    requires forall m :: m in messages ==> m != []
    ensures var ops := MessageByMessage(messages);
            Orderly(ops) && Picked(ops, MessageIn) == messages && Final(FRESH, ops).AtEnd()
  {
    hide Orderly, Picked, Final;
    if messages == [] {
      JustTheEnd();
    } else {
      assert messages[0] in messages && forall m :: m in messages[1..] ==> m in messages;
      DrainedMessageByMessage(messages[1..]);
      OneMoreMessage(messages[0], MessageByMessage(messages[1..]));
    }
  }

  /** Once the sink is closed it stays closed and nothing more comes in. */
  lemma {:induction false} NothingArrivesAfterClose(s: State, ops: seq<Op>)
    requires !s.open
    ensures !Final(s, ops).open && Input(s, ops) == []
    decreases ops
  {
    if ops != [] {
      NothingArrivesAfterClose(Applied(s, ops[0]), ops[1..]);
    }
  }

  /** A sink closes once: only the first closing offer says that it closed. */
  lemma ClosesOnce(s: State)
    ensures Offered(Offered(s, None).0, None) == (Offered(s, None).0, false)
    ensures Offered(s, None).1 <==> s.open
  {
  }

  lemma {:induction false} NoEmptyMessageIsEverQueued(s: State, ops: seq<Op>)
    requires s.NoEmptyMessage()
    ensures Final(s, ops).NoEmptyMessage()
    decreases ops
  {
    if ops != [] {
      assert Applied(s, ops[0]).NoEmptyMessage() by {
        assert s.queue != [] ==> forall m :: m in s.queue[1..] ==> m in s.queue;
      }
      NoEmptyMessageIsEverQueued(Applied(s, ops[0]), ops[1..]);
    }
  }

  /** After any run, a read that had room and yields no byte means the end. */
  lemma EmptyReadMeansTheEnd(ops: seq<Op>, room: nat)
    requires room > 0
    ensures var s := Final(FRESH, ops); Read(s, room).1 == Ready([]) <==> s.AtEnd()
  {
    NoEmptyMessageIsEverQueued(FRESH, ops);
    var s := Final(FRESH, ops);
    if s.queue != [] {
      assert s.queue[0] in s.queue;
    }
  }

  /** What a read gives, after any run: it waits exactly while nothing is ahead and
      the sink is open; otherwise it gives the first bytes ahead, no more than its
      room and no more than the message at hand, but as many as both allow. */
  lemma ReadGivesTheNextBytes(ops: seq<Op>, room: nat)
    ensures var s := Final(FRESH, ops);
            var r := Read(s, room).1;
            && (r == Pending <==> s.Ahead() == [] && s.open)
            && (r.Ready? ==> |r.value| <= room && r.value <= s.Ahead())
            && (r.Ready? && s.Ahead() != [] ==>
                  |r.value| == Min(room, if s.pending != [] then |s.pending| else |s.queue[0]|))
  {
    NoEmptyMessageIsEverQueued(FRESH, ops);
    AheadIsWhatIsQueued(Final(FRESH, ops));
  }

  lemma AheadIsWhatIsQueued(s: State)
    requires s.NoEmptyMessage()
    ensures s.Ahead() == [] <==> s.pending == [] && s.queue == []
    ensures s.queue != [] ==> s.queue[0] != [] && s.pending <= s.Ahead()
    ensures s.pending == [] && s.queue != [] ==> s.queue[0] <= s.Ahead()
  {
    if s.queue != [] {
      assert s.queue[0] in s.queue;
    }
  }

  /** What a receive gives, after any run: the end exactly when nothing is left and
      nothing can come, nothing yet exactly while nothing is ahead and the sink is
      open, and otherwise bytes: the first ones ahead. */
  lemma ReceiveGivesTheNextMessage(ops: seq<Op>)
    ensures var s := Final(FRESH, ops);
            var r := Received(s).1;
            && (r == Ready(None) <==> s.AtEnd())
            && (r == Pending <==> s.Ahead() == [] && s.open)
            && (r.Ready? && r.value.Some? ==> r.value.value != [] && r.value.value <= s.Ahead())
            && (r.Ready? && r.value.Some? <==> s.Ahead() != [])
  {
    NoEmptyMessageIsEverQueued(FRESH, ops);
    AheadIsWhatIsQueued(Final(FRESH, ops));
  }

  /** The answer to an offer of bytes says whether they joined the stream, which
      they do while both ends are there. */
  lemma OfferTellsWhetherItJoined(s: State, bytes: seq<byte>)
    ensures var (t, taken) := Offered(s, Some(bytes));
            && (taken <==> s.open && s.receiving)
            && t.Ahead() == s.Ahead() + (if taken then bytes else []) && t.open == s.open
  {
    FlattenAppend(s.queue, [bytes]);
    FlattenOneOf(Some(bytes));
    assert s.pending + (Flatten(s.queue) + bytes) == s.Ahead() + bytes;
  }

  /** It would not, if an empty message could be queued. */
  lemma AnEmptyMessageWouldLookLikeTheEnd(message: seq<byte>, room: nat)
    ensures var s := State([[], message], [], true, true);
            Read(s, room).1 == Ready([]) && !s.AtEnd()
  {
  }
}
