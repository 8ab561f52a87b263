/** The primary's side of forwarding: a hidden window that queues the launches
    sent to it until the application takes them. */
module GuardWindow {
  import opened Basics
  import opened LaunchPayload

  class Window {
    var open: bool
    var queue: seq<Text>

    constructor ()
      ensures !open && queue == []
    {
      open, queue := false, [];
    }

    method Enqueue(data: Text)
      modifies this`queue
      ensures queue == old(queue) + [WithoutTerminator(data)]
    {
      var payload := data;
      if payload != [] && payload[|payload| - 1] == SEPARATOR {
        payload := payload[..|payload| - 1];
      }
      queue := queue + [payload];
    }

    /** The handler of a copied message; `data` is absent when the message or
        its memory is null. */
    method CopyData(data: Option<Text>, bytes: u32)
      requires data.Some? ==> bytes / 2 <= |data.value|
      modifies this`queue
      ensures queue == old(queue) +
                       if data.Some? && bytes != 0 then [WithoutTerminator(data.value[..bytes / 2])] else []
    {
      if data.Some? && bytes != 0 {
        Enqueue(data.value[..bytes / 2]);
      }
    }

    method TakeForwardedLaunch() returns (payload: Option<Text>)
      modifies this`queue
      ensures (queue, payload) == Took(old(queue))
    {
      if queue == [] {
        return None;
      }
      payload := Some(queue[0]);
      queue := queue[1..];
    }

    /** `shows` says whether a new window could be shown in time. */
    method Open(shows: bool) returns (ok: bool)
      modifies this
      ensures ok == open == (old(open) || shows)
      ensures queue == if ok then old(queue) else []
    {
      if open {
        return true;
      }
      if !shows {
        Close();
        return false;
      }
      open := true;
      return true;
    }

    method Close()
      modifies this
      ensures !open && queue == []
    {
      open := false;
      queue := [];
    }
  }

  function Took(queue: seq<Text>): (seq<Text>, Option<Text>) {
    if queue == [] then ([], None) else (queue[1..], Some(queue[0]))
  }

  // Whole runs of one window.

  /** A message reaches the window only while it is open. */
  datatype Op = Forwarded(payload: Text) | Take | Opened(shows: bool) | Closed

  datatype State = State(open: bool, queue: seq<Text>)

  /** A payload that left the queue: into the application's hands, or with the
      queue that was cleared. */
  datatype Departure = Delivered(payload: Text) | Dropped(payload: Text)

  /** A payload that fits the 32-bit size of a message is queued as it was sent. */
  function Applied(s: State, op: Op): State {
    match op
    case Forwarded(payload) =>
      if s.open && MessageBytes(payload) != 0 then s.(queue := s.queue + [WithoutTerminator(Message(payload))]) else s
    case Take => s.(queue := Took(s.queue).0)
    case Opened(shows) => if s.open || shows then s.(open := true) else State(false, [])
    case Closed => State(false, [])
  }

  function AllDropped(payloads: seq<Text>): (d: seq<Departure>)
    ensures |d| == |payloads| && forall i :: 0 <= i < |d| ==> d[i] == Dropped(payloads[i])
  {
    if payloads == [] then [] else [Dropped(payloads[0])] + AllDropped(payloads[1..])
  }

  function DeparturesOf(s: State, op: Op): seq<Departure> {
    match op
    case Forwarded(_) => []
    case Take => if s.queue == [] then [] else [Delivered(s.queue[0])]
    case Opened(shows) => if s.open || shows then [] else AllDropped(s.queue)
    case Closed => AllDropped(s.queue)
  }

  /** What the sender is told was delivered to the window. */
  function SentBy(s: State, op: Op): seq<Text> {
    if op.Forwarded? && s.open then [op.payload] else []
  }

  function Final(s: State, ops: seq<Op>): State
    decreases ops
  {
    if ops == [] then s else Final(Applied(s, ops[0]), ops[1..])
  }

  function Departures(s: State, ops: seq<Op>): seq<Departure>
    decreases ops
  {
    if ops == [] then [] else DeparturesOf(s, ops[0]) + Departures(Applied(s, ops[0]), ops[1..])
  }

  function Sent(s: State, ops: seq<Op>): seq<Text>
    decreases ops
  {
    if ops == [] then [] else SentBy(s, ops[0]) + Sent(Applied(s, ops[0]), ops[1..])
  }

  function Payloads(departures: seq<Departure>): (p: seq<Text>)
    ensures |p| == |departures| && forall i :: 0 <= i < |p| ==> p[i] == departures[i].payload
  {
    if departures == [] then [] else [departures[0].payload] + Payloads(departures[1..])
  }

  lemma PayloadsAppend(a: seq<Departure>, b: seq<Departure>)
    ensures Payloads(a + b) == Payloads(a) + Payloads(b)
  {
  }

  /** Every message carries a payload whose size fits 32 bits. */
  ghost predicate Fit(ops: seq<Op>) {
    forall op :: op in ops && op.Forwarded? ==> |op.payload| + 1 < 0x8000_0000
  }

  lemma StepConserves(s: State, op: Op)
    requires op.Forwarded? ==> |op.payload| + 1 < 0x8000_0000
    ensures Payloads(DeparturesOf(s, op)) + Applied(s, op).queue == s.queue + SentBy(s, op)
  {
    if op.Forwarded? {
      hide Message, MessageBytes, WithoutTerminator;
      MessageCarriesThePayload(op.payload);
    } else {
      assert Payloads(AllDropped(s.queue)) == s.queue;
    }
  }

  /** First in, first out, nothing lost and nothing twice: the payloads that left,
      delivered or dropped, then those still queued, are those queued at first,
      then those sent. */
  lemma {:induction false} QueueIsConserved(s: State, ops: seq<Op>)
    requires Fit(ops)
    ensures Payloads(Departures(s, ops)) + Final(s, ops).queue == s.queue + Sent(s, ops)
    decreases ops
  {
    hide DeparturesOf, Applied, SentBy, Payloads;
    if ops == [] {
      PayloadsAppend([], []);
    } else {
      var next := Applied(s, ops[0]);
      StepConserves(s, ops[0]);
      QueueIsConserved(next, ops[1..]);
      PayloadsAppend(DeparturesOf(s, ops[0]), Departures(next, ops[1..]));
      StepAndRest(Payloads(DeparturesOf(s, ops[0])), Payloads(Departures(next, ops[1..])), Final(next, ops[1..]).queue,
                  s.queue, SentBy(s, ops[0]), Sent(next, ops[1..]), next.queue);
    }
  }

  /** No step of the run closes the window. */
  ghost predicate StaysOpen(ops: seq<Op>) {
    forall op :: op in ops ==> !op.Closed?
  }

  /** Nothing is dropped while an open window is not closed; a closing drops
      exactly what is queued. */
  lemma {:induction false} OnlyClosingDrops(s: State, ops: seq<Op>)
    requires s.open && StaysOpen(ops)
    ensures Final(s, ops).open && forall d :: d in Departures(s, ops) ==> d.Delivered?
    ensures Departures(s, ops + [Closed]) == Departures(s, ops) + AllDropped(Final(s, ops).queue)
    decreases ops
  {
    hide AllDropped;
    if ops == [] {
      assert (ops + [Closed])[1..] == [];
    } else {
      assert ops[0] in ops && StaysOpen(ops[1..]);
      assert (ops + [Closed])[1..] == ops[1..] + [Closed];
      OnlyClosingDrops(Applied(s, ops[0]), ops[1..]);
    }
  }

  // Launches.

  function EncodedAll(launches: seq<Launch>): seq<Text> {
    if launches == [] then [] else [Encoded(launches[0])] + EncodedAll(launches[1..])
  }

  function DecodedAll(payloads: seq<Text>): seq<Launch> {
    if payloads == [] then [] else [Decode(payloads[0])] + DecodedAll(payloads[1..])
  }

  /** What the launches sent arrive as. */
  function ArrivingAll(launches: seq<Launch>): seq<Launch> {
    if launches == [] then [] else [Arriving(launches[0])] + ArrivingAll(launches[1..])
  }

  /** What the application took, in order. */
  function Taken(s: State, ops: seq<Op>): seq<Text>
    decreases ops
  {
    if ops == [] then []
    else (if ops[0].Take? then OneOf(Took(s.queue).1) else []) + Taken(Applied(s, ops[0]), ops[1..])
  }

  /** Those of a list whose departure was into the application's hands. */
  function Kept<T>(list: seq<T>, departures: seq<Departure>): seq<T>
    requires |list| == |departures|
  {
    if list == [] then [] else (if departures[0].Delivered? then [list[0]] else []) + Kept(list[1..], departures[1..])
  }

  lemma {:induction false} KeptAppend(a: seq<Departure>, b: seq<Departure>)
    ensures Kept(Payloads(a + b), a + b) == Kept(Payloads(a), a) + Kept(Payloads(b), b)
  {
    hide Payloads;
    if a == [] {
      assert a + b == b;
      PayloadsAppend([], []);
      assert Payloads(a) == [];
    } else {
      assert (a + b)[1..] == a[1..] + b;
      assert Payloads(a + b)[1..] == Payloads(a[1..] + b) && Payloads(a)[1..] == Payloads(a[1..]);
      KeptAppend(a[1..], b);
    }
  }

  lemma {:induction false} DroppedAreNotKept(payloads: seq<Text>)
    ensures Kept(Payloads(AllDropped(payloads)), AllDropped(payloads)) == []
  {
    if payloads != [] {
      DroppedAreNotKept(payloads[1..]);
      assert AllDropped(payloads)[1..] == AllDropped(payloads[1..]);
      assert Payloads(AllDropped(payloads))[1..] == Payloads(AllDropped(payloads[1..]));
    }
  }

  lemma StepKeeps(s: State, op: Op)
    ensures Kept(Payloads(DeparturesOf(s, op)), DeparturesOf(s, op)) ==
            if op.Take? then OneOf(Took(s.queue).1) else []
  {
    DroppedAreNotKept(s.queue);
    if op.Take? && s.queue != [] {
      var d := [Delivered(s.queue[0])];
      assert d[1..] == [] && Payloads(d) == [s.queue[0]] && Payloads(d)[1..] == [];
      assert Kept(Payloads(d)[1..], d[1..]) == [];
    }
  }

  /** The payloads that departed as delivered are those the application took. */
  lemma {:induction false} TakenAreTheDelivered(s: State, ops: seq<Op>)
    ensures Taken(s, ops) == Kept(Payloads(Departures(s, ops)), Departures(s, ops))
    decreases ops
  {
    hide Payloads, DeparturesOf, Applied, Took;
    if ops != [] {
      StepKeeps(s, ops[0]);
      TakenAreTheDelivered(Applied(s, ops[0]), ops[1..]);
      KeptAppend(DeparturesOf(s, ops[0]), Departures(Applied(s, ops[0]), ops[1..]));
    }
  }

  lemma {:induction false} PrefixDecodes(payloads: seq<Text>, launches: seq<Launch>)
    requires payloads <= EncodedAll(launches) && forall launch :: launch in launches ==> Sendable(launch)
    ensures |payloads| <= |launches| && DecodedAll(payloads) == ArrivingAll(launches[..|payloads|])
  {
    hide Decode, Encoded, Arriving;
    if payloads != [] {
      assert launches[0] in launches && forall launch :: launch in launches[1..] ==> launch in launches;
      MessageOfALaunch(launches[0]);
      LaunchRoundTrip(launches[0]);
      PrefixDecodes(payloads[1..], launches[1..]);
      assert launches[..|payloads|][1..] == launches[1..][..|payloads[1..]|];
    }
  }

  lemma MessageOfALaunch(launch: Launch)
    requires Sendable(launch)
    ensures WithoutTerminator(Message(Encoded(launch))) == Encoded(launch)
  {
    hide Encoded;
    MessageCarriesThePayload(Encoded(launch));
  }

  lemma {:induction false} DecodingKeeps(payloads: seq<Text>, departures: seq<Departure>)
    requires |payloads| == |departures|
    ensures |DecodedAll(payloads)| == |payloads|
    ensures DecodedAll(Kept(payloads, departures)) == Kept(DecodedAll(payloads), departures)
  {
    hide Decode;
    if payloads != [] {
      DecodingKeeps(payloads[1..], departures[1..]);
      var rest := Kept(payloads[1..], departures[1..]);
      assert ([payloads[0]] + rest)[1..] == rest && [] + rest == rest;
      assert DecodedAll([payloads[0]] + rest) == [Decode(payloads[0])] + DecodedAll(rest);
      assert DecodedAll(payloads)[1..] == DecodedAll(payloads[1..]);
    }
  }

  lemma {:induction false} ArrivingLength(launches: seq<Launch>)
    ensures |ArrivingAll(launches)| == |EncodedAll(launches)| == |launches|
  {
    if launches != [] {
      ArrivingLength(launches[1..]);
    }
  }

  lemma {:induction false} AllDeliveredAreKept<T>(list: seq<T>, departures: seq<Departure>)
    requires |list| == |departures| && forall d :: d in departures ==> d.Delivered?
    ensures Kept(list, departures) == list
  {
    if list != [] {
      AllDeliveredAreKept(list[1..], departures[1..]);
    }
  }

  /** From one process's launches to the other's, whatever the interleaving of
      arrivals, takes, openings and closings. The launches that left the queue are
      the first ones sent, in order, each as what it arrives as; the application
      took those of them that were delivered, which is all of them unless the
      window closed; the others sent are still queued. */
  lemma LaunchesArriveInOrder(launches: seq<Launch>, ops: seq<Op>)
    requires Sent(State(true, []), ops) == EncodedAll(launches) && Fit(ops)
    requires forall launch :: launch in launches ==> Sendable(launch)
    ensures var s := State(true, []);
            var departures := Departures(s, ops);
            var n := |departures|;
            && n + |Final(s, ops).queue| == |launches| == |ArrivingAll(launches)|
            && |ArrivingAll(launches[..n])| == n
            && DecodedAll(Payloads(departures)) == ArrivingAll(launches[..n])
            && DecodedAll(Taken(s, ops)) == Kept(ArrivingAll(launches[..n]), departures)
            && (StaysOpen(ops) ==> DecodedAll(Taken(s, ops)) == ArrivingAll(launches[..n]))
  {
    hide Sendable, Payloads, ArrivingAll, DecodedAll, EncodedAll, Kept, Applied, DeparturesOf, Taken;
    var s := State(true, []);
    var departures := Departures(s, ops);
    QueueIsConserved(s, ops);
    assert [] + Sent(s, ops) == Sent(s, ops);
    PrefixDecodes(Payloads(departures), launches);
    ArrivingLength(launches);
    ArrivingLength(launches[..|departures|]);
    TakenAreTheDelivered(s, ops);
    DecodingKeeps(Payloads(departures), departures);
    if StaysOpen(ops) {
      OnlyClosingDrops(s, ops);
      AllDeliveredAreKept(ArrivingAll(launches[..|departures|]), departures);
    }
  }
}
