/** Length-delimited frames with a 64 KiB cap. The receiver is a buffer filled
    by reads of any size; what it yields is proved to depend only on the bytes,
    never on how the reads cut them. */
module Framing {
  import opened Basics

  const MAX_FRAME_BYTES: nat := 64 * 1024
  const HEADER_BYTES: nat := 4

  datatype RecvError = TooLarge | Malformed | Io

  datatype Received<+F> = Arrived(frame: F) | Ended | Failed(error: RecvError)

  datatype SendError = Oversize(size: nat, limit: nat) | Transport

  /** How frames become bytes; the serialisation library is a parameter. */
  datatype Codec<!F> = Codec(encode: F -> seq<byte>, decode: seq<byte> -> Option<F>)

  ghost predicate Faithful<F(!new)>(codec: Codec<F>) {
    forall f :: codec.decode(codec.encode(f)) == Some(f)
  }

  function Wire(payload: seq<byte>): (w: seq<byte>)
    requires |payload| <= MAX_FRAME_BYTES
    ensures |w| == HEADER_BYTES + |payload|
  {
    BigEndian(|payload|) + payload
  }

  // What a stream of bytes holds.

  datatype Head = Whole(payload: seq<byte>, rest: seq<byte>) | Excessive | Partial

  function HeadOf(stream: seq<byte>): (h: Head)
    ensures h.Whole? ==> |h.rest| < |stream|
  {
    if |stream| < HEADER_BYTES then Partial else
    var length := Word(stream[..HEADER_BYTES]);
    if length > MAX_FRAME_BYTES then Excessive
    else if |stream| < HEADER_BYTES + length then Partial
    else Whole(stream[HEADER_BYTES..HEADER_BYTES + length], stream[HEADER_BYTES + length..])
  }

  /** How the bytes stop coming: the peer closed, or the transport broke. */
  datatype Ending = Closed | Broken

  /** What the receiver reports for a stream. Whether the framing library still
      counts a header it has already read as left-over bytes when the peer
      closes is `keepsHeader`. */
  function Next(stream: seq<byte>, ending: Ending, keepsHeader: bool): Received<seq<byte>> {
    match HeadOf(stream)
    case Whole(payload, _) => Arrived(payload)
    case Excessive => Failed(TooLarge)
    case Partial =>
      if ending.Broken? then Failed(Io)
      else if stream == [] || (|stream| == HEADER_BYTES && !keepsHeader) then Ended
      else Failed(Io)
  }

  function After(stream: seq<byte>): seq<byte> {
    match HeadOf(stream)
    case Whole(_, rest) => rest
    case _ => stream
  }

  function Decoded<F>(codec: Codec<F>, r: Received<seq<byte>>): Received<F> {
    match r
    case Arrived(bytes) => (match codec.decode(bytes)
                            case Some(frame) => Arrived(frame)
                            case None => Failed(Malformed))
    case Ended => Ended
    case Failed(error) => Failed(error)
  }

  /** More bytes behind a decided head do not change the decision. */
  lemma HeadStands(stream: seq<byte>, more: seq<byte>)
    ensures HeadOf(stream).Whole? ==>
              HeadOf(stream + more) == Whole(HeadOf(stream).payload, HeadOf(stream).rest + more)
    ensures HeadOf(stream).Excessive? ==> HeadOf(stream + more).Excessive?
  {
    if |stream| >= HEADER_BYTES {
      assert (stream + more)[..HEADER_BYTES] == stream[..HEADER_BYTES];
      var length := Word(stream[..HEADER_BYTES]);
      if length <= MAX_FRAME_BYTES && HEADER_BYTES + length <= |stream| {
        var end := HEADER_BYTES + length;
        assert (stream + more)[HEADER_BYTES..end] == stream[HEADER_BYTES..end];
        assert (stream + more)[end..] == stream[end..] + more;
      }
    }
  }

  class Framer<F> {
    const codec: Codec<F>
    const keepsHeader: bool
    const ending: Ending
    var expecting: Option<u32>
    var buffer: seq<byte>
    /** What the reads to come will bring; that no more bytes come is `ending`. */
    var incoming: seq<seq<byte>>
    var written: seq<byte>

    ghost predicate Valid()
      reads this
    {
      expecting.Some? ==> expecting.value <= MAX_FRAME_BYTES
    }

    /** What has been read from the transport and not yet handed out. */
    ghost function Held(): seq<byte>
      reads this
    {
      (if expecting.Some? then BigEndian(expecting.value) else []) + buffer
    }

    ghost function Unread(): seq<byte>
      reads this
    {
      Held() + Flatten(incoming)
    }

    constructor (codec: Codec<F>, keepsHeader: bool, incoming: seq<seq<byte>>, ending: Ending)
      ensures Valid() && this.codec == codec && this.keepsHeader == keepsHeader && this.ending == ending
      ensures Unread() == Flatten(incoming) && written == []
    {
      this.codec, this.keepsHeader, this.ending := codec, keepsHeader, ending;
      this.expecting, this.buffer, this.incoming, this.written := None, [], incoming, [];
      new;
      assert Unread() == Flatten(incoming);
    }

    /** One attempt to cut a frame from the buffer. */
    method Decode() returns (r: Option<Result<seq<byte>, RecvError>>)
      requires Valid()
      modifies this`expecting, this`buffer
      ensures Valid()
      ensures match HeadOf(old(Held()))
              case Whole(payload, rest) => r == Some(Ok(payload)) && Held() == rest
              case Excessive => r == Some(Err(TooLarge)) && Held() == old(Held())
              case Partial =>
                && r == None && Held() == old(Held())
                && (expecting.Some? <==> |old(Held())| >= HEADER_BYTES)
    {
      if expecting.None? {
        if |buffer| < HEADER_BYTES {
          return None;
        }
        var length := Word(buffer[..HEADER_BYTES]);
        if length > MAX_FRAME_BYTES {
          return Some(Err(TooLarge));
        }
        BigEndianOfWord(buffer[..HEADER_BYTES]);
        assert buffer == buffer[..HEADER_BYTES] + buffer[HEADER_BYTES..];
        expecting := Some(length);
        buffer := buffer[HEADER_BYTES..];
        assert Held() == old(Held());
      }
      var n := expecting.value;
      WordOfBigEndian(n);
      assert Held()[..HEADER_BYTES] == BigEndian(n);
      if |buffer| < n {
        return None;
      }
      assert Held()[HEADER_BYTES..HEADER_BYTES + n] == buffer[..n];
      assert Held()[HEADER_BYTES + n..] == buffer[n..];
      r := Some(Ok(buffer[..n]));
      expecting := None;
      buffer := buffer[n..];
    }

    /** The next read of the transport, whatever its size, joins the buffer. */
    method Read()
      requires Valid() && incoming != []
      modifies this`buffer, this`incoming
      ensures Valid() && Unread() == old(Unread()) && |incoming| < |old(incoming)|
    {
      assert Held() + Flatten(incoming) == (Held() + incoming[0]) + Flatten(incoming[1..]);
      ghost var held := Held();
      buffer := buffer + incoming[0];
      assert Held() == held + incoming[0];
      incoming := incoming[1..];
    }

    method RecvBytes() returns (r: Received<seq<byte>>)
      requires Valid()
      modifies this`expecting, this`buffer, this`incoming
      ensures Valid()
      ensures r == Next(old(Unread()), ending, keepsHeader)
      ensures Unread() == After(old(Unread()))
    {
      hide HeadOf, BigEndian;
      while true
        invariant Valid() && Unread() == old(Unread())
        decreases |incoming|
      {
        HeadStands(Held(), Flatten(incoming));
        var cut := Decode();
        match cut {
          case Some(Ok(payload)) =>
            return Arrived(payload);
          case Some(Err(error)) =>
            return Failed(error);
          case None =>
        }
        if incoming == [] {
          assert Unread() == Held();
          if ending.Broken? || buffer != [] || (expecting.Some? && keepsHeader) {
            return Failed(Io);
          }
          return Ended;
        }
        Read();
      }
    }

    method RecvFrame() returns (r: Received<F>)
      requires Valid()
      modifies this`expecting, this`buffer, this`incoming
      ensures Valid()
      ensures r == Decoded(codec, Next(old(Unread()), ending, keepsHeader))
      ensures Unread() == After(old(Unread()))
    {
      var bytes := RecvBytes();
      match bytes {
        case Arrived(payload) =>
          match codec.decode(payload) {
            case Some(frame) => return Arrived(frame);
            case None => return Failed(Malformed);
          }
        case Ended =>
          return Ended;
        case Failed(error) =>
          return Failed(error);
      }
    }

    /** Receives until something other than a frame comes. */
    method RecvAll() returns (rs: seq<Received<seq<byte>>>)
      requires Valid()
      modifies this`expecting, this`buffer, this`incoming
      ensures Valid()
      ensures rs == Results(old(Unread()), ending, keepsHeader)
    {
      hide *;
      rs := [];
      while true
        invariant Valid()
        invariant rs + Results(Unread(), ending, keepsHeader) == Results(old(Unread()), ending, keepsHeader)
        decreases |Unread()|
      {
        ghost var stream := Unread();
        ghost var before := rs;
        var r := RecvBytes();
        ResultsUnfold(stream, ending, keepsHeader);
        rs := rs + [r];
        if !r.Arrived? {
          return;
        }
        assert before + ([r] + Results(Unread(), ending, keepsHeader)) == rs + Results(Unread(), ending, keepsHeader);
      }
    }

    /** Receives frames until something else comes. */
    method RecvFrames() returns (rs: seq<Received<F>>)
      requires Valid()
      modifies this`expecting, this`buffer, this`incoming
      ensures Valid()
      ensures rs == FrameResults(codec, old(Unread()), ending, keepsHeader)
    {
      hide *;
      rs := [];
      while true
        invariant Valid()
        invariant rs + FrameResults(codec, Unread(), ending, keepsHeader) ==
                  FrameResults(codec, old(Unread()), ending, keepsHeader)
        decreases |Unread()|
      {
        ghost var stream, before := Unread(), rs;
        var r := RecvFrame();
        FrameResultsUnfold(codec, stream, ending, keepsHeader);
        rs := rs + [r];
        if !r.Arrived? {
          return;
        }
        ghost var later := FrameResults(codec, Unread(), ending, keepsHeader);
        assert before + ([r] + later) == rs + later;
      }
    }

    /** Sends frames until one is not sent, over a transport that takes up to
        `taken(i)` bytes of the `i`-th. */
    method SendFrames(frames: seq<F>, taken: nat -> nat) returns (sent: nat)
      modifies this`written
      ensures sent == Sending(codec, frames, taken, 0).0
      ensures written == old(written) + Sending(codec, frames, taken, 0).1
    {
      hide *;
      sent := 0;
      ghost var whole := Sending(codec, frames, taken, 0);
      assert frames[0..] == frames;
      while sent < |frames|
        invariant 0 <= sent <= |frames|
        invariant var left := Sending(codec, frames[sent..], taken, sent);
                  whole.0 == sent + left.0 && old(written) + whole.1 == written + left.1
      {
        ghost var before := written;
        SendingUnfolds(codec, frames, taken, sent);
        var r := SendFrame(frames[sent], taken(sent));
        if r.Err? {
          return;
        }
        sent := sent + 1;
        assert before + (Wire(codec.encode(frames[sent - 1])) + Sending(codec, frames[sent..], taken, sent).1) ==
               written + Sending(codec, frames[sent..], taken, sent).1;
      }
      assert frames[sent..] == [];
      NothingToSend(codec, taken, sent);
    }

    /** Sends one frame over a transport that takes up to `taken` bytes of it. */
    method SendFrame(frame: F, taken: nat) returns (r: Result<(), SendError>)
      modifies this`written
      ensures var payload := codec.encode(frame);
              if |payload| > MAX_FRAME_BYTES then
                r == Err(Oversize(|payload|, MAX_FRAME_BYTES)) && written == old(written)
              else if taken < HEADER_BYTES + |payload| then
                r == Err(Transport) && written == old(written) + Wire(payload)[..taken]
              else
                r == Ok(()) && written == old(written) + Wire(payload)
    {
      var bytes := codec.encode(frame);
      if |bytes| > MAX_FRAME_BYTES {
        return Err(Oversize(|bytes|, MAX_FRAME_BYTES));
      }
      var wire := Wire(bytes);
      if taken < |wire| {
        written := written + wire[..taken];
        return Err(Transport);
      }
      written := written + wire;
      return Ok(());
    }
  }

  // Whole runs of the receiver.

  /** Everything a reader that stops at the first failure or end receives. */
  function Results(stream: seq<byte>, ending: Ending, keepsHeader: bool): seq<Received<seq<byte>>>
    decreases |stream|
  {
    var r := Next(stream, ending, keepsHeader);
    [r] + if r.Arrived? then Results(After(stream), ending, keepsHeader) else []
  }

  lemma ResultsUnfold(stream: seq<byte>, ending: Ending, keepsHeader: bool)
    ensures var r := Next(stream, ending, keepsHeader);
            && (r.Arrived? ==> Results(stream, ending, keepsHeader) ==
                               [r] + Results(After(stream), ending, keepsHeader) && |After(stream)| < |stream|)
            && (!r.Arrived? ==> Results(stream, ending, keepsHeader) == [r])
  {
  }

  ghost predicate Fit(payloads: seq<seq<byte>>) {
    forall p :: p in payloads ==> |p| <= MAX_FRAME_BYTES
  }

  function Wires(payloads: seq<seq<byte>>): seq<byte>
    requires Fit(payloads)
  {
    if payloads == [] then [] else Wire(payloads[0]) + Wires(payloads[1..])
  }

  function Arrivals(payloads: seq<seq<byte>>): seq<Received<seq<byte>>> {
    if payloads == [] then [] else [Arrived(payloads[0])] + Arrivals(payloads[1..])
  }

  lemma HeadOfWire(payload: seq<byte>, rest: seq<byte>)
    requires |payload| <= MAX_FRAME_BYTES
    ensures HeadOf(Wire(payload) + rest) == Whole(payload, rest)
  {
    var stream := Wire(payload) + rest;
    assert stream[..HEADER_BYTES] == BigEndian(|payload|);
    WordOfBigEndian(|payload|);
    assert stream[HEADER_BYTES..HEADER_BYTES + |payload|] == payload;
    assert stream[HEADER_BYTES + |payload|..] == rest;
  }

  /** The frames come out in order, then whatever the tail gives. */
  lemma {:induction false} FramesComeOutInOrder(
      payloads: seq<seq<byte>>, tail: seq<byte>, ending: Ending, keepsHeader: bool)
    requires Fit(payloads)
    ensures Results(Wires(payloads) + tail, ending, keepsHeader) ==
            Arrivals(payloads) + Results(tail, ending, keepsHeader)
  {
    if payloads == [] {
      assert Wires(payloads) + tail == tail;
    } else {
      var rest := Wires(payloads[1..]) + tail;
      assert Wires(payloads) + tail == Wire(payloads[0]) + rest;
      HeadOfWire(payloads[0], rest);
      FramesComeOutInOrder(payloads[1..], tail, ending, keepsHeader);
    }
  }

  /** Whatever sizes the reads have, a new receiver yields the frames sent, in
      order, and then what the tail of the stream gives. */
  method ReceiveInChunks<F>(
      codec: Codec<F>, keepsHeader: bool, chunks: seq<seq<byte>>, ending: Ending,
      ghost payloads: seq<seq<byte>>, ghost tail: seq<byte>)
    returns (rs: seq<Received<seq<byte>>>)
    requires Fit(payloads) && Flatten(chunks) == Wires(payloads) + tail
    ensures rs == Arrivals(payloads) + Results(tail, ending, keepsHeader)
    ensures tail == [] && ending.Closed? ==> rs == Arrivals(payloads) + [Ended]
  {
    var framer := new Framer(codec, keepsHeader, chunks, ending);
    rs := framer.RecvAll();
    FramesComeOutInOrder(payloads, tail, ending, keepsHeader);
  }

  // Frames through the codec.

  /** What a reader of frames that stops at the first failure or end receives. */
  function FrameResults<F>(codec: Codec<F>, stream: seq<byte>, ending: Ending, keepsHeader: bool): seq<Received<F>>
    decreases |stream|
  {
    var r := Decoded(codec, Next(stream, ending, keepsHeader));
    [r] + if r.Arrived? then FrameResults(codec, After(stream), ending, keepsHeader) else []
  }

  lemma FrameResultsUnfold<F>(codec: Codec<F>, stream: seq<byte>, ending: Ending, keepsHeader: bool)
    ensures var r := Decoded(codec, Next(stream, ending, keepsHeader));
            && (r.Arrived? ==>
                  FrameResults(codec, stream, ending, keepsHeader) ==
                  [r] + FrameResults(codec, After(stream), ending, keepsHeader) && |After(stream)| < |stream|)
            && (!r.Arrived? ==> FrameResults(codec, stream, ending, keepsHeader) == [r])
  {
  }

  function Encodings<F>(codec: Codec<F>, frames: seq<F>): (e: seq<seq<byte>>)
    ensures |e| == |frames| && forall i :: 0 <= i < |e| ==> e[i] == codec.encode(frames[i])
  {
    if frames == [] then [] else [codec.encode(frames[0])] + Encodings(codec, frames[1..])
  }

  /** How many of the frames, the first of them the `i`-th, are sent, and what
      that puts on the wire, the part of a frame that a broken transport took
      included. */
  function Sending<F>(codec: Codec<F>, frames: seq<F>, taken: nat -> nat, i: nat): (s: (nat, seq<byte>))
    ensures s.0 <= |frames|
    decreases |frames|
  {
    if frames == [] || |codec.encode(frames[0])| > MAX_FRAME_BYTES then (0, []) else
    var wire := Wire(codec.encode(frames[0]));
    if taken(i) < |wire| then (0, wire[..taken(i)]) else
    var later := Sending(codec, frames[1..], taken, i + 1);
    (1 + later.0, wire + later.1)
  }

  lemma SendingUnfolds<F>(codec: Codec<F>, frames: seq<F>, taken: nat -> nat, i: nat)
    requires i < |frames|
    ensures var payload := codec.encode(frames[i]);
            var s := Sending(codec, frames[i..], taken, i);
            if |payload| > MAX_FRAME_BYTES then s == (0, [])
            else if taken(i) < HEADER_BYTES + |payload| then s == (0, Wire(payload)[..taken(i)])
            else var later := Sending(codec, frames[i + 1..], taken, i + 1);
                 s == (1 + later.0, Wire(payload) + later.1)
  {
    hide Wire;
    assert frames[i..][1..] == frames[i + 1..];
  }

  lemma NothingToSend<F>(codec: Codec<F>, taken: nat -> nat, i: nat)
    ensures Sending(codec, [], taken, i) == (0, [])
  {
  }

  /** What a send that failed left on the wire. */
  function Remainder<F>(codec: Codec<F>, unsent: seq<F>, taken: nat): seq<byte> {
    if unsent == [] || |codec.encode(unsent[0])| > MAX_FRAME_BYTES then []
    else var wire := Wire(codec.encode(unsent[0])); if taken < |wire| then wire[..taken] else wire
  }

  predicate StopsAt<F>(codec: Codec<F>, frame: F, taken: nat) {
    var size := |codec.encode(frame)|;
    size > MAX_FRAME_BYTES || taken < HEADER_BYTES + size
  }

  /** The frames sent are on the wire one behind the other, and nothing else is
      but the remainder of the first one that was not. */
  ghost predicate OnTheWire<F>(codec: Codec<F>, sent: seq<F>, unsent: seq<F>, taken: nat, bytes: seq<byte>) {
    && Fit(Encodings(codec, sent))
    && bytes == Wires(Encodings(codec, sent)) + Remainder(codec, unsent, taken)
    && (unsent != [] ==> StopsAt(codec, unsent[0], taken))
  }

  lemma WiresOf(first: seq<byte>, rest: seq<seq<byte>>)
    ensures Fit([first] + rest) <==> |first| <= MAX_FRAME_BYTES && Fit(rest)
    ensures Fit([first] + rest) ==> Wires([first] + rest) == Wire(first) + Wires(rest)
  {
    hide Wire;
    assert ([first] + rest)[0] == first && ([first] + rest)[1..] == rest;
    assert first in [first] + rest && forall p :: p in rest ==> p in [first] + rest;
  }

  lemma EncodingsOf<F>(codec: Codec<F>, first: F, rest: seq<F>)
    ensures Encodings(codec, [first] + rest) == [codec.encode(first)] + Encodings(codec, rest)
  {
    assert ([first] + rest)[1..] == rest;
  }

  lemma FirstOnTheWire<F>(codec: Codec<F>, first: F, sent: seq<F>, unsent: seq<F>, taken: nat, bytes: seq<byte>)
    requires OnTheWire(codec, sent, unsent, taken, bytes) && |codec.encode(first)| <= MAX_FRAME_BYTES
    ensures OnTheWire(codec, [first] + sent, unsent, taken, Wire(codec.encode(first)) + bytes)
  {
    hide Wire, Wires, Encodings, Fit, Remainder, StopsAt;
    EncodingsOf(codec, first, sent);
    WiresOf(codec.encode(first), Encodings(codec, sent));
    var wire, wires, left := Wire(codec.encode(first)), Wires(Encodings(codec, sent)), Remainder(codec, unsent, taken);
    assert wire + (wires + left) == (wire + wires) + left;
  }

  lemma RestOnTheWire<F>(codec: Codec<F>, sent: seq<F>, unsent: seq<F>, taken: nat, bytes: seq<byte>)
    returns (later: seq<byte>)
    requires OnTheWire(codec, sent, unsent, taken, bytes) && sent != []
    ensures OnTheWire(codec, sent[1..], unsent, taken, later) && |codec.encode(sent[0])| <= MAX_FRAME_BYTES
    ensures bytes == Wire(codec.encode(sent[0])) + later
  {
    hide Wire, Wires, Encodings, Fit, Remainder, StopsAt;
    var rest := sent[1..];
    assert sent == [sent[0]] + rest;
    EncodingsOf(codec, sent[0], rest);
    WiresOf(codec.encode(sent[0]), Encodings(codec, rest));
    var wire, wires, left := Wire(codec.encode(sent[0])), Wires(Encodings(codec, rest)), Remainder(codec, unsent, taken);
    later := wires + left;
    assert wire + (wires + left) == (wire + wires) + left;
  }

  lemma NoneOnTheWire<F>(codec: Codec<F>, frames: seq<F>, taken: nat -> nat, i: nat)
    requires Sending(codec, frames, taken, i).0 == 0
    ensures OnTheWire(codec, [], frames, taken(i), Sending(codec, frames, taken, i).1)
  {
    hide Wire;
  }

  lemma SendingContinues<F>(codec: Codec<F>, frames: seq<F>, taken: nat -> nat, i: nat)
    requires Sending(codec, frames, taken, i).0 > 0
    ensures frames != [] && |codec.encode(frames[0])| <= MAX_FRAME_BYTES
    ensures var (n, bytes) := Sending(codec, frames, taken, i);
            var (m, later) := Sending(codec, frames[1..], taken, i + 1);
            && n == m + 1 && bytes == Wire(codec.encode(frames[0])) + later
            && frames[..n] == [frames[0]] + frames[1..][..m] && frames[n..] == frames[1..][m..]
  {
    hide Wire;
  }

  lemma {:induction false} SendingIsOnTheWire<F>(codec: Codec<F>, frames: seq<F>, taken: nat -> nat, i: nat)
    ensures var (n, bytes) := Sending(codec, frames, taken, i);
            OnTheWire(codec, frames[..n], frames[n..], taken(i + n), bytes)
    decreases |frames|
  {
    hide *;
    var (n, bytes) := Sending(codec, frames, taken, i);
    if n == 0 {
      assert frames[..0] == [] && frames[0..] == frames;
      NoneOnTheWire(codec, frames, taken, i);
    } else {
      SendingContinues(codec, frames, taken, i);
      var (m, later) := Sending(codec, frames[1..], taken, i + 1);
      SendingIsOnTheWire(codec, frames[1..], taken, i + 1);
      FirstOnTheWire(codec, frames[0], frames[1..][..m], frames[n..], taken(i + n), later);
    }
  }

  function AllArrived<F>(frames: seq<F>): seq<Received<F>> {
    if frames == [] then [] else [Arrived(frames[0])] + AllArrived(frames[1..])
  }

  /** Frames that were sent come out of their bytes, in order, and then what the
      remainder gives. */
  lemma {:induction false} SentFramesComeOut<F(!new)>(
      codec: Codec<F>, sent: seq<F>, unsent: seq<F>, taken: nat, bytes: seq<byte>, ending: Ending, keepsHeader: bool)
    requires Faithful(codec) && OnTheWire(codec, sent, unsent, taken, bytes)
    ensures FrameResults(codec, bytes, ending, keepsHeader) ==
            AllArrived(sent) + FrameResults(codec, Remainder(codec, unsent, taken), ending, keepsHeader)
    decreases |sent|
  {
    hide *;
    if sent == [] {
      NothingOnTheWire(codec, unsent, taken, bytes);
    } else {
      var later := RestOnTheWire(codec, sent, unsent, taken, bytes);
      SentFrameIsReceived(codec, sent[0], later, ending, keepsHeader);
      FrameResultsUnfold(codec, bytes, ending, keepsHeader);
      SentFramesComeOut(codec, sent[1..], unsent, taken, later, ending, keepsHeader);
      AllArrivedUnfolds(sent);
    }
  }

  lemma NothingOnTheWire<F>(codec: Codec<F>, unsent: seq<F>, taken: nat, bytes: seq<byte>)
    requires OnTheWire(codec, [], unsent, taken, bytes)
    ensures bytes == Remainder(codec, unsent, taken) && AllArrived<F>([]) == []
  {
  }

  lemma AllArrivedUnfolds<F>(frames: seq<F>)
    requires frames != []
    ensures AllArrived(frames) == [Arrived(frames[0])] + AllArrived(frames[1..])
  {
  }

  /** One side sends frames, the stream is cut into reads anyhow, the other side
      receives: the frames sent, in order, then what the failed send left on the
      wire gives, or the end if none failed. */
  method SendThenReceive<F(!new)>(
      codec: Codec<F>, keepsHeader: bool, frames: seq<F>, taken: nat -> nat, cut: seq<byte> -> seq<seq<byte>>)
    returns (sent: nat, rs: seq<Received<F>>)
    requires Faithful(codec) && forall stream :: Flatten(cut(stream)) == stream
    ensures sent <= |frames| && (sent < |frames| ==> StopsAt(codec, frames[sent], taken(sent)))
    ensures rs == AllArrived(frames[..sent]) +
                  FrameResults(codec, Remainder(codec, frames[sent..], taken(sent)), Closed, keepsHeader)
    ensures sent == |frames| ==> rs == AllArrived(frames) + [Ended]
  {
    hide *;
    var sender := new Framer(codec, keepsHeader, [], Closed);
    sent := sender.SendFrames(frames, taken);
    var stream := sender.written;
    var receiver := new Framer(codec, keepsHeader, cut(stream), Closed);
    rs := receiver.RecvFrames();
    ghost var unsent := frames[sent..];
    SendingIsOnTheWire(codec, frames, taken, 0);
    assert stream == Sending(codec, frames, taken, 0).1;
    SentFramesComeOut(codec, frames[..sent], unsent, taken(sent), stream, Closed, keepsHeader);
    StopsOrEnds(codec, frames[..sent], unsent, taken(sent), stream, keepsHeader);
    assert sent == |frames| ==> frames[..sent] == frames;
  }

  lemma StopsOrEnds<F>(
      codec: Codec<F>, sent: seq<F>, unsent: seq<F>, taken: nat, bytes: seq<byte>, keepsHeader: bool)
    requires OnTheWire(codec, sent, unsent, taken, bytes)
    ensures if unsent != [] then StopsAt(codec, unsent[0], taken)
            else FrameResults(codec, Remainder(codec, unsent, taken), Closed, keepsHeader) == [Ended]
  {
  }

  lemma CutFrameIsPartial(payload: seq<byte>, kept: nat)
    requires |payload| <= MAX_FRAME_BYTES && kept < |Wire(payload)|
    ensures HeadOf(Wire(payload)[..kept]) == Partial
  {
    var cut := Wire(payload)[..kept];
    if kept >= HEADER_BYTES {
      assert cut[..HEADER_BYTES] == BigEndian(|payload|);
      WordOfBigEndian(|payload|);
    }
  }

  /** A stream that the peer closes inside a frame ends in an I/O error, except
      at one point: just after the header, if the library has let go of it. */
  lemma StreamCutInsideAFrame(payloads: seq<seq<byte>>, last: seq<byte>, kept: nat, keepsHeader: bool)
    requires Fit(payloads) && |last| <= MAX_FRAME_BYTES && 0 < kept < |Wire(last)|
    ensures Results(Wires(payloads) + Wire(last)[..kept], Closed, keepsHeader) ==
            Arrivals(payloads) + [if kept == HEADER_BYTES && !keepsHeader then Ended else Failed(Io)]
  {
    FramesComeOutInOrder(payloads, Wire(last)[..kept], Closed, keepsHeader);
    CutFrameIsPartial(last, kept);
  }

  /** A proper part of one frame on the wire, none of it included. */
  predicate PartOfAWire(part: seq<byte>, payload: seq<byte>) {
    |payload| <= MAX_FRAME_BYTES && |part| < |Wire(payload)| && part == Wire(payload)[..|part|]
  }

  /** A transport that breaks between frames, or anywhere inside one, is reported
      as such, whichever of the frames before it were received. */
  lemma BrokenTransportIsAnError(payloads: seq<seq<byte>>, part: seq<byte>, payload: seq<byte>, keepsHeader: bool)
    requires Fit(payloads) && PartOfAWire(part, payload)
    ensures Results(Wires(payloads) + part, Broken, keepsHeader) == Arrivals(payloads) + [Failed(Io)]
  {
    FramesComeOutInOrder(payloads, part, Broken, keepsHeader);
    CutFrameIsPartial(payload, |part|);
  }

  /** The end is reported only when the peer closed: between frames, or behind a
      header the library has let go of. */
  lemma EndedMeansClosed(stream: seq<byte>, ending: Ending, keepsHeader: bool)
    ensures Next(stream, ending, keepsHeader) == Ended <==>
            && ending == Closed
            && (stream == [] || (!keepsHeader && |stream| == 4 && 0 < Word(stream) <= 65536))
  {
    if |stream| == 4 {
      assert stream[..4] == stream;
    }
  }

  /** Over any cutting of such a stream into reads, a receiver yields the frames
      and then the error. */
  method ReceiveUntilBroken<F>(
      codec: Codec<F>, keepsHeader: bool, chunks: seq<seq<byte>>,
      ghost payloads: seq<seq<byte>>, ghost part: seq<byte>, ghost payload: seq<byte>)
    returns (rs: seq<Received<seq<byte>>>)
    requires Fit(payloads) && PartOfAWire(part, payload) && Flatten(chunks) == Wires(payloads) + part
    ensures rs == Arrivals(payloads) + [Failed(Io)]
  {
    hide *;
    var framer := new Framer(codec, keepsHeader, chunks, Broken);
    rs := framer.RecvAll();
    BrokenTransportIsAnError(payloads, part, payload, keepsHeader);
  }

  /** So for decoded frames. */
  method ReceiveFramesUntilBroken<F(!new)>(
      codec: Codec<F>, keepsHeader: bool, chunks: seq<seq<byte>>,
      ghost frames: seq<F>, ghost part: seq<byte>, ghost payload: seq<byte>)
    returns (rs: seq<Received<F>>)
    requires Faithful(codec) && Fit(Encodings(codec, frames)) && PartOfAWire(part, payload)
    requires Flatten(chunks) == Wires(Encodings(codec, frames)) + part
    ensures rs == AllArrived(frames) + [Failed(Io)]
  {
    hide *;
    var framer := new Framer(codec, keepsHeader, chunks, Broken);
    rs := framer.RecvFrames();
    EncodedFramesComeOut(codec, frames, part, Broken, keepsHeader);
    PartBreaks(codec, part, payload, keepsHeader);
  }

  lemma PartBreaks<F>(codec: Codec<F>, part: seq<byte>, payload: seq<byte>, keepsHeader: bool)
    requires PartOfAWire(part, payload)
    ensures FrameResults(codec, part, Broken, keepsHeader) == [Failed(Io)]
  {
    CutFrameIsPartial(payload, |part|);
  }

  lemma {:induction false} EncodedFramesComeOut<F(!new)>(
      codec: Codec<F>, frames: seq<F>, tail: seq<byte>, ending: Ending, keepsHeader: bool)
    requires Faithful(codec) && Fit(Encodings(codec, frames))
    ensures FrameResults(codec, Wires(Encodings(codec, frames)) + tail, ending, keepsHeader) ==
            AllArrived(frames) + FrameResults(codec, tail, ending, keepsHeader)
  {
    hide *;
    if frames == [] {
      NoWires(codec, tail);
    } else {
      var first, rest := codec.encode(frames[0]), Encodings(codec, frames[1..]);
      assert frames == [frames[0]] + frames[1..];
      EncodingsOf(codec, frames[0], frames[1..]);
      WiresOf(first, rest);
      var later := Wires(rest) + tail;
      assert (Wire(first) + Wires(rest)) + tail == Wire(first) + later;
      SentFrameIsReceived(codec, frames[0], later, ending, keepsHeader);
      FrameResultsUnfold(codec, Wire(first) + later, ending, keepsHeader);
      EncodedFramesComeOut(codec, frames[1..], tail, ending, keepsHeader);
      AllArrivedUnfolds(frames);
    }
  }

  lemma NoWires<F>(codec: Codec<F>, tail: seq<byte>)
    ensures Wires(Encodings(codec, [])) + tail == tail && AllArrived<F>([]) == []
  {
  }

  /** A frame that does not decode is reported as malformed, behind the frames
      before it, and nothing behind it is read. */
  lemma UndecodableIsMalformed<F(!new)>(
      codec: Codec<F>, frames: seq<F>, payload: seq<byte>, tail: seq<byte>, ending: Ending, keepsHeader: bool)
    requires Faithful(codec) && Fit(Encodings(codec, frames))
    requires |payload| <= MAX_FRAME_BYTES && codec.decode(payload).None?
    ensures FrameResults(codec, Wires(Encodings(codec, frames)) + (Wire(payload) + tail), ending, keepsHeader) ==
            AllArrived(frames) + [Failed(Malformed)]
  {
    hide Wire, HeadOf, Wires, Encodings;
    EncodedFramesComeOut(codec, frames, Wire(payload) + tail, ending, keepsHeader);
    HeadOfWire(payload, tail);
  }

  /** The first four bytes of a frame on the wire, the most significant first. */
  lemma WireStarts(payload: seq<byte>)
    requires |payload| <= MAX_FRAME_BYTES
    ensures |payload| < 0x100 ==> Wire(payload)[..4] == [0, 0, 0, |payload|]
    ensures var w := Wire(payload); |payload| == w[0] as int * 0x100_0000 + w[1] as int * 0x1_0000 + w[2] as int * 0x100 + w[3]
    ensures Wire(payload)[4..] == payload
  {
    hide BigEndian;
    FirstByteWeighsMost(|payload|);
    if |payload| < 0x100 {
      SmallNumberComesLast(|payload|);
    }
  }

  /** A header above the cap is refused from its four bytes alone. */
  lemma HeaderAboveTheCap(payloads: seq<seq<byte>>, length: u32, tail: seq<byte>, ending: Ending, keepsHeader: bool)
    requires Fit(payloads) && length > MAX_FRAME_BYTES
    ensures Results(Wires(payloads) + (BigEndian(length) + tail), ending, keepsHeader) ==
            Arrivals(payloads) + [Failed(TooLarge)]
  {
    FramesComeOutInOrder(payloads, BigEndian(length) + tail, ending, keepsHeader);
    assert (BigEndian(length) + tail)[..HEADER_BYTES] == BigEndian(length);
    WordOfBigEndian(length);
  }

  /** What one side accepts to send, the other receives: the same frame, with
      nothing taken from what follows it. */
  lemma SentFrameIsReceived<F(!new)>(codec: Codec<F>, frame: F, rest: seq<byte>, ending: Ending, keepsHeader: bool)
    requires Faithful(codec) && |codec.encode(frame)| <= MAX_FRAME_BYTES
    ensures Decoded(codec, Next(Wire(codec.encode(frame)) + rest, ending, keepsHeader)) == Arrived(frame)
    ensures After(Wire(codec.encode(frame)) + rest) == rest
  {
    HeadOfWire(codec.encode(frame), rest);
  }
}
