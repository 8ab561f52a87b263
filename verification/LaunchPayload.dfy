/** How a second instance hands its launch to the first: one string of UTF-16
    units with NUL separators, sent with its terminator, queued without it, and
    decoded by the application. */
module LaunchPayload {
  import opened Basics

  type Unit = u16
  type Text = seq<Unit>

  const SEPARATOR: Unit := 0

  predicate NulFree(t: Text) {
    SEPARATOR !in t
  }

  datatype Launch = Launch(directory: Text, arguments: seq<Text>)

  // The sender.

  function Joined(arguments: seq<Text>): Text {
    if arguments == [] then []
    else if |arguments| == 1 then arguments[0]
    else arguments[0] + [SEPARATOR] + Joined(arguments[1..])
  }

  /** A null argument is sent as an empty one. */
  function Spelled(argument: Option<Text>): Text {
    match argument case None => [] case Some(t) => t
  }

  function SpelledAll(arguments: seq<Option<Text>>): (spelled: seq<Text>)
    ensures |spelled| == |arguments|
    ensures forall i :: 0 <= i < |spelled| ==>
              spelled[i] == match arguments[i] case None => [] case Some(t) => t
  {
    if arguments == [] then [] else [Spelled(arguments[0])] + SpelledAll(arguments[1..])
  }

  function Encoded(launch: Launch): Text {
    launch.directory + [SEPARATOR, SEPARATOR] + Joined(launch.arguments)
  }

  lemma {:induction false} JoinedGrows(arguments: seq<Text>, last: Text)
    ensures Joined(arguments + [last]) ==
            if arguments == [] then last else Joined(arguments) + [SEPARATOR] + last
  {
    if |arguments| == 1 {
      assert (arguments + [last])[1..] == [last];
    } else if |arguments| > 1 {
      assert (arguments + [last])[1..] == arguments[1..] + [last];
      JoinedGrows(arguments[1..], last);
    }
  }

  lemma {:induction false} SpelledGrows(arguments: seq<Option<Text>>, last: Option<Text>)
    ensures SpelledAll(arguments + [last]) == SpelledAll(arguments) + [Spelled(last)]
  {
    if arguments == [] {
      assert [last][1..] == [];
    } else {
      assert (arguments + [last])[1..] == arguments[1..] + [last];
      SpelledGrows(arguments[1..], last);
    }
  }

  /** `arguments` is absent when the pointer to them is null; `count` of them
      are there. */
  method EncodeLaunch(directory: Text, arguments: Option<seq<Option<Text>>>, count: int) returns (payload: Text)
    requires arguments.Some? ==> count <= |arguments.value|
    ensures payload == Encoded(Launch(directory,
                                      if arguments.None? then [] else SpelledAll(arguments.value[..Max(0, count)])))
  {
    hide *;
    NothingSpelled();
    payload := directory;
    payload := payload + [SEPARATOR];
    payload := payload + [SEPARATOR];
    if arguments.None? {
      EncodedAs(payload, Launch(directory, []));
      return;
    }
    var passed := arguments.value;
    var index := 0;
    assert passed[..0] == [];
    while index < count
      invariant 0 <= index <= Max(0, count)
      invariant payload == directory + [SEPARATOR, SEPARATOR] + Joined(SpelledAll(passed[..index]))
    {
      GrowsByOne(passed[..index], passed[index]);
      assert passed[..index + 1] == passed[..index] + [passed[index]];
      if index > 0 {
        payload := payload + [SEPARATOR];
      }
      if passed[index].Some? {
        payload := payload + passed[index].value;
      }
      index := index + 1;
    }
    EncodedAs(payload, Launch(directory, SpelledAll(passed[..index])));
  }

  lemma NothingSpelled()
    ensures SpelledAll([]) == [] && Joined([]) == []
    ensures forall a, b :: Max(a, b) == if a >= b then a else b
  {
  }

  lemma EncodedAs(payload: Text, launch: Launch)
    requires payload == launch.directory + [SEPARATOR, SEPARATOR] + Joined(launch.arguments)
    ensures payload == Encoded(launch)
  {
  }

  lemma GrowsByOne(arguments: seq<Option<Text>>, last: Option<Text>)
    ensures Joined(SpelledAll(arguments + [last])) ==
            Joined(SpelledAll(arguments)) + (if arguments == [] then [] else [SEPARATOR]) +
            (match last case None => [] case Some(t) => t)
  {
    hide Joined;
    SpelledGrows(arguments, last);
    JoinedGrows(SpelledAll(arguments), Spelled(last));
    NothingSpelled();
  }

  /** The size in bytes that goes with the message: the units and a terminator,
      in 32 bits. */
  function MessageBytes(payload: Text): u32 {
    (|payload| + 1) * 2 % 0x1_0000_0000
  }

  /** What the receiver's window sees of the sender's memory. */
  function Message(payload: Text): (t: Text)
    ensures |t| == MessageBytes(payload) / 2
  {
    (payload + [SEPARATOR])[..MessageBytes(payload) / 2]
  }

  // The receiver.

  function WithoutTerminator(data: Text): Text {
    if data != [] && data[|data| - 1] == SEPARATOR then data[..|data| - 1] else data
  }

  /** Where the first pair of separators starts, if there is one. */
  function FirstPair(t: Text): Option<nat> {
    if |t| < 2 then None
    else if t[0] == SEPARATOR && t[1] == SEPARATOR then Some(0)
    else match FirstPair(t[1..]) case None => None case Some(at) => Some(at + 1)
  }

  lemma {:induction false} FirstPairIsInside(t: Text)
    ensures FirstPair(t).Some? ==> FirstPair(t).value + 2 <= |t|
  {
    if |t| >= 2 {
      FirstPairIsInside(t[1..]);
    }
  }

  function Split(t: Text): (parts: seq<Text>)
    ensures parts != []
  {
    if t == [] then [[]]
    else if t[0] == SEPARATOR then [[]] + Split(t[1..])
    else var rest := Split(t[1..]); [[t[0]] + rest[0]] + rest[1..]
  }

  function Decode(payload: Text): Launch {
    match FirstPair(payload)
    case None => Launch(payload, [])
    case Some(at) =>
      FirstPairIsInside(payload);
      var rest := payload[at + 2..];
      Launch(payload[..at], if rest == [] then [] else Split(rest))
  }

  // The round trip.

  lemma {:induction false} SplitOneText(t: Text)
    requires NulFree(t)
    ensures Split(t) == [t]
  {
    if t != [] {
      assert t[0] in t && NulFree(t[1..]);
      SplitOneText(t[1..]);
      assert [t[0]] + t[1..] == t;
    }
  }

  lemma {:induction false} SplitAtSeparator(t: Text, rest: Text)
    requires NulFree(t)
    ensures Split(t + [SEPARATOR] + rest) == [t] + Split(rest)
  {
    var all := t + [SEPARATOR] + rest;
    if t == [] {
      assert all[1..] == rest;
    } else {
      assert all[0] == t[0] && all[1..] == t[1..] + [SEPARATOR] + rest;
      assert t[0] in t && NulFree(t[1..]);
      SplitAtSeparator(t[1..], rest);
      assert [t[0]] + t[1..] == t;
    }
  }

  predicate AllNulFree(texts: seq<Text>) {
    forall i :: 0 <= i < |texts| ==> NulFree(texts[i])
  }

  lemma {:induction false} SplitUndoesJoin(arguments: seq<Text>)
    requires arguments != [] && AllNulFree(arguments)
    ensures Split(Joined(arguments)) == arguments
  {
    if |arguments| == 1 {
      SplitOneText(arguments[0]);
    } else {
      SplitUndoesJoin(arguments[1..]);
      SplitAtSeparator(arguments[0], Joined(arguments[1..]));
    }
  }

  lemma {:induction false} FirstPairEndsTheDirectory(directory: Text, rest: Text)
    requires NulFree(directory)
    ensures FirstPair(directory + [SEPARATOR, SEPARATOR] + rest) == Some(|directory|)
  {
    var all := directory + [SEPARATOR, SEPARATOR] + rest;
    if directory != [] {
      assert all[0] == directory[0];
      assert all[1..] == directory[1..] + [SEPARATOR, SEPARATOR] + rest;
      assert NulFree(directory[1..]);
      FirstPairEndsTheDirectory(directory[1..], rest);
    }
  }

  lemma {:induction false} JoinIsEmptyOnly(arguments: seq<Text>)
    ensures Joined(arguments) == [] <==> arguments == [] || arguments == [[]]
  {
    if |arguments| == 1 {
      assert arguments == [arguments[0]];
    }
  }

  /** What the message carries is the payload and one terminator, as long as its
      size in bytes fits 32 bits. */
  lemma MessageCarriesThePayload(payload: Text)
    requires |payload| + 1 < 0x8000_0000
    ensures MessageBytes(payload) != 0
    ensures WithoutTerminator(Message(payload)) == payload
  {
    var n := |payload| + 1;
    assert n * 2 % 0x1_0000_0000 == n * 2;
    assert Message(payload) == payload + [SEPARATOR];
  }

  /** A launch of NUL-free texts that a message can carry. */
  predicate Sendable(launch: Launch) {
    NulFree(launch.directory) && AllNulFree(launch.arguments) && |Encoded(launch)| + 1 < 0x8000_0000
  }

  /** What a launch arrives as: one empty argument is lost on the way. */
  function Arriving(launch: Launch): Launch {
    if launch.arguments == [[]] then launch.(arguments := []) else launch
  }

  /** Only a terminator is removed: data that ends otherwise is kept as it is. */
  lemma OnlyATerminatorGoes(data: Text)
    ensures WithoutTerminator(data + [SEPARATOR]) == data
    ensures WithoutTerminator(data) == data <==> data == [] || data[|data| - 1] != SEPARATOR
    ensures WithoutTerminator(data) != data ==> data == WithoutTerminator(data) + [SEPARATOR]
  {
    assert (data + [SEPARATOR])[..|data|] == data;
  }

  lemma {:induction false} NoPairNoSplit(t: Text)
    requires NulFree(t)
    ensures FirstPair(t) == None
  {
    if |t| >= 2 {
      assert t[0] in t && NulFree(t[1..]);
      NoPairNoSplit(t[1..]);
    }
  }

  /** A payload without a pair of separators is all directory. */
  lemma DirectoryAlone(directory: Text)
    requires NulFree(directory)
    ensures Decode(directory) == Launch(directory, [])
    ensures Decode(directory + [SEPARATOR, SEPARATOR]) == Launch(directory, [])
  {
    NoPairNoSplit(directory);
    FirstPairEndsTheDirectory(directory, []);
    assert directory + [SEPARATOR, SEPARATOR] + [] == directory + [SEPARATOR, SEPARATOR];
  }

  /** What one instance sends the other decodes, trailing empty arguments
      included. One launch does not survive: a single empty argument arrives as
      no argument at all, and it is the only one. */
  lemma LaunchRoundTrip(launch: Launch)
    requires Sendable(launch)
    ensures Decode(WithoutTerminator(Message(Encoded(launch)))) == Arriving(launch)
    ensures Arriving(launch) == launch <==> launch.arguments != [[]]
  {
    var payload := Encoded(launch);
    var rest := Joined(launch.arguments);
    MessageCarriesThePayload(payload);
    FirstPairEndsTheDirectory(launch.directory, rest);
    assert payload[..|launch.directory|] == launch.directory;
    assert payload[|launch.directory| + 2..] == rest;
    JoinIsEmptyOnly(launch.arguments);
    if rest != [] {
      SplitUndoesJoin(launch.arguments);
    }
  }
}
