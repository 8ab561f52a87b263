# Dovetail: a verified model

Dovetail is a toolkit for desktop products: a privileged daemon and the channel
that leads to it, an HTTP client, and a platform channel. This project models
the parts of it that decide or converse, and proves what they promise.

| module | what it models |
|---|---|
| `RequirementBlob`, `RequirementGrammar` | the parser of a compiled code-signing requirement, and the language it accepts |
| `RequirementStrength`, `RequirementMeaning` | the judge that decides whether a requirement names the product, and what its masks mean |
| `RequirementJudgement` | what its answer means, from the bytes to every assignment |
| `Framing` | length-delimited frames with a 64 KiB cap, over a stream cut anywhere |
| `Handshake` | the two halves of the version handshake, and both composed |
| `Connection` | the daemon's side of one connection, as a log of everything it does |
| `XpcConnection` | the adapter from XPC messages to a byte stream and back |
| `Executor` | the retry and refresh loop of the HTTP client |
| `SingleFlight` | the refresh under a lock, for any number of interleaved requests |
| `RefusalLog`, `AcceptLoop` | the accept loop, its back-off and its rate-limited refusal log |
| `SingleInstance` | the Windows single-instance guard: one process, and any number of them racing |
| `PrimaryVerdicts` | what its answers of primary are worth, and when two processes share one |
| `ForwardedLaunches` | what becomes of the launches that secondaries forward |
| `GuardWindow`, `LaunchPayload` | the launch queue and the payload forwarded to it |
| `Multipart` | the body of a file upload, and a reader that takes it apart |
| `Basics` | fixed-width integers, options, results and sequence lemmas |

Code that works on mutable state is a class or a method with a loop. Each
operation is proved equal to a function of the state before it, and the laws
are lemmas about that function over whole runs. Each interleaving (`SingleFlight`,
`SingleInstance`) is a machine whose steps are the points at which another task
or process can run.

## What the proofs found

- A launch with one empty argument is decoded with no arguments
  (`LaunchPayload.LaunchRoundTrip`); it is the only launch that changes on the way.
- A process that holds the mutex of one key is answered primary for any other
  key without looking at that key's mutex. Two processes can share an answer of
  primary exactly when one claims a key it does not hold while another is still
  there (`PrimaryVerdicts.SecondKeyBreaksTheGuard`, with a run in
  `PrimaryVerdicts.SecondKeyIsNotGuarded`); while primaries claim only what they
  hold, no two ever do (`PrimaryVerdicts.HeldKeysKeepAnswersApart`).
- A secondary verdict means that the payload was enqueued once
  (`ForwardedLaunches.SecondaryIffEnqueuedOnce`), not that it is taken
  (`ForwardedLaunches.SecondaryLaunchMayBeDropped`): it is dropped exactly when
  the primary that holds it in its queue fails to open, releases or exits
  (`ForwardedLaunches.FateIsSealedByItsHolder`).
- A stream that closes between a frame's header and its payload ends in an I/O
  error only if the framing library still counts the header as unread. The
  library is not part of this model, so that is the parameter `keepsHeader`;
  every other cut is an I/O error (`Framing.StreamCutInsideAFrame`).
- The refusal of `always` and negation is not needed for soundness, even though
  the parser takes many different predicates for one opaque clause
  (`RequirementJudgement.AdmittedRequirementIsSound`,
  `RequirementJudgement.OpaqueLeavesAreApart`); it also turns away requirements
  that are sound (`RequirementJudgement.LoosenedTreeMayBeSound`).
- Lines of the refusal log keep their distance, for every sequence of outcomes,
  only under a window longer than zero, as the accept loop's 60 seconds are
  (`AcceptLoop.SpacingNeedsAWindow`).

## Model

| member | source | states |
|---|---|---|
| `Basics.FirstByteWeighsMost` | toolkit/dovetail_privileged_daemon/rust/src/requirement_blob.rs:72-75 | The bytes of a word weigh 2^24, 2^16, 2^8 and 1, the first the most, in the compiled requirement and in the frame header alike. |
| `Basics.ByteOrder` | toolkit/dovetail_privileged_daemon/rust/src/requirement_blob.rs:72-75 | A word is smaller than another if and only if its bytes precede the other's at the first that differs. |
| `RequirementBlob.Reader.Take` | toolkit/dovetail_privileged_daemon/rust/src/requirement_blob.rs:61-70 | A read advances the cursor by exactly the bytes it returns, or leaves it where it was and reports a truncated blob. |
| `RequirementBlob.Reader.Word` | toolkit/dovetail_privileged_daemon/rust/src/requirement_blob.rs:72-75 | The next four bytes as a big-endian word. |
| `RequirementBlob.Reader.Data` | toolkit/dovetail_privileged_daemon/rust/src/requirement_blob.rs:77-82 | A length-prefixed string; the cursor ends behind its padding, which must be there. |
| `RequirementBlob.Reader.Comparison` | toolkit/dovetail_privileged_daemon/rust/src/requirement_blob.rs:84-93 | Which comparison codes carry a string, a date or nothing, where the cursor ends, and which codes are refused. |
| `RequirementBlob.Reader.Leaf` | toolkit/dovetail_privileged_daemon/rust/src/requirement_blob.rs:101-142 | What follows each opcode that nests no clause, down to the position at which a refusal leaves the cursor. |
| `RequirementBlob.Reader.Clause` | toolkit/dovetail_privileged_daemon/rust/src/requirement_blob.rs:99-144 | The recursive descent at a depth: the clause read, the cursor after it, or the refusal; it terminates for arbitrary bytes. |
| `RequirementBlob.Parse` | toolkit/dovetail_privileged_daemon/rust/src/requirement_blob.rs:36-53 | The whole parser, with its five ways of refusing a blob before, in and after the expression, equals the function the grammar lemmas speak about. |
| `RequirementGrammar.ClauseReads` | toolkit/dovetail_privileged_daemon/rust/src/requirement_blob.rs:99-144 | A written expression is read back whole at any depth that leaves room for its levels, and refused for its depth, nothing else, where it does not. |
| `RequirementGrammar.ClauseWritten` | toolkit/dovetail_privileged_daemon/rust/src/requirement_blob.rs:99-144 | Whatever the descent reads at any position of any bytes is the writing of some expression with that meaning, within the levels left. |
| `RequirementGrammar.WrittenParses` | toolkit/dovetail_privileged_daemon/rust/src/requirement_blob.rs:36-53 | Every writing of an expression parses to its clause at 64 levels or fewer, and is refused as too deep above. |
| `RequirementGrammar.ParsedWasWritten` | toolkit/dovetail_privileged_daemon/rust/src/requirement_blob.rs:36-53 | Every accepted blob is, byte for byte, the writing of an expression of at most 64 levels. |
| `RequirementGrammar.ParserIsExact` | toolkit/dovetail_privileged_daemon/rust/src/requirement_blob.rs:36-53 | The parser accepts a blob with a clause if and only if the blob spells an expression of at most 64 levels that means that clause. |
| `RequirementGrammar.RoundTrip` | toolkit/dovetail_privileged_daemon/rust/src/requirement_blob.rs:36-53 | Parsing the encoding of any clause gives the clause back when it has at most 64 levels, and the depth refusal for every deeper one. |
| `RequirementGrammar.CursorInvariant` | toolkit/dovetail_privileged_daemon/rust/src/requirement_blob.rs:55-144 | For arbitrary bytes a successful read moves the cursor forward, inside the blob, by a multiple of four, and pays four bytes for every node of the clause. |
| `RequirementGrammar.ReadDependsOnBytesConsumed` | toolkit/dovetail_privileged_daemon/rust/src/requirement_blob.rs:55-144 | The same bytes anywhere in any blob, at any depth that leaves room, give the same clause and consume as much; success at one depth therefore carries to every smaller one. |
| `RequirementGrammar.AcceptedBlobIsLong` | toolkit/dovetail_privileged_daemon/rust/src/requirement_blob.rs:36-53 | An accepted blob is a multiple of four long and has at least twelve bytes and four more for each node. |
| `RequirementGrammar.AcceptedBlobStarts` | toolkit/dovetail_privileged_daemon/rust/src/requirement_blob.rs:36-46 | An accepted blob starts fa de 0c 00, its own length with the most significant byte first, and 00 00 00 01. |
| `RequirementGrammar.CertificateMeans` | toolkit/dovetail_privileged_daemon/rust/src/requirement_blob.rs:108-124 | A certificate test means a leaf field if and only if it is opcode 11 on slot 0, a leaf extension if and only if opcode 14 on slot 0, an extension of the issuer if and only if opcode 14 on slot 1, each with its own string and comparison, and is opaque otherwise. |
| `RequirementGrammar.HeaderTellsWhy` | toolkit/dovetail_privileged_daemon/rust/src/requirement_blob.rs:36-46 | Whatever follows three header words, the refusal names the magic, the length or the form if and only if that word is the first that is wrong. |
| `RequirementGrammar.TrailingBytesAreRefused` | toolkit/dovetail_privileged_daemon/rust/src/requirement_blob.rs:47-51 | Any bytes behind a whole expression are refused as such, though the length counts them. |
| `RequirementGrammar.UnknownOpcodeIsNamed` | toolkit/dovetail_privileged_daemon/rust/src/requirement_blob.rs:141 | Every opcode above 23 is refused by its number. |
| `RequirementGrammar.UnknownComparisonIsNamed` | toolkit/dovetail_privileged_daemon/rust/src/requirement_blob.rs:84-93 | Every comparison above 14 is refused by its number. |
| `RequirementGrammar.Aligned` | toolkit/dovetail_privileged_daemon/rust/src/requirement_blob.rs:77-82 | Every expression is written in whole four-byte words. |
| `RequirementGrammar.MeaningMeasures` | toolkit/dovetail_privileged_daemon/rust/src/requirement_blob.rs:99-144 | A clause has as many levels as the expression it came from, and no more nodes than its bytes can pay for. |
| `RequirementStrength.FindAlternatives` | toolkit/dovetail_privileged_daemon/rust/src/requirement_strength.rs:46-61 | The recursive collection with its in-place sort and removal of duplicates equals the canonical list of masks. |
| `RequirementStrength.Sorted` | toolkit/dovetail_privileged_daemon/rust/src/requirement_strength.rs:58 | The sort gives an ascending list with the same masks, each as often as before. |
| `RequirementStrength.Dedup` | toolkit/dovetail_privileged_daemon/rust/src/requirement_strength.rs:59 | Removing adjacent duplicates of an ascending list leaves a strictly ascending one with the same members. |
| `RequirementStrength.Alternatives` | toolkit/dovetail_privileged_daemon/rust/src/requirement_strength.rs:46-61 | The list of masks is strictly ascending for every tree. |
| `RequirementMeaning.NormalFormHolds` | toolkit/dovetail_privileged_daemon/rust/src/requirement_strength.rs:46-61 | A tree is satisfied by an assignment if and only if some disjunct of its disjunctive normal form has all its conjuncts satisfied. |
| `RequirementMeaning.AlternativesAreTheDisjunctMasks` | toolkit/dovetail_privileged_daemon/rust/src/requirement_strength.rs:46-61 | A mask is in the list if and only if it is the union of the facts of some disjunct of the normal form that is never built. |
| `RequirementMeaning.AscendingListIsItsSet` | toolkit/dovetail_privileged_daemon/rust/src/requirement_strength.rs:58-60 | Two strictly ascending lists with the same members are the same list, so the list is a canonical form of the set. |
| `RequirementMeaning.SameMasksSameAlternatives` | toolkit/dovetail_privileged_daemon/rust/src/requirement_strength.rs:46-61 | Trees whose disjuncts unite to the same masks get the identical list. |
| `RequirementMeaning.AndCommutes` | toolkit/dovetail_privileged_daemon/rust/src/requirement_strength.rs:46-61 | Swapping the sides of an `and` leaves the list identical. |
| `RequirementMeaning.AndAssociates` | toolkit/dovetail_privileged_daemon/rust/src/requirement_strength.rs:46-61 | Regrouping `and` leaves the list identical. |
| `RequirementMeaning.OrCommutesAndAssociates` | toolkit/dovetail_privileged_daemon/rust/src/requirement_strength.rs:46-61 | Swapping and regrouping `or` leave the list identical. |
| `RequirementMeaning.AndDistributesOverOr` | toolkit/dovetail_privileged_daemon/rust/src/requirement_strength.rs:46-61 | Distributing `and` over `or` leaves the list identical. |
| `RequirementMeaning.AlternativesAreBounded` | toolkit/dovetail_privileged_daemon/rust/src/requirement_strength.rs:46-61 | At most 128 masks in the result and 16384 collected on the way, for every tree. |
| `RequirementMeaning.DisjunctsExplode` | toolkit/dovetail_privileged_daemon/rust/src/requirement_strength.rs:46-61 | The normal form of `n` nested choices has 2^n disjuncts, so that bound is not the size of the formula. |
| `RequirementJudgement.AdmittedMasksAreSound` | toolkit/dovetail_privileged_daemon/rust/src/requirement_strength.rs:33-61 | For any tree, with `always` and negation too, and any truth value for each occurrence of a leaf: if every mask is admitted and the tree comes true, the leaves true outside the negations pin the code or anchor, name and sign it as the product; the `loosened` check is not needed for this. |
| `RequirementJudgement.AdmittedRequirementIsSound` | toolkit/dovetail_privileged_daemon/rust/src/requirement_strength.rs:33-61 | The same over the predicates the bytes spell, told apart by opcode, slot and data even where the parser takes them for one clause: the true ones include a code hash, or the anchor, a name and the signer's markers on the right certificates. |
| `RequirementJudgement.SpellingIsNaming` | toolkit/dovetail_privileged_daemon/rust/src/requirement_strength.rs:63-86 | What the true leaves say by opcode, slot and data is what their clauses say to the judge. |
| `RequirementJudgement.MarkersAreWritten` | toolkit/dovetail_privileged_daemon/rust/src/requirement_strength.rs:4-7 | The markers are the encodings of 1.2.840.113635.100.6.1.9, .6.2.6 and .6.1.13, by section 8.19 of X.690, and the field is `subject.OU`. |
| `RequirementJudgement.LoosenedByASubtree` | toolkit/dovetail_privileged_daemon/rust/src/requirement_strength.rs:88-94 | A tree is loosened if and only if `always` or a negation stands in it, at whatever depth. |
| `RequirementJudgement.RefusedMaskHasCountermodel` | toolkit/dovetail_privileged_daemon/rust/src/requirement_strength.rs:33-61 | A mask that is not admitted yields an assignment to the leaves that satisfies the tree and does not name the product. |
| `RequirementJudgement.JudgeIsExact` | toolkit/dovetail_privileged_daemon/rust/src/requirement_strength.rs:33-94 | The judge accepts a tree if and only if it is free of `always` and negation and every satisfying assignment names the product, whether truth is assigned to each occurrence of a leaf or to each clause. |
| `RequirementJudgement.JudgeIsExactForRequirements` | toolkit/dovetail_privileged_daemon/rust/src/requirement_strength.rs:33-94 | And if and only if the same holds of every assignment to the leaves of the expression spelled. |
| `RequirementJudgement.LoosenedTreeMayBeSound` | toolkit/dovetail_privileged_daemon/rust/src/requirement_strength.rs:88-94 | Refusing loosened trees only narrows: `cdhash and always` is sound and refused. |
| `RequirementJudgement.OpaqueLeavesAreApart` | toolkit/dovetail_privileged_daemon/rust/src/requirement_blob.rs:126-140 | A requirement with two entitlements, one negated, can hold and has only admitted masks, although no assignment satisfies the clause tree in which both are one leaf. |
| `RequirementJudgement.AcceptedBlobNamesTheProduct` | toolkit/dovetail_privileged_daemon/rust/src/requirement_strength.rs:18-31 | From bytes to meaning, with no clause between: a requirement is accepted if and only if it compiles to the writing of an expression of at most 64 levels, without `always` or negation anywhere, every satisfying assignment to whose leaves makes true a code hash, or the anchor, a name and the signer's markers. |
| `Framing.Framer.Decode` | toolkit/dovetail_privileged_channel/rust/src/framing.rs:17-24 | Cutting one frame from the bytes held: the frame and the rest, the refusal of a header above the cap, or nothing and no byte lost. |
| `Framing.Framer.Read` | toolkit/dovetail_privileged_channel/rust/src/framing.rs:17-24 | A read of any size changes neither the unread stream nor its order. |
| `Framing.Framer.RecvBytes` | toolkit/dovetail_privileged_channel/rust/src/framing.rs:106-122 | One receive depends only on the bytes of the stream and on how it ends, never on how reads cut it, and consumes exactly what it reports. |
| `Framing.Framer.RecvFrame` | toolkit/dovetail_privileged_channel/rust/src/framing.rs:106-122 | The same for decoded frames, with a payload that does not decode reported as malformed. |
| `Framing.Framer.SendFrame` | toolkit/dovetail_privileged_channel/rust/src/framing.rs:45-64 | An oversize frame is refused with its size and nothing written; otherwise the wire carries the length and payload, or the part a broken transport took. |
| `Framing.HeadStands` | toolkit/dovetail_privileged_channel/rust/src/framing.rs:106-122 | Bytes that arrive later never change a decision already made. |
| `Framing.FramesComeOutInOrder` | toolkit/dovetail_privileged_channel/rust/src/framing.rs:106-122 | Any list of frames within the cap comes out as it was sent, followed by what the tail of the stream gives. |
| `Framing.Framer.RecvAll` | toolkit/dovetail_privileged_channel/rust/src/framing.rs:106-122 | Receiving until something other than a frame comes gives exactly the results of the unread stream, however it is cut into reads. |
| `Framing.ReceiveInChunks` | toolkit/dovetail_privileged_channel/rust/src/framing.rs:17-24 | A new receiver, over reads that cut the stream anywhere, yields exactly the frames sent, in order, and then what the tail of the stream gives: the end, if there is none. |
| `Framing.Framer.RecvFrames` | toolkit/dovetail_privileged_channel/rust/src/framing.rs:106-122 | Receiving frames until something else comes gives exactly the decoded results of the unread stream. |
| `Framing.Framer.SendFrames` | toolkit/dovetail_privileged_channel/rust/src/framing.rs:45-64 | A run of sends stops at the first frame that is oversize or that the transport does not take whole, and writes what the specification says. |
| `Framing.SendingIsOnTheWire` | toolkit/dovetail_privileged_channel/rust/src/framing.rs:45-64 | What that writes is the frames sent, one behind the other, and no more than the part of the next one that the transport took. |
| `Framing.SendThenReceive` | toolkit/dovetail_privileged_channel/rust/src/framing.rs:45-122 | Frames sent on one side, over a stream cut into reads anyhow, are received on the other as the same frames in order, then what the failed send left gives, or the end if none failed. |
| `Framing.StreamCutInsideAFrame` | toolkit/dovetail_privileged_channel/rust/src/framing.rs:247-259 | A stream that closes inside a frame ends in an I/O error, except just behind a header the library has already consumed. |
| `Framing.HeaderAboveTheCap` | toolkit/dovetail_privileged_channel/rust/src/framing.rs:215-229 | A header above 65536 is refused as too large from its four bytes alone, after every earlier frame. |
| `Framing.BrokenTransportIsAnError` | toolkit/dovetail_privileged_channel/rust/src/framing.rs:74-84 | A transport that breaks between frames or anywhere inside one gives the frames before it and then an I/O error. |
| `Framing.EndedMeansClosed` | toolkit/dovetail_privileged_channel/rust/src/framing.rs:106-122 | The end is reported if and only if the peer closed between frames, or behind a header the library has already consumed. |
| `Framing.ReceiveUntilBroken` | toolkit/dovetail_privileged_channel/rust/src/framing.rs:74-84 | A new receiver over any cutting of such a stream yields the frames and then the error. |
| `Framing.ReceiveFramesUntilBroken` | toolkit/dovetail_privileged_channel/rust/src/framing.rs:74-84 | And so for decoded frames under a faithful codec. |
| `Framing.UndecodableIsMalformed` | toolkit/dovetail_privileged_channel/rust/src/framing.rs:231-245 | A payload that does not decode is reported as malformed behind the frames before it, and ends the reading. |
| `Framing.WireStarts` | toolkit/dovetail_privileged_channel/rust/src/framing.rs:215-223 | A frame starts with its length in four bytes, the most significant first, and the rest is the payload. |
| `Framing.SentFrameIsReceived` | toolkit/dovetail_privileged_channel/rust/src/framing.rs:45-64 | What one side accepts to send the other receives as the same frame, and nothing behind it is consumed. |
| `Handshake.ReadHello` | toolkit/dovetail_privileged_channel/rust/src/handshake_server.rs:92-139 | Reading the first frame consumes one frame and gives the Hello or the fault with the refusal to send. |
| `Handshake.PerformServerHandshake` | toolkit/dovetail_privileged_channel/rust/src/handshake_server.rs:31-90 | The server reads once, attempts one ServerHello, and returns the negotiated session or the fault. |
| `Handshake.AcceptsExactlyItsMajor` | toolkit/dovetail_privileged_channel/rust/src/handshake_server.rs:58-83 | The ServerHello accepts if and only if a Hello of the server's own major arrived, carries a refusal if and only if it does not accept, and always carries the server's own major, version, nonce and view of the peer. |
| `Handshake.RefusalTellsWhy` | toolkit/dovetail_privileged_channel/rust/src/handshake_server.rs:58-68 | The refusal's code tells a version, an oversize frame, an impossible frame and a missing Hello apart, each if and only if that is what arrived; none is retryable. |
| `Handshake.ServerFaultTellsWhy` | toolkit/dovetail_privileged_channel/rust/src/handshake_server.rs:92-147 | The fault the server ends with tells a deadline, an end, a failed read, each wrong frame by name and a failed send apart, each if and only if that is what happened. |
| `Handshake.ClientFaultTellsWhy` | toolkit/dovetail_privileged_channel/rust/src/handshake_client.rs:42-78 | And so for the client, with the refusal it was sent. |
| `Handshake.PerformClientHandshake` | toolkit/dovetail_privileged_channel/rust/src/handshake_client.rs:26-79 | The client sends one Hello, and only if it was sent waits for one frame; its result is a function of both. |
| `Handshake.HalvesAgree` | toolkit/dovetail_privileged_channel/rust/src/handshake_client.rs:26-79 | If the client holds a session, the majors are equal, the server accepted, both sides hold the smaller minor, the server holds the client's own Hello, and the client the server's own version, nonce and view of the peer. |
| `Handshake.SessionIffSameMajorAndBothThrough` | toolkit/dovetail_privileged_channel/rust/src/handshake_client.rs:26-79 | The client holds a session if and only if both frames crossed and the majors are equal. |
| `Handshake.DifferentMajorsAreRefused` | toolkit/dovetail_privileged_channel/rust/src/handshake_server.rs:58-83 | With different majors the server refuses and the client never holds a session; when the reply arrives it carries VERSION_UNSUPPORTED and the server's own version. |
| `Handshake.VersionMismatchNeedsAnotherServer` | toolkit/dovetail_privileged_channel/rust/src/handshake_client.rs:66-72 | Against this server the client's own version check never fires: the refusal always comes first. |
| `Handshake.WireIsAPassage` | toolkit/dovetail_privileged_channel/rust/src/framing.rs:106-122 | The transport of the composed handshake is the framed wire: a whole frame goes through, and a wire cut anywhere inside it shows the reader an end or an error, never a frame. |
| `Connection.Handle` | toolkit/dovetail_privileged_daemon/rust/src/connection.rs:95-116 | A request is validated, then either answered INVALID_PARAMS undispatched or dispatched once and answered under its id. |
| `Connection.Serve` | toolkit/dovetail_privileged_daemon/rust/src/connection.rs:67-119 | The loop produces exactly the specified log, and fails if and only if its last act is a reply that was not delivered. |
| `Connection.HandleConn` | toolkit/dovetail_privileged_daemon/rust/src/connection.rs:37-120 | The whole connection produces exactly the specified log and result. |
| `Connection.EveryMomentIsAccountable` | toolkit/dovetail_privileged_daemon/rust/src/connection.rs:67-117 | At every moment of serving: replies are the ones due, in order and under the ids received; at most one request awaits its reply; only commands already validated and accepted are dispatched, each once. |
| `Connection.BlockKeepsAccount` | toolkit/dovetail_privileged_daemon/rust/src/connection.rs:95-116 | Handling one request in full keeps the account and adds exactly one request and one reply. |
| `Connection.AccountableAnswersInOrder` | toolkit/dovetail_privileged_daemon/rust/src/connection.rs:95-116 | Each reply carries the id of the request in its place and one of three payloads: the product's refusal, not retryable; exactly what the command returned; or that it took too long, retryable. |
| `Connection.ReadsAreWhatArrives` | toolkit/dovetail_privileged_daemon/rust/src/connection.rs:67-84 | Serving reads what arrives, one after the other and none skipped. |
| `Connection.ServingStopsInTime` | toolkit/dovetail_privileged_daemon/rust/src/connection.rs:67-119 | Serving ends at the first read that is not a request or the first reply lost, sends nothing but responses, and ends with a reply attempted for every request read. |
| `Connection.DeliveredFallsShortByTheLost` | toolkit/dovetail_privileged_daemon/rust/src/connection.rs:95-116 | The replies that reached the peer are all those attempted, but for the last one when it was lost. |
| `Connection.WholeRun` | toolkit/dovetail_privileged_daemon/rust/src/connection.rs:37-120 | One ServerHello, right behind the first read; nothing is read, validated or dispatched after it unless it accepted and was delivered; then at every moment the account holds and each reply answers the request in its place with the refusal, the command's own result or the timeout; every request read has its reply, and delivered replies fall one short only when the last send failed, after which nothing is read. |
| `XpcConnection.Connection.Offer` | toolkit/dovetail_privileged_channel/rust/src/xpc_ffi.rs:31-38 | An offer is taken while both ends are there; a closing offer says whether it was the one that closed. |
| `XpcConnection.Connection.DeliverBytes` | toolkit/dovetail_privileged_channel/rust/src/xpc_ffi.rs:44-48 | Delivered bytes, or a null pointer, have the effect of the offer. |
| `XpcConnection.Connection.Route` | toolkit/dovetail_privileged_channel/rust/xpc_shim.c:12-21 | An event that is not a message closes the sink; a message without bytes is dropped. |
| `XpcConnection.Connection.PollRead` | toolkit/dovetail_privileged_channel/rust/src/xpc_connection.rs:94-110 | A read hands out at most its room from the message at hand, keeps the rest, waits when nothing is there, and ends only on a closed and drained sink. |
| `XpcConnection.Connection.Recv` | toolkit/dovetail_privileged_channel/rust/src/xpc_connection.rs:76-81 | A receive hands out the unread rest of a message before any later message. |
| `XpcConnection.Connection.PollWrite` | toolkit/dovetail_privileged_channel/rust/src/xpc_connection.rs:114-123 | A write sends its bytes as one message, an empty one as none, and reports all of it written. |
| `XpcConnection.StreamIsConserved` | toolkit/dovetail_privileged_channel/rust/src/xpc_connection.rs:76-110 | For any mix of arrivals, reads of any room and receives: bytes handed out and bytes ahead are the bytes ahead at first and those admitted. Nothing is lost, duplicated or reordered. |
| `XpcConnection.OutputIsAPrefix` | toolkit/dovetail_privileged_channel/rust/src/xpc_connection.rs:76-110 | From a fresh connection the bytes handed out are always a prefix of the concatenated messages. |
| `XpcConnection.Connection.PerformAll` | toolkit/dovetail_privileged_channel/rust/src/xpc_connection.rs:76-110 | Any mix of arrivals, reads and receives on one connection leaves the state, and hands out the bytes, that the run functions of the laws below say. |
| `XpcConnection.WritesAreRead` | toolkit/dovetail_privileged_channel/rust/src/xpc_connection.rs:94-123 | One side's writes, cut anyhow, are the other side's reads, taken anyhow, together with what is still ahead, also when the writer has gone since; a reader that has come to the end has read every byte written. |
| `XpcConnection.Connection.WriteAll` | toolkit/dovetail_privileged_channel/rust/src/xpc_connection.rs:114-123 | A run of writes sends the non-empty ones, in order, one message each. |
| `XpcConnection.WriteThenReceive` | toolkit/dovetail_privileged_channel/rust/src/xpc_connection.rs:94-123 | Frames that one connection writes in any pieces before it goes, and another is read for in any pieces until the end, come out of the framed receiver as the same frames in order, and then the end. |
| `XpcConnection.SomeRunReachesTheEnd` | toolkit/dovetail_privileged_channel/rust/src/xpc_connection.rs:94-110 | For any writes there is such a run: the end is reached. |
| `XpcConnection.NothingArrivesAfterClose` | toolkit/dovetail_privileged_channel/rust/src/xpc_ffi.rs:31-38 | A closed sink stays closed in every run and admits nothing more. |
| `XpcConnection.NoEmptyMessageIsEverQueued` | toolkit/dovetail_privileged_channel/rust/xpc_shim.c:18-20 | No run queues an empty message. |
| `XpcConnection.EmptyReadMeansTheEnd` | toolkit/dovetail_privileged_channel/rust/src/xpc_connection.rs:94-110 | After any run, a read with room that yields no byte means end of stream, and the end of stream yields no byte. |
| `XpcConnection.ReadGivesTheNextBytes` | toolkit/dovetail_privileged_channel/rust/src/xpc_connection.rs:94-110 | After any run a read waits if and only if nothing is ahead and the sink is open; otherwise it gives the first bytes ahead, as many as its room and the message at hand allow. |
| `XpcConnection.ReceiveGivesTheNextMessage` | toolkit/dovetail_privileged_channel/rust/src/xpc_connection.rs:76-81 | After any run a receive reports the end if and only if nothing is left and nothing can come, waits if and only if nothing is ahead and the sink is open, and otherwise gives the first bytes ahead. |
| `XpcConnection.OfferTellsWhetherItJoined` | toolkit/dovetail_privileged_channel/rust/src/xpc_ffi.rs:31-38 | An offer of bytes is answered yes if and only if both ends are there, and then, only then, they join the stream. |
| `XpcConnection.AnEmptyMessageWouldLookLikeTheEnd` | toolkit/dovetail_privileged_channel/rust/src/xpc_connection.rs:99-108 | Were an empty message queued, the same read would report the end with bytes still ahead. |
| `Executor.Request` | toolkit/dovetail_http_client/rust/src/client/executor.rs:22-79 | A store that fails, a missing token and a body that does not serialise end the request before any execution; otherwise the loop runs with the stored token exactly when authenticated. |
| `Executor.ExecuteWithRetries` | toolkit/dovetail_http_client/rust/src/client/executor.rs:36-79 | The loop over token, refresh flag and attempt count terminates and yields exactly the specified result and acts. |
| `Executor.AnswerTellsTheResult` | toolkit/dovetail_http_client/rust/src/client/executor.rs:106-130 | Each error if and only if its answer: 401, 403, 429, 5xx and every other failed status are told apart and named, a 2xx that does not decode and a failed transport too. |
| `Executor.RefreshDecidesTheAnswer` | toolkit/dovetail_http_client/rust/src/client/executor.rs:55-62 | After a 401 and the shared refresh: a session that cannot be renewed leaves the request with that 401, a failed refresh or store with the failure, and a renewed one has it executed again with the new token. |
| `Executor.LoopBudget` | toolkit/dovetail_http_client/rust/src/client/executor.rs:36-79 | From wherever the loop stands, executions, refreshes and sleeps stay within what is left, and the sleeps follow the schedule. |
| `Executor.RequestBudget` | toolkit/dovetail_http_client/rust/src/client/executor.rs:22-79 | At most max_retries + 2 executions (+ 1 without authentication), one refresh, max_retries sleeps, and their total is the closed form. |
| `Executor.BudgetIsReached` | toolkit/dovetail_http_client/rust/src/client/executor.rs:36-79 | The bound on executions is attained by a 401 followed by failures worth retrying. |
| `Executor.DelaysAddUp` | toolkit/dovetail_http_client/rust/src/client/executor.rs:139-142 | n retries sleep base * (2^min(n,7) - 1 + 64 * max(0, n - 7)) in all. |
| `Executor.BearerIffAuthenticated` | toolkit/dovetail_http_client/rust/src/client/executor.rs:36-45 | Every execution of every run carries a token if and only if the request is authenticated. |
| `Executor.BearersFollowTheRefresh` | toolkit/dovetail_http_client/rust/src/client/executor.rs:36-62 | Every execution carries the latest token: a refresh is told the one in use, and what it yields replaces it from the next execution on. |
| `Executor.CarriesOneOfTwoTokens` | toolkit/dovetail_http_client/rust/src/client/executor.rs:36-62 | So no execution carries anything but the first token or the renewed one. |
| `Executor.AnswersTheLastExecution` | toolkit/dovetail_http_client/rust/src/client/executor.rs:50-79 | The result is exactly what the last execution brought back, unless a refresh behind it failed, when it is that failure; every earlier execution failed. |
| `Executor.RefusedTokenIsNotSentAgain` | toolkit/dovetail_http_client/rust/src/client/executor.rs:55-62 | When the refresh is a task among any number of others, whatever a request executes after it carries the token the task was given, and never the token that was refused. |
| `SingleFlight.RefreshSession` | toolkit/dovetail_http_client/rust/src/client/executor.rs:82-104 | One undisturbed refresh: what the store and the caller get, for each refresher answer and each failing read of the store. |
| `SingleFlight.StepKeepsInvariant` | toolkit/dovetail_http_client/rust/src/client/executor.rs:82-104 | Every step of every task, dropped requests included, keeps lock ownership exact and the chain of tokens: each success replaced the token it was asked to. |
| `SingleFlight.RunKeepsInvariant` | toolkit/dovetail_http_client/rust/src/client/executor.rs:82-104 | So does every run of any number of tasks. |
| `SingleFlight.RefreshIsSingleFlight` | toolkit/dovetail_http_client/rust/src/client/mod.rs:18-25 | In every interleaving at most one refresh succeeds for the requests holding any one token, at most one task is in the critical section, and no request is handed back the token it came with. |
| `SingleFlight.LaterHoldersDoNotRefresh` | toolkit/dovetail_http_client/rust/src/client/executor.rs:90-97 | Once a refresh succeeded for a token, a later holder of that token that gets the lock returns the stored one without calling the refresher. |
| `SingleFlight.StepsRefineTheMethod` | toolkit/dovetail_http_client/rust/src/client/executor.rs:82-104 | The steps of one task, run without interference, do to the store and give the task what the method does, for every refresher answer and each failing read of the store. |
| `RefusalLog.Log.Refuse` | toolkit/dovetail_privileged_daemon/rust/src/refusal_log.rs:18-27 | A refusal inside the window, or before the last line by a clock that went back, is counted silently; any other gets a line that reports and clears the count. |
| `AcceptLoop.Accept` | toolkit/dovetail_privileged_daemon/rust/src/server.rs:127-172 | The loop has exactly the specified effects, in order, whether it ends by shutdown or by the end of the stream. |
| `AcceptLoop.ServedAsAccepted` | toolkit/dovetail_privileged_daemon/rust/src/server.rs:145-148 | Accepted connections are served in arrival order, none skipped and none twice. |
| `AcceptLoop.RefusalsAreConserved` | toolkit/dovetail_privileged_daemon/rust/src/server.rs:149-171 | From any state, lines with a reason plus all silenced counts reported equal the refusals seen plus those already pending. |
| `AcceptLoop.EveryRefusalIsReportedOnce` | toolkit/dovetail_privileged_daemon/rust/src/server.rs:127-172 | Over a whole run of the loop every refusal is accounted for exactly once. |
| `AcceptLoop.LinesAreSpaced` | toolkit/dovetail_privileged_daemon/rust/src/refusal_log.rs:18-27 | Lines with a reason are at least one window apart, however the clock jumps. |
| `AcceptLoop.NoWindowNoSilence` | toolkit/dovetail_privileged_daemon/rust/src/refusal_log.rs:18-27 | With a window of zero every refusal gets a line of its own. |
| `AcceptLoop.SpacingNeedsAWindow` | toolkit/dovetail_privileged_daemon/rust/src/refusal_log.rs:18-27 | The spacing holds for every sequence of outcomes if and only if the window is longer than zero. |
| `AcceptLoop.LineIffWindowPast` | toolkit/dovetail_privileged_daemon/rust/src/refusal_log.rs:18-27 | A refusal gets a line of its own if and only if every line so far is at least one window behind it. |
| `AcceptLoop.LineReportsAllSoFar` | toolkit/dovetail_privileged_daemon/rust/src/refusal_log.rs:18-27 | The line a refusal gets carries its own reason and, with the lines before it, accounts for every refusal so far; a refusal without a line stays pending. |
| `AcceptLoop.ClosingLineCounts` | toolkit/dovetail_privileged_daemon/rust/src/server.rs:169-171 | There is at most one closing line, and it counts at least one refusal. |
| `AcceptLoop.LinesInASpan` | toolkit/dovetail_privileged_daemon/rust/src/refusal_log.rs:18-27 | A span T holds at most T/window + 1 such lines. |
| `AcceptLoop.FailuresWait` | toolkit/dovetail_privileged_daemon/rust/src/server.rs:154-164 | k failures with no success between them, refusals or not, wait 50k(k+1) ms in all up to k = 20 and 21000 + 2000(k-20) ms beyond. |
| `AcceptLoop.AcceptingResets` | toolkit/dovetail_privileged_daemon/rust/src/server.rs:145-147 | An accepted connection starts the back-off again: the waits before and after it are independent. |
| `LaunchPayload.EncodeLaunch` | toolkit/dovetail_platform_channel/windows/launch_payload.cpp:29-48 | The loop yields the directory, two separators and the arguments joined by separators, a null argument as an empty one, a null list or negative count as none. |
| `LaunchPayload.SplitUndoesJoin` | toolkit/dovetail_platform_channel/lib/src/instance/windows_single_instance.dart:167-173 | Splitting at separators gives back any non-empty list of NUL-free arguments, trailing empty ones included. |
| `LaunchPayload.FirstPairEndsTheDirectory` | toolkit/dovetail_platform_channel/lib/src/instance/windows_single_instance.dart:160-171 | The first pair of separators is the one behind the directory, even when arguments that follow are empty. |
| `LaunchPayload.MessageCarriesThePayload` | toolkit/dovetail_platform_channel/windows/single_instance_guard.cpp:25-33 | The terminator counted on sending is the one character removed on receiving, while the byte size fits 32 bits. |
| `LaunchPayload.OnlyATerminatorGoes` | toolkit/dovetail_platform_channel/windows/guard_window.cpp:29-34 | Only a terminator is removed; data that ends otherwise is kept as it is. |
| `LaunchPayload.DirectoryAlone` | toolkit/dovetail_platform_channel/lib/src/instance/windows_single_instance.dart:159-174 | A payload without a pair of separators, or with nothing behind it, is all directory and no arguments. |
| `LaunchPayload.LaunchRoundTrip` | toolkit/dovetail_platform_channel/lib/src/instance/windows_single_instance.dart:159-174 | Encode, send, receive, decode gives every launch of NUL-free texts back, except that a single empty argument arrives as none; it is the only launch that changes. |
| `GuardWindow.Window.Enqueue` | toolkit/dovetail_platform_channel/windows/guard_window.cpp:29-38 | The payload joins the end of the queue without its terminator. |
| `GuardWindow.Window.CopyData` | toolkit/dovetail_platform_channel/windows/guard_window.cpp:40-55 | A message without memory or of size zero queues nothing; any other queues its whole characters. |
| `GuardWindow.Window.TakeForwardedLaunch` | toolkit/dovetail_platform_channel/windows/guard_window.cpp:141-149 | The oldest payload is taken and removed, or none. |
| `GuardWindow.Window.Open` | toolkit/dovetail_platform_channel/windows/guard_window.cpp:90-115 | Opening an open window changes nothing; a window that cannot be shown leaves none open and nothing queued. |
| `GuardWindow.Window.Close` | toolkit/dovetail_platform_channel/windows/guard_window.cpp:117-139 | Closing empties the queue. |
| `GuardWindow.QueueIsConserved` | toolkit/dovetail_platform_channel/windows/guard_window.cpp:29-38 | For any mix of arrivals, takes, openings and closings: payloads that left, delivered or dropped, then those queued, are those queued at first, then those sent. None is lost unrecorded, reordered or delivered twice. |
| `GuardWindow.OnlyClosingDrops` | toolkit/dovetail_platform_channel/windows/guard_window.cpp:117-139 | While an open window is not closed nothing is dropped; a closing drops exactly what is queued. |
| `GuardWindow.TakenAreTheDelivered` | toolkit/dovetail_platform_channel/windows/guard_window.cpp:141-149 | The payloads that departed as delivered are, in order, those the application took. |
| `GuardWindow.LaunchesArriveInOrder` | toolkit/dovetail_platform_channel/windows/guard_window.cpp:141-149 | The launches that leave the queue are the first ones sent, in order, each decoded to what it arrives as; the application has exactly those of them that were delivered, which is all unless the window closed, and the rest are still queued. |
| `SingleInstance.ForwardToPrimary` | toolkit/dovetail_platform_channel/windows/single_instance_guard.cpp:36-49 | At most forty looks; it delivers once, to the first window found, having waited 50 ms for each look before, and not at all otherwise. |
| `SingleInstance.Guard.Claim` | toolkit/dovetail_platform_channel/windows/single_instance_guard.cpp:53-85 | Each verdict if and only if the system answered accordingly; mutex and window are taken together, on that verdict alone. |
| `SingleInstance.Guard.Release` | toolkit/dovetail_platform_channel/windows/single_instance_guard.cpp:116-122 | Release gives up mutex and window together. |
| `SingleInstance.StepKeepsOneOwner` | toolkit/dovetail_platform_channel/windows/single_instance_guard.cpp:64-84 | Every step of every process keeps at most one owner per key: only a claim that finds no handle open creates one, and an owner keeps its handle. |
| `SingleInstance.StepKeepsGuard` | toolkit/dovetail_platform_channel/windows/single_instance_guard.cpp:53-85 | Every step also keeps windows and primary verdicts tied to an owned mutex. |
| `SingleInstance.AtMostOnePrimary` | toolkit/dovetail_platform_channel/windows/single_instance_guard.cpp:53-85 | In every interleaving of claims, failed openings, releases and exits, at most one process is opening, holding or closing a key, and only it shows the key's window. |
| `PrimaryVerdicts.HeldKeysKeepAnswersApart` | toolkit/dovetail_platform_channel/windows/single_instance_guard.cpp:53-62 | In every run in which each claim by a primary names the key it holds, no two processes are ever told that they are the primary for one key. |
| `PrimaryVerdicts.SharingIsWithinReach` | toolkit/dovetail_platform_channel/windows/single_instance_guard.cpp:59-61 | From any reachable state in which a primary was told another key than its own, any other process that has not exited can come to be told the same key, whoever holds it now. |
| `PrimaryVerdicts.SecondKeyBreaksTheGuard` | toolkit/dovetail_platform_channel/windows/single_instance_guard.cpp:59-61 | After a run of held-key claims, the answer to one more claim by a primary can come to be shared if and only if the key is not the one it holds and some other process has not exited; it owns the key if and only if it is the one it holds. |
| `PrimaryVerdicts.SecondKeyIsNotGuarded` | toolkit/dovetail_platform_channel/windows/single_instance_guard.cpp:59-61 | And that happens: for any two keys there is a run with two processes told that they are the primary for one key. |
| `PrimaryVerdicts.StepsRefineTheClaim` | toolkit/dovetail_platform_channel/windows/single_instance_guard.cpp:53-85 | The steps of one claim, run while the other processes stand still, give the verdict, mutex and window of the method for the same system answers, and enqueue a launch exactly on a verdict of secondary. |
| `PrimaryVerdicts.LookingRefines` | toolkit/dovetail_platform_channel/windows/single_instance_guard.cpp:36-49 | So do the looks of a secondary, from any attempt on. |
| `ForwardedLaunches.StepKeepsAccounted` | toolkit/dovetail_platform_channel/windows/single_instance_guard.cpp:70-76 | Every step keeps claims answered at most once, the launches enqueued equal to the claims answered secondary, and each launch in a queue, taken or dropped. |
| `ForwardedLaunches.SecondaryIffEnqueuedOnce` | toolkit/dovetail_platform_channel/windows/single_instance_guard.cpp:70-76 | A claim is answered secondary if and only if its payload was enqueued, and no payload is enqueued twice, in every interleaving. |
| `ForwardedLaunches.EveryLaunchIsInOnePlace` | toolkit/dovetail_platform_channel/windows/guard_window.cpp:29-38 | In every reachable state an enqueued launch is exactly once in a queue, taken or dropped, and any other launch is nowhere. |
| `ForwardedLaunches.StandsIffNotGone` | toolkit/dovetail_platform_channel/windows/guard_window.cpp:141-149 | A launch stands in a queue if and only if it was enqueued and neither taken nor dropped; it is never both. |
| `ForwardedLaunches.OneQueueAtMost` | toolkit/dovetail_platform_channel/windows/guard_window.cpp:29-38 | It stands in one place of one queue. |
| `ForwardedLaunches.LaunchesStandWithTheOwner` | toolkit/dovetail_platform_channel/windows/single_instance_guard.cpp:36-45 | A queued launch stands with the process that owns the mutex of the key it was claimed for and shows that key's window. |
| `ForwardedLaunches.FateIsSealedByItsHolder` | toolkit/dovetail_platform_channel/windows/guard_window.cpp:117-149 | In every run a launch is dropped if and only if the process whose queue held it failed to open, released or exited at that moment, and taken if and only if its application took it from the front. |
| `ForwardedLaunches.SecondaryLaunchMayBeDropped` | toolkit/dovetail_platform_channel/windows/single_instance_guard.cpp:70-76 | A reachable state in which a claim was answered secondary and its launch was dropped untaken. |
| `Multipart.MultipartBody` | toolkit/dovetail_http_client/rust/src/client/multipart.rs:18-32 | The buffer extended step by step is the header lines, a blank line, the content and the closing delimiter. |
| `Multipart.SafeFilenameIsClean` | toolkit/dovetail_http_client/rust/src/client/multipart.rs:11-16 | The sanitised name holds no quote, backslash, CR or LF and no white space at its ends, and is all that stands between the white space at the ends of the replaced name. |
| `Multipart.Utf8TellsTheCharacter` | toolkit/dovetail_http_client/rust/src/client/multipart.rs:21-27 | The bytes of each character tell it, as section 3 of RFC 3629 lays them out. |
| `Multipart.BodyReadsBack` | toolkit/dovetail_http_client/rust/src/client/multipart.rs:18-32 | Read line by line, the body is the boundary behind two dashes, the disposition with the sanitised name in quotes, the content type, a blank line, the content, and the boundary between dashes. |
| `Multipart.SafeNamesAreKept` | toolkit/dovetail_http_client/rust/src/client/multipart.rs:11-16 | A name is kept as it is if and only if it is already clean; sanitising twice is sanitising once. |
| `Multipart.NameReadsBack` | toolkit/dovetail_http_client/rust/src/client/multipart.rs:21-27 | The sanitised name ends at the first quote behind the opening one, whatever the file was called. |
| `Multipart.BoundaryFitsItsHeader` | toolkit/dovetail_http_client/rust/src/client/multipart.rs:6-9 | The boundary of any digest has no CR or LF and fits the seventy characters of section 5.1.1 of RFC 2046. |
| `Multipart.BoundaryTellsTheDigest` | toolkit/dovetail_http_client/rust/src/client/multipart.rs:6-9 | Two digests give one boundary if and only if they agree in their first twelve bytes. |
| `Multipart.HeaderEndsAtTheBlankLine` | toolkit/dovetail_http_client/rust/src/client/multipart.rs:20-28 | The first blank line of the body is the one behind the header. |
| `Multipart.NoOverlap` | toolkit/dovetail_http_client/rust/src/client/multipart.rs:29-30 | A delimiter cannot start in the content and run into the real one, since its only CR is its first byte. |
| `Multipart.ContentRoundTrip` | toolkit/dovetail_http_client/rust/src/client/multipart.rs:18-32 | For any file name and bytes, the bytes between the first blank line and the next delimiter are the content if and only if the delimiter does not occur in it. |

## Left out

- Foreign calls (Security, CoreFoundation, libxpc, Win32, sockets): what they answer is an input. The judge starts from the compiled bytes.
- Serialisation (serde): a pair of functions with a round trip in `Framing`, whole frames above it. A payload that fails to serialise on sending is not modelled.
- Transport of HTTP (reqwest): an answer is a failure, or a status and a body that may decode. Paths, headers other than the bearer token, and the bodies of error answers are not modelled.
- What a predicate of a requirement means to the system that evaluates it: each leaf is true or false at will, the opcode that is never true included.
- The framing library: only the four-byte big-endian length, the cap and the end-of-stream rule.
- Time: a deadline that passes is one of the things a wait can give. `Instant`s are millisecond counts, and the saturating difference is written out.
- Widths of counters and delays: retries, failures, refusals and durations are unbounded; overflow of `u32`, `u64` and `Duration` is not modelled. Lengths in blobs, frames and window messages are 32-bit.
- `usize` is taken as unbounded: `checked_add` in the requirement parser never overflows, and a 32-bit length always converts.
- Panics, poisoned locks and memory exhaustion; in particular `DovetailTakeForwardedLaunch` losing a payload when its copy cannot be allocated.
- The digest behind a multipart boundary: any bytes. That a content does not contain its own delimiter is a condition, not a theorem.
- Multipart.ContentRoundTrip: asks that boundary and content type hold no CR or LF, which the source neither checks nor needs in order to build the body; the boundary's half is `Multipart.BoundaryFitsItsHeader`.
- RequirementStrength.FindAlternatives: calls the sort and the removal of duplicates as functions on values; the library's in-place algorithms are not modelled.
- SingleFlight.RefreshIsSingleFlight: rests on a refresher that stores a token never held before when it reports success, on a store that nothing else writes, and on an initial token, without which no authenticated request starts.
- The single-instance machine: one claiming thread a process, and delivery as one step that either enqueues the payload or fails; a message that times out and is enqueued all the same is not modelled. The pump thread and window registration are the steps `ShowWindow`, `FinishOpening` and `FailOpening`.
- Connection.HandleConn: one connection alone; the product's `dispatch` may depend on how many commands ran before on this connection, not on other connections.
- Handshake.PerformClientHandshake: reports the kind of an unexpected frame, where the source prints the frame whole.
- Messages of the version refusal keep the two majors, not the sentence around them.
- Logging, service managers, peer policy, plist trust, exit codes, list envelopes, routes, hotkeys and the Dart widgets: single-branch facts, case tables or input and output.
