# MPTP over SMUX, and RPC on top: a verified model

This project models the message layer of an RPC stack that runs over multiplexed channels, and
proves that bytes keep their boundaries from one end to the other. It covers:

- **Quotas and chunks.** Read and write halves lend segments of any granted length, possibly in
  several slices; `LimitedReader` and `LimitedWriter` enforce a byte quota that is settled when a
  segment goes back. The chunk encoder turns a source of unknown length into frames of a two-byte
  big-endian length and a payload, closed by an empty frame; the chunk reader undoes it.
- **The wire.** Prefixes are two or three MessagePack values in a row (MessagePack specification,
  "nil format", "int format family", "str format family", "map format family"), read a few bytes at
  a time and never one too many. Headers tell how the body is framed.
- **The session.** A client sends prefix, body and suffixes, then reads prefix, body and suffix. The
  state machine is a relation between values, `Session.Step`; the class `MptpSession` runs over two
  halves and every one of its methods is proved to make one such step.
- **The pipeline.** Encoder, 64-byte ring, chunk sender, bounded channel and chunk reader as one
  state machine in which any party may move next.
- **The call.** Server-side dispatch over a channel whose trace every read, every write and the
  half-close append to, the client's side of a unary call, and the two put together.
- **Routing.** A two-level segment trie and a pair of cons lists matched by string prefix, and
  exactly when the two agree.

What a borrow answers, when a cancellation strikes, how much of a segment a caller uses, what a
decoder asks for and what a service returns are left open: methods choose them nondeterministically
or take them as parameters, and the contracts hold for every choice. Reads that can go on for ever
take a bound on the number of borrows. A half may also be `steady`: nothing fails on it, no wait for it
is cancelled, and it refuses only for its end. Over steady halves the contracts say that things succeed.

Where to start: `ChunkFormat` (the format), `ChunkedEncode.WriteAll`, `ChunkedReader.RunDeliversPayload`,
`Pipeline.EveryRunDelivers`, `Session.RunSendsInOrder` and `Session.ResponseRun`,
`RpcCall.Handle`, `EndToEnd.CallReachesService`, `RouterAgreement.AgreementIsNormality`.

Some properties one might expect do not hold of the code. Each is stated here with its exact
condition:

- The two routers agree on a location for every registration exactly when the location, trimmed, has
  no doubled slash (`RouterAgreement.AgreementIsNormality`).
- The framing the sender derives from the headers is the one the server derives, exactly when the
  headers do not declare both a size and chunks and the size is not a positive hexadecimal text
  (`BodyFraming.FramingsAgree`). The documentation calls declaring both a protocol violation; the
  code prefers the size on one side and the chunks on the other.
- The session's drain borrows and gives back untouched. Its comment says that borrowing consumes; it
  does not, so the suffix starts after the body exactly when the body was read whole
  (`Session.SuffixAfterView`, `Session.ResponseRun`, `Session.UnopenedBodyIsNotSkipped`).
- A borrow from the chunk reader keeps the body exactly when it does not break off between two header
  bytes (`ChunkedReader.BodyKeptUnlessByteLost`).
- When the sender of a body fails, the encoder at the other end of the ring returns exactly when all
  it has left fits into the ring (`Pipeline.EncoderReturnsAfterFailure`).
- A caller takes a cut-off value for a whole one, with status 200, exactly when the encoder of the
  reply failed and its sender did not (`RpcCall.CallerIsMisled`); and a server takes a cut-off request
  for a whole one exactly when the client's encoder failed and its sender did not
  (`EndToEnd.ServerIsMisled`).
- The drain that closes a call reads until the peer closes exactly when what is left is a whole number
  of its 4096-byte steps; a shorter rest stays unread (`RpcCall.ReadToTheEnd`).

## Model

| member | source | states |
|---|---|---|
| Demands.Narrow | abs_mptp/src/messaging/limited.rs:350-359 | narrowing a demand to a quota is intersection: it fails exactly when the quota is used up or no allowed length fits, and otherwise allows exactly the lengths both allow |
| Demands.TotalOf | abs_mptp/src/messaging/limited.rs:159-167 | the slice-by-slice total of a segment is the length of its bytes |
| Demands.MoveOut | abs_mptp/src/messaging/limited.rs:194-202 | moving bytes out of a segment of several slices takes exactly its front |
| Channels.TakesFront | abs_mptp/src/messaging/limited.rs:194-202 | what came through a port is the front of what was to come, at the port and at the bare half behind it |
| Channels.TakesTwice | abs_mptp/src/messaging/limited.rs:194-202 | consecutive takes add up: bytes, bare half and every quota on the way |
| Channels.TakesWithin | abs_mptp/src/messaging/limited.rs:401-428 | what came through a view came through whatever is behind it, and both paid for it |
| Readers.Take | abs_mptp/src/messaging/limited.rs:194-202 | borrowing and giving back advances the half by exactly the bytes moved out, never more than was lent, and charges every quota on the way with them |
| Readers.TakeLimited | abs_mptp/src/messaging/limited.rs:523-552 | through a quota, this quota, every quota behind it and the bare half are charged with exactly the bytes moved |
| Readers.LimitedReader.constructor | abs_mptp/src/messaging/limited.rs:406-412 | a fresh view has its whole quota and has moved nothing |
| Readers.LimitedReader.ConsumerState | abs_mptp/src/messaging/limited.rs:507-513 | what the view reports is what lies behind it reports, capped by the quota, and closed once the quota is used up; it is true of the bytes that come through |
| Readers.LimitedReader.Lend | abs_mptp/src/messaging/limited.rs:523-552 | a lent segment is a front of what the quota still covers and of an allowed length; `Closing` means the demand cannot be met any more; over a steady half it lends something whenever the demand wants and the bytes allow it |
| Readers.LimitedReader.Reclaim | abs_mptp/src/messaging/limited.rs:194-202 | giving a segment back charges this quota and every quota behind it with exactly what left it, and the bare half advances by the same |
| Writers.LimitedWriter.Lend | abs_mptp/src/messaging/limited.rs:716-741 | granted room is of an allowed length and covered by every quota on the way down; over a steady half room is granted whenever the quotas cover what the demand needs |
| Writers.LimitedWriter.ProducerState | abs_mptp/src/messaging/limited.rs:703-712 | what the view reports is what lies behind it reports, capped by the quota, and closed once the quota is used up |
| Writers.LimitedWriter.Put | abs_mptp/src/messaging/limited.rs:283-291 | giving a write segment back charges this quota and every quota behind it with the bytes written and appends exactly those |
| Readers.BorrowNested | abs_mptp/src/messaging/limited.rs:401-428 | whatever is borrowed through a view of a view is charged to both, and is no more than the smaller quota |
| Readers.BorrowMany | abs_mptp/src/messaging/limited.rs:431-552 | over any sequence of borrows with any consumption, every quota on the way and the bare half are charged with exactly what was moved, never past the limit; over a steady half borrows content with a byte each get one while there is any |
| Writers.FillMany | abs_mptp/src/messaging/limited.rs:654-741 | the same for any sequence of writes, each of a front of what was offered; over a steady half willing writes go on until a quota is used up |
| Readers.ReadExact | abs_mptp/src/messaging/limited.rs:756-806 | reads exactly the asked bytes or fails with fewer; what was read plus what is left is what was there; from a steady half it succeeds if and only if they are there |
| ChunkFormat.HeaderIsBigEndian | abs_mptp/src/messaging/chunked.rs:289-291 | a chunk header is the big-endian form of the length and reads back as it |
| ChunkFormat.TakeFromChunk | abs_mptp/src/messaging/chunked.rs:561-578 | taking bytes inside a chunk delivers them and leaves the rest of the body as it was |
| ChunkFormat.Resume | abs_mptp/src/messaging/chunked.rs:228-313 | a wire that stops between chunks can be continued by any bytes, which are read after it |
| ChunkFormat.BodyRoundTrip | abs_mptp/src/messaging/chunked.rs:278-337 | frames and terminator followed by any tail read back as exactly the payload, up to the tail |
| ChunkFormat.UnfinishedBody | abs_mptp/src/messaging/chunked.rs:278-313 | frames without a terminator read back as their payload and as unfinished |
| ChunkFormat.DeframeIsExact | abs_mptp/src/messaging/chunked.rs:545-598 | what the reader takes for a complete or unfinished body is exactly what the encoder's format writes |
| ChunkedEncode.ChunkCap | abs_mptp/src/messaging/chunked.rs:236-251 | a chunk is never empty, fits two header bytes, is no longer than the source has, and its frame asks for no more than max(free, 3) bytes |
| ChunkedEncode.ChunkCapIsLargest | abs_mptp/src/messaging/chunked.rs:236-251 | no larger chunk would keep to the source, the room and the 16-bit length |
| ChunkedEncode.BorrowNext | abs_mptp/src/messaging/chunked.rs:229-276 | a borrowed chunk is a non-empty front of the source, no longer than the size settled from what both ends report; the source is done only when nothing is left of it; nothing fails on a steady source |
| ChunkedEncode.WriteChunk | abs_mptp/src/messaging/chunked.rs:278-312 | one frame is written whole or cut short by the target, and exactly the payload bytes that went out leave the source |
| ChunkedEncode.WriteNext | abs_mptp/src/messaging/chunked.rs:229-313 | one turn writes one non-empty frame of the source's next bytes, or ends, or fails, with its account kept, the chunk no longer than the settled size |
| ChunkedEncode.WriteChunks | abs_mptp/src/messaging/chunked.rs:228-313 | at every exit of the loop the target gained whole frames of exactly the bytes that left the source |
| ChunkedEncode.WriteTerminator | abs_mptp/src/messaging/chunked.rs:315-335 | the terminator is written whole or the failure is reported with what was written |
| ChunkedEncode.WriteAll | abs_mptp/src/messaging/chunked.rs:218-337 | success frames the whole source, closes it and returns the wire length; every failure leaves whole non-empty frames and no terminator, made of exactly the bytes taken (a torn frame only when the target breaks its promise); between steady halves it succeeds |
| ChunkedEncode.SuccessReadsBack | abs_mptp/src/messaging/chunked.rs:218-337 | after success the wire reads back as the bytes taken from the source, followed by any tail |
| ChunkedEncode.FailureReadsBack | abs_mptp/src/messaging/chunked.rs:253-335 | after any failure no reader takes the wire for a finished body, and it reads back as exactly the bytes taken |
| ChunkedEncode.AccountReadsBack | abs_mptp/src/messaging/chunked.rs:218-337 | whatever a call came to, what it wrote deframes to exactly the bytes that left the source, complete if and only if it succeeded |
| ChunkedEncode.WriteLimited | abs_mptp/src/messaging/limited.rs:497-514 | with a quota view as source, at every exit exactly the bytes framed have left the source and the quotas behind the view, no more than the quota; success frames exactly the bytes the quota covers |
| ChunkedReader.ChunkedReader.ReadAsync | abs_mptp/src/messaging/chunked.rs:545-598 | one asynchronous borrow is a step: it may open the next chunk, lends inside one chunk only, and every error leaves the place it names; over a steady half only the end of the wire stops it and it lends something where there is something |
| ChunkedReader.ChunkedReader.TryRead | abs_mptp/src/messaging/chunked.rs:462-490 | the synchronous borrow never reads a header, and would block exactly at a chunk boundary |
| ChunkedReader.ChunkedReader.OpenChunk | abs_mptp/src/messaging/chunked.rs:581-596 | a header is read whole and opens a chunk or ends the body; anything else is reported |
| ChunkedReader.StepKeepsBody | abs_mptp/src/messaging/chunked.rs:545-598 | a borrow that keeps its place delivers the next bytes of the body and leaves the rest of it |
| ChunkedReader.GreedyStepMoves | abs_mptp/src/messaging/chunked.rs:545-598 | over a complete body an unhindered borrow that is content with one byte gets one, or sees the end |
| ChunkedReader.StepMovesForward | abs_mptp/src/messaging/chunked.rs:545-598 | whatever comes of a borrow, the reader only moves forward on the wire |
| ChunkedReader.RunKeepsBody | abs_mptp/src/messaging/chunked.rs:545-598 | over any schedule of borrows, delivered bytes and the body still ahead make up the body |
| ChunkedReader.RunDeliversPayload | abs_mptp/src/messaging/chunked.rs:545-598 | over any schedule on a complete body, delivered is a front of the payload; once the end is reported it is all of it and exactly frames and terminator were consumed |
| ChunkedReader.RunOverBrokenBody | abs_mptp/src/messaging/chunked.rs:581-590 | over a body that breaks off the end is never reported |
| ChunkedReader.BodyKeptUnlessByteLost | abs_mptp/src/messaging/chunked.rs:581-590 | over every complete body a borrow delivers the next bytes and leaves the rest of it if and only if it did not break off between the two header bytes |
| ChunkedReader.LosingAByteMisreads | abs_mptp/src/messaging/chunked.rs:581-590 | a wire on which such an exit turns a complete body into one that breaks off |
| Pipeline.StepKeepsInv | rpc_core_v1/src/client/proxy_.rs:190-204 | every step of encoder, sender and reader keeps payload = delivered, in flight, in the ring, not yet encoded, in that order, and a frame within max(free, 3) |
| Pipeline.SomebodyCanMove | rpc_core_v1/src/client/proxy_.rs:190-204 | with room for three bytes and no failure, until all is delivered some step is enabled |
| Pipeline.StepLowersWork | rpc_core_v1/src/client/proxy_.rs:190-204 | every step lowers the work left |
| Pipeline.RunKeepsInv | rpc_core_v1/src/client/proxy_.rs:190-204 | the invariant holds in every reachable state, and runs are bounded |
| Pipeline.EveryRunDelivers | rpc_core_v1/src/client/proxy_.rs:190-204 | every run is finite, and one that cannot go on has delivered the whole payload and drained the channel |
| Pipeline.DeliveredIsFront | rpc_core_v1/src/serving/ctx_.rs:281-295 | in every reachable state the delivered bytes are a front of the payload |
| Pipeline.SomeRunFinishes | rpc_core_v1/src/client/proxy_.rs:190-204 | from every such state some run delivers everything |
| Pipeline.NoRunDelivers | abs_mptp/src/messaging/chunked.rs:236-251 | with less room no run delivers anything |
| Pipeline.DeliveryNeedsRoomForThree | abs_mptp/src/messaging/chunked.rs:236-251 | a payload can get through exactly when the channel has room for three bytes, or for two if it is empty |
| Pipeline.FailureKeepsBytes | rpc_core_v1/src/client/proxy_.rs:199-204 | a sender that fails at any point loses and repeats nothing, and the reader never sees the end |
| Pipeline.EncoderReturnsAfterFailure | rpc_core_v1/src/client/proxy_.rs:193-204 | after such a failure every run is finite, and the encoder returns in some run, as in every run that cannot go on, if and only if what it has left fits into the ring |
| Paths.SegmentsAppend | rpc_router_trie/src/trie_.rs:112-116 | cutting at a slash cuts the segments in two |
| Paths.JoinSegments | rpc_router_trie/src/trie_.rs:112-116 | joined segments cut back into themselves |
| Paths.TrimSegments | rpc_router_trie/src/trie_.rs:108-116 | trimming slashes does not change the segments |
| Paths.PrefixMatchesSegments | mptp_smux/src/serving/router_.rs:269-281 | for normal paths, matching by string is being a segment prefix |
| Paths.LongerBySegmentsIsLonger | mptp_smux/src/serving/router_.rs:339-361 | of two normal paths that prefix a location, the one longer by segments is the one longer by characters |
| PathTrie.PathTrie.Insert | rpc_router_trie/src/trie_.rs:63-72 | stores at its own segments and nowhere else, and hands back what was there |
| PathTrie.PathTrie.Contains | rpc_router_trie/src/trie_.rs:75-84 | tells exactly whether a value is stored under the path's segments |
| PathTrie.InsertAtLaw | rpc_router_trie/src/trie_.rs:63-72 | an insert changes one entry of the represented map |
| PathTrie.InsertsRepresentMap | rpc_router_trie/src/trie_.rs:63-72 | after any inserts the tree is the map from segments to the last value inserted |
| PathTrie.MatchLongest | rpc_router_trie/src/trie_.rs:90-105 | returns the value at the longest stored prefix of the query and its length in segments |
| PathTrie.Holds | rpc_router_trie/src/trie_.rs:75-84 | the walk finds a path exactly when a value is stored there |
| LongestMatch.LongestIs | rpc_router_trie/src/trie_.rs:86-105 | the longest match is the only depth that matches with none deeper |
| TrieRouter.BuildServiceTrie | rpc_router_trie/src/router_.rs:166-176 | succeeds exactly when no two routes have the same segments, and else names the first that repeats |
| TrieRouter.RpcRouter.AddInterface | rpc_router_trie/src/router_.rs:104-125 | succeeds exactly when the path is new and the services distinct; a failure leaves every resolution as it was and says which of the two it was |
| TrieRouter.RpcRouter.Resolve | rpc_router_trie/src/router_.rs:127-132 | resolves to the longest service inside the longest interface |
| ListRouter.MatchRouteIsBest | mptp_smux/src/serving/router_.rs:339-361 | the match is the most recently registered among the routes that reach furthest, and none exactly when none reaches |
| ListRouter.EqualReachIsEqualPrefix | mptp_smux/src/serving/router_.rs:269-281 | two prefixes that reach equally far are the same trimmed string |
| ListRouter.DispatchRuns | mptp_smux/src/serving/router_.rs:363-399 | dispatch at an index runs the handler registered there, and falls off the list exactly past its end |
| ListRouter.MatchedDispatchRuns | rpc_core_v1/src/serving/rpc_router_.rs:162-209 | dispatch at a matched index runs that handler and never reaches the empty list |
| ListRouter.MatchedPrefixStrips | rpc_core_v1/src/serving/rpc_router_.rs:301-312 | a prefix that matched can be taken off |
| ListRouter.RouteNeverFallsThrough | rpc_core_v1/src/serving/rpc_router_.rs:395-424 | for every registration a request runs a service or is not found; taking off an interface mounted under its own path never fails |
| RouterAgreement.RegisterAll | rpc_router_trie/src/router_.rs:104-125 | registering well-formed interfaces one by one builds the two-level trie of all of them |
| RouterAgreement.ServicesAgree | rpc_core_v1/src/serving/rpc_router_.rs:162-187 | inside an interface, trie and list choose the same service |
| RouterAgreement.RoutersAgree | rpc_router_trie/src/router_.rs:127-132 | for distinct normal paths and a location without inner empty segments, trie and lists choose the same service or both none |
| RouterAgreement.NormalFormMisses | mptp_smux/src/serving/router_.rs:269-281 | the normal form of a location with a doubled slash does not match that location as a string |
| RouterAgreement.RoutersDiffer | rpc_router_trie/src/trie_.rs:112-116 | for every location with a doubled slash some registration is answered differently |
| RouterAgreement.AgreementIsNormality | rpc_router_trie/src/router_.rs:127-132 | agreement on a location for all registrations is the same as the location being normal |
| Locations.ConcatTrims | rpc_core_v1/src/messaging/interface_.rs:55-64 | a composed location, trimmed, is the two trimmed parts with one slash between |
| Locations.ConcatSlashes | rpc_core_v1/src/messaging/interface_.rs:55-64 | a composed location has one slash in front, and one behind exactly when there is no service |
| Locations.StripUndoesConcat | rpc_core_v1/src/messaging/interface_.rs:55-64 | stripping undoes composition, empty parts included |
| Locations.ConcatReaches | rpc_core_v1/src/messaging/interface_.rs:55-64 | an interface reaches into every location composed from it, by its whole length |
| Locations.ComposedLocationArrives | rpc_core_v1/src/serving/rpc_router_.rs:301-312 | a composed location runs the latest service registered under that path, unless another interface reaches further |
| DemoRouter.Router.AddTarget | mptp_smux_v1_demo/src/router_.rs:30-32 | registers under the exact key and hands back what was replaced |
| DemoRouter.Router.TryMatch | mptp_smux_v1_demo/src/router_.rs:38-53 | terminates with the target of the longest key that equals the location, is empty or is followed by a slash; none exactly when no key answers |
| MessagePack.U16RoundTrip | mptp_smux/src/messaging/num_or_str_.rs:139-160 | an unsigned number decodes back from its shortest form, followed by anything |
| MessagePack.TextRoundTrip | mptp_smux/src/messaging/num_or_str_.rs:139-160 | so does a text of any length class |
| MessagePack.MapHeaderRoundTrip | mptp_smux/src/messaging/headers_.rs:767-792 | so does a map header |
| MessagePack.AnyWidthDecodes | mptp_smux/src/messaging/num_or_str_.rs:176-211 | the width and signedness a non-negative number is written with do not change it |
| MessagePack.NegativeDecodes | mptp_smux/src/messaging/num_or_str_.rs:176-211 | a negative number decodes from its two's complement in any signed width |
| MessagePack.SmallNegativeDecodes | mptp_smux/src/messaging/num_or_str_.rs:176-211 | so does one that is written in the tag itself |
| MessagePack.OtherFamiliesFail | mptp_smux/src/messaging/num_or_str_.rs:176-234 | values of any other family are refused |
| MessagePack.EncodedIsValid | mptp_smux/src/messaging/num_or_str_.rs:205-234 | the UTF-8 form of any characters is a valid text |
| MessagePack.ValidIsEncoded | mptp_smux/src/messaging/num_or_str_.rs:205-234 | and a valid text is the UTF-8 form of some characters, none of them a surrogate |
| Headers.InsertSorts | mptp_smux/src/messaging/headers_.rs:639-645 | storing keeps the map in key order and adds at most one entry |
| Headers.NumbersComeFirst | mptp_smux/src/messaging/num_or_str_.rs:42-49 | in key order the numbers come first, rising, and the texts follow |
| Headers.TextOrder | mptp_smux/src/messaging/num_or_str_.rs:42-46 | texts are ordered by their first differing byte, a front before the longer text |
| Headers.InsertLaw | mptp_smux/src/messaging/headers_.rs:639-645 | storing changes what is found under its key and under no other |
| Headers.RemoveLaw | mptp_smux/src/messaging/headers_.rs:647-658 | removing takes away its key and no other |
| Headers.KeyRoundTrip | mptp_smux/src/messaging/num_or_str_.rs:139-234 | a bare number or text decodes to itself, keeping its form |
| Headers.EntriesRoundTrip | mptp_smux/src/messaging/headers_.rs:767-849 | a map's entries decode back to the same map, followed by anything |
| Headers.DecodedIsSorted | mptp_smux/src/messaging/headers_.rs:828-849 | whatever order and repeats the wire has, the decoded map is in key order |
| Headers.HeadersRoundTrip | mptp_smux/src/messaging/wire_.rs:231-254 | an optional map round-trips; absent and empty stay distinct |
| Prefix.MethodCodesAreExact | mptp_smux/src/messaging/wire_.rs:53-65 | a code names a method exactly when it is that method's bit |
| Prefix.RequestRoundTrip | mptp_smux/src/messaging/wire_.rs:105-192 | every request prefix decodes back from its bytes followed by anything, which is left untouched |
| Prefix.ResponseRoundTrip | mptp_smux/src/messaging/wire_.rs:231-303 | so does every response prefix, with any 16-bit status |
| Prefix.RequestsDoNotOverlap | mptp_smux/src/messaging/wire_.rs:105-134 | equal wires carry equal prefixes and equal bodies |
| Prefix.TornPrefixFails | mptp_smux/src/messaging/wire_.rs:285-303 | a response prefix that broke off anywhere does not decode |
| Prefix.WriteRequestPrefix | mptp_smux/src/messaging/wire_.rs:105-134 | writes exactly the encoding, or a proper front of it on failure; into a steady half it succeeds |
| Prefix.WriteResponsePrefix | mptp_smux/src/messaging/wire_.rs:231-254 | the same for responses |
| PrefixReader.ReadEntries | mptp_smux/src/messaging/headers_.rs:828-849 | the insert loop yields the map decoding defines, or its error |
| PrefixReader.ReadRequestPrefix | mptp_smux/src/messaging/wire_.rs:165-192 | reading in pieces yields what decoding the pending bytes defines, and consumes exactly the prefix; from a steady half it fails only where decoding does, for want of bytes if the bytes run out |
| PrefixReader.ReadResponsePrefix | mptp_smux/src/messaging/wire_.rs:285-303 | the same for responses |
| BodyFraming.DecimalRoundTrip | mptp_smux/src/messaging/headers_.rs:184-196 | a number printed in decimal, with a plus or not, parses back to itself exactly when it fits 64 bits, and is not taken for hexadecimal |
| BodyFraming.HexRoundTrip | mptp_smux/src/messaging/headers_.rs:184-196 | so does a number printed in hexadecimal, in either case, behind `0x` or `0X` |
| BodyFraming.TrimsWhiteSpace | mptp_smux/src/messaging/headers_.rs:184-196 | exactly the characters with the property White_Space are trimmed, at either end |
| BodyFraming.ChunkedInAnyCase | mptp_smux/src/messaging/headers_.rs:605-613 | a text declares chunks exactly when it spells "chunked" in any case, white space around it or not |
| BodyFraming.FramingsAgree | abs_mptp/src/messaging/cs_.rs:85-123 | sender and server frame a body alike if and only if the headers do not declare both forms and the size is not positive hexadecimal |
| BodyFraming.PlanFollowsSender | mptp_smux/src/client/session.rs:147-161 | the plan made from a declaration always exists and moves what the declaration says |
| Copy.WriteBody | rpc_core_v1/src/messaging/body_.rs:103-135 | writes all bytes in order, or a proper front of them; into a steady half all of them |
| Copy.MoveOnce | mptp_smux/src/client/session.rs:410-463 | one turn moves the source's next bytes to the target, exactly the lesser of the borrowed segment and the granted room, or fails having moved nothing |
| Copy.CopySized | mptp_smux/src/client/session.rs:397-465 | terminates; success moves exactly the declared size in order, failure has written exactly the fewer bytes it took; between steady halves it fails only because the source ends early |
| Copy.CopyAll | mptp_smux/src/client/session.rs:505-570 | success moves the whole source in order, failure has written exactly what it took; between steady halves it succeeds for anything up to the largest quota |
| Copy.ReadBody | rpc_core_v1/src/messaging/body_.rs:140-181 | reads exactly the declared size in order, or fails with fewer; from a steady half it fails only because the bytes end early |
| Message.BodyReadsBack | mptp_smux/src/client/session.rs:646-665 | under every plan, a body that keeps to it reads back whole and reading stops at the tail |
| Message.PlanOfIs | mptp_smux/src/client/session.rs:167-179 | a response may declare any body, except that one to `Head` or `Drop` must declare none |
| Message.ResponseReadsBack | mptp_smux/src/client/session.rs:582-665 | prefix, plan from that prefix, body: the client gets what was sent and stops at the first tail byte, unless `Head` or `Drop` is answered with a body |
| Message.RequestReadsBack | rpc_core_v1/src/serving/ctx_.rs:228-246 | the server gets a request's body whole and stops at the first tail byte, whenever the framings agree |
| BodyView.ReadSized | mptp_smux/src/client/session.rs:802-852 | any reads through a sized view: what is left is the declared size minus the bytes consumed; greedy reads over a steady half each get a byte until the body is at its end |
| BodyView.ReadChunked | mptp_smux/src/client/session.rs:802-852 | any reads through a chunk view: delivered bytes and the body ahead make up the body, unless a read broke off inside a header; greedy reads of a complete body over a steady half lose nothing and each get a byte until they see the end |
| Session.BeginSends | mptp_smux/src/client/session.rs:214-233 | a session begins with its prefix sent, waiting for a body exactly when one is declared |
| Session.StepSendsInOrder | mptp_smux/src/client/session.rs:343-391 | each call extends prefix, body, suffixes in that order |
| Session.RunSendsInOrder | mptp_smux/src/client/session.rs:343-501 | over every run without a failed transfer the send half is the prefix, the declared body at most once, the suffixes in order |
| Session.PrefixReadyHasPlan | mptp_smux/src/client/session.rs:604-611 | in every run from the beginning, failed calls included, a session ready for the body has its plan and has read none of the body |
| Session.RejectionIsByState | mptp_smux/src/client/session.rs:353-372 | the step relation turns a call away exactly by its state, and then nothing is written, read or changed; that the code keeps to it is proved at the `MptpSession` methods below |
| Session.PrefixIsAccepted | mptp_smux/src/client/session.rs:167-179 | a prefix at the front of the inbox can be read if and only if it declares no body or the request was neither `Head` nor `Drop` |
| Session.UnopenedBodyIsNotSkipped | mptp_smux/src/client/session.rs:691-692 | a declared body that was never opened is not skipped: the suffix starts right if and only if the plan is no body or size zero |
| Session.SizedBodyGivenBack | mptp_smux/src/client/session.rs:690-708 | a sized view given back records exactly the declared size minus what was delivered, and the rest of the body is next |
| Session.SuffixAfterView | mptp_smux/src/client/session.rs:690-708 | under every plan, after a view was given back and the rest drained, the suffix starts right if and only if the view had delivered the whole body |
| Session.DrainReachesTail | mptp_smux/src/client/session.rs:717-750 | the drain of a chunked body reaches the tail if and only if no payload was ahead of the view |
| Session.UnfinishedDrain | mptp_smux/src/client/session.rs:698-701 | between two chunks of a complete body the drain can return "done" if and only if only the terminator is left |
| Session.RunIsUnderway | mptp_smux/src/client/session.rs:582-709 | in every run without a failed read, state, plan, progress and inbox are those of the response as far as it was read |
| Session.ResponseRun | mptp_smux/src/client/session.rs:582-709 | in every such run that opened the suffix, it starts at the first byte after the body if and only if the whole body was delivered; reading a view to its end, or no declared body, suffices |
| MptpSession.SendPlanned | mptp_smux/src/client/session.rs:369-390 | a body is sent as planned: success leaves exactly its wire, failure no whole body, and at either exit exactly the bytes that the wire carries have left the source; between steady halves it fails only for want of declared bytes |
| MptpSession.MptpSession.constructor | mptp_smux/src/client/session.rs:214-233 | a new session is the initial state of the state machine |
| MptpSession.MptpSession.SendReqBody | mptp_smux/src/client/session.rs:343-391 | sending the body is a step; a rejected call writes nothing and takes nothing from the source, and any other takes exactly the bytes that went out; between steady halves it is done exactly when the source holds the declared bytes |
| MptpSession.MptpSession.SendReqSuffix | mptp_smux/src/client/session.rs:479-503 | sending a suffix is a step; at every exit exactly the bytes sent have left the source, none when it is rejected and all when it is done |
| MptpSession.MptpSession.RecvRespPrefix | mptp_smux/src/client/session.rs:582-612 | reading the prefix is a step that consumes exactly the prefix and settles the plan with it; on a steady half it is done exactly when a prefix decodes that may declare what it declares |
| MptpSession.MptpSession.RecvRespBody | mptp_smux/src/client/session.rs:620-665 | taking the body view, any reads and giving it back is a step that records the progress; greedy reads of a whole body on a steady half each get a byte until its end |
| MptpSession.MptpSession.RecvErrorBody | rpc_core_v1/src/client/proxy_.rs:218-224 | reading an error body takes exactly the declared bytes or fails; on a steady half it takes them if they are there |
| MptpSession.MptpSession.DrainSized | mptp_smux/src/client/session.rs:694-697 | draining a sized rest moves nothing, and ends only when less than a step is left of it or of the inbox |
| MptpSession.MptpSession.DrainChunks | mptp_smux/src/client/session.rs:698-701 | draining a chunked rest reads at most the next header |
| MptpSession.MptpSession.RecvRespSuffix | mptp_smux/src/client/session.rs:673-709 | opening the suffix is a step; on a steady half it is done exactly when the drain of what the session recorded can return |
| Reply.StatusPrefixDeclares | rpc_core_v1/src/serving/ctx_.rs:313-316 | an error reply declares the length of its message, and none when it is empty |
| Reply.StatusReplyReadsBack | rpc_core_v1/src/serving/ctx_.rs:302-326 | the caller reads an error reply whole: status, declared length, message |
| Reply.OkReplyReadsBack | rpc_core_v1/src/serving/ctx_.rs:251-297 | the caller reads a successful reply whole: status and every byte of the value |
| Reply.CallReadsBack | rpc_core_v1/src/client/proxy_.rs:170-182 | the server reads a call whole: both ends take its body for chunked |
| Reply.CallOnTheWire | rpc_core_v1/src/client/proxy_.rs:170-182 | the bytes a call to `/a/b` begins with |
| Reply.RefusalOnTheWire | rpc_core_v1/src/serving/ctx_.rs:302-326 | the bytes of a refusal with status 404 and a message of one letter |
| RpcCall.CallCtx.DecodeCall | rpc_core_v1/src/serving/ctx_.rs:228-246 | decoding writes nothing; whatever it asks for, the decoder is given a front of the body, at its end the whole body, and no byte behind it is taken (unless a read broke off inside a chunk header) |
| RpcCall.TakeBody | rpc_core_v1/src/messaging/body_.rs:80-98 | the body view chosen from the headers hands the decoder the body's bytes in order and nothing behind it, and shows the end exactly after the last of them |
| RpcCall.CallCtx.ReplyStatus | rpc_core_v1/src/serving/ctx_.rs:302-326 | one prefix and the message, or a front of one of them; on a steady half all of it |
| RpcCall.CallCtx.ReplyOk | rpc_core_v1/src/serving/ctx_.rs:251-297 | one prefix and a body that deframes to what was encoded exactly when the sender succeeded; the reply is done exactly when encoder and sender both did |
| RpcCall.CallCtx.Close | mptp_smux/src/serving/server_.rs:224-230 | the channel's trace gains the half-close first, then the drain; the send half is closed, and a drain that the peer's close ended leaves exactly what does not fill a step; on a steady half the drain is ended so |
| RpcCall.DrainToEof | mptp_smux/src/serving/server_.rs:241-274 | the drain takes whole steps off the front of what the peer sent, and the trace shows it; on a steady half it goes on until less than a step is left, the rest of division by the step |
| RpcCall.ReadToTheEnd | mptp_smux/src/serving/server_.rs:213-230 | after a call whose drain the peer's close ended, everything the peer sent was read if and only if what the request left of it is a whole number of steps |
| RpcCall.Reject | rpc_core_v1/src/serving/rpc_router_.rs:315-335 | a refusal is one reply, then one half-close, then one drain, in that order in the channel's trace |
| RpcCall.DispatchCall | rpc_svc_macro/src/expand_.rs:253-350 | the emitted dispatch takes the request, handing its decoder the body, and then writes one reply: the value the service returned, or the status and message of a rejected request or a raised error |
| RpcCall.Choose | rpc_core_v1/src/serving/rpc_router_.rs:367-424 | the service of a request is found by stripping, matching and dispatching, and only for calls |
| RpcCall.CharsOfUnits | mptp_smux/src/serving/server_.rs:185-196 | a location is routed as the string the client composed, to the character |
| RpcCall.Handle | rpc_core_v1/src/serving/rpc_router_.rs:367-427 | a request is handled to its end: the channel's trace grows by exactly the request, one reply, the half-close and the drain, in that order; the send half is closed; the reply is 405 for anything but a call, 404 where no service is reached, and else what the best service came to, its decoder having been handed the body |
| Server.TopHandler | mptp_smux/src/serving/router_.rs:428-450 | past the top router the way through the handler is the way of the whole routing, for every registration |
| Server.HandOver | mptp_smux/src/serving/server_.rs:185-208 | without a handler nothing is read or written; a handler runs exactly the service the routing names, or answers 404 to a call and 405 to anything else |
| Server.OtherMethodsAreRefused | rpc_core_v1/src/serving/rpc_router_.rs:381-393 | a request that is not a call runs no service, and its caller reads status 405 and the refusal exactly when no write failed |
| Server.HandledToTheEnd | mptp_smux/src/serving/server_.rs:213-230 | a handled channel whose drain the peer ended was read to its end exactly when what the request left is a whole number of steps |
| Server.ServeChannel | mptp_smux/src/serving/server_.rs:171-211 | exactly the prefix is read before the handler, whose trace follows; nothing is written unless a handler is reached; on a steady channel a prefix that decodes is served, the reply written whole, and the drain ended by the peer |
| RpcCall.OpenChannel | mptp_smux/src/serving/server_.rs:320-326 | an accepted channel has two halves of its own, an open send half with nothing written and all of the peer's bytes to come |
| Server.ServeNext | mptp_smux/src/serving/server_.rs:320-332 | one turn of a listener serves an accepted channel from its first byte; the listener goes on exactly when a handler finished its reply; on a steady channel nothing fails |
| RpcCall.TraceSends | rpc_core_v1/src/serving/rpc_router_.rs:367-427 | over a handled call the bytes sent are the reply's, the bytes taken the request's and the drain's, and the trace has them in that order |
| RpcCall.OnePrefix | rpc_core_v1/src/serving/rpc_router_.rs:367-427 | at most one reply prefix is written: one exactly when the reply begins with the whole of it, and always when no write failed |
| RpcCall.CloseInOrder | rpc_core_v1/src/serving/ctx_.rs:167-174 | in the channel's trace of a handled call there is one half-close; before it bytes come in, then go out; after it bytes only come in |
| RpcCall.ReplyReachesCaller | rpc_core_v1/src/client/proxy_.rs:206-230 | a reply written to its end reads back at the caller with its status and to the last byte |
| RpcCall.CallerReadsIfSent | rpc_core_v1/src/client/proxy_.rs:206-230 | a caller reads a whole reply if and only if no write of it failed, whatever the encoder came to |
| RpcCall.CallerIsMisled | rpc_core_v1/src/serving/ctx_.rs:281-296 | a caller takes a value that was not encoded to its end for a whole one, with status 200, if and only if the encoder failed and the sender did not |
| RpcCall.AnyCutCanMislead | rpc_core_v1/src/serving/ctx_.rs:281-296 | wherever the encoder stops there is such a reply |
| UnaryClient.SendCall | rpc_core_v1/src/client/proxy_.rs:190-204 | without a failed write the call puts exactly the encoded value on the wire, in closed frames; else a front of it, never closed; between steady halves nothing fails |
| UnaryClient.ReceiveReply | rpc_core_v1/src/client/proxy_.rs:206-230 | a value is read off status 200 only, and then the decoder decides; any other status ends in an error that carries exactly the declared bytes; on a steady half a reply that is there does not end in a failed transfer |
| UnaryClient.UnaryCall | rpc_core_v1/src/client/proxy_.rs:153-231 | an encoder failure is reported first, whatever was sent; otherwise the request went out whole, in frames of exactly the encoded value, before the reply was read |
| UnaryClient.ValueIsEncoded | rpc_core_v1/src/client/proxy_.rs:230 | the bytes a decoder got are a front of the encoded value, and all of it once the end was reported |
| UnaryClient.RemoteErrorIsVerbatim | rpc_core_v1/src/client/proxy_.rs:218-228 | a remote error carries the server's status and message to the byte |
| EndToEnd.AnswerIsTold | rpc_core_v1/src/client/proxy_.rs:206-230 | given all that the server wrote, a value is read off an answer with status 200 and is a front of its bytes, all of them at its end; a remote error is a refusal that was sent whole, verbatim |
| EndToEnd.RequestIsTaken | rpc_core_v1/src/client/proxy_.rs:190-204 | the decoder of a service that ran was handed a front of what the client encoded, and at its end all of it, which then was sent whole |
| EndToEnd.ServerGetsIfSent | rpc_core_v1/src/client/proxy_.rs:193-204 | a server reads a whole request if and only if no write of it failed, whatever the client's encoder came to |
| EndToEnd.ServerIsMisled | rpc_core_v1/src/client/proxy_.rs:193-204 | a server takes a request that was not encoded to its end for a whole one if and only if the encoder failed and the sender did not; the caller is told of it then |
| EndToEnd.CallReachesService | rpc_core_v1/src/client/proxy_.rs:153-231 | a caller that was told a value or an error reached the service registered last under its interface and service: that one ran, its decoder was handed the encoded request, at its end all of it, and the caller was told exactly its answer |
| EndToEnd.UnknownServiceIsNotFound | rpc_core_v1/src/serving/rpc_router_.rs:395-424 | a caller that was told anything of a call that reaches no service was told 404 and the location |
| EndToEnd.CallCanSucceed | rpc_core_v1/src/client/proxy_.rs:153-231 | wherever a location reaches a service, for every request and every value there is an exchange in which the service is handed the whole request and the caller the whole value |
| EndToEnd.CalmCallComesOut | rpc_core_v1/src/client/proxy_.rs:153-231 | where nothing fails, a call that reaches a service comes out as it should: a decoder that keeps reading is handed the whole request, the caller reads the whole value the service returned, or is told the status and message it raised |
| EndToEnd.CalmCallIsRefused | rpc_core_v1/src/client/proxy_.rs:153-231 | where nothing fails, a call that reaches no service is told 404, or a failed transfer if no interface is reached either |
| EndToEnd.RunCall | rpc_core_v1/src/client/proxy_.rs:153-231 | a caller and a server run over two steady channels make up an exchange in which nothing fails, whatever is encoded, asked for and returned |
| EndToEnd.CutCallCanRun | rpc_core_v1/src/client/proxy_.rs:193-204 | wherever the client's encoder stops, there is an exchange in which the service runs on the cut request, read to its end, while the caller is told that encoding failed |

## Left out

- Sockets, hosts, handshakes, configuration types, allocators and ring memory: no provable core.
- The buffer, ring, multiplexer and MessagePack libraries are not part of this model: `ByteSource` and `ByteSink` state what a borrow may answer, and MessagePack values are read as one stretch of bytes. How the library's decoder behaves when a value spans two chunks is not claimed.
- A `usize` is 64 bits wide, texts are shorter than 2^32 bytes and header maps smaller than 2^32 entries, which are MessagePack's own limits.
- `Readers.Port` and `Writers.OutPort` stand in for the generic reader and writer traits; a write segment is modelled by its length, not by its slices.
- PathTrie.PathTrie.Insert: the source walks down a tree of owned nodes in place; here the root is replaced by the updated tree value. Node identity is not captured; owned nodes have no aliases.
- MptpSession.MptpSession.RecvRespSuffix: the code's drain borrows for ever when a full step is always at hand; the method takes a bound on the borrows and counts running into it as a cancellation.
- MptpSession.MptpSession.RecvRespBody: after a read that broke off inside a header it claims only that the inbox moved forward; the body ahead is then not known to anybody.
- The `try_into` conversions of a body view, which record the progress when the view is taken rather than when it is given back.
- Retry after a failed session call, and re-chunking from a chunk reader, whose state report at a chunk boundary reads as the end of the source: the code does not establish these.
- Server.ServeNext: one turn of the listener; its loop and what it does to accept a channel are left out.
- RpcCall.TakeBody: after a read that broke off inside a chunk header it claims only that the bytes taken came off the front; the reader's place is lost.
- Server.ServeChannel: when no handler is reached the code drops both halves of the channel; the model says only that nothing was written and the prefix read.
- Tokens and races of cancellation: a cancellation is a possible exit wherever the code awaits.
- What services compute and the texts of error messages: a service's conduct is a parameter, with any value, status and message.
- Readers.ByteSource.ConsumerState: what a half reports of itself changes only when bytes move, not between two calls.
- Unary pipeline: the ring and the channel always report their state, as those in the repository do.
- The queued route chain, the macro's parsing and token generation apart from the dispatch it emits, the demo copies of trie and router, the store and the error-to-status tables.
