# Verified model of the emskin protocols

A Dafny 4.11 model of the stateful protocols of emskin, an embedded Wayland compositor, with proofs
that hold for every input stream, every way of cutting it, every kernel answer and every
interleaving. `dafny verify dfyconfig.toml` checks all of it.

What is modelled, file by file:

- **The in-process D-Bus broker.** `Sasl` (handshake scanner), `Wire` (D-Bus signatures, marshalling
  and unmarshalling), `Frames` (size, parsing, encoding, multi-argument bodies), `Splitter` (the
  per-connection stream splitter), `Outbox` (write queues and partial writes), `Attribution`
  (matching `SCM_RIGHTS` descriptors to frames), `Fcitx` (recognised calls, ids, replies), `Broker`,
  `Replies`, `ClientFds` (whole runs of one connection), `Pumps` (the two pumps as the code runs
  them) and `Sockets` (pumps, queues and both kernels in one system).
- **What that broker is measured against.** `WireLayout` and `MessageLayout` (the D-Bus
  Specification, sections "Marshaling (Wire Format)" and "Message Format", as relations between
  values and the places of their bytes), `ObjectPaths` (section "Valid Object Paths"),
  `WireExamples` (literal bytes) and `FcitxCalls` (the table of the fcitx5 interface). None of them
  uses the code's own sizes, paddings, field codes or name comparisons.
- **ext-workspace-v1.** `WorkspaceServer` (diffing against a per-client snapshot), `WorkspaceBar`
  (event dispatch), `Workspaces` (both ends together) and `WorkspaceGroups` (the events the bar
  ignores).
- **X11 INCR selection transfer.** `Incr` (owner and requestor) and `IncrRuns` (both, through
  shared properties; ICCCM section 2.7.2, "INCR Properties").
- **The recorder.** `ScreenRecorder` (state machine, readback pipeline, bounded queue),
  `RecorderRuns` (all runs) and `RecorderLive` (runs in which nothing fails: no due frame is missed).
- **Two kernels.** `Scanline` (the jelly cursor's quad filler against a per-pixel definition, over
  the reals) and `Ipc`, `IpcRuns` (length-prefixed messages over partial reads and writes).

Objects that the code updates in place are classes (`ConnectionState`, `PacketQueue`, `Connection`,
`ManagerInstance`, `BarState`, `Outgoing`, `Incoming`, `Recorder`, `IpcConn`, `IpcServer`); each of
their methods is proved equal to a specification function, and the laws are proved about those
functions over whole runs. Sockets are lists of kernel answers, and what counts as delivered is what
those answers took; descriptors are opaque numbers, and
whatever calls into code outside the repository answers (captures, resource creation, mapping,
spawning) is an input.

Where a promise turned out to be false the model keeps the code's behaviour, the exact condition is
proved for all inputs, and an input that fails is given:

- Cutting a client stream differently gives the same result unless the handshake ends more than one
  byte past 16 KiB in a stream whose messages are otherwise good (`Splitter.ChunkingIndependenceIff`;
  one long line in `Splitter.LongHandshakeDisagrees`). The error's description speaks of a line
  without a newline; the code measures the whole buffer.
- A frame survives encoding exactly when its object path is valid and its signature is not exactly
  one struct type (`Frames.RoundTripIff`, `Frames.StructSignatureChanges`); a multi-argument body
  decodes to its arguments exactly when none of them is a struct (`Frames.DecodeBodyIff`,
  `Frames.StructBodyChanges`).
- A client read that completes no frame and lets no byte through, while descriptors are queued, stops
  the client-to-bus direction for good (`ClientFds.UpstreamDrainsIff`,
  `ClientFds.SplitMessageStrands`). A frameless read that lets handshake bytes through carries the
  descriptors along with them instead.
- Finish events are complete exactly when no screenshot is requested while a recording runs or
  closes (`RecorderRuns.FinishEventsIff`, `RecorderRuns.ScreenshotLosesReport`).
- The quad filler paints the intended picture exactly when no pixel of the buffer that the quad
  covers with a visible colour is on a row whose centre meets an edge less than 1e-9 high
  (`Scanline.PlainImageIff`, `Scanline.ThinEdgeLosesRow`); without such an edge it always does
  (`Scanline.PlainWithoutFlatEdges`).
- The IPC server delivers every message that reached it exactly when the read that closes a
  connection, by the end of the stream or by an oversized header, completes no message
  (`IpcRuns.DeliveredIff`, over runs of the server `IpcRuns.DeliveredInRuns`; the two losses in
  `IpcRuns.LastMessageLost` and `IpcRuns.OversizedHeaderLoses`). The second makes what is delivered
  depend on how the stream is cut.
- A pasting client receives the whole selection exactly when no write to its descriptor fails early,
  and otherwise a prefix of it without notice (`IncrRuns.ClientReceives`).

The workspace diff looks entries up by id, so a snapshot in which an id repeats with different
contents would be sent again on every tick; `Workspaces.SettlesIff` says exactly when. That is
possible only for the function on its own: its one caller passes `all_ids()`, the active id and the
keys of a map, which are distinct (crates/emskin/src/tick.rs:529-563,
crates/emskin/src/state/workspace.rs:76-82), and distinct ids always settle
(`Workspaces.DistinctSettles`).

`fcitx::classify` is documented for method calls, but does not look at the message kind; neither
does the model. `request_recording` says it replaces a running recording; the request that does so
is not stored, so no successor starts, and none is promised here.

The laws of the broker hold for every way of counting declared descriptors and of choosing and
answering intercepted frames (`Broker.Policy`, `Attribution.Counts`); `Broker.FcitxPolicy` is the
one in use, and the pumps are proved for it.

## Model

| member | source | states |
|---|---|---|
| Sasl.ScanForBegin | crates/emskin-dbus/src/wire/sasl.rs:62-89 | the scanning loop computes the recursive scan of the lines |
| Sasl.ValidateLine | crates/emskin-dbus/src/wire/sasl.rs:95-108 | accepts exactly non-empty printable lines that start with an upper-case letter |
| Sasl.ValidLineIff | crates/emskin-dbus/src/wire/sasl.rs:95-108 | such a line is a capital letter and then anything from a space to a tilde |
| Sasl.UsualHandshake | crates/emskin-dbus/src/wire/sasl.rs:62-89 | AUTH EXTERNAL, NEGOTIATE_UNIX_FD and BEGIN are found, whatever follows, and end behind BEGIN's line end |
| Sasl.FoundIffHandshake | crates/emskin-dbus/src/wire/sasl.rs:62-116 | an end is reported exactly when the bytes up to it are a NUL and valid lines of which only the last is BEGIN |
| Sasl.InvalidIffRejected | crates/emskin-dbus/src/wire/sasl.rs:73-75 | the stream is refused as invalid exactly when some prefix ends in an invalid line with no BEGIN before it |
| Sasl.ScanExtends | crates/emskin-dbus/src/wire/sasl.rs:49-61 | a found end and an invalid line are stable under any extension |
| Sasl.ScanOfPrefix | crates/emskin-dbus/src/wire/sasl.rs:49-61 | a prefix that contains the end already finds it; a shorter one finds nothing or trips the guard |
| Wire.RoundTrip | crates/emskin-dbus/src/wire/frame.rs:381-389 | any valid value, of any nesting, unmarshals to itself at any offset and in either byte order |
| Wire.AllRoundTrip | crates/emskin-dbus/src/wire/frame.rs:450-459 | the same for a list of top-level values read by their types |
| Wire.ParseSigOfSigs | crates/emskin-dbus/src/wire/frame.rs:635-644 | a concatenation of type signatures parses back to exactly those types |
| Wire.SigsOfParseSig | crates/emskin-dbus/src/wire/frame.rs:635-644 | any signature that parses is the concatenation of its well-formed types |
| WireLayout.ReaderIff | crates/emskin-dbus/src/wire/frame.rs:450-459 | reading a type gives a value and an end exactly when that value is valid, of the type, and laid out there, up to that end, by the specification |
| WireLayout.WriterIff | crates/emskin-dbus/src/wire/frame.rs:411-415 | a value is laid out at a place exactly when its marshalled bytes stand there |
| WireLayout.BodyIff | crates/emskin-dbus/src/wire/frame.rs:635-644 | the bytes of a whole body are its arguments' layout, and are read back |
| WireExamples.OneHint | crates/emskin-dbus/src/fcitx.rs:170-173 | the 22 bytes of an `a(ss)` body with one hint, written and read |
| WireExamples.PathAndBytes | crates/emskin-dbus/src/fcitx.rs:323-338 | the 14 bytes of an `oay` body, written and read |
| WireExamples.SurroundingText | crates/emskin-dbus/src/fcitx.rs:240-247 | the 16 bytes of a `suu` body, written and read |
| WireExamples.CursorRect | crates/emskin-dbus/src/fcitx.rs:204-213 | the 24 bytes of an `iiiid` body, written and read |
| Frames.ParseEncode | crates/emskin-dbus/src/wire/frame.rs:357-436 | parsing an encoded frame gives it back up to an invalid path and outer parentheses, whatever follows it |
| MessageLayout.ParseIff | crates/emskin-dbus/src/wire/frame.rs:357-404 | a buffer parses as a frame exactly when it is that message by the specification, its header fields saying what the table of field codes says |
| MessageLayout.EncodedIsMessage | crates/emskin-dbus/src/wire/frame.rs:410-436 | an encoded frame is that message, from the first byte to the last |
| MessageLayout.HeadersAre | crates/emskin-dbus/src/wire/frame.rs:146-176 | each header is what the last entry with its code says |
| WireExamples.CallByteByByte | crates/emskin-dbus/src/wire/frame.rs:357-404 | the 48 bytes of a call with a path and a member parse as that frame |
| WireExamples.CallEncodes | crates/emskin-dbus/src/wire/frame.rs:410-436 | and the frame encodes to them |
| ObjectPaths.ValidPathIff | crates/emskin-dbus/src/wire/frame.rs:217 | a path is taken exactly when it is the root or slash-separated names of letters, digits and underscores |
| Frames.RoundTripIff | crates/emskin-dbus/src/wire/frame.rs:146-176 | parse inverts encode exactly when the path is valid and the signature is not exactly one struct type |
| Frames.StructSignatureChanges | crates/emskin-dbus/src/wire/frame.rs:146-176 | a frame with signature `(ii)` comes back changed |
| Frames.BytesNeededEncode | crates/emskin-dbus/src/wire/frame.rs:331-352 | the announced size of an encoded frame is its length, or it is refused as too large |
| Frames.LengthFromPrefix | crates/emskin-dbus/src/wire/frame.rs:331-352 | the first 16 bytes of an encoded frame announce its whole length |
| Frames.BytesNeededPrefix | crates/emskin-dbus/src/wire/frame.rs:331-352 | bytes beyond the fixed prefix never change the announced size |
| Frames.Align8IsPadding | crates/emskin-dbus/src/wire/frame.rs:666-668 | for every size, rounding up to eight adds the padding the encoder writes, or overflows |
| Frames.ParsedTexts | crates/emskin-dbus/src/wire/frame.rs:146-176 | header strings of a parsed frame hold no NUL and are no longer than the frame; its path and signature are valid ones |
| Frames.IncrementalMarshalling | crates/emskin-dbus/src/wire/frame.rs:635-644 | appending arguments one by one at the running offset marshals the whole tuple |
| Frames.DecodeBodyIff | crates/emskin-dbus/src/wire/frame.rs:450-459 | decoding by the concatenated signature returns the arguments exactly when none is a struct |
| Frames.StructBodyChanges | crates/emskin-dbus/src/wire/frame.rs:450-459 | a body of one struct of two integers does not decode to it |
| Splitter.ConnectionState.FeedFromClient | crates/emskin-dbus/src/broker/state.rs:96-141 | the feed, with its drain loop, is the specification function, and keeps the connection's invariant |
| Splitter.TilingIsUnique | crates/emskin-dbus/src/broker/state.rs:124-138 | a buffer divides into whole frames and an unfinished rest in exactly one way, the one the loop finds |
| Splitter.CutResumes | crates/emskin-dbus/src/broker/state.rs:124-138 | cutting may stop and resume at any byte of the stream |
| Splitter.FeedTiles | crates/emskin-dbus/src/broker/state.rs:35-44 | outbound plus leftover is the input; ranges are adjacent, start after the handshake, end with the outbound bytes, and each is one whole frame |
| Splitter.HandshakeEndsInChunk | crates/emskin-dbus/src/broker/state.rs:110 | the end of the handshake lies in the chunk that completes it, so the saturating subtraction never clamps |
| Splitter.NewFramesAreRanges | crates/emskin-dbus/src/broker/state.rs:134-136 | the reported ranges denote exactly the frames cut off |
| Splitter.ChunkingIndependence | crates/emskin-dbus/src/broker/state.rs:96-141 | any cutting of a stream whose handshake is not late gives the outbound bytes, frames and leftover of the uncut stream, or failure in both |
| Splitter.ChunkingIndependenceIff | crates/emskin-dbus/src/wire/sasl.rs:84-88 | all cuttings of a stream agree exactly unless its handshake ends past the guard and no malformed frame follows it |
| Splitter.LongHandshakeDisagrees | crates/emskin-dbus/src/wire/sasl.rs:84-88 | one line longer than 16 KiB passes in one read and fails in two |
| Outbox.PacketQueue.TryFlush | crates/emskin-dbus/src/proxy/mod.rs:878-930 | the flush loop is the specification function for every list of kernel answers, which `Outbox.FlushSendsWhatWasTaken` ties to the answers, and terminates |
| Outbox.FlushSendsWhatWasTaken | crates/emskin-dbus/src/proxy/mod.rs:899-906 | each send is exactly as long as the kernel, by its answers and the sizes offered, took; and the result says how the calls ended |
| Outbox.FlushDeliversWhatWasTaken | crates/emskin-dbus/src/proxy/mod.rs:899-906 | the first bytes of the queue, as many as were taken, are delivered, and the others stay |
| Outbox.TookIsAnswered | crates/emskin-dbus/src/proxy/mod.rs:893-930 | a call takes no more than it answered, and none is skipped, up to the first that takes nothing or fails |
| Outbox.QueueRunDelivers | crates/emskin-dbus/src/proxy/mod.rs:840-866 | over whole runs of queuing and flushing, what was delivered is the front of all that was queued, as much as the kernel took |
| Outbox.FlushKeepsStream | crates/emskin-dbus/src/proxy/mod.rs:878-930 | delivered plus queued is what was queued, byte for byte; each descriptor group leaves once, with the first byte of its packet, or still waits with it |
| Outbox.QueueRunKeepsStream | crates/emskin-dbus/src/proxy/mod.rs:840-866 | the same over whole runs of queuing and flushing |
| Outbox.UnsendableBlocks | crates/emskin-dbus/src/proxy/cmsg.rs:103-108 | a packet of descriptors without bytes stays queued with its descriptors and everything behind it, and nothing behind it is sent |
| Outbox.CanDrainIff | crates/emskin-dbus/src/proxy/mod.rs:893-898 | some kernel empties the queue exactly when no such packet is in it |
| Fcitx.SerialsDistinct | crates/emskin-dbus/src/wire/frame.rs:94-100 | any 2^32 - 1 consecutive serials are non-zero and pairwise distinct |
| Fcitx.IdsDistinct | crates/emskin-dbus/src/fcitx.rs:290-297 | any 2^64 consecutive context ids are distinct |
| Fcitx.ContextPathsDistinct | crates/emskin-dbus/src/fcitx.rs:293 | different ids give different paths |
| Fcitx.ContextPathValid | crates/emskin-dbus/src/fcitx.rs:325-326 | an allocated path is a valid object path, so building the reply never panics |
| Fcitx.ContextIs | crates/emskin-dbus/src/fcitx.rs:290-297 | the path is the portal's prefix and the id in decimal; the uuid is the id's eight bytes, lowest first, and eight zeros |
| Decimal.PrintIsDecimal | crates/emskin-dbus/src/fcitx.rs:293 | a printed number is its decimal numeral without leading zeros |
| FcitxCalls.ClassifiedIff | crates/emskin-dbus/src/fcitx.rs:164-262 | a frame is recognised as a call exactly when it names that row of the interface's table, its arguments decode, and it has a path where one is needed |
| FcitxCalls.CallsAreRecognised | crates/emskin-dbus/src/fcitx.rs:164-262 | for each of the eleven calls, every encoded message that makes it with valid arguments, in either byte order, is recognised on arrival with its path and arguments |
| FcitxCalls.KeyEventsAreForwarded | crates/emskin-dbus/src/fcitx.rs:223-239 | ProcessKeyEvent is never recognised |
| Fcitx.ReplyAnswers | crates/emskin-dbus/src/fcitx.rs:314-358 | the encoded reply parses as a method return for the request's serial with endpoints swapped and no other header; a creation reply is `oay` and decodes to the allocated path and uuid, every other has no body |
| Attribution.AttachSlices | crates/emskin-dbus/src/proxy/mod.rs:765-781 | popping declared counts in order gives each frame the slice between consecutive prefix sums |
| Attribution.AttachEarly | crates/emskin-dbus/src/proxy/mod.rs:765-781 | descriptors that arrive early stay queued for later frames |
| Attribution.DeclaredIsHeader | crates/emskin-dbus/src/proxy/mod.rs:765-781 | a frame declares what header field 9 of the message says, or none |
| Attribution.UpstreamTransparent | crates/emskin-dbus/src/proxy/mod.rs:713-838 | bytes forwarded plus bytes buffered are the bytes received, malformed traffic included |
| Attribution.UpstreamFrames | crates/emskin-dbus/src/proxy/mod.rs:713-838 | on a well-formed stream the packets are exactly its frames and no descriptor is lost or invented, however reads cut it |
| Attribution.FdAttributionIff | crates/emskin-dbus/src/proxy/mod.rs:713-836 | every frame leaves with exactly its slice of the arrived descriptors if and only if none is completed before its descriptors arrived |
| Broker.ClientPumpPartition | crates/emskin-dbus/src/proxy/mod.rs:377-503 | over every run, what is queued for the bus is everything the client sent until the handshake is complete, and then the handshake and the frames not intercepted, in order |
| Broker.UpstreamTransparency | crates/emskin-dbus/src/proxy/mod.rs:696-738 | over every run, bus bytes queued for the client plus the receive buffer are the bytes the bus sent |
| Broker.NothingInsideAFrame | crates/emskin-dbus/src/proxy/mod.rs:597-617 | while the bus sends no malformed prefix, at every point of the client's queue the bus bytes before it end on a frame boundary, so no reply or signal splits a frame |
| Replies.EveryCallIsAnswered | crates/emskin-dbus/src/proxy/mod.rs:450-492 | over every run the replies are, in order, one for each intercepted frame the client sent after its handshake, and none before |
| Replies.RepliesAnswer | crates/emskin-dbus/src/fcitx.rs:314-358 | each queued reply parses as the answer to its call, with the right body or none |
| Replies.CallsAreTaken | crates/emskin-dbus/src/proxy/mod.rs:436-492 | over every run, a frame in the client's stream that makes one of the calls is taken out of it and answered, and gets a context exactly if it asks for one |
| Replies.OthersAreKept | crates/emskin-dbus/src/proxy/mod.rs:436-492 | a frame that is none of them, or does not parse, is passed on and not answered |
| Replies.SignalsAreQueued | crates/emskin-dbus/src/proxy/mod.rs:597-617 | over every run each emitted signal is queued for the client once, in order |
| Replies.SignalArrives | crates/emskin-dbus/src/proxy/mod.rs:597-617 | and its packet parses as that signal, under its serial |
| Replies.BrokerSerials | crates/emskin-dbus/src/proxy/mod.rs:597-617 | replies and signals share one serial sequence, non-zero and distinct over any 2^32 - 1 in a row |
| Replies.ContextsDistinct | crates/emskin-dbus/src/fcitx.rs:281-298 | contexts handed out in a run have pairwise distinct paths over any 2^64 in a row |
| ClientFds.UpstreamDrainsIff | crates/emskin-dbus/src/proxy/mod.rs:366-375 | the bus-bound queue can be written out exactly when no read stranded descriptors |
| ClientFds.SplitMessageStrands | crates/emskin-dbus/src/proxy/mod.rs:366-375 | a descriptor that arrives with the first byte of a message stops the direction |
| ClientFds.ClientFdAttribution | crates/emskin-dbus/src/proxy/mod.rs:417-436 | while no frameless read has descriptors queued, each client frame is given its slice exactly when none is completed before its descriptors arrived |
| ClientFds.CallsAreTheStream | crates/emskin-dbus/src/broker/state.rs:100-122 | the reads of that theorem are the client's bytes after the handshake |
| Pumps.Connection.PumpClientToUpstream | crates/emskin-dbus/src/proxy/mod.rs:333-503 | one client read is one step of the broker model followed by the flushes |
| Pumps.Connection.PumpUpstreamToClient | crates/emskin-dbus/src/proxy/mod.rs:679-840 | one bus read is one step of the broker model followed by the flush |
| Pumps.WalkIsStep | crates/emskin-dbus/src/proxy/mod.rs:386-496 | frame by frame is attaching, filtering and answering the whole list |
| Pumps.TakeFds | crates/emskin-dbus/src/proxy/mod.rs:421-434 | popping one by one takes the declared number or all there are |
| Sockets.BusReceives | crates/emskin-dbus/src/proxy/mod.rs:333-503 | over every interleaving of pumps, signals and flushes and all kernel answers, the bus has received the front of the handshake and the frames not intercepted of what the client sent, exactly as much as its kernel took; the rest is queued |
| Sockets.ClientReceives | crates/emskin-dbus/src/proxy/mod.rs:679-866 | and the client the front of what the broker queued for it, exactly as much as its kernel took |
| Sockets.PacketTravels | crates/emskin-dbus/src/proxy/mod.rs:878-930 | on a socket that has not failed a packet's descriptors are with the peer exactly when its first byte is, and else wait with that byte |
| Sockets.DescriptorsTravel | crates/emskin-dbus/src/proxy/mod.rs:765-840 | so it is, in every run, for every packet the pumps queued in either direction |
| Sockets.WorldIsRun | crates/emskin-dbus/src/proxy/mod.rs:333-503 | partial writes never change what is queued: the broker's state is that of a run without sockets |
| Sockets.ClientPumpIsAction | crates/emskin-dbus/src/proxy/mod.rs:333-503 | what the client pump promises is that system's step, and it fails exactly when the connection ends |
| WorkspaceServer.ManagerInstance.Tick | crates/emskin/src/protocols/workspace.rs:83-94 | one tick of a live manager is the specification's refresh, for some order of the removed ids; a stopped or dead one is left alone |
| WorkspaceServer.ManagerInstance.RefreshInstance | crates/emskin/src/protocols/workspace.rs:113-213 | the diff loops send what the specification says and report a change exactly when something was sent; without a client nothing happens |
| WorkspaceGroups.GroupIsTable | crates/emskin/src/protocols/workspace.rs:149-190 | over every run, objects are created once, spoken of only while they live and leave before removal; a client that heard all events knows exactly the server's objects as members, with the low half of their ids as coordinates |
| WorkspaceBar.BarState.HandleEvent | crates/emskin-bar/src/workspace.rs:84-126 | one event is one step of the specification; a finished batch shows the bar exactly when it has two workspaces, and `finished` makes it exit |
| WorkspaceBar.ParseIdOfWire | crates/emskin-bar/src/workspace.rs:58-63 | every id survives `emskin-ws-N` and `parse_id` |
| WorkspaceBar.StableSort | crates/emskin-bar/src/workspace.rs:104-105 | sorting is by id, keeps every entry as often as it was there, and keeps equal ids in order |
| WorkspaceBar.SeesEdit | crates/emskin-bar/src/workspace.rs:209-224 | editing the entry found pending or committed changes that handle's entry and no other |
| Workspaces.Convergence | crates/emskin/src/protocols/workspace.rs:113-213 | after any run, replaying the events in flight leaves nothing pending and shows exactly the latest snapshot's workspaces that have an object, by increasing id |
| Workspaces.NothingMissing | crates/emskin/src/protocols/workspace.rs:159-166 | when every creation of the latest tick succeeds, that is the whole snapshot |
| Workspaces.RepeatedTickIsSilent | crates/emskin/src/protocols/workspace.rs:193-213 | the same snapshot again sends nothing and changes nothing |
| Workspaces.SettlesIff | crates/emskin/src/protocols/workspace.rs:195 | from any state, once a tick could create every object, every later tick with the same snapshot is silent exactly when each entry is the first with its id |
| Workspaces.DistinctSettles | crates/emskin/src/state/workspace.rs:76-82 | distinct ids meet that condition |
| Incr.Outgoing.CompleteOutgoing | crates/emskin-clipboard/src/x11.rs:828-864 | small data is written at once, larger data announces an INCR transfer, and a SelectionNotify follows either |
| Incr.Announces | crates/emskin-clipboard/src/x11.rs:828-864 | the announcement is the size of the data, small data goes out whole under the target asked for, to the requestor that asked |
| Incr.Outgoing.HandleOutgoingPropertyDelete | crates/emskin-clipboard/src/x11.rs:644-683 | one deletion sends the next chunk, the empty chunk, or removes the entry, and no other field changes |
| Incr.Incoming.OnSelectionNotify | crates/emskin-clipboard/src/x11.rs:358-488 | a reply is written out or starts an INCR reception; a failed conversion, a targets reply and an unreadable property write nothing; other conversions are untouched |
| Incr.Incoming.HandleIncrChunk | crates/emskin-clipboard/src/x11.rs:510-556 | chunks accumulate until an empty one completes; an unreadable one drops the conversion; a property not in INCR mode is ignored |
| Incr.DeleteIsLocal | crates/emskin-clipboard/src/x11.rs:655-657 | a deletion moves its own transfer and no other, whatever `swap_remove` does to positions |
| Incr.WriteAllToFd | crates/emskin-clipboard/src/x11.rs:704-716 | the write loop is the specification function for every list of answers |
| Incr.WriteAllIs | crates/emskin-clipboard/src/x11.rs:704-716 | it writes a prefix as long as the descriptor has room, and the whole exactly when no write fails early |
| IncrRuns.EndToEnd | crates/emskin-clipboard/src/x11.rs:828-864 | a transfer that is over wrote exactly the owner's bytes, once, in ceil(n/65536) full-but-the-last chunks and an empty one, and was forgotten after ceil(n/65536)+2 deletions |
| IncrRuns.ClientReceives | crates/emskin-clipboard/src/x11.rs:704-716 | of a transfer that is over the client receives a prefix of the owner's bytes, and all of them exactly when no write fails early |
| IncrRuns.Progress | crates/emskin-clipboard/src/x11.rs:491-556 | an unfinished transfer always has an event to handle, and each one brings it exactly one step closer |
| IncrRuns.Undisturbed | crates/emskin-clipboard/src/x11.rs:644-657 | an event of one key leaves every other key's transfer as it was |
| IncrRuns.PiecesAreTheData | crates/emskin-clipboard/src/x11.rs:673-682 | the chunks concatenate to the data, are never empty and full except the last |
| ScreenRecorder.Recorder.QueueRecording | crates/emskin/src/recording.rs:473-533 | the transition from each of the six states |
| ScreenRecorder.Recorder.Stop | crates/emskin/src/recording.rs:538-577 | the transition from each of the six states |
| ScreenRecorder.Recorder.Capture | crates/emskin/src/recording.rs:583-690 | the capture phase of a tick is the specification's |
| ScreenRecorder.Recorder.Finish | crates/emskin/src/recording.rs:697-812 | the finalize phase of a tick is the specification's |
| RecorderLive.DueFramesAreRecorded | crates/emskin/src/recording.rs:649-751 | over every run in which captures, mappings and the writer do not fail, the frames pushed are exactly the due ones, in order, each in the tick after its capture, up to two in the pipeline or discarded by a stop; the file holds all that a full queue did not drop |
| RecorderLive.MinimumRate | crates/emskin/src/recording.rs:672-680 | with a tick at least every d, a recording of length T has so many frames that (frames + 1) * (interval + 4d) >= T |
| RecorderRuns.EndsIff | crates/emskin/src/recording.rs:473-577 | a running recording goes on exactly until a stop, a new request, another size or a failed push, then closes for that reason and reports it |
| RecorderRuns.StartsIff | crates/emskin/src/recording.rs:614-648 | a requested recording starts at the next tick exactly when the frame has a size, the rate is not zero and the encoder spawns; a stop withdraws the request |
| RecorderRuns.RequestIsTaken | crates/emskin/src/recording.rs:473-533 | while nothing runs or closes the latest request counts; while one closes it is ignored |
| RecorderRuns.ScreenshotIsTaken | crates/emskin/src/recording.rs:607-612 | a screenshot request captures the next tick's frame for its path, which that tick's finalize takes out |
| RecorderRuns.OnlyAFullQueueDrops | crates/emskin/src/recording.rs:247-262 | only a queue of three drops a frame |
| RecorderRuns.RecordingHistories | crates/emskin/src/recording.rs:719-751 | over every run, pushed frames are in capture order, each once, never in their capturing tick, of the recording's size; the writer gets an in-order part, the queue holds at most 3, accepted plus dropped is the count |
| RecorderRuns.SizeMismatchUnreachable | crates/emskin/src/recording.rs:233-242 | no frame in the pipeline can fail the byte-count check |
| RecorderRuns.RateBound | crates/emskin/src/recording.rs:672-680 | frames spanning T number at most 2*floor(T/interval)+2 |
| RecorderRuns.FinishedRate | crates/emskin/src/recording.rs:672-680 | over every run, a finished recording of the reported duration T reports at most 2*floor(T/interval)+2 frames |
| RecorderRuns.FinishEventsIff | crates/emskin/src/recording.rs:463-466 | every ended recording reported exactly once if and only if no screenshot was requested while one was running or closing |
| RecorderRuns.ScreenshotLosesReport | crates/emskin/src/recording.rs:463-466 | a screenshot after the first tick of a recording leaves it without a report |
| RecorderRuns.ReportsAreRight | crates/emskin/src/recording.rs:795-805 | a report carries the path asked for, the time since the recording started, the reason of the event that stopped it and the number of pushed frames |
| RecorderRuns.ReportsAtNextFinalize | crates/emskin/src/recording.rs:753-808 | a closing recording reports at the next finalize, whatever fails |
| Scanline.FillPolygon | crates/effect-plugins/src/jelly_cursor.rs:387-480 | whatever the buffer held, it ends as the per-pixel image |
| Scanline.ScanRow | crates/effect-plugins/src/jelly_cursor.rs:416-446 | the edge loop finds the span of the row's crossings |
| Scanline.Bounds | crates/effect-plugins/src/jelly_cursor.rs:344-364 | the single pass finds the least and greatest coordinates |
| Scanline.CrossCountIff | crates/effect-plugins/src/jelly_cursor.rs:383 | every height crosses 0 or 2 half-open edges exactly when neither diagonal lies above the other |
| Scanline.ConvexIsNotApart | crates/effect-plugins/src/jelly_cursor.rs:383 | intersecting diagonals, that is a convex quad, satisfy that condition |
| Scanline.SpanIsCover | crates/effect-plugins/src/jelly_cursor.rs:437-451 | a column is in the clamped span exactly when the pixel is covered and no flat edge passes the row |
| Scanline.OutsideRows | crates/effect-plugins/src/jelly_cursor.rs:394-411 | rows outside the bounding rows are crossed by no edge |
| Scanline.PositionStep | crates/effect-plugins/src/jelly_cursor.rs:458-474 | adding the slope gives the next pixel's projection |
| Scanline.PositionProjects | crates/effect-plugins/src/jelly_cursor.rs:399-403 | a pixel's position is where its centre projects on the gradient line, and nowhere else: 0 at the start, 1 at the end |
| Scanline.MixIsNearest | crates/effect-plugins/src/jelly_cursor.rs:482-484 | a mixed byte is the exact point between the two rounded to the nearest byte |
| Scanline.MixEnds | crates/effect-plugins/src/jelly_cursor.rs:482-484 | it is the first at 0, the second at 1 and never outside them |
| Scanline.MixMonotone | crates/effect-plugins/src/jelly_cursor.rs:482-484 | it moves from the first to the second and never back |
| Scanline.GradientBetween | crates/effect-plugins/src/jelly_cursor.rs:465-470 | between the ends every channel is so mixed |
| Scanline.GradientEnds | crates/effect-plugins/src/jelly_cursor.rs:459-470 | a pixel that projects at or before the start has the start colour, at or past the end, or on a line too short, the end colour |
| Scanline.PictureEnds | crates/effect-plugins/src/jelly_cursor.rs:459-473 | and shows it in its four bytes of the finished buffer |
| Scanline.CrossIsOnEdge | crates/effect-plugins/src/jelly_cursor.rs:420-431 | where a height crosses an edge is the one point of that height on the segment between its vertices |
| Scanline.ThinEdgeLosesRow | crates/effect-plugins/src/jelly_cursor.rs:428-430 | an edge under 1e-9 high can clear a row that is covered |
| Scanline.PlainImageIff | crates/effect-plugins/src/jelly_cursor.rs:428-430 | the buffer is the picture without that rule exactly when no visible covered pixel of it is on such a row |
| Scanline.PlainWithoutFlatEdges | crates/effect-plugins/src/jelly_cursor.rs:428-430 | without an edge of a height strictly between 0 and 1e-9 it always is |
| Ipc.IpcConn.TryRecv | crates/emskin/src/ipc/connection.rs:45-70 | takes the next complete message, keeps an incomplete one, refuses an oversized header and clears the buffer |
| Ipc.IpcConn.TryFlush | crates/emskin/src/ipc/connection.rs:90-107 | the write loop is the specification function for every list of answers |
| Ipc.IpcServer.AcceptClient | crates/emskin/src/ipc/mod.rs:38-67 | a new client replaces the old one and gets the greeting and the waiting messages |
| Ipc.IpcServer.SendMessage | crates/emskin/src/ipc/mod.rs:73-86 | queues while unconnected, otherwise frames, writes, and drops the connection on failure |
| Ipc.IpcServer.RecvAll | crates/emskin/src/ipc/mod.rs:88-125 | returns the complete messages that parse, or drops the connection at its end or on an oversized header |
| Ipc.FlushConserves | crates/emskin/src/ipc/connection.rs:90-107 | bytes written plus bytes left are the bytes there were |
| Ipc.FlushTakes | crates/emskin/src/ipc/connection.rs:90-107 | exactly what the socket, by its answers, takes is written, from the front, and the flush fails exactly when the socket does |
| IpcRuns.SentStream | crates/emskin/src/ipc/mod.rs:38-136 | over every run, what went out on a connection is the front of its framed greeting, pending messages and later sends, exactly as much as its socket took, and the rest is buffered; every message sent goes to one connection, in order, or is pending |
| IpcRuns.ReadIsDecode | crates/emskin/src/ipc/mod.rs:88-125 | under any chunking the connection is open exactly when the stream has not ended and no header is oversized, and then has delivered the messages and kept the leftover of the uncut stream |
| IpcRuns.StreamRoundTripIff | crates/emskin/src/ipc/connection.rs:45-90 | a framed stream decodes to exactly its messages under any chunking if and only if none exceeds 1 MiB |
| IpcRuns.DeliveredIff | crates/emskin/src/ipc/mod.rs:88-125 | over every sequence of reads the messages delivered are a prefix of those that reached the server, and all of them exactly when the closing read completes none |
| IpcRuns.DeliveredInRuns | crates/emskin/src/ipc/mod.rs:38-125 | over every run of the server that holds of each connection; replacing one loses no message |
| IpcRuns.LastMessageLost | crates/emskin/src/ipc/mod.rs:99-103 | a message read together with the end of the stream is lost |
| IpcRuns.OversizedHeaderLoses | crates/emskin/src/ipc/mod.rs:105-121 | a message read together with an oversized header is lost, and delivered when read before it |

## Left out

- Raw socket and ancillary-data calls (`proxy/cmsg.rs`), logging, and the event-loop registration of sockets: the kernel is a list of answers.
- The types of zvariant beyond the D-Bus Specification's basic types, variants, arrays and structs: dictionary entries are not modelled; signed and floating values are raw bits; strings are bytes, so UTF-8 validity and nesting-depth limits are not checked.
- The cache of fcitx5's unique name and the tracking of GetNameOwner replies: they choose the sender of a signal, which is a parameter here. `FcitxEvent`s are not emitted.
- Input-context ids wrap at 2^64 as in a release build; a debug build would stop instead.
- Preedit splitting, address, color and chord parsing, focus and IME state: single-function claims or state outside these protocols.
- Outbox.FlushKeepsStream: after a hard error the packet's descriptors count as lost, because the connection is closed.
- ClientFds.ClientFdAttribution: is stated for runs in which no read completes no frame while descriptors are queued; otherwise they leave with that read's handshake bytes, or the direction stops, as `ClientFds.UpstreamDrainsIff` says.
- Workspaces.Convergence: needs distinct ids in each snapshot, and a manager that is live throughout. The actions a client sends back are not modelled.
- WorkspaceBar.BarState.HandleEvent: creating, drawing and destroying the layer surface is one flag.
- Pumps.Connection.PumpClientToUpstream: does not keep the table of name lookups and the cache of senders, and does not emit `FcitxEvent`s.
- Pumps.Connection.PumpUpstreamToClient: does not follow GetNameOwner replies and NameOwnerChanged signals, which only choose the sender of later signals.
- Incr.Incoming.OnSelectionNotify: what a targets reply lists is not modelled, nor the event it raises.
- IncrRuns.EndToEnd: each key is reused only after its transfer is over, since a requestor that asks again under the same property overwrites its own pending conversion; a property belongs to one selection, and TARGETS, TIMESTAMP and failed conversions are not part of the runs. Bytes written to the descriptor are those of `IncrRuns.ClientReceives`.
- The clipboard's suppress counters: they count echoes without identifying them.
- RecorderRuns.RateBound: the interval is whatever the rate converts to; the rounding of 1/fps seconds to a Duration is a parameter. PNG writing, ffmpeg and the red-dot overlay are left out.
- RecorderRuns.RecordingHistories: the host finalizes at most once a render tick and the clock does not go back; captured frames map to four bytes a pixel or fail.
- Scanline.FillPolygon: real numbers stand for floats, and pixel columns and rows are unbounded integers, so rounding and saturating casts are not modelled. That `jelly_polygon` is convex is not proved.
- JSON: an IPC message is its serialized bytes, which of them parse is a parameter of `Ipc.IpcServer.RecvAll`, and a message that fails to serialize is not modelled.
