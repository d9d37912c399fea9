# FTEQTV's network stack, modelled and proved

FTEQTV relays QuakeWorld games: it takes a game stream from a server or another relay, keeps the
state of the map, and passes both on to viewers and to downstream relays. This project models the
parts of `fteqtv/` that carry, compress, queue, forward and cull that state, and the two containers
of `iqm/util.h`, and proves what they are for. `dafny verify dfyconfig.toml` checks all of it.

Code that changes fields or buffers step by step is a class or a method with loops here, proved
against a function of the old state; the theorems over whole runs are about those functions.

| file | what it holds |
|---|---|
| `Bytes.dfy`, `NetMsg.dfy` | bytes, words, bits; the byte cursor of `msg.c` |
| `QwChannel.dfy`, `QwProtocol.dfy`, `QwProgress.dfy` | the QuakeWorld channel, two of them over a network that loses, repeats and reorders, and how long a block can stay outstanding |
| `NqChannel.dfy`, `NqBytes.dfy`, `NqProtocol.dfy`, `NqProgress.dfy` | the same for the NetQuake channel and its fragments, and its datagrams byte by byte |
| `ViewerQueue.dfy`, `ViewerStream.dfy`, `NqViewerStream.dfy` | the back buffers of a viewer, and one first-in first-out stream from `SendBufferToViewer` to the viewer's client, over either channel |
| `EntityDelta.dfy`, `EntityCodec.dfy`, `DeltaLayout.dfy` | one entity as a delta: the format, the writer and the reader, and the format byte by byte |
| `PacketEntities.dfy`, `PacketCodec.dfy`, `FrameRing.dfy` | a frame of entities as a sorted merge, the loops that write and read it, and the two 64-slot rings |
| `StreamForward.dfy`, `StreamRun.dfy`, `MvdFormat.dfy` | packet boundaries of the MVD stream, forwarding, the loops that do it, and the packets themselves, laid out on their own |
| `ProxyBuffer.dfy`, `WebSocket.dfy` | the cyclic buffer of a downstream proxy, and binary websocket frames |
| `Bsp.dfy` | tree descent, leaves in reach of a sphere, run-length rows |
| `PrespawnPages.dfy`, `Prespawn.dfy` | connection data sent in pages |
| `PrespawnReader.dfy`, `PrespawnParse.dfy` | what the next relay makes of them: the parsers and the map they rebuild |
| `ListTransfer.dfy` | name lists sent in pages |
| `InfoString.dfy`, `Md4.dfy` | infostrings as maps; the MD4 driver |
| `UnionFind.dfy`, `HashTable.dfy` | the two containers |

What the network, the sockets and the clock do is a parameter of each step: which datagram arrives,
how much `send` or `recv` took, what time it is.

Where the code does less than it seems meant to, the exact condition is proved, for all inputs:

- Datagram 0 is always taken for an old one, and `last_reliable_sequence` is one more than the number
  of the datagram that carried the block. With a block outstanding at either end of a channel, one
  clean round trip acknowledges it exactly when the peer has sent before and the block is due for a
  resend or had arrived (`QwProgress.OneTripExactly`). Two do exactly when the peer has sent before and
  the sender has sent something since the datagram that carried it
  (`outgoing_sequence > last_reliable_sequence`), or it had arrived (`QwProgress.TwoTripsExactly`).
  Three always do (`QwProgress.Progress`). `QwProgress.TwoTripsNotEnough` and, at the start of a
  connection, `QwProgress.SilentPeerNeedsThree` are reachable states where two do not. All of this is
  for blocks that fit their datagram and nothing else being queued between the trips.
- A NetQuake message completes exactly below 8000 bytes, although up to 8192 can be queued
  (`NqProtocol.CompletesExactlyWhenShort`).
- A chunk longer than a back buffer is lost without a trace when it has to wait in a new one
  (`ViewerQueue.KeptExactlyWhenAccepted`).
- A forced delta carries its entity number exactly below 2048 (`EntityDelta.NumberSurvives`).
- A delta against the slot the new frame is stored in says nothing and leaves the receiver's slot as
  it was. Of a slot the receiver has, a delta is good for every new frame exactly when the two slots
  differ (`FrameRing.SafeDeltaExactly`); for one given frame, exactly when they differ or the frame
  about to be overwritten looked the same (`FrameRing.DeliversExactly`).
- With websocket framing a header can be queued without its payload, or a payload without its
  header. Once the guard's own flush has been answered, they stay together whatever the socket does
  next exactly when there is room for both frames or not even for what the guard counts
  (`ProxyBuffer.MessageSplitsExactly`).
- `Prox_SendMessage` writes the length of a dem_multiple message in front of its mask, and the readers
  take it from behind: such a message is the packet it is meant to be exactly when the two are the same
  number (`ProxyBuffer.MessageIsPacketExactly`).
- A payload over 65535 bytes does not come back from its frame (`WebSocket.WrittenFrameReadsBack`):
  however its payload is read, the frame ends after the payload's length modulo 65536
  (`WebSocket.LongFrameEndsEarly`), or is refused where that is under 126
  (`WebSocket.LongFrameRefused`).
- A frame survives a call exactly when its header was in already, was not begun, or comes in whole
  (`WebSocket.CallCarriesExactly`). A read of the rest of a header that fails or falls short is
  reported as the end of the connection (`WebSocket.HeaderCompletesExactly`), a failed one also takes
  a byte back, and with two bytes in that leaves the receiver stuck (`WebSocket.HeaderErrorStrands`,
  `WebSocket.StrandedForGood`); one byte read first counts as two (`WebSocket.FirstReadExactly`).
- The sender's own loop over a list (fteqtv/forward.c:530-542) ends exactly when the list has a blank
  before index 256 (`ListTransfer.EndsExactlyWithBlank`). A reader that asks by the closing byte
  always stops with the list it should have (`ListTransfer.ReaderStops`), one byte left unread when
  there is no blank (`ListTransfer.PageRunsOn`).
- Under a backlog that stays the same, the connection data are finished exactly when each item on the
  way has room by itself; a page that finds no room for its first item is then asked for for ever
  (`PrespawnPages.FinishesExactlyWithRoom`). Whatever the backlog, a pass from the start is
  complete exactly when the map has no baseline for entity 0
  (`PrespawnPages.CompleteExactlyWithoutBaselineZero`, `PrespawnPages.BaselineZeroIsLost`).
- What arrives of the map at the next relay is all of it but that baseline, however the pages fell
  (`PrespawnReader.MapArrives`).
- A key just set in an infostring reads back as the value given exactly when the set was accepted and
  the value is empty or neither has control characters, or it was refused and the key had that value
  already (`InfoString.GivenBackExactly`). A key with control characters is filtered on
  the way in like the value: its value then goes to another key, unless a pair of that name is there
  already and hides it (`InfoString.SetThenLookup`), and this is the one case in which keys do not
  stay unique (`InfoString.StaysUniqueExactly`, `InfoString.FilteredKeyLosesValue`). A piece too long
  for its buffer hides every pair behind it (`InfoString.ValueOfRender`).
- The MD4 padding is the standard's exactly below 2^29 bytes (`Md4.PaddingIsStandard`).

## Model

| member | source | states |
|---|---|---|
| `NetMsg.NetMsg.ReadByte` | fteqtv/msg.c:11-19 | the next byte, or 0 and the cursor past the end for good |
| `NetMsg.NetMsg.ReadShort` | fteqtv/msg.c:20-27 | two bytes, low first |
| `NetMsg.NetMsg.ReadLong` | fteqtv/msg.c:36-43 | four bytes, low first |
| `NetMsg.NetMsg.ReadBigLong` | fteqtv/msg.c:44-51 | four bytes, high first, missing ones read as 0 |
| `NetMsg.NetMsg.ReadString` | fteqtv/msg.c:93-109 | up to the terminator; what does not fit the caller's buffer is consumed and lost |
| `NetMsg.NetMsg.WriteByte` | fteqtv/msg.c:125-130 | appended while there is room, otherwise dropped |
| `NetMsg.NetMsg.WriteLong` | fteqtv/msg.c:141-147 | four bytes, low first, clipped byte by byte at the buffer's end |
| `NetMsg.NetMsg.WriteString` | fteqtv/msg.c:184-189 | the text and its terminator, clipped the same way |
| `NetMsg.NetMsg.WriteData` | fteqtv/msg.c:190-201 | all of it or, silently, nothing |
| `NetMsg.LowRoundTrip` | fteqtv/msg.c:20-43 | a number of up to four bytes reads back and consumes exactly what was written |
| `NetMsg.LongStringIsCut` | fteqtv/msg.c:93-109 | a string that is longer comes back cut, its excess and terminator consumed |
| `NetMsg.StringRoundTrip` | fteqtv/msg.c:93-109 | a string reads back whole as long as its text fits the room, the terminator consumed, even when it just fills the buffer |
| `Bytes.BigRoundTrip` | fteqtv/msg.c:44-81 | network order undone gives the number |
| `QwChannel.NetChan.constructor` | fteqtv/netchan.c:445-461 | all sequences 0, both buffers empty |
| `QwChannel.NetChan.Transmit` | fteqtv/netchan.c:594-673 | the new fields and the datagram: block moved from `message_buf` when the reliable buffer is empty, retransmitted when a later packet was acknowledged with the wrong bit |
| `QwChannel.NetChan.Process` | fteqtv/netchan.c:787-877 | on the bytes: taken exactly when the end is a client or bytes 8 and 9 are its port, and the low 31 bits of the first word exceed the last sequence taken; otherwise nothing changes; a datagram taken releases the acknowledged block, toggles the received bit and leaves the payload to be read |
| `QwChannel.SentExactly` | fteqtv/netchan.c:594-645 | one call in closed form: which block goes along, what has room in the datagram, and the new fields |
| `QwChannel.TakenExactly` | fteqtv/netchan.c:787-877 | which bytes are taken, as above, for every datagram |
| `QwChannel.HeadingRoundTrip` | fteqtv/netchan.c:620-645 | the header one end writes is what the other end's `Netchan_Process` reads, payload left untouched |
| `QwProtocol.StepIsCall` | fteqtv/netchan.c:594-877 | a step of the protocol is one call of `Netchan_Transmit`, `Netchan_Process` or `WriteData` at one end, on the bytes there, and the other end is as it was |
| `QwProtocol.StepKeepsInv` | fteqtv/netchan.c:317-364 | the invariant of the alternating bit over any transmit, delivery of any datagram ever sent, arrival of any bytes that name another port, or queueing, at either end |
| `QwProtocol.RunKeepsInv` | fteqtv/netchan.c:317-364 | and so over every run |
| `QwProtocol.Safety` | fteqtv/netchan.c:594-673 | for message buffers of any size, as long as each block that was started fits its datagram, with any loss, repetition and reordering both ways: blocks accepted are a prefix of blocks started, each once; acknowledged <= received <= started <= acknowledged + 1; started blocks and `message` together are everything queued |
| `QwProtocol.IntruderIsIgnored` | fteqtv/netchan.c:797-800 | bytes that name another port, whatever else is in them, leave both ends as they were |
| `QwProtocol.SmallBuffersFit` | fteqtv/netchan.c:606-642 | which every block does when the message buffers are ten bytes smaller than the send buffer |
| `QwProtocol.TakenPayload` | fteqtv/netchan.c:802-862 | a reliable datagram that is accepted starts with exactly the block the receiver waits for |
| `QwProtocol.BlockTravelsWhenItFits` | fteqtv/netchan.c:633-642 | a block is in its datagram exactly when it fits behind the header |
| `QwProgress.TripEffect` | fteqtv/netchan.c:594-673 | what one clean round trip does to both ends once both have sent |
| `QwProgress.FirstTripEffect` | fteqtv/netchan.c:802-824 | and what it does, with a block outstanding, when the peer has not: its datagram 0 is taken for an old one, and nothing is acknowledged or sent again |
| `QwProgress.Progress` | fteqtv/netchan.c:606-641 | from every reachable state with a block outstanding, at the client or the server, one of the next three clean round trips empties the reliable buffer, and after three that block is acknowledged |
| `QwProgress.OneTripExactly` | fteqtv/netchan.c:606-622 | one clean round trip acknowledges the outstanding block exactly when the peer has sent before and the block is due for a resend or had arrived |
| `QwProgress.TwoTripsExactly` | fteqtv/netchan.c:606-641 | two do exactly when the peer has sent before and the sender has sent something since the datagram that carried it, or it had arrived; once the sender has received anything, the first it can tell from its own counters |
| `QwProgress.TwoTripsNotEnough` | fteqtv/netchan.c:606-641 | a reachable state where the peer has sent, neither holds, and two clean round trips leave the block outstanding |
| `QwProgress.SilentPeerNeedsThree` | fteqtv/netchan.c:802-824 | and one at the start of a connection, where the sender has sent since but the peer has not sent at all |
| `NqChannel.NqNetChan.Transmit` | fteqtv/netchan.c:517-587 | the next fragment of at most 1024 bytes, EOM on the last, then the unreliable data in a datagram of its own |
| `NqChannel.NqNetChan.Process` | fteqtv/netchan.c:678-776 | control, acknowledgement, unreliable and data datagrams: the new fields, the reply, the value returned and the message made readable |
| `NqChannel.HeadingRoundTrip` | fteqtv/netchan.c:533-558 | flags, length and sequence in network order read back |
| `NqBytes.SendsExactly` | fteqtv/netchan.c:517-587 | the bytes of the datagrams of one call, flags and lengths included, from the channel's fields |
| `NqBytes.ForeignIsRefused` | fteqtv/netchan.c:686-691 | a datagram of another length than it says, or with the control bit, changes nothing |
| `NqBytes.AckExactly` | fteqtv/netchan.c:695-716 | an acknowledgement moves the sender on exactly when it names the fragment in flight |
| `NqBytes.UnreliableExactly` | fteqtv/netchan.c:718-741 | unreliable data is passed on exactly when nothing later was |
| `NqBytes.DataExactly` | fteqtv/netchan.c:742-773 | a fragment is always acknowledged, by eight given bytes; it is taken exactly when it is awaited and fits, and completes the message exactly with the end flag |
| `NqProtocol.FliesAreSent` | fteqtv/netchan.c:517-587 | the abstract datagrams of the protocol are the bytes the channel sends |
| `NqProtocol.ReceivesIsProcess` | fteqtv/netchan.c:678-776 | and receiving one abstractly is processing its bytes |
| `NqProtocol.StepIsCall` | fteqtv/netchan.c:517-776 | a step of the protocol is one call at one end, on the bytes there, and the other end is as it was |
| `NqProtocol.StepKeepsInv` | fteqtv/netchan.c:517-776 | the stop-and-wait invariant over any step at either end |
| `NqProtocol.Safety` | fteqtv/netchan.c:695-773 | receiver level with the sender or one ahead; an acknowledgement exists only for a fragment accepted; messages under 8000 bytes complete as a prefix of those taken from `message_buf` |
| `NqProtocol.CompletesExactlyWhenShort` | fteqtv/netchan.c:740-773 | fed in order, a message completes exactly when it is shorter than 8000 bytes, and otherwise the channel drops |
| `NqProgress.ExchangeIsRun` | fteqtv/netchan.c:517-776 | a transmit, the processing of its fragment and the delivery of the acknowledgement are a run of the protocol |
| `NqProgress.ExchangeAcknowledges` | fteqtv/netchan.c:695-733 | from any reachable state with something to send, that exchange acknowledges one fragment, whether or not it had arrived before, and leaves both ends level |
| `NqProgress.SettlesInExactly` | fteqtv/netchan.c:695-773 | what is left of a message takes one exchange per 1024 bytes or part of them, no fewer and no more; then, if every message was under 8000 bytes, all that was taken has been completed |
| `ViewerQueue.Viewer.SendBufferToViewer` | fteqtv/parse.c:29-62 | message, last back buffer, new back buffer or overflow notice: the new queue |
| `ViewerQueue.Viewer.Shift` | fteqtv/qw.c:4516-4533 | the first back buffer becomes the empty message, the others move up, in place |
| `ViewerQueue.KeptExactlyWhenAccepted` | fteqtv/parse.c:29-62 | a chunk is queued behind everything pending, without a drop, exactly when one of three guards holds, written out |
| `ViewerQueue.OverflowsExactly` | fteqtv/parse.c:38-61 | the viewer is dropped exactly when a seventeenth back buffer would be needed, with the notice as its message; how many back buffers are in use afterwards |
| `ViewerQueue.ShiftKeepsPending` | fteqtv/qw.c:4516-4533 | the shift moves nothing past anything |
| `ViewerQueue.DrainsAll` | fteqtv/qw.c:4516-4533 | as messages are taken, the shifts bring out everything pending, in order |
| `ViewerStream.StepKeepsInv` | fteqtv/qw.c:4516-4533 | chunks given, packets sent and shifted, datagrams lost or delivered: the queue stays in step with the channel |
| `ViewerStream.FirstInFirstOut` | fteqtv/parse.c:29-62 | until `drop`, everything given is what the client accepted, then the block in flight, then `message`, then the back buffers, in order |
| `NqViewerStream.StepKeepsInv` | fteqtv/qw.c:4516-4533 | the same over the NetQuake channel, in whose fragments a message travels |
| `NqViewerStream.FirstInFirstOut` | fteqtv/parse.c:29-62 | until `drop`, everything given is the messages taken from the queue and what is still on it, in order; as long as each message was under 8000 bytes, those taken are the ones the client completed and the one in flight |
| `EntityCodec.WriteDelta` | fteqtv/qw.c:1530-1708 | the bytes of a delta: nothing, or header and fields in order |
| `EntityCodec.ReadEntityNum` | fteqtv/parse.c:848-880 | number and flags from a header of two to five bytes |
| `EntityCodec.ParseEntityDelta` | fteqtv/parse.c:882-964 | the fields the flags name, read over the old state |
| `DeltaLayout.FirstFlags` | fteqtv/qw.c:1536-1629 | the first byte of flags, bit by bit, from the two states |
| `DeltaLayout.SecondFlags` | fteqtv/qw.c:1536-1629 | the second, which shares a word with the entity number |
| `DeltaLayout.ThirdFlags` | fteqtv/qw.c:1536-1629 | the third, with the number's two high bits |
| `DeltaLayout.LastFlags` | fteqtv/qw.c:1536-1629 | the fourth |
| `DeltaLayout.HeaderWrittenOut` | fteqtv/qw.c:1636-1645 | the header's two to five bytes in terms of them |
| `DeltaLayout.BasicsWrittenOut` | fteqtv/qw.c:1647-1658 | model, frame, colormap, skin and effects, each where it differs, in this order |
| `DeltaLayout.PlaceWrittenOut` | fteqtv/qw.c:1659-1670 | coordinates and angles in turn |
| `DeltaLayout.LooksWrittenOut` | fteqtv/qw.c:1672-1691 | the seven fields of extensions |
| `DeltaLayout.RestWrittenOut` | fteqtv/qw.c:1692-1708 | tag, light and the high byte of effects |
| `DeltaLayout.DeltaWrittenOut` | fteqtv/qw.c:1530-1708 | nothing exactly when it is not forced and nothing shows or the number is 2048 or more; otherwise the header and these groups |
| `EntityDelta.HeaderRoundTrip` | fteqtv/parse.c:848-880 | a header that chains its extension bytes properly reads back, number and flags |
| `EntityDelta.PickedIsOverlay` | fteqtv/qw.c:1530-1708 | the flags set are exactly the differences the extensions let through |
| `EntityDelta.DeltaRoundTrip` | fteqtv/qw.c:1530-1708 | for every pair of states over wire units, every extension mask and number 1 to 2047, and 0 where the header is not empty: reading consumes exactly the bytes written and yields the new state, fields without their extension from the old; when nothing is written nothing changed |
| `EntityDelta.NumberSurvives` | fteqtv/parse.c:848-880 | a forced delta carries its number exactly when it is below 2048 |
| `PacketCodec.Frame.Expand` | fteqtv/parse.c:966-998 | afterwards there is a slot at that index, and every slot there was is kept |
| `PacketCodec.EmitPacketEntities` | fteqtv/qw.c:1710-1777 | the loop writes the sorted merge of the two frames |
| `PacketCodec.SendInitialEnts` | fteqtv/qw.c:1779-1791 | the same format against no frame |
| `PacketCodec.ParsePacketEntities` | fteqtv/parse.c:1059-1144 | the loop leaves in the frame what the merge of the old frame and the message gives |
| `PacketEntities.FirstNumber` | fteqtv/qw.c:1739-1775 | the first number on the wire lies past every entity already passed, so the reader may carry the ones before it over |
| `PacketEntities.FrameRoundTrip` | fteqtv/qw.c:1710-1777 | for strictly increasing lists over 1 to 511 and agreeing baselines, parsing what was emitted rebuilds the new frame: same numbers, same order, every field the extensions let through, and stops exactly at its end |
| `PacketEntities.ExactWithAllExtensions` | fteqtv/qw.c:1710-1777 | with every extension on, it is the new frame itself |
| `FrameRing.MessageRoundTrip` | fteqtv/parse.c:1000-1144 | a message against a known frame gives the receiver the sender's frame |
| `FrameRing.StepExactly` | fteqtv/qw.c:1719-1737 | one message, slot by slot: what the sender stores, what the receiver gets if it arrives, and which slots it has then |
| `FrameRing.KnownSlotsAgree` | fteqtv/qw.c:1719-1737 | over any run, messages lost or not, every slot the receiver has from the sender agrees |
| `FrameRing.SelfDeltaKeepsOldSlot` | fteqtv/qw.c:1719-1724 | a delta frame that shares the new frame's slot: an empty message; of a slot the receiver has, agreement exactly if the frame the sender is about to overwrite looked like the new one |
| `FrameRing.DeliversExactly` | fteqtv/qw.c:1710-1737 | a message against a frame the receiver has, or none, gives it the sender's frame exactly when the slots differ or the overwritten frame looked the same |
| `FrameRing.SafeDeltaExactly` | fteqtv/qw.c:1719-1724 | a delta frame is good for every new frame exactly when it does not share the new slot |
| `StreamRun.Proxy.EarlyParse` | fteqtv/source.c:1086-1137 | how many bytes in front are whole packets |
| `StreamRun.Proxy.ReadStream` | fteqtv/source.c:1185-1226 | what was read is appended, whole packets past the forward point are forwarded unless `lateforward` |
| `StreamRun.Proxy.Run` | fteqtv/source.c:2363-2515 | the loop consumes packets that are whole and due, forwarding late what was not forwarded, in place |
| `StreamRun.RunConsumes` | fteqtv/source.c:2363-2515 | it consumes whole packets, each when it is due and its scaled time with it, and stops exactly when the time is up, the packet in front would bring it there, or that packet is not whole, which puts the next parse off |
| `MvdFormat.PacketsAreThose` | fteqtv/source.c:1086-1137 | for every list of packets laid out by the format, bodies up to 8192 bytes, with or without an unfinished one behind: the packets found are those, and the early parse ends behind the last |
| `StreamForward.AvailableIsBoundary` | fteqtv/source.c:1086-1137 | the early parse stops on a packet boundary |
| `StreamForward.PacketsSplit` | fteqtv/source.c:1086-1137 | a boundary splits the packets of a stream in two |
| `StreamForward.ForwardedWhole` | fteqtv/source.c:1185-1196 | what is forwarded is whole packets and nothing else |
| `StreamForward.ReadForwards` | fteqtv/source.c:1185-1226 | what is read is kept; after it, without `lateforward`, nothing whole is left unforwarded |
| `StreamForward.ExactlyOnce` | fteqtv/source.c:2376-2501 | over any reads and consumption, `lateforward` toggled at will: packets forwarded are those consumed and then those before the forward point, each once, which is on a boundary and 0 if it is short of the packet in front |
| `ProxyBuffer.OProxy.TryFlush` | fteqtv/forward.c:178-230 | what leaves the cyclic buffer, and the rebased counters |
| `ProxyBuffer.OProxy.ProxySend` | fteqtv/forward.c:237-357 | all of the data or none, framed or not |
| `ProxyBuffer.OProxy.SendMessage` | fteqtv/forward.c:359-384 | header and payload against one guard |
| `ProxyBuffer.FlushExactly` | fteqtv/forward.c:178-230 | how much of the cyclic buffer is offered, what is left of it, and that the proxy is marked to be dropped exactly when a socket that does not block took nothing of something |
| `ProxyBuffer.SendsExactly` | fteqtv/forward.c:237-357 | data goes in exactly when it fits now or after one flush; refused data sets `flushing` |
| `ProxyBuffer.RefusedExactly` | fteqtv/forward.c:359-384 | a message is refused exactly when header and payload do not fit, even after one flush; without framing and with room nothing is flushed |
| `ProxyBuffer.MessageIsPacketExactly` | fteqtv/forward.c:359-384 | the bytes of a message are one packet of its type, at time 0, with its body, exactly for bodies up to 8192 bytes of the types with the plain form, and of dem_multiple when the mask is the length |
| `ProxyBuffer.MessageAddsPacket` | fteqtv/forward.c:359-384 | and then the next proxy finds that packet, alone, behind all that were added before |
| `ProxyBuffer.SendKeepsInv` | fteqtv/forward.c:237-357 | accepted bytes grow by the whole encoding or not at all |
| `ProxyBuffer.MessageTogether` | fteqtv/forward.c:359-384 | without framing, header and payload are queued together or neither is |
| `ProxyBuffer.RoomKeepsTogether` | fteqtv/forward.c:359-384 | with framing they stay together for every answer of the socket once there is room for both frames |
| `ProxyBuffer.BlockedSplits` | fteqtv/forward.c:359-384 | without it a socket that blocks leaves one of the two alone in the queue, and which one |
| `ProxyBuffer.MessageSplitsExactly` | fteqtv/forward.c:359-384 | so, for all answers after the guard's flush, together or not at all exactly when both frames fit or the guard refuses |
| `ProxyBuffer.FirstInFirstOut` | fteqtv/forward.c:178-357 | flushed ++ pending is accepted, bufferpos is at most the buffer and buffersize at most twice it, over every run |
| `WebSocket.Receiver.Recv` | fteqtv/forward.c:705-843 | the state, the bytes stored, the return value and the frame length, whatever the three reads answer |
| `WebSocket.XorIsSum` | fteqtv/forward.c:815-819 | each bit of a masked byte is the sum of the two bits, modulo 2 |
| `WebSocket.XorTwice` | fteqtv/forward.c:815-819 | unmasking undoes masking |
| `WebSocket.FrameIsWire` | fteqtv/forward.c:275-294 | `Net_ProxySend` writes an unmasked frame of RFC 6455, section 5.2 |
| `WebSocket.HeaderArrives` | fteqtv/forward.c:717-781 | a complete header, masked or not, is read as its length and key |
| `WebSocket.FirstReadExactly` | fteqtv/forward.c:717-725 | an idle receiver has the first two bytes, and the stream past them, exactly when the read gives both; nothing read changes nothing, one byte counts as two |
| `WebSocket.HeaderCompletesExactly` | fteqtv/forward.c:735-745 | with two or more bytes in, the header completes exactly when the read gives all that is missing; otherwise the call returns 0 with a short read kept or, after a failed one, a byte taken back |
| `WebSocket.CallCarriesExactly` | fteqtv/forward.c:705-843 | one call, whatever its three reads answer: the frame is still on its way exactly when the header was in, not begun, or came in whole; once its first two bytes are in and the rest is not, the call returns 0 |
| `WebSocket.FrameArrives` | fteqtv/forward.c:809-830 | for payloads of 1 to 65535 bytes and any calls whose header reads meet that condition, what was passed on is a prefix of the unmasked payload; all of it leaves the receiver idle in front of what follows, and calls that read something get there |
| `WebSocket.PassesOnExactly` | fteqtv/forward.c:745-841 | for every first byte but a text frame's, any key, length form and further reads, a call that gets the whole header passes payload on exactly if FIN is set, the opcode is 2, the size is accepted and something could be read, and then what it passes on is the unmasked front of it |
| `WebSocket.OthersRefused` | fteqtv/forward.c:745-841 | a frame of any other kind, through any calls: each returns 0 and stores nothing, and the stream behind the header stays unread |
| `WebSocket.WrittenFrameReadsBack` | fteqtv/forward.c:275-294 | a frame written comes back as given exactly up to 65535 bytes |
| `WebSocket.LongFrameEndsEarly` | fteqtv/forward.c:275-294 | a longer one, whatever calls read it, gives the first bytes of its payload, as many as its length modulo 65536, and leaves the receiver idle in front of the others |
| `WebSocket.LongFrameRefused` | fteqtv/forward.c:745-781 | or nothing at all where that is under 126, every call past the header returning 0 |
| `WebSocket.HeaderErrorStrands` | fteqtv/forward.c:735-742 | a failed read of the rest of a header takes a byte off the count, wherever in the header, and leaves one exactly when two were in |
| `WebSocket.StrandedForGood` | fteqtv/forward.c:717-725 | from there every call reports the end and reads nothing |
| `Bsp.Model.SphereLeafNumsFrom` | fteqtv/bsp.c:373-415 | -1 exactly when more than `maxleafs` leaves other than 0 are reached, else exactly those, front subtrees first |
| `Bsp.Model.LeafNum` | fteqtv/bsp.c:433-450 | the leaf the planes put the point in |
| `Bsp.LeafExactly` | fteqtv/bsp.c:433-450 | a point is in a leaf exactly when children lead there from the root, in front where x·nx + y·ny + z·nz exceeds the plane's distance and behind otherwise |
| `Bsp.ReachedExactly` | fteqtv/bsp.c:373-415 | a leaf is in reach of a sphere exactly when children lead there, in front only where that sum less the distance is at least -radius, behind only where it is below that or at most radius |
| `Bsp.VisibleExactly` | fteqtv/bsp.c:452-467 | the test is passed exactly when the list was given up or a listed leaf has its bit, by byte and power of two, in the row |
| `Bsp.Model.IsVisible` | fteqtv/bsp.c:452-467 | true exactly when some listed leaf has its bit or the list was given up |
| `Bsp.Model.DecompressVis` | fteqtv/bsp.c:95-121 | the row the runs stand for, a last run too long written out all the same |
| `Bsp.Model.SetupForPosition` | fteqtv/bsp.c:469-477 | the row is that of the leaf the viewer is in |
| `Bsp.CauchySchwarz` | fteqtv/bsp.c:373-415 | the inequality a unit normal needs for the plane test to be safe |
| `Bsp.ReachesLeafOfPoint` | fteqtv/bsp.c:373-450 | every leaf other than 0 that holds a point of the sphere is reached |
| `Bsp.SeenIfAnyPointIs` | fteqtv/bsp.c:452-467 | culling never hides an entity with a point in a leaf of the viewer's row |
| `Bsp.ExpandCompress` | fteqtv/bsp.c:95-121 | expanding the run-length form of a row gives the row |
| `Prespawn.Prespawn` | fteqtv/qw.c:2675-2709 | the message is one page and the result the index to ask for next, or -1 |
| `Prespawn.SendCurrentUserinfos` | fteqtv/qw.c:431-510 | players until one has no room, the viewer's own entry unchecked, one past the end when done |
| `Prespawn.SendCurrentBaselines` | fteqtv/qw.c:526-556 | baselines until 16 bytes are missing, as deltas or plain |
| `Prespawn.SendCurrentLightmaps` | fteqtv/qw.c:557-573 | light styles until one has no room |
| `Prespawn.SendStaticSounds` | fteqtv/qw.c:574-598 | static sounds that exist, until 16 bytes are missing |
| `Prespawn.SendStaticEntities` | fteqtv/qw.c:599-626 | static entities that exist, until 16 bytes are missing |
| `PrespawnPages.PageIsNextPiece` | fteqtv/qw.c:2675-2709 | a page is the next piece of the unlimited pass, and stays put exactly when its first item has no room |
| `PrespawnPages.StallsExactly` | fteqtv/qw.c:431-626 | what room each item asks for of the 768 bytes, and that a page gets nowhere exactly without it |
| `PrespawnPages.SpectatorText` | fteqtv/qw.c:441-450 | the userinfo shown for a viewer who only watches begins with this text |
| `PrespawnPages.PagedEqualsUnpaged` | fteqtv/qw.c:2675-2709 | whatever backlog each page finds, what was sent and what is left make up the unlimited pass |
| `PrespawnPages.PagesAdvance` | fteqtv/qw.c:2675-2709 | with room for each single item the index grows with every page |
| `PrespawnPages.PrespawnFinishes` | fteqtv/qw.c:2675-2709 | and 992 pages finish it, with nothing skipped or repeated |
| `PrespawnPages.FinishesExactlyWithRoom` | fteqtv/qw.c:431-626 | under a steady backlog the transfer ends exactly when each item on the way has room by itself |
| `PrespawnPages.CompleteExactlyWithoutBaselineZero` | fteqtv/qw.c:507-509 | for every map the pass is everything exactly when entity 0 has no baseline, since the userinfo stage counts one too many |
| `PrespawnPages.BaselineZeroIsLost` | fteqtv/qw.c:507-509 | a map whose pass is not |
| `PrespawnParse.TvMap.ParseUpdateUserinfo` | fteqtv/parse.c:1341-1357 | the text goes to its player; past the last player it is read and lost |
| `PrespawnParse.TvMap.ParseUpdateFrags` | fteqtv/parse.c:1281-1294 | the count goes to its player, if there is one |
| `PrespawnParse.TvMap.ParseUpdatePing` | fteqtv/parse.c:1266-1279 | likewise |
| `PrespawnParse.TvMap.ParsePacketloss` | fteqtv/parse.c:1359-1373 | likewise, the number taken modulo 32 |
| `PrespawnParse.TvMap.ParseLightstyle` | fteqtv/parse.c:1603-1618 | the style of that number |
| `PrespawnParse.TvMap.ParseBaseline` | fteqtv/parse.c:1235-1264 | the baseline of its entity, plain or as a delta; a number too large ends the message |
| `PrespawnParse.TvMap.ParseStaticSound` | fteqtv/parse.c:678-696 | the next sound, or the last again once all 256 are taken |
| `PrespawnParse.TvMap.ParseSpawnStatic` | fteqtv/parse.c:1213-1233 | the next static entity, likewise |
| `PrespawnParse.TvMap.ParseMessage` | fteqtv/parse.c:1707-2080 | one such message after another, up to the first of another kind |
| `PrespawnReader.ItemReads` | fteqtv/qw.c:431-626 | each item of the five stages, read, changes the map by what it stands for and leaves the bytes behind it |
| `PrespawnReader.FedSoFar` | fteqtv/qw.c:2675-2709 | after any pages, each parsed as a message of its own, the reader holds what the part of the map before the index stands for |
| `PrespawnReader.MapArrives` | fteqtv/qw.c:2675-2709 | once the pages are through: every player as shown, light style, sound and static entity in order, and every baseline but that of entity 0, which is left as it was |
| `ListTransfer.SendList` | fteqtv/qw.c:628-654 | one page of names, cut past 768 bytes, and the index returned |
| `ListTransfer.ParseList` | fteqtv/parse.c:643-661 | the names stored from the given index on, a byte or a short, and the closing byte |
| `ListTransfer.CutExactly` | fteqtv/qw.c:628-654 | a page is cut exactly behind the name that takes it past 768 bytes; the index it returns otherwise |
| `ListTransfer.PageArrives` | fteqtv/parse.c:643-661 | a cut page leaves the names up to the one after the returned index, then a blank; the last page leaves the rest of the list; nothing else is touched and the page is read to its end |
| `ListTransfer.NextPage` | fteqtv/qw.c:628-654 | both sides hold the same index after a page, larger than before |
| `ListTransfer.PagesAgree` | fteqtv/qw.c:628-654 | after any number of pages the reader has the list so far, one name to be re-sent, and a temporary blank |
| `ListTransfer.ListArrives` | fteqtv/qw.c:628-654 | with a blank before index 256 the list is rebuilt exactly |
| `ListTransfer.EndsExactlyWithBlank` | fteqtv/forward.c:530-542 | the sender's own loop ends exactly when there is such a blank |
| `ListTransfer.PageRunsOn` | fteqtv/parse.c:643-661 | a page of a list with no blank left: cut where the reader still leaves one, or read to the end of the array with the last byte left over |
| `ListTransfer.ReaderStops` | fteqtv/parse.c:2023-2035 | a reader that asks by the closing byte always stops, with the list up to its first blank, or all of it |
| `InfoString.ValueForKey` | fteqtv/rcon.c:67-123 | the value found scanning the string, or nothing, for every string |
| `InfoString.RemoveKey` | fteqtv/rcon.c:125-176 | the pair taken out in place, for every string whose pieces fit the local copies |
| `InfoString.SetValueForStarKey` | fteqtv/rcon.c:178-241 | refusals, removal and filtered append in place |
| `InfoString.ValueOfRender` | fteqtv/rcon.c:67-123 | on a well-formed string a lookup is the map lookup exactly when every piece up to it fits its buffer, and empty otherwise |
| `InfoString.AloneReadsBack` | fteqtv/rcon.c:67-123 | a value comes back into a buffer exactly when it leaves two bytes of it, or is empty |
| `InfoString.CutRender` | fteqtv/rcon.c:125-176 | removal takes the one pair of that key |
| `InfoString.WithoutIs` | fteqtv/rcon.c:125-176 | every other key keeps its value |
| `InfoString.SetRenders` | fteqtv/rcon.c:178-241 | the text after a set is that of the updated pairs, for every key |
| `InfoString.AcceptedExactly` | fteqtv/rcon.c:178-241 | a set is accepted exactly when neither string has a backslash, a quote or 64 characters, and the text with the new pair for the old fits |
| `InfoString.SetIsMapUpdate` | fteqtv/rcon.c:198-241 | a set that fits takes the old value of its key away and gives the new one, filtered, to the filtered key unless another pair has that name; one that does not fit changes no lookup; other keys and the size bound are kept |
| `InfoString.SetThenLookup` | fteqtv/rcon.c:178-241 | a lookup in the text after a set, for every key: with a plain key, the new value less its control characters under that key if the set was accepted, and what was there before in every other case |
| `InfoString.GivenBackExactly` | fteqtv/rcon.c:198-240 | the key just set reads back as the value given exactly when the set was accepted and the value is empty or neither has a character up to 13, or it was refused and the key had that value |
| `InfoString.StaysUniqueExactly` | fteqtv/rcon.c:223-240 | the text still has each key once exactly when no filtered key was appended that was there already |
| `InfoString.FilteredKeyLosesValue` | fteqtv/rcon.c:223-240 | a key and a plain value that are accepted and do not read back, and a string in which that key's name is taken |
| `Md4.Mdfour.Tail` | fteqtv/mdfour.c:165-193 | the state folded over the padded tail, one block or two |
| `Md4.Mdfour.Update` | fteqtv/mdfour.c:195-211 | the state folded over the whole padded message |
| `Md4.Mdfour.Result` | fteqtv/mdfour.c:214-220 | the four words, low-order byte first (RFC 1320, section 3.5) |
| `Md4.OutputReadsBack` | fteqtv/mdfour.c:138-153 | words are read as they are written, and come out in order |
| `Md4.BeginsAsBytes` | fteqtv/mdfour.c:155-162 | the initial state, in the bytes of RFC 1320, section 3.3 |
| `Md4.PaddingIsStandard` | fteqtv/mdfour.c:171-177 | the padding is that of RFC 1320, sections 3.1 and 3.2, exactly below 2^29 bytes |
| `Md4.Checksum` | fteqtv/mdfour.c:223-229 | the whole driver gives the standard's digest over the compression it is given |
| `UnionFind.UnionFind.Find` | iqm/util.h:445-451 | one value for a whole class, the first asked for when there was none |
| `UnionFind.UnionFind.CompressFind` | iqm/util.h:453-457 | the representative, which the element then points at; no class and no value changes |
| `UnionFind.UnionFind.Unite` | iqm/util.h:459-473 | the classes are those of one more pair; the table grows to hold both, and no element's value changes |
| `UnionFind.UnionFind.Attach` | iqm/util.h:464-472 | the root of smaller rank goes under the other; on a tie the second, whose own rank then grows |
| `UnionFind.CompressKeepsRoot` | iqm/util.h:453-457 | pointing a node at its root changes no root |
| `UnionFind.LinkedSymmetric` | iqm/util.h:459-473 | links between elements run both ways |
| `UnionFind.LinkedTransitive` | iqm/util.h:459-473 | and compose |
| `UnionFind.PartitionIsClosure` | iqm/util.h:459-473 | two elements have one representative exactly when the united pairs link them, reflexively, symmetrically and transitively |
| `HashTable.HashTable.constructor` | iqm/util.h:314-322 | an empty valid table; every method keeps it valid: the chains hold exactly the bindings of the map, each at its hash, `numelems` is the size of the map, and 64 times the chunks is `numelems` and the unused nodes together |
| `HashTable.HashTable.Access` | iqm/util.h:359-362 | the data of the key, or nothing |
| `HashTable.HashTable.Find` | iqm/util.h:371-374 | the data of the key, or the default given |
| `HashTable.HashTable.Insert` | iqm/util.h:330-349 | a node for a new key at the head of its chain, from a fresh chunk of 64 when none is unused |
| `HashTable.HashTable.AccessOr` | iqm/util.h:365-368 | the data already there, or the given data now bound |
| `HashTable.HashTable.Index` | iqm/util.h:377-380 | the key's own node, bound to default data if it is new |
| `HashTable.HashTable.Remove` | iqm/util.h:385-404 | true exactly when the key was bound; the map without it; no chunk given back |
| `HashTable.HashTable.Clear` | iqm/util.h:415-422 | the empty map; chunks freed only if something was stored |
| `HashTable.EachKeyLivesOnce` | iqm/util.h:330-404 | in every valid table a key is on one chain, at one place |
| `HashTable.PushBinds` | iqm/util.h:330-349 | insertion adds one binding to the map the chains stand for |
| `HashTable.UnlinkUnbinds` | iqm/util.h:385-404 | removal drops one |

## Left out

- Sockets, files, clocks, name lookup, console output and `select`: their answers are parameters; allocation succeeds.
- Floating point: coordinates and angles are their wire units (eighths, bytes, 16-bit units, or the bit pattern of a float), so a comparison of -0 with 0 or of NaN is a comparison of patterns; `Bsp` uses reals.
- Sequence numbers from 2^31 on and the wrap of 32-bit counters: the channel runs stay below.
- `outgoing_sequence = incoming_sequence` (fteqtv/qw.c:4615) and the controller's pass-through (fteqtv/qw.c:4478-4511): the channel is the sole owner of its fields.
- Rate limiting (`cleartime`, `Netchan_CanPacket`) and out-of-band packets.
- `netchan_t` is two classes, one per protocol; fields of the other protocol are absent.
- `QwChannel.NetChan.Process`: a datagram shorter than its header reads zeros past its end, as `ReadLong` does; what the caller then parses is not part of this model.
- `QwProtocol.Safety`: runs that start a block too long for its datagram, which then never travels (`QwProtocol.BlockTravelsWhenItFits`).
- `QwProgress.TripEffect`: a trip of an end that has not sent before; where that end is the peer, `QwProgress.FirstTripEffect` says what it does.
- `NqChannel.NqNetChan.Process`: a datagram under eight bytes on top of a begun fragment, where the code would copy a negative number of bytes; every other short datagram is covered.
- `EntityCodec.WriteDelta`: requires room for the whole delta; what remains of one that was clipped is not described.
- `PacketCodec.EmitPacketEntities`: requires room likewise, and lists over 1 to 511.
- `PacketCodec.SendInitialEnts`: requires room likewise.
- `EntityCodec.ParseEntityDelta`: the relinking of the entity to its leaves (fteqtv/parse.c:955-963).
- `PacketCodec.ParsePacketEntities`: the old and the new frame are different objects; the case of one and the same is stated on values in `FrameRing.SelfDeltaKeepsOldSlot`. Choosing the two frames, the relinking of entities to leaves and the notices to viewers are not modelled.
- MVD mode, where every `svc_packetentities` is a delta against the last frame (fteqtv/parse.c:1045-1050).
- `StreamRun.Proxy.EarlyParse`: streams with a length that is negative or above 8192 bytes, which the code walks over unchecked.
- `StreamRun.Proxy.ReadStream`: reads that bring such a length.
- `StreamRun.Proxy.Run`: the packet is consumed, not parsed; the flush of a corrupt stream (fteqtv/source.c:2419-2436), the QTV handshake phase and files read again inside the loop are left out.
- `NqViewerStream.FirstInFirstOut`: what the client does with a message of 8000 bytes or more, which it drops (`NqProtocol.CompletesExactlyWhenShort`).
- `StreamForward.ExactlyOnce`: for streams whose headers are sane, which is the guard of that flush.
- `WebSocket.Receiver.Recv`: text frames are excluded; fragmented and control frames and 64-bit lengths end the connection as in the code.
- `Bsp.Model.SetupForPosition`: the leaf has a row; maps without visibility data, and no map at all, are left out.
- `Bsp.Model.DecompressVis`: a row whose last run overruns the buffer is excluded; the code would write past it.
- `Prespawn.SendCurrentUserinfos`: a viewer with no stream, and the text of the spectator's name, which is a parameter.
- `PrespawnParse.TvMap.ParseMessage`: messages of any other kind end it; the parsers' forwarding to viewers (`Multicast`, `ConnectionData`) is not modelled, and frags and pings are kept as 16-bit patterns.
- `PrespawnReader.MapArrives`: texts that fit the reader's buffers, and coordinates and angles the wire can carry; a plain baseline or static entity leaves what it does not mention as it was.
- `Prespawn.Prespawn`: the message is empty and 1024 bytes large at the start, as at both call sites that resume.
- `InfoString.SetIsMapUpdate`: well-formed strings with unique keys, in buffers of up to 1024 bytes; lookups and removals themselves are modelled for every string.
- `InfoString.RemoveKey`: a key or value of 1024 bytes or more, which would overrun the local copies.
- `InfoString.SetValueForStarKey`: likewise.
- `Md4.Checksum`: the compression of one block (fteqtv/mdfour.c:85-136) is a parameter.
- `UnionFind.UnionFind.Unite`: nothing is claimed about ranks or depth: on a tie the rank of the attached root grows.
- `HashTable.HashTable.Insert`: requires a new key, as its two callers see to; a key inserted twice would be on its chain twice; `& (size - 1)` is `% size`, which is the same for the powers of two the table is meant for; nodes are places in a pool instead of pointers.
- `WriteDeltaUsercmd` and `ReadDeltaUsercmd`: the same scheme as an entity delta with one byte of flags.
- `vector::growbuf` and the rest of `iqm/util.h`.
- `QW_SetCommentator` (fteqtv/qw.c:2760-2774) writes straight into `netchan.message`, past the back buffers, so neither `FirstInFirstOut` holds across it.
- Player states, nails, sound and effect messages, interpolation, movement prediction, menus, the web pages and the relay.
