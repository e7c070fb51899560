# rzproxy, modelled and proved in Dafny

rzproxy is an HTTP gateway in front of a room-inventory backend. Two parts of it carry the weight, and this project
models both and the wire format between them.

**The multiplexed connection.** Many `execute` calls share a pool of TCP connections. A call picks a connection, takes
a correlation id, stores a one-shot sender under it in the connection's demux map, queues a frame and waits. A write
loop drains the queue to the socket. A read loop cuts frames out of the byte stream, takes the entry with the frame's
id out of the map and completes its sender. Keepalives, reconnects, closing and the map's cleanup go on beside this.
`Multiplex.dfy` is the transition system: one label per atomic step, a run is any sequence of enabled labels, and the
backend may answer any unanswered frame at any time, once or repeatedly. The same system exists at two levels of
detail (`Channel.dfy`): with whole messages, and with the bytes that the loops handle, delivered in pieces of any
size. `Refinement.dfy` shows that the two have the same runs. `Demux.dfy`, `Connection.dfy`, `Handler.dfy` and the
reader in `Framing.dfy` are the source's objects as classes with the source's loops, proved against functions that the
transition system uses too (`Drain`, `Stale`, `Remaining`, `Pick`, `Id`).

**The binary codec.** Requests and responses are tag-length-value fields behind a small header. The decoders walk the
bytes and push JSON in the same pass. Each decoder is a method with the source's loops, proved equal, on every byte
string, to a two-phase specification: parse to a tree, then print the tree. What the tree means, which byte strings
are accepted, and when a JSON reader gets the tree back, are lemmas about the specification.

How the files build on each other:

- `Bytes`, `Tlv`, `Json`: integers in little-endian bytes, fields, a JSON tree with a printer and an independent
  reader.
- `Dates`, `PropertyId`, `Features`, `Sorting`, `Response`: what several decoders share, the fast writers beside their
  simple twins.
- `SearchAvail`, `GetSegments`, `PropRoomDateList`, `SearchProp`, `GetPropRoomDay`, `GetCodecs`: one decoder each.
- `Requests`, `Commands`: the request buffer with its patched count, and three builders with optional fields.
- `Framing`: outgoing frames, incoming frames, and the incremental reader over arbitrary chunks.
- `Channel`, `Demux`, `RoundRobin`, `Multiplex`: the pieces of the transition system; `Connection`, `Handler`: its
  classes.
- `Bookkeeping`, `Outcomes`, `Traffic`, `Refinement`, `Polite`: invariants of every step, each with its induction over
  runs.
- `Safety`, `Conservation`, `Effects`, `Origin`, `Progress`, `Limits`, `EndToEnd`: what follows for every reachable
  state, what the flags mean for all that comes after, whose request every frame is, what remains possible, concrete
  runs that show where the guarantees end, and a read and a write command from query to answer.

The labels of the transition system and the code they stand for:

- Begin, Choose, TakeId, Store, Send, Return: `execute` up to its loop (src/handler/handler.rs:135-146), the pool's
  choice (147, 118-133), the second look at the closed flag with the next id (148-160), storing the sender (168-171),
  queueing the frame (174), and the end of the wait (176-187).
- Transport: the write loop writing a frame, or part of one before it fails (src/handler/connection.rs:86-90), the
  backend taking up a frame or answering one, bytes arriving in the read buffer.
- Deliver and StopReading: one turn of the read loop (src/handler/connection.rs:98-110), and its end on a closed
  stream.
- KeepAlive, Close, Reconnect, Cleanup: src/handler/connection.rs:131, src/handler/connection.rs:91, 111 and 154-156,
  one slot of src/handler/handler.rs:91-115, and src/handler/demux.rs:36-53.

What holds only under a condition is stated with it:

- Correct delivery needs fewer than 2^32 ids issued on each connection. `Limits.BoundIsTight` reaches a state with
  2^32 ids in which a call is given the answer to a keepalive.
- At the byte level it also needs requests that fit their frames (router segments of at most 255 bytes, lengths below
  2^32). `Framing.ReadFrameIffEncoded` says that a frame can be read back exactly under that condition.
- Below 2^32 ids per connection, the read loop takes its unknown-id exit exactly when the next answer is under id 0 or
  under an id whose attempt is settled already (`Safety.UnknownIdIffKeepaliveOrSettled`). So the exit is unreachable
  without cleanups, for a backend that answers each frame once and never id 0, while fewer than 2^32 ids are issued.
  `Limits` has a run from the start into it for each of these four conditions, the other three being met.
- Rendered JSON reads back exactly when no string in it needs escaping: the decoders copy strings unescaped.
  `SearchAvail.QuoteUnreadable` is an accepted payload whose answer does not read back.
- 16-bit field counters wrap. `SearchAvail.WrapAccepted` is a payload of 65537 fields that announces one and is
  accepted; below 65536 fields the announced count is exact.

Where the code and its documentation differ, the model follows the code:

- README.md promises a keepalive interval of 30 seconds by default, src/config.rs:72-73 says 15. Intervals do not
  occur in the model.
- src/config.rs:67-69 has a request timeout, but nothing uses it: in `execute` a wait ends only with an answer, a
  cleanup or a dropped sender. Accordingly no step of the model ends a wait by time.
- README.md calls the SEARCHPROP filter `type`, the code reads `property_type`. The model starts from the typed query.
- A comment at src/helper.rs:184 calls copying an id into the JSON safe because ids are printable ASCII; a quotation
  mark is printable ASCII and is copied as it is.
- README.md shows SEARCHPROP answers as lists of properties; the decoder turns a success with a single field into an
  error (src/processor/search_prop.rs:147).

## Model

| member | source | states |
|---|---|---|
| Safety.DeliveredIsOwnAnswer | src/handler/handler.rs:159-177 | In every reachable state at either level, a completed attempt holds a non-empty answer that the backend gave, on that attempt's own connection, to the very frame that attempt sent; for fewer than 2^32 ids per connection. |
| Safety.CallGetsItsOwnAnswer | src/handler/handler.rs:135-188 | A call that returns bytes returns the backend's answer to the frame of its own request: in router mode a router frame with the call's segment, write flag and payload, otherwise a shard frame with its payload, under the id taken. Or it returns empty bytes, exactly if its entry was expired by a cleanup. |
| Origin.CallsAreBegins | src/handler/handler.rs:135-143 | Along every run each call keeps the segment, write flag and payload it arrived with. |
| Origin.FramesCarryTheirRequest | src/handler/handler.rs:159-174 | In every run at either level: a frame the backend has taken up, answered or not, is a keepalive or belongs to one call of the run. It is a router frame with exactly the segment, write flag and payload that call arrived with, or in standalone mode a shard frame with that payload, under the id, modulo 2^32, that its attempt took on that connection. |
| Origin.CallIsAnsweredAsAsked | src/handler/handler.rs:135-188 | For every call that returns non-empty bytes, some step of the run is the backend answering, with these bytes, such a frame of this very call; below 2^32 ids per connection. |
| Safety.HowCallsFail | src/handler/handler.rs:141-155 | In every reachable state a call has been refused exactly if its payload is empty, and has given up exactly if it has failed three times. |
| Safety.LoggedIsOwn | src/handler/connection.rs:94-112 | While ids are distinct and not 0, a logged answer under an attempt's id answers that attempt's frame, and every other logged answer under that id answers the same frame. |
| Safety.LogRecordsAnswers | src/handler/connection.rs:94-112 | The record of answers is faithful: each entry is a backend answer step of the run, on that connection. |
| Safety.OneAttemptPerCall | src/handler/handler.rs:145-187 | While ids do not wrap, a call never takes a second id and never sends a second frame, despite the retry loop. |
| Safety.NeverTimesOut | src/handler/handler.rs:176-186 | While ids do not wrap, the Timeout result cannot be reached. |
| Safety.CleanupExpiresExactlyTheOld | src/handler/demux.rs:36-53 | A cleanup expires exactly the attempts waiting on its connection with a store time before the threshold, and touches no other outcome. |
| Effects.DeliverIsReadTurn | src/handler/connection.rs:98-110 | A delivery over bytes needs a buffer that holds a whole frame or an error. What cannot be drained and an id without an entry end reading and complete nothing; otherwise the entry goes, its attempt completes with the payload and no other attempt changes. It is what the class method `ReadTurn` does. |
| Effects.NothingAfterTheLastTurn | src/handler/connection.rs:99-112 | After the turn that ends reading, in every continuation nothing is delivered on the connection any more and no attempt on it completes. |
| Effects.NoIdsAfterClose | src/handler/handler.rs:148-160 | In every continuation a closed connection stays closed and issues no further id. |
| Effects.NoWriteAfterFailure | src/handler/connection.rs:86-92 | A write loop that has failed to write a frame writes nothing more, in every continuation. |
| Effects.ReconnectIffDead | src/handler/handler.rs:86-116 | A slot can be reconnected exactly if it is empty or its connection is closed; the new connection is open, with empty channels, no entries and no ids issued, and nothing else changes. |
| Effects.ChoosesOpenConnection | src/handler/handler.rs:118-156 | A scan gives the call the connection of a slot that is not closed, and finds none exactly if every slot is empty or closed; then the call has failed once more, and gives up at the third failure. |
| Effects.GivesUpAfterThree | src/handler/handler.rs:145-156 | A call that finds every slot dead goes on after the first two looks and ends as unreachable at the third. |
| Safety.LiveSlotIsKept | src/handler/handler.rs:86-116 | No step of any kind takes a live slot's connection away. |
| Safety.PoolIsSafe | src/handler/handler.rs:86-133 | In every reachable state the scan index is in range of any non-empty pool, slots hold existing connections, and no two slots share one, hence none share a demux map. |
| Safety.UnknownIdIffKeepaliveOrSettled | src/handler/connection.rs:104-107 | In every reachable state below 2^32 ids, for any backend and any cleanups: what the read loop drains next has an unknown id if and only if that id is 0 or the attempt that took it has been answered, cleaned up or dropped. |
| Polite.NoUnknownId | src/handler/connection.rs:104-107 | After any run without cleanups, whose backend answers each frame once and never id 0, and with fewer than 2^32 ids issued on each connection, whatever the read loop drains next has its id in the demux map. |
| Polite.PoliteRunExpectsAll | src/handler/handler.rs:168-174 | Store before send over whole such runs, below 2^32 ids: every non-keepalive frame queued, on the wire, unanswered or answered is there once, and its id is pending for the attempt that sent it. |
| Polite.StepOrderly | src/handler/handler.rs:168-174 | Each single step of such a run keeps that, below 2^32 ids. |
| Polite.FreshRequest | src/handler/connection.rs:142-148 | Below 2^32 ids, a frame about to be sent is nowhere in flight and is not the keepalive. |
| Conservation.IdsAreConserved | src/handler/demux.rs:26-53 | Ids issued on a connection = taken and not stored + entries in the demux map + answered + cleaned up + overwritten. |
| Conservation.IdsAreConservedWithoutWrap | src/handler/demux.rs:26-53 | Below 2^32 ids none is overwritten: each is not stored yet, in the demux map, answered or cleaned up, and the four counts add up. |
| Conservation.DemuxHoldsThePending | src/handler/demux.rs:26-34 | The demux map has exactly one entry for each pending id. |
| Conservation.PendingIffInDemux | src/handler/demux.rs:26-34 | An id is pending exactly when the map holds it with the attempt that took it. |
| Bookkeeping.RunConsistent | src/handler/handler.rs:135-188 | Along every run slots, calls, attempts, ids and entries stay consistent, and nothing is undone: requests, ids, results and outcomes, once there, are final, so a sender completes at most once. |
| Bookkeeping.StepKeeps | src/handler/handler.rs:86-188 | Every step of every interleaving keeps that invariant and keeps the past. |
| Bookkeeping.StoreKeeps | src/handler/demux.rs:26-29 | Storing makes the attempt pending; an entry it overwrites belonged to another, still open attempt, which alone loses its sender. |
| Bookkeeping.DeliverKeeps | src/handler/connection.rs:98-110 | A delivery completes the attempt whose entry it takes out, and the map stays in step with what is pending. |
| Bookkeeping.CleanupKeeps | src/handler/demux.rs:36-53 | A cleanup keeps the map in step with what is pending. |
| Outcomes.StepEnds | src/handler/handler.rs:145-187 | Every step keeps: three failures end a call, an empty payload is refused, each result names the attempt it comes from, and each attempt is the one its call awaits, was answered by, or lost to a discarded sender. |
| Outcomes.IdsDistinct | src/handler/connection.rs:142-144 | Below 2^32 ids, two attempts with one id on one connection are the same attempt, and the id is not 0. |
| Traffic.StepTraced | src/handler/connection.rs:82-114 | Every step keeps: each frame in flight and each answered frame is a keepalive or was sent by an attempt on that connection, and each completed attempt has an answer in the record under its id. |
| Traffic.StepInFlight | src/handler/connection.rs:84-92 | Writing, failing, receiving and answering never bring up a frame that was not in flight. |
| Channel.StepSpells | src/handler/connection.rs:84-112 | Each byte-level move of the write loop, the backend or the network (whole or failing writes, answers, arrivals of any size) is the same move on messages. |
| Channel.TakeSpells | src/protocol/mod.rs:150-215 | Whatever part of the answers has arrived, what the read loop drains is the next message in order, or an error exactly where the answer has no room for its head. |
| Channel.ReadsWire | src/handler/connection.rs:84-92 | From the bytes written so far the backend reads exactly the frames written whole, in order, and nothing from one a failing write cut off. |
| Channel.FirstInFirstOut | src/handler/connection.rs:84-92 | Frames written or waiting are one sequence: new ones join at its end, the backend takes them from its front, writing keeps it, and only a failing write loses frames, all from the end. |
| Channel.TakeRealized | src/protocol/mod.rs:150-215 | A message that is waiting can be drained once the bytes under way have arrived. |
| Refinement.RunSpelled | src/handler/connection.rs:82-114 | Every run over bytes is a run over messages with the same labels, for requests that fit their frames. |
| Refinement.RunRealized | src/handler/connection.rs:82-114 | Conversely every run over messages happens over bytes, with arrivals put in before deliveries. |
| Refinement.StepSpelled | src/handler/connection.rs:82-114 | The single step of the simulation, over all labels of the whole system. |
| Progress.CallReachesBackend | src/handler/handler.rs:146-174 | A call that finds an idle connection with its next id free can choose, take the id, store, send and have exactly its frame reach the backend: router mode, its segment, write flag and payload; standalone, its payload; and it waits under that id. |
| Progress.AnswerReachesItsCall | src/handler/handler.rs:176-177 | When no other answer is waiting on its connection, any one unanswered frame can be answered next: its own call returns exactly that answer, and no other call, attempt or connection changes. |
| Progress.AnswersComeThrough | src/handler/connection.rs:94-112 | After a polite run and with any readable answers waiting ahead, any one unanswered frame can be answered next: each answer ahead completes the attempt whose frame it answers, and then this one reaches its own call; other connections do not change. |
| Limits.BoundIsTight | src/handler/connection.rs:142-144 | Some run issues 2^32 ids on a connection and gives a call the answer to a keepalive. |
| Limits.CleanupMakesIdsUnknown | src/handler/demux.rs:36-53 | A run from the start, with one id issued and all labels polite but one cleanup, reaches a state whose next answer has an unknown id. |
| Limits.AnsweredKeepaliveIsUnknown | src/handler/connection.rs:104-107 | The same with one answered keepalive as the only impolite label. |
| Limits.SecondAnswerIsUnknown | src/handler/connection.rs:104-107 | The same with one answer that leaves its frame to be answered again. |
| Limits.ReuseMakesIdsUnknown | src/handler/connection.rs:142-144 | A run of polite labels alone, with 2^32 + 1 ids issued, reaches a state whose next answer has an unknown id. |
| EndToEnd.SearchIsAnswered | src/processor/search_avail.rs:102-174 | A SEARCHAVAIL call of a run that returns was given the backend's answer, at some step of the run, to a read for its segment that carries exactly its own query, or a cleanup's empty bytes, which decode to the fixed invalid response. |
| EndToEnd.UpdateIsAnswered | src/processor/set_room_pkg.rs:67-114 | A SETROOMPKG call of a run that returns non-empty bytes was given the backend's answer, at some step of the run, to a write for its segment that carries exactly its own package. |
| Progress.CallsAreSpread | src/handler/handler.rs:118-133 | Calls that choose one after the other while no slot changes are given the live slots in cyclic order, each once per round. |
| RoundRobin.PicksAreFair | src/handler/handler.rs:118-133 | While no slot changes, m successive calls return the first m live slots of the cyclic order and rotate it by m. |
| RoundRobin.CycleListsLiveSlotsOnce | src/handler/handler.rs:118-133 | That order holds every live slot exactly once, so L calls return each of the L live slots exactly once. |
| RoundRobin.PickRotates | src/handler/handler.rs:118-133 | One call returns the next live slot and moves it to the back. |
| RoundRobin.PicksNearestLive | src/handler/handler.rs:118-133 | The slot returned is the nearest live one going around from the index, and the index is left one behind it. |
| RoundRobin.NoneIffNoneLive | src/handler/handler.rs:118-133 | No connection is returned exactly when no slot is live. |
| Handler.Handler.NextConnection | src/handler/handler.rs:118-133 | The loop returns what the scan function picks and leaves its index. |
| Handler.Handler.ReconnectClosed | src/handler/handler.rs:86-116 | One pass leaves live slots and failed connects alone and gives every other slot a fresh open connection with a fresh, empty demux map of its own. |
| Handler.Handler.ReconnectSlot | src/handler/handler.rs:91-115 | The body of that pass for one slot; all other slots are untouched. |
| Handler.Handler.constructor | src/handler/handler.rs:41-62 | The pool starts with empty slots. |
| Connection.Connection.constructor | src/handler/connection.rs:66-78 | A new connection is open, its queue and its ids unused. |
| Connection.Connection.NextCorrId | src/handler/connection.rs:142-144 | The n-th id handed out is n modulo 2^32. |
| Connection.Connection.SendFrame | src/handler/connection.rs:146-148 | The frame is queued, or lost once the write loop has ended. |
| Connection.Connection.KeepAliveTick | src/handler/connection.rs:124-136 | A tick queues the encoding of the keepalive frame, unless the connection is closed or the write loop gone. |
| Connection.Connection.WriteLoop | src/handler/connection.rs:84-92 | The socket gets the queued frames in order as far as it takes bytes; the loop ends and closes the connection exactly when it does not take them all. |
| Connection.Connection.ReadTurn | src/handler/connection.rs:98-110 | One turn drains one answer, takes its entry out and completes that sender with it, or stops. |
| Connection.Connection.ReadLoop | src/handler/connection.rs:94-112 | From the bytes alone: the loop completes, each with its own answer, the senders of the longest prefix of answers whose ids are known, and then closes the connection. |
| Connection.ServedIffLongest | src/handler/connection.rs:98-112 | The number of answers the loop delivers is the only one for which those answers have distinct known ids and the next answer, if any, has an unknown or used-up id. |
| Connection.JoinedSplits | src/handler/connection.rs:84-92 | What the write loop sends splits back into exactly the queued frames, in order, if and only if all are well sized. |
| Demux.DemuxMap.Store | src/handler/demux.rs:26-29 | The map gains the entry; an overwritten sender is dropped, all others keep waiting. |
| Demux.DemuxMap.LoadRemove | src/handler/demux.rs:31-34 | The entry, if there is one, comes out with its sender still waiting, and is in the map no more. |
| Demux.DemuxMap.Cleanup | src/handler/demux.rs:36-53 | Exactly the senders stored before the threshold get empty bytes, once each; exactly their entries go. |
| Demux.DemuxMap.CollectStale | src/handler/demux.rs:40-45 | The first loop lists exactly the stale ids. |
| Demux.DemuxMap.ExpireAll | src/handler/demux.rs:47-52 | The second loop completes and removes the listed entries that are there. |
| Demux.Sender.Send | src/handler/demux.rs:50 | A one-shot sender completes once. |
| Framing.FrameReader.DrainFrame | src/protocol/mod.rs:150-215 | For any chunking, including end of file or a failure, the result is a function of the bytes still to come, and exactly the drained frame is consumed. |
| Framing.FrameReader.DrainAll | src/handler/connection.rs:98-102 | Draining until an error yields the frames and the first error that the concatenated bytes determine. |
| Framing.FrameReader.Fill | src/protocol/mod.rs:155-163 | Reading stops with enough bytes buffered, or when there never will be enough; no byte is lost. |
| Framing.DrainIffEncoded | src/protocol/mod.rs:150-215 | A payload is drained under an id exactly where the shard frame of a payload with room for its head stands, and the header reports that payload's status length and field count. |
| Framing.DrainReports | src/protocol/mod.rs:165-215 | The id, the status length and the field count of a drained frame stand at bytes 1, 9 and 10 + status length of the stream. |
| Framing.DrainErrors | src/protocol/mod.rs:150-215 | Exactly when each error is reported: the stream has fewer than 9 bytes or ends inside a shard frame; it has 9 bytes and does not start with 0xFF; it starts with a whole shard frame whose payload is empty or has no room for its status and field count. |
| Framing.DrainsUndoFraming | src/protocol/mod.rs:90-215 | Draining the concatenation of framed payloads yields exactly those ids and payloads in order, then a short frame. |
| Framing.DrainExtends | src/protocol/mod.rs:150-215 | Bytes that come later change neither a complete frame nor a wrong magic byte. |
| Framing.PrependHeader | src/protocol/mod.rs:90-107 | The shard frame, for every payload. |
| Framing.PrependRouterHeader | src/protocol/mod.rs:110-148 | The router frame, for every segment and payload, with the source's 32-bit additions. |
| Framing.BuildKeepaliveFrame | src/protocol/mod.rs:70-87 | The keepalive is the router frame for the segment __keepalive__, read, id 0, empty payload. |
| Framing.ReadFrameIffEncoded | src/protocol/mod.rs:70-148 | A byte string starts with a frame exactly if it starts with that frame's encoding and no length of it was cut short. |
| Framing.FramesUniquelyDecodable | src/protocol/mod.rs:70-148 | A byte string splits into a list of shard, router and keepalive frames exactly if it is their concatenation and all are well sized. |
| Framing.RouterLayout | src/protocol/mod.rs:126-145 | Byte by byte: 0xFE, a length that covers exactly the bytes after it, the segment behind its length, 1 for a write and 0 for a read, and the shard frame. |
| Framing.ShardLayout | src/protocol/mod.rs:90-107 | Byte by byte: 0xFF, the id, the length of the payload, the payload. |
| Framing.KeepaliveLayout | src/protocol/mod.rs:70-87 | The bytes of the keepalive, with the segment __keepalive__. |
| Framing.CutFrameUnreadable | src/handler/connection.rs:86-89 | No proper prefix of a frame reads as a frame. |
| Requests.FramedRequestReports | src/protocol/mod.rs:197-212 | Draining a framed request reports the length of its command name and its patched field count. |
| Requests.RequestInvertibleIffFits | src/processor/search_avail.rs:102-166 | A request reads back to its command and fields exactly if every field length fits 32 bits. |
| Tlv.FieldLayout | src/processor/search_avail.rs:110-116 | A field is two bytes of id, one of type, four of length, low bytes first, and then that many bytes of data. |
| Tlv.ParseHeadIffEncoded | src/processor/search_avail.rs:180-189 | A head is read exactly if the payload starts with a length byte, that many status bytes and a 16-bit count. |
| Requests.NumberedRowsEncodeWell | src/processor/search_avail.rs:118-161 | Field ids strictly increase, each field has the type of its row, and every id looks up, under that type, what was supplied. |
| Requests.RequestBuffer.AddField | src/processor/search_avail.rs:110-116 | The closure appends one encoded field and counts it in 16 bits. |
| Requests.RequestBuffer.AddRow | src/processor/search_avail.rs:118-161 | Only a value that is present adds a field. |
| Requests.RequestBuffer.PatchFieldCount | src/processor/search_avail.rs:163-166 | Patching two bytes turns the buffer into the encoding of the request. |
| Commands.BuildSearchAvail | src/processor/search_avail.rs:102-166 | For every query the buffer is the encoding of its present fields. |
| Commands.SearchAvailRoundTrip | src/processor/search_avail.rs:102-166 | It reads back to exactly that query, unless a text is too long for its length word. |
| Commands.SearchAvailRecovered | src/processor/search_avail.rs:120-163 | A reader that takes texts only from fields of type 0x01, single bytes from 0x02 and longer numbers from 0x03 gets the query back. |
| Commands.SearchAvailFields | src/processor/search_avail.rs:120-163 | Field by field: which ids occur, the type byte of each, and under each id the value of exactly one parameter in its encoding, or nothing. |
| Commands.BuildSearchProp | src/processor/search_prop.rs:54-102 | The same for SEARCHPROP. |
| Commands.SearchPropRoundTrip | src/processor/search_prop.rs:54-102 | The SEARCHPROP buffer reads back to exactly its query. |
| Commands.SearchPropFields | src/processor/search_prop.rs:54-102 | The fields of SEARCHPROP, one by one, with their ids, types and values. |
| Commands.BuildSetRoomPkg | src/processor/set_room_pkg.rs:67-108 | The same for SETROOMPKG. |
| Commands.SetRoomPkgRoundTrip | src/processor/set_room_pkg.rs:67-108 | The SETROOMPKG buffer reads back to exactly its query. |
| Commands.SetRoomPkgFields | src/processor/set_room_pkg.rs:87-103 | The fields of SETROOMPKG, one by one, with their ids, types and values. |
| Commands.CommandNames | src/processor/search_avail.rs:102-106 | The command names spelled out. |
| SearchAvail.Decode | src/processor/search_avail.rs:174-373 | On every byte string the one-pass decoder gives the printed tree if the payload parses and the fixed invalid response otherwise, never partial JSON. |
| SearchAvail.SuccessIffEncoded | src/processor/search_avail.rs:209-361 | A SUCCESS payload with non-zero count is accepted exactly if its field area encodes acceptable fields, followed by at most 6 stray bytes. |
| SearchAvail.AcceptedWithoutWrap | src/processor/search_avail.rs:209-361 | Below 65536 fields acceptable means: consecutive ids from 1, count 2k+1, a 2-byte field of type 0x02, then pairs of an id of type 0x01 and a days vector of type 0x08 of exactly 2 + 11 * days bytes, each day with a packed date that `u16_to_date` accepts. |
| SearchAvail.PropertiesInOrder | src/processor/search_avail.rs:249-350 | The properties are the pairs in wire order, each with its own days. |
| SearchAvail.AnswerShowsFields | src/processor/search_avail.rs:249-364 | For an accepted payload a client that looks values up by name finds, for every property p and day k: "property_id" from field 2p+1; "availability" from byte 2 + 11k + 2 of field 2p+2, "final_price" from the four bytes at +3, the names for the mask at +7 under "rate_feature", and under "date" the date whose year offset, month and day are packed at +0. The text reads back to that object exactly if nothing shown needs escaping. |
| SearchAvail.OtherAnswers | src/processor/search_avail.rs:174-207 | No head gives the fixed error, another status is handed on with its head, and count 0 is an empty list. |
| SearchAvail.CountExactIffNoWrap | src/processor/search_avail.rs:352-361 | The announced count is the number of fields exactly if there are fewer than 65536. |
| SearchAvail.WrapAccepted | src/processor/search_avail.rs:352-361 | A payload of 65537 fields that announces one is answered with 32768 properties. |
| SearchAvail.ResultReadsBackIffPlain | src/processor/search_avail.rs:249-364 | A JSON reader recovers ids, dates, availabilities, prices and feature names exactly if no string shown needs escaping. |
| SearchAvail.QuoteUnreadable | src/helper.rs:176-203 | An accepted payload with a quotation mark as property id is answered with a text that does not read back to its tree. |
| SearchAvail.WriteProperties | src/processor/search_avail.rs:217-361 | The outer loop succeeds exactly if the field area parses, and has then appended the properties of the tree. |
| SearchAvail.WriteProperty | src/processor/search_avail.rs:249-350 | The property arm takes the days vector from the next field, or refuses exactly if that field is not one. |
| SearchAvail.WriteDays | src/processor/search_avail.rs:299-346 | The inner loop appends all days, or refuses exactly if a date is invalid. |
| Dates.WritePackedDate | src/helper.rs:107-138 | The fast writer accepts what `u16_to_date` accepts and appends the same text, and nothing on refusal. |
| Dates.U16ToDate | src/helper.rs:31-52 | Accepts exactly the Gregorian dates (section 5.7 of RFC 3339); its text reads back, as a full-date (section 5.6), to the unpacked date. |
| Dates.CalendarIs | src/helper.rs:31-52 | Which dates exist, with month lengths counted from March by the 153-day rule. |
| Dates.ShownIffPacked | src/helper.rs:31-52 | A value is shown as the date d exactly if d lies in the eight years from the current one and the low 12 bits are 512 * year offset + 32 * (month - 1) + (day - 1). |
| Dates.AcceptedIffPacked | src/helper.rs:31-52 | A value is accepted exactly if its low 12 bits are such a packing of an existing date; the upper four bits are ignored. |
| Dates.FullDateSpelled | src/helper.rs:107-162 | A date is shown as its ten characters, digit by digit. |
| Dates.WriteFourDigits | src/helper.rs:142-151 | Four zero-padded digits. |
| Dates.WriteTwoDigits | src/helper.rs:154-162 | Two zero-padded digits. |
| Dates.PackedOrder | src/helper.rs:31-52 | Under one year, the order of the low 12 bits, calendar order and byte order of the text coincide. |
| Dates.TextOrderIsCalendarOrder | src/processor/prop_room_date_list.rs:152 | Dates written YYYY-MM-DD sort as text as they do in the calendar. |
| PropertyId.WriteQuotedPropertyId | src/helper.rs:166-248 | Appends the quoted text of the id, on every byte string. |
| PropertyId.BytesToPropertyId | src/helper.rs:55-98 | Gives the same text whenever the short form is ASCII. |
| PropertyId.ShortRoundTripIffNulFree | src/helper.rs:55-98 | Unpacking undoes the NUL-padded six-byte, marker, rest packing for exactly the ids without a NUL. |
| PropertyId.UuidRoundTrip | src/helper.rs:205-240 | The UUID text (section 4 of RFC 9562) reads back to the zero-padded 16 bytes. |
| PropertyId.ShortFormShows | src/helper.rs:166-203 | With 0xF0 at byte 6: the bytes before it up to the first NUL, and those behind it up to theirs. |
| PropertyId.UuidFormShows | src/helper.rs:205-248 | With 1 to 5 or 7 in the upper half of byte 6: a UUID text that reads back to the first 16 bytes, zero-padded. |
| PropertyId.OtherFormsShowNothing | src/helper.rs:166-248 | Any other byte there, or fewer than 7 bytes, shows nothing. |
| PropertyId.UuidSpelled | src/helper.rs:205-240 | Two lower-case hexadecimal digits per byte, in order, with hyphens before bytes 4, 6, 8 and 10. |
| Features.NameListInvertsJoinIffGood | src/processor/get_codecs.rs:111-120 | Split, trim and drop-empty undo comma-joining for exactly the lists of non-empty, trimmed, comma-free names. |
| Features.NameListOfPieces | src/processor/get_codecs.rs:111-120 | What any text announces: its comma-free pieces without surrounding white space, in order, the blank ones left out. |
| Features.TrimIs | src/processor/get_codecs.rs:116 | Trimming takes away blanks at the two ends and nothing else. |
| Features.MaskRecoverable | src/helper.rs:13-28 | With distinct names two masks print alike exactly if they agree on the low min(24, n) bits. |
| Features.BitShowsAnnouncedName | src/helper.rs:13-28 | The i-th announced name is shown exactly if position i, below 24, is set in the selection whose powers of two add up to the low 24 bits. |
| Features.NamesAreChosen | src/helper.rs:13-28 | A mask that is the sum of 2^i over the set positions of a selection, plus any multiple of 2^24, shows the features at these positions, each once, in ascending order. |
| Features.EveryMask | src/helper.rs:13-28 | Every mask is such a sum. |
| Features.BitmaskToFeatureStrings | src/helper.rs:13-28 | The loop lists the names of the set bits in order, or fails before any announcement. |
| Features.WriteRateFeaturesArray | src/helper.rs:254-275 | The streaming writer appends the printed list version, and an empty array before any announcement. |
| GetCodecs.Decode | src/processor/get_codecs.rs:35-121 | Gives the names of the announcement, on every byte string. |
| GetCodecs.AnnouncementArrives | src/processor/get_codecs.rs:35-121 | A one-field payload of joined names, whatever follows it, delivers exactly those names if and only if each is non-empty, trimmed and comma-free. |
| GetCodecs.AnnouncedIffEncoded | src/processor/get_codecs.rs:35-121 | A payload announces a list of names exactly if it is a SUCCESS with count 1 whose field area starts with the encoding of a type 0x09 field 1 that is UTF-8 and splits to that list. |
| GetSegments.Decode | src/processor/get_segments.rs:45-170 | Parse then print, on every byte string. |
| GetSegments.SuccessIffEncoded | src/processor/get_segments.rs:68-139 | Accepted exactly if the field area encodes name and count pairs with the announced count, then at most 6 stray bytes. |
| GetSegments.EachNameWithItsCount | src/processor/get_segments.rs:83-139 | Each segment is a name field with the count of the very next field, in wire order, count/2 of them if the ids do not wrap. |
| GetSegments.AcceptedWithoutWrap | src/processor/get_segments.rs:83-139 | Below 65536 fields acceptable means: an even count, ids from 1 on, and names of type 0x01 and four-byte counts of type 0x03 in turn. |
| GetSegments.AnswerShowsSegments | src/processor/get_segments.rs:146-168 | A client that looks values up by name finds the text of field 2i under "segment" and the number of field 2i+1 under "propCount". |
| GetSegments.OtherAnswers | src/processor/get_segments.rs:45-81 | No head, another status, an odd count and count 0. |
| GetSegments.WriteSegments | src/processor/get_segments.rs:146-160 | Every entry has its count when it is rendered, so the unwrap is defined. |
| GetSegments.ResultReadsBackIffPlain | src/processor/get_segments.rs:146-160 | A JSON reader recovers names and counts exactly if no name needs escaping. |
| PropRoomDateList.Decode | src/processor/prop_room_date_list.rs:74-177 | Parse, sort, print, on every byte string. |
| PropRoomDateList.SuccessIffEncoded | src/processor/prop_room_date_list.rs:105-149 | A SUCCESS payload with non-zero count is accepted exactly if its field area encodes text fields with consecutive ids and the announced count, followed by at most 6 stray bytes. |
| PropRoomDateList.AnswersSortedPermutation | src/processor/prop_room_date_list.rs:110-167 | An accepted payload is answered with one list and no other: the sorted permutation of its non-empty fields. |
| PropRoomDateList.BagCounts | src/processor/prop_room_date_list.rs:110-150 | Each text is to be listed as often as there are fields that hold it, the empty ones not counted. |
| PropRoomDateList.AcceptedWithoutWrap | src/processor/prop_room_date_list.rs:105-149 | Below 65536 fields acceptable means: ids from 1 on, all of type 0x01, as many as announced. |
| PropRoomDateList.OtherAnswers | src/processor/prop_room_date_list.rs:74-108 | No head, another status, and count 0, which is an empty list. |
| PropRoomDateList.AnswersChronologically | src/processor/prop_room_date_list.rs:152 | When those fields are full-dates, the answer lists them in chronological order. |
| PropRoomDateList.ListsSortedPermutation | src/processor/prop_room_date_list.rs:110-165 | A list is the one printed for given fields exactly if it is sorted and a permutation of their non-empty texts. |
| Sorting.SortTextsIffSortedPermutation | src/processor/prop_room_date_list.rs:152 | There is exactly one sorted permutation, so any correct sort gives it. |
| Sorting.SortedIffChronological | src/processor/prop_room_date_list.rs:152 | For calendar dates, sorted is chronological. |
| SearchProp.Decode | src/processor/search_prop.rs:110-249 | Parse exactly the counted fields, then print, on every byte string; a single field becomes an error. |
| SearchProp.SuccessIffEncoded | src/processor/search_prop.rs:192-241 | Accepted exactly if the counted fields are encoded at the start of the area; any tail is ignored. |
| SearchProp.AnswerShowsIds | src/processor/search_prop.rs:192-249 | The answer shows under "properties" one id per field, each the text of its own field, in wire order. |
| SearchProp.SingleFieldIsError | src/processor/search_prop.rs:147-190 | A single field is an error exactly if it is field 1 of type 0x01, and an invalid response otherwise. |
| SearchProp.ErrorShows | src/processor/search_prop.rs:171-189 | That error shows "error" as its status and as its message the bytes of the field, or UNKNOWN_ERROR if there are none. |
| SearchProp.OtherAnswers | src/processor/search_prop.rs:110-131 | No head gives the fixed error, another status is handed on with its head. |
| Response.TextsReadBackIffPlain | src/processor/search_prop.rs:225-241 | A JSON reader recovers the texts of a list answer (SEARCHPROP, PROPROOMDATELIST) exactly if none needs escaping. |
| GetPropRoomDay.Decode | src/processor/get_prop_room_day.rs:84-218 | Parse the five fields, then print, on every byte string. |
| GetPropRoomDay.SuccessIffEncoded | src/processor/get_prop_room_day.rs:113-179 | Accepted exactly if the payload is the five fields and not a byte more, once features are announced. |
| GetPropRoomDay.AcceptedIffFive | src/processor/get_prop_room_day.rs:113-179 | The five fields spelled out: ids 1 to 5, two texts of type 0x01, one byte of type 0x02, two words of type 0x03. |
| GetPropRoomDay.AnswerShowsFields | src/processor/get_prop_room_day.rs:181-208 | A client that looks values up by name finds the id, the date or "invalid-date", the availability, the price and the names for the mask, each from its own field. |
| GetPropRoomDay.OtherAnswers | src/processor/get_prop_room_day.rs:84-110 | No head or no features announced give the fixed error, another status is handed on with its head. |
| GetPropRoomDay.ResultReadsBackIffPlain | src/processor/get_prop_room_day.rs:188-208 | A JSON reader recovers the object exactly if neither id, date nor a name shown needs escaping. |
| Tlv.WalkIffEncoded | src/processor/get_segments.rs:83-136 | A walk over a field area reports fields exactly if the area encodes them, followed by at most 6 bytes. |
| Tlv.ReadFieldsIffEncoded | src/processor/search_prop.rs:194-228 | Reading n fields reports them and stops at an offset exactly if their encoding ends there. |
| Json.ReadsBackIffPlain | src/processor/search_avail.rs:196-364 | Printed JSON reads back (sections 4 to 7 of RFC 8259) exactly if no string in it needs escaping. |
| Json.DecimalSpelled | src/processor/search_avail.rs:318-330 | Numbers are written in decimal, highest digit first. |
| Json.ObjectSpelled | src/processor/search_avail.rs:196-364 | The punctuation of objects. |
| Json.ArraySpelled | src/processor/search_avail.rs:196-364 | The punctuation of texts and arrays. |
| Json.WriteStrings | src/processor/prop_room_date_list.rs:156-167 | The rendering loop appends the printed array elements. |

## Left out

- The HTTP server, routing, CORS, configuration, logging, metrics and process start-up: no protocol in them.
- Sockets, name lookup and connect: an environment that delivers chunks, end of file or failure, takes some number of
  bytes, and lets a connect succeed or fail.
- Time: store times and cleanup thresholds are integers, the current year is a parameter from 0 to 9992, sleeps and
  intervals are any moment at which a step may be taken.
- That a wait ends: nothing in the code guarantees it. `Progress` shows that answers and sends stay possible.
- `execute` as one method: it gives up control at every await, so its code is the labels Begin, Choose, TakeId, Store,
  Send and Return of the transition system. A cancelled call is one that takes no more steps.
- The capacity of the send queue: a full queue only delays the Send step, which may be taken at any later time anyway.
- `Connection::close` and `DemuxMap::cleanup` have no caller in the repository; the Close and Cleanup labels may occur
  at any time.
- Frames above 4 GiB and router segments above 255 bytes at the byte level: the byte-level theorems require requests
  that fit, the frame lemmas say what happens otherwise.
- Extraction and range checks of JSON request bodies: queries start typed. Latitude and longitude are opaque 8-byte
  strings.
- Error mapping for statuses other than SUCCESS: such a response is handed on with its parsed head.
- The processors with fixed layouts (SETPROP, DEL*, PROPEXIST, PROPROOMEXIST, PROPROOMLIST, SETROOMAVL, INCROOMAVL,
  DECROOMAVL): they repeat the request format and would add only easy members.
- UTF-8: `from_utf8` and `from_utf8_lossy` are parameters; bytes copied into JSON become the characters with their
  codes, so texts beyond ASCII are compared byte by byte.
- chrono, uuid, itoa and the standard sort: a Gregorian validity predicate, hyphenated lower-case hexadecimal, decimal
  digits, and the unique sorted permutation.
- Overflow checks of debug builds: counters wrap as in release builds.
- The JSON reader accepts what the decoders can print (no escapes, white space, signs, fractions or exponents).
- The write-once cell that holds the announced features: they are a parameter, absent before the announcement.
- EndToEnd.UpdateIsAnswered: ends with the bytes the call returns; the decoder of plain status answers, which turns
  them into an HTTP response, is not part of this model.
- PropertyId.BytesToPropertyId: compared with the streaming writer only for ASCII short forms, because the two treat
  other bytes differently.
