# The PTP stack of the camera app, verified

The app talks PTP (ISO 15740, Picture Transfer Protocol) to a camera over USB. This project models the protocol
core under `entry/src/main/cpp` in Dafny and proves what it promises:

- **the reassembly engine** (`ptp_engine.cpp`): `PTPEngine` turns arbitrary USB reads into one data payload and one
  response per command;
- **the container transport** (`usb.c`): sending and receiving loops, the one-slot buffer for a surplus packet, the
  retry, the zero-length packet that ends a transfer;
- **transactions and caches** (`ptp.c`): the response loop with transaction IDs, the sorted object array with its
  binary searches, folder listing, objects loaded on demand, the time-limited property cache, the event queue;
- **the dataset codec** (`ptp_engine.cpp`, and the second encoder and transcoder in `ptp_client.cpp`).

`dafny verify dfyconfig.toml` checks the whole project.

## How the model is built

Every method of the original that changes state is a method of a class with the original's fields (`PTPEngine`,
`PTPParams`, `MemHandler`, `PTPObjects`, `PTPProps`, `PTPEvents`, `PTPSession`, `Reader`) or a method with the original's loop.
Each is proved equal to a function on values, and the theorems are lemmas about those functions, over every input,
every way the port splits its reads, or every run. The one C structure `PTPParams` appears as several classes, by
concern: connection (`Transport`), objects (`ObjectStore`), properties (`PropCache`), events (`EventQueue`); `Session`
joins the last three where events invalidate caches.

Assumptions and conventions:

- Bytes and words are integers with their range (`byte`, `u16`, `u32`); 32-bit wrap-around is written as `% TWO_32`
  where it can happen; shifts and masks are quotients and remainders (`Utf8.BitGroups` justifies the bit groups).
- The port is a finite script of reads (bytes, possibly none, or an error; a user's cancellation after it) and of writes
  (accepted, short, refused). A read that brings more than was asked for leaves the rest for the next read; an
  exhausted script times out. All theorems hold for every script.
- `translate_gp_result_to_ptp` and the answer to a cancel request are not part of this model; they are parameters in
  `UsbPort.Config`. Where OK must mean success the theorems ask that a read that brings nothing is not translated to OK
  (`Config.Strict`); `UsbReceiveProofs.TrustworthyIffStrict` proves that this is exactly what is needed.
- What the device answers to the requests behind listing, wanting and property queries is a parameter of the
  operation (`DeviceReply.Reply`, `ObjectCache.Replies`, `FolderListing.ListReplies`), and so is the clock.
- Object flags are a set; `qsort` is a sort by handle, whose result on distinct handles is unique
  (`FolderListing.SortedIsUnique`); `bsearch` is the textbook binary search.
- A data container that claims less than its header makes the first copy in `usb.c` wrap to almost 2^64 bytes; the
  model takes that allocation to fail, with PTP_ERROR_IO. The original's loop in `readU16Array` can leave its buffer when the
  count wraps; the model returns `None` there, and `Dataset.ArrayStaysInside` says exactly when.

## Where the code does not do the natural thing

Each of these is proved for all inputs, with its exact condition:

- A response merged behind data that fits into the first read is dropped by the engine, and kept otherwise
  (`EngineRuns.MergedResponse`, `Refinement.MergedResponseRefines`).
- The engine delivers a payload if and only if its first non-empty read holds the whole header and data is expected
  (`EngineRuns.ChunkingIndependence`).
- The engine takes length 0xffffffff literally, `usb.c` reads until a short packet (`EngineRuns.UnknownLengthIsTakenLiterally`,
  `UsbReceiveProofs.UntilShortPacket`).
- `parseU32Array` returns the count as an element (`Dataset.CountIsAnElement`).
- The three transcoding loops agree exactly on texts with nothing but nulls behind the first null (`Utf8.LoopsAgree`), and their
  output is UTF-8 exactly without surrogates (`Utf8.OutputIsUtf8`).
- The check for the zero-length packet is right for all sizes exactly when maxpacketsize divides 1024
  (`UsbSend.ZeroLengthPacketExactly`). Bytes that a short write does not take are skipped, which goes unnoticed exactly
  when the source holds more than is to go (`UsbSend.SkipsNothingExactly`); the handler of `ptp_transaction` never does.
- Of reads that bring nothing the transport gets over one failure with an empty read on each side, in front of a packet
  only (`UsbReceive.ToleratesExactly`).
- A left-over response is passed over by its ID only if its code is OK, the one asked for or "response expected"; any
  other ends the call (`Transaction.StaleGoesOnExactly`).
- What stands behind a late container in its own packet is lost (`UsbReceiveProofs.LateContainerDrained`), although
  behind the expected container it is buffered.
- A failed listing leaves the folder marked as listed exactly when its info was fine (`Relisting.FailureSticksExactly`);
  a folder becomes its own parent exactly when the device names it (`Relisting.OwnParentExactly`); a listing of the root takes
  exactly the objects it names out of their folders (`Placement.RootListingTakesExactly`); a property list that overrides
  moves a child exactly when it names another parent last (`Relisting.ChildStaysExactly`).
- A property that was set is still answered from the cache if and only if the clock has not reached `cachetime`
  (`PropCache.InvalidationNeedsClock`); a description fetched for an expired entry does not serve the next query
  (`PropCache.FetchServesNextExactly`).

## Model

| member | source | states |
|---|---|---|
| Engine.PTPEngine.InitSendReq | entry/src/main/cpp/ptp_engine.cpp:18-31 | a command of this code and ID whose length field counts only the parameters in use, while all five words stand behind the header |
| Engine.PTPEngine.PadParams | entry/src/main/cpp/ptp_engine.cpp:41-46 | the first five parameters, zeros for the missing ones, and how many are in use |
| Engine.PTPEngine.Request | entry/src/main/cpp/ptp_engine.cpp:40-53 | cut to its length field the request is the command container of the first five parameters |
| Engine.PTPEngine.BuildCommand | entry/src/main/cpp/ptp_engine.cpp:33-54 | the bytes are the command container with the current ID and the first five parameters; the ID advances modulo 2^32; unfinished data and a pending response are dropped |
| Engine.PTPEngine.BuildOpenSession | entry/src/main/cpp/ptp_engine.cpp:57-71 | OpenSession goes out with ID 0 and the numbering starts over |
| Engine.PTPEngine.ProcessIncoming | entry/src/main/cpp/ptp_engine.cpp:139-234 | new state and result are those of `Step`; the engine stays valid: a data phase is active exactly while bytes are missing and never together with a pending response |
| Engine.WordsPrefix | entry/src/main/cpp/ptp_engine.cpp:47-53 | cutting the request to its length drops exactly the unused parameters |
| Container.HeaderLayout | entry/src/main/cpp/ptp_engine.cpp:18-31 | the header byte by byte: little-endian length, type, code and ID at 0, 4, 6 and 8 |
| EngineRuns.ChunkingIndependence | entry/src/main/cpp/ptp_engine.cpp:139-234 | a data container, with payload or without, cut into reads in any way, empty ones included, is delivered as exactly its payload by the last call, with action 0 before, if and only if the first non-empty read holds the header and data is expected |
| EngineRuns.MergedResponse | entry/src/main/cpp/ptp_engine.cpp:159-227 | with bytes behind the payload in the completing read the payload is still exact, and a response there becomes pending if and only if the payload did not fit into the first non-empty read |
| EngineRuns.DataPhaseCompletes | entry/src/main/cpp/ptp_engine.cpp:159-184 | from inside a data phase, any cut of the remaining bytes completes the payload, and the tail of the last read decides about a pending response |
| EngineRuns.DroppedStart | entry/src/main/cpp/ptp_engine.cpp:186-233 | a first read too short for the header, or without expectData, is dropped and the payload is never delivered |
| EngineRuns.ResponseReported | entry/src/main/cpp/ptp_engine.cpp:116-136 | an idle engine reports a response with its code, 0xFFFF if its length is not that of the read, and remembers it |
| EngineRuns.EmptyPayload | entry/src/main/cpp/ptp_engine.cpp:205-214 | a container that claims no payload hands over empty data at once |
| EngineRuns.PassedOverExactly | entry/src/main/cpp/ptp_engine.cpp:186-233 | an idle engine passes over exactly the reads too short for a header and those that are neither a response nor expected data |
| EngineRuns.DataIsPaidFor | entry/src/main/cpp/ptp_engine.cpp:159-227 | whatever is fed, data handed over is at least a header shorter than the bytes it came from |
| EngineRuns.NothingBeforeTheEnd | entry/src/main/cpp/ptp_engine.cpp:159-188 | while bytes are missing every call asks for more |
| EngineRuns.UnknownLengthIsTakenLiterally | entry/src/main/cpp/ptp_engine.cpp:205-227 | after a header with length 0xffffffff nothing is handed over before that many bytes came, short packets or not |
| EngineRuns.PendingDeliveredOnce | entry/src/main/cpp/ptp_engine.cpp:150-157 | a pending response is delivered exactly once, by the next non-empty read, and the engine is idle again |
| EngineRuns.RunInvariant | entry/src/main/cpp/ptp_engine.cpp:33-38 | after every history of commands and reads the engine is valid and has accumulated a suffix of what was fed since the latest command |
| EngineRuns.CommandResets | entry/src/main/cpp/ptp_engine.cpp:33-71 | a command leaves the engine idle whatever went before; only OpenSession changes the session |
| EngineRuns.DataIsolation | entry/src/main/cpp/ptp_engine.cpp:139-234 | after every history, data handed over is a slice of the bytes fed since the latest command, and a pending response never outlives a command or coexists with a data phase |
| EngineRuns.TransactionNumbering | entry/src/main/cpp/ptp_engine.cpp:48-71 | after OpenSession the k-th later command carries ID k modulo 2^32, whatever is read in between |
| Client.BuildCommand | entry/src/main/cpp/ptp_client.cpp:7-24 | the buffer filled word by word is the command container with the first five parameters |
| Client.ParseResponse | entry/src/main/cpp/ptp_client.cpp:55-75 | the loop yields code, ID and at most five parameter words, zero for missing ones and for a container without a header |
| Client.ParseRecovers | entry/src/main/cpp/ptp_client.cpp:55-75 | parsing an encoded command gives back its code, ID and first five parameters |
| Client.NoHeader | entry/src/main/cpp/ptp_client.cpp:55-75 | a container without a header reads as all zeros |
| Client.ExtraIgnored | entry/src/main/cpp/ptp_client.cpp:55-75 | bytes behind the fifth parameter, or too few for another, are ignored |
| Client.EncodingIsInjective | entry/src/main/cpp/ptp_client.cpp:7-24 | equal command bytes mean equal code, ID and first five parameters |
| Client.EncodersAgree | entry/src/main/cpp/ptp_client.cpp:7-24 | engine and client put the same bytes on the wire |
| Utf8.BitGroups | entry/src/main/cpp/ptp_engine.cpp:274-282 | on 16-bit words the shifts, masks and ors are the quotients, remainders and sums of the model |
| Utf8.AppendUnit | entry/src/main/cpp/ptp_engine.cpp:274-282 | the one, two or three bytes appended for a unit |
| Utf8.ParseUCS2String | entry/src/main/cpp/ptp_engine.cpp:412-429 | the text up to the first null unit, transcoded |
| Utf8.ReadUcs2String | entry/src/main/cpp/ptp_client.cpp:79-101 | the client's loop computes the same function of the bytes |
| Utf8.ReadPtpString | entry/src/main/cpp/ptp_engine.cpp:263-286 | as many units as are counted and present, nulls skipped, and the offset behind them, never past the end |
| Utf8.OutputIsUtf8 | entry/src/main/cpp/ptp_engine.cpp:263-286 | the output is well-formed UTF-8 (RFC 3629 section 4) if and only if no unit is a surrogate, and then decodes back to the units |
| Utf8.LoopsAgree | entry/src/main/cpp/ptp_engine.cpp:412-429 | skipping nulls and stopping at the first null agree if and only if nothing but nulls follows the first null |
| Utf8.StringRoundTrip | entry/src/main/cpp/ptp_engine.cpp:263-286 | a counted string is read back from its wire form wherever it stands, and the offset moves behind it |
| Utf8.StringLayout | entry/src/main/cpp/ptp_engine.cpp:263-286 | the wire form of a string byte by byte (MTP 1.0 section 3.2.3) |
| Utf8.CutString | entry/src/main/cpp/ptp_engine.cpp:263-286 | a string cut short reads as far as its whole units go |
| Utf8.ReadersAgree | entry/src/main/cpp/ptp_client.cpp:79-101 | on the same text without nulls all three readers produce the same UTF-8 |
| Dataset.ReadU16Array | entry/src/main/cpp/ptp_engine.cpp:307-320 | the counted array, or the empty one when the wrapped check fails, or no result when the loop leaves the buffer |
| Dataset.ArrayStaysInside | entry/src/main/cpp/ptp_engine.cpp:307-320 | an array read leaves the buffer if and only if its count is 2^31 or more and twice the count, wrapped, still fits |
| Dataset.ArrayExactly | entry/src/main/cpp/ptp_engine.cpp:307-320 | with a count below 2^31 all elements are read if they are there and none otherwise; without room for the count nothing is |
| Dataset.NumberWithoutRoom | entry/src/main/cpp/ptp_engine.cpp:322-400 | a number without room reads as zero and takes nothing |
| Dataset.ArrayLayout | entry/src/main/cpp/ptp_engine.cpp:307-320 | the wire form of an array byte by byte (MTP 1.0 section 3.2.2) |
| Dataset.Parse | entry/src/main/cpp/ptp_engine.cpp:307-400 | on arbitrary bytes a list of fields is read with an offset that never passes the length |
| Dataset.ReadBack | entry/src/main/cpp/ptp_engine.cpp:263-320 | every field is read back from its wire form at any offset |
| Dataset.RoundTrip | entry/src/main/cpp/ptp_engine.cpp:322-400 | parsing the encoding of any list of fields yields the fields and consumes the whole encoding |
| Dataset.CutDataset | entry/src/main/cpp/ptp_engine.cpp:322-400 | a dataset cut short behind any field: those before are read back, those behind read as zero or empty |
| Dataset.TraceParses | entry/src/main/cpp/ptp_engine.cpp:322-400 | fields read one after the other by a shared offset are exactly what `Parse` reads |
| Dataset.ParseDeviceInfo | entry/src/main/cpp/ptp_engine.cpp:322-361 | the fields of the result are those `Parse` reads in the order of DeviceInfo (MTP 1.0 section 5.1.1), five arrays and five strings among them |
| Dataset.ParseObjectInfo | entry/src/main/cpp/ptp_engine.cpp:363-400 | the same for ObjectInfo (MTP 1.0 section 5.3.1) without Keywords; it never leaves the buffer |
| Dataset.DeviceInfoReadsBack | entry/src/main/cpp/ptp_engine.cpp:322-361 | on the encoding of any DeviceInfo, whatever follows it, every named field has the value at its place in the standard's order |
| Dataset.ObjectInfoReadsBack | entry/src/main/cpp/ptp_engine.cpp:363-400 | the same for ObjectInfo up to Keywords |
| Dataset.ParseU32Array | entry/src/main/cpp/ptp_engine.cpp:402-410 | all whole words of the buffer, in order |
| Dataset.CountIsAnElement | entry/src/main/cpp/ptp_engine.cpp:402-410 | on the wire form of a counted array the result is the count followed by the elements |
| UsbPort.ReadPortConserves | entry/src/main/cpp/usb.c:207-213 | a read takes its bytes from the front of the stream and loses none |
| UsbReceive.SlotFirst | entry/src/main/cpp/usb.c:201-206 | a buffered packet comes back byte for byte before the port is touched |
| UsbReceive.GetPacketConserves | entry/src/main/cpp/usb.c:197-237 | a packet is the front of what is incoming, 1 to 1024 bytes; a failed attempt, retry included, loses nothing |
| UsbReceive.ToleratesExactly | entry/src/main/cpp/usb.c:207-237 | of reads that bring nothing getpacket gets over one failed read and one empty read before and after it, and then returns the packet as if they had not been there; with any others in front it gives up |
| UsbReceive.ChunksArePackets | entry/src/main/cpp/usb.c:412-420 | what every read asks for: 512 bytes when the length is unknown; else all that fits a packet, at most 512 KiB, and otherwise whole packets so that less than one is left |
| UsbReceive.WholePacketsModulo | entry/src/main/cpp/usb.c:419-420 | all but the last short packet is the size less its remainder by maxpacketsize |
| UsbReceive.RespVerdict | entry/src/main/cpp/usb.c:476-497 | OK only for a whole response container whose code is the expected one or OK |
| UsbReceive.ResponseRead | entry/src/main/cpp/usb.c:466-518 | an accepted response is handed over with its code, all its parameters, the session, and its ID (or the expected one when headers are broken) |
| UsbReceive.OtherwiseRefused | entry/src/main/cpp/usb.c:466-500 | no packet, or no whole container, is an I/O error; another kind asks for another round; another code is that code |
| UsbReceiveProofs.RestConserves | entry/src/main/cpp/usb.c:409-452 | the read loop hands over exactly the bytes it takes, in order, never more than announced, and OK means all of them |
| UsbReceiveProofs.OkMeansWholePayload | entry/src/main/cpp/usb.c:241-464 | OK only with the payload of the data container sent, byte for byte, or with nothing and the response buffered whole |
| UsbReceiveProofs.TrustworthyIffStrict | entry/src/main/cpp/usb.c:421-432 | that holds on every line and for every command if and only if a read that brings nothing is never translated to OK |
| UsbReceiveProofs.SlotConserved | entry/src/main/cpp/usb.c:197-362 | in every run of getdata and getresp the buffered packets are taken up exactly once, unchanged and in order, and never exceed 1024 bytes |
| UsbReceiveProofs.RestCompletes | entry/src/main/cpp/usb.c:409-452 | without faults the loop takes exactly the rest of the container and leaves the response, merged into the last read or not, as a packet of its own |
| UsbReceiveProofs.RestCompletesTo | entry/src/main/cpp/usb.c:409-452 | reads that bring exactly what is missing complete the payload and leave whatever follows them |
| UsbReceiveProofs.RestRetriesOnce | entry/src/main/cpp/usb.c:421-432 | one failed read in front of the rest does no harm; once bytes came a failed read is final |
| UsbReceiveProofs.EarlyCancelIgnored | entry/src/main/cpp/usb.c:440-451 | below 1 MiB the wish to cancel changes nothing |
| UsbReceiveProofs.LateCancelStops | entry/src/main/cpp/usb.c:440-451 | from 1 MiB on it ends the loop at once as cancelled, with all bytes that came |
| UsbReceiveProofs.RefusedPacket | entry/src/main/cpp/usb.c:255-289 | a first packet that is no data or whole response fails the data phase and hands over nothing |
| UsbReceiveProofs.DataPhaseCodes | entry/src/main/cpp/usb.c:241-464 | a data phase ends as OK, cancelled or I/O error, and without a first packet never as OK |
| UsbReceiveProofs.SplitLearnt | entry/src/main/cpp/usb.c:337-362 | the connection notes split headers after exactly those data phases that began with a bare header |
| UsbReceiveProofs.UntilShortPacket | entry/src/main/cpp/usb.c:412-440 | with an unknown length the loop ends with the first packet shorter than 512 bytes and leaves what follows alone |
| UsbReceiveProofs.UnknownLengthArrives | entry/src/main/cpp/usb.c:241-464 | a data phase of unknown length, first packet included, delivers everything up to and with the first short packet behind it |
| UsbReceiveProofs.DrainConsumes | entry/src/main/cpp/usb.c:312-331 | on a port without faults draining takes exactly the bytes it was asked to take |
| UsbReceiveProofs.DrainTakesFront | entry/src/main/cpp/usb.c:312-331 | on every port draining takes bytes from the front only, never more than asked for |
| UsbReceiveProofs.DrainStops | entry/src/main/cpp/usb.c:325-328 | it stops at the first read that brings nothing |
| UsbReceiveProofs.LateContainerDrained | entry/src/main/cpp/usb.c:290-335 | a late container fails the call and is drained; the stream goes on exactly behind it if and only if its first packet held nothing else, what stood behind it in that packet being lost |
| UsbSend.RequestSentOnceExactly | entry/src/main/cpp/usb.c:52-100 | OK from a request means that it went out whole and once, on every port, if and only if neither an error nor a shorter count is translated to OK |
| UsbSend.RequestRetriesExactly | entry/src/main/cpp/usb.c:52-100 | OK exactly when the first write is taken whole or fails as a write error and the second is taken whole; any other failure is returned at once |
| UsbSend.OverrunFails | entry/src/main/cpp/usb.c:157-185 | with more to go than the source has, the block loop never returns OK |
| UsbSend.BlocksCarry | entry/src/main/cpp/usb.c:156-185 | OK from the block loop means the rest of the data went out whole, was counted, and the source moved by exactly that much: on every port when the source holds nothing but the data, with a longer source on ports that take writes whole or refuse them |
| UsbSend.SkipsNothingExactly | entry/src/main/cpp/usb.c:163-175 | no port makes the block loop skip bytes and still return OK if and only if nothing is to go or the source holds no more than is to go |
| UsbSend.BlocksSucceed | entry/src/main/cpp/usb.c:156-185 | when enough writes are accepted the block loop succeeds |
| UsbSend.SendDataCarries | entry/src/main/cpp/usb.c:102-195 | OK means the writes carry the header with length 12 + size and exactly the data: the header with up to 1012 bytes (alone when headers are split), then blocks of 4096, none of them empty, and only then at most one empty write; on every port when the source holds nothing but the data |
| UsbSend.SendDataSucceeds | entry/src/main/cpp/usb.c:102-195 | when every write is accepted the data phase succeeds, with an empty write exactly when maxpacketsize divides what was counted |
| UsbSend.SourceTooShort | entry/src/main/cpp/usb.c:125-135 | a source too short for the first packet fails before anything is written |
| UsbSend.FirstPacketFails | entry/src/main/cpp/usb.c:140-153 | a first packet not taken whole ends the data phase with the code of that write |
| UsbSend.BlockFails | entry/src/main/cpp/usb.c:163-195 | a block that cannot be written ends it with an I/O error, or as cancelled, without a terminating packet |
| UsbSend.HeaderOfContainer | entry/src/main/cpp/usb.c:112-124 | header and data are together the data container |
| UsbSend.TakeExactly | entry/src/main/cpp/ptp.c:310-324 | the handler gives what it has, at most what is wanted, from where it stands |
| UsbSend.ZeroLengthPacketRule | entry/src/main/cpp/usb.c:189-191 | when maxpacketsize divides 1024 the empty write is sent exactly when the last transfer ends on a full packet, split header or not |
| UsbSend.ZeroLengthPacketExactly | entry/src/main/cpp/usb.c:189-191 | for all sizes that is so if and only if maxpacketsize divides 1024 |
| Transport.MemHandler.Get | entry/src/main/cpp/ptp.c:310-324 | at most the wanted bytes from the current offset, fewer at the end |
| Transport.MemHandler.Put | entry/src/main/cpp/ptp.c:326-341 | the bytes stand at the old offset, everything before and behind them is kept, the buffer grows as needed |
| Transport.PTPParams.GetPacket | entry/src/main/cpp/usb.c:197-237 | the loop with its retry is `UsbReceive.GetPacket` |
| Transport.PTPParams.SendReq | entry/src/main/cpp/usb.c:52-100 | OK means that the command container went out whole and once; a second attempt is made only after a write error |
| Transport.PTPParams.SendData | entry/src/main/cpp/usb.c:102-195 | writes, handler and result are those of `UsbSend.SendData` |
| Transport.PTPParams.SendRest | entry/src/main/cpp/usb.c:156-185 | the block loop is `SendBlocks`, its count included |
| Transport.PTPParams.GetResp | entry/src/main/cpp/usb.c:466-518 | result, response and line are those of `ReceiveResp` |
| Transport.PTPParams.ReadPayload | entry/src/main/cpp/usb.c:409-452 | the read loop is `ReadRest`; with a known length it ends by (bytes to read, retry left) alone |
| Transport.PTPParams.ReadTurn | entry/src/main/cpp/usb.c:411-451 | one turn stops or shrinks the bytes to read or uses up the retry |
| Transport.PTPParams.DrainPacket | entry/src/main/cpp/usb.c:312-331 | on a port without faults exactly the missing bytes of the late container are taken; in general the loop is `Drain` |
| Transport.PTPParams.GetData | entry/src/main/cpp/usb.c:241-464 | result, data and line are those of `ReceiveData` |
| Transport.PTPParams.GetDataPhase | entry/src/main/cpp/usb.c:337-464 | the part behind the header checks is `DataPhase`: surplus buffered, split header noted, rest read |
| Transport.PTPParams.AwaitOwnResponse | entry/src/main/cpp/ptp.c:264-301 | the response loop is `Respond`; at its head there is always a try left, and it ends on every finite packet stream |
| Transport.PTPParams.NextReply | entry/src/main/cpp/ptp.c:265-299 | one round decides or goes on with a packet less and a try left |
| Transport.PTPParams.TransactionNew | entry/src/main/cpp/ptp.c:225-302 | result, response, data and connection are those of `Transaction.TransactionNew` |
| Transport.PTPParams.GetTransaction | entry/src/main/cpp/ptp.c:467-511 | OK only with the payload of the data container sent and its length; with any other result no data and length 0 |
| Transport.PTPParams.OpenSession | entry/src/main/cpp/ptp.c:1922-1947 | a buffered packet is dropped, numbering restarts at 0, and the session is set whatever the result |
| Transaction.Judge | entry/src/main/cpp/ptp.c:266-299 | a round goes on only with a try left and never after an I/O error |
| Transaction.OkIsOwnReply | entry/src/main/cpp/ptp.c:264-301 | without the broken-header flag OK comes only from a response with this call's ID (or a smaller one for CloseSession); before it only non-responses, smaller IDs and, for OpenSession alone, fewer than three larger ones were skipped |
| Transaction.OwnReplyIsFound | entry/src/main/cpp/ptp.c:264-301 | conversely such packets never hide the reply behind them |
| Transaction.StaleGoesOnExactly | entry/src/main/cpp/usb.c:491-497 | a response with a smaller ID lets the loop go on if and only if its code is OK, the one asked for, or reads as "response expected"; with any other code the call ends with that code |
| Transaction.StaleBeforeReply | entry/src/main/cpp/ptp.c:264-301 | with a left-over response in front of its own reply a call succeeds if and only if the left-over one has such a code |
| Transaction.LargerIdExactly | entry/src/main/cpp/ptp.c:280-296 | a response with a larger ID is a bad parameter, except that OpenSession passes over it while it has another try |
| Transaction.ResponseEndsCall | entry/src/main/cpp/ptp.c:264-301 | a response with the call's ID ends it with its own code, an accepted one with its parameters |
| Transaction.CallOkIsOwnReply | entry/src/main/cpp/ptp.c:225-302 | a whole call, with or without data, returns OK only for a response with the ID it took; before it only packets that may be skipped, fewer than three with a larger ID |
| Transaction.SendEndToEnd | entry/src/main/cpp/ptp.c:467-511 | on every port SENDDATA returns OK only after the request went out once, then the header and exactly the data, then at most one empty packet, and for a reply with this call's ID |
| Transaction.AnsweredWithoutData | entry/src/main/cpp/ptp.c:225-302 | a call without data returns the code of the response with its ID, and its parameters |
| Transaction.RequestFails | entry/src/main/cpp/ptp.c:240-245 | a request that cannot be sent ends the call with its code; nothing is received |
| Transaction.FailedDataEndsCall | entry/src/main/cpp/ptp.c:246-262 | a failed receiving phase ends the call without waiting for a response; after a cancellation the answer to the cancel request counts if it is an error |
| Transaction.FailedSendEndsCall | entry/src/main/cpp/ptp.c:246-262 | the same for sending |
| Transaction.UnknownPhaseFails | entry/src/main/cpp/ptp.c:246-262 | any other phase is a bad parameter, noticed after the request went out |
| Transaction.OpenSessionForgets | entry/src/main/cpp/ptp.c:1922-1947 | opening a session depends on the port alone: nothing buffered or known of an earlier session matters; the next ID is 1 |
| Transaction.OpenSessionOk | entry/src/main/cpp/ptp.c:1922-1947 | OK only after its request with ID 0 went out once, for a response with ID 0, at most two responses of an earlier session being skipped |
| Transaction.OneIdPerCall | entry/src/main/cpp/ptp.c:237 | every call uses up one ID, whatever becomes of it, and leaves the session |
| Transaction.ReceiveEndToEnd | entry/src/main/cpp/ptp.c:467-511 | for every way the port splits reads, GETDATA returns OK only with the payload sent and its length (with an unknown length: with bytes of the stream behind the header, from the first on), and hands over nothing otherwise |
| Transaction.OkDataPhase | entry/src/main/cpp/usb.c:241-464 | what a successful data phase hands over is the payload sent, or for an unknown length the stream behind the header as far as it was read |
| Transaction.ErrorInsteadOfData | entry/src/main/cpp/ptp.c:467-511 | an error response instead of data yields its code, no data and length 0 |
| Refinement.OriginalArrives | entry/src/main/cpp/usb.c:241-464 | the original delivers the payload, empty or not, and then the response, merged or not, whatever the read boundaries and whatever tolerated reads that bring nothing stand in front of either |
| Refinement.PortRefinesOriginal | entry/src/main/cpp/ptp_engine.cpp:116-234 | for the same data container and a response in its own packet, engine and original deliver the same payload and response code, whatever each one's read boundaries |
| Refinement.MergedResponseRefines | entry/src/main/cpp/ptp_engine.cpp:159-227 | with the response merged into the last read the original still delivers it, and the engine reports the same code if and only if the payload did not fit into its first read |
| Refinement.GoodExchangeSucceeds | entry/src/main/cpp/ptp.c:467-511 | a well-formed exchange, merged or not, makes ptp_transaction return OK with the payload and its length |
| Refinement.UnknownLengthSucceeds | entry/src/main/cpp/ptp.c:467-511 | so does one whose data container has an unknown length, with everything up to and with the first short packet |
| Refinement.GoodSendSucceeds | entry/src/main/cpp/ptp.c:467-511 | SENDDATA returns OK when every write is accepted and its own reply comes next |
| ObjectCache.FoundIsHas | entry/src/main/cpp/ptp.c:9499-9510 | on a sorted array binary search agrees with plain membership |
| ObjectCache.InsertRefinesSet | entry/src/main/cpp/ptp.c:9512-9570 | insertion adds the handle to the set of handles, keeps strict order and every other object, and a new slot is all zero but for its handle |
| ObjectCache.InsertThenRemove | entry/src/main/cpp/ptp.c:9468-9478 | removing what an insertion added gives back the other objects exactly |
| ObjectCache.WithoutSorted | entry/src/main/cpp/ptp.c:9468-9478 | removal takes exactly one handle out and keeps the order |
| ObjectCache.WantContract | entry/src/main/cpp/ptp.c:9572-9742 | on OK every requested flag is set (the property list when supported); flags only grow, no other object changes; a failed GetObjectInfo leaves exactly the others; the array stays sorted |
| Wanting.WantAnswers | entry/src/main/cpp/ptp.c:9572-9742 | the result in every case: refused for handle 0, the device's code when GetObjectInfo was needed and failed, otherwise OK exactly when every wanted flag that the device can load is set |
| Wanting.WantLeaves | entry/src/main/cpp/ptp.c:9572-9742 | the object afterwards, field by field: the old info or the device's with the stated corrections, then overridden by the property list if one came and overrides; flags grow by exactly what was fetched |
| ObjectStore.PTPObjects.Find | entry/src/main/cpp/ptp.c:9499-9510 | the search finds the handle if and only if some object has it, at its rank |
| ObjectStore.PTPObjects.RemoveFromCache | entry/src/main/cpp/ptp.c:9468-9478 | the object is taken out if present, otherwise a general error |
| CacheRuns.RemoveExactly | entry/src/main/cpp/ptp.c:9468-9478 | the handle is gone, every other object is kept as it was, and the array stays sorted |
| ObjectStore.PTPObjects.DeleteOrMove | entry/src/main/cpp/ptp.c:2555-2590 | the object is forgotten exactly when the device accepts |
| ObjectStore.PTPObjects.SearchRange | entry/src/main/cpp/ptp.c:9527-9543 | the loop ends on the handle or between the two neighbours of its place |
| ObjectStore.PTPObjects.FindOrInsert | entry/src/main/cpp/ptp.c:9512-9570 | handle 0 is refused; otherwise the array becomes the one with the handle inserted and the index is its rank |
| ObjectStore.PTPObjects.Override | entry/src/main/cpp/ptp.c:9682-9732 | the properties of the object override its info in their order, those of other objects do not |
| ObjectStore.PTPObjects.TakeInfo | entry/src/main/cpp/ptp.c:9594-9663 | a fetched info replaces the object's, with the corrections for name, kept parent, own parent, size and storage as parent |
| ObjectStore.PTPObjects.TakeProps | entry/src/main/cpp/ptp.c:9666-9741 | the property list is fetched when wanted and missing, applied when it overrides, and decides the result |
| ObjectStore.PTPObjects.ObjectWant | entry/src/main/cpp/ptp.c:9572-9742 | result, cache and index are those of `Want`; the array stays sorted |
| ObjectStore.PTPObjects.SearchFrom | entry/src/main/cpp/ptp.c:3433-3438 | the circular search from the last hit finds the handle wherever it stands |
| ObjectStore.PTPObjects.AppendOne | entry/src/main/cpp/ptp.c:3432-3475 | a handle not seen before goes behind all others, a known object is tagged where it stands and the order kept |
| ObjectStore.PTPObjects.AppendListed | entry/src/main/cpp/ptp.c:3426-3476 | the loop tags known objects and appends new ones in order; without new ones the array is still sorted |
| ObjectStore.PTPObjects.AddListed | entry/src/main/cpp/ptp.c:3426-3478 | afterwards the array is sorted again, with exactly the tagged and new objects |
| ObjectStore.PTPObjects.CachedChildren | entry/src/main/cpp/ptp.c:3330-3336 | the handles of the cached objects whose parent is the folder, in order |
| ObjectStore.PTPObjects.List | entry/src/main/cpp/ptp.c:3306-3484 | result, cache and children are those of `ListFolder`; the array is sorted at every exit |
| ObjectStore.PTPObjects.ListFromDevice | entry/src/main/cpp/ptp.c:3411-3484 | the fallbacks without storage and without folder; errors leave the cache alone |
| ObjectStore.PTPObjects.StoresChange | entry/src/main/cpp/ptp.c:3499-3512 | all objects are forgotten and the new stores kept |
| FolderListing.SortSorts | entry/src/main/cpp/ptp.c:9480-9497 | on distinct handles sorting yields a strictly sorted array of the same objects |
| FolderListing.SortedIsUnique | entry/src/main/cpp/ptp.c:9480-9497 | there is only one such array, so any sorting gives it |
| FolderListing.SortKeepsSorted | entry/src/main/cpp/ptp.c:3477-3478 | sorting may be skipped when nothing new was appended |
| FolderListing.AddHandlesDistinct | entry/src/main/cpp/ptp.c:3427-3476 | a listing never adds a handle twice, even if the device names it twice |
| CacheRuns.RunsKeepSorted | entry/src/main/cpp/ptp.c:3306-3517 | every run of listings with every outcome, wants, removals and store events keeps the array strictly sorted and loaded info whole |
| CacheRuns.ApplyGood | entry/src/main/cpp/ptp.c:2555-2590 | every single operation on the cache keeps that invariant |
| CacheRuns.ListGood | entry/src/main/cpp/ptp.c:3306-3484 | a listing keeps it whatever the device answers |
| CacheRuns.WantGood | entry/src/main/cpp/ptp.c:9572-9742 | so does a want |
| Relisting.FirstListingSettles | entry/src/main/cpp/ptp.c:3411-3484 | after a listing by the device the folder is marked with its info loaded and every handle returned is a child with its parent fixed |
| Relisting.MergeKeepsChild | entry/src/main/cpp/ptp.c:9594-9663 | fetching the info of a child keeps its parent |
| Relisting.WantKeepsSettled | entry/src/main/cpp/ptp.c:9572-9742 | a want that neither removes the folder or a child nor lets a property list name another place keeps the folder settled |
| Relisting.ListKeepsSettled | entry/src/main/cpp/ptp.c:3306-3484 | so does a listing of another folder or of the root that tags no child of this one |
| Relisting.GentleRunsKeepSettled | entry/src/main/cpp/ptp.c:3306-3517 | and any run of such wants, listings and removals |
| Relisting.ReadyListsFromCache | entry/src/main/cpp/ptp.c:3323-3337 | a settled folder is listed from the cache: nothing is asked and nothing changes |
| Placement.ChildrenAre | entry/src/main/cpp/ptp.c:3331-3335 | the cached listing is exactly the objects whose parent is the folder |
| Placement.ChildrenIncrease | entry/src/main/cpp/ptp.c:3331-3335 | it names every child once, in the order of the handles |
| Relisting.ReadyWant | entry/src/main/cpp/ptp.c:3325-3327 | wanting a listed folder again fails exactly when an overriding property list is missing and cannot be had |
| Relisting.RelistingAgrees | entry/src/main/cpp/ptp.c:3306-3484 | listing the folder again after any such run returns every handle of the first listing and exactly the cached objects whose parent is the folder, each once and in the order of the handles, and says exactly when it fails |
| Relisting.FailureSticksExactly | entry/src/main/cpp/ptp.c:3323-3425 | a failed listing of a folder not marked before leaves it marked as listed if and only if its info could be had and says that it is a folder |
| Relisting.FailedListingSticks | entry/src/main/cpp/ptp.c:3338-3425 | then the next listing returns OK from the cache without asking again |
| Relisting.OwnParentExactly | entry/src/main/cpp/ptp.c:3450-3469 | after a listing by the device the folder is its own parent if and only if the device named it among its children or it was its own parent before |
| Placement.SortedListingHas | entry/src/main/cpp/ptp.c:3427-3478 | after a listing every object met before is found again, with the listed folder and storage if it was named and the listing tags them, and otherwise as it was |
| Placement.AddHandlesOids | entry/src/main/cpp/ptp.c:3427-3476 | the handles afterwards are the old ones and those named, and no others |
| Placement.NewlyListed | entry/src/main/cpp/ptp.c:3438-3463 | an object named for the first time has nothing loaded but its place |
| Placement.ListingAnswers | entry/src/main/cpp/ptp.c:3411-3484 | which of the three questions was answered decides the result, the children, and whether folder and storage are tagged; any other failure leaves the cache alone |
| Placement.RootListingTakesExactly | entry/src/main/cpp/ptp.c:3467-3469 | a listing of the root takes a child out of its folder if and only if the device names it and the listing did not fall back to one that tags nothing |
| Placement.PropsExactly | entry/src/main/cpp/ptp.c:9682-9732 | after an overriding property list every field has the value named last for the object, else the old one |
| Relisting.ChildStaysExactly | entry/src/main/cpp/ptp.c:9572-9742 | a child that is wanted stays in its folder unless a property list that overrides names another parent last |
| EventQueue.PTPEvents.Add | entry/src/main/cpp/ptp.c:3195-3200 | an event arrives at the back |
| EventQueue.PTPEvents.GetOneEvent | entry/src/main/cpp/ptp.c:3638-3645 | the oldest event is taken out |
| EventQueue.PTPEvents.GetOneEventByType | entry/src/main/cpp/ptp.c:3658-3669 | the oldest event of the type is taken out and handed over, none if there is none |
| EventQueue.TypesKeepOrder | entry/src/main/cpp/ptp.c:3638-3669 | under any interleaving the events of each type are delivered in the order of arrival, the rest is queued in that order |
| EventQueue.NothingLost | entry/src/main/cpp/ptp.c:3638-3669 | delivered and queued events are exactly those received |
| EventQueue.QueueKeepsArrivalOrder | entry/src/main/cpp/ptp.c:3638-3669 | the queue is the received events, in order, with some left out |
| EventQueue.PlainGetsAreFifo | entry/src/main/cpp/ptp.c:3638-3645 | with plain gets the queue is first in, first out |
| PropCache.PTPProps.Find | entry/src/main/cpp/ptp.c:3671-3678 | the first entry with the code |
| PropCache.PTPProps.GetDesc | entry/src/main/cpp/ptp.c:4621-4742 | result, description and cache are those of `Get`: a hit, a fetch into the entry at hand, or one behind all others |
| PropCache.PTPProps.Invalidate | entry/src/main/cpp/ptp.c:3492-3498 | the first entry of the property is refreshed on the next query, no other entry changes |
| PropCache.PTPProps.SetValue | entry/src/main/cpp/ptp.c:4758-4779 | the entry is invalidated whatever the device answers |
| PropCache.ViewUpdate | entry/src/main/cpp/ptp.c:4640 | emptying, refilling or invalidating the first entry of a property changes what is consulted for that property alone |
| PropCache.StepOwn | entry/src/main/cpp/ptp.c:4621-4779 | what each operation does to the entry consulted for its own property, duplicates or not |
| PropCache.StepOther | entry/src/main/cpp/ptp.c:4621-4779 | operations on other properties leave the entry consulted |
| PropCache.AlwaysTrusted | entry/src/main/cpp/ptp.c:4621-4779 | over every run the entry consulted is empty, invalidated, or the latest fetch with nothing since |
| PropCache.HitsAreFresh | entry/src/main/cpp/ptp.c:4621-4779 | over every run a value returned without a fetch is the most recent fetch, younger than cachetime, with no set or change event since, despite duplicates |
| PropCache.EveryAnswer | entry/src/main/cpp/ptp.c:4621-4742 | over every run, what every query answers: a hit, the fetched description stamped with the time, the device's code, or that the operation is not supported |
| PropCache.InvalidationNeedsClock | entry/src/main/cpp/ptp.c:4634-4637 | after a set or change event the next query is answered from the cache if and only if the clock has not reached cachetime |
| PropCache.FetchServesNextExactly | entry/src/main/cpp/ptp.c:4621-4742 | a fetched description serves the next query if and only if it has a type, is younger than cachetime, and filled an entry that was missing or empty (not an expired one) |
| Session.PTPSession.HandleInternally | entry/src/main/cpp/ptp.c:3487-3517 | a changed property invalidates its entry, a store event forgets all objects, other events change nothing |
| Session.PTPSession.Receive | entry/src/main/cpp/ptp.c:3519-3636 | every event that comes is queued; a property change touches the property cache alone, a store event the objects and stores alone, other events neither |

## Left out

- SendDataCarries: with a source longer than the data it asks for a port that takes a write whole or refuses it, because there bytes can be skipped unnoticed (`UsbSend.SkipsNothingExactly`).
- RelistingAgrees: asks that no operation in between moves the folder's children or removes them, in terms of the handles, property lists and answers (`Relisting.Gentle`); what each kind of operation does otherwise is stated by its own lemma (`Placement.RootListingTakesExactly`, `Relisting.ChildStaysExactly`).
- ReceiveEndToEnd: for an unknown length only a prefix of the stream is promised on arbitrary ports, since the end is where a read happens to be short; on ports without faults the end is exact (`Refinement.UnknownLengthSucceeds`).
- HitsAreFresh: for devices that answer a property query with the code they were asked for, and a clock of at least cachetime, which is needed (`PropCache.InvalidationNeedsClock`).
- GetResp: only `Nparam` parameter words; the words the original reads behind a short response are not part of this model.
- ParseDeviceInfo: the array reader's elements stay 16-bit numbers, though the original stores them in 32-bit vectors; what a read outside the buffer would return is not modelled.
- ReadPayload: progress reports and the user's wish to cancel come with the port's script; the thousand-fold progress arithmetic is not modelled.
- GetDesc: the form flag reset of an emptied description is part of `content`, which nobody reads while the entry is empty.
- Receive: the vendor polls of ptp_check_event (Nikon, Canon), which queue or handle events in another order.
- The engine's PTPContainer out-parameter of getResp: only the response code is modelled, which is all processIncoming uses.
- The Canon EOS fast listing (entry/src/main/cpp/ptp.c:3204-3304): the camera is assumed not to take it, since its error path returns with unsorted objects.
- The Sony and Canon EOS paths of property queries and sets.
- ptp_unpack_* and ptp_pack_* are not part of this model: device answers come as values.
- readUCS2Raw and readU32Array of the engine, which nothing calls, and the dataset parsers of `ptp_client.cpp`, whose field widths are not those of the standard.
- NAPI glue, ArkTS pages, GPS and gallery code, vendor operations, name tables, logging, the interrupt endpoint, timeouts, fd handlers, allocation failure other than the wrapped length, freeing of memory.
