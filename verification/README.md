# meshtxt file-transfer core, modelled in Dafny

This project models the protocol core of meshtxt's connection layer
(`src/js/Connection.js`) and two small helper files beside it.

- **File-transfer handler.** `Protocol.Connection.OnFileTransferPacket` and one method per control message: Offer, Accept, Reject, Cancel, Completed, FilePart and RequestParts. They act on the transfer registry (`fileTransfers`, a `seq<Transfer>`). The outbound calls `sendFilePart`, `requestFileParts` and `completeFileTransfer` append to an `outbox` log instead of reaching the radio. Each message's effect on the registry and the outbox is also a pure function (`OfferEffect` … `RequestPartsEffect`, and `Step` for the whole handler). Each method is proved to produce exactly that effect, and the lemmas about the handler are stated over `Step`.
- **Part sender arithmetic** (`Parts`). It covers `total_parts = ceil(length / part size)` and the slice of each part. Proved: every part fits the part size, parts past the total are empty, and the parts reassemble the payload.
- **Chunk assembler** (`Chunks`). Received parts live in a `map<nat, seq<byte>>`. The blob is `Object.values(chunks)`, the stored chunks in ascending index order (section 10.1.11.1 of ECMA-262). Proved: any arrival order, with or without repeats, yields the parts that arrived, concatenated in index order. A missing part is silently skipped.
- **Ack correlator and listener lists** (`Protocol.Connection.OnPacketAck` and the `add*`/`remove*Listener` methods). Listener calls and message-store calls are recorded in logs.
- **Message status predicates** (`MessageUtils`). The node's own id is a parameter.
- **Node-id formatting** (`NodeUtils`). It covers `!<hex>` ids and `#rrggbb` colours, with round-trip and injectivity lemmas.

The registry invariant `Valid()` says no two records share an id. Every handler method keeps it.

The model follows what the code does:
- Completing a transfer never checks for missing parts (the todo at src/js/Connection.js:627): the blob skips gaps (`Chunks.BlobSkipsGap`).
- No transition is guarded by the current status, except Cancel's removal of an offering record. A FilePart for any index other than the last that arrives after completion sets the status back to receiving and requests the next part. A repeated last part leaves the record complete, rebuilds the blob and sends the completion again. An Accept after completion resets the status to accepted.
- Progress can exceed 100 when a part index is at or beyond the total (`Transfers.ProgressBounded` states exactly when).
- An Accept for a record that has no outgoing payload (any record created by an Offer) makes the JavaScript handler throw. This happens when it reads `data.length`, before it changes anything, so the model leaves the state unchanged.

## Model

| member | source | states |
|---|---|---|
| `NodeUtils.HexDigits` | src/js/node_utils.js:4 | `toString(16)` of a non-negative number is non-empty, lower-case hexadecimal, with a leading '0' only for 0 |
| `NodeUtils.ParseHexDigits` | src/js/node_utils.js:4 | the hex digits of n parse back to n |
| `NodeUtils.NodeHexId` | src/js/node_utils.js:3-5 | the id is "!" then lower-case hex digits, no leading zero, "!0" for 0, and "!-" then digits for a negative id |
| `NodeUtils.ParseNonNegative` | src/js/node_utils.js:3-5 | "!" and hex digits read back as their value |
| `NodeUtils.ParseNegative` | src/js/node_utils.js:3-5 | "!-" and hex digits read back as their value, negated |
| `NodeUtils.NodeHexIdRoundTrip` | src/js/node_utils.js:3-5 | parsing the text after "!" gives back the id, for every integer id |
| `NodeUtils.NodeHexIdInjective` | src/js/node_utils.js:3-5 | different ids give different hex ids |
| `NodeUtils.PadStart` | src/js/node_utils.js:9 | `padStart` gives length max(width, \|s\|), ends with s, and is fill characters before it |
| `NodeUtils.NodeColour` | src/js/node_utils.js:7-10 | the colour is always 7 characters: '#' and six hex digits |
| `NodeUtils.NodeColourLowBits` | src/js/node_utils.js:9 | the six digits parse back to `id & 0xFFFFFF` (id mod 2^24) |
| `NodeUtils.NodeColourCongruent` | src/js/node_utils.js:9 | ids congruent mod 2^24 get the same colour |
| `NodeUtils.NodeColourInjective` | src/js/node_utils.js:9 | ids in [0, 2^24) with equal colours are equal |
| `NodeUtils.HexDigitsLength` | src/js/node_utils.js:9 | a number below 16^k has at most k hex digits, so padding to 6 never truncates |
| `MessageUtils.InboundIsNotOutbound` | src/js/MessageUtils.js:5-13 | inbound is exactly not outbound; outbound is exactly `from == myNodeId` |
| `MessageUtils.AcknowledgedMeansAckedByMe` | src/js/MessageUtils.js:15-19 | acknowledged exactly when the recorded acking node is our own id (the definition, restated as an equivalence) |
| `MessageUtils.DeliveredExcludesAcknowledged` | src/js/MessageUtils.js:15-24 | delivered implies a direct message acked by its recipient; for a message not addressed to us, delivered and acknowledged exclude each other |
| `MessageUtils.FailedMeansErrorPresent` | src/js/MessageUtils.js:26-28 | failed exactly when an error value is present (the definition, restated) |
| `Parts.CeilDiv` | src/js/Connection.js:528 | `Math.ceil(a / b)` is the least q with q * b >= a, and it is 0 only for a = 0 |
| `Parts.CeilDivAtMost` | src/js/Connection.js:528 | ceil(a / b) <= c exactly when a <= c * b |
| `Parts.PartData` | src/js/Connection.js:703-706 | part i has at most ps bytes, is empty from i * ps >= length, is full while it fits, and byte k is payload byte i * ps + k |
| `Parts.JoinPartsPrefix` | src/js/Connection.js:703-706 | the first n parts joined are the payload's first min(n * ps, length) bytes |
| `Parts.PartBeyondTotal` | src/js/Connection.js:528-532 | a part index at or beyond `total_parts` yields an empty part |
| `Parts.PartsReassemble` | src/js/Connection.js:699-714 | parts 0 .. total_parts - 1 joined in order are exactly the payload |
| `Chunks.KeyBound` | src/js/Connection.js:630 | a bound above every stored part index |
| `Chunks.OrderedValuesAt` | src/js/Connection.js:630 | `Object.values` joined equals the ascending concatenation up to any bound above the stored indexes |
| `Chunks.ValuesBelowSkipsAbsent` | src/js/Connection.js:630 | indexes with no stored chunk add nothing to the blob |
| `Chunks.LeastIndexExists` | src/js/Connection.js:630 | a non-empty set of stored indexes has a least one, the next key `Object.values` visits |
| `Chunks.AssembleBlob` | src/js/Connection.js:630-632 | visiting stored indexes from the smallest up builds `Object.values(chunks)` joined |
| `Chunks.ReceiveAt` | src/js/Connection.js:620 | after any sequence of arrivals, an index is stored iff it was stored before or arrived, and it then holds that part's bytes |
| `Chunks.BlobOfArrivals` | src/js/Connection.js:620-632 | from an empty dictionary, the blob is the arrived parts in index order, whatever the arrival order or repetition |
| `Chunks.BlobOfAllParts` | src/js/Connection.js:620-632 | when every part arrives at least once, in any order, the blob is the whole file |
| `Chunks.BlobSkipsGap` | src/js/Connection.js:626-632 | with only the last of three parts received, completion yields that part alone |
| `Transfers.NewIncoming` | src/js/Connection.js:492-502 | an offer's record is incoming, offering, progress 0, empty chunks, with the packet's to/from and the offer's name and size |
| `Transfers.ProgressFor` | src/js/Connection.js:624 | progress is the ceiling of (index + 1) * 100 / total; Infinity for total 0; NaN for an undefined total |
| `Transfers.ProgressBounded` | src/js/Connection.js:624 | for total > 0, progress <= 100 exactly when index < total, and the last index gives 100 |
| `Transfers.FindIndex` | src/js/Connection.js:485-487 | `find` returns the first record with the id, or nothing exactly when no record has it |
| `Transfers.RemoveId` | src/js/Connection.js:575-577 | `filter` leaves no record with the id and never grows the list |
| `Transfers.RemoveIdAt` | src/js/Connection.js:574-578 | with unique ids, removing record i's id drops exactly record i and keeps the others in order |
| `Transfers.RemoveIdAbsent` | src/js/Connection.js:575-577 | filtering out an id no record has changes nothing |
| `Transfers.OutgoingPart` | src/js/Connection.js:703-706 | the slice for a record: empty when the part size is unset, otherwise `PartData` |
| `Transfers.SentPart` | src/js/Connection.js:699-714 | `sendFilePart` sends exactly one part, to `to`, with the record's id and total, when the record has a payload, and nothing otherwise |
| `Transfers.PartsSentInOrder` | src/js/Connection.js:660-671 | a request sends one part per listed index, in the listed order, to `to` |
| `Listeners.Without` | src/js/Connection.js:20-24 | removing a listener deletes every occurrence and keeps every other listener with its multiplicity |
| `Listeners.WithoutCons` | src/js/Connection.js:20-24 | the filter keeps a list's head exactly when it is not the listener removed |
| `Listeners.WithoutConcat` | src/js/Connection.js:30-34 | removal works piece by piece, so the remaining listeners keep their order |
| `Listeners.WithoutAbsent` | src/js/Connection.js:40-44 | removing a listener never added changes nothing |
| `Listeners.AddThenRemove` | src/js/Connection.js:26-34 | adding a new listener and then removing it restores the list |
| `Protocol.Connection.constructor` | src/js/Connection.js:10-14 | empty listener lists and logs over a registry with unique ids |
| `Protocol.Connection.AddMeshPacketListener` | src/js/Connection.js:16-18 | the listener is appended |
| `Protocol.Connection.RemoveMeshPacketListener` | src/js/Connection.js:20-24 | the list becomes `Without(list, listener)` |
| `Protocol.Connection.AddPacketAckListener` | src/js/Connection.js:26-28 | the listener is appended |
| `Protocol.Connection.RemovePacketAckListener` | src/js/Connection.js:30-34 | the list becomes `Without(list, listener)` |
| `Protocol.Connection.AddClientNotificationListener` | src/js/Connection.js:36-38 | the listener is appended |
| `Protocol.Connection.RemoveClientNotificationListener` | src/js/Connection.js:40-44 | the list becomes `Without(list, listener)` |
| `Protocol.Connection.AddMessageListener` | src/js/Connection.js:46-48 | the listener is appended |
| `Protocol.Connection.RemoveMessageListener` | src/js/Connection.js:50-54 | the list becomes `Without(list, listener)` |
| `Protocol.Connection.AddTraceRouteListener` | src/js/Connection.js:56-58 | the listener is appended |
| `Protocol.Connection.RemoveTraceRouteListener` | src/js/Connection.js:60-64 | the list becomes `Without(list, listener)` |
| `Protocol.Connection.OnPacketAck` | src/js/Connection.js:460-474 | every ack listener is called once, in registration order, with (requestId, ackedByNodeId, hopsAway); then exactly one ack is stored |
| `Protocol.Connection.SendFilePart` | src/js/Connection.js:699-714 | appends `SentPart(t, i)` to the outbox |
| `Protocol.Connection.RequestFileParts` | src/js/Connection.js:688-697 | appends one parts request to the record's `from` |
| `Protocol.Connection.CompleteFileTransfer` | src/js/Connection.js:677-686 | appends one completion to the record's `from` |
| `Protocol.UniqueIdsWithout` | src/js/Connection.js:574-578 | dropping one record from a registry with unique ids leaves the ids unique |
| `Protocol.UniqueIdsSameIds` | src/js/Connection.js:476-675 | a registry with the same ids at the same positions as one with unique ids has unique ids |
| `Protocol.StepKeepsIdsUnique` | src/js/Connection.js:476-675 | every file-transfer message keeps the registry's ids unique |
| `Protocol.StepUnknownIdNoOp` | src/js/Connection.js:517-521 | a message with no variant set, or naming an id not in the registry (other than an Offer), changes neither the registry nor the outbox |
| `Protocol.StepOutbox` | src/js/Connection.js:476-675 | the outbox only grows; Offer, Reject, Cancel and Completed send nothing |
| `Protocol.StepRecords` | src/js/Connection.js:476-675 | only an Offer adds a record (at the end, one at most); only a Cancel of an offering record removes one, keeping the others in order; every other message keeps the ids in place and changes only the record it names |
| `Protocol.AcceptSendsFirstPart` | src/js/Connection.js:510-536 | Accept on a record with a payload: total_parts = ceil(length / size), status accepted, part size recorded, and exactly one message sent: part 0 to `to`, holding the payload's first min(size, length) bytes |
| `Protocol.FilePartStoresChunk` | src/js/Connection.js:603-641 | FilePart on a known record: the chunk is stored (a repeat overwrites), total_parts is untouched, the status is complete exactly on index total - 1 and receiving otherwise, progress is at most 100 exactly when the index is below the total, and exactly one message is sent: the completion or the request for index + 1 |
| `Protocol.Connection.OnOffer` | src/js/Connection.js:480-508 | the new registry and outbox are `OfferEffect` of the old: an unknown id appends one incoming record built from the packet and the offer; a known id changes nothing; ids stay unique |
| `Protocol.Connection.OnAccept` | src/js/Connection.js:510-536 | the new state is `AcceptEffect` of the old: on a known record with a payload, total_parts = ceil(length / size), status accepted, part size recorded, and `SentPart` of part 0 appended; otherwise no change |
| `Protocol.Connection.OnReject` | src/js/Connection.js:538-555 | the new state is `RejectEffect` of the old: the named record's status becomes rejected; an unknown id changes nothing |
| `Protocol.Connection.OnCancel` | src/js/Connection.js:557-582 | the new state is `CancelEffect` of the old: an offering record is filtered out; any other record becomes cancelled and stays; an unknown id changes nothing |
| `Protocol.Connection.OnCompleted` | src/js/Connection.js:584-601 | the new state is `CompletedEffect` of the old: the named record's status becomes complete; an unknown id changes nothing |
| `Protocol.Connection.OnFilePart` | src/js/Connection.js:603-641 | the new state is `FilePartEffect` of the old: the chunk is stored, status receiving and progress set; on index total - 1, status complete, blob = stored chunks in index order, and completion sent to `from`; otherwise a request for index + 1 sent to `from` |
| `Protocol.Connection.OnRequestParts` | src/js/Connection.js:643-671 | the new state is `RequestPartsEffect` of the old: `SentPart` for each listed index, in order, to `to`; after a non-empty list the record is sending with the last index's progress; an empty list changes nothing |
| `Protocol.Connection.OnFileTransferPacket` | src/js/Connection.js:476-675 | the new state is `Step` of the old: each variant has exactly its own handler's effect, and a message with no variant set changes nothing; ids stay unique |
| `Scenarios.SenderScenario` | src/js/Connection.js:526-536 | 300 bytes accepted at 100 per part: 3 parts, part 0 sent; then a request for part 1 sends it, leaving the record sending at 67 percent |
| `Scenarios.BlobInOrder` | src/js/Connection.js:630-632 | parts 0, 1 and 2 stored under their indexes join as p0 ‖ p1 ‖ p2 |
| `Scenarios.ReceiverScenario` | src/js/Connection.js:603-641 | a repeated offer leaves one record; parts 0, 1, 2 give two next-part requests, one completion, progress 100 and the blob p0 ‖ p1 ‖ p2 |

## Left out

- Device connection: `connectViaBluetooth`, `connectViaSerial`, `connectViaHttp`, `connect` and `disconnect` (src/js/Connection.js:66-165). These are browser and device I/O.
- Event plumbing: `setupConnectionListeners` (src/js/Connection.js:167-458). This covers the node, channel, telemetry and position updates, and the protobuf decoding of file-transfer packets. Decoded messages are given directly as the `FileTransferPacket` datatype. Because that is one variant or none, the order of the if/else chain's tests plays no part.
- The transport (`FileTransferAPI`) and the message store (`Database.Message.setMessageAckedByNodeId`) are logs. A send that fails is caught and logged, and never changes transfer state. So every send that gets past the slice is recorded as made.
- `getNodeTextColour` (src/js/node_utils.js:12-25). It is a floating-point brightness test.
- `console.log`, and the bodies of listener callbacks. A call is recorded with its arguments. A listener that adds or removes ack listeners while `onPacketAck` iterates is not modelled.
- Protocol.Connection.OnAccept: requires a positive part size. In JavaScript a size of 0 makes `total_parts` Infinity or NaN, and this is not modelled.
- Protocol.Connection.OnFileTransferPacket: requires a positive part size on an Accept, for the same reason.
- Transfers.ProgressFor: uses the exact ceiling. JavaScript divides and multiplies in doubles, so the result can be one higher (`7 / 100 * 100` is 7.000000000000001).
- The completed blob is modelled as its bytes. Its MIME type, `application/octet-stream` (src/js/Connection.js:630-632), is not modelled.
- Transfer records are values in the registry. JavaScript objects are shared by reference, so aliasing of a record outside the registry is not captured.
- The handler's `await`s are treated as atomic. Interleaving of other events at those points is not modelled.
- Outgoing records are created by code outside this core. They are passed to the constructor, and are assumed to carry a `chunks` dictionary.
- Part indexes of 2^32 - 1 and above are not array indexes in JavaScript, so `Object.values` would list them after the others, in insertion order. The model orders all indexes numerically.
- Node ids are integers. Non-integer numbers, and ids that `String()` would write in exponent notation before `parseInt`, are not modelled.
