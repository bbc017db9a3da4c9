/**
 * The connection's protocol state: listener lists, the acknowledgment
 * correlator, and the file-transfer handler over the transfer registry.
 * Calls to the transport and to the message store are recorded in logs
 * (`outbox`, `ackCalls`, `ackedBy`) instead of being made.
 */
module Protocol {
  import opened Wrappers
  import opened NodeUtils
  import opened Parts
  import opened Chunks
  import opened Transfers
  import opened Listeners

  /** The mesh packet that carried a control message; the handler reads only its addresses. */
  datatype MeshPacket = MeshPacket(from: NodeId, to: NodeId)

  /** A decoded file-transfer control message: one variant, or none set. */
  datatype FileTransferPacket =
    | Offer(id: TransferId, fileName: string, fileSize: nat)
    | Accept(fileTransferId: TransferId, maxAcceptablePartSize: nat)
    | Reject(fileTransferId: TransferId)
    | Cancel(fileTransferId: TransferId)
    | Completed(fileTransferId: TransferId)
    | FilePart(fileTransferId: TransferId, partIndex: nat, totalParts: nat, data: seq<byte>)
    | RequestParts(fileTransferId: TransferId, partIndexes: seq<nat>)
    | Unset

  /** One call of a packet-ack listener, with the arguments it was given. */
  datatype AckCall = AckCall(listener: Listener, requestId: nat, ackedByNodeId: NodeId, hopsAway: nat)

  /** The part of the connection the file-transfer handler changes: the registry and the outbox. */
  datatype HandlerState = HandlerState(transfers: seq<Transfer>, outbox: seq<Outbound>)

  /** Offer: append an incoming record unless one with this id exists (the first offer wins). */
  function OfferEffect(s: HandlerState, packet: MeshPacket, id: TransferId, fileName: string, fileSize: nat): HandlerState {
    if FindIndex(s.transfers, id).Some? then s
    else s.(transfers := s.transfers + [NewIncoming(id, packet.to, packet.from, fileName, fileSize)])
  }

  /**
   * Accept: fix the number of parts and the part size, mark the record
   * accepted and send part 0. A record without a payload makes the handler
   * throw while reading its length, before it changes anything.
   */
  function AcceptEffect(s: HandlerState, id: TransferId, maxAcceptablePartSize: nat): HandlerState
    requires maxAcceptablePartSize > 0
  {
    match FindIndex(s.transfers, id)
    case None => s
    case Some(i) =>
      var t := s.transfers[i];
      if t.data.None? then s
      else
        var accepted := t.(status := Accepted,
                           totalParts := Some(CeilDiv(|t.data.value|, maxAcceptablePartSize)),
                           maxAcceptablePartSize := Some(maxAcceptablePartSize));
        HandlerState(s.transfers[i := accepted], s.outbox + SentPart(accepted, 0))
  }

  /** Reject: the record's status becomes rejected, whatever it was. */
  function RejectEffect(s: HandlerState, id: TransferId): HandlerState {
    match FindIndex(s.transfers, id)
    case None => s
    case Some(i) => s.(transfers := s.transfers[i := s.transfers[i].(status := Rejected)])
  }

  /**
   * Cancel: a record still being offered is filtered out of the registry;
   * any other record stays, with status cancelled.
   */
  function CancelEffect(s: HandlerState, id: TransferId): HandlerState {
    match FindIndex(s.transfers, id)
    case None => s
    case Some(i) =>
      if s.transfers[i].status == Offering then s.(transfers := RemoveId(s.transfers, id))
      else s.(transfers := s.transfers[i := s.transfers[i].(status := Cancelled)])
  }

  /** Completed: the record's status becomes complete, whatever it was. */
  function CompletedEffect(s: HandlerState, id: TransferId): HandlerState {
    match FindIndex(s.transfers, id)
    case None => s
    case Some(i) => s.(transfers := s.transfers[i := s.transfers[i].(status := Complete)])
  }

  /**
   * FilePart: store the bytes at the index (overwriting), mark the record
   * receiving and set its progress. The part whose index is the last one
   * completes the transfer, with no check for missing parts: the blob is
   * the stored chunks in index order and the sender is told. Any other
   * part asks the sender for the next index.
   */
  ghost function FilePartEffect(s: HandlerState, id: TransferId, partIndex: nat, totalParts: nat, data: seq<byte>): HandlerState {
    match FindIndex(s.transfers, id)
    case None => s
    case Some(i) =>
      var t := s.transfers[i];
      var chunks := t.chunks[partIndex := data];
      var progress := ProgressFor(partIndex, Some(totalParts));
      if partIndex + 1 == totalParts then
        HandlerState(s.transfers[i := t.(chunks := chunks, status := Complete, progress := progress,
                                         blob := Some(OrderedValues(chunks)))],
                     s.outbox + [Outbound.CompleteFileTransfer(t.from, id)])
      else
        HandlerState(s.transfers[i := t.(chunks := chunks, status := Receiving, progress := progress)],
                     s.outbox + [Outbound.RequestFileParts(t.from, id, [partIndex + 1])])
  }

  /**
   * RequestParts: send each listed part in the order given; after a
   * non-empty list the record is sending, with the progress of the last index.
   */
  function RequestPartsEffect(s: HandlerState, id: TransferId, partIndexes: seq<nat>): HandlerState {
    match FindIndex(s.transfers, id)
    case None => s
    case Some(i) =>
      var t := s.transfers[i];
      HandlerState(
        if partIndexes == [] then s.transfers
        else s.transfers[i := t.(status := Sending, progress := ProgressFor(partIndexes[|partIndexes| - 1], t.totalParts))],
        s.outbox + PartsSent(t, partIndexes))
  }

  /** onFileTransferPacket: the effect of the variant that is set; none set changes nothing. */
  ghost function Step(s: HandlerState, packet: MeshPacket, message: FileTransferPacket): HandlerState
    requires message.Accept? ==> message.maxAcceptablePartSize > 0
  {
    match message
    case Offer(id, fileName, fileSize) => OfferEffect(s, packet, id, fileName, fileSize)
    case Accept(id, maxAcceptablePartSize) => AcceptEffect(s, id, maxAcceptablePartSize)
    case Reject(id) => RejectEffect(s, id)
    case Cancel(id) => CancelEffect(s, id)
    case Completed(id) => CompletedEffect(s, id)
    case FilePart(id, partIndex, totalParts, data) => FilePartEffect(s, id, partIndex, totalParts, data)
    case RequestParts(id, partIndexes) => RequestPartsEffect(s, id, partIndexes)
    case Unset => s
  }

  /** Dropping one record from a registry with unique ids leaves the ids unique. */
  lemma UniqueIdsWithout(transfers: seq<Transfer>, i: nat)
    requires UniqueIds(transfers) && i < |transfers|
    ensures UniqueIds(transfers[..i] + transfers[i + 1..])
  {
    var r := transfers[..i] + transfers[i + 1..];
    forall a, b | 0 <= a < b < |r| ensures r[a].id != r[b].id {
      var a' := if a < i then a else a + 1;
      var b' := if b < i then b else b + 1;
      assert r[a] == transfers[a'] && r[b] == transfers[b'];
    }
  }

  /** A message naming an id not in the registry, or with no variant set, changes nothing. */
  lemma StepUnknownIdNoOp(s: HandlerState, packet: MeshPacket, message: FileTransferPacket)
    requires message.Accept? ==> message.maxAcceptablePartSize > 0
    requires message.Unset? || (!message.Offer? && FindIndex(s.transfers, message.fileTransferId).None?)
    ensures Step(s, packet, message) == s
  {
  }

  /** Whether a message is a Cancel of a record that is still being offered, the one case that removes a record. */
  predicate RemovesRecord(s: HandlerState, message: FileTransferPacket) {
    message.Cancel? && FindIndex(s.transfers, message.fileTransferId).Some? &&
    s.transfers[FindIndex(s.transfers, message.fileTransferId).value].status == Offering
  }

  /** The outbox only grows, and Offer, Reject, Cancel and Completed send nothing. */
  lemma StepOutbox(s: HandlerState, packet: MeshPacket, message: FileTransferPacket)
    requires message.Accept? ==> message.maxAcceptablePartSize > 0
    ensures s.outbox <= Step(s, packet, message).outbox
    ensures !message.Accept? && !message.FilePart? && !message.RequestParts? ==>
      Step(s, packet, message).outbox == s.outbox
  {
  }

  /**
   * Only an Offer adds a record (at the end) and only a Cancel of an
   * offering record removes one, keeping the others in order; every other
   * message keeps each record's id in place and changes at most the record
   * it names.
   */
  lemma StepRecords(s: HandlerState, packet: MeshPacket, message: FileTransferPacket)
    requires UniqueIds(s.transfers)
    requires message.Accept? ==> message.maxAcceptablePartSize > 0
    ensures message.Offer? ==>
      s.transfers <= Step(s, packet, message).transfers &&
      |Step(s, packet, message).transfers| == |s.transfers| + (if FindIndex(s.transfers, message.id).None? then 1 else 0)
    ensures RemovesRecord(s, message) ==>
      var i := FindIndex(s.transfers, message.fileTransferId).value;
      Step(s, packet, message).transfers == s.transfers[..i] + s.transfers[i + 1..]
    ensures !message.Offer? && !message.Unset? && !RemovesRecord(s, message) ==>
      |Step(s, packet, message).transfers| == |s.transfers| &&
      forall k :: 0 <= k < |s.transfers| ==>
        Step(s, packet, message).transfers[k].id == s.transfers[k].id &&
        (s.transfers[k].id != message.fileTransferId ==> Step(s, packet, message).transfers[k] == s.transfers[k])
  {
    if RemovesRecord(s, message) {
      RemoveIdAt(s.transfers, FindIndex(s.transfers, message.fileTransferId).value);
    } else if !message.Offer? && !message.Unset? {
      var found := FindIndex(s.transfers, message.fileTransferId);
      var after := Step(s, packet, message).transfers;
      if found.Some? {
        var i := found.value;
        assert after == s.transfers || after == s.transfers[i := after[i]];
      }
    }
  }

  /** A registry whose ids sit where those of a registry with unique ids sit has unique ids too. */
  lemma UniqueIdsSameIds(before: seq<Transfer>, after: seq<Transfer>)
    requires UniqueIds(before) && |after| == |before|
    requires forall k :: 0 <= k < |before| ==> after[k].id == before[k].id
    ensures UniqueIds(after)
  {
    forall a, b | 0 <= a < b < |after| ensures after[a].id != after[b].id {
      assert before[a].id != before[b].id;
    }
  }

  /** Every control message keeps the registry's ids unique. */
  lemma StepKeepsIdsUnique(s: HandlerState, packet: MeshPacket, message: FileTransferPacket)
    requires UniqueIds(s.transfers)
    requires message.Accept? ==> message.maxAcceptablePartSize > 0
    ensures UniqueIds(Step(s, packet, message).transfers)
  {
    StepRecords(s, packet, message);
    var after := Step(s, packet, message).transfers;
    if RemovesRecord(s, message) {
      UniqueIdsWithout(s.transfers, FindIndex(s.transfers, message.fileTransferId).value);
    } else if !message.Offer? && !message.Unset? {
      UniqueIdsSameIds(s.transfers, after);
    }
  }

  /**
   * Accept on a record with a payload: `total_parts` is the ceiling of
   * length over part size, and exactly one part is sent, part 0 to `to`,
   * holding the payload's first min(size, length) bytes.
   */
  lemma AcceptSendsFirstPart(s: HandlerState, id: TransferId, maxAcceptablePartSize: nat)
    requires maxAcceptablePartSize > 0
    requires FindIndex(s.transfers, id).Some?
    requires s.transfers[FindIndex(s.transfers, id).value].data.Some?
    ensures
      var i := FindIndex(s.transfers, id).value;
      var t := s.transfers[i];
      var payload := t.data.value;
      var total := CeilDiv(|payload|, maxAcceptablePartSize);
      var r := AcceptEffect(s, id, maxAcceptablePartSize);
      r.transfers[i].status == Accepted && r.transfers[i].totalParts == Some(total) &&
      r.transfers[i].maxAcceptablePartSize == Some(maxAcceptablePartSize) &&
      r.outbox == s.outbox + [Outbound.SendFilePart(t.to, id, 0, Some(total), payload[..Min(maxAcceptablePartSize, |payload|)])]
  {
  }

  /**
   * FilePart on a known record: the chunk is stored (a repeat overwrites),
   * `total_parts` is untouched, the status is complete exactly for the last
   * index (receiving otherwise), progress is at most 100 exactly for an
   * index below the total, and the one message sent is the completion or
   * the request for the next index.
   */
  lemma FilePartStoresChunk(s: HandlerState, id: TransferId, partIndex: nat, totalParts: nat, data: seq<byte>)
    requires FindIndex(s.transfers, id).Some?
    ensures
      var i := FindIndex(s.transfers, id).value;
      var t := s.transfers[i];
      var r := FilePartEffect(s, id, partIndex, totalParts, data);
      r.transfers[i].chunks == t.chunks[partIndex := data] && r.transfers[i].totalParts == t.totalParts &&
      r.transfers[i].status == (if partIndex + 1 == totalParts then Complete else Receiving) &&
      (totalParts > 0 ==> r.transfers[i].progress.Percent? &&
                          (r.transfers[i].progress.value <= 100 <==> partIndex < totalParts)) &&
      |r.outbox| == |s.outbox| + 1 &&
      r.outbox[|s.outbox|] == (if partIndex + 1 == totalParts then Outbound.CompleteFileTransfer(t.from, id)
                               else Outbound.RequestFileParts(t.from, id, [partIndex + 1]))
  {
    if totalParts > 0 {
      ProgressBounded(partIndex, totalParts);
    }
  }

  /** One `setMessageAckedByNodeId(requestId, nodeId)` call on the message store. */
  datatype AckRecord = AckRecord(requestId: nat, ackedByNodeId: NodeId)

  class Connection {
    var meshPacketListeners: seq<Listener>
    var packetAckListeners: seq<Listener>
    var clientNotificationListeners: seq<Listener>
    var messageListeners: seq<Listener>
    var traceRouteListeners: seq<Listener>

    /** Every packet-ack listener call, in the order made. */
    var ackCalls: seq<AckCall>
    /** Every acknowledgment handed to the message store, in order. */
    var ackedBy: seq<AckRecord>

    /** The transfer registry. */
    var fileTransfers: seq<Transfer>
    /** Every message handed to the transport, in order. */
    var outbox: seq<Outbound>

    /** The registry never holds two records with one id. */
    ghost predicate Valid()
      reads this
    {
      UniqueIds(fileTransfers)
    }

    /** A connection over a registry that may already hold outgoing transfers. */
    constructor (transfers: seq<Transfer>)
      requires UniqueIds(transfers)
      ensures Valid()
      ensures fileTransfers == transfers && outbox == []
      ensures ackCalls == [] && ackedBy == []
      ensures meshPacketListeners == [] && packetAckListeners == [] && clientNotificationListeners == []
      ensures messageListeners == [] && traceRouteListeners == []
    {
      meshPacketListeners, packetAckListeners, clientNotificationListeners := [], [], [];
      messageListeners, traceRouteListeners := [], [];
      ackCalls, ackedBy := [], [];
      fileTransfers, outbox := transfers, [];
    }

    method AddMeshPacketListener(listener: Listener)
      modifies this`meshPacketListeners
      ensures meshPacketListeners == old(meshPacketListeners) + [listener]
    {
      meshPacketListeners := meshPacketListeners + [listener];
    }

    method RemoveMeshPacketListener(listener: Listener)
      modifies this`meshPacketListeners
      ensures meshPacketListeners == Without(old(meshPacketListeners), listener)
    {
      meshPacketListeners := Without(meshPacketListeners, listener);
    }

    method AddPacketAckListener(listener: Listener)
      modifies this`packetAckListeners
      ensures packetAckListeners == old(packetAckListeners) + [listener]
    {
      packetAckListeners := packetAckListeners + [listener];
    }

    method RemovePacketAckListener(listener: Listener)
      modifies this`packetAckListeners
      ensures packetAckListeners == Without(old(packetAckListeners), listener)
    {
      packetAckListeners := Without(packetAckListeners, listener);
    }

    method AddClientNotificationListener(listener: Listener)
      modifies this`clientNotificationListeners
      ensures clientNotificationListeners == old(clientNotificationListeners) + [listener]
    {
      clientNotificationListeners := clientNotificationListeners + [listener];
    }

    method RemoveClientNotificationListener(listener: Listener)
      modifies this`clientNotificationListeners
      ensures clientNotificationListeners == Without(old(clientNotificationListeners), listener)
    {
      clientNotificationListeners := Without(clientNotificationListeners, listener);
    }

    method AddMessageListener(listener: Listener)
      modifies this`messageListeners
      ensures messageListeners == old(messageListeners) + [listener]
    {
      messageListeners := messageListeners + [listener];
    }

    method RemoveMessageListener(listener: Listener)
      modifies this`messageListeners
      ensures messageListeners == Without(old(messageListeners), listener)
    {
      messageListeners := Without(messageListeners, listener);
    }

    method AddTraceRouteListener(listener: Listener)
      modifies this`traceRouteListeners
      ensures traceRouteListeners == old(traceRouteListeners) + [listener]
    {
      traceRouteListeners := traceRouteListeners + [listener];
    }

    method RemoveTraceRouteListener(listener: Listener)
      modifies this`traceRouteListeners
      ensures traceRouteListeners == Without(old(traceRouteListeners), listener)
    {
      traceRouteListeners := Without(traceRouteListeners, listener);
    }

    /**
     * A routing acknowledgment: every packet-ack listener is called, in
     * registration order (an exception in one does not stop the rest), and
     * then the acknowledgment is stored once.
     */
    method OnPacketAck(requestId: nat, ackedByNodeId: NodeId, hopsAway: nat)
      modifies this`ackCalls, this`ackedBy
      ensures |ackCalls| == |old(ackCalls)| + |packetAckListeners|
      ensures ackCalls[..|old(ackCalls)|] == old(ackCalls)
      ensures forall k :: 0 <= k < |packetAckListeners| ==>
        ackCalls[|old(ackCalls)| + k] == AckCall(packetAckListeners[k], requestId, ackedByNodeId, hopsAway)
      ensures ackedBy == old(ackedBy) + [AckRecord(requestId, ackedByNodeId)]
    {
      var n := |ackCalls|;
      for k := 0 to |packetAckListeners|
        invariant |ackCalls| == n + k
        invariant ackCalls[..n] == old(ackCalls)
        invariant forall j :: 0 <= j < k ==>
          ackCalls[n + j] == AckCall(packetAckListeners[j], requestId, ackedByNodeId, hopsAway)
        invariant ackedBy == old(ackedBy)
      {
        ackCalls := ackCalls + [AckCall(packetAckListeners[k], requestId, ackedByNodeId, hopsAway)];
      }
      ackedBy := ackedBy + [AckRecord(requestId, ackedByNodeId)];
    }

    /** sendFilePart: the slice of the payload for one index, sent to the record's `to`. */
    method SendFilePart(t: Transfer, partIndex: nat)
      modifies this`outbox
      ensures outbox == old(outbox) + SentPart(t, partIndex)
    {
      if t.data.Some? {
        var part := OutgoingPart(t.data.value, t.maxAcceptablePartSize, partIndex);
        outbox := outbox + [Outbound.SendFilePart(t.to, t.id, partIndex, t.totalParts, part)];
      }
      // with no payload the slice throws, and the error is caught and logged
    }

    /** requestFileParts: ask the record's `from` for the listed parts. */
    method RequestFileParts(t: Transfer, partIndexes: seq<nat>)
      modifies this`outbox
      ensures outbox == old(outbox) + [Outbound.RequestFileParts(t.from, t.id, partIndexes)]
    {
      outbox := outbox + [Outbound.RequestFileParts(t.from, t.id, partIndexes)];
    }

    /** completeFileTransfer: tell the record's `from` that the file arrived. */
    method CompleteFileTransfer(t: Transfer)
      modifies this`outbox
      ensures outbox == old(outbox) + [Outbound.CompleteFileTransfer(t.from, t.id)]
    {
      outbox := outbox + [Outbound.CompleteFileTransfer(t.from, t.id)];
    }

    /** The registry and the outbox, as one value. */
    ghost function State(): HandlerState
      reads this
    {
      HandlerState(fileTransfers, outbox)
    }

    /** Offer: create an incoming record for an id not yet known. */
    method OnOffer(packet: MeshPacket, id: TransferId, fileName: string, fileSize: nat)
      requires Valid()
      modifies this`fileTransfers
      ensures Valid()
      ensures State() == OfferEffect(old(State()), packet, id, fileName, fileSize)
    {
      if FindIndex(fileTransfers, id).None? {
        fileTransfers := fileTransfers + [NewIncoming(id, packet.to, packet.from, fileName, fileSize)];
      }
    }

    /** Accept: the receiver fixed the part size; number the parts and send the first. */
    method OnAccept(id: TransferId, maxAcceptablePartSize: nat)
      requires Valid()
      requires maxAcceptablePartSize > 0
      modifies this`fileTransfers, this`outbox
      ensures Valid()
      ensures State() == AcceptEffect(old(State()), id, maxAcceptablePartSize)
    {
      var found := FindIndex(fileTransfers, id);
      if found.None? {
        return;
      }
      var i := found.value;
      var t := fileTransfers[i];
      if t.data.None? {
        return;
      }
      var totalParts := CeilDiv(|t.data.value|, maxAcceptablePartSize);
      var accepted := t.(status := Accepted, totalParts := Some(totalParts),
                         maxAcceptablePartSize := Some(maxAcceptablePartSize));
      fileTransfers := fileTransfers[i := accepted];
      SendFilePart(accepted, 0);
    }

    /** Reject: the receiver declined the offer. */
    method OnReject(id: TransferId)
      requires Valid()
      modifies this`fileTransfers
      ensures Valid()
      ensures State() == RejectEffect(old(State()), id)
    {
      var found := FindIndex(fileTransfers, id);
      if found.Some? {
        var i := found.value;
        fileTransfers := fileTransfers[i := fileTransfers[i].(status := Rejected)];
      }
    }

    /** Cancel: the other side abandoned the transfer. */
    method OnCancel(id: TransferId)
      requires Valid()
      modifies this`fileTransfers
      ensures Valid()
      ensures State() == CancelEffect(old(State()), id)
    {
      var found := FindIndex(fileTransfers, id);
      if found.None? {
        return;
      }
      var i := found.value;
      if fileTransfers[i].status == Offering {
        RemoveIdAt(fileTransfers, i);
        UniqueIdsWithout(fileTransfers, i);
        fileTransfers := RemoveId(fileTransfers, id);
        return;
      }
      fileTransfers := fileTransfers[i := fileTransfers[i].(status := Cancelled)];
    }

    /** Completed: the receiver has every part. */
    method OnCompleted(id: TransferId)
      requires Valid()
      modifies this`fileTransfers
      ensures Valid()
      ensures State() == CompletedEffect(old(State()), id)
    {
      var found := FindIndex(fileTransfers, id);
      if found.Some? {
        var i := found.value;
        fileTransfers := fileTransfers[i := fileTransfers[i].(status := Complete)];
      }
    }

    /** FilePart: store a received part, then ask for the next one or finish. */
    method OnFilePart(id: TransferId, partIndex: nat, totalParts: nat, data: seq<byte>)
      requires Valid()
      modifies this`fileTransfers, this`outbox
      ensures Valid()
      ensures State() == FilePartEffect(old(State()), id, partIndex, totalParts, data)
    {
      var found := FindIndex(fileTransfers, id);
      if found.None? {
        return;
      }
      var i := found.value;
      var t := fileTransfers[i];
      var chunks := t.chunks[partIndex := data];
      var receiving := t.(chunks := chunks, status := Receiving, progress := ProgressFor(partIndex, Some(totalParts)));
      fileTransfers := fileTransfers[i := receiving];
      if partIndex + 1 == totalParts {
        var blob := AssembleBlob(chunks);
        var complete := receiving.(status := Complete, blob := Some(blob));
        fileTransfers := fileTransfers[i := complete];
        CompleteFileTransfer(complete);
        return;
      }
      RequestFileParts(receiving, [partIndex + 1]);
    }

    /** RequestParts: the receiver asks for the listed parts. */
    method OnRequestParts(id: TransferId, partIndexes: seq<nat>)
      requires Valid()
      modifies this`fileTransfers, this`outbox
      ensures Valid()
      ensures State() == RequestPartsEffect(old(State()), id, partIndexes)
    {
      var found := FindIndex(fileTransfers, id);
      if found.None? {
        return;
      }
      var i := found.value;
      var t := fileTransfers[i];
      var before := fileTransfers;
      ghost var sent := outbox;
      for k := 0 to |partIndexes|
        invariant k == 0 ==> fileTransfers == before
        invariant k > 0 ==> fileTransfers == before[i := t.(status := Sending, progress := ProgressFor(partIndexes[k - 1], t.totalParts))]
        invariant outbox == sent + PartsSent(t, partIndexes[..k])
      {
        SendFilePart(t, partIndexes[k]);
        assert partIndexes[..k + 1][..k] == partIndexes[..k];
        fileTransfers := before[i := t.(status := Sending, progress := ProgressFor(partIndexes[k], t.totalParts))];
      }
      assert partIndexes[..|partIndexes|] == partIndexes;
    }

    /** onFileTransferPacket: run the handler of the variant that is set. */
    method OnFileTransferPacket(packet: MeshPacket, message: FileTransferPacket)
      requires Valid()
      requires message.Accept? ==> message.maxAcceptablePartSize > 0
      modifies this`fileTransfers, this`outbox
      ensures Valid()
      ensures State() == Step(old(State()), packet, message)
    {
      match message
      case Offer(id, fileName, fileSize) => OnOffer(packet, id, fileName, fileSize);
      case Accept(id, maxAcceptablePartSize) => OnAccept(id, maxAcceptablePartSize);
      case Reject(id) => OnReject(id);
      case Cancel(id) => OnCancel(id);
      case Completed(id) => OnCompleted(id);
      case FilePart(id, partIndex, totalParts, data) => OnFilePart(id, partIndex, totalParts, data);
      case RequestParts(id, partIndexes) => OnRequestParts(id, partIndexes);
      case Unset =>
    }
  }
}
