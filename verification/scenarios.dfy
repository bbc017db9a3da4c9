/**
 * The two sides of a three-part transfer, run through the handler's
 * contracts: what the sender emits and what the receiver ends with.
 */
module Scenarios {
  import opened Wrappers
  import opened NodeUtils
  import opened Parts
  import opened Chunks
  import opened Transfers
  import opened Protocol

  /**
   * Sender side: a 300-byte outgoing transfer accepted with 100-byte parts
   * has three parts and sends part 0; a request for part 1 sends it and
   * leaves the record sending at 67 percent.
   */
  method SenderScenario(payload: seq<byte>, sender: NodeId, receiver: NodeId)
    returns (record: Transfer, sent: seq<Outbound>)
    requires |payload| == 300
    ensures record.status == Sending && record.progress == Percent(67)
    ensures record.totalParts == Some(3) && record.maxAcceptablePartSize == Some(100)
    ensures sent == [Outbound.SendFilePart(receiver, "t1", 0, Some(3), payload[..100]),
                     Outbound.SendFilePart(receiver, "t1", 1, Some(3), payload[100..200])]
  {
    var outgoing := Transfer("t1", receiver, sender, Outgoing, Offering, "a.bin", 300, Percent(0),
                             map[], Some(payload), None, None, None);
    var c := new Connection([outgoing]);
    c.OnFileTransferPacket(MeshPacket(receiver, sender), Accept("t1", 100));
    var accepted := c.fileTransfers[0];
    assert accepted.totalParts == Some(3);
    assert c.outbox == SentPart(accepted, 0);
    assert FindIndex(c.fileTransfers, "t1") == Some(0);
    c.OnFileTransferPacket(MeshPacket(receiver, sender), RequestParts("t1", [1]));
    assert [1][..0] == [];
    assert PartsSent(accepted, [1]) == SentPart(accepted, 1);
    assert c.outbox == SentPart(accepted, 0) + SentPart(accepted, 1);
    record, sent := c.fileTransfers[0], c.outbox;
  }

  /** Parts 0, 1 and 2 stored under their indexes join in index order. */
  lemma BlobInOrder(p0: seq<byte>, p1: seq<byte>, p2: seq<byte>)
    ensures OrderedValues(map[0 := p0, 1 := p1, 2 := p2]) == p0 + p1 + p2
  {
    var chunks := map[0 := p0, 1 := p1, 2 := p2];
    OrderedValuesAt(chunks, 3);
    assert ValuesBelow(chunks, 1) == p0;
    assert ValuesBelow(chunks, 2) == p0 + p1;
  }

  /**
   * Receiver side: a repeated offer leaves one record; parts 0, 1 and 2
   * arrive in order, each but the last asks for the next, and the last
   * completes the transfer with the three parts joined.
   */
  method ReceiverScenario(p0: seq<byte>, p1: seq<byte>, p2: seq<byte>, sender: NodeId, receiver: NodeId)
    returns (records: seq<Transfer>, sent: seq<Outbound>)
    ensures |records| == 1
    ensures records[0].status == Complete && records[0].progress == Percent(100)
    ensures records[0].blob == Some(p0 + p1 + p2)
    ensures sent == [Outbound.RequestFileParts(sender, "t1", [1]),
                     Outbound.RequestFileParts(sender, "t1", [2]),
                     Outbound.CompleteFileTransfer(sender, "t1")]
  {
    var c := new Connection([]);
    var packet := MeshPacket(sender, receiver);
    c.OnFileTransferPacket(packet, Offer("t1", "a.bin", 300));
    c.OnFileTransferPacket(packet, Offer("t1", "a.bin", 300));
    assert |c.fileTransfers| == 1 && c.fileTransfers[0].status == Offering;
    c.OnFileTransferPacket(packet, FilePart("t1", 0, 3, p0));
    c.OnFileTransferPacket(packet, FilePart("t1", 1, 3, p1));
    c.OnFileTransferPacket(packet, FilePart("t1", 2, 3, p2));
    assert c.fileTransfers[0].chunks == map[0 := p0, 1 := p1, 2 := p2];
    BlobInOrder(p0, p1, p2);
    records, sent := c.fileTransfers, c.outbox;
  }
}
