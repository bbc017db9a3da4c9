/**
 * Transfer records, the registry functions the handler uses on the list of
 * records (`find` and `filter`), and the outbound messages it sends.
 */
module Transfers {
  import opened Wrappers
  import opened NodeUtils
  import opened Parts
  import opened Chunks

  type TransferId = string

  datatype Direction = Incoming | Outgoing

  /** The status strings the handler writes. */
  datatype Status = Offering | Accepted | Rejected | Cancelled | Complete | Receiving | Sending

  /**
   * The value `Math.ceil((i + 1) / total * 100)` takes: a whole percentage,
   * Infinity when total is 0, NaN when total is undefined.
   */
  datatype Progress = Percent(value: nat) | Infinity | NaN

  /**
   * One file transfer. Records created by an Offer are incoming and carry no
   * outgoing payload (`data`), `total_parts`, part size or blob; outgoing
   * records are made by the code that starts a send.
   */
  datatype Transfer = Transfer(
    id: TransferId,
    to: NodeId,
    from: NodeId,
    direction: Direction,
    status: Status,
    filename: string,
    filesize: nat,
    progress: Progress,
    chunks: ChunkMap,
    data: Option<seq<byte>>,
    totalParts: Option<nat>,
    maxAcceptablePartSize: Option<nat>,
    blob: Option<seq<byte>>)

  /** A message the handler hands to the transport; `destination` is the node it goes to. */
  datatype Outbound =
    | SendFilePart(destination: NodeId, fileTransferId: TransferId, partIndex: nat, totalParts: Option<nat>, data: seq<byte>)
    | RequestFileParts(destination: NodeId, fileTransferId: TransferId, partIndexes: seq<nat>)
    | CompleteFileTransfer(destination: NodeId, fileTransferId: TransferId)

  /** The record an Offer creates. */
  function NewIncoming(id: TransferId, to: NodeId, from: NodeId, fileName: string, fileSize: nat): (t: Transfer)
    ensures t.id == id && t.to == to && t.from == from
    ensures t.direction == Incoming && t.status == Offering && t.progress == Percent(0)
    ensures t.filename == fileName && t.filesize == fileSize
    ensures t.chunks == map[] && t.data.None? && t.totalParts.None? && t.blob.None?
  {
    Transfer(id, to, from, Incoming, Offering, fileName, fileSize, Percent(0), map[], None, None, None, None)
  }

  /** Progress after part `partIndex` of `totalParts`, as an exact ceiling. */
  function ProgressFor(partIndex: nat, totalParts: Option<nat>): (p: Progress)
    ensures p.NaN? <==> totalParts.None?
    ensures p.Infinity? <==> totalParts == Some(0)
    ensures p.Percent? ==> (totalParts.Some? && totalParts.value > 0 &&
      p.value * totalParts.value >= (partIndex + 1) * 100 &&
      (p.value - 1) * totalParts.value < (partIndex + 1) * 100)
  {
    match totalParts
    case None => NaN
    case Some(total) => if total == 0 then Infinity else Percent(CeilDiv((partIndex + 1) * 100, total))
  }

  /**
   * Progress stays within 100 exactly for the indexes below the total, and
   * the last part gives 100.
   */
  lemma ProgressBounded(partIndex: nat, total: nat)
    requires total > 0
    ensures ProgressFor(partIndex, Some(total)).Percent?
    ensures ProgressFor(partIndex, Some(total)).value <= 100 <==> partIndex < total
    ensures partIndex == total - 1 ==> ProgressFor(partIndex, Some(total)).value == 100
  {
    CeilDivAtMost((partIndex + 1) * 100, total, 100);
    if partIndex == total - 1 {
      CeilDivAtMost((partIndex + 1) * 100, total, 99);
    }
  }

  /** Registry invariant: no two records share an id. */
  predicate UniqueIds(transfers: seq<Transfer>) {
    forall i, j :: 0 <= i < j < |transfers| ==> transfers[i].id != transfers[j].id
  }

  /** `fileTransfers.find(t => t.id === id)`, as the index of the first match. */
  function FindIndex(transfers: seq<Transfer>, id: TransferId): (r: Option<nat>)
    ensures r.None? <==> forall j :: 0 <= j < |transfers| ==> transfers[j].id != id
    ensures r.Some? ==> r.value < |transfers| && transfers[r.value].id == id
    ensures r.Some? ==> forall j :: 0 <= j < r.value ==> transfers[j].id != id
  {
    if transfers == [] then None
    else if transfers[0].id == id then Some(0)
    else match FindIndex(transfers[1..], id)
      case None => None
      case Some(k) => Some(k + 1)
  }

  /** `fileTransfers.filter(t => t.id !== id)`. */
  function RemoveId(transfers: seq<Transfer>, id: TransferId): (r: seq<Transfer>)
    ensures forall k :: 0 <= k < |r| ==> r[k].id != id
    ensures |r| <= |transfers|
  {
    if transfers == [] then []
    else (if transfers[0].id == id then [] else [transfers[0]]) + RemoveId(transfers[1..], id)
  }

  /**
   * With unique ids, removing the id of record i drops exactly that record
   * and keeps the others in order.
   */
  lemma {:induction false} RemoveIdAt(transfers: seq<Transfer>, i: nat)
    requires UniqueIds(transfers)
    requires i < |transfers|
    ensures RemoveId(transfers, transfers[i].id) == transfers[..i] + transfers[i + 1..]
  {
    var id := transfers[i].id;
    var rest := transfers[1..];
    assert RemoveId(transfers, id) == (if transfers[0].id == id then [] else [transfers[0]]) + RemoveId(rest, id);
    if i == 0 {
      assert forall j :: 0 <= j < |rest| ==> rest[j].id == transfers[j + 1].id;
      RemoveIdAbsent(rest, id);
    } else {
      assert transfers[0].id != id;
      assert UniqueIds(rest) by {
        forall a, b | 0 <= a < b < |rest| ensures rest[a].id != rest[b].id {
          assert rest[a] == transfers[a + 1] && rest[b] == transfers[b + 1];
        }
      }
      assert rest[i - 1] == transfers[i];
      RemoveIdAt(rest, i - 1);
      assert transfers[..i] == [transfers[0]] + rest[..i - 1];
      assert transfers[i + 1..] == rest[i..];
    }
  }

  /** Removing an id no record has changes nothing. */
  lemma {:induction false} RemoveIdAbsent(transfers: seq<Transfer>, id: TransferId)
    requires forall j :: 0 <= j < |transfers| ==> transfers[j].id != id
    ensures RemoveId(transfers, id) == transfers
  {
    if transfers != [] {
      RemoveIdAbsent(transfers[1..], id);
    }
  }

  /** The bytes sendFilePart slices for a record; an unset part size slices nothing. */
  function OutgoingPart(payload: seq<byte>, partSize: Option<nat>, partIndex: nat): (part: seq<byte>)
    ensures partSize.None? ==> part == []
    ensures partSize.Some? ==> part == PartData(payload, partIndex, partSize.value)
  {
    if partSize.None? then [] else PartData(payload, partIndex, partSize.value)
  }

  /**
   * What sendFilePart hands to the transport: one part to the record's `to`,
   * or nothing when the record has no payload (the slice throws and the
   * error is caught).
   */
  function SentPart(t: Transfer, partIndex: nat): (sent: seq<Outbound>)
    ensures t.data.None? <==> sent == []
    ensures t.data.Some? ==> (|sent| == 1 && sent[0].SendFilePart? &&
      sent[0].destination == t.to && sent[0].fileTransferId == t.id &&
      sent[0].partIndex == partIndex && sent[0].totalParts == t.totalParts)
  {
    if t.data.None? then []
    else [SendFilePart(t.to, t.id, partIndex, t.totalParts, OutgoingPart(t.data.value, t.maxAcceptablePartSize, partIndex))]
  }

  /** Everything sent for a list of requested indexes, in the order requested. */
  function PartsSent(t: Transfer, partIndexes: seq<nat>): seq<Outbound> {
    if partIndexes == [] then []
    else PartsSent(t, partIndexes[..|partIndexes| - 1]) + SentPart(t, partIndexes[|partIndexes| - 1])
  }

  /**
   * A record with a payload sends one part per requested index, to `to`,
   * in the requested order; one without a payload sends nothing.
   */
  lemma {:induction false} PartsSentInOrder(t: Transfer, partIndexes: seq<nat>)
    ensures t.data.None? ==> PartsSent(t, partIndexes) == []
    ensures t.data.Some? ==> |PartsSent(t, partIndexes)| == |partIndexes|
    ensures t.data.Some? ==> forall k :: 0 <= k < |partIndexes| ==>
      PartsSent(t, partIndexes)[k] ==
        SendFilePart(t.to, t.id, partIndexes[k], t.totalParts, OutgoingPart(t.data.value, t.maxAcceptablePartSize, partIndexes[k]))
  {
    if partIndexes != [] {
      PartsSentInOrder(t, partIndexes[..|partIndexes| - 1]);
    }
  }
}
