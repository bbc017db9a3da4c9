/**
 * Status predicates over a stored chat message. The node's own id, a global
 * in the application, is passed as `myNodeId`.
 */
module MessageUtils {
  import opened Wrappers
  import opened NodeUtils

  /**
   * The message fields the predicates read. `kind` is the message's `type`
   * ("direct" for a message to one node); `ackedById` and `error` are absent
   * (undefined or null) until an acknowledgment or an error is recorded.
   */
  datatype Message = Message(
    from: NodeId,
    to: NodeId,
    kind: string,
    ackedById: Option<NodeId>,
    error: Option<string>)

  /** Inbound messages are the ones not sent by this node. */
  predicate IsMessageInbound(m: Message, myNodeId: NodeId) {
    m.from != myNodeId
  }

  /** Outbound messages are the ones this node sent. */
  predicate IsMessageOutbound(m: Message, myNodeId: NodeId) {
    m.from == myNodeId
  }

  /** Acknowledged: the recorded acknowledgment came from this node (the implicit ack of a broadcast). */
  predicate IsMessageAcknowledged(m: Message, myNodeId: NodeId) {
    m.ackedById == Some(myNodeId)
  }

  /** Delivered: a direct message acknowledged by its recipient. */
  predicate IsMessageDelivered(m: Message) {
    m.kind == "direct" && m.ackedById == Some(m.to)
  }

  /** Failed: an error has been recorded (`error != null`). */
  predicate IsMessageFailed(m: Message) {
    m.error.Some?
  }

  /** Every message is exactly one of inbound and outbound. */
  lemma InboundIsNotOutbound(m: Message, myNodeId: NodeId)
    ensures IsMessageInbound(m, myNodeId) <==> !IsMessageOutbound(m, myNodeId)
    ensures IsMessageOutbound(m, myNodeId) <==> m.from == myNodeId
  {
  }

  /**
   * Acknowledged exactly when the recorded acknowledging node is this node.
   * This restates the predicate's definition as an equivalence; it holds by unfolding.
   */
  lemma AcknowledgedMeansAckedByMe(m: Message, myNodeId: NodeId)
    ensures IsMessageAcknowledged(m, myNodeId) <==> m.ackedById.Some? && m.ackedById.value == myNodeId
  {
  }

  /**
   * Delivery implies a direct message acknowledged by its recipient; so a
   * message to another node is never both delivered and acknowledged.
   */
  lemma DeliveredExcludesAcknowledged(m: Message, myNodeId: NodeId)
    ensures IsMessageDelivered(m) ==> m.kind == "direct" && m.ackedById == Some(m.to)
    ensures m.to != myNodeId ==> !(IsMessageDelivered(m) && IsMessageAcknowledged(m, myNodeId))
  {
  }

  /**
   * Failed exactly when an error value is present. This restates the
   * predicate's definition; it holds by unfolding.
   */
  lemma FailedMeansErrorPresent(m: Message)
    ensures IsMessageFailed(m) <==> m.error != None
  {
  }
}
