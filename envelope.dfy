/**
 * `rmq2::Envelope`: an immutable record of one delivery, read through const
 * accessors. The consumer tag is stored but has no accessor.
 */
module Envelopes {
  import opened Integers
  import Messages

  datatype Envelope = Envelope(
    message: Messages.Message,
    consumerTag: string,
    exchange: string,
    routingKey: string,
    deliveryTag: uint64,
    redelivered: bool)
  {
    function Message(): (m: Messages.Message)
      ensures m == message
    {
      message
    }

    function Exchange(): (e: string)
      ensures e == exchange
    {
      exchange
    }

    function RoutingKey(): (k: string)
      ensures k == routingKey
    {
      routingKey
    }

    function DeliveryTag(): (t: uint64)
      ensures t == deliveryTag
    {
      deliveryTag
    }

    function Redelivered(): (r: bool)
      ensures r == redelivered
    {
      redelivered
    }
  }

  /** A default-constructed envelope, the one a `GetInfo` holds when the queue is empty. */
  const EmptyEnvelope: Envelope := Envelope(Messages.EmptyMessage, "", "", "", 0, false)

  /** Each accessor returns the field it names, as the envelope was built. */
  lemma AccessorsReturnStoredFields(
    m: Messages.Message, consumerTag: string, exchange: string, routingKey: string,
    deliveryTag: uint64, redelivered: bool)
    ensures var e := Envelope(m, consumerTag, exchange, routingKey, deliveryTag, redelivered);
      e.Message() == m && e.Exchange() == exchange && e.RoutingKey() == routingKey &&
      e.DeliveryTag() == deliveryTag && e.Redelivered() == redelivered
  {
  }

  /**
   * The accessors read everything but the consumer tag: two envelopes with
   * the same accessor results are equal exactly when their tags are.
   */
  lemma AccessorsDetermineAllButConsumerTag(a: Envelope, b: Envelope)
    requires a.Message() == b.Message() && a.Exchange() == b.Exchange()
    requires a.RoutingKey() == b.RoutingKey() && a.DeliveryTag() == b.DeliveryTag()
    requires a.Redelivered() == b.Redelivered()
    ensures a == b <==> a.consumerTag == b.consumerTag
  {
  }
}
