/**
 * `rmq2::Channel` as an object whose operations update its state in place.
 * Each method does what the function of the same name in `ChannelSpec`
 * describes, and keeps the channel's invariant; out-pointer arguments are
 * passed in with their current value and returned.
 */
module Channels {
  import opened Integers
  import AmqpTable
  import Messages
  import opened Envelopes
  import F = Flags
  import opened ChannelSpec

  /** The exchange-type names the class offers, `kHeaderExchange` spelled as the class spells it. */
  const DirectExchange: string := "direct"
  const FanoutExchange: string := "fanout"
  const TopicExchange: string := "topic"
  const HeaderExchange: string := "header"

  /** The name of the headers exchange type as AMQP 0-9-1 spells it. */
  const HeadersExchange: string := "headers"

  /** The exchange types of section 3.1.3 of the AMQP 0-9-1 specification. */
  const StandardExchangeTypes: set<string> := {"direct", "fanout", "topic", "headers"}

  /** `kHeaderExchange` names no exchange type AMQP 0-9-1 defines. */
  lemma HeaderExchangeIsNotStandard()
    ensures HeaderExchange !in StandardExchangeTypes
    ensures HeaderExchange + "s" == HeadersExchange
  {
  }

  /** With `headers`, each exchange-type constant names a distinct standard type. */
  lemma ExchangeTypesAreStandard()
    ensures {DirectExchange, FanoutExchange, TopicExchange, HeadersExchange} == StandardExchangeTypes
    ensures |{DirectExchange, FanoutExchange, TopicExchange, HeadersExchange}| == 4
  {
  }

  class Channel {
    var confirmMode: bool
    var consumerTags: set<string>
    var exchanges: set<string>
    var sent: seq<Request>

    /** The channel's abstract state. */
    function State(): ChannelState
      reads this
    {
      ChannelState(confirmMode, consumerTags, exchanges, sent)
    }

    ghost predicate Valid()
      reads this
    {
      ChannelSpec.Valid(State())
    }

    /** A freshly opened channel: not in confirm mode, nothing registered, nothing sent. */
    constructor ()
      ensures Valid() && State() == Initial
    {
      confirmMode, consumerTags, exchanges, sent := false, {}, {}, [];
    }

    /** Appends a request that is not `confirm.select` to the log, keeping the invariant. */
    method Send(r: Request)
      requires Valid() && r != ConfirmSelect
      modifies this
      ensures Valid()
      ensures State() == old(State()).(sent := old(sent) + [r])
    {
      SelectCountAppend(sent, r);
      sent := sent + [r];
    }

    method DeclareExchange(name: string, exchangeType: string, flags: F.Mask,
                           args: AmqpTable.Table, reply: Reply<()>) returns (status: Status)
      requires Valid()
      modifies this
      ensures Valid()
      ensures var o := ChannelSpec.DeclareExchange(old(State()), name, exchangeType, flags, args, reply);
        status == o.status && State() == o.state
    {
      status := Validate(F.DeclareExchange, flags);
      if status != Ok {
        return;
      }
      var passive := F.Has(flags, F.Passive);
      Send(ExchangeDeclare(name, exchangeType, passive, F.Has(flags, F.Durable),
                           F.Has(flags, F.AutoDelete), F.Has(flags, F.Internal), args));
      status := StatusOf(reply);
      if status.Ok? && !passive {
        exchanges := exchanges + {name};
      }
    }

    method DeleteExchange(name: string, flags: F.Mask) returns (status: Status)
      requires Valid()
      modifies this
      ensures Valid()
      ensures var o := ChannelSpec.DeleteExchange(old(State()), name, flags);
        status == o.status && State() == o.state
    {
      status := Validate(F.DeleteExchange, flags);
      if status != Ok {
        return;
      }
      Send(ExchangeDelete(name, F.Has(flags, F.IfUnused)));
      exchanges := exchanges - {name};
    }

    method BindExchange(destination: string, source: string, routingKey: string,
                        args: AmqpTable.Table, reply: Reply<()>) returns (status: Status)
      requires Valid()
      modifies this
      ensures Valid()
      ensures var o := ChannelSpec.BindExchange(old(State()), destination, source, routingKey, args, reply);
        status == o.status && State() == o.state
    {
      Send(ExchangeBind(destination, source, routingKey, args));
      status := StatusOf(reply);
    }

    method UnbindExchange(destination: string, source: string, routingKey: string,
                          args: AmqpTable.Table, reply: Reply<()>) returns (status: Status)
      requires Valid()
      modifies this
      ensures Valid()
      ensures var o := ChannelSpec.UnbindExchange(old(State()), destination, source, routingKey, args, reply);
        status == o.status && State() == o.state
    {
      Send(ExchangeUnbind(destination, source, routingKey, args));
      status := StatusOf(reply);
    }

    method DeclareQueue(name: string, flags: F.Mask, args: AmqpTable.Table, info: QueueInfo,
                        reply: Reply<QueueDeclareOk>) returns (status: Status, info': QueueInfo)
      requires Valid()
      modifies this
      ensures Valid()
      ensures var o := ChannelSpec.DeclareQueue(old(State()), name, flags, args, info, reply);
        status == o.status && State() == o.state && info' == o.out
    {
      info' := info;
      status := Validate(F.DeclareQueue, flags);
      if status != Ok {
        return;
      }
      Send(QueueDeclare(name, F.Has(flags, F.Passive), F.Has(flags, F.Durable),
                        F.Has(flags, F.Exclusive), F.Has(flags, F.AutoDelete), args));
      status := StatusOf(reply);
      if reply.Accepted? {
        var ok := reply.value;
        info' := QueueInfo(ok.queue, ok.messageCount, ok.consumerCount);
      }
    }

    method DeleteQueue(name: string, flags: F.Mask, messageCount: uint64,
                       reply: Reply<uint64>) returns (status: Status, messageCount': uint64)
      requires Valid()
      modifies this
      ensures Valid()
      ensures var o := ChannelSpec.DeleteQueue(old(State()), name, flags, messageCount, reply);
        status == o.status && State() == o.state && messageCount' == o.out
    {
      messageCount' := messageCount;
      status := Validate(F.DeleteQueue, flags);
      if status != Ok {
        return;
      }
      Send(QueueDelete(name, F.Has(flags, F.IfUnused), F.Has(flags, F.IfEmpty)));
      status := StatusOf(reply);
      if reply.Accepted? {
        messageCount' := reply.value;
      }
    }

    method BindQueue(queue: string, exchange: string, routingKey: string,
                     args: AmqpTable.Table, reply: Reply<()>) returns (status: Status)
      requires Valid()
      modifies this
      ensures Valid()
      ensures var o := ChannelSpec.BindQueue(old(State()), queue, exchange, routingKey, args, reply);
        status == o.status && State() == o.state
    {
      Send(QueueBind(queue, exchange, routingKey, args));
      status := StatusOf(reply);
    }

    method UnbindQueue(queue: string, exchange: string, routingKey: string,
                       args: AmqpTable.Table, reply: Reply<()>) returns (status: Status)
      requires Valid()
      modifies this
      ensures Valid()
      ensures var o := ChannelSpec.UnbindQueue(old(State()), queue, exchange, routingKey, args, reply);
        status == o.status && State() == o.state
    {
      Send(QueueUnbind(queue, exchange, routingKey, args));
      status := StatusOf(reply);
    }

    method PurgeQueue(queue: string, messageCount: uint64, reply: Reply<uint64>)
      returns (status: Status, messageCount': uint64)
      requires Valid()
      modifies this
      ensures Valid()
      ensures var o := ChannelSpec.PurgeQueue(old(State()), queue, messageCount, reply);
        status == o.status && State() == o.state && messageCount' == o.out
    {
      Send(QueuePurge(queue));
      status := StatusOf(reply);
      messageCount' := if reply.Accepted? then reply.value else messageCount;
    }

    method Publish(exchange: string, routingKey: string, flags: F.Mask, message: Messages.Message)
      returns (status: Status)
      requires Valid()
      modifies this
      ensures Valid()
      ensures var o := ChannelSpec.Publish(old(State()), exchange, routingKey, flags, message);
        status == o.status && State() == o.state
    {
      status := Validate(F.Publish, flags);
      if status == Ok {
        Send(BasicPublish(exchange, routingKey, F.Has(flags, F.Mandatory), F.Has(flags, F.Immediate), message));
      }
    }

    method AddPublishConfirm(reply: Reply<()>) returns (status: Status)
      requires Valid()
      modifies this
      ensures Valid() && (confirmMode <==> status.Ok?)
      ensures var o := ChannelSpec.AddPublishConfirm(old(State()), reply);
        status == o.status && State() == o.state
    {
      status := Ok;
      if !confirmMode {
        SelectCountAppend(sent, ConfirmSelect);
        sent := sent + [ConfirmSelect];
        status := StatusOf(reply);
        confirmMode := status.Ok?;
      }
    }

    method Consume(queue: string, tag: string, flags: F.Mask, args: AmqpTable.Table, tagOut: string,
                   reply: Reply<BrokerName>) returns (status: Status, tagOut': string)
      requires Valid()
      modifies this
      ensures Valid()
      ensures var o := ChannelSpec.Consume(old(State()), queue, tag, flags, args, tagOut, reply);
        status == o.status && State() == o.state && tagOut' == o.out
    {
      tagOut' := tagOut;
      status := Validate(F.Consume, flags);
      if status != Ok {
        return;
      }
      Send(BasicConsume(queue, tag, F.Has(flags, F.NoLocal), F.Has(flags, F.NoAck),
                        F.Has(flags, F.Exclusive), args));
      status := StatusOf(reply);
      if reply.Accepted? {
        var returned: BrokerName := reply.value;
        tagOut' := returned;
        consumerTags := consumerTags + {returned};
      }
    }

    method CancelConsumer(tag: string, reply: Reply<()>) returns (status: Status)
      requires Valid()
      modifies this
      ensures Valid()
      ensures var o := ChannelSpec.CancelConsumer(old(State()), tag, reply);
        status == o.status && State() == o.state
    {
      Send(BasicCancel(tag));
      status := StatusOf(reply);
      if status.Ok? {
        consumerTags := consumerTags - {tag};
      }
    }

    method Get(queue: string, flags: F.Mask, result: GetInfo, reply: Reply<GetOk>)
      returns (status: Status, result': GetInfo)
      requires Valid()
      modifies this
      ensures Valid()
      ensures var o := ChannelSpec.Get(old(State()), queue, flags, result, reply);
        status == o.status && State() == o.state && result' == o.out
    {
      result' := result;
      status := Validate(F.Get, flags);
      if status != Ok {
        return;
      }
      Send(BasicGet(queue, F.Has(flags, F.NoAck)));
      status := StatusOf(reply);
      if reply.Accepted? {
        match reply.value
        case GetEmpty => result' := GetInfo(true, EmptyEnvelope, 0);
        case GetMessage(e, n) => result' := GetInfo(false, e, n);
      }
    }

    method Ack(deliveryTag: uint64, flags: F.Mask) returns (status: Status)
      requires Valid()
      modifies this
      ensures Valid()
      ensures var o := ChannelSpec.Ack(old(State()), deliveryTag, flags);
        status == o.status && State() == o.state
    {
      status := Validate(F.Ack, flags);
      if status == Ok {
        Send(BasicAck(deliveryTag, F.Has(flags, F.Multiple)));
      }
    }

    method Nack(deliveryTag: uint64, flags: F.Mask) returns (status: Status)
      requires Valid()
      modifies this
      ensures Valid()
      ensures var o := ChannelSpec.Nack(old(State()), deliveryTag, flags);
        status == o.status && State() == o.state
    {
      status := Validate(F.Nack, flags);
      if status == Ok {
        Send(BasicNack(deliveryTag, F.Has(flags, F.Multiple), F.Has(flags, F.Requeue)));
      }
    }

    method Recover(flags: F.Mask, reply: Reply<()>) returns (status: Status)
      requires Valid()
      modifies this
      ensures Valid()
      ensures var o := ChannelSpec.Recover(old(State()), flags, reply);
        status == o.status && State() == o.state
    {
      status := Validate(F.Recover, flags);
      if status == Ok {
        Send(BasicRecover(F.Has(flags, F.Requeue)));
        status := StatusOf(reply);
      }
    }

    method Qos(size: uint32, count: uint16, reply: Reply<()>) returns (status: Status)
      requires Valid()
      modifies this
      ensures Valid()
      ensures var o := ChannelSpec.Qos(old(State()), size, count, reply);
        status == o.status && State() == o.state
    {
      Send(BasicQos(size, count));
      status := StatusOf(reply);
    }

    method TransactionBegin(reply: Reply<()>) returns (status: Status)
      requires Valid()
      modifies this
      ensures Valid()
      ensures var o := ChannelSpec.TransactionBegin(old(State()), reply);
        status == o.status && State() == o.state
    {
      Send(TxSelect);
      status := StatusOf(reply);
    }

    method TransactionCommit(reply: Reply<()>) returns (status: Status)
      requires Valid()
      modifies this
      ensures Valid()
      ensures var o := ChannelSpec.TransactionCommit(old(State()), reply);
        status == o.status && State() == o.state
    {
      Send(TxCommit);
      status := StatusOf(reply);
    }

    method TransactionRollback(reply: Reply<()>) returns (status: Status)
      requires Valid()
      modifies this
      ensures Valid()
      ensures var o := ChannelSpec.TransactionRollback(old(State()), reply);
        status == o.status && State() == o.state
    {
      Send(TxRollback);
      status := StatusOf(reply);
    }
  }
}
