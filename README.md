# rmq2 channel, envelope and librabbitmq field tables in Dafny

This project models the programming interface of `rmq2`, the C++ layer of
rabbitmq-c, and the field-table helpers of librabbitmq beneath it. The model
has four parts:

- **Flags** (`flags.dfy`): the `Channel::Flags` bitmask. Each of the thirteen
  flags is one bit of a 32-bit mask. Every operation that takes a `flags`
  argument has the set of flags its documentation accepts. `Acceptable`
  checks a mask against that set.
- **Field tables** (`amqp_table.dfy`): the three entry constructors
  (a UTF-8 string, a nested table, a boolean) and the lookup by key. A table
  is an ordered sequence of entries. The lookup returns the position of the
  first entry with the key, or `None`.
- **Envelope** (`envelope.dfy`, `messages.dfy`): an immutable record of one
  delivery, read through its five accessors.
- **Channel** (`channel_spec.dfy`, `channel.dfy`). `ChannelSpec` gives one
  function per channel operation. It maps the channel state, the arguments
  and the broker's answer to a status, a new state and the out-parameter's
  value. `Channels.Channel` is a class holding that state in fields. Its
  methods update the fields in place, and each is proved to agree with the
  function of the same name.

The channel state records four things:

- whether the channel is in publisher-confirm mode;
- the consumer tags it registered;
- the exchanges it declared;
- the AMQP 0-9-1 requests it sent, in order.

The broker is not modelled. Every operation that waits for the broker,
except `DeleteExchange` (see "Left out"), takes the broker's answer as a
parameter, either `Accepted(value)` or `Refused(code, text)`. A queue name or
consumer tag the broker reports has type `BrokerName`, a non-empty string. The flag check comes first. A mask holding a flag the
operation's documentation does not list is refused locally with
`InvalidArgument`. In that case nothing is sent and the state is unchanged.

Proved properties:

- **Masks and flags.** The OR of a list of flags decodes back to exactly that
  list's set of flags. A mask is acceptable exactly when it holds only listed
  flags and no bit outside the enum.
- **Confirm mode.** `AddPublishConfirm` on a channel not yet in confirm mode
  sends `confirm.select`, and the channel is in confirm mode exactly when the
  broker accepts it. Only that operation changes the mode, and no operation
  turns it off (on a channel the broker never closed, see "Left out"). A
  channel in confirm mode has sent `confirm.select`, and it never sends it
  again.
- **Broker names.** `DeclareQueue` reports the queue name the broker returns,
  and `Consume` reports and registers the consumer tag the broker returns.
  Given that the broker never reports an empty name, no registered tag is
  ever empty.
- **Get.** An empty `Get` returns the empty envelope.
- **Deleting exchanges.** Deleting an exchange with valid flags succeeds,
  whether or not it was declared. This holds by construction, since
  `DeleteExchange` takes no broker answer (see "Left out"). Deleting an
  exchange twice gives the same result as deleting it once.
- **Table lookup.** The lookup's first-match contract determines it
  uniquely. Appending entries leaves a hit unchanged.

## Model

| member | source | states |
|---|---|---|
| `Flags.EnumValues` | rmq2/channel.h:54-68 | the thirteen flags are the powers of two 1 to 4096 in declaration order, all distinct |
| `Flags.HasValue` | rmq2/channel.h:54-68 | two flag values share a bit exactly when they are the same flag; no flag value has a bit outside the enum |
| `Flags.CombineHas` | rmq2/channel.h:54-68 | an OR of flags has a flag's bit set exactly when that flag is in the list combined |
| `Flags.CombineNoStray` | rmq2/channel.h:54-68 | an OR of flags sets no bit that belongs to no flag |
| `Flags.DecodeHas` | rmq2/channel.h:54-68 | a flag is in the decoding of an OR of flags exactly when it was combined |
| `Flags.DecodeCombine` | rmq2/channel.h:54-68 | decoding an OR of flags gives back exactly the set of flags combined |
| `Flags.AcceptMaskMatchesDoc` | rmq2/channel.h:80-291 | each operation's numeric mask sets exactly the bits of the flags its documentation lists |
| `Flags.Acceptable` | rmq2/channel.h:80-291 | an acceptable mask has no stray bit; for `Get`, `Ack`, `Recover` and `DeleteExchange` it is 0 or the one documented flag |
| `Flags.AcceptableOnlyDocumented` | rmq2/channel.h:80-291 | an acceptable mask holds only documented flags and no stray bit |
| `Flags.DocumentedAcceptable` | rmq2/channel.h:80-291 | a mask holding only documented flags and no stray bit is acceptable |
| `Flags.AcceptableIff` | rmq2/channel.h:80-291 | a mask is acceptable for an operation if and only if all its flags are documented for it and it has no stray bit |
| `Flags.AcceptableCombine` | rmq2/channel.h:80-291 | an OR of flags is acceptable if and only if every flag combined is documented for the operation |
| `AmqpTable.ConstructUtf8Entry` | librabbitmq/amqp_table.h:42-43 | the entry holds the key given and a UTF-8 value holding the string given |
| `AmqpTable.ConstructTableEntry` | librabbitmq/amqp_table.h:45-46 | the entry holds the key given and a nested-table value holding the table given |
| `AmqpTable.ConstructBoolEntry` | librabbitmq/amqp_table.h:48-49 | the entry holds the key given and a boolean value that is true exactly when the `int` given is non-zero |
| `AmqpTable.GetEntryByKey` | librabbitmq/amqp_table.h:51-52 | a found position is in the table and holds the key, no earlier entry holds it, and `None` is returned exactly when no entry holds the key |
| `AmqpTable.LookupDetermined` | librabbitmq/amqp_table.h:51-52 | the first position holding the key is the one the lookup returns |
| `AmqpTable.FirstMatchWins` | librabbitmq/amqp_table.h:51-52 | of two entries with the same key the lookup returns the earlier |
| `AmqpTable.LookupStableUnderAppend` | librabbitmq/amqp_table.h:51-52 | appending entries does not change a lookup that already succeeds |
| `AmqpTable.LookupConstructedEntries` | librabbitmq/amqp_table.h:42-52 | an entry built by any constructor and appended for a new key is the one the lookup finds, holding the value given |
| `Envelopes.Envelope.Message` | rmq2/envelope.h:50 | returns the message the envelope holds |
| `Envelopes.Envelope.Exchange` | rmq2/envelope.h:51 | returns the exchange the message was published to |
| `Envelopes.Envelope.RoutingKey` | rmq2/envelope.h:52 | returns the routing key the message was published with |
| `Envelopes.Envelope.DeliveryTag` | rmq2/envelope.h:53 | returns the 64-bit delivery tag |
| `Envelopes.Envelope.Redelivered` | rmq2/envelope.h:54 | returns the redelivered flag |
| `Envelopes.AccessorsReturnStoredFields` | rmq2/envelope.h:50-62 | an envelope built from given fields returns each of them through its accessor |
| `Envelopes.AccessorsDetermineAllButConsumerTag` | rmq2/envelope.h:50-62 | envelopes agreeing on every accessor are equal exactly when their stored consumer tags are, since the tag has no accessor |
| `ChannelSpec.Validate` | rmq2/channel.h:80-291 | the flag check passes exactly when the mask holds only documented flags and no stray bit, and fails with `InvalidArgument` otherwise |
| `ChannelSpec.StatusOf` | rmq2/channel.h:84-86 | a broker answer gives `Ok` exactly when the broker accepted, and never `InvalidArgument` |
| `ChannelSpec.DeclareExchange` | rmq2/channel.h:75-86 | invalid flags give `InvalidArgument` with nothing sent; otherwise `exchange.declare` with the decoded bits is sent and the status is the broker's; a passive or failed declaration records no exchange, a successful active one records it |
| `ChannelSpec.DeleteExchange` | rmq2/channel.h:88-99 | the status is the flag check's alone, so an undeclared exchange is no error; with valid flags `exchange.delete` is sent and the exchange is no longer recorded |
| `ChannelSpec.BindExchange` | rmq2/channel.h:101-114 | `exchange.bind` with the destination, source, routing key and arguments is sent; the status is the broker's; nothing else changes |
| `ChannelSpec.UnbindExchange` | rmq2/channel.h:116-129 | `exchange.unbind` with the same arguments is sent; the status is the broker's; nothing else changes |
| `ChannelSpec.DeclareQueue` | rmq2/channel.h:131-149 | invalid flags give `InvalidArgument` with nothing sent; on success `info` holds the non-empty queue name and the counts the broker returns, so an empty name given is replaced by the broker's generated one; on error `info` is untouched |
| `ChannelSpec.DeleteQueue` | rmq2/channel.h:151-160 | invalid flags give `InvalidArgument`; otherwise `queue.delete` with the decoded bits is sent and on success the count is the broker's number of messages deleted |
| `ChannelSpec.BindQueue` | rmq2/channel.h:162-173 | `queue.bind` is sent; the status is the broker's; nothing else changes |
| `ChannelSpec.UnbindQueue` | rmq2/channel.h:175-186 | `queue.unbind` is sent; the status is the broker's; nothing else changes |
| `ChannelSpec.PurgeQueue` | rmq2/channel.h:188-195 | `queue.purge` is sent; on success the count is the broker's number of messages purged, on error it is untouched |
| `ChannelSpec.Publish` | rmq2/channel.h:197-211 | the status is the flag check's alone, since no broker acknowledgement is awaited; with valid flags `basic.publish` is sent with the mandatory and immediate bits |
| `ChannelSpec.AddPublishConfirm` | rmq2/channel.h:213-224 | a channel already in confirm mode is left as it was and the call succeeds; otherwise `confirm.select` is sent and the status is the broker's; afterwards the channel is in confirm mode exactly when the status is `Ok` |
| `ChannelSpec.Consume` | rmq2/channel.h:227-245 | invalid flags give `InvalidArgument`; otherwise `basic.consume` is sent and the status is the broker's; on success `tag_out` is the non-empty tag the broker returns, which is then registered; on error nothing is registered and `tag_out` is untouched |
| `ChannelSpec.CancelConsumer` | rmq2/channel.h:247-253 | `basic.cancel` is sent; on success the tag is no longer registered |
| `ChannelSpec.Get` | rmq2/channel.h:255-268 | invalid flags give `InvalidArgument`; on success `is_empty` holds exactly when the broker had no message, and then the envelope is the empty one with no message left; otherwise the envelope and count are the broker's |
| `ChannelSpec.Ack` | rmq2/channel.h:270-277 | the status is the flag check's; with valid flags `basic.ack` is sent with the delivery tag and the multiple bit |
| `ChannelSpec.Nack` | rmq2/channel.h:279-286 | the status is the flag check's; with valid flags `basic.nack` is sent with the multiple and requeue bits |
| `ChannelSpec.Recover` | rmq2/channel.h:288-294 | invalid flags give `InvalidArgument`; otherwise `basic.recover` with the requeue bit is sent and the status is the broker's |
| `ChannelSpec.Qos` | rmq2/channel.h:296-303 | `basic.qos` is sent with the 32-bit byte size and the 16-bit message count; the status is the broker's |
| `ChannelSpec.TransactionBegin` | rmq2/channel.h:305-310 | `tx.select` is sent; the status is the broker's |
| `ChannelSpec.TransactionCommit` | rmq2/channel.h:312-317 | `tx.commit` is sent; the status is the broker's |
| `ChannelSpec.TransactionRollback` | rmq2/channel.h:319-324 | `tx.rollback` is sent; the status is the broker's |
| `ChannelSpec.InitialValid` | rmq2/channel.h:214-224 | a fresh channel keeps the invariant, is not in confirm mode and has sent nothing |
| `ChannelSpec.NextStep` | rmq2/channel.h:75-324 | every operation only appends to the request log and keeps the invariant (no empty consumer tag; in confirm mode `confirm.select` was sent); only `AddPublishConfirm` outside confirm mode sends `confirm.select` |
| `ChannelSpec.RunPreservesValid` | rmq2/channel.h:75-324 | every sequence of operations keeps the invariant |
| `ChannelSpec.ConfirmModeNeedsSelect` | rmq2/channel.h:214-224 | from a fresh channel, confirm mode is reached only after `confirm.select` was sent |
| `ChannelSpec.NoSelectInConfirmMode` | rmq2/channel.h:214-224 | a channel in confirm mode never sends `confirm.select` again, whatever operations follow |
| `ChannelSpec.NextConfirmMode` | rmq2/channel.h:214-224 | no operation leaves confirm mode, and only `AddPublishConfirm` enters it |
| `ChannelSpec.ConfirmModeSticky` | rmq2/channel.h:214-224 | once in confirm mode a channel stays in it whatever operations follow |
| `ChannelSpec.ConfirmModeAfterAdd` | rmq2/channel.h:214-224 | after an `AddPublishConfirm` the broker accepts, anywhere in a sequence, the channel ends in confirm mode |
| `ChannelSpec.AddPublishConfirmIdempotent` | rmq2/channel.h:214-224 | once `AddPublishConfirm` succeeded, a repeated call succeeds and changes nothing, whatever the broker would answer |
| `ChannelSpec.DeleteUndeclaredExchange` | rmq2/channel.h:92-93 | deleting an exchange with valid flags is not an error, in particular one that was never declared |
| `ChannelSpec.DeleteExchangeIdempotent` | rmq2/channel.h:92-93 | deleting an exchange twice gives the same status and the same recorded exchanges as deleting it once |
| `ChannelSpec.SentOnlyGrows` | rmq2/channel.h:75-324 | requests are only appended: a later state's log extends an earlier one's |
| `Channels.HeaderExchangeIsNotStandard` | rmq2/channel.h:73 | `kHeaderExchange` is `header`, which names no AMQP 0-9-1 exchange type; `headers` does |
| `Channels.ExchangeTypesAreStandard` | rmq2/channel.h:70-73 | with `headers`, the four constants are the four standard exchange types, all distinct |
| `Channels.Channel.constructor` | rmq2/channel.h:52-53 | a new channel is in the initial state and keeps the invariant |
| `Channels.Channel.DeclareExchange` | rmq2/channel.h:75-86 | updates the channel as `ChannelSpec.DeclareExchange` describes and keeps the invariant |
| `Channels.Channel.DeleteExchange` | rmq2/channel.h:88-99 | updates the channel as `ChannelSpec.DeleteExchange` describes |
| `Channels.Channel.BindExchange` | rmq2/channel.h:101-114 | updates the channel as `ChannelSpec.BindExchange` describes |
| `Channels.Channel.UnbindExchange` | rmq2/channel.h:116-129 | updates the channel as `ChannelSpec.UnbindExchange` describes |
| `Channels.Channel.DeclareQueue` | rmq2/channel.h:136-149 | updates the channel and writes `info` as `ChannelSpec.DeclareQueue` describes |
| `Channels.Channel.DeleteQueue` | rmq2/channel.h:151-160 | updates the channel and writes the count as `ChannelSpec.DeleteQueue` describes |
| `Channels.Channel.BindQueue` | rmq2/channel.h:162-173 | updates the channel as `ChannelSpec.BindQueue` describes |
| `Channels.Channel.UnbindQueue` | rmq2/channel.h:175-186 | updates the channel as `ChannelSpec.UnbindQueue` describes |
| `Channels.Channel.PurgeQueue` | rmq2/channel.h:188-195 | updates the channel and writes the count as `ChannelSpec.PurgeQueue` describes |
| `Channels.Channel.Publish` | rmq2/channel.h:197-211 | updates the channel as `ChannelSpec.Publish` describes |
| `Channels.Channel.AddPublishConfirm` | rmq2/channel.h:214-224 | updates the channel as `ChannelSpec.AddPublishConfirm` describes; the channel is in confirm mode exactly when the status is `Ok` |
| `Channels.Channel.Consume` | rmq2/channel.h:228-245 | updates the channel and writes `tag_out` as `ChannelSpec.Consume` describes |
| `Channels.Channel.CancelConsumer` | rmq2/channel.h:247-253 | updates the channel as `ChannelSpec.CancelConsumer` describes |
| `Channels.Channel.Get` | rmq2/channel.h:260-268 | updates the channel and writes `result` as `ChannelSpec.Get` describes |
| `Channels.Channel.Ack` | rmq2/channel.h:270-277 | updates the channel as `ChannelSpec.Ack` describes |
| `Channels.Channel.Nack` | rmq2/channel.h:279-286 | updates the channel as `ChannelSpec.Nack` describes |
| `Channels.Channel.Recover` | rmq2/channel.h:288-294 | updates the channel as `ChannelSpec.Recover` describes |
| `Channels.Channel.Qos` | rmq2/channel.h:296-303 | updates the channel as `ChannelSpec.Qos` describes |
| `Channels.Channel.TransactionBegin` | rmq2/channel.h:305-310 | updates the channel as `ChannelSpec.TransactionBegin` describes |
| `Channels.Channel.TransactionCommit` | rmq2/channel.h:312-317 | updates the channel as `ChannelSpec.TransactionCommit` describes |
| `Channels.Channel.TransactionRollback` | rmq2/channel.h:319-324 | updates the channel as `ChannelSpec.TransactionRollback` describes |

## Left out

- The broker itself. Its answers are parameters. What it does with `kIfUnused`, `kIfEmpty`, the prefetch limits of `Qos` and transactions is not modelled, so no transaction state rules exist here.
- The network, framing and the wire encoding of field tables. `amqp.h` and `amqp_private.h` are not part of this model. A field value has only the three kinds the constructors build, and keys are `string`s rather than `amqp_bytes_t`.
- The `Consumer` and `PublishConfirm` callbacks and the thread a consumer runs on. A callback is foreign code and the threading is concurrency. The model keeps only their effect on the channel: a registered tag, and confirm mode being on.
- `Status` and `Message`. `rmq2/status.h` and `rmq2/message.h` are not part of this model. `Status` is `Ok` or an error kind, and `Message` is an opaque payload.
- ChannelSpec.DeleteExchange: never reports a broker error. The comment promises only that an undeclared exchange is no error. A refusal for another reason, such as `kIfUnused` with bindings present, is left out with the broker.
- ChannelSpec.BrokerName: the model assumes the broker never reports an empty queue name or consumer tag. "No registered tag is ever empty" rests on that assumption.
- A refusal does not close the model's channel. AMQP 0-9-1 refuses a synchronous method by closing the channel or the connection, after which the real channel fails every call or is reopened fresh. Here the channel stays open, keeps its confirm mode, registered tags and exchanges, and later calls go on sending. So `ConfirmModeSticky`, `NoSelectInConfirmMode`, `ConfirmModeAfterAdd` and the registered tags describe a channel the broker never closed. `Publish`, `Ack` and `Nack` never report a closed channel.
- The broker's refusals, such as a `confirm.select` on a channel in transaction mode, come only through its answer. No rule linking transactions and confirm mode is modelled.
- `rmq2::Table` is only forward-declared (rmq2/channel.h:50). Its definition is not part of this model, and the model uses `AmqpTable.Table` for it.
- Out-parameters are returned unchanged on every error. The header does not say what happens to them.
- Envelopes.EmptyEnvelope: fixes the delivery tag to 0 and the redelivered flag to false. In C++ those members of a default-constructed `Envelope` are left uninitialised.
- AmqpTable.GetEntryByKey: returns a position instead of a pointer into the table. A pointer's aliasing of the table's storage is not modelled.
- Flags that C++ cannot form from the enum are plain 32-bit masks here. A mask with a bit outside the thirteen flags is refused like an undocumented flag.

## Findings

| source | as written | input that shows it | evidently intended | confidence | as-written member | corrected member |
|---|---|---|---|---|---|---|
| rmq2/channel.h:73 | `kHeaderExchange` is `"header"` | `DeclareExchange(name, kHeaderExchange, 0, args)`: AMQP 0-9-1 defines no exchange type `header` | `"headers"`, the headers exchange type of section 3.1.3 of the AMQP 0-9-1 specification | high; not executed | `Channels.HeaderExchangeIsNotStandard` | `Channels.ExchangeTypesAreStandard` |
