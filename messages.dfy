/**
 * `rmq2::Message`, whose definition is not part of this model: an opaque
 * value standing for a payload with its properties.
 */
module Messages {

  datatype Message = Message(body: seq<bv8>)

  /** A default-constructed message. */
  const EmptyMessage: Message := Message([])
}
