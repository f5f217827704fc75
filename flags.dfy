/**
 * The `Channel::Flags` bitmask of rmq2 and, for every channel operation that
 * takes a `flags` argument, the flags its documentation accepts.
 *
 * A flags argument is a 32-bit mask (the C++ enum's underlying int) formed by
 * OR-ing single-bit flag values. A flag is identified here by the position of
 * its bit; its enum value is `1 << position`.
 */
module Flags {

  type Mask = bv32

  /** A member of `Channel::Flags`, given by the position of its bit. */
  type Flag = b: bv32 | b < 13

  const Passive: Flag := 0
  const Durable: Flag := 1
  const AutoDelete: Flag := 2
  const Internal: Flag := 3
  const Exclusive: Flag := 4
  const IfUnused: Flag := 5
  const IfEmpty: Flag := 6
  const Mandatory: Flag := 7
  const Immediate: Flag := 8
  const NoLocal: Flag := 9
  const NoAck: Flag := 10
  const Multiple: Flag := 11
  const Requeue: Flag := 12

  /** Every flag, in declaration order. */
  const AllFlags: seq<Flag> :=
    [Passive, Durable, AutoDelete, Internal, Exclusive, IfUnused, IfEmpty,
     Mandatory, Immediate, NoLocal, NoAck, Multiple, Requeue]

  /** The numeric value of a flag: the power of two with the flag's bit. */
  function Value(f: Flag): Mask
  {
    1 << f
  }

  /** The bits that belong to some flag: 1 | 2 | ... | 4096. */
  const KnownBits: Mask := 8191

  /** The enum's thirteen values are 1, 2, 4, ..., 4096 in declaration order. */
  lemma EnumValues()
    ensures Value(Passive) == 1 && Value(Durable) == 2 && Value(AutoDelete) == 4
    ensures Value(Internal) == 8 && Value(Exclusive) == 16 && Value(IfUnused) == 32
    ensures Value(IfEmpty) == 64 && Value(Mandatory) == 128 && Value(Immediate) == 256
    ensures Value(NoLocal) == 512 && Value(NoAck) == 1024 && Value(Multiple) == 2048
    ensures Value(Requeue) == 4096
    ensures |AllFlags| == 13 && forall i, j :: 0 <= i < j < 13 ==> AllFlags[i] != AllFlags[j]
  {
  }

  /** Every flag is listed in `AllFlags`. */
  lemma InAllFlags(f: Flag)
    ensures f in AllFlags
  {
  }

  /** Whether flag `f` is set in `m`. */
  predicate Has(m: Mask, f: Flag) {
    m & Value(f) != 0
  }

  /** Whether `m` sets only bits that belong to some flag. */
  predicate NoStrayBits(m: Mask) {
    m & !KnownBits == 0
  }

  /** Two flag values share a bit exactly when they are the same flag; none has a stray bit. */
  lemma HasValue(g: Flag, f: Flag)
    ensures Has(Value(g), f) <==> g == f
    ensures NoStrayBits(Value(g))
  {
  }

  /** A bit is set in an OR exactly when it is set in one of the operands. */
  lemma OrBit(a: Mask, b: Mask, v: Mask)
    ensures ((a | b) & v != 0) <==> (a & v != 0 || b & v != 0)
  {
  }

  lemma OrNoStray(a: Mask, b: Mask)
    ensures NoStrayBits(a | b) <==> NoStrayBits(a) && NoStrayBits(b)
  {
  }

  /** The OR of a list of flags, as a caller writes `kPassive | kDurable`. */
  function Combine(fs: seq<Flag>): Mask
  {
    if fs == [] then 0 else Value(fs[0]) | Combine(fs[1..])
  }

  /** The set of flags a mask holds; bits outside `KnownBits` are not flags. */
  function Decode(m: Mask): set<Flag>
  {
    set f | f in AllFlags && Has(m, f)
  }

  /** An OR of flags sets the bit of a flag exactly when that flag was combined. */
  lemma {:induction false} CombineHas(fs: seq<Flag>, f: Flag)
    ensures Has(Combine(fs), f) <==> f in fs
  {
    if fs != [] {
      CombineHas(fs[1..], f);
      OrBit(Value(fs[0]), Combine(fs[1..]), Value(f));
      HasValue(fs[0], f);
      assert f in fs <==> f == fs[0] || f in fs[1..];
    }
  }

  /** An OR of flags sets no bit that is not a flag. */
  lemma {:induction false} CombineNoStray(fs: seq<Flag>)
    ensures NoStrayBits(Combine(fs))
  {
    if fs != [] {
      CombineNoStray(fs[1..]);
      HasValue(fs[0], fs[0]);
      OrNoStray(Value(fs[0]), Combine(fs[1..]));
    }
  }

  /** A flag is in the decoding of an OR of flags exactly when it was combined. */
  lemma DecodeHas(fs: seq<Flag>, f: Flag)
    ensures f in Decode(Combine(fs)) <==> f in fs
  {
    CombineHas(fs, f);
    InAllFlags(f);
  }

  /** Any OR of flags decodes back to exactly the set of flags combined. */
  lemma DecodeCombine(fs: seq<Flag>)
    ensures Decode(Combine(fs)) == set f | f in fs
    ensures NoStrayBits(Combine(fs))
  {
    forall f: Flag ensures f in Decode(Combine(fs)) <==> f in fs {
      DecodeHas(fs, f);
    }
    CombineNoStray(fs);
  }

  /** The channel operations that take a `flags` argument. */
  datatype Operation =
    | DeclareExchange | DeleteExchange | DeclareQueue | DeleteQueue
    | Publish | Consume | Get | Ack | Nack | Recover

  /** The acceptable flags, as each operation's documentation lists them. */
  function Accepted(op: Operation): set<Flag>
  {
    match op
    case DeclareExchange => {Passive, Durable, AutoDelete, Internal}
    case DeleteExchange => {IfUnused}
    case DeclareQueue => {Passive, Durable, Exclusive, AutoDelete}
    case DeleteQueue => {IfUnused, IfEmpty}
    case Publish => {Immediate, Mandatory}
    case Consume => {NoLocal, NoAck, Exclusive}
    case Get => {NoAck}
    case Ack => {Multiple}
    case Nack => {Multiple, Requeue}
    case Recover => {Requeue}
  }

  /** The acceptable flags of an operation as one numeric mask. */
  function AcceptMask(op: Operation): Mask
  {
    match op
    case DeclareExchange => 15
    case DeleteExchange => 32
    case DeclareQueue => 23
    case DeleteQueue => 96
    case Publish => 384
    case Consume => 1552
    case Get => 1024
    case Ack => 2048
    case Nack => 6144
    case Recover => 4096
  }

  /** The numeric mask of an operation sets exactly the bits of the flags its documentation lists. */
  lemma AcceptMaskMatchesDoc(op: Operation, f: Flag)
    ensures Has(AcceptMask(op), f) <==> f in Accepted(op)
    ensures NoStrayBits(AcceptMask(op))
  {
  }

  /**
   * The flag check: a mask is acceptable for an operation when it sets no
   * bit outside the operation's mask. An acceptable mask holds no stray bit
   * and, for the operations with a single acceptable flag, is 0 or that flag.
   */
  predicate Acceptable(op: Operation, m: Mask)
    ensures Acceptable(op, m) ==> NoStrayBits(m)
    ensures Acceptable(op, m) && op.Get? ==> m == 0 || m == Value(NoAck)
    ensures Acceptable(op, m) && op.Ack? ==> m == 0 || m == Value(Multiple)
    ensures Acceptable(op, m) && op.Recover? ==> m == 0 || m == Value(Requeue)
    ensures Acceptable(op, m) && op.DeleteExchange? ==> m == 0 || m == Value(IfUnused)
  {
    m & !AcceptMask(op) == 0
  }

  lemma WithinBit(m: Mask, a: Mask, v: Mask)
    requires m & !a == 0
    ensures m & v != 0 ==> a & v != 0
  {
  }

  lemma WithinNoStray(m: Mask, a: Mask)
    requires m & !a == 0 && NoStrayBits(a)
    ensures NoStrayBits(m)
  {
  }

  /** A mask without stray bits whose every flag is also set in `a` sets no bit outside `a`. */
  lemma BitsWithin(m: Mask, a: Mask)
    requires NoStrayBits(m)
    requires Has(m, Passive) ==> Has(a, Passive)
    requires Has(m, Durable) ==> Has(a, Durable)
    requires Has(m, AutoDelete) ==> Has(a, AutoDelete)
    requires Has(m, Internal) ==> Has(a, Internal)
    requires Has(m, Exclusive) ==> Has(a, Exclusive)
    requires Has(m, IfUnused) ==> Has(a, IfUnused)
    requires Has(m, IfEmpty) ==> Has(a, IfEmpty)
    requires Has(m, Mandatory) ==> Has(a, Mandatory)
    requires Has(m, Immediate) ==> Has(a, Immediate)
    requires Has(m, NoLocal) ==> Has(a, NoLocal)
    requires Has(m, NoAck) ==> Has(a, NoAck)
    requires Has(m, Multiple) ==> Has(a, Multiple)
    requires Has(m, Requeue) ==> Has(a, Requeue)
    ensures m & !a == 0
  {
  }

  /** An acceptable mask holds only documented flags and no stray bit. */
  lemma AcceptableOnlyDocumented(op: Operation, m: Mask)
    requires Acceptable(op, m)
    ensures Decode(m) <= Accepted(op) && NoStrayBits(m)
  {
    var a := AcceptMask(op);
    forall f | f in Decode(m) ensures f in Accepted(op) {
      WithinBit(m, a, Value(f));
      AcceptMaskMatchesDoc(op, f);
    }
    AcceptMaskMatchesDoc(op, Passive);
    WithinNoStray(m, a);
  }

  /** A documented flag that a mask holds is set in the operation's mask. */
  lemma FlagWithin(op: Operation, m: Mask, f: Flag)
    requires Decode(m) <= Accepted(op)
    ensures Has(m, f) ==> Has(AcceptMask(op), f)
  {
    if Has(m, f) {
      InAllFlags(f);
      assert f in Decode(m);
      AcceptMaskMatchesDoc(op, f);
    }
  }

  /** A mask that holds only documented flags and no stray bit is acceptable. */
  lemma DocumentedAcceptable(op: Operation, m: Mask)
    requires Decode(m) <= Accepted(op) && NoStrayBits(m)
    ensures Acceptable(op, m)
  {
    FlagWithin(op, m, Passive);
    FlagWithin(op, m, Durable);
    FlagWithin(op, m, AutoDelete);
    FlagWithin(op, m, Internal);
    FlagWithin(op, m, Exclusive);
    FlagWithin(op, m, IfUnused);
    FlagWithin(op, m, IfEmpty);
    FlagWithin(op, m, Mandatory);
    FlagWithin(op, m, Immediate);
    FlagWithin(op, m, NoLocal);
    FlagWithin(op, m, NoAck);
    FlagWithin(op, m, Multiple);
    FlagWithin(op, m, Requeue);
    BitsWithin(m, AcceptMask(op));
  }

  /**
   * A mask is acceptable exactly when every flag it holds is one the
   * operation documents and it sets no bit that is not a flag.
   */
  lemma AcceptableIff(op: Operation, m: Mask)
    ensures Acceptable(op, m) <==> Decode(m) <= Accepted(op) && NoStrayBits(m)
  {
    if Acceptable(op, m) {
      AcceptableOnlyDocumented(op, m);
    }
    if Decode(m) <= Accepted(op) && NoStrayBits(m) {
      DocumentedAcceptable(op, m);
    }
  }

  /** An OR of flags is acceptable exactly when each flag combined is acceptable. */
  lemma AcceptableCombine(op: Operation, fs: seq<Flag>)
    ensures Acceptable(op, Combine(fs)) <==> forall i :: 0 <= i < |fs| ==> fs[i] in Accepted(op)
  {
    AcceptableIff(op, Combine(fs));
    DecodeCombine(fs);
  }
}
