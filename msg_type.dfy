/** Message kinds, their bit masks and the message record handed to handlers.
    The enumeration, `conv2bitmask` and `kMsgMaskAll` come from `ym/MsgType.h`,
    which is not part of this model: the bit values below are an assumption,
    and what the rest of the model relies on is only that each kind has one bit
    of its own (`BitIsOneHot`, `BitsDisjoint`) and that `MaskAll` holds them all. */
module MsgTypes {

  /** The closed set of message kinds. */
  datatype MsgType = Error | Warning | Info | Failure | Debug

  /** A set of message kinds, one bit per kind. */
  type MsgBitMask = bv32

  /** One message as it is passed from the manager to its handlers:
      where it was emitted, its kind, a short label and the body. */
  datatype Message = Message(srcFile: string, srcLine: int, msgType: MsgType, msgLabel: string, body: string)

  /** The bit that stands for one message kind (`conv2bitmask`). */
  function Conv2BitMask(t: MsgType): (bit: MsgBitMask)
    ensures bit != 0 && bit & (bit - 1) == 0
  {
    match t
    case Error => 1
    case Warning => 2
    case Info => 4
    case Failure => 8
    case Debug => 16
  }

  /** The mask that accepts every kind (`kMsgMaskAll`), the handlers' default. */
  const MaskAll: MsgBitMask := 31

  /** `event_proc`'s gate: the mask has the kind's bit set. */
  predicate Accepts(mask: MsgBitMask, t: MsgType)
  {
    mask & Conv2BitMask(t) != 0
  }

  /** The mask `add_mask(t)` leaves (`mMask |= conv2bitmask(t)`): the kind's bit
      is set and every other bit is as it was. */
  function Added(mask: MsgBitMask, t: MsgType): (r: MsgBitMask)
    ensures r & Conv2BitMask(t) == Conv2BitMask(t)
    ensures r & !Conv2BitMask(t) == mask & !Conv2BitMask(t)
  {
    mask | Conv2BitMask(t)
  }

  /** The mask `delete_mask(t)` leaves (`mMask &= ~conv2bitmask(t)`): the kind's
      bit is clear and every other bit is as it was. */
  function Deleted(mask: MsgBitMask, t: MsgType): (r: MsgBitMask)
    ensures r & Conv2BitMask(t) == 0
    ensures r & !Conv2BitMask(t) == mask & !Conv2BitMask(t)
  {
    mask & !Conv2BitMask(t)
  }

  /** The mask accepting exactly one kind. */
  function Only(t: MsgType): (mask: MsgBitMask)
    ensures forall u :: Accepts(mask, u) <==> u == t
  {
    BitsDisjointAll(t);
    Conv2BitMask(t)
  }

  /** Distinct kinds have disjoint bits. */
  lemma BitsDisjoint(t: MsgType, u: MsgType)
    requires t != u
    ensures Conv2BitMask(t) & Conv2BitMask(u) == 0
  {
  }

  lemma BitsDisjointAll(t: MsgType)
    ensures forall u :: u != t ==> Conv2BitMask(t) & Conv2BitMask(u) == 0
  {
    forall u | u != t
      ensures Conv2BitMask(t) & Conv2BitMask(u) == 0
    {
      BitsDisjoint(t, u);
    }
  }

  /** The default mask accepts every kind. */
  lemma MaskAllAcceptsEvery(t: MsgType)
    ensures Accepts(MaskAll, t)
  {
  }

  /** After `add_mask(t)` the mask accepts `t` and still accepts exactly the
      other kinds it accepted before. */
  lemma GateAfterAdd(mask: MsgBitMask, t: MsgType, u: MsgType)
    ensures Accepts(Added(mask, t), u) <==> u == t || Accepts(mask, u)
  {
    if u != t {
      BitsDisjoint(t, u);
    }
  }

  /** After `delete_mask(t)` the mask rejects `t` and still accepts exactly the
      other kinds it accepted before. */
  lemma GateAfterDelete(mask: MsgBitMask, t: MsgType, u: MsgType)
    ensures Accepts(Deleted(mask, t), u) <==> u != t && Accepts(mask, u)
  {
    if u != t {
      BitsDisjoint(t, u);
    }
  }

  /** `add_mask(t)` twice is `add_mask(t)` once. */
  lemma AddIdempotent(mask: MsgBitMask, t: MsgType)
    ensures Added(Added(mask, t), t) == Added(mask, t)
  {
    match t
    case Error =>
    case Warning =>
    case Info =>
    case Failure =>
    case Debug =>
  }

  /** `delete_mask(t)` twice is `delete_mask(t)` once. */
  lemma DeleteIdempotent(mask: MsgBitMask, t: MsgType)
    ensures Deleted(Deleted(mask, t), t) == Deleted(mask, t)
  {
  }

  /** `delete_mask(t)` after `add_mask(t)` is `delete_mask(t)` alone. */
  lemma DeleteAfterAdd(mask: MsgBitMask, t: MsgType)
    ensures Deleted(Added(mask, t), t) == Deleted(mask, t)
  {
  }

  /** `add_mask(t)` after `delete_mask(t)` is `add_mask(t)` alone. */
  lemma AddAfterDelete(mask: MsgBitMask, t: MsgType)
    ensures Added(Deleted(mask, t), t) == Added(mask, t)
  {
    match t
    case Error =>
    case Warning =>
    case Info =>
    case Failure =>
    case Debug =>
  }
}
