/** Message descriptors and messages of nanopb (pb.h), with the wire format of a message. */
module PbTypes {
  import opened Coding
  import opened Keys

  /** PB_LTYPE with its data_size: numbers have a width in bytes, bytes and strings a
      capacity, submessages a descriptor. */
  datatype LType =
    | Bool | Int(width: nat) | UInt(width: nat) | SInt(width: nat) | Fixed32 | Fixed64
    | Bytes(capacity: nat) | Text(capacity: nat) | Message(fields: seq<Field>) | FixedBytes(length: nat)

  /** PB_HTYPE; Implicit is an optional field without has_ flag (proto3). */
  datatype Rule = Required | Optional | Implicit | Repeated(max: uint32) | Oneof

  /** pb_field_t.  `slot` is where the field's data is in the message: its own place, or
      the union it shares with other Oneof fields.  `initial` is its default value. */
  datatype Field = Field(tag: uint32, kind: LType, rule: Rule, slot: nat, initial: Value)

  datatype Value = BoolV(b: bool) | NumV(n: int) | BytesV(bytes: seq<byte>) | MessageV(slots: seq<Slot>)

  /** The data of a field: a value; a value with a has_ flag; an array up to its count; a
      union with its which_ tag, if that is not zero. */
  datatype Slot = Plain(v: Value) | Opt(has: bool, v: Value) | Array(items: seq<Value>) | Union(which: Option<(nat, Value)>)

  // ------------------------------------------------------------- wire types

  const WT_VARINT := 0
  const WT_64BIT := 1
  const WT_STRING := 2
  const WT_32BIT := 5

  function WireType(k: LType): nat {
    match k
    case Bool | Int(_) | UInt(_) | SInt(_) => WT_VARINT
    case Fixed32 => WT_32BIT
    case Fixed64 => WT_64BIT
    case _ => WT_STRING
  }

  predicate Packable(k: LType) {
    k.Bool? || k.Int? || k.UInt? || k.SInt? || k.Fixed32? || k.Fixed64?
  }

  // ----------------------------------------------------------------- numbers

  /** The two's complement of a signed number in 64 bits. */
  function Unsigned(n: int): nat
    requires -UINT64 <= n < UINT64
  {
    if n < 0 then n + UINT64 else n
  }

  function ZigZag(n: int): nat {
    if n < 0 then -2 * n - 1 else 2 * n
  }

  /** Does the number fit the field? */
  predicate NumberOk(k: LType, n: int) {
    match k
    case Int(w) => w in {1, 2, 4, 8} && -(Pow256(w) as int) <= 2 * n < Pow256(w)
    case SInt(w) => w in {1, 2, 4, 8} && -(Pow256(w) as int) <= 2 * n < Pow256(w)
    case UInt(w) => w in {1, 2, 4, 8} && 0 <= n < Pow256(w)
    case Fixed32 => 0 <= n < UINT32
    case Fixed64 => 0 <= n < UINT64
    case _ => false
  }

  function NumberBytes(k: LType, n: int): seq<byte>
    requires NumberOk(k, n)
  {
    Pow256Values();
    match k
    case Int(_) => Varint(Unsigned(n))
    case UInt(_) => Varint(n)
    case SInt(_) => Varint(ZigZag(n))
    case Fixed32 => LittleEndian(n, 4)
    case Fixed64 => LittleEndian(n, 8)
  }

  // ---------------------------------------------------------------- messages

  /** The value is one the C type of the field can hold. */
  ghost predicate Typed(k: LType, v: Value)
    decreases k, 0
  {
    match k
    case Bool => v.BoolV?
    case Bytes(_) => v.BytesV?
    case Text(c) => v.BytesV? && |v.bytes| <= c && 0 !in v.bytes
    case FixedBytes(l) => v.BytesV? && |v.bytes| == l
    case Message(fs) => v.MessageV? && TypedMessage(fs, v.slots, 0)
    case _ => v.NumV? && NumberOk(k, v.n)
  }

  ghost predicate TypedItems(k: LType, items: seq<Value>)
    decreases k, 1
  {
    forall j :: 0 <= j < |items| ==> Typed(k, items[j])
  }

  ghost predicate TypedSlot(f: Field, s: Slot)
    decreases f, 0
  {
    match f.rule
    case Required => s.Plain? && Typed(f.kind, s.v)
    case Implicit => s.Plain? && Typed(f.kind, s.v)
    case Optional => s.Opt? && Typed(f.kind, s.v)
    case Repeated(_) => s.Array? && TypedItems(f.kind, s.items)
    case Oneof => s.Union? && (s.which.Some? && s.which.value.0 == f.tag ==> Typed(f.kind, s.which.value.1))
  }

  /** The fields from i on find their data in the message. */
  ghost predicate TypedMessage(fs: seq<Field>, m: seq<Slot>, i: nat)
    decreases fs, |fs| - i
  {
    i < |fs| ==> fs[i].slot < |m| && TypedSlot(fs[i], m[fs[i].slot]) && TypedMessage(fs, m, i + 1)
  }

  /** Proto3 leaves out a field whose value is zero (pb_check_proto3_default_value). */
  predicate ZeroValue(k: LType, v: Value)
    decreases k, 0
  {
    match v
    case BoolV(b) => !b
    case NumV(n) => n == 0
    case BytesV(bytes) => if k.FixedBytes? then k.length == 0 else bytes == []
    case MessageV(slots) => k.Message? && ZeroMessage(k.fields, slots, 0)
  }

  predicate ZeroField(f: Field, s: Slot)
    decreases f, 0
  {
    match s
    case Array(items) => items == []
    case Union(which) => which == None
    case Opt(has, _) => !has
    case Plain(v) => f.rule != Required && ZeroValue(f.kind, v)
  }

  predicate ZeroMessage(fs: seq<Field>, m: seq<Slot>, i: nat)
    decreases fs, |fs| - i
  {
    i < |fs| ==> fs[i].slot < |m| && ZeroField(fs[i], m[fs[i].slot]) && ZeroMessage(fs, m, i + 1)
  }

  // ------------------------------------------------------------- wire format

  function FieldTag(wireType: nat, tag: nat): seq<byte> {
    Varint(8 * tag + wireType)
  }

  function Delimited(b: seq<byte>): seq<byte> {
    Varint(|b|) + b
  }

  /** A value without its tag. */
  function Payload(k: LType, v: Value): seq<byte>
    decreases k, 0
  {
    match v
    case BoolV(b) => Varint(if b then 1 else 0)
    case NumV(n) => if NumberOk(k, n) then NumberBytes(k, n) else []
    case BytesV(bytes) => Delimited(bytes)
    case MessageV(slots) => if k.Message? then Delimited(MessageBytes(k.fields, slots, 0)) else []
  }

  /** Packed values from i on, one after the other. */
  function Packed(k: LType, items: seq<Value>, i: nat): seq<byte>
    decreases k, 1, |items| - i
  {
    if i >= |items| then [] else Payload(k, items[i]) + Packed(k, items, i + 1)
  }

  function TaggedValue(f: Field, v: Value): seq<byte>
    decreases f, 0, 0
  {
    FieldTag(WireType(f.kind), f.tag) + Payload(f.kind, v)
  }

  function TaggedValues(f: Field, items: seq<Value>, i: nat): seq<byte>
    decreases f, 1, |items| - i
  {
    if i >= |items| then [] else TaggedValue(f, items[i]) + TaggedValues(f, items, i + 1)
  }

  /** A field with its tag, or nothing. */
  function FieldBytes(f: Field, s: Slot): seq<byte>
    decreases f, 2
  {
    match s
    case Plain(v) => if f.rule == Implicit && ZeroValue(f.kind, v) then [] else TaggedValue(f, v)
    case Opt(has, v) => if has then TaggedValue(f, v) else []
    case Array(items) =>
      if items == [] then []
      else if Packable(f.kind) then FieldTag(WT_STRING, f.tag) + Delimited(Packed(f.kind, items, 0))
      else TaggedValues(f, items, 0)
    case Union(which) => if which.Some? && which.value.0 == f.tag then TaggedValue(f, which.value.1) else []
  }

  /** The fields from i on. */
  function MessageBytes(fs: seq<Field>, m: seq<Slot>, i: nat): seq<byte>
    decreases fs, |fs| - i
  {
    if i >= |fs| then []
    else (if fs[i].slot < |m| then FieldBytes(fs[i], m[fs[i].slot]) else []) + MessageBytes(fs, m, i + 1)
  }
}
