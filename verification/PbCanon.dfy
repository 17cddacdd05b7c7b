/** What decoding an encoded message gives: default values where nothing was written. */
module PbCanon {
  import opened Keys
  import opened PbTypes

  // ---------------------------------------------------------------- defaults

  /** The number of places in the struct. */
  function SlotCount(fs: seq<Field>, i: nat): (n: nat)
    requires i <= |fs|
    ensures forall j :: 0 <= j < i ==> fs[j].slot < n
  {
    if i == 0 then 0
    else
      var n := SlotCount(fs, i - 1);
      if fs[i - 1].slot < n then n else fs[i - 1].slot + 1
  }

  function DefaultValue(f: Field): Value
    decreases f, 0
  {
    if f.kind.Message? then MessageV(Defaults(f.kind.fields, |f.kind.fields|)) else f.initial
  }

  /** pb_field_set_to_default */
  function DefaultSlot(f: Field): Slot
    decreases f, 1
  {
    match f.rule
    case Required | Implicit => Plain(DefaultValue(f))
    case Optional => Opt(false, DefaultValue(f))
    case Repeated(_) => Array([])
    case Oneof => Union(None)
  }

  /** pb_message_set_to_defaults, for the first i fields. */
  function Defaults(fs: seq<Field>, i: nat): (m: seq<Slot>)
    requires i <= |fs|
    ensures |m| == SlotCount(fs, |fs|)
    decreases fs, i
  {
    if i == 0 then seq(SlotCount(fs, |fs|), _ => Union(None))
    else
      var m := Defaults(fs, i - 1);
      m[fs[i - 1].slot := DefaultSlot(fs[i - 1])]
  }

  // ---------------------------------------------------------- after decoding

  function CanonValue(k: LType, v: Value): Value
    decreases k, 0
  {
    if k.Message? && v.MessageV? then MessageV(Filled(k.fields, v.slots, |k.fields|)) else v
  }

  function CanonItems(k: LType, items: seq<Value>, n: nat): (c: seq<Value>)
    requires n <= |items|
    ensures |c| == n
    decreases k, 1, n
  {
    if n == 0 then [] else CanonItems(k, items, n - 1) + [CanonValue(k, items[n - 1])]
  }

  /** Is anything written for the field? */
  predicate Written(f: Field, s: Slot) {
    match s
    case Plain(v) => !(f.rule == Implicit && ZeroValue(f.kind, v))
    case Opt(has, _) => has
    case Array(items) => items != []
    case Union(which) => which.Some? && which.value.0 == f.tag
  }

  /** What a written field decodes to. */
  function CanonSlot(f: Field, s: Slot): Slot
    decreases f, 0
  {
    match s
    case Plain(v) => Plain(CanonValue(f.kind, v))
    case Opt(has, v) => Opt(has, CanonValue(f.kind, v))
    case Array(items) => Array(CanonItems(f.kind, items, |items|))
    case Union(which) => if which.Some? then Union(Some((which.value.0, CanonValue(f.kind, which.value.1)))) else s
  }

  /** The message after the first i fields have been decoded into defaults. */
  function Filled(fs: seq<Field>, m: seq<Slot>, i: nat): (d: seq<Slot>)
    requires i <= |fs|
    ensures |d| == SlotCount(fs, |fs|)
    decreases fs, i
  {
    if i == 0 then Defaults(fs, |fs|)
    else
      var d, f := Filled(fs, m, i - 1), fs[i - 1];
      if f.slot < |m| && Written(f, m[f.slot]) then d[f.slot := CanonSlot(f, m[f.slot])] else d
  }

  // -------------------------------------------------------------- descriptors

  /** Field numbers are distinct and within the protocol's range; every field has a place of
      its own in the struct, except that the fields of a union share theirs; a field
      that is left out when it is zero defaults to zero; submessages likewise. */
  ghost predicate DescriptorOk(fs: seq<Field>)
    decreases fs, 0
  {
    && (forall i {:trigger FieldOk(fs[i])} :: 0 <= i < |fs| ==> FieldOk(fs[i]))
    && (forall i, j {:trigger Apart(fs[i], fs[j])} :: 0 <= i < j < |fs| ==> Apart(fs[i], fs[j]))
  }

  ghost predicate FieldOk(f: Field)
    decreases f, 0
  {
    && 1 <= f.tag < 0x2000_0000
    && (f.kind.Message? ==> DescriptorOk(f.kind.fields))
    && (f.rule == Implicit && MayBeZero(f.kind) ==> ZeroValue(f.kind, f.initial) && Typed(f.kind, f.initial))
  }

  /** Are there values that pb_check_proto3_default_value leaves out?  Bytes of a fixed
      length are always written. */
  predicate MayBeZero(k: LType) {
    !k.Message? && !(k.FixedBytes? && k.length > 0)
  }

  ghost predicate Apart(a: Field, b: Field) {
    a.tag != b.tag && (a.slot == b.slot ==> a.rule == Oneof && b.rule == Oneof)
  }

  /** How many of the first i fields are required. */
  function RequiredCount(fs: seq<Field>, i: nat): nat
    requires i <= |fs|
  {
    if i == 0 then 0 else RequiredCount(fs, i - 1) + if fs[i - 1].rule == Required then 1 else 0
  }

  /** What the decoder can take back: an array within its bounds, a string with room for
      its terminating zero, in the fields that are present; a message of as many slots as
      its descriptor has. */
  ghost predicate Decodable(k: LType, v: Value)
    decreases k, 0
  {
    match (k, v)
    case (Bytes(c), BytesV(bytes)) => |bytes| <= c
    case (Text(c), BytesV(bytes)) => |bytes| < c
    case (Message(fs), MessageV(slots)) => DecodableMessage(fs, slots, 0)
    case _ => true
  }

  ghost predicate DecodableItems(k: LType, items: seq<Value>)
    decreases k, 1
  {
    forall j :: 0 <= j < |items| ==> Decodable(k, items[j])
  }

  ghost predicate DecodableSlot(f: Field, s: Slot)
    decreases f, 0
  {
    match s
    case Plain(v) => Written(f, s) ==> Decodable(f.kind, v)
    case Opt(has, v) => has ==> Decodable(f.kind, v)
    case Array(items) => (f.rule.Repeated? ==> |items| <= f.rule.max) && DecodableItems(f.kind, items)
    case Union(which) => which.Some? && which.value.0 == f.tag ==> Decodable(f.kind, which.value.1)
  }

  ghost predicate DecodableMessage(fs: seq<Field>, m: seq<Slot>, i: nat)
    decreases fs, |fs| - i
  {
    i < |fs| ==> fs[i].slot < |m| && DecodableSlot(fs[i], m[fs[i].slot]) && DecodableMessage(fs, m, i + 1)
  }

  // ------------------------------------------------------------ the same data

  /** The same value, up to data that its has_ flags and which_ tags hide. */
  ghost predicate Same(k: LType, a: Value, b: Value)
    decreases k, 0
  {
    if k.Message? then a.MessageV? && b.MessageV? && SameMessage(k.fields, a.slots, b.slots, 0) else a == b
  }

  ghost predicate SameItems(k: LType, a: seq<Value>, b: seq<Value>)
    decreases k, 1
  {
    |a| == |b| && forall j :: 0 <= j < |a| ==> Same(k, a[j], b[j])
  }

  ghost predicate SameSlot(f: Field, a: Slot, b: Slot)
    decreases f, 0
  {
    match (a, b)
    case (Plain(v), Plain(w)) => Same(f.kind, v, w)
    case (Opt(h, v), Opt(g, w)) => h == g && (h ==> Same(f.kind, v, w))
    case (Array(v), Array(w)) => SameItems(f.kind, v, w)
    case (Union(v), Union(w)) =>
      var mine := v.Some? && v.value.0 == f.tag;
      (mine <==> w.Some? && w.value.0 == f.tag) && (mine ==> Same(f.kind, v.value.1, w.value.1))
    case _ => false
  }

  ghost predicate SameMessage(fs: seq<Field>, a: seq<Slot>, b: seq<Slot>, i: nat)
    decreases fs, |fs| - i
  {
    i < |fs| ==> fs[i].slot < |a| && fs[i].slot < |b| && SameSlot(fs[i], a[fs[i].slot], b[fs[i].slot]) && SameMessage(fs, a, b, i + 1)
  }

  // -------------------------------------------------------------- what is where

  lemma TwoFields(fs: seq<Field>, i: nat, j: nat)
    requires DescriptorOk(fs) && i < |fs| && j < |fs| && i != j
    ensures fs[i].tag != fs[j].tag && (fs[i].slot == fs[j].slot ==> fs[i].rule == Oneof && fs[j].rule == Oneof)
  {
    assert Apart(fs[if i < j then i else j], fs[if i < j then j else i]);
  }

  lemma {:induction false} DefaultsAt(fs: seq<Field>, i: nat, j: nat)
    requires DescriptorOk(fs) && j < i <= |fs|
    ensures Defaults(fs, i)[fs[j].slot] == DefaultSlot(fs[j])
  {
    if j < i - 1 {
      DefaultsAt(fs, i - 1, j);
      TwoFields(fs, j, i - 1);
    }
  }

  lemma {:induction false} TypedAt(fs: seq<Field>, m: seq<Slot>, i: nat, j: nat)
    requires TypedMessage(fs, m, i) && i <= j < |fs|
    ensures fs[j].slot < |m| && TypedSlot(fs[j], m[fs[j].slot])
    decreases |fs| - i
  {
    if i < j {
      TypedAt(fs, m, i + 1, j);
    }
  }

  /** What the place of field j holds once the first i fields are decoded. */
  lemma {:induction false} FilledAt(fs: seq<Field>, m: seq<Slot>, i: nat, j: nat)
    requires DescriptorOk(fs) && TypedMessage(fs, m, 0) && i <= |fs| && j < |fs|
    ensures fs[j].slot < |m|
    ensures Written(fs[j], m[fs[j].slot]) ==>
              Filled(fs, m, i)[fs[j].slot] == if j < i then CanonSlot(fs[j], m[fs[j].slot]) else DefaultSlot(fs[j])
    ensures !Written(fs[j], m[fs[j].slot]) && fs[j].rule != Oneof ==> Filled(fs, m, i)[fs[j].slot] == DefaultSlot(fs[j])
    ensures !Written(fs[j], m[fs[j].slot]) && fs[j].rule == Oneof ==>
              var d := Filled(fs, m, i)[fs[j].slot]; d.Union? && (d.which.Some? ==> d.which.value.0 != fs[j].tag)
  {
    TypedAt(fs, m, 0, j);
    if i == 0 {
      DefaultsAt(fs, |fs|, j);
    } else {
      FilledAt(fs, m, i - 1, j);
      TypedAt(fs, m, 0, i - 1);
      if j != i - 1 {
        TwoFields(fs, j, i - 1);
      }
    }
  }

  // ------------------------------------------------------- decoding keeps the data

  lemma {:induction false} CanonItemsAt(k: LType, items: seq<Value>, n: nat, j: nat)
    requires j < n <= |items|
    ensures CanonItems(k, items, n)[j] == CanonValue(k, items[j])
  {
    if j < n - 1 {
      CanonItemsAt(k, items, n - 1, j);
    }
  }

  /** The canonical value is the same data. */
  lemma {:induction false} CanonIsSame(k: LType, v: Value)
    requires Typed(k, v) && (k.Message? ==> DescriptorOk(k.fields))
    ensures Same(k, v, CanonValue(k, v))
    decreases k, 0
  {
    if k.Message? {
      CanonMessageIsSame(k.fields, v.slots, 0);
    }
  }

  lemma {:induction false} CanonMessageIsSame(fs: seq<Field>, m: seq<Slot>, i: nat)
    requires DescriptorOk(fs) && TypedMessage(fs, m, 0) && i <= |fs|
    ensures SameMessage(fs, m, Filled(fs, m, |fs|), i)
    decreases fs, |fs| - i
  {
    if i < |fs| {
      CanonMessageIsSame(fs, m, i + 1);
      TypedAt(fs, m, 0, i);
      FilledAt(fs, m, |fs|, i);
      assert FieldOk(fs[i]);
      CanonSlotIsSame(fs[i], m[fs[i].slot], Filled(fs, m, |fs|)[fs[i].slot]);
    }
  }

  lemma {:induction false} CanonSlotIsSame(f: Field, s: Slot, d: Slot)
    requires FieldOk(f) && TypedSlot(f, s)
    requires Written(f, s) ==> d == CanonSlot(f, s)
    requires !Written(f, s) && f.rule != Oneof ==> d == DefaultSlot(f)
    requires !Written(f, s) && f.rule == Oneof ==> d.Union? && (d.which.Some? ==> d.which.value.0 != f.tag)
    ensures SameSlot(f, s, d)
    decreases f, 1
  {
    match s {
      case Plain(v) =>
        if Written(f, s) {
          CanonIsSame(f.kind, v);
        } else {
          ZeroIsDefault(f, v);
        }
      case Opt(has, v) =>
        if has {
          CanonIsSame(f.kind, v);
        }
      case Array(items) =>
        if items != [] {
          forall j | 0 <= j < |items| ensures Same(f.kind, items[j], d.items[j]) {
            CanonItemsAt(f.kind, items, |items|, j);
            CanonIsSame(f.kind, items[j]);
          }
        }
      case Union(which) =>
        if Written(f, s) {
          CanonIsSame(f.kind, which.value.1);
        }
    }
  }

  /** A value that is left out is the one the field defaults to. */
  lemma {:induction false} ZeroIsDefault(f: Field, v: Value)
    requires FieldOk(f) && f.rule == Implicit && Typed(f.kind, v) && ZeroValue(f.kind, v)
    ensures Same(f.kind, v, DefaultValue(f))
    decreases f, 0
  {
    if f.kind.Message? {
      ZeroMessageIsDefault(f.kind.fields, v.slots, 0);
    }
  }

  lemma {:induction false} ZeroMessageIsDefault(fs: seq<Field>, m: seq<Slot>, i: nat)
    requires DescriptorOk(fs) && TypedMessage(fs, m, i) && ZeroMessage(fs, m, i) && i <= |fs|
    ensures SameMessage(fs, m, Defaults(fs, |fs|), i)
    decreases fs, |fs| - i
  {
    if i < |fs| {
      ZeroMessageIsDefault(fs, m, i + 1);
      DefaultsAt(fs, |fs|, i);
      assert FieldOk(fs[i]);
      var f, s := fs[i], m[fs[i].slot];
      if s.Plain? {
        ZeroIsDefault(f, s.v);
      }
    }
  }
}
