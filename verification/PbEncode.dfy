/** The encoder of nanopb (pb_encode.c).  A stream is a value that every function takes
    and returns; one without a callback only counts bytes. */
module PbEncode {
  import opened Coding
  import opened Keys
  import opened PbTypes

  /** pb_ostream_t; `out` is what the callback has received. */
  datatype OStream = OStream(sizing: bool, max: nat, written: nat, out: seq<byte>)

  datatype Error = StreamFull | ArrayOverflow | BytesOverflow | SizeChanged

  /** PB_OSTREAM_SIZING */
  const SIZING := OStream(true, 0, 0, [])

  ghost predicate Valid(s: OStream) {
    !s.sizing ==> s.written <= s.max
  }

  /** The bytes b have been written, or counted; or they do not fit and the stream is full. */
  ghost predicate Wrote(s: OStream, e: Option<Error>, t: OStream, b: seq<byte>) {
    && t.sizing == s.sizing && t.max == s.max && Valid(t)
    && (e == None || e == Some(StreamFull))
    && (e == None <==> s.sizing || s.written + |b| <= s.max)
    && (e == None ==> t.written == s.written + |b| && t.out == if s.sizing then s.out else s.out + b)
  }

  lemma WroteMore(s: OStream, t: OStream, e: Option<Error>, u: OStream, a: seq<byte>, b: seq<byte>)
    requires Wrote(s, None, t, a) && Wrote(t, e, u, b)
    ensures Wrote(s, e, u, a + b)
  {
    assert (s.out + a) + b == s.out + (a + b);
  }

  /** pb_write */
  method Write(s: OStream, buf: seq<byte>) returns (e: Option<Error>, t: OStream)
    requires Valid(s)
    ensures Wrote(s, e, t, buf)
  {
    t := s;
    if |buf| > 0 && !s.sizing {
      if s.written + |buf| > s.max {
        return Some(StreamFull), t;
      }
      t := t.(out := t.out + buf);
    }
    assert s.out + [] == s.out;
    return None, t.(written := t.written + |buf|);
  }

  /** pb_write of a null buffer, for a stream that only counts. */
  method Count(s: OStream, size: nat, ghost b: seq<byte>) returns (e: Option<Error>, t: OStream)
    requires s.sizing && |b| == size
    ensures e == None && Wrote(s, e, t, b)
  {
    return None, s.(written := s.written + size);
  }

  // ------------------------------------------------------------------ numbers

  /** Clear the high bit of the last byte. */
  function Closed(b: seq<byte>): seq<byte>
    requires |b| > 0
  {
    b[|b| - 1 := b[|b| - 1] % 128]
  }

  /** pb_encode_varint; ten bytes of buffer are enough. */
  method EncodeVarint(s: OStream, value: nat) returns (e: Option<Error>, t: OStream)
    requires Valid(s) && value < UINT64
    ensures Wrote(s, e, t, Varint(value)) && |Varint(value)| <= 10
  {
    Pow128Values();
    VarintLength(value, 10);
    if value <= 0x7F {
      e, t := Write(s, [value as byte]);
      return;
    }
    var buffer: seq<byte>, rest: nat := [], value;
    while rest > 0
      invariant rest > 0 ==> buffer + Varint(rest) == Varint(value)
      invariant rest == 0 ==> |buffer| > 0 && Closed(buffer) == Varint(value)
    {
      var digit := (rest % 128 + 128) as byte;
      assert rest < 128 ==> Closed(buffer + [digit]) == buffer + [rest as byte];
      assert rest >= 128 ==> (buffer + [digit]) + Varint(rest / 128) == buffer + Varint(rest);
      buffer := buffer + [digit];
      rest := rest / 128;
    }
    e, t := Write(s, Closed(buffer));
  }

  /** pb_encode_svarint */
  method EncodeSvarint(s: OStream, value: int) returns (e: Option<Error>, t: OStream)
    requires Valid(s) && -(UINT64 as int) <= 2 * value < UINT64
    ensures Wrote(s, e, t, Varint(ZigZag(value)))
  {
    var shifted := 2 * Unsigned(value) % UINT64;
    e, t := EncodeVarint(s, if value < 0 then UINT64 - 1 - shifted else shifted);
  }

  /** pb_encode_fixed32 and pb_encode_fixed64 */
  method EncodeFixed(s: OStream, value: nat, width: nat) returns (e: Option<Error>, t: OStream)
    requires Valid(s)
    ensures Wrote(s, e, t, LittleEndian(value, width))
  {
    var bytes: seq<byte>, rest: nat := [], value;
    for i := 0 to width
      invariant |bytes| == i && bytes + LittleEndian(rest, width - i) == LittleEndian(value, width)
    {
      bytes := bytes + [(rest % 256) as byte];
      rest := rest / 256;
    }
    assert bytes + [] == bytes;
    e, t := Write(s, bytes);
  }

  /** pb_encode_tag */
  method EncodeTag(s: OStream, wireType: nat, tag: nat) returns (e: Option<Error>, t: OStream)
    requires Valid(s) && wireType < 8 && 8 * tag + 8 <= UINT64
    ensures Wrote(s, e, t, FieldTag(wireType, tag))
  {
    e, t := EncodeVarint(s, 8 * tag + wireType);
  }

  /** pb_encode_string */
  method EncodeString(s: OStream, bytes: seq<byte>) returns (e: Option<Error>, t: OStream)
    requires Valid(s) && |bytes| < UINT64
    ensures Wrote(s, e, t, Delimited(bytes))
  {
    e, t := EncodeVarint(s, |bytes|);
    if e == None {
      ghost var m := t;
      e, t := Write(t, bytes);
      WroteMore(s, m, e, t, Varint(|bytes|), bytes);
    }
  }

  // ----------------------------------------------------------------- messages

  /** What the encoder checks: the length of byte strings and the count of arrays, of the
      fields that are present. */
  ghost predicate Encodable(k: LType, v: Value)
    decreases k, 0
  {
    match (k, v)
    case (Bytes(c), BytesV(bytes)) => |bytes| <= c
    case (Message(fs), MessageV(slots)) => EncodableMessage(fs, slots, 0)
    case _ => true
  }

  ghost predicate EncodableItems(k: LType, items: seq<Value>)
    decreases k, 1
  {
    forall j :: 0 <= j < |items| ==> Encodable(k, items[j])
  }

  ghost predicate EncodableSlot(f: Field, s: Slot)
    decreases f, 0
  {
    match s
    case Plain(v) => (f.rule == Implicit && ZeroValue(f.kind, v)) || Encodable(f.kind, v)
    case Opt(has, v) => has ==> Encodable(f.kind, v)
    case Array(items) => (f.rule.Repeated? ==> |items| <= f.rule.max) && EncodableItems(f.kind, items)
    case Union(which) => which.Some? && which.value.0 == f.tag ==> Encodable(f.kind, which.value.1)
  }

  ghost predicate EncodableMessage(fs: seq<Field>, m: seq<Slot>, i: nat)
    decreases fs, |fs| - i
  {
    i < |fs| ==> fs[i].slot < |m| && EncodableSlot(fs[i], m[fs[i].slot]) && EncodableMessage(fs, m, i + 1)
  }

  /** Encoding succeeds as `Wrote` says, or fails on data that is not encodable; the size
      of a submessage never changes between its two passes. */
  ghost predicate Encoded(good: bool, s: OStream, e: Option<Error>, t: OStream, b: seq<byte>) {
    if good then Wrote(s, e, t, b) else e.Some? && e != Some(SizeChanged)
  }

  /** pb_enc_varint, pb_enc_uvarint, pb_enc_svarint, pb_enc_fixed32, pb_enc_fixed64 */
  method EncodeNumber(s: OStream, k: LType, n: int) returns (e: Option<Error>, t: OStream)
    requires Valid(s) && NumberOk(k, n)
    ensures Wrote(s, e, t, NumberBytes(k, n))
  {
    Pow256Values();
    if k.Int? {
      e, t := EncodeVarint(s, Unsigned(n));
    } else if k.UInt? {
      e, t := EncodeVarint(s, n);
    } else if k.SInt? {
      e, t := EncodeSvarint(s, n);
    } else if k.Fixed32? {
      e, t := EncodeFixed(s, n, 4);
    } else {
      e, t := EncodeFixed(s, n, 8);
    }
  }

  /** PB_ENCODERS */
  method EncodeValue(s: OStream, k: LType, v: Value) returns (e: Option<Error>, t: OStream)
    requires Valid(s) && Typed(k, v) && |Payload(k, v)| < UINT64
    ensures Encoded(Encodable(k, v), s, e, t, Payload(k, v))
    decreases k, 0
  {
    match v {
      case BoolV(b) => e, t := EncodeVarint(s, if b then 1 else 0);
      case BytesV(bytes) =>
        if k.Bytes? && |bytes| > k.capacity {
          return Some(BytesOverflow), s;
        }
        e, t := EncodeString(s, bytes);
      case MessageV(slots) => e, t := EncodeSubmessage(s, k.fields, slots);
      case NumV(n) => e, t := EncodeNumber(s, k, n);
    }
  }

  /** pb_encode_submessage: a first pass finds the size, a second one writes. */
  method EncodeSubmessage(s: OStream, fs: seq<Field>, m: seq<Slot>) returns (e: Option<Error>, t: OStream)
    requires Valid(s) && TypedMessage(fs, m, 0) && |MessageBytes(fs, m, 0)| < UINT64
    ensures Encoded(EncodableMessage(fs, m, 0), s, e, t, Delimited(MessageBytes(fs, m, 0)))
    decreases fs, |fs| + 1
  {
    var sub: OStream;
    e, sub := EncodeMessage(SIZING, fs, m);
    if e != None {
      return e, s;
    }
    var size := sub.written;
    ghost var b := MessageBytes(fs, m, 0);
    e, t := EncodeVarint(s, size);
    if e != None {
      return;
    }
    ghost var mid := t;
    if t.sizing {
      e, t := Count(t, size, b);
      WroteMore(s, mid, e, t, Varint(size), b);
      return;
    }
    if t.written + size > t.max {
      return Some(StreamFull), t;
    }
    sub := OStream(false, size, 0, []);
    e, sub := EncodeMessage(sub, fs, m);
    t := t.(written := t.written + sub.written, out := t.out + sub.out);
    if sub.written != size {
      return Some(SizeChanged), t;
    }
    assert [] + b == b;
    WroteMore(s, mid, e, t, Varint(size), b);
  }

  lemma EncodedMore(good: bool, s: OStream, t: OStream, e: Option<Error>, u: OStream, a: seq<byte>, b: seq<byte>)
    requires Wrote(s, None, t, a) && Encoded(good, t, e, u, b)
    ensures Encoded(good, s, e, u, a + b)
  {
    if good {
      WroteMore(s, t, e, u, a, b);
    }
  }

  lemma WroteNothing(s: OStream)
    requires Valid(s)
    ensures Wrote(s, None, s, [])
  {
    assert s.out + [] == s.out;
  }

  lemma Regroup(a: seq<byte>, b: seq<byte>, c: seq<byte>)
    ensures a + (b + c) == (a + b) + c && a + [] == a
  {}

  /** The fields before i have been written, as `done`. */
  ghost predicate Along(s: OStream, t: OStream, fs: seq<Field>, m: seq<Slot>, i: nat, done: seq<byte>) {
    && Wrote(s, None, t, done) && done + MessageBytes(fs, m, i) == MessageBytes(fs, m, 0)
    && (EncodableMessage(fs, m, 0) <==> EncodableMessage(fs, m, i))
  }

  lemma AlongStep(s: OStream, mid: OStream, e: Option<Error>, t: OStream, fs: seq<Field>, m: seq<Slot>, i: nat, done: seq<byte>)
    requires i < |fs| && fs[i].slot < |m| && Along(s, mid, fs, m, i, done)
    requires Encoded(EncodableSlot(fs[i], m[fs[i].slot]), mid, e, t, FieldBytes(fs[i], m[fs[i].slot]))
    ensures e.Some? ==> Encoded(EncodableMessage(fs, m, 0), s, e, t, MessageBytes(fs, m, 0))
    ensures e == None ==> Along(s, t, fs, m, i + 1, done + FieldBytes(fs[i], m[fs[i].slot]))
  {
    var b := FieldBytes(fs[i], m[fs[i].slot]);
    Regroup(done, b, MessageBytes(fs, m, i + 1));
    EncodedMore(EncodableSlot(fs[i], m[fs[i].slot]), s, mid, e, t, done, b);
  }

  lemma FieldFits(fs: seq<Field>, m: seq<Slot>, i: nat)
    requires i < |fs| && TypedMessage(fs, m, i)
    ensures fs[i].slot < |m| && TypedSlot(fs[i], m[fs[i].slot]) && TypedMessage(fs, m, i + 1)
    ensures |FieldBytes(fs[i], m[fs[i].slot])| <= |MessageBytes(fs, m, i)|
  {}

  /** pb_encode */
  method EncodeMessage(s: OStream, fs: seq<Field>, m: seq<Slot>) returns (e: Option<Error>, t: OStream)
    requires Valid(s) && TypedMessage(fs, m, 0) && |MessageBytes(fs, m, 0)| < UINT64
    ensures Encoded(EncodableMessage(fs, m, 0), s, e, t, MessageBytes(fs, m, 0))
    decreases fs, |fs|
  {
    t := s;
    ghost var done: seq<byte> := [];
    var i := 0;
    WroteNothing(s);
    while i < |fs|
      invariant i <= |fs| && TypedMessage(fs, m, i) && Along(s, t, fs, m, i, done)
    {
      FieldFits(fs, m, i);
      ghost var mid := t;
      e, t := EncodeField(t, fs[i], m[fs[i].slot]);
      AlongStep(s, mid, e, t, fs, m, i, done);
      if e != None {
        return;
      }
      done := done + FieldBytes(fs[i], m[fs[i].slot]);
      i := i + 1;
    }
    Regroup(done, [], []);
    e := None;
  }

  method EncodeTagged(s: OStream, f: Field, v: Value) returns (e: Option<Error>, t: OStream)
    requires Valid(s) && Typed(f.kind, v) && |TaggedValue(f, v)| < UINT64
    ensures Encoded(Encodable(f.kind, v), s, e, t, TaggedValue(f, v))
    decreases f, 0
  {
    e, t := EncodeTag(s, WireType(f.kind), f.tag);
    if e != None {
      return;
    }
    ghost var mid := t;
    e, t := EncodeValue(t, f.kind, v);
    EncodedMore(Encodable(f.kind, v), s, mid, e, t, FieldTag(WireType(f.kind), f.tag), Payload(f.kind, v));
  }

  /** encode_basic_field */
  method EncodeField(s: OStream, f: Field, slot: Slot) returns (e: Option<Error>, t: OStream)
    requires Valid(s) && TypedSlot(f, slot) && |FieldBytes(f, slot)| < UINT64
    ensures Encoded(EncodableSlot(f, slot), s, e, t, FieldBytes(f, slot))
    decreases f, 3
  {
    WroteNothing(s);
    t, e := s, None;
    match slot {
      case Plain(v) =>
        if f.rule == Required || !ZeroValue(f.kind, v) {
          e, t := EncodeTagged(s, f, v);
        }
      case Opt(has, v) =>
        if has {
          e, t := EncodeTagged(s, f, v);
        }
      case Array(items) => e, t := EncodeArray(s, f, items);
      case Union(which) =>
        if which.Some? && which.value.0 == f.tag {
          e, t := EncodeTagged(s, f, which.value.1);
        }
    }
  }

  /** Numbers and booleans are always accepted. */
  lemma PackableItems(k: LType, items: seq<Value>)
    requires Packable(k)
    ensures EncodableItems(k, items)
  {}

  /** Fixed-width items need no sizing pass. */
  lemma {:induction false} FixedItems(k: LType, items: seq<Value>, i: nat, width: nat)
    requires i <= |items| && TypedItems(k, items) && ((k.Fixed32? && width == 4) || (k.Fixed64? && width == 8))
    ensures |Packed(k, items, i)| == width * (|items| - i)
    decreases |items| - i
  {
    if i < |items| {
      FixedItems(k, items, i + 1, width);
      assert Typed(k, items[i]);
      assert width * (|items| - i) == width + width * (|items| - (i + 1));
    }
  }

  /** The items of a packed array one after the other; the sizing pass uses it too. */
  method EncodeItems(s: OStream, k: LType, items: seq<Value>) returns (e: Option<Error>, t: OStream)
    requires Valid(s) && Packable(k) && TypedItems(k, items) && |Packed(k, items, 0)| < UINT64
    ensures Wrote(s, e, t, Packed(k, items, 0))
    decreases k, 1
  {
    t := s;
    ghost var done: seq<byte> := [];
    WroteNothing(s);
    var i := 0;
    while i < |items|
      invariant i <= |items| && Wrote(s, None, t, done) && done + Packed(k, items, i) == Packed(k, items, 0)
    {
      ghost var b, mid := Payload(k, items[i]), t;
      Regroup(done, b, Packed(k, items, i + 1));
      assert Typed(k, items[i]) && Encodable(k, items[i]);
      e, t := EncodeValue(t, k, items[i]);
      WroteMore(s, mid, e, t, done, b);
      if e != None {
        return;
      }
      done := done + b;
      i := i + 1;
    }
    Regroup(done, [], []);
    e := None;
  }

  /** The size of a packed array. */
  method PackedSize(k: LType, items: seq<Value>) returns (size: nat)
    requires Packable(k) && TypedItems(k, items) && |Packed(k, items, 0)| < UINT64
    ensures size == |Packed(k, items, 0)|
    decreases k, 2
  {
    if k == Fixed32 {
      FixedItems(k, items, 0, 4);
      size := 4 * |items|;
    } else if k == Fixed64 {
      FixedItems(k, items, 0, 8);
      size := 8 * |items|;
    } else {
      var e, sub := EncodeItems(SIZING, k, items);
      size := sub.written;
    }
  }

  /** The packed half of encode_array. */
  method EncodePacked(s: OStream, f: Field, items: seq<Value>) returns (e: Option<Error>, t: OStream)
    requires Valid(s) && Packable(f.kind) && TypedItems(f.kind, items) && |Packed(f.kind, items, 0)| < UINT64
    ensures Wrote(s, e, t, FieldTag(WT_STRING, f.tag) + Delimited(Packed(f.kind, items, 0)))
    decreases f, 1
  {
    ghost var b := Packed(f.kind, items, 0);
    e, t := EncodeTag(s, WT_STRING, f.tag);
    if e != None {
      return;
    }
    ghost var mid := t;
    var size := PackedSize(f.kind, items);
    e, t := EncodeVarint(t, size);
    WroteMore(s, mid, e, t, FieldTag(WT_STRING, f.tag), Varint(size));
    if e != None {
      return;
    }
    mid := t;
    if t.sizing {
      e, t := Count(t, size, b);
    } else {
      e, t := EncodeItems(t, f.kind, items);
    }
    WroteMore(s, mid, e, t, FieldTag(WT_STRING, f.tag) + Varint(size), b);
    Regroup(FieldTag(WT_STRING, f.tag), Varint(size), b);
  }

  /** The unpacked half of encode_array: every item has its tag. */
  method EncodeUnpacked(s: OStream, f: Field, items: seq<Value>) returns (e: Option<Error>, t: OStream)
    requires Valid(s) && TypedItems(f.kind, items) && |TaggedValues(f, items, 0)| < UINT64
    ensures Encoded(EncodableItems(f.kind, items), s, e, t, TaggedValues(f, items, 0))
    decreases f, 1
  {
    t := s;
    ghost var done: seq<byte> := [];
    WroteNothing(s);
    var i := 0;
    while i < |items|
      invariant i <= |items| && Wrote(s, None, t, done) && done + TaggedValues(f, items, i) == TaggedValues(f, items, 0)
      invariant forall j :: 0 <= j < i ==> Encodable(f.kind, items[j])
    {
      ghost var b, mid := TaggedValue(f, items[i]), t;
      Regroup(done, b, TaggedValues(f, items, i + 1));
      e, t := EncodeTagged(t, f, items[i]);
      EncodedMore(Encodable(f.kind, items[i]), s, mid, e, t, done, b);
      if e != None {
        return;
      }
      done := done + b;
      i := i + 1;
    }
    Regroup(done, [], []);
    e := None;
  }

  /** encode_array */
  method EncodeArray(s: OStream, f: Field, items: seq<Value>) returns (e: Option<Error>, t: OStream)
    requires Valid(s) && TypedSlot(f, Array(items)) && |FieldBytes(f, Array(items))| < UINT64
    ensures Encoded(EncodableSlot(f, Array(items)), s, e, t, FieldBytes(f, Array(items)))
    decreases f, 2
  {
    if |items| == 0 {
      WroteNothing(s);
      assert EncodableSlot(f, Array(items));
      return None, s;
    }
    if |items| > f.rule.max {
      return Some(ArrayOverflow), s;
    }
    if Packable(f.kind) {
      PackableItems(f.kind, items);
      e, t := EncodePacked(s, f, items);
    } else {
      e, t := EncodeUnpacked(s, f, items);
    }
  }
}
