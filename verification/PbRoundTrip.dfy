/** Encoding a nanopb message and decoding the bytes. */
module PbRoundTrip {
  import opened Coding
  import opened Keys
  import opened PbTypes
  import opened PbCanon
  import opened PbEncode
  import opened PbWire
  import opened PbItems
  import opened PbMessages

  /** The encoder accepts whatever the decoder can take back. */
  lemma {:induction false} AcceptsValue(k: LType, v: Value)
    requires Decodable(k, v)
    ensures Encodable(k, v)
    decreases k, 0
  {
    if k.Message? && v.MessageV? {
      AcceptsMessage(k.fields, v.slots, 0);
    }
  }

  lemma {:induction false} AcceptsSlot(f: Field, s: Slot)
    requires DecodableSlot(f, s)
    ensures EncodableSlot(f, s)
    decreases f, 0
  {
    match s {
      case Plain(v) =>
        if Written(f, s) {
          AcceptsValue(f.kind, v);
        }
      case Opt(has, v) =>
        if has {
          AcceptsValue(f.kind, v);
        }
      case Array(items) =>
        forall j | 0 <= j < |items| ensures Encodable(f.kind, items[j]) {
          AcceptsValue(f.kind, items[j]);
        }
      case Union(which) =>
        if which.Some? && which.value.0 == f.tag {
          AcceptsValue(f.kind, which.value.1);
        }
    }
  }

  lemma {:induction false} AcceptsMessage(fs: seq<Field>, m: seq<Slot>, i: nat)
    requires DecodableMessage(fs, m, i)
    ensures EncodableMessage(fs, m, i)
    decreases fs, |fs| - i
  {
    if i < |fs| {
      AcceptsSlot(fs[i], m[fs[i].slot]);
      AcceptsMessage(fs, m, i + 1);
    }
  }

  /** pb_get_encoded_size tells exactly how large the buffer must be, and then pb_decode of
      what pb_encode wrote gives back the message. */
  method RoundTrip(fs: seq<Field>, m: seq<Slot>) returns (size: nat, bytes: seq<byte>, ok: bool, d: seq<Slot>)
    requires DescriptorOk(fs) && TypedMessage(fs, m, 0) && DecodableMessage(fs, m, 0) && |MessageBytes(fs, m, 0)| < UINT32
    ensures bytes == MessageBytes(fs, m, 0) && size == |bytes|
    ensures ok && SameMessage(fs, m, d, 0)
  {
    AcceptsMessage(fs, m, 0);
    var e, s := EncodeMessage(SIZING, fs, m);
    size := s.written;
    e, s := EncodeMessage(OStream(false, size, 0, []), fs, m);
    assert [] + MessageBytes(fs, m, 0) == MessageBytes(fs, m, 0);
    bytes := s.out;
    ItemsOfMessage(fs, m);
    ok, d := Decode(bytes, fs, MessageItems(fs, m, 0));
    CanonMessageIsSame(fs, m, 0);
  }

  /** A message that was written with a larger descriptor: fields unknown here may stand
      anywhere between the known ones, in submessages too, and the rest is read. */
  method DecodeNewer(bytes: seq<byte>, fs: seq<Field>, ghost m: seq<Slot>, ghost items: seq<Item>) returns (ok: bool, d: seq<Slot>)
    requires MessageGood(fs, m) && Left(fs, bytes, items) && Strip(items) == MessageItems(fs, m, 0)
    ensures ok && SameMessage(fs, m, d, 0)
  {
    ItemsOfMessage(fs, m);
    UnknownIsSkipped(fs, Defaults(fs, |fs|), items);
    ok, d := Decode(bytes, fs, items);
    CanonMessageIsSame(fs, m, 0);
  }

  /** A smaller buffer is reported as full, and nothing else goes wrong. */
  method EncodeInto(fs: seq<Field>, m: seq<Slot>, max: nat) returns (e: Option<Error>)
    requires TypedMessage(fs, m, 0) && EncodableMessage(fs, m, 0) && |MessageBytes(fs, m, 0)| < UINT64
    ensures e == if |MessageBytes(fs, m, 0)| <= max then None else Some(StreamFull)
  {
    var s;
    e, s := EncodeMessage(OStream(false, max, 0, []), fs, m);
  }
}
