/** The decoder of nanopb (pb_decode.c, pb_common.c).  A stream is the bytes that are left;
    what a ghost parameter says the stream starts with is what the decoder must return. */
module PbDecode {
  import opened Coding
  import opened Keys
  import opened PbTypes
  import opened PbCanon

  // ------------------------------------------------------------------ numbers

  /** pb_decode_varint: up to ten bytes; bits beyond the 64th are lost. */
  method DecodeVarint(s: seq<byte>, ghost n: nat, ghost rest: seq<byte>) returns (ok: bool, value: nat, t: seq<byte>)
    ensures ok ==> |t| < |s| && value < UINT64
    ensures s == Varint(n) + rest && n < UINT64 ==> ok && value == n && t == rest
  {
    var result: nat, k: nat := 0, 0;
    t := s;
    ghost var seen := s == Varint(n) + rest && n < UINT64;
    ghost var left: nat := n;
    assert n * Pow128(0) == n;
    while true
      invariant result < UINT64 && |t| + k == |s|
      invariant seen ==> Reading(t, n, rest, result, left, k)
      decreases |t|
    {
      if seen {
        NextDigit(t, n, rest, result, left, k);
      }
      if 7 * k >= 64 || |t| == 0 {
        return false, 0, t;
      }
      var b := t[0];
      result := (result + Shifted(b, k)) % UINT64;
      t, k, left := t[1..], k + 1, left / 128;
      if b < 128 {
        break;
      }
    }
    return true, result, t;
  }

  /** pb_decode_varint32_eof: bits beyond the 32nd must be a sign extension. */
  method DecodeVarint32(s: seq<byte>, ghost n: nat, ghost rest: seq<byte>) returns (ok: bool, value: nat, t: seq<byte>, eof: bool)
    ensures ok ==> |t| < |s| && value < UINT32
    ensures eof == (s == [])
    ensures s == Varint(n) + rest && n < UINT32 ==> ok && value == n && t == rest
  {
    t, eof := s, s == [];
    if |s| == 0 {
      return false, 0, t, eof;
    }
    ghost var seen := s == Varint(n) + rest && n < UINT32;
    ghost var left: nat := n;
    assert n * Pow128(0) == n;
    if seen {
      NextDigit(s, n, rest, 0, n, 0);
    }
    var b := t[0];
    var result: nat, k: nat := b as int % 128, 1;
    assert Shifted(b, 0) == result;
    t, left := t[1..], left / 128;
    while b >= 128
      invariant result < UINT32 && |t| < |s| && k > 0
      invariant seen && b >= 128 ==> Reading(t, n, rest, result, left, k)
      invariant seen && b < 128 ==> t == rest && result == n
      invariant k == 5 && seen && b < 128 ==> b as int % 128 < 16
      decreases |t|
    {
      if seen {
        NextDigit(t, n, rest, result, left, k);
        Digits32(result, left, k, n);
      }
      if |t| == 0 {
        return false, 0, t, eof;
      }
      b := t[0];
      if 7 * k >= 32 {
        var signExtension := if 7 * k < 63 then 0xFF else 0x01;
        if b as int % 128 != 0 && (result < 0x8000_0000 || b as int != signExtension) {
          return false, 0, t, eof;
        }
      } else {
        if seen {
          LastDigit32(b, k, result, n);
        }
        result := (result + Shifted(b, k)) % UINT32;
      }
      t, k, left := t[1..], k + 1, left / 128;
    }
    if k == 5 && b as int % 128 >= 16 {
      return false, 0, t, eof;
    }
    return true, result, t, eof;
  }

  /** The fifth byte has only four bits to give. */
  lemma LastDigit32(b: byte, k: nat, result: nat, n: nat)
    requires k < 5 && result + Shifted(b, k) <= n < UINT32
    ensures k == 4 ==> b as int % 128 < 16
  {
    if k == 4 {
      assert Pow128(1) == 128 && Pow128(2) == 0x4000 && Pow128(3) == 0x20_0000 && Pow128(4) == 0x1000_0000;
    }
  }

  /** pb_read */
  method Read(s: seq<byte>, count: nat) returns (ok: bool, b: seq<byte>, t: seq<byte>)
    ensures ok <==> |s| >= count
    ensures ok ==> s == b + t && |b| == count
    ensures !ok ==> t == s
  {
    if count == 0 {
      return true, [], s;
    }
    if |s| < count {
      return false, [], s;
    }
    return true, s[..count], s[count..];
  }

  /** pb_decode_tag: a zero byte ends the message as the end of the stream does. */
  method DecodeTag(s: seq<byte>, ghost wt: nat, ghost number: nat, ghost rest: seq<byte>)
    returns (ok: bool, eof: bool, wireType: nat, tag: uint32, t: seq<byte>)
    ensures ok ==> |t| < |s|
    ensures s == FieldTag(wt, number) + rest && wt < 8 && 1 <= number < 0x2000_0000 ==> ok && wireType == wt && tag == number && t == rest
  {
    var value;
    ok, value, t, eof := DecodeVarint32(s, 8 * number + wt, rest);
    wireType, tag := 0, 0;
    if !ok {
      return;
    }
    if value == 0 {
      return false, true, 0, 0, t;
    }
    tag, wireType := value / 8, value % 8;
  }

  /** pb_make_string_substream: the next bytes, after their length. */
  method Substream(s: seq<byte>, ghost b: seq<byte>, ghost rest: seq<byte>) returns (ok: bool, sub: seq<byte>, t: seq<byte>)
    ensures ok ==> |sub| + |t| < |s|
    ensures s == Delimited(b) + rest && |b| < UINT32 ==> ok && sub == b && t == rest
  {
    var size, eof;
    assert Varint(|b|) + (b + rest) == Delimited(b) + rest;
    ok, size, t, eof := DecodeVarint32(s, |b|, b + rest);
    sub := [];
    if !ok {
      return;
    }
    if |t| < size {
      return false, [], t;
    }
    sub, t := t[..size], t[size..];
  }

  /** pb_skip_varint: over a varint of any length. */
  method SkipVarint(s: seq<byte>, ghost n: nat, ghost rest: seq<byte>) returns (ok: bool, t: seq<byte>)
    ensures |t| <= |s|
    ensures s == Varint(n) + rest ==> ok && t == rest
  {
    t := s;
    ghost var seen, left := s == Varint(n) + rest, n;
    while true
      invariant |t| <= |s| && (seen ==> t == Varint(left) + rest)
      decreases |t|
    {
      if |t| == 0 {
        return false, t;
      }
      var b := t[0];
      t := t[1..];
      if seen {
        if left >= 128 {
          assert t == Varint(left / 128) + rest;
        }
      }
      left := left / 128;
      if b < 128 {
        return true, t;
      }
    }
  }

  /** What a field takes up after its tag, by its wire type. */
  ghost function Body(wireType: nat, n: nat, b: seq<byte>): seq<byte> {
    if wireType == WT_VARINT then Varint(n) else if wireType == WT_STRING then Delimited(b) else b
  }

  ghost predicate BodyOk(wireType: nat, b: seq<byte>) {
    || wireType == WT_VARINT || (wireType == WT_STRING && |b| < UINT32)
    || (wireType == WT_64BIT && |b| == 8) || (wireType == WT_32BIT && |b| == 4)
  }

  /** pb_skip_field: exactly the field is skipped; other wire types are an error. */
  method SkipField(s: seq<byte>, wireType: nat, ghost n: nat, ghost b: seq<byte>, ghost rest: seq<byte>) returns (ok: bool, t: seq<byte>)
    ensures |t| <= |s|
    ensures BodyOk(wireType, b) && s == Body(wireType, n, b) + rest ==> ok && t == rest
    ensures wireType != WT_VARINT && wireType != WT_STRING && wireType != WT_64BIT && wireType != WT_32BIT ==> !ok
  {
    var skipped;
    assert |s| >= |b| && s == b + rest ==> s[|b|..] == rest;
    if wireType == WT_VARINT {
      ok, t := SkipVarint(s, n, rest);
    } else if wireType == WT_64BIT {
      ok, skipped, t := Read(s, 8);
      assert ok ==> t == s[8..];
    } else if wireType == WT_STRING {
      ok, skipped, t := Substream(s, b, rest);
      if !ok {
        t := s;
      }
    } else if wireType == WT_32BIT {
      ok, skipped, t := Read(s, 4);
      assert ok ==> t == s[4..];
    } else {
      return false, s;
    }
  }

  // ------------------------------------------------------------------- values

  /** pb_decode_fixed32 and pb_decode_fixed64 */
  method DecodeFixed(s: seq<byte>, width: nat, ghost n: nat, ghost rest: seq<byte>) returns (ok: bool, value: nat, t: seq<byte>)
    requires width > 0
    ensures ok ==> |t| < |s|
    ensures s == LittleEndian(n, width) + rest && n < Pow256(width) ==> ok && value == n && t == rest
  {
    var b;
    ok, b, t := Read(s, width);
    value := 0;
    if ok {
      value := FromBytes(b);
      if s == LittleEndian(n, width) + rest && n < Pow256(width) {
        assert b == s[..width] == LittleEndian(n, width);
        assert t == s[width..];
        FromLittleEndian(n, width);
      }
    }
  }

  /** A C cast to a signed type of the given width in bytes. */
  function Signed(value: int, width: nat): int {
    var m := value % Pow256(width);
    if 2 * m < Pow256(width) then m else m - Pow256(width)
  }

  /** The cast keeps exactly the numbers of the type. */
  lemma SignedFits(n: int, width: nat)
    requires width in {1, 2, 4, 8}
    ensures Signed(n, width) == n <==> -(Pow256(width) as int) <= 2 * n < Pow256(width)
  {
    Pow256Values();
  }

  function UnZigZag(raw: int): int {
    if raw % 2 == 1 then -(raw / 2) - 1 else raw / 2
  }

  /** What may stand on the wire for a number: 64 bits, or 32 where that is the width. */
  predicate RawOk(k: LType, n: nat) {
    if k.Bool? || k.Fixed32? then n < UINT32 else (k.Int? || k.UInt? || k.SInt? || k.Fixed64?) && n < UINT64
  }

  function RawBytes(k: LType, n: nat): seq<byte> {
    if k.Fixed32? then LittleEndian(n, 4) else if k.Fixed64? then LittleEndian(n, 8) else Varint(n)
  }

  /** The number that it is.  Of signed numbers that are not zig-zag, 32 bits count unless
      the field has 64. */
  function NumberOf(k: LType, n: nat): int {
    match k
    case Int(width) => Signed(n, if width == 8 then 8 else 4)
    case SInt(_) => UnZigZag(n)
    case _ => n
  }

  /** pb_dec_varint: small signed fields take the low 32 bits, and must hold them. */
  method DecodeInt(s: seq<byte>, width: nat, ghost n: nat, ghost rest: seq<byte>) returns (ok: bool, value: int, t: seq<byte>)
    requires width in {1, 2, 4, 8}
    ensures ok ==> |t| < |s|
    ensures n < UINT64 && s == Varint(n) + rest ==> (ok <==> NumberOk(Int(width), NumberOf(Int(width), n)))
    ensures n < UINT64 && s == Varint(n) + rest && ok ==> value == NumberOf(Int(width), n) && t == rest
  {
    var raw;
    ok, raw, t := DecodeVarint(s, n, rest);
    value := 0;
    if !ok {
      return;
    }
    var wide := Signed(raw, if width == 8 then 8 else 4);
    value := Signed(wide, width);
    SignedFits(wide, width);
    ok := value == wide;
  }

  /** pb_dec_uvarint */
  method DecodeUInt(s: seq<byte>, width: nat, ghost n: nat, ghost rest: seq<byte>) returns (ok: bool, value: nat, t: seq<byte>)
    requires width in {1, 2, 4, 8}
    ensures ok ==> |t| < |s|
    ensures n < UINT64 && s == Varint(n) + rest ==> (ok <==> NumberOk(UInt(width), n))
    ensures n < UINT64 && s == Varint(n) + rest && ok ==> value == n && t == rest
  {
    ok, value, t := DecodeVarint(s, n, rest);
    if ok {
      Pow256Values();
      var clamped := value % Pow256(width);
      ok := clamped == value;
    }
  }

  /** pb_dec_svarint */
  method DecodeSInt(s: seq<byte>, width: nat, ghost n: nat, ghost rest: seq<byte>) returns (ok: bool, value: int, t: seq<byte>)
    requires width in {1, 2, 4, 8}
    ensures ok ==> |t| < |s|
    ensures n < UINT64 && s == Varint(n) + rest ==> (ok <==> NumberOk(SInt(width), UnZigZag(n)))
    ensures n < UINT64 && s == Varint(n) + rest && ok ==> value == UnZigZag(n) && t == rest
  {
    var raw;
    ok, raw, t := DecodeVarint(s, n, rest);
    value := 0;
    if !ok {
      return;
    }
    var wide := UnZigZag(raw);
    value := Signed(wide, width);
    SignedFits(wide, width);
    ok := value == wide;
  }

  predicate WidthOk(k: LType) {
    k.Int? || k.UInt? || k.SInt? ==> k.width in {1, 2, 4, 8}
  }

  lemma FixedIsOk(k: LType, n: nat)
    requires RawOk(k, n) && (k.Fixed32? || k.Fixed64?)
    ensures NumberOk(k, NumberOf(k, n)) && NumberOf(k, n) == n && n < Pow256(if k.Fixed32? then 4 else 8)
  {
    Pow256Values();
  }

  /** The scalar decoders of PB_DECODERS: the number, if the field can hold it. */
  method DecodeNumber(s: seq<byte>, k: LType, ghost n: nat, ghost rest: seq<byte>) returns (ok: bool, value: int, t: seq<byte>)
    requires k.Int? || k.UInt? || k.SInt? || k.Fixed32? || k.Fixed64?
    ensures ok ==> |t| < |s|
    ensures RawOk(k, n) && s == RawBytes(k, n) + rest ==> (ok <==> NumberOk(k, NumberOf(k, n)))
    ensures RawOk(k, n) && s == RawBytes(k, n) + rest && ok ==> value == NumberOf(k, n) && t == rest
  {
    if !WidthOk(k) {
      return false, 0, s;
    }
    match k {
      case Int(w) => ok, value, t := DecodeInt(s, w, n, rest);
      case UInt(w) => ok, value, t := DecodeUInt(s, w, n, rest);
      case SInt(w) => ok, value, t := DecodeSInt(s, w, n, rest);
      case Fixed32 =>
        if RawOk(k, n) {
          FixedIsOk(k, n);
        }
        ok, value, t := DecodeFixed(s, 4, n, rest);
      case Fixed64 =>
        if RawOk(k, n) {
          FixedIsOk(k, n);
        }
        ok, value, t := DecodeFixed(s, 8, n, rest);
    }
  }

  // ---------------------------------------------------------- field iterator

  /** pb_field_iter_t: a position in the descriptor, and how many required fields are
      before it. */
  datatype Iter = Iter(pos: nat, required: nat)

  ghost predicate IterOk(fs: seq<Field>, it: Iter) {
    (it.pos < |fs| || it.pos == 0) && it.pos <= |fs| && it.required == RequiredCount(fs, it.pos)
  }

  /** pb_field_iter_next: false when it has wrapped around to the beginning. */
  method Next(fs: seq<Field>, it: Iter) returns (more: bool, it': Iter)
    requires IterOk(fs, it)
    ensures IterOk(fs, it') && (more <==> it.pos + 1 < |fs|)
    ensures it'.pos == if it.pos + 1 < |fs| then it.pos + 1 else 0
  {
    if it.pos >= |fs| || it.pos + 1 == |fs| {
      return false, Iter(0, 0);
    }
    return true, Iter(it.pos + 1, it.required + if fs[it.pos].rule == Required then 1 else 0);
  }

  /** The fields visited since `start`, going round. */
  predicate Visited(start: nat, n: nat, count: nat, j: nat) {
    j < n && (start <= j < start + count || j + n < start + count)
  }

  /** pb_field_iter_find: from the current position once around. */
  method Find(fs: seq<Field>, it: Iter, tag: nat) returns (found: bool, it': Iter)
    requires IterOk(fs, it)
    ensures IterOk(fs, it')
    ensures found ==> it'.pos < |fs| && fs[it'.pos].tag == tag
    ensures !found ==> forall j :: 0 <= j < |fs| ==> fs[j].tag != tag
  {
    it' := it;
    if |fs| == 0 {
      return false, it';
    }
    ghost var count := 0;
    while true
      invariant IterOk(fs, it') && count < |fs|
      invariant it'.pos == if it.pos + count < |fs| then it.pos + count else it.pos + count - |fs|
      invariant forall j: nat {:trigger Visited(it.pos, |fs|, count, j)} :: Visited(it.pos, |fs|, count, j) ==> fs[j].tag != tag
      decreases |fs| - count
    {
      if fs[it'.pos].tag == tag {
        return true, it';
      }
      var more;
      more, it' := Next(fs, it');
      forall j: nat | Visited(it.pos, |fs|, count + 1, j) ensures fs[j].tag != tag {
        assert Visited(it.pos, |fs|, count, j) || j == it.pos + count || j + |fs| == it.pos + count;
      }
      count := count + 1;
      if it'.pos == it.pos {
        break;
      }
    }
    forall j | 0 <= j < |fs| ensures fs[j].tag != tag {
      assert Visited(it.pos, |fs|, count, j);
    }
    found := false;
  }

  /** How many fields are required, going on from where the iterator is. */
  method CountRequired(fs: seq<Field>, it: Iter) returns (n: nat)
    requires IterOk(fs, it)
    ensures n == RequiredCount(fs, |fs|)
  {
    var cur := it;
    if |fs| == 0 {
      return 0;
    }
    while true
      invariant IterOk(fs, cur) && cur.pos < |fs|
      decreases |fs| - cur.pos
    {
      n := cur.required;
      var last := fs[cur.pos].rule;
      var more;
      ghost var at := cur.pos;
      more, cur := Next(fs, cur);
      if !more {
        if last == Required {
          n := n + 1;
        }
        break;
      }
    }
  }

  // ------------------------------------------------------------ bytes and strings

  /** pb_dec_bool */
  method DecodeBool(s: seq<byte>, ghost n: nat, ghost rest: seq<byte>) returns (ok: bool, value: bool, t: seq<byte>)
    ensures ok ==> |t| < |s|
    ensures s == Varint(n) + rest && n < UINT32 ==> ok && value == (n != 0) && t == rest
  {
    var v, eof;
    ok, v, t, eof := DecodeVarint32(s, n, rest);
    value := v != 0;
  }

  /** pb_dec_bytes and pb_dec_string: at most `room` bytes. */
  method DecodeBytes(s: seq<byte>, room: int, ghost b: seq<byte>, ghost rest: seq<byte>) returns (ok: bool, bytes: seq<byte>, t: seq<byte>)
    ensures ok ==> |t| < |s|
    ensures s == Delimited(b) + rest && |b| < UINT32 ==> (ok <==> |b| <= room)
    ensures s == Delimited(b) + rest && |b| < UINT32 && ok ==> bytes == b && t == rest
  {
    var size, eof;
    ghost var seen := s == Delimited(b) + rest && |b| < UINT32;
    assert Varint(|b|) + (b + rest) == Delimited(b) + rest;
    ok, size, t, eof := DecodeVarint32(s, |b|, b + rest);
    bytes := [];
    if !ok {
      return;
    }
    if size > room {
      return false, [], t;
    }
    ghost var u := t;
    ok, bytes, t := Read(t, size);
    if seen {
      assert bytes == u[..size] && u[..size] == b;
      assert ok ==> t == u[size..] && u[size..] == rest;
    }
  }

  function Zeros(n: nat): seq<byte> {
    seq(n, _ => 0)
  }

  /** pb_dec_fixed_length_bytes: no bytes at all stand for zeros. */
  method DecodeFixedBytes(s: seq<byte>, length: nat, ghost b: seq<byte>, ghost rest: seq<byte>) returns (ok: bool, bytes: seq<byte>, t: seq<byte>)
    ensures ok ==> |t| < |s|
    ensures s == Delimited(b) + rest && |b| < UINT32 ==> (ok <==> |b| == length || b == [])
    ensures s == Delimited(b) + rest && |b| < UINT32 && ok ==> bytes == (if b == [] then Zeros(length) else b) && t == rest
  {
    var size, eof;
    ghost var seen := s == Delimited(b) + rest && |b| < UINT32;
    assert Varint(|b|) + (b + rest) == Delimited(b) + rest;
    ok, size, t, eof := DecodeVarint32(s, |b|, b + rest);
    bytes := [];
    if !ok {
      return;
    }
    if size == 0 {
      return true, Zeros(length), t;
    }
    if size != length {
      return false, [], t;
    }
    ghost var u := t;
    ok, bytes, t := Read(t, length);
    if seen {
      assert bytes == u[..size] && u[..size] == b;
      assert ok ==> t == u[size..] && u[size..] == rest;
    }
  }
}
