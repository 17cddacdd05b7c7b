/** Reading and writing the varints and length-prefixed strings of LevelDB's records
    (util/coding.cc). */
module Slices {
  import opened Coding
  import opened Keys

  lemma Shifts(v: nat)
    ensures v / 0x4000 == v / 128 / 128 && v / 0x20_0000 == v / 0x4000 / 128 && v / 0x1000_0000 == v / 0x20_0000 / 128
  {}

  lemma OneMoreDigit(v: nat)
    requires v >= 128
    ensures Varint(v) == [v % 128 + 128] + Varint(v / 128)
  {}

  /** PutVarint32: EncodeVarint32 has a branch for every length. */
  method PutVarint32(dst: seq<byte>, v: uint32) returns (dst': seq<byte>)
    ensures dst' == dst + Varint(v)
  {
    Shifts(v);
    var v1, v2, v3, v4 := v / 0x80, v / 0x4000, v / 0x20_0000, v / 0x1000_0000;
    var buf: seq<byte>;
    if v < 0x80 {
      buf := [v];
    } else if v < 0x4000 {
      buf := [v % 128 + 128, v1];
      OneMoreDigit(v);
    } else if v < 0x20_0000 {
      buf := [v % 128 + 128, v1 % 128 + 128, v2];
      OneMoreDigit(v);
      OneMoreDigit(v1);
    } else if v < 0x1000_0000 {
      buf := [v % 128 + 128, v1 % 128 + 128, v2 % 128 + 128, v3];
      OneMoreDigit(v);
      OneMoreDigit(v1);
      OneMoreDigit(v2);
    } else {
      buf := [v % 128 + 128, v1 % 128 + 128, v2 % 128 + 128, v3 % 128 + 128, v4];
      OneMoreDigit(v);
      OneMoreDigit(v1);
      OneMoreDigit(v2);
      OneMoreDigit(v3);
    }
    dst' := dst + buf;
  }

  /** PutVarint64 */
  method PutVarint64(dst: seq<byte>, v: nat) returns (dst': seq<byte>)
    ensures dst' == dst + Varint(v)
  {
    dst' := dst;
    var rest := v;
    while rest >= 128
      invariant dst' + Varint(rest) == dst + Varint(v)
    {
      OneMoreDigit(rest);
      assert dst' + ([rest % 128 + 128] + Varint(rest / 128)) == dst' + [rest % 128 + 128] + Varint(rest / 128);
      dst', rest := dst' + [rest % 128 + 128], rest / 128;
    }
    dst' := dst' + [rest];
  }

  /** At most `width` bits are read, and bits beyond them are lost. */
  predicate Wide(bits: nat, modulus: nat, digits: nat) {
    (bits == 32 && modulus == UINT32 && digits == 5) || (bits == 64 && modulus == UINT64 && digits == 10)
  }

  lemma FewEnough(bits: nat, modulus: nat, digits: nat, result: nat, left: nat, k: nat, n: nat)
    requires Wide(bits, modulus, digits) && k > 0 && left > 0 && Sum(result, left, k) == n < modulus
    ensures k < digits
  {
    Pow128Values();
    FewDigits(result, left, k, digits);
  }

  /** result | (byte & 127) << shift, in so many bits. */
  function Joined(result: nat, b: byte, k: nat, modulus: nat): (r: nat)
    requires modulus > 0
    ensures r < modulus
  {
    (result + Shifted(b, k)) % modulus
  }

  lemma JoinedDigit(t: seq<byte>, n: nat, rest: seq<byte>, result: nat, left: nat, k: nat, bits: nat, modulus: nat, digits: nat)
    requires Wide(bits, modulus, digits) && Reading(t, n, rest, result, left, k) && n < modulus
    ensures k < digits && |t| > 0
    ensures t[0] < 128 ==> t[1..] == rest && Joined(result, t[0], k, modulus) == n
    ensures t[0] >= 128 ==> Reading(t[1..], n, rest, Joined(result, t[0], k, modulus), left / 128, k + 1)
  {
    NextDigit(t, n, rest, result, left, k);
    if k > 0 {
      FewEnough(bits, modulus, digits, result, left, k, n);
    }
  }

  /** The loop of GetVarint32PtrFallback and of GetVarint64Ptr. */
  method ReadDigits(s: seq<byte>, bits: nat, modulus: nat, digits: nat, ghost n: nat, ghost rest: seq<byte>) returns (ok: bool, value: nat, t: seq<byte>)
    requires Wide(bits, modulus, digits)
    ensures ok ==> |t| < |s| && value < modulus
    ensures s == Varint(n) + rest && n < modulus ==> ok && value == n && t == rest
  {
    ghost var seen := s == Varint(n) + rest && n < modulus;
    ghost var left: nat := n;
    var k: nat := 0;
    assert n * Pow128(0) == n;
    t, value := s, 0;
    while 7 * k < bits && |t| > 0
      invariant value < modulus && |t| + k == |s|
      invariant seen ==> Reading(t, n, rest, value, left, k)
      decreases |t|
    {
      var b := t[0];
      if seen {
        JoinedDigit(t, n, rest, value, left, k, bits, modulus, digits);
      }
      value := Joined(value, b, k, modulus);
      t := t[1..];
      if b < 128 {
        return true, value, t;
      }
      k, left := k + 1, left / 128;
    }
    if seen {
      JoinedDigit(t, n, rest, value, left, k, bits, modulus, digits);
    }
    return false, 0, s;
  }

  /** GetVarint32 */
  method GetVarint32(s: seq<byte>, ghost n: nat, ghost rest: seq<byte>) returns (ok: bool, value: nat, t: seq<byte>)
    ensures ok ==> |t| < |s| && value < UINT32
    ensures s == Varint(n) + rest && n < UINT32 ==> ok && value == n && t == rest
  {
    if |s| > 0 && s[0] < 128 {
      ok, value, t := true, s[0], s[1..];
    } else {
      ok, value, t := ReadDigits(s, 32, UINT32, 5, n, rest);
    }
  }

  /** GetVarint64 */
  method GetVarint64(s: seq<byte>, ghost n: nat, ghost rest: seq<byte>) returns (ok: bool, value: nat, t: seq<byte>)
    ensures ok ==> |t| < |s| && value < UINT64
    ensures s == Varint(n) + rest && n < UINT64 ==> ok && value == n && t == rest
  {
    ok, value, t := ReadDigits(s, 64, UINT64, 10, n, rest);
  }

  function LengthPrefixed(b: seq<byte>): seq<byte> {
    Varint(|b|) + b
  }

  /** PutLengthPrefixedSlice */
  method PutLengthPrefixedSlice(dst: seq<byte>, b: seq<byte>) returns (dst': seq<byte>)
    requires |b| < UINT32
    ensures dst' == dst + LengthPrefixed(b)
  {
    dst' := PutVarint32(dst, |b|);
    dst' := dst' + b;
  }

  /** GetLengthPrefixedSlice */
  method GetLengthPrefixedSlice(s: seq<byte>, ghost b: seq<byte>, ghost rest: seq<byte>) returns (ok: bool, value: seq<byte>, t: seq<byte>)
    ensures ok ==> |t| < |s|
    ensures s == LengthPrefixed(b) + rest && |b| < UINT32 ==> ok && value == b && t == rest
  {
    assert LengthPrefixed(b) + rest == Varint(|b|) + (b + rest);
    var len, u;
    ok, len, u := GetVarint32(s, |b|, b + rest);
    if ok && |u| >= len {
      value, t := u[..len], u[len..];
    } else {
      ok, value, t := false, [], s;
    }
  }
}
