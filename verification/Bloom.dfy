/** The Bloom filter (util/bloom.cc), for any hash of keys to 32 bits. */
module Bloom {
  import opened Coding
  import opened Keys

  type Hash = UserKey -> uint32

  /** (h >> 17) | (h << 15) */
  function Rotated(h: uint32): uint32 {
    h / 0x2_0000 + h % 0x2_0000 * 0x8000
  }

  /** The j-th probe of double hashing, in 32 bits. */
  function Probe(h: uint32, j: nat): uint32 {
    if j == 0 then h else (Probe(h, j - 1) + Rotated(h)) % UINT32
  }

  /** Bit i of b: b & (1 << i). */
  predicate Bit(b: nat, i: nat)
    decreases i
  {
    if i == 0 then b % 2 == 1 else Bit(b / 2, i - 1)
  }

  function Pow2(i: nat): (p: nat)
    ensures p > 0
  {
    if i == 0 then 1 else 2 * Pow2(i - 1)
  }

  // ------------------------------------------------------- the probes as arithmetic

  lemma {:induction false} HighBit(q: nat, r: nat, k: nat, i: nat)
    requires r < Pow2(k)
    ensures Bit(q * Pow2(k) + r, i + k) <==> Bit(q, i)
  {
    if k > 0 {
      assert q * Pow2(k) == 2 * (q * Pow2(k - 1));
      assert (q * Pow2(k) + r) / 2 == q * Pow2(k - 1) + r / 2;
      HighBit(q, r / 2, k - 1, i);
    } else {
      assert q * Pow2(0) == q;
    }
  }

  lemma {:induction false} LowBit(a: nat, x: nat, k: nat, i: nat)
    requires i < k
    ensures Bit(a + x * Pow2(k), i) <==> Bit(a, i)
    decreases i
  {
    assert x * Pow2(k) == 2 * (x * Pow2(k - 1));
    if i > 0 {
      assert (a + x * Pow2(k)) / 2 == a / 2 + x * Pow2(k - 1);
      LowBit(a / 2, x, k - 1, i - 1);
    }
  }

  lemma Pow2Values()
    ensures Pow2(15) == 0x8000 && Pow2(17) == 0x2_0000
  {
    assert Pow2(5) == 32 && Pow2(10) == 1024;
  }

  /** The step between probes is the hash rotated right by 17 bits: */
  lemma RotatedBits(h: uint32, i: nat)
    requires i < 32
    ensures Bit(Rotated(h), i) <==> Bit(h, (i + 17) % 32)
  {
    var hi, lo := h / 0x2_0000, h % 0x2_0000;
    if i < 15 {
      LowRotated(hi, lo, i);
    } else {
      HighRotated(hi, lo, i);
    }
  }

  lemma LowRotated(hi: nat, lo: nat, i: nat)
    requires lo < 0x2_0000 && i < 15
    ensures Bit(hi + lo * 0x8000, i) <==> Bit(hi * 0x2_0000 + lo, i + 17)
  {
    Pow2Values();
    LowBit(hi, lo, 15, i);
    HighBit(hi, lo, 17, i);
  }

  lemma HighRotated(hi: nat, lo: nat, i: nat)
    requires hi < 0x8000 && 15 <= i < 32
    ensures Bit(hi + lo * 0x8000, i) <==> Bit(hi * 0x2_0000 + lo, i - 15)
  {
    Pow2Values();
    HighBit(lo, hi, 15, i - 15);
    LowBit(lo, hi, 17, i - 15);
  }

  /** The same without a bound. */
  ghost function Unbounded(h: nat, d: nat, j: nat): nat {
    if j == 0 then h else Unbounded(h, d, j - 1) + d
  }

  lemma {:induction false} UnboundedIs(h: nat, d: nat, j: nat)
    ensures Unbounded(h, d, j) == h + j * d
  {
    if j > 0 {
      UnboundedIs(h, d, j - 1);
      assert j * d == (j - 1) * d + d;
    }
  }

  lemma SameRest(a: nat, d: nat)
    ensures (a % UINT32 + d) % UINT32 == (a + d) % UINT32
  {
    assert a == UINT32 * (a / UINT32) + a % UINT32;
  }

  lemma {:induction false} ProbeIsUnbounded(h: uint32, j: nat)
    ensures Probe(h, j) == Unbounded(h, Rotated(h), j) % UINT32
  {
    if j > 0 {
      ProbeIsUnbounded(h, j - 1);
      SameRest(Unbounded(h, Rotated(h), j - 1), Rotated(h));
    }
  }

  /** probe j is that many steps on from the hash, in 32 bits. */
  lemma ProbeAt(h: uint32, j: nat)
    ensures Probe(h, j) as int == (h + j * Rotated(h)) % UINT32
  {
    ProbeIsUnbounded(h, j);
    UnboundedIs(h, Rotated(h), j);
  }

  /** Adding a bit that is clear sets that bit and no other. */
  lemma {:induction false} SetBit(b: nat, i: nat, j: nat)
    requires !Bit(b, i)
    ensures Bit(b + Pow2(i), j) <==> j == i || Bit(b, j)
    decreases i
  {
    if i > 0 {
      assert (b + Pow2(i)) / 2 == b / 2 + Pow2(i - 1);
      if j > 0 {
        SetBit(b / 2, i - 1, j - 1);
      }
    } else {
      assert (b + 1) / 2 == b / 2;
    }
  }

  lemma Doubled(b: nat, x: nat, p: nat)
    requires b / 2 + x < p
    ensures b + 2 * x < 2 * p
  {}

  lemma EvenBelow(b: nat, p: nat)
    requires b % 2 == 0 && b < 2 * p
    ensures b + 1 < 2 * p
  {}

  lemma {:induction false} SetFits(b: nat, i: nat, n: nat)
    requires i < n && b < Pow2(n) && !Bit(b, i)
    ensures b + Pow2(i) < Pow2(n)
    decreases i
  {
    if i > 0 {
      SetFits(b / 2, i - 1, n - 1);
      Doubled(b, Pow2(i - 1), Pow2(n - 1));
    } else {
      EvenBelow(b, Pow2(n - 1));
    }
  }

  predicate IsSet(arr: seq<byte>, pos: nat)
    requires pos < 8 * |arr|
  {
    Bit(arr[pos / 8], pos % 8)
  }

  /** array[pos / 8] |= 1 << (pos % 8) */
  function Set(arr: seq<byte>, pos: nat): (a: seq<byte>)
    requires pos < 8 * |arr|
    ensures |a| == |arr|
  {
    if IsSet(arr, pos) then arr
    else
      SetFits(arr[pos / 8], pos % 8, 8);
      assert Pow2(4) == 16 && Pow2(8) == 256;
      arr[pos / 8 := (arr[pos / 8] as int + Pow2(pos % 8)) as byte]
  }

  lemma SetSets(arr: seq<byte>, pos: nat, other: nat)
    requires pos < 8 * |arr| && other < 8 * |arr|
    ensures IsSet(Set(arr, pos), other) <==> other == pos || IsSet(arr, other)
  {
    if !IsSet(arr, pos) && other / 8 == pos / 8 {
      SetBit(arr[pos / 8], pos % 8, other % 8);
    }
  }

  /** The first k probes of the key hit bits that are set. */
  ghost predicate Hits(arr: seq<byte>, h: uint32, k: nat) {
    |arr| > 0 && forall j {:trigger Probe(h, j)} :: 0 <= j < k ==> IsSet(arr, Probe(h, j) % (8 * |arr|))
  }

  /** What KeyMayMatch answers. */
  ghost predicate Matches(hash: Hash, key: UserKey, filter: seq<byte>) {
    |filter| >= 2 && var k := filter[|filter| - 1];
                     k > 30 || Hits(filter[..|filter| - 1], hash(key), k)
  }

  /** Everything that hits goes on hitting when more bits are set. */
  lemma SetKeepsHits(arr: seq<byte>, pos: nat, h: uint32, k: nat)
    requires pos < 8 * |arr| && Hits(arr, h, k)
    ensures Hits(Set(arr, pos), h, k)
  {
    forall j | 0 <= j < k ensures IsSet(Set(arr, pos), Probe(h, j) % (8 * |arr|)) {
      SetSets(arr, pos, Probe(h, j) % (8 * |arr|));
    }
  }

  lemma SetHitsNext(arr: seq<byte>, h: uint32, j: nat)
    requires Hits(arr, h, j)
    ensures Hits(Set(arr, Probe(h, j) % (8 * |arr|)), h, j + 1)
  {
    var pos := Probe(h, j) % (8 * |arr|);
    SetKeepsHits(arr, pos, h, j);
    SetSets(arr, pos, pos);
  }

  ghost predicate AllHit(arr: seq<byte>, hs: set<uint32>, k: nat) {
    forall h :: h in hs ==> Hits(arr, h, k)
  }

  lemma SetKeepsAll(arr: seq<byte>, pos: nat, hs: set<uint32>, k: nat)
    requires pos < 8 * |arr| && AllHit(arr, hs, k)
    ensures AllHit(Set(arr, pos), hs, k)
  {
    forall h | h in hs ensures Hits(Set(arr, pos), h, k) {
      SetKeepsHits(arr, pos, h, k);
    }
  }

  /** Some key's probe hits position pos. */
  ghost predicate Probed(hs: set<uint32>, k: nat, bits: nat, pos: nat)
    requires bits > 0
  {
    exists h, j {:trigger Probe(h, j)} :: h in hs && 0 <= j < k && pos == Probe(h, j) % bits
  }

  /** No other bits are set than those the keys need. */
  ghost predicate OnlyProbed(arr: seq<byte>, hs: set<uint32>, k: nat) {
    |arr| > 0 && forall pos {:trigger IsSet(arr, pos)} :: 0 <= pos < 8 * |arr| && IsSet(arr, pos) ==> Probed(hs, k, 8 * |arr|, pos)
  }

  lemma SetOnlyProbed(arr: seq<byte>, hs: set<uint32>, k: nat, h: uint32, j: nat)
    requires OnlyProbed(arr, hs, k) && h in hs && j < k
    ensures OnlyProbed(Set(arr, Probe(h, j) % (8 * |arr|)), hs, k)
  {
    var at := Probe(h, j) % (8 * |arr|);
    var a := Set(arr, at);
    forall pos | 0 <= pos < 8 * |a| && IsSet(a, pos) ensures Probed(hs, k, 8 * |a|, pos) {
      SetSets(arr, at, pos);
    }
  }

  /** More keys only need more bits. */
  lemma MoreProbed(arr: seq<byte>, hs: set<uint32>, h0: uint32, k: nat)
    requires OnlyProbed(arr, hs, k)
    ensures OnlyProbed(arr, hs + {h0}, k)
  {
    forall pos | 0 <= pos < 8 * |arr| && IsSet(arr, pos) ensures Probed(hs + {h0}, k, 8 * |arr|, pos) {
      assert Probed(hs, k, 8 * |arr|, pos);
    }
  }

  lemma {:induction false} ZeroBits(b: nat, i: nat)
    requires b == 0
    ensures !Bit(b, i)
    decreases i
  {
    if i > 0 {
      ZeroBits(b / 2, i - 1);
    }
  }

  lemma NothingProbed(arr: seq<byte>, k: nat)
    requires |arr| > 0 && forall i :: 0 <= i < |arr| ==> arr[i] == 0
    ensures OnlyProbed(arr, {}, k)
  {
    forall pos | 0 <= pos < 8 * |arr| ensures !IsSet(arr, pos) {
      ZeroBits(arr[pos / 8], pos % 8);
    }
  }

  /** The bits of one key, and no others. */
  method AddKey(arr: seq<byte>, h0: uint32, k: nat, ghost others: set<uint32>) returns (a: seq<byte>)
    requires |arr| > 0 && AllHit(arr, others, k) && OnlyProbed(arr, others, k)
    ensures |a| == |arr| && AllHit(a, others + {h0}, k) && OnlyProbed(a, others + {h0}, k)
  {
    MoreProbed(arr, others, h0, k);
    a := arr;
    var h := h0;
    var delta := Rotated(h);
    var bits := 8 * |a|;
    for j := 0 to k
      invariant |a| == |arr| && h == Probe(h0, j) && Hits(a, h0, j) && AllHit(a, others, k)
      invariant OnlyProbed(a, others + {h0}, k)
    {
      var pos := h % bits;
      SetOnlyProbed(a, others + {h0}, k, h0, j);
      SetKeepsAll(a, pos, others, k);
      SetHitsNext(a, h0, j);
      a := Set(a, pos);
      h := (h + delta) % UINT32;
    }
  }

  /** The bytes of a filter of so many bits, at least 64. */
  function FilterBytes(bits: nat): nat {
    if bits < 64 then 8 else (bits + 7) / 8
  }

  class BloomFilterPolicy {
    const hash: Hash
    const bitsPerKey: nat
    const k: nat

    /** `k` is bits_per_key * ln 2, rounded and bounded. */
    constructor (hash: Hash, bitsPerKey: nat, k: nat)
      requires 1 <= k <= 30
      ensures this.hash == hash && this.bitsPerKey == bitsPerKey && this.k == k
    {
      this.hash, this.bitsPerKey, this.k := hash, bitsPerKey, k;
    }

    /** The filter is appended to dst; every key matches it. */
    method CreateFilter(keys: seq<UserKey>, dst: seq<byte>) returns (dst': seq<byte>)
      requires 1 <= k <= 30
      ensures dst <= dst' && |dst'| > |dst|
      ensures forall key :: key in keys ==> Matches(hash, key, dst'[|dst|..])
      ensures |dst'| == |dst| + FilterBytes(|keys| * bitsPerKey) + 1
      ensures OnlyProbed(dst'[|dst|..|dst'| - 1], set i | 0 <= i < |keys| :: hash(keys[i]), k)
    {
      var bits := |keys| * bitsPerKey;
      if bits < 64 {
        bits := 64;
      }
      var bytes := (bits + 7) / 8;
      var arr: seq<byte> := seq(bytes, _ => 0);
      ghost var done: set<uint32> := {};
      NothingProbed(arr, k);
      for i := 0 to |keys|
        invariant |arr| == bytes && (forall j :: 0 <= j < i ==> hash(keys[j]) in done)
        invariant AllHit(arr, done, k) && OnlyProbed(arr, done, k)
        invariant done == set j | 0 <= j < i :: hash(keys[j])
      {
        arr := AddKey(arr, hash(keys[i]), k, done);
        done := done + {hash(keys[i])};
      }
      var filter := arr + [k as byte];
      dst' := dst + filter;
      assert dst'[|dst|..] == filter && filter[..|filter| - 1] == arr;
      assert dst'[|dst|..|dst'| - 1] == arr;
    }

    method KeyMayMatch(key: UserKey, filter: seq<byte>) returns (r: bool)
      ensures r == Matches(hash, key, filter)
    {
      var len := |filter|;
      if len < 2 {
        return false;
      }
      var arr := filter[..len - 1];
      var bits := (len - 1) * 8;
      var k := filter[len - 1];
      if k > 30 {
        return true;
      }
      var h := hash(key);
      var delta := Rotated(h);
      for j := 0 to k as int
        invariant h == Probe(hash(key), j) && Hits(arr, hash(key), j)
      {
        var pos := h % bits;
        if !IsSet(arr, pos) {
          assert Probe(hash(key), j) % (8 * |arr|) == pos;
          return false;
        }
        h := (h + delta) % UINT32;
      }
      return true;
    }
  }
}
