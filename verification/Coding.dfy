/** Numbers as bytes: base-128 varints and little-endian words, the format that LevelDB
    (util/coding.cc) and protocol buffers share. */
module Coding {
  import opened Keys

  const UINT32 := 0x1_0000_0000
  const UINT64 := 0x1_0000_0000_0000_0000

  type uint32 = n: nat | n < UINT32

  /** Base-128 digits, least significant first, the high bit marking all but the last. */
  function Varint(n: nat): (b: seq<byte>)
    ensures |b| > 0
  {
    if n < 128 then [n] else [n % 128 + 128] + Varint(n / 128)
  }

  lemma {:induction false} VarintLength(n: nat, k: nat)
    requires n < Pow128(k) && k > 0
    ensures |Varint(n)| <= k
    decreases k
  {
    if n >= 128 {
      assert k > 1;
      VarintLength(n / 128, k - 1);
    }
  }

  /** 1 << (7 * k) */
  function Pow128(k: nat): (p: nat)
    ensures p > 0
  {
    if k == 0 then 1 else 128 * Pow128(k - 1)
  }

  lemma {:induction false} Pow128Grows(a: nat, b: nat)
    requires a <= b
    ensures Pow128(a) <= Pow128(b)
  {
    if a < b {
      Pow128Grows(a, b - 1);
    }
  }

  lemma Pow128Values()
    ensures Pow128(5) == 0x8_0000_0000 && Pow128(10) == 0x40 * UINT64
  {
    assert Pow128(3) == 0x20_0000 && Pow128(4) == 0x1000_0000;
    assert Pow128(6) == 0x80 * 0x8_0000_0000 && Pow128(7) == 0x4000 * 0x8_0000_0000;
    assert Pow128(8) == 0x20_0000 * 0x8_0000_0000 && Pow128(9) == 0x1000_0000 * 0x8_0000_0000;
  }

  // ---------------------------------------------------- little-endian words

  function LittleEndian(n: nat, width: nat): (b: seq<byte>)
    ensures |b| == width
    decreases width
  {
    if width == 0 then [] else [n % 256] + LittleEndian(n / 256, width - 1)
  }

  function Pow256(w: nat): (p: nat)
    ensures p > 0
  {
    if w == 0 then 1 else 256 * Pow256(w - 1)
  }

  lemma Pow256Values()
    ensures Pow256(1) == 0x100 && Pow256(2) == 0x1_0000 && Pow256(4) == UINT32 && Pow256(8) == UINT64
  {
    assert Pow256(3) == 0x100_0000;
    assert Pow256(5) == 0x100 * UINT32 && Pow256(6) == 0x1_0000 * UINT32;
    assert Pow256(7) == 0x100_0000 * UINT32;
  }

  function FromBytes(b: seq<byte>): nat {
    if b == [] then 0 else b[0] as int + 256 * FromBytes(b[1..])
  }

  lemma {:induction false} FromLittleEndian(n: nat, width: nat)
    requires n < Pow256(width)
    ensures FromBytes(LittleEndian(n, width)) == n
    decreases width
  {
    if width > 0 {
      FromLittleEndian(n / 256, width - 1);
      assert LittleEndian(n, width)[1..] == LittleEndian(n / 256, width - 1);
    }
  }

  type Word = s: seq<byte> | |s| == 4 witness [0, 0, 0, 0]

  /** A way to write a number in four bytes. */
  type WordWriter = nat -> Word

  /** PutFixed32 */
  function Fixed32(): WordWriter {
    (n: nat) => LittleEndian(n, 4)
  }

  /** DecodeFixed32 */
  function DecodeFixed32(b: seq<byte>, at: nat): nat
    requires at + 4 <= |b|
  {
    FromBytes(b[at..at + 4])
  }

  lemma WordValue(n: nat)
    requires n < UINT32
    ensures FromBytes(Fixed32()(n)) == n
  {
    Pow256Values();
    FromLittleEndian(n, 4);
  }

  /** Several numbers one after the other. */
  function Words(put: WordWriter, ns: seq<nat>): (b: seq<byte>)
    ensures |b| == 4 * |ns|
  {
    if ns == [] then [] else Words(put, ns[..|ns| - 1]) + put(ns[|ns| - 1])
  }

  lemma {:induction false} WordAt(put: WordWriter, ns: seq<nat>, i: nat)
    requires i < |ns|
    ensures Words(put, ns)[4 * i..4 * i + 4] == put(ns[i])
  {
    var l := |ns| - 1;
    if i < l {
      WordAt(put, ns[..l], i);
      assert Words(put, ns)[4 * i..4 * i + 4] == Words(put, ns[..l])[4 * i..4 * i + 4];
    }
  }

  lemma LastWord(put: WordWriter, ns: seq<nat>, n: nat)
    ensures Words(put, ns + [n]) == Words(put, ns) + put(n)
  {
    assert (ns + [n])[..|ns|] == ns;
  }

  lemma Middle<T>(a: seq<T>, w: seq<T>, t: seq<T>, i: nat, j: nat)
    requires i <= j <= |w|
    ensures (a + w + t)[|a| + i..|a| + j] == w[i..j]
  {}

  /** Word i of several, between other bytes. */
  lemma WordRead(put: WordWriter, before: seq<byte>, ns: seq<nat>, after: seq<byte>, i: nat)
    requires i < |ns| && FromBytes(put(ns[i])) == ns[i]
    ensures |before| + 4 * i + 4 <= |before + Words(put, ns) + after|
    ensures DecodeFixed32(before + Words(put, ns) + after, |before| + 4 * i) == ns[i]
  {
    WordAt(put, ns, i);
    Middle(before, Words(put, ns), after, 4 * i, 4 * i + 4);
  }

  /** PutFixed32, once for every number. */
  method PutWords(put: WordWriter, dst: seq<byte>, ns: seq<nat>) returns (dst': seq<byte>)
    ensures dst' == dst + Words(put, ns)
  {
    dst' := dst;
    for i := 0 to |ns|
      invariant dst' == dst + Words(put, ns[..i])
    {
      LastWord(put, ns[..i], ns[i]);
      assert ns[..i + 1] == ns[..i] + [ns[i]];
      dst' := dst' + put(ns[i]);
    }
    assert ns[..|ns|] == ns;
  }

  // ------------------------------------------------------- reading a varint

  /** The digits read so far, and those still to come. */
  ghost function Sum(result: nat, left: nat, k: nat): nat {
    result + left * Pow128(k)
  }

  /** (byte & 0x7F) << (7 * k) */
  function Shifted(b: int, k: nat): nat
    requires b >= 0
  {
    b % 128 * Pow128(k)
  }

  lemma SumStep(result: nat, left: nat, k: nat)
    ensures Sum(result, left, k) == Sum(result + Shifted(left, k), left / 128, k + 1)
  {
    var q, r, p := left / 128, left % 128, Pow128(k);
    assert left == 128 * q + r;
    calc {
      left * p;
      (128 * q + r) * p;
      128 * q * p + r * p;
      q * (128 * p) + r * p;
    }
  }

  lemma {:induction false} Multiple(n: nat, p: nat)
    ensures n * p >= 0 && (n > 0 ==> n * p >= p)
  {
    if n > 0 {
      Multiple(n - 1, p);
      assert n * p == (n - 1) * p + p;
    }
  }

  lemma SumBounds(result: nat, left: nat, k: nat)
    ensures result <= Sum(result, left, k)
    ensures left > 0 ==> Pow128(k) <= Sum(result, left, k)
  {
    Multiple(left, Pow128(k));
  }

  /** While digits follow, fewer than ten have been read. */
  lemma FewDigits(result: nat, left: nat, k: nat, m: nat)
    requires left > 0 && Sum(result, left, k) < Pow128(m)
    ensures k < m
  {
    SumBounds(result, left, k);
    if k >= m {
      Pow128Grows(m, k);
    }
  }

  /** Of a 32-bit number there are at most five digits. */
  lemma Digits32(result: nat, left: nat, k: nat, n: nat)
    requires k > 0 && left > 0 && Sum(result, left, k) == n < UINT32
    ensures k < 5
  {
    Pow128Values();
    FewDigits(result, left, k, 5);
  }

  /** The stream continues with the digits of `left`, and they make up n. */
  ghost predicate Reading(s: seq<byte>, n: nat, rest: seq<byte>, result: nat, left: nat, k: nat) {
    s == Varint(left) + rest && Sum(result, left, k) == n && (k > 0 ==> left > 0)
  }

  lemma NextDigit(s: seq<byte>, n: nat, rest: seq<byte>, result: nat, left: nat, k: nat)
    requires Reading(s, n, rest, result, left, k)
    ensures |s| > 0 && result + Shifted(s[0], k) <= n
    ensures s[0] < 128 ==> s[1..] == rest && result + Shifted(s[0], k) == n
    ensures s[0] >= 128 ==> Reading(s[1..], n, rest, result + Shifted(s[0], k), left / 128, k + 1)
    ensures k > 0 && n < UINT64 ==> k < 10
  {
    SumStep(result, left, k);
    SumBounds(result + Shifted(left, k), left / 128, k + 1);
    if left < 128 {
      assert Varint(left) == [left as byte];
    } else {
      assert s[1..] == Varint(left / 128) + rest;
    }
    if k > 0 && n < UINT64 {
      Pow128Values();
      FewDigits(result, left, k, 10);
    }
  }
}
