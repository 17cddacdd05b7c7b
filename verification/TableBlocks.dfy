/** The blocks of a table as bytes: internal keys and block handles are encoded
    (db/dbformat.cc, table/format.cc), and seeking with the block iterator finds what a
    scan of the entries finds. */
module TableBlocks {
  import opened Coding
  import opened Keys
  import opened Slices
  import opened BlockIters
  import opened BlockRoundTrip
  import opened Tables

  // -------------------------------------------------------------- internal keys

  type Word64 = s: seq<byte> | |s| == 8 witness [0, 0, 0, 0, 0, 0, 0, 0]

  /** A way to write a number in eight bytes. */
  type TagWriter = nat -> Word64

  /** PutFixed64 */
  function Fixed64(): TagWriter {
    (n: nat) => LittleEndian(n, 8)
  }

  /** What is written can be read back. */
  ghost predicate Exact(put: TagWriter) {
    forall n: nat {:trigger put(n)} :: n < UINT64 ==> FromBytes(put(n)) == n
  }

  lemma Fixed64IsExact()
    ensures Exact(Fixed64())
  {
    var put := Fixed64();
    forall n: nat {:trigger put(n)} | n < UINT64 ensures FromBytes(put(n)) == n {
      Pow256Values();
      FromLittleEndian(n, 8);
    }
  }

  /** AppendInternalKey */
  function EncodeKey(put: TagWriter, k: IKey): (b: seq<byte>)
    ensures |b| == |k.user| + 8
  {
    k.user + put(Tag(k))
  }

  /** ExtractUserKey */
  function UserOf(b: seq<byte>): UserKey
    requires |b| >= 8
  {
    b[..|b| - 8]
  }

  function NumberOf(b: seq<byte>): nat
    requires |b| >= 8
  {
    FromBytes(b[|b| - 8..])
  }

  /** ParseInternalKey */
  function ParseKey(b: seq<byte>): Option<IKey> {
    if |b| < 8 || NumberOf(b) % 256 > 1 then None
    else Some(IKey(UserOf(b), NumberOf(b) / 256, if NumberOf(b) % 256 == 1 then Value else Deletion))
  }

  /** InternalKeyComparator::Compare on encoded keys. */
  predicate EncodedLess(a: seq<byte>, b: seq<byte>) {
    |a| >= 8 && |b| >= 8 && (Less(UserOf(a), UserOf(b)) || (UserOf(a) == UserOf(b) && NumberOf(a) > NumberOf(b)))
  }

  lemma EncodedIsTransitive()
    ensures Transitive(EncodedLess)
  {}

  ghost predicate KeyFits(k: IKey) {
    k.seqno <= MAX_SEQUENCE && |k.user| + 8 < UINT32
  }

  lemma EncodedParts(put: TagWriter, k: IKey)
    requires Exact(put) && KeyFits(k)
    ensures UserOf(EncodeKey(put, k)) == k.user && NumberOf(EncodeKey(put, k)) == Tag(k)
  {
    var b := EncodeKey(put, k);
    assert b[|b| - 8..] == put(Tag(k));
  }

  /** Parsing undoes encoding. */
  lemma KeyRoundTrip(put: TagWriter, k: IKey)
    requires Exact(put) && KeyFits(k)
    ensures ParseKey(EncodeKey(put, k)) == Some(k)
  {
    EncodedParts(put, k);
    var t := Tag(k);
    assert t / 256 == k.seqno && t % 256 == if k.kind == Value then 1 else 0;
  }

  /** Encoded keys compare as the keys do. */
  lemma EncodedOrder(put: TagWriter, a: IKey, b: IKey)
    requires Exact(put) && KeyFits(a) && KeyFits(b)
    ensures EncodedLess(EncodeKey(put, a), EncodeKey(put, b)) <==> ILess(a, b)
  {
    EncodedParts(put, a);
    EncodedParts(put, b);
  }

  // ------------------------------------------------------------------ data blocks

  ghost predicate PairFits(p: Pair) {
    KeyFits(p.key) && |p.value| < UINT32
  }

  function Encoded(put: TagWriter, ps: seq<Pair>): (es: seq<BlockFormat.Entry>)
    ensures |es| == |ps| && forall i {:trigger es[i]} :: 0 <= i < |ps| ==> es[i] == BlockFormat.Entry(EncodeKey(put, ps[i].key), ps[i].value)
  {
    if ps == [] then []
    else Encoded(put, ps[..|ps| - 1]) + [BlockFormat.Entry(EncodeKey(put, ps[|ps| - 1].key), ps[|ps| - 1].value)]
  }

  lemma EncodedAscends(put: TagWriter, ps: seq<Pair>)
    requires Exact(put) && Ascending(ps) && forall i :: 0 <= i < |ps| ==> PairFits(ps[i])
    ensures Ascends(EncodedLess, Encoded(put, ps)) && Fits(Encoded(put, ps))
  {
    var es := Encoded(put, ps);
    forall i, j | 0 <= i < j < |es| ensures EncodedLess(es[i].key, es[j].key) {
      EncodedOrder(put, ps[i].key, ps[j].key);
    }
  }

  /** The first encoded entry at or after the encoded key is the first entry. */
  lemma SameFirst(put: TagWriter, ps: seq<Pair>, target: IKey, f: nat)
    requires Exact(put) && KeyFits(target) && forall i :: 0 <= i < |ps| ==> PairFits(ps[i])
    requires FirstOf(EncodedLess, Encoded(put, ps), EncodeKey(put, target), f)
    ensures IsFirst(ps, target, f)
  {
    var es := Encoded(put, ps);
    forall i | 0 <= i < |ps| ensures EncodedLess(es[i].key, EncodeKey(put, target)) <==> ILess(ps[i].key, target) {
      EncodedOrder(put, ps[i].key, target);
    }
  }

  /** Bytes that hold these entries. */
  ghost predicate HoldsPairs(contents: seq<byte>, ps: seq<Pair>) {
    Holds(contents, Encoded(Fixed64(), ps))
  }

  ghost predicate AllFit(ps: seq<Pair>) {
    forall i :: 0 <= i < |ps| ==> PairFits(ps[i])
  }

  /** Seeking in the bytes of a block finds the first entry at or after the key. */
  method SeekInBlock(contents: seq<byte>, target: IKey, ghost ps: seq<Pair>) returns (r: Option<Pair>)
    requires HoldsPairs(contents, ps) && |contents| < UINT32 && Ascending(ps) && AllFit(ps) && KeyFits(target)
    ensures exists f: nat :: IsFirst(ps, target, f) && r == if f < |ps| then Some(ps[f]) else None
  {
    var put := Fixed64();
    Fixed64IsExact();
    EncodedAscends(put, ps);
    EncodedIsTransitive();
    ghost var es := Encoded(put, ps);
    var e := SeekBlock(contents, EncodedLess, EncodeKey(put, target), es);
    ghost var f: nat :| FirstOf(EncodedLess, es, EncodeKey(put, target), f) && e == if f < |es| then Some(es[f]) else None;
    SameFirst(put, ps, target, f);
    r := None;
    if e.Some? {
      KeyRoundTrip(put, ps[f].key);
      var k := ParseKey(e.value.key);
      r := Some(Pair(k.value, e.value.value));
    }
  }

  // ------------------------------------------------------------------ index block

  /** BlockHandle::EncodeTo */
  function HandleBytes(h: Handle): seq<byte> {
    Varint(h.offset) + Varint(h.size)
  }

  /** A way to write a handle. */
  type HandleWriter = Handle -> seq<byte>

  function HandleCoder(): HandleWriter {
    (h: Handle) => HandleBytes(h)
  }

  predicate HandleOk(h: Handle) {
    h.offset < UINT64 && h.size < UINT64
  }

  /** BlockHandle::kMaxEncodedLength */
  const MAX_HANDLE := 20

  ghost predicate Short(enc: HandleWriter) {
    forall h {:trigger enc(h)} :: HandleOk(h) ==> |enc(h)| <= MAX_HANDLE
  }

  /** BlockHandle::DecodeFrom */
  method DecodeHandle(s: seq<byte>, ghost h: Handle, ghost rest: seq<byte>) returns (r: Option<Handle>, t: seq<byte>)
    ensures s == HandleBytes(h) + rest && h.offset < UINT64 && h.size < UINT64 ==> r == Some(h) && t == rest
  {
    assert HandleBytes(h) + rest == Varint(h.offset) + (Varint(h.size) + rest);
    var ok, offset, size;
    ok, offset, t := GetVarint64(s, h.offset, Varint(h.size) + rest);
    if ok {
      ok, size, t := GetVarint64(t, h.size, rest);
    }
    r := if ok then Some(Handle(offset, size)) else None;
  }

  /** The index block as entries: keys and encoded handles. */
  function AsPairs(enc: HandleWriter, index: seq<IndexEntry>): (ps: seq<Pair>)
    ensures |ps| == |index| && forall i {:trigger ps[i]} :: 0 <= i < |index| ==> ps[i] == Pair(index[i].key, enc(index[i].handle))
  {
    if index == [] then [] else AsPairs(enc, index[..|index| - 1]) + [Pair(index[|index| - 1].key, enc(index[|index| - 1].handle))]
  }

  ghost predicate IndexFits(index: seq<IndexEntry>) {
    forall i :: 0 <= i < |index| ==> KeyFits(index[i].key) && HandleOk(index[i].handle)
  }

  /** The keys of an index ascend: each is between the last key of its block and the first
      of the next. */
  lemma {:induction false} IndexAscends(index: seq<IndexEntry>, blocks: seq<seq<Pair>>, all: seq<Pair>, i: nat, j: nat)
    requires Built(index, blocks, all) && i < j < |index|
    ensures ILess(index[i].key, index[j].key)
    decreases j
  {
    LastAtMost(index, blocks, all, j - 1);
    LastAtMost(index, blocks, all, j);
    var first, last := blocks[j][0].key, blocks[j][|blocks[j]| - 1].key;
    if |blocks[j]| > 1 {
      BlocksAscend(blocks, j, j, 0, |blocks[j]| - 1);
    }
    Chain(index[j - 1].key, first, last, index[j].key);
    if i < j - 1 {
      IndexAscends(index, blocks, all, i, j - 1);
    }
  }

  lemma Chain(a: IKey, b: IKey, c: IKey, d: IKey)
    requires ILess(a, b) && IAtMost(b, c) && IAtMost(c, d)
    ensures ILess(a, d)
  {}

  lemma HandlesAreShort()
    ensures Short(HandleCoder())
  {
    var enc := HandleCoder();
    forall h {:trigger enc(h)} | HandleOk(h) ensures |enc(h)| <= MAX_HANDLE {
      Pow128Values();
      VarintLength(h.offset, 10);
      VarintLength(h.size, 10);
    }
  }

  lemma SameFirstIndex(enc: HandleWriter, index: seq<IndexEntry>, target: IKey, i: nat)
    requires IsFirst(AsPairs(enc, index), target, i)
    ensures IsFirstIndex(index, target, i)
  {
    var ps := AsPairs(enc, index);
    assert forall x :: 0 <= x < |ps| ==> ps[x].key == index[x].key;
  }

  /** The entries of an index block. */
  lemma IndexIsBlock(enc: HandleWriter, index: seq<IndexEntry>, blocks: seq<seq<Pair>>, all: seq<Pair>)
    requires Built(index, blocks, all) && IndexFits(index) && Short(enc)
    ensures Ascending(AsPairs(enc, index)) && AllFit(AsPairs(enc, index))
  {
    var ps := AsPairs(enc, index);
    forall i, j | 0 <= i < j < |ps| ensures ILess(ps[i].key, ps[j].key) {
      IndexAscends(index, blocks, all, i, j);
    }
    forall i | 0 <= i < |ps| ensures PairFits(ps[i]) {
      assert |enc(index[i].handle)| <= MAX_HANDLE;
    }
  }

  /** Seeking in the bytes of the index block finds the handle of the first block whose index
      key is at or after the key. */
  method SeekInIndex(contents: seq<byte>, target: IKey, ghost index: seq<IndexEntry>, ghost blocks: seq<seq<Pair>>, ghost all: seq<Pair>)
    returns (r: Option<Handle>)
    requires HoldsPairs(contents, AsPairs(HandleCoder(), index)) && |contents| < UINT32 && Built(index, blocks, all) && IndexFits(index) && KeyFits(target)
    ensures exists i: nat :: IsFirstIndex(index, target, i) && r == if i < |index| then Some(index[i].handle) else None
  {
    ghost var ps := AsPairs(HandleCoder(), index);
    HandlesAreShort();
    IndexIsBlock(HandleCoder(), index, blocks, all);
    var p := SeekInBlock(contents, target, ps);
    ghost var i: nat :| IsFirst(ps, target, i) && p == if i < |ps| then Some(ps[i]) else None;
    SameFirstIndex(HandleCoder(), index, target, i);
    r := None;
    if p.Some? {
      assert ps[i].value == HandleBytes(index[i].handle) + [];
      var t;
      r, t := DecodeHandle(p.value.value, index[i].handle, []);
    }
  }
}
