/** The bytes of a table file around its blocks: block trailers and the footer
    (table/format.cc). */
module TableFormat {
  import opened Coding
  import opened Keys
  import opened Tables
  import opened TableBlocks

  /** The masked CRC of contents and type, as stored; any function will do. */
  type Checksum = seq<byte> -> Word

  const NO_COMPRESSION: byte := 0

  // ----------------------------------------------------------------- raw blocks

  function RawBlock(sum: Checksum, contents: seq<byte>): (b: seq<byte>)
    ensures |b| == |contents| + TRAILER
  {
    contents + ([NO_COMPRESSION] + sum(contents + [NO_COMPRESSION]))
  }

  /** The file has these contents, with their trailer, where the handle says. */
  ghost predicate Stored(sum: Checksum, file: seq<byte>, h: Handle, contents: seq<byte>) {
    && h.size == |contents| && h.offset + h.size + TRAILER <= |file|
    && file[h.offset..h.offset + h.size + TRAILER] == RawBlock(sum, contents)
  }

  lemma StoredStays(sum: Checksum, file: seq<byte>, more: seq<byte>, h: Handle, contents: seq<byte>)
    requires Stored(sum, file, h, contents)
    ensures Stored(sum, file + more, h, contents)
  {
    var a, b := h.offset, h.offset + h.size + TRAILER;
    assert (file + more)[a..b] == file[a..b];
  }

  lemma StoredLast(sum: Checksum, file: seq<byte>, contents: seq<byte>)
    ensures Stored(sum, file + RawBlock(sum, contents), Handle(|file|, |contents|), contents)
  {
    var raw := RawBlock(sum, contents);
    assert (file + raw)[|file|..|file| + |raw|] == raw;
  }

  /** ReadBlock, for blocks that are not compressed. */
  method ReadBlock(file: seq<byte>, verify: bool, sum: Checksum, h: Handle, ghost contents: seq<byte>) returns (r: Option<seq<byte>>)
    ensures Stored(sum, file, h, contents) ==> r == Some(contents)
  {
    r := None;
    var n := h.size;
    if h.offset + n + TRAILER > |file| {
      return;
    }
    var data := file[h.offset..h.offset + n + TRAILER];
    assert Stored(sum, file, h, contents) ==> data[..n + 1] == contents + [NO_COMPRESSION];
    if verify && data[n + 1..] != sum(data[..n + 1]) {
      return;
    }
    if data[n] == NO_COMPRESSION {
      r := Some(data[..n]);
    }
  }

  // --------------------------------------------------------------------- footer

  const FOOTER := 48              // Footer::kEncodedLength
  const MAGIC_LOW := 0x8b80fb57
  const MAGIC_HIGH := 0xdb477524

  function Zeros(n: nat): seq<byte> {
    seq(n, _ => 0)
  }

  function Padding(b: seq<byte>): seq<byte> {
    if |b| <= 2 * MAX_HANDLE then Zeros(2 * MAX_HANDLE - |b|) else []
  }

  /** The ways to write numbers and handles. */
  datatype Codec = Codec(word: WordWriter, handle: HandleWriter)

  function CODEC(): Codec {
    Codec(Fixed32(), HandleCoder())
  }

  function Handles(enc: HandleWriter, meta: Handle, index: Handle): seq<byte> {
    enc(meta) + enc(index)
  }

  function FooterBytes(c: Codec, meta: Handle, index: Handle): seq<byte> {
    var hs := Handles(c.handle, meta, index);
    hs + Padding(hs) + (c.word(MAGIC_LOW) + c.word(MAGIC_HIGH))
  }

  lemma FooterSize(c: Codec, meta: Handle, index: Handle)
    requires HandleOk(meta) && HandleOk(index) && Short(c.handle)
    ensures |FooterBytes(c, meta, index)| == FOOTER
    ensures var hs := Handles(c.handle, meta, index); |hs + Padding(hs)| == 2 * MAX_HANDLE
  {
    assert |c.handle(meta)| <= MAX_HANDLE && |c.handle(index)| <= MAX_HANDLE;
  }

  /** Footer::EncodeTo, onto the end of the file. */
  method EncodeFooter(c: Codec, meta: Handle, index: Handle) returns (b: seq<byte>)
    ensures b == FooterBytes(c, meta, index)
  {
    b := c.handle(meta);
    b := b + c.handle(index);
    b := b + Padding(b);
    b := b + (c.word(MAGIC_LOW) + c.word(MAGIC_HIGH));
  }

  lemma MagicReads(front: seq<byte>)
    ensures var b := front + (Fixed32()(MAGIC_LOW) + Fixed32()(MAGIC_HIGH));
            DecodeFixed32(b, |front|) == MAGIC_LOW && DecodeFixed32(b, |front| + 4) == MAGIC_HIGH
  {
    var put, ns := Fixed32(), [MAGIC_LOW, MAGIC_HIGH];
    WordValue(MAGIC_LOW);
    WordValue(MAGIC_HIGH);
    WordRead(put, front, ns, [], 0);
    WordRead(put, front, ns, [], 1);
    TwoWords(put, MAGIC_LOW, MAGIC_HIGH);
    assert front + Words(put, ns) + [] == front + (put(MAGIC_LOW) + put(MAGIC_HIGH));
  }

  lemma TwoWords(put: WordWriter, a: nat, b: nat)
    ensures Words(put, [a, b]) == put(a) + put(b)
  {
    LastWord(put, [a], b);
    LastWord(put, [], a);
    assert [] + [a] == [a] && [a] + [b] == [a, b];
    assert Words(put, []) == [];
  }

  /** Footer::DecodeFrom */
  method DecodeFooter(b: seq<byte>, ghost meta: Handle, ghost index: Handle) returns (r: Option<(Handle, Handle)>)
    requires |b| == FOOTER
    ensures HandleOk(meta) && HandleOk(index) && b == FooterBytes(CODEC(), meta, index) ==> r == Some((meta, index))
  {
    r := None;
    ghost var hs := HandleBytes(meta) + HandleBytes(index);
    if HandleOk(meta) && HandleOk(index) && b == FooterBytes(CODEC(), meta, index) {
      HandlesAreShort();
      FooterSize(CODEC(), meta, index);
      MagicReads(hs + Padding(hs));
    }
    if DecodeFixed32(b, 40) != MAGIC_LOW || DecodeFixed32(b, 44) != MAGIC_HIGH {
      return;
    }
    ghost var after := Padding(hs) + (Fixed32()(MAGIC_LOW) + Fixed32()(MAGIC_HIGH));
    ghost var rest := HandleBytes(index) + after;
    assert b == FooterBytes(CODEC(), meta, index) ==> b == HandleBytes(meta) + rest;
    var m, t := DecodeHandle(b, meta, rest);
    if m.Some? {
      var i, t' := DecodeHandle(t, index, after);
      if i.Some? {
        r := Some((m.value, i.value));
      }
    }
  }

  // ------------------------------------------------------------ blocks of pairs

  /** The block of these entries is where the handle says. */
  ghost predicate PairsAt(sum: Checksum, file: seq<byte>, h: Handle, ps: seq<Pair>) {
    exists contents :: Stored(sum, file, h, contents) && HoldsPairs(contents, ps)
  }

  lemma PairsStay(sum: Checksum, file: seq<byte>, more: seq<byte>, h: Handle, ps: seq<Pair>)
    requires PairsAt(sum, file, h, ps)
    ensures PairsAt(sum, file + more, h, ps)
  {
    var contents :| Stored(sum, file, h, contents) && HoldsPairs(contents, ps);
    StoredStays(sum, file, more, h, contents);
  }

  /** The contents of a block of these entries (BlockBuilder Add for each, then Finish). */
  method BuildPairs(ps: seq<Pair>, interval: nat) returns (contents: seq<byte>)
    requires interval >= 1 && AllFit(ps)
    ensures HoldsPairs(contents, ps)
  {
    var es := Encoded(Fixed64(), ps);
    ghost var buffer, l;
    contents, buffer, l := BlockRoundTrip.Build(es, interval);
  }
}
