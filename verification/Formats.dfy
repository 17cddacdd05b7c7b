/** What the formats come to in bytes, number by number: a writer and a reader that agree only
    with each other do not make a file that another program can read. */
module Formats {
  import opened Coding
  import opened Keys
  import B = BlockFormat
  import E = VersionEdits
  import F = TableFormat
  import G = GroupCommit
  import L = LogFormat
  import P = PbTypes
  import T = TableBlocks
  import Tables
  import U = Punycode
  import W = WriteBatches

  // ------------------------------------------------------------------ numbers

  ghost function Base128(b: seq<byte>): nat {
    if b == [] then 0 else b[0] as int % 128 + 128 * Base128(b[1..])
  }

  /** A varint has seven bits a byte, least significant first; all bytes but the last have the high
      bit, and none is for nothing. */
  lemma {:induction false} VarintIs(n: nat)
    ensures Base128(Varint(n)) == n
    ensures forall i :: 0 <= i < |Varint(n)| ==> (Varint(n)[i] < 128 <==> i == |Varint(n)| - 1)
    ensures |Varint(n)| > 1 ==> Varint(n)[|Varint(n)| - 1] != 0
  {
    if n >= 128 {
      VarintIs(n / 128);
      assert Varint(n)[1..] == Varint(n / 128);
    } else {
      assert Varint(n)[1..] == [];
    }
  }

  /** A word has the least significant byte first, */
  lemma WordIs(a: byte, b: byte, c: byte, d: byte)
    ensures FromBytes([a, b, c, d]) == a as int + 0x100 * b as int + 0x1_0000 * c as int + 0x100_0000 * d as int
  {
    var (y, z, w) := ([b, c, d], [c, d], [d]);
    assert [a, b, c, d][1..] == y && y[1..] == z && z[1..] == w && w[1..] == [];
    assert FromBytes([a, b, c, d]) == a as int + 256 * FromBytes(y);
    assert FromBytes(y) == b as int + 256 * FromBytes(z);
    assert FromBytes(z) == c as int + 256 * FromBytes(w);
    assert FromBytes(w) == d as int + 256 * FromBytes(w[1..]);
  }

  /** and writing it undoes reading it. */
  lemma {:induction false} WrittenAsRead(b: seq<byte>)
    ensures LittleEndian(FromBytes(b), |b|) == b && FromBytes(b) < Pow256(|b|)
  {
    if b != [] {
      WrittenAsRead(b[1..]);
      OneByteMore(b[0], FromBytes(b[1..]), |b| - 1);
      assert b == [b[0]] + b[1..];
    }
  }

  lemma OneByteMore(a: byte, n: nat, w: nat)
    ensures LittleEndian(a as int + 256 * n, w + 1) == [a] + LittleEndian(n, w)
  {
    assert (a as int + 256 * n) % 256 == a as int && (a as int + 256 * n) / 256 == n;
  }

  /** A number that takes one byte. */
  predicate Small(n: nat) {
    n < 128
  }

  // ------------------------------------------------------------------- LevelDB

  /** The records of a version edit, */
  lemma EditRecordsAre(s: seq<byte>, n: nat, level: nat)
    requires Small(|s|) && Small(n) && Small(level)
    ensures E.RecordBytes(E.Name(s)) == [1, |s|] + s
    ensures E.RecordBytes(E.Pointer(level, s)) == [5, level, |s|] + s
    ensures E.RecordBytes(E.Deleted(level, n)) == [6, level, n]
  {
    assert E.Payload(E.Pointer(level, s)) == [level] + ([|s|] + s);
    assert E.Payload(E.Name(s)) == [|s|] + s;
  }

  lemma AddedRecordIs(level: nat, f: E.FileMetaData)
    requires Small(level) && Small(f.number) && Small(f.fileSize) && Small(|f.smallest|) && Small(|f.largest|)
    ensures E.RecordBytes(E.Added(level, f)) == [7, level, f.number, f.fileSize, |f.smallest|] + f.smallest + [|f.largest|] + f.largest
  {
    FileIs(f);
    assert E.RecordBytes(E.Added(level, f)) == [7] + ([level] + E.FileBytes(f));
    Joined(E.FileBytes(f), level, f.number, f.fileSize, |f.smallest|, f.smallest, [|f.largest|], f.largest);
  }

  lemma FileIs(f: E.FileMetaData)
    requires Small(f.number) && Small(f.fileSize) && Small(|f.smallest|) && Small(|f.largest|)
    ensures E.FileBytes(f) == [f.number, f.fileSize, |f.smallest|] + (f.smallest + [|f.largest|] + f.largest)
  {}

  lemma Joined(file: seq<byte>, level: byte, x: byte, y: byte, z: byte, s: seq<byte>, m: seq<byte>, t: seq<byte>)
    requires file == [x, y, z] + (s + m + t)
    ensures [7] + ([level] + file) == [7, level, x, y, z] + s + m + t
  {}

  /** and their order, with the tags of the numbers among them. */
  lemma EditIs(name: seq<byte>, log: nat, prev: nat, next: nat, last: nat, p: (nat, seq<byte>), gone: (nat, nat), added: (nat, E.FileMetaData))
    ensures E.Records(E.Edit(Some(name), Some(log), Some(prev), Some(next), Some(last), [p], [gone], [added]))
         == [E.Name(name), E.Number(2, log), E.Number(9, prev), E.Number(3, next), E.Number(4, last), E.Pointer(p.0, p.1), E.Deleted(gone.0, gone.1), E.Added(added.0, added.1)]
    ensures forall tag: nat, n: nat :: Small(tag) && Small(n) ==> E.RecordBytes(E.Number(tag, n)) == [tag, n]
  {
    assert E.PointerRecords([p]) == [E.Pointer(p.0, p.1)];
    assert E.DeletedRecords([gone]) == [E.Deleted(gone.0, gone.1)];
    assert E.AddedRecords([added]) == [E.Added(added.0, added.1)];
  }

  /** The records of a write batch. */
  lemma BatchIs(key: UserKey, value: seq<byte>)
    requires Small(|key|) && Small(|value|)
    ensures W.OpsBytes([G.Op(Value, key, value), G.Op(Deletion, key, [])]) == [1, |key|] + key + [|value|] + value + [0, |key|] + key
  {
    var put, delete := G.Op(Value, key, value), G.Op(Deletion, key, []);
    assert [put, delete] == [put] + [delete];
    W.OpsBytesAppend([put], [delete]);
    W.OneOp(put);
    W.OneOp(delete);
  }

  lemma {:induction false} SameBytes(x: seq<byte>, y: seq<byte>)
    requires |x| == |y| && FromBytes(x) == FromBytes(y)
    ensures x == y
  {
    if x != [] {
      SameBytes(x[1..], y[1..]);
      assert x == [x[0]] + x[1..] && y == [y[0]] + y[1..];
    }
  }

  lemma Below(b: seq<byte>)
    requires |b| == 7
    ensures 256 * FromBytes(b) + 255 < UINT64
  {
    WrittenAsRead([0] + b);
    Pow256Values();
    assert ([0] + b)[1..] == b;
  }

  /** An internal key ends in the kind and the seven bytes of the sequence number. */
  lemma KeyIs(put: T.TagWriter, u: UserKey, b: seq<byte>, kind: Kind)
    requires T.Exact(put) && |b| == 7
    ensures T.EncodeKey(put, IKey(u, FromBytes(b), kind)) == u + ([if kind == Value then 1 else 0] + b)
  {
    var tag := [if kind == Value then 1 as byte else 0] + b;
    assert tag[1..] == b;
    Below(b);
    SameBytes(put(Tag(IKey(u, FromBytes(b), kind))), tag);
  }

  /** The entry of a block, */
  lemma EntryIs(shared: nat, e: B.Entry)
    requires shared <= |e.key| && Small(|e.key|) && Small(|e.value|)
    ensures B.EntryBytes(shared, e) == [shared, |e.key| - shared, |e.value|] + e.key[shared..] + e.value
  {}

  /** what follows a block that is not compressed, */
  lemma BlockIs(sum: F.Checksum, contents: seq<byte>)
    ensures F.RawBlock(sum, contents) == contents + [0] + sum(contents + [0])
  {}

  /** and the end of a table file. */
  lemma FooterIs(meta: Tables.Handle, index: Tables.Handle)
    requires T.HandleOk(meta) && T.HandleOk(index)
    ensures var b := F.FooterBytes(F.CODEC(), meta, index);
            |b| == 48 && b[40..] == [0x57, 0xfb, 0x80, 0x8b, 0x24, 0x75, 0x47, 0xdb]
    ensures Small(meta.offset) && Small(meta.size) && Small(index.offset) && Small(index.size) ==>
              F.FooterBytes(F.CODEC(), meta, index)[..5] == [meta.offset, meta.size, index.offset, index.size, 0]
  {
    T.HandlesAreShort();
    F.FooterSize(F.CODEC(), meta, index);
    WordIs(0x57, 0xfb, 0x80, 0x8b);
    WordIs(0x24, 0x75, 0x47, 0xdb);
    WrittenAsRead([0x57, 0xfb, 0x80, 0x8b]);
    WrittenAsRead([0x24, 0x75, 0x47, 0xdb]);
  }

  /** A record that fits into the first block of a log, */
  lemma LogIs(crc: L.Crc, data: seq<byte>)
    requires |data| <= 32761
    ensures L.Bytes(L.Written(crc), 0, L.Split(0, data, true)) == crc([1] + data) + [|data| % 256, |data| / 256, 1] + data
  {
    var f := L.Fragment(1, data);
    HeaderIs(crc, f);
    OnlyFragment(data);
    OneFragment(crc, f);
  }

  lemma OnlyFragment(data: seq<byte>)
    requires |data| <= 32761
    ensures L.Split(0, data, true) == [L.Fragment(1, data)]
  {
    assert L.Available(0) == 32761;
  }

  lemma OneFragment(crc: L.Crc, f: L.Fragment)
    ensures L.Bytes(L.Written(crc), 0, [f]) == L.Header(crc, f) + f.payload
  {
    assert [f][1..] == [];
    assert L.FragmentBytes(crc, 0, f) == [] + L.Header(crc, f) + f.payload;
  }

  lemma HeaderIs(crc: L.Crc, f: L.Fragment)
    requires f.kind < 256 && |f.payload| <= 32761
    ensures L.Header(crc, f) == crc([f.kind] + f.payload) + [|f.payload| % 256, |f.payload| / 256, f.kind]
  {
    assert |f.payload| / 256 % 256 == |f.payload| / 256;
  }

  /** and the first part of one that does not. */
  lemma FirstPartIs(crc: L.Crc, data: seq<byte>)
    requires |data| > 32761
    ensures |L.Bytes(L.Written(crc), 0, L.Split(0, data, true))| >= 32768
    ensures L.Bytes(L.Written(crc), 0, L.Split(0, data, true))[..32768] == crc([2] + data[..32761]) + [0xf9, 0x7f, 2] + data[..32761]
  {
    var fs := L.Split(0, data, true);
    var f := L.Fragment(2, data[..32761]);
    HeaderIs(crc, f);
    assert fs[0] == f;
    assert L.Bytes(L.Written(crc), 0, fs) == L.FragmentBytes(crc, 0, f) + L.Bytes(L.Written(crc), L.End(0, f), fs[1..]);
    assert L.FragmentBytes(crc, 0, f) == [] + L.Header(crc, f) + data[..32761];
  }

  // -------------------------------------------------------------------- nanopb

  /** Fields with a number, */
  lemma NumberFieldIs(tag: nat, slot: nat, init: P.Value, n: nat)
    requires 1 <= tag < 16 && Small(2 * n + 1)
    ensures P.TaggedValue(P.Field(tag, P.Bool, P.Optional, slot, init), P.BoolV(true)) == [8 * tag, 1]
    ensures P.TaggedValue(P.Field(tag, P.UInt(4), P.Optional, slot, init), P.NumV(n)) == [8 * tag, n]
    ensures P.TaggedValue(P.Field(tag, P.Int(4), P.Optional, slot, init), P.NumV(n)) == [8 * tag, n]
    ensures P.TaggedValue(P.Field(tag, P.SInt(4), P.Optional, slot, init), P.NumV(n)) == [8 * tag, 2 * n]
    ensures P.TaggedValue(P.Field(tag, P.SInt(4), P.Optional, slot, init), P.NumV(-1 - n as int)) == [8 * tag, 2 * n + 1]
  {
    Pow256Values();
  }

  /** a negative one in ten bytes, */
  lemma NegativeFieldIs(tag: nat, slot: nat, init: P.Value)
    requires 1 <= tag < 16
    ensures P.TaggedValue(P.Field(tag, P.Int(4), P.Optional, slot, init), P.NumV(-1)) == [8 * tag, 255, 255, 255, 255, 255, 255, 255, 255, 255, 1]
  {
    Pow256Values();
    Pow128Values();
    Ones(9);
    assert 2 * Pow128(9) - 1 == P.Unsigned(-1);
    assert seq(9, _ => 255 as byte) + [1] == [255, 255, 255, 255, 255, 255, 255, 255, 255, 1];
  }

  lemma {:induction false} Ones(k: nat)
    ensures Varint(2 * Pow128(k) - 1) == seq(k, _ => 255) + [1]
  {
    if k > 0 {
      Ones(k - 1);
      var n := 2 * Pow128(k) - 1;
      assert n == 128 * (2 * Pow128(k - 1) - 1) + 127;
      assert seq(k, _ => 255 as byte) == [255] + seq(k - 1, _ => 255 as byte);
    }
  }

  /** of a fixed width, */
  lemma FixedFieldIs(tag: nat, slot: nat, init: P.Value, b: seq<byte>)
    requires 1 <= tag < 16
    ensures |b| == 4 ==> P.TaggedValue(P.Field(tag, P.Fixed32, P.Optional, slot, init), P.NumV(FromBytes(b))) == [8 * tag + 5] + b
    ensures |b| == 8 ==> P.TaggedValue(P.Field(tag, P.Fixed64, P.Optional, slot, init), P.NumV(FromBytes(b))) == [8 * tag + 1] + b
  {
    Pow256Values();
    WrittenAsRead(b);
  }

  /** and what is not written: absent fields, and in proto3 zeros. */
  lemma NothingIsWritten(tag: nat, slot: nat, init: P.Value, v: P.Value)
    requires 1 <= tag < 16
    ensures P.FieldBytes(P.Field(tag, P.UInt(4), P.Optional, slot, init), P.Opt(false, v)) == []
    ensures P.FieldBytes(P.Field(tag, P.UInt(4), P.Implicit, slot, init), P.Plain(P.NumV(0))) == []
    ensures P.FieldBytes(P.Field(tag, P.Bytes(100), P.Implicit, slot, init), P.Plain(P.BytesV([]))) == []
    ensures P.FieldBytes(P.Field(tag, P.UInt(4), P.Repeated(2), slot, init), P.Array([])) == []
    ensures P.FieldBytes(P.Field(tag, P.UInt(4), P.Oneof, slot, init), P.Union(None)) == []
    ensures P.FieldBytes(P.Field(tag, P.UInt(4), P.Required, slot, init), P.Plain(P.NumV(0))) != []
  {}

  /** Fields with bytes, and packed. */
  lemma BytesFieldIs(tag: nat, slot: nat, init: P.Value, n: nat, b: seq<byte>)
    requires 1 <= tag < 16 && Small(n) && Small(|b|)
    ensures P.TaggedValue(P.Field(tag, P.Bytes(100), P.Optional, slot, init), P.BytesV(b)) == [8 * tag + 2, |b|] + b
    ensures P.FieldBytes(P.Field(tag, P.UInt(4), P.Repeated(2), slot, init), P.Array([P.NumV(n), P.NumV(n)])) == [8 * tag + 2, 2, n, n]
  {
    Pow256Values();
    var k, items := P.UInt(4), [P.NumV(n), P.NumV(n)];
    assert P.Payload(k, items[0]) == [n] && P.Payload(k, items[1]) == [n];
    assert P.Packed(k, items, 2) == [];
    assert P.Packed(k, items, 1) == [n] + P.Packed(k, items, 2);
    assert P.Packed(k, items, 0) == [n] + P.Packed(k, items, 1);
  }

  // ------------------------------------------------------------------ Punycode

  /** Three digits, at these weights. */
  lemma ThreeDigits(ds: seq<nat>, bias: nat)
    requires |ds| == 3
    ensures U.Total(ds, bias) == ds[0] + ds[1] * (36 - U.Threshold(36, bias)) + ds[2] * ((36 - U.Threshold(36, bias)) * (36 - U.Threshold(72, bias)))
  {
    assert U.Weight(1, bias) == 36 - U.Threshold(36, bias) && U.Weight(2, bias) == U.Weight(1, bias) * (36 - U.Threshold(72, bias));
    var (a, b) := (ds[..1], ds[..2]);
    assert b[..1] == a && a[..0] == [];
    assert U.Total(a, bias) == U.Total(a[..0], bias) + a[0] * U.Weight(0, bias);
    assert U.Total(b, bias) == U.Total(a, bias) + b[1] * U.Weight(1, bias);
    assert U.Total(ds, bias) == U.Total(b, bias) + ds[2] * U.Weight(2, bias);
  }

  lemma FourDigits(ds: seq<nat>, bias: nat)
    requires |ds| == 4
    ensures U.Total(ds, bias) == U.Total(ds[..3], bias)
              + ds[3] * (((36 - U.Threshold(36, bias)) * (36 - U.Threshold(72, bias))) * (36 - U.Threshold(108, bias)))
  {
    assert U.Weight(1, bias) == 36 - U.Threshold(36, bias) && U.Weight(2, bias) == U.Weight(1, bias) * (36 - U.Threshold(72, bias));
    assert U.Weight(3, bias) == U.Weight(2, bias) * (36 - U.Threshold(108, bias));
  }

  lemma OneInteger(st: U.State, input: seq<nat>, pos: nat, ds: seq<nat>)
    requires U.SpelledAt(input, pos, ds) && U.Whole(ds, st.bias)
    ensures U.Run(U.Place, st, input, pos) == U.Run(U.Place, U.Place(st, ds), input, pos + |ds|)
  {
    U.ReadsWhole(input, pos, ds, 0, st.bias);
  }

  lemma {:induction false} NoDelimiter(input: seq<nat>, end: nat)
    requires end <= |input| && forall i :: 0 <= i < end ==> input[i] != 45
    ensures U.LastDelimiter(input, end) == None
  {
    if end > 0 {
      NoDelimiter(input, end - 1);
    }
  }

  /** "wgv71a119e" */
  predicate IsName(input: seq<nat>) {
    && |input| == 10 && input[0] == 119 && input[1] == 103 && input[2] == 118 && input[3] == 55 && input[4] == 49
    && input[5] == 97 && input[6] == 49 && input[7] == 49 && input[8] == 57 && input[9] == 101
  }

  lemma FirstCharacter(st: U.State, ds: seq<nat>)
    requires st == U.State(128, 0, 72, []) && ds == [22, 6, 21]
    ensures U.Place(st, ds) == U.State(26085, 1, 23, [26085])
  {
    ThreeDigits(ds, 72);
    assert U.Damped(25957, 1, true) == 74 && U.Reduce(74, 0) == 23;
  }

  lemma SecondCharacter(st: U.State, ds: seq<nat>)
    requires st == U.State(26085, 1, 23, [26085]) && ds == [33, 27, 0]
    ensures U.Place(st, ds) == U.State(26412, 2, 45, [26085, 26412])
  {
    ThreeDigits(ds, 23);
    assert U.Damped(654, 2, false) == 490 && U.Reduce(14, 36) == 45;
  }

  lemma ThirdCharacter(st: U.State, ds: seq<nat>)
    requires st == U.State(26412, 2, 45, [26085, 26412]) && ds == [27, 27, 35, 4]
    ensures U.Place(st, ds).output == [26085, 26412, 35486]
  {
    ThreeDigits(ds[..3], 45);
    FourDigits(ds, 45);
  }

  lemma FirstRead(input: seq<nat>, a: U.State, b: U.State)
    requires IsName(input) && a == U.State(128, 0, 72, []) && b == U.State(26085, 1, 23, [26085])
    ensures U.Run(U.Place, a, input, 0) == U.Run(U.Place, b, input, 3)
  {
    var ds := [22, 6, 21];
    OneInteger(a, input, 0, ds);
    FirstCharacter(a, ds);
  }

  lemma SecondRead(input: seq<nat>, b: U.State, c: U.State)
    requires IsName(input) && b == U.State(26085, 1, 23, [26085]) && c == U.State(26412, 2, 45, [26085, 26412])
    ensures U.Run(U.Place, b, input, 3) == U.Run(U.Place, c, input, 6)
  {
    var ds := [33, 27, 0];
    OneInteger(b, input, 3, ds);
    SecondCharacter(b, ds);
  }

  lemma ThirdRead(input: seq<nat>, c: U.State)
    requires IsName(input) && c == U.State(26412, 2, 45, [26085, 26412])
    ensures var r := U.Run(U.Place, c, input, 6); r.Some? && r.value.output == [26085, 26412, 35486]
  {
    var ds := [27, 27, 35, 4];
    OneInteger(c, input, 6, ds);
    ThirdCharacter(c, ds);
  }

  /** It is the name of the Japanese language, in three characters. */
  lemma PunycodeIs(input: seq<nat>)
    requires IsName(input)
    ensures U.Decode(input) == Some([26085, 26412, 35486])
  {
    var a, b, c := U.State(128, 0, 72, []), U.State(26085, 1, 23, [26085]), U.State(26412, 2, 45, [26085, 26412]);
    NoDelimiter(input, 10);
    FirstRead(input, a, b);
    SecondRead(input, b, c);
    ThirdRead(input, c);
    Decoded(input, a);
  }

  lemma Decoded(input: seq<nat>, a: U.State)
    requires U.LastDelimiter(input, |input|) == None && a == U.State(128, 0, 72, [])
    ensures U.Decode(input) == match U.Run(U.Place, a, input, 0) { case None => None case Some(st) => Some(st.output) }
  {}
}
