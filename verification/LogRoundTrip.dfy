/** Writing a log and reading back any prefix of the file. */
module LogRoundTrip {
  import opened Keys
  import opened LogFormat
  import opened LogReader

  lemma {:induction false} SizeIsLength(crc: Crc, offset: nat, fs: seq<Fragment>)
    ensures |Bytes(Written(crc), offset, fs)| == Size(offset, fs)
    decreases fs
  {
    if fs != [] {
      SizeIsLength(crc, End(offset, fs[0]), fs[1..]);
    }
  }

  /** One more record after those already in the log. */
  lemma LogMore(crc: Crc, records: seq<seq<byte>>, r: seq<byte>)
    ensures var offset := After(0, SplitAll(0, records));
            && Log(crc, records + [r]) == Log(crc, records) + Bytes(Written(crc), offset, Split(offset, r, true))
            && After(0, SplitAll(0, records + [r])) == After(offset, Split(offset, r, true))
            && |Log(crc, records + [r])| == |Log(crc, records)| + RecordSize(offset, r)
  {
    var offset := After(0, SplitAll(0, records));
    var fs := Split(offset, r, true);
    assert [r][1..] == [];
    assert SplitAll(offset, [r]) == fs + [] == fs;
    LogConcat(crc, records, [r]);
    SplitAllConcat(0, records, [r]);
    AfterConcat(0, SplitAll(0, records), fs);
    SizeIsLength(crc, offset, fs);
  }

  /** A log only grows with more records. */
  lemma LogGrows(crc: Crc, records: seq<seq<byte>>, n: nat)
    requires n <= |records|
    ensures |Log(crc, records[..n])| <= |Log(crc, records)|
  {
    LogConcat(crc, records[..n], records[n..]);
    assert records[..n] + records[n..] == records;
  }

  /** A new file holding the given records. */
  method WriteLog(crc: Crc, records: seq<seq<byte>>) returns (file: seq<byte>)
    ensures file == Log(crc, records)
  {
    var writer := new Writer(crc, []);
    for i := 0 to |records|
      invariant fresh(writer) && writer.crc == crc && writer.blockOffset <= BLOCK
      invariant writer.dest == Log(crc, records[..i]) && writer.blockOffset == After(0, SplitAll(0, records[..i]))
    {
      LogMore(crc, records[..i], records[i]);
      assert records[..i + 1] == records[..i] + [records[i]];
      writer.AddRecord(records[i]);
    }
    assert records[..|records|] == records;
    file := writer.dest;
  }

  /** k records of the log have been read. */
  ghost function ViewAt(crc: Crc, records: seq<seq<byte>>, k: nat): View
    requires k <= |records|
  {
    var offset := After(0, SplitAll(0, records[..k]));
    View(Log(crc, records), offset, SplitAll(offset, records[k..]))
  }

  lemma ViewMoves(crc: Crc, records: seq<seq<byte>>, k: nat)
    requires k < |records|
    ensures Beyond(ViewAt(crc, records, k), records[k..]) == ViewAt(crc, records, k + 1)
    ensures |Log(crc, records[..k + 1])| == |Log(crc, records[..k])| + RecordSize(ViewAt(crc, records, k).offset, records[k])
  {
    LogMore(crc, records[..k], records[k]);
    assert records[..k + 1] == records[..k] + [records[k]];
    assert records[k..][1..] == records[k + 1..];
  }

  /** Reading a file that holds a prefix of a log gives the records that are wholly in
      it, no more, and reports no corruption. */
  method ReadLog(crc: Crc, checksum: bool, file: seq<byte>, ghost records: seq<seq<byte>>) returns (read: seq<seq<byte>>, reported: nat)
    requires file <= Log(crc, records)
    ensures read <= records && reported == 0
    ensures |Log(crc, read)| <= |file| && (|read| < |records| ==> |file| < |Log(crc, records[..|read| + 1])|)
  {
    var reader := new Reader(crc, checksum, file);
    read := [];
    ghost var v := ViewAt(crc, records, 0);
    assert records[..0] == [] && records[0..] == records;
    SplitAllFits(0, records);
    assert v.whole[0..] == v.whole;
    while true
      invariant fresh(reader) && reader.crc == crc && reader.file == file && reader.Valid() && reader.reported == 0
      invariant read <= records && v == ViewAt(crc, records, |read|) && reader.At(v, records[|read|..])
      invariant reader.Here() == |Log(crc, read)|
      decreases |file| - reader.Here()
    {
      ghost var k := |read|;
      assert read == records[..k];
      if k < |records| {
        ViewMoves(crc, records, k);
      }
      var r := reader.ReadRecord(v, records[k..]);
      if r == None {
        break;
      }
      v := Beyond(v, records[k..]);
      read := read + [r.value];
      assert records[..k + 1] == records[..k] + [records[k]];
      assert records[k..][1..] == records[k + 1..];
    }
    reported := reader.reported;
  }

  /** The whole file gives back all records. */
  method RoundTrip(crc: Crc, checksum: bool, records: seq<seq<byte>>) returns (read: seq<seq<byte>>, reported: nat)
    ensures read == records && reported == 0
  {
    var file := WriteLog(crc, records);
    read, reported := ReadLog(crc, checksum, file, records);
    if |read| < |records| {
      LogGrows(crc, records, |read| + 1);
    }
  }
}
