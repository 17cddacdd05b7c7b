/** Reading a record log back (db/log_reader.cc, with initial offset 0). */
module LogReader {
  import opened Keys
  import opened LogFormat

  /** What ReadPhysicalRecord returns. */
  datatype Physical = Eof | BadRecord | Record(kind: nat, payload: seq<byte>)

  /** Every fragment fits into its block and has a kind the reader knows. */
  ghost predicate Fits(offset: nat, fs: seq<Fragment>)
    decreases fs
  {
    fs == [] || (|fs[0].payload| <= Available(offset) && FULL <= fs[0].kind <= LAST && Fits(End(offset, fs[0]), fs[1..]))
  }

  lemma {:induction false} FitsConcat(offset: nat, a: seq<Fragment>, b: seq<Fragment>)
    requires Fits(offset, a) && Fits(After(offset, a), b)
    ensures Fits(offset, a + b)
    decreases a
  {
    if a == [] {
      assert a + b == b;
    } else {
      FitsConcat(End(offset, a[0]), a[1..], b);
      assert (a + b)[1..] == a[1..] + b;
    }
  }

  lemma {:induction false} SplitFits(offset: nat, left: seq<byte>, begin: bool)
    ensures Fits(offset, Split(offset, left, begin)) && (offset <= BLOCK ==> After(offset, Split(offset, left, begin)) <= BLOCK)
    decreases |left|, if Available(offset) == 0 then 1 else 0
  {
    var fs := Split(offset, left, begin);
    if |left| > Available(offset) {
      SplitFits(BLOCK, left[Available(offset)..], false);
      assert fs[1..] == Split(BLOCK, left[Available(offset)..], false);
    } else {
      assert fs[1..] == [];
    }
  }

  lemma {:induction false} SplitAllFits(offset: nat, records: seq<seq<byte>>)
    ensures Fits(offset, SplitAll(offset, records))
    decreases records
  {
    if records != [] {
      var fs := Split(offset, records[0], true);
      SplitFits(offset, records[0], true);
      SplitAllFits(After(offset, fs), records[1..]);
      FitsConcat(offset, fs, SplitAll(After(offset, fs), records[1..]));
    }
  }

  /** A log with the reader's place in it: the whole file as written, of which the reader
      may have only a prefix, and the fragments that follow its position. */
  datatype View = View(whole: seq<byte>, offset: nat, rest: seq<Fragment>)

  ghost predicate Follows(crc: Crc, v: View, here: nat) {
    && here <= |v.whole| && v.offset <= BLOCK && here % BLOCK == v.offset % BLOCK
    && v.whole[here..] == Bytes(Written(crc), v.offset, v.rest) && Fits(v.offset, v.rest)
  }

  /** The length of the next fragment with the trailer before it. */
  ghost function Span(v: View): nat
    requires v.rest != []
  {
    Gap(v.offset) + HEADER + |v.rest[0].payload|
  }

  function Tail(v: View): View
    requires v.rest != []
  {
    View(v.whole, End(v.offset, v.rest[0]), v.rest[1..])
  }

  lemma Pieces<T>(z: seq<T>, h: seq<T>, p: seq<T>)
    ensures (z + h + p)[|z|..|z| + |h|] == h && (z + h + p)[|z| + |h|..] == p
  {}

  /** The place after the next fragment, counted in the file and in the block. */
  lemma Advances(here: nat, v: View)
    requires here % BLOCK == v.offset % BLOCK && v.offset <= BLOCK && v.rest != [] && |v.rest[0].payload| <= Available(v.offset)
    ensures (here + Span(v)) % BLOCK == End(v.offset, v.rest[0]) % BLOCK && End(v.offset, v.rest[0]) <= BLOCK
  {}

  /** Where the bytes of the next fragment are. */
  lemma NextFragment(crc: Crc, v: View, here: nat)
    requires Follows(crc, v, here) && v.rest != []
    ensures var h, f := here + Gap(v.offset), v.rest[0];
            && here + Span(v) <= |v.whole| && |f.payload| <= Available(v.offset)
            && v.whole[h..h + HEADER] == Header(crc, f) && v.whole[h + HEADER..here + Span(v)] == f.payload
            && Follows(crc, Tail(v), here + Span(v))
  {
    var f := v.rest[0];
    var z, head := Zeros(Gap(v.offset)), Header(crc, f);
    var b, t := z + head + f.payload, Bytes(Written(crc), End(v.offset, f), v.rest[1..]);
    assert v.whole[here..] == b + t;
    Sliced(v.whole, here, b, t);
    Pieces(z, head, f.payload);
    assert b[|z| + |head|..] == b[|z| + |head|..|b|];
    Advances(here, v);
  }

  lemma Sliced<T>(s: seq<T>, at: nat, b: seq<T>, t: seq<T>)
    requires at <= |s| && s[at..] == b + t
    ensures at + |b| <= |s| && s[at..at + |b|] == b && s[at + |b|..] == t
    ensures forall i, j {:trigger b[i..j]} :: 0 <= i <= j <= |b| ==> s[at + i..at + j] == b[i..j]
  {
    assert |s[at..]| == |b| + |t|;
    assert forall k :: 0 <= k < |b| ==> s[at + k] == s[at..][k] == b[k];
    assert forall k :: 0 <= k < |t| ==> s[at + |b| + k] == s[at..][|b| + k] == t[k];
  }

  /** The length field is stored low byte first. */
  lemma HeaderFields(crc: Crc, f: Fragment)
    requires |f.payload| <= BLOCK && f.kind < 256
    ensures var h := Header(crc, f);
            && h[4] as int + 256 * h[5] as int == |f.payload| && h[6] == f.kind && h[..4] == crc([h[6]] + f.payload)
  {}

  /** A header announces so many bytes of payload. */
  function Length(header: seq<byte>): nat
    requires |header| >= HEADER
  {
    header[4] as int + 256 * header[5] as int
  }

  /** log::Reader over a file whose reads succeed; `reported` counts the corruptions. */
  class Reader {
    const crc: Crc
    const checksum: bool
    const file: seq<byte>
    var pos: nat
    var buffer: seq<byte>
    var eof: bool
    var reported: nat

    constructor (crc: Crc, checksum: bool, file: seq<byte>)
      ensures this.crc == crc && this.checksum == checksum && this.file == file
      ensures Valid() && Here() == 0 && reported == 0 && !eof && pos == 0
    {
      this.crc, this.checksum, this.file := crc, checksum, file;
      pos, buffer, eof, reported := 0, [], false, 0;
    }

    ghost predicate Valid()
      reads this
    {
      && |buffer| <= pos <= |file| && buffer == file[pos - |buffer|..pos] && |buffer| <= BLOCK
      && (if eof then pos == |file| else pos % BLOCK == 0)
    }

    /** The position of the first byte not yet consumed. */
    ghost function Here(): nat
      reads this
      requires Valid()
    {
      pos - |buffer|
    }

    ghost predicate Finished()
      reads this
    {
      eof && buffer == []
    }

    /** The reader stands before v.rest, with the rest of a block in its buffer. */
    ghost predicate Sees(v: View)
      reads this
    {
      && Valid() && file <= v.whole && Follows(crc, v, Here())
      && (if eof then |buffer| <= BLOCK - v.offset
          else |buffer| == BLOCK - v.offset || (pos == 0 && v.offset == 0))
    }

    /** The buffer starts with the header of v's first fragment; v began at h. */
    ghost predicate Ready(v: View, h: nat)
      reads this
    {
      && Valid() && file <= v.whole && v.rest != [] && Follows(crc, v, h) && Here() == h + Gap(v.offset) && |buffer| >= HEADER
      && if eof then |buffer| <= BLOCK - Start(v.offset) else |buffer| == BLOCK - Start(v.offset)
    }

    /** The file ends before the next fragment of v does, or v has none. */
    ghost predicate CutShort(v: View, h: nat)
      reads this
    {
      v.rest != [] ==> |file| < h + Span(v)
    }

    /** Refill the buffer unless it holds a header: what it holds is a trailer. */
    method Fill()
      requires Valid()
      modifies this
      ensures Valid() && reported == old(reported) && (|buffer| < HEADER ==> eof)
      ensures |old(buffer)| >= HEADER || old(eof) ==> buffer == old(buffer) && pos == old(pos) && eof == old(eof)
      ensures |old(buffer)| < HEADER && !old(eof) ==> Refilled(old(pos))
    {
      while |buffer| < HEADER && !eof
        invariant Valid() && reported == old(reported)
        invariant (buffer == old(buffer) && pos == old(pos) && eof == old(eof))
               || (|old(buffer)| < HEADER && !old(eof) && Refilled(old(pos)) && (|buffer| >= HEADER || eof))
        decreases !eof, HEADER - |buffer|
      {
        var n := if |file| - pos < BLOCK then |file| - pos else BLOCK;
        buffer := file[pos..pos + n];
        pos := pos + n;
        if |buffer| < BLOCK {
          eof := true;
        }
      }
    }

    /** What filling does for a reader in a log. */
    method FillFor(ghost v: View)
      requires Valid()
      modifies this
      ensures Valid() && Here() >= old(Here()) && reported == old(reported) && (|buffer| < HEADER ==> eof)
      ensures old(Finished()) ==> Finished()
      ensures old(Sees(v)) ==> if |buffer| < HEADER then CutShort(v, old(Here())) else Ready(v, old(Here()))
    {
      ghost var here, seen := Here(), Sees(v);
      if seen && v.rest != [] {
        NextFragment(crc, v, here);
      }
      assert seen && v.rest == [] ==> |v.whole[here..]| == 0;
      Fill();
    }

    /** One block has been read from position p. */
    ghost predicate Refilled(p: nat)
      reads this
    {
      p + |buffer| == pos <= |file| && eof == (|buffer| < BLOCK)
    }

    /** Parsing finds v's first fragment, unless the file is cut short. */
    lemma ReadyParse(v: View, h: nat)
      requires Ready(v, h)
      ensures CutShort(v, h) ==> eof && Parse(crc, checksum, buffer) == Short
      ensures !CutShort(v, h) ==> Parse(crc, checksum, buffer) == Good(v.rest[0].kind, v.rest[0].payload)
    {
      var f, p := v.rest[0], Here();
      NextFragment(crc, v, h);
      Window(file, v.whole, p, buffer);
      assert buffer[..HEADER] == v.whole[p..p + HEADER];
      ParseFragment(crc, checksum, buffer, f);
    }

    /** What was parsed stands in the file. */
    ghost predicate InFile(r: Physical, at: nat)
      requires r.Record?
    {
      at + HEADER + |r.payload| <= |file| && Parse(crc, checksum, file[at..at + HEADER + |r.payload|]) == Good(r.kind, r.payload)
    }

    method Drop(n: nat)
      requires Valid() && n <= |buffer|
      modifies `buffer
      ensures Valid() && Here() == old(Here()) + n && |buffer| == |old(buffer)| - n
    {
      Shortened(file, Here(), pos, n);
      buffer := buffer[n..];
    }

    /** Before the record is dropped: where the rest of the log will be. */
    lemma TailFollows(v: View, h: nat)
      requires Ready(v, h)
      ensures Follows(crc, Tail(v), h + Span(v)) && Here() + HEADER + |v.rest[0].payload| == h + Span(v)
      ensures Tail(v).offset == Start(v.offset) + HEADER + |v.rest[0].payload|
    {
      NextFragment(crc, v, h);
    }

    /** Step over the record just parsed. */
    method Consume(length: nat, ghost v: View, ghost h: nat)
      requires Valid() && HEADER + length <= |buffer|
      modifies `buffer
      ensures Valid() && Here() == old(Here()) + HEADER + length
      ensures old(Ready(v, h)) && length == |v.rest[0].payload| ==> Sees(Tail(v)) && Here() == h + Span(v)
    {
      if Ready(v, h) {
        TailFollows(v, h);
      }
      Drop(HEADER + length);
    }

    lemma StandsInFile(kind: nat, payload: seq<byte>)
      requires Valid() && |buffer| >= HEADER && Parse(crc, checksum, buffer) == Good(kind, payload)
      ensures InFile(Record(kind, payload), Here())
    {
      ParsePrefix(crc, checksum, buffer);
      var n := HEADER + |payload|;
      assert buffer[..n] == file[Here()..Here() + n];
    }

    /** In a log, the next fragment or end of file; nothing is reported.  In any file, a
        record that is returned stands there with its checksum. */
    method ReadPhysicalRecord(ghost v: View) returns (r: Physical)
      requires Valid()
      modifies this
      ensures Valid() && (r != Eof ==> Here() > old(Here()))
      ensures r == Eof ==> Finished() && reported == old(reported)
      ensures old(Finished()) ==> r == Eof
      ensures r.Record? ==> Here() >= HEADER + |r.payload| && InFile(r, Here() - HEADER - |r.payload|)
      ensures old(Sees(v)) && old(CutShort(v, Here())) ==> r == Eof
      ensures old(Sees(v)) && !old(CutShort(v, Here())) ==>
                r == Record(v.rest[0].kind, v.rest[0].payload) && Sees(Tail(v)) && Here() == old(Here()) + Span(v) && reported == old(reported)
    {
      ghost var here, seen := Here(), Sees(v);
      FillFor(v);
      if |buffer| < HEADER {
        buffer := [];
        return Eof;
      }
      if seen {
        ReadyParse(v, here);
      }
      match Parse(crc, checksum, buffer)
      case Short =>
        buffer := [];
        if eof {
          return Eof;
        }
        reported := reported + 1;
        r := BadRecord;
      case Blank =>
        buffer := [];
        r := BadRecord;
      case Mismatch =>
        buffer := [];
        reported := reported + 1;
        r := BadRecord;
      case Good(kind, payload) =>
        StandsInFile(kind, payload);
        Consume(|payload|, v, here);
        r := Record(kind, payload);
    }

    /** The reader is inside the record whose bytes still to come are `left`; `stop` is
        where the record ends in the file and `end` in its block. */
    ghost predicate Reading(v: View, scratch: seq<byte>, left: seq<byte>, begin: bool, records: seq<seq<byte>>, end: nat, stop: nat)
      reads this
    {
      && Sees(v) && records != [] && scratch + left == records[0] && (begin ==> scratch == []) && Within(v, left, begin, records[1..], end)
      && Here() + Size(v.offset, Split(v.offset, left, begin)) == stop
    }

    /** One turn of the loop of ReadRecord. */
    method OneTurn(scratch: seq<byte>, inFragmentedRecord: bool, ghost v: View, ghost left: seq<byte>,
                   ghost records: seq<seq<byte>>, ghost end: nat, ghost stop: nat) returns (turn: Turn)
      requires Valid()
      modifies this
      ensures Valid() && (turn == Stop ==> Finished()) && (old(Finished()) ==> turn == Stop) && (turn != Stop ==> Here() > old(Here()))
      ensures old(Reading(v, scratch, left, !inFragmentedRecord, records, end, stop)) ==>
                reported == old(reported) && Progressed(turn, v, left, records, end, stop)
      ensures old(Sees(v)) && v.rest == [] ==> turn == Stop && reported == old(reported)
    {
      ghost var reading := Reading(v, scratch, left, !inFragmentedRecord, records, end, stop);
      if reading {
        WithinStep(v, left, !inFragmentedRecord, records[1..], end);
      }
      var physical := ReadPhysicalRecord(v);
      if physical == Eof {
        return Stop;
      }
      if reading {
        Assembles(physical.kind, physical.payload, scratch, inFragmentedRecord, left);
      }
      turn := Switch(physical, scratch, inFragmentedRecord);
      reported := reported + turn.reports;
    }

    /** A turn ends the record, goes on in it, or finds the file cut short. */
    ghost predicate Progressed(turn: Turn, v: View, left: seq<byte>, records: seq<seq<byte>>, end: nat, stop: nat)
      reads this
    {
      match turn
      case Stop => |file| < stop
      case Return(record, _) => records != [] && record == records[0] && Sees(View(v.whole, end, SplitAll(end, records[1..]))) && Here() == stop
      case Continue(scratch, inside, _) =>
        inside && v.rest != [] && |v.rest[0].payload| <= |left| && Reading(Tail(v), scratch, left[|v.rest[0].payload|..], false, records, end, stop)
    }

    /** The reader stands at the beginning of a record. */
    lemma ReadingStarts(v: View, records: seq<seq<byte>>, end: nat, stop: nat)
      requires At(v, records) && records != []
      requires end == After(v.offset, Split(v.offset, records[0], true)) && stop == Here() + RecordSize(v.offset, records[0])
      ensures Reading(v, [], records[0], true, records, end, stop)
    {
      assert [] + records[0] == records[0];
    }

    /** One logical record.  In a log cut anywhere, it is the next record if the file holds
        all of it; otherwise the end is reached, and nothing is reported. */
    method ReadRecord(ghost v: View, ghost records: seq<seq<byte>>) returns (r: Option<seq<byte>>)
      requires Valid()
      modifies this
      ensures Valid() && (r == None ==> Finished()) && (old(Finished()) ==> r == None) && (r != None ==> Here() > old(Here()))
      ensures old(At(v, records)) && records == [] ==> r == None && reported == old(reported)
      ensures old(At(v, records)) && records != [] && old(Here()) + RecordSize(v.offset, records[0]) > |file| ==> r == None && reported == old(reported)
      ensures old(At(v, records)) && records != [] && old(Here()) + RecordSize(v.offset, records[0]) <= |file| ==>
                r == Some(records[0]) && reported == old(reported)
                && At(Beyond(v, records), records[1..]) && Here() == old(Here()) + RecordSize(v.offset, records[0])
    {
      var scratch, inFragmentedRecord := [], false;
      ghost var here, reading, w := Here(), At(v, records) && records != [], v;
      ghost var left := if reading then records[0] else [];
      ghost var end, stop := After(v.offset, Split(v.offset, left, true)), here + RecordSize(v.offset, left);
      if reading {
        ReadingStarts(v, records, end, stop);
      }
      while true
        invariant Valid() && Here() >= here && (old(Finished()) ==> Finished())
        invariant old(At(v, records)) ==> reported == old(reported)
        invariant old(At(v, records)) && records == [] ==> w == v && Sees(v)
        invariant reading ==> w.whole == v.whole && Reading(w, scratch, left, !inFragmentedRecord, records, end, stop)
        decreases |file| - Here()
      {
        var turn := OneTurn(scratch, inFragmentedRecord, w, left, records, end, stop);
        match turn
        case Stop => return None;
        case Return(record, _) => return Some(record);
        case Continue(s, inside, _) =>
          scratch, inFragmentedRecord := s, inside;
          if reading {
            left, w := left[|w.rest[0].payload|..], Tail(w);
          }
      }
    }

    /** The reader stands before the given records. */
    ghost predicate At(v: View, records: seq<seq<byte>>)
      reads this
    {
      Sees(v) && v.rest == SplitAll(v.offset, records)
    }
  }

  /** What one turn of the loop of ReadRecord comes to (Stop at the end of the file), with the corruptions it reports. */
  datatype Turn = Stop | Return(record: seq<byte>, reports: nat) | Continue(scratch: seq<byte>, inFragmentedRecord: bool, reports: nat)

  /** The switch over the type of a physical record. */
  function Switch(r: Physical, scratch: seq<byte>, inFragmentedRecord: bool): (turn: Turn)
    requires r != Eof
    ensures turn != Stop
  {
    match r
    case BadRecord => if inFragmentedRecord then Continue([], false, 1) else Continue(scratch, false, 0)
    case Record(kind, fragment) =>
      var partial := if inFragmentedRecord && scratch != [] then 1 else 0;
      if kind == FULL then Return(fragment, partial)
      else if kind == FIRST then Continue(fragment, true, partial)
      else if kind == MIDDLE then
        if inFragmentedRecord then Continue(scratch + fragment, true, 0) else Continue(scratch, false, 1)
      else if kind == LAST then
        if inFragmentedRecord then Return(scratch + fragment, 0) else Continue(scratch, false, 1)
      else Continue([], false, 1)
  }

  /** The fragments of a record are put together again. */
  lemma Assembles(kind: nat, payload: seq<byte>, scratch: seq<byte>, inFragmentedRecord: bool, left: seq<byte>)
    requires |payload| <= |left| && payload == left[..|payload|] && (!inFragmentedRecord ==> scratch == [])
    requires kind == KindOf(!inFragmentedRecord, |payload| == |left|)
    ensures |payload| == |left| ==> Switch(Record(kind, payload), scratch, inFragmentedRecord) == Return(scratch + left, 0)
    ensures |payload| < |left| ==> Switch(Record(kind, payload), scratch, inFragmentedRecord) == Continue(scratch + payload, true, 0)
    ensures scratch + payload + left[|payload|..] == scratch + left
  {
    assert left == payload + left[|payload|..];
    assert [] + left == left && [] + payload == payload;
  }

  /** The bytes a sequence of fragments takes up. */
  function Size(offset: nat, fs: seq<Fragment>): nat
    decreases fs
  {
    if fs == [] then 0 else Gap(offset) + HEADER + |fs[0].payload| + Size(End(offset, fs[0]), fs[1..])
  }

  function RecordSize(offset: nat, record: seq<byte>): nat {
    Size(offset, Split(offset, record, true))
  }

  /** The view behind the next record. */
  function Beyond(v: View, records: seq<seq<byte>>): View
    requires records != []
  {
    var end := After(v.offset, Split(v.offset, records[0], true));
    View(v.whole, end, SplitAll(end, records[1..]))
  }

  ghost predicate Within(v: View, left: seq<byte>, begin: bool, more: seq<seq<byte>>, end: nat) {
    v.rest == Split(v.offset, left, begin) + SplitAll(end, more) && After(v.offset, Split(v.offset, left, begin)) == end
  }

  /** The next fragment of a record that is being read. */
  lemma WithinStep(v: View, left: seq<byte>, begin: bool, more: seq<seq<byte>>, end: nat)
    requires Within(v, left, begin, more, end)
    ensures v.rest != []
    ensures var n := |v.rest[0].payload|;
            && n <= |left| && v.rest[0].payload == left[..n] && v.rest[0].kind == KindOf(begin, n == |left|)
            && (n == |left| ==> Tail(v) == View(v.whole, end, SplitAll(end, more)) && Size(v.offset, Split(v.offset, left, begin)) == Span(v))
            && (n < |left| ==> Within(Tail(v), left[n..], false, more, end))
            && (n < |left| ==> Size(v.offset, Split(v.offset, left, begin)) == Span(v) + Size(Tail(v).offset, Split(Tail(v).offset, left[n..], false)))
  {
    var fs := Split(v.offset, left, begin);
    SplitStep(v.offset, left, begin);
    assert v.rest[0] == fs[0];
    assert v.rest[1..] == fs[1..] + SplitAll(end, more);
    var n := |fs[0].payload|;
    if n < |left| {
      assert fs[1..] == Split(End(v.offset, fs[0]), left[n..], false);
    } else {
      assert fs == [fs[0]];
      assert fs[1..] == [];
      assert Size(End(v.offset, fs[0]), []) == 0;
      assert After(v.offset, fs) == After(End(v.offset, fs[0]), []) == End(v.offset, fs[0]);
      assert [] + SplitAll(end, more) == SplitAll(end, more);
    }
  }

  lemma Shortened<T>(s: seq<T>, a: nat, b: nat, n: nat)
    requires a + n <= b <= |s|
    ensures s[a..b][n..] == s[a + n..b]
  {}

  /** What the bytes at the head of the buffer are. */
  datatype Parsed = Short | Blank | Mismatch | Good(kind: nat, payload: seq<byte>)

  /** The header and payload checks of ReadPhysicalRecord, in its order. */
  function Parse(crc: Crc, checksum: bool, b: seq<byte>): (r: Parsed)
    requires |b| >= HEADER
    ensures r.Good? ==> HEADER + |r.payload| <= |b|
  {
    var length := Length(b);
    if HEADER + length > |b| then Short
    else if b[6] == 0 && length == 0 then Blank
    else if checksum && crc(b[6..HEADER + length]) != b[..4] then Mismatch
    else Good(b[6] as int, b[HEADER..HEADER + length])
  }

  lemma ParseFragment(crc: Crc, checksum: bool, b: seq<byte>, f: Fragment)
    requires |b| >= HEADER && b[..HEADER] == Header(crc, f) && |f.payload| <= BLOCK && FULL <= f.kind <= LAST
    requires |b| >= HEADER + |f.payload| ==> b[HEADER..HEADER + |f.payload|] == f.payload
    ensures Parse(crc, checksum, b) == if |b| < HEADER + |f.payload| then Short else Good(f.kind, f.payload)
  {
    HeaderFields(crc, f);
    var head := Header(crc, f);
    assert b[4] == head[4] && b[5] == head[5] && b[6] == head[6];
    assert b[..4] == head[..4];
    if |b| >= HEADER + |f.payload| {
      assert b[6..HEADER + |f.payload|] == [b[6]] + b[HEADER..HEADER + |f.payload|];
    }
  }

  /** Only the bytes of the record itself matter. */
  lemma ParsePrefix(crc: Crc, checksum: bool, b: seq<byte>)
    requires |b| >= HEADER && Parse(crc, checksum, b).Good?
    ensures var r := Parse(crc, checksum, b); Parse(crc, checksum, b[..HEADER + |r.payload|]) == r
  {
    var n := HEADER + |Parse(crc, checksum, b).payload|;
    assert b[..n][6..n] == b[6..n] && b[..n][..4] == b[..4] && b[..n][HEADER..n] == b[HEADER..n];
  }

  /** The buffer is a window of the file, and so of the whole log. */
  lemma Window(file: seq<byte>, whole: seq<byte>, at: nat, buffer: seq<byte>)
    requires file <= whole && at + |buffer| <= |file| && buffer == file[at..at + |buffer|]
    ensures forall i, j {:trigger buffer[i..j]} :: 0 <= i <= j <= |buffer| ==> buffer[i..j] == whole[at + i..at + j]
    ensures forall j {:trigger buffer[..j]} :: 0 <= j <= |buffer| ==> buffer[..j] == whole[at..at + j]
  {
    assert forall k :: 0 <= k < |buffer| ==> buffer[k] == file[at + k] == whole[at + k];
  }
}
