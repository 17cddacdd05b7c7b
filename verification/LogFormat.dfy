/** The record log of LevelDB: how records are laid out in blocks, and the writer
    (db/log_format.h, db/log_writer.cc). */
module LogFormat {
  import opened Keys

  const BLOCK := 32768
  const HEADER := 7

  const FULL := 1
  const FIRST := 2
  const MIDDLE := 3
  const LAST := 4

  type Checksum = s: seq<byte> | |s| == 4 witness [0, 0, 0, 0]

  /** The masked CRC of type and payload, as stored; any function will do. */
  type Crc = seq<byte> -> Checksum

  /** A physical record. */
  datatype Fragment = Fragment(kind: nat, payload: seq<byte>)

  function Zeros(n: nat): seq<byte> {
    seq(n, _ => 0)
  }

  /** Where in its block the next fragment starts when the last one ended at `offset`. */
  function Start(offset: nat): nat {
    if offset > BLOCK - HEADER then 0 else offset
  }

  /** The length of the trailer that is skipped to get there. */
  function Gap(offset: nat): nat {
    if BLOCK - HEADER < offset <= BLOCK then BLOCK - offset else 0
  }

  function Available(offset: nat): nat {
    BLOCK - Start(offset) - HEADER
  }

  function KindOf(begin: bool, end: bool): nat {
    if begin && end then FULL else if begin then FIRST else if end then LAST else MIDDLE
  }

  /** The fragments of one record that is written after `offset`. */
  function Split(offset: nat, data: seq<byte>, begin: bool): (fs: seq<Fragment>)
    ensures |fs| > 0
    decreases |data|, if Available(offset) == 0 then 1 else 0
  {
    var avail := Available(offset);
    if |data| <= avail then [Fragment(KindOf(begin, true), data)]
    else [Fragment(KindOf(begin, false), data[..avail])] + Split(BLOCK, data[avail..], false)
  }

  /** Where in its block a fragment ends. */
  function End(offset: nat, f: Fragment): nat {
    Start(offset) + HEADER + |f.payload|
  }

  function After(offset: nat, fs: seq<Fragment>): nat
    decreases fs
  {
    if fs == [] then offset else After(End(offset, fs[0]), fs[1..])
  }

  function Header(crc: Crc, f: Fragment): (h: seq<byte>)
    ensures |h| == HEADER
  {
    var kind: byte := f.kind % 256;
    crc([kind] + f.payload) + [(|f.payload| % 256) as byte, (|f.payload| / 256 % 256) as byte, kind]
  }

  /** The bytes of a fragment, with the trailer before it. */
  function FragmentBytes(crc: Crc, offset: nat, f: Fragment): (b: seq<byte>)
    ensures |b| == Gap(offset) + HEADER + |f.payload|
  {
    Zeros(Gap(offset)) + Header(crc, f) + f.payload
  }

  /** How one fragment is written after an offset. */
  type Layout = (nat, Fragment) -> seq<byte>

  function Written(crc: Crc): Layout {
    (offset: nat, f: Fragment) => FragmentBytes(crc, offset, f)
  }

  function Bytes(how: Layout, offset: nat, fs: seq<Fragment>): seq<byte>
    decreases fs
  {
    if fs == [] then [] else how(offset, fs[0]) + Bytes(how, End(offset, fs[0]), fs[1..])
  }

  /** The fragments of several records. */
  function SplitAll(offset: nat, records: seq<seq<byte>>): seq<Fragment>
    decreases records
  {
    if records == [] then []
    else
      var fs := Split(offset, records[0], true);
      fs + SplitAll(After(offset, fs), records[1..])
  }

  lemma {:induction false} BytesConcat(how: Layout, offset: nat, a: seq<Fragment>, b: seq<Fragment>)
    ensures Bytes(how, offset, a + b) == Bytes(how, offset, a) + Bytes(how, After(offset, a), b)
    decreases a
  {
    if a == [] {
      assert a + b == b;
    } else {
      var next := End(offset, a[0]);
      BytesConcat(how, next, a[1..], b);
      assert (a + b)[1..] == a[1..] + b;
      Associates(how(offset, a[0]), Bytes(how, next, a[1..]), Bytes(how, After(offset, a), b));
    }
  }

  lemma Associates<T>(a: seq<T>, b: seq<T>, c: seq<T>)
    ensures (a + b) + c == a + (b + c)
  {}

  /** The first fragment of a record, and the rest. */
  lemma SplitStep(offset: nat, left: seq<byte>, begin: bool)
    ensures var f := Split(offset, left, begin)[0];
            && |f.payload| <= |left| && f.payload == left[..|f.payload|] && |f.payload| <= Available(offset)
            && f.kind == KindOf(begin, |f.payload| == |left|)
            && Split(offset, left, begin) == [f] + if |f.payload| == |left| then [] else Split(End(offset, f), left[|f.payload|..], false)
  {}

  lemma {:induction false} SplitAllConcat(offset: nat, a: seq<seq<byte>>, b: seq<seq<byte>>)
    ensures SplitAll(offset, a + b) == SplitAll(offset, a) + SplitAll(After(offset, SplitAll(offset, a)), b)
    decreases a
  {
    if a == [] {
      assert a + b == b;
    } else {
      var fs := Split(offset, a[0], true);
      var next := After(offset, fs);
      var tail := SplitAll(next, a[1..]);
      SplitAllConcat(next, a[1..], b);
      assert (a + b)[1..] == a[1..] + b;
      AfterConcat(offset, fs, tail);
      Associates(fs, tail, SplitAll(After(next, tail), b));
    }
  }

  lemma {:induction false} AfterConcat(offset: nat, a: seq<Fragment>, b: seq<Fragment>)
    ensures After(offset, a + b) == After(After(offset, a), b)
    decreases a
  {
    if a == [] {
      assert a + b == b;
    } else {
      AfterConcat(End(offset, a[0]), a[1..], b);
      assert (a + b)[1..] == a[1..] + b;
    }
  }

  /** The whole log of a sequence of records. */
  function Log(crc: Crc, records: seq<seq<byte>>): seq<byte> {
    Bytes(Written(crc), 0, SplitAll(0, records))
  }

  lemma LogConcat(crc: Crc, a: seq<seq<byte>>, b: seq<seq<byte>>)
    ensures Log(crc, a + b) == Log(crc, a) + Bytes(Written(crc), After(0, SplitAll(0, a)), SplitAll(After(0, SplitAll(0, a)), b))
  {
    SplitAllConcat(0, a, b);
    BytesConcat(Written(crc), 0, SplitAll(0, a), SplitAll(After(0, SplitAll(0, a)), b));
  }

  /** log::Writer over an append-only file whose writes succeed. */
  class Writer {
    const crc: Crc
    var dest: seq<byte>
    var blockOffset: nat

    constructor (crc: Crc, dest: seq<byte>)
      ensures this.crc == crc && this.dest == dest && blockOffset == |dest| % BLOCK
    {
      this.crc, this.dest, blockOffset := crc, dest, |dest| % BLOCK;
    }

    method EmitPhysicalRecord(kind: nat, payload: seq<byte>)
      requires blockOffset + HEADER + |payload| <= BLOCK
      modifies this
      ensures dest == old(dest) + Header(crc, Fragment(kind, payload)) + payload
      ensures blockOffset == old(blockOffset) + HEADER + |payload|
    {
      dest := dest + Header(crc, Fragment(kind, payload));
      dest := dest + payload;
      blockOffset := blockOffset + HEADER + |payload|;
    }

    /** Switch to a new block when no header fits. */
    method SkipTrailer()
      requires blockOffset <= BLOCK
      modifies this
      ensures dest == old(dest) + Zeros(Gap(old(blockOffset))) && blockOffset == Start(old(blockOffset))
    {
      var leftover := BLOCK - blockOffset;
      assert leftover >= HEADER ==> Zeros(Gap(blockOffset)) == [];
      if leftover < HEADER {
        if leftover > 0 {
          dest := dest + Zeros(leftover);
        }
        blockOffset := 0;
      }
    }

    /** One turn of the loop of AddRecord. */
    method AddFragment(left: seq<byte>, begin: bool) returns (length: nat)
      requires blockOffset <= BLOCK
      modifies this
      ensures var f := Split(old(blockOffset), left, begin)[0];
              && length == |f.payload| <= |left| && dest == old(dest) + Written(crc)(old(blockOffset), f)
              && blockOffset == End(old(blockOffset), f) <= BLOCK
    {
      SplitStep(blockOffset, left, begin);
      SkipTrailer();
      var avail := BLOCK - blockOffset - HEADER;
      length := if |left| < avail then |left| else avail;
      var end := |left| == length;
      var kind := if begin && end then 1 else if begin then 2 else if end then 4 else 3;
      EmitPhysicalRecord(kind, left[..length]);
    }

    /** The record is appended as its fragments. */
    method AddRecord(slice: seq<byte>)
      requires blockOffset <= BLOCK
      modifies this
      ensures dest == old(dest) + Bytes(Written(crc), old(blockOffset), Split(old(blockOffset), slice, true))
      ensures blockOffset == After(old(blockOffset), Split(old(blockOffset), slice, true)) <= BLOCK
    {
      var left, begin := slice, true;
      ghost var p := Progress(dest, blockOffset, Split(blockOffset, slice, true), []);
      while true
        invariant p.base == old(dest) && p.offset == old(blockOffset) && p.whole == Split(old(blockOffset), slice, true)
        invariant InRecord(crc, p, dest, blockOffset, left, begin)
        decreases |left|, if Available(blockOffset) == 0 then 1 else 0
      {
        ghost var was, offset := dest, blockOffset;
        SplitStep(blockOffset, left, begin);
        var length := AddFragment(left, begin);
        p := Advance(crc, p, was, offset, left, begin, dest);
        left, begin := left[length..], false;
        if |left| == 0 {
          break;
        }
      }
    }
  }

  /** A record being written: what was there before, the offset, all its fragments, and
      those already written. */
  datatype Progress = Progress(base: seq<byte>, offset: nat, whole: seq<Fragment>, written: seq<Fragment>)

  ghost predicate Reached(crc: Crc, p: Progress, dest: seq<byte>, now: nat) {
    dest == p.base + Bytes(Written(crc), p.offset, p.written) && now == After(p.offset, p.written) <= BLOCK
  }

  ghost predicate InRecord(crc: Crc, p: Progress, dest: seq<byte>, now: nat, left: seq<byte>, begin: bool) {
    Reached(crc, p, dest, now) && p.whole == p.written + Split(now, left, begin)
  }

  lemma Advance(crc: Crc, p: Progress, dest: seq<byte>, now: nat, left: seq<byte>, begin: bool, dest': seq<byte>) returns (p': Progress)
    requires InRecord(crc, p, dest, now, left, begin)
    requires var f := Split(now, left, begin)[0]; dest' == dest + Written(crc)(now, f) && End(now, f) <= BLOCK && |f.payload| <= |left|
    ensures p' == p.(written := p'.written)
    ensures var f := Split(now, left, begin)[0];
            && Reached(crc, p', dest', End(now, f))
            && if |f.payload| == |left| then p'.written == p.whole else InRecord(crc, p', dest', End(now, f), left[|f.payload|..], false)
  {
    var how, f := Written(crc), Split(now, left, begin)[0];
    p' := p.(written := p.written + [f]);
    SplitStep(now, left, begin);
    BytesConcat(how, p.offset, p.written, [f]);
    AfterConcat(p.offset, p.written, [f]);
    assert [f][1..] == [];
    assert Bytes(how, now, [f]) == how(now, f) + [];
    Associates(p.base, Bytes(how, p.offset, p.written), how(now, f));
    if |f.payload| < |left| {
      Associates(p.written, [f], Split(End(now, f), left[|f.payload|..], false));
    }
  }
}
