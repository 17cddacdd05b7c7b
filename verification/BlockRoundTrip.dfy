/** What is added to a block is what its iterator gives back (table/block_builder.cc and
    table/block.cc together), for every restart interval. */
module BlockRoundTrip {
  import opened BlockFormat
  import opened BlockIters
  import opened Coding
  import opened Keys

  /** Block: where its restart points are. */
  class Block {
    const data: seq<byte>
    const size: nat
    const restartOffset: nat

    constructor (contents: seq<byte>, ghost buffer: seq<byte>, ghost l: Layout)
      ensures data == contents
      ensures IsBlock(Fixed32(), contents, buffer, l) && |contents| < UINT32 ==> size == |contents| && restartOffset == |buffer|
    {
      data := contents;
      var size', offset := |contents|, 0;
      if |contents| < 4 {
        size' := 0;
      } else {
        var numRestarts := DecodeFixed32(contents, |contents| - 4);
        if numRestarts > (|contents| - 4) / 4 {
          size' := 0;
        } else {
          offset := |contents| - (1 + numRestarts) * 4;
        }
      }
      size, restartOffset := size', offset;
      if IsBlock(Fixed32(), contents, buffer, l) && |contents| < UINT32 {
        BlockReads(contents, buffer, l);
      }
    }

    /** NewIterator, for a block that was built. */
    method NewIterator(less: Order, ghost buffer: seq<byte>, ghost l: Layout) returns (it: BlockIter)
      requires IsBlock(Fixed32(), data, buffer, l) && size == |data| < UINT32 && restartOffset == |buffer|
      ensures fresh(it) && it.Block() && it.layout == l && it.less == less && !it.corrupt && it.Ended()
    {
      BlockReads(data, buffer, l);
      var numRestarts := DecodeFixed32(data, size - 4);
      it := new BlockIter(data, restartOffset, numRestarts, less, buffer, l);
    }
  }

  predicate Fits(entries: seq<Entry>) {
    forall i :: 0 <= i < |entries| ==> |entries[i].key| < UINT32 && |entries[i].value| < UINT32
  }

  /** Add for every entry, then Finish. */
  method Build(entries: seq<Entry>, interval: nat) returns (contents: seq<byte>, ghost buffer: seq<byte>, ghost l: Layout)
    requires Fits(entries) && interval >= 1
    ensures Holds(contents, entries)
    ensures IsBlock(Fixed32(), contents, buffer, l) && l.entries == entries && Spaced(l, interval)
  {
    var builder := new BlockBuilder(interval);
    for i := 0 to |entries|
      invariant builder.Valid() && !builder.finished && fresh(builder) && builder.layout.entries == entries[..i]
    {
      builder.Add(entries[i].key, entries[i].value);
      assert entries[..i + 1] == entries[..i] + [entries[i]];
    }
    assert entries[..|entries|] == entries;
    buffer, l := builder.buffer, builder.layout;
    contents := builder.Finish();
  }

  /** SeekToFirst, then Next to the end. */
  method Forward(it: BlockIter) returns (out: seq<Entry>)
    requires it.Block() && !it.corrupt
    modifies it
    ensures out == it.layout.entries && !it.corrupt
  {
    out := [];
    it.SeekToFirst();
    if it.layout.entries != [] {
      it.OnIsBefore(0);
    }
    while it.Valid()
      invariant |out| <= |it.layout.entries| && out == it.layout.entries[..|out|] && !it.corrupt
      invariant if |out| < |it.layout.entries| then it.On(|out|) && it.Valid() else it.Ended()
      decreases |it.layout.entries| - |out|
    {
      ghost var i := |out|;
      out := out + [Entry(it.key, it.value)];
      it.Next(i);
      if i + 1 < |it.layout.entries| {
        it.OnIsBefore(i + 1);
      }
    }
  }

  /** SeekToLast, then Prev to the start. */
  method Backward(it: BlockIter) returns (out: seq<Entry>)
    requires it.Block() && !it.corrupt
    modifies it
    ensures out == it.layout.entries && !it.corrupt
  {
    out := [];
    ghost var n := |it.layout.entries|;
    it.SeekToLast();
    if n > 0 {
      it.OnIsBefore(n - 1);
    }
    while it.Valid()
      invariant |out| <= n && out == it.layout.entries[n - |out|..] && !it.corrupt
      invariant if |out| < n then it.On(n - 1 - |out|) && it.Valid() else it.Ended()
      decreases n - |out|
    {
      ghost var i := n - 1 - |out|;
      out := [Entry(it.key, it.value)] + out;
      it.Prev(i);
      if i > 0 {
        it.OnIsBefore(i - 1);
      }
    }
  }

  /** Built and read back, forwards and backwards; a block of 4 GB or more, whose offsets
      do not fit in 32 bits, is left out. */
  method RoundTrip(entries: seq<Entry>, interval: nat, less: Order) returns (tooLarge: bool, forward: seq<Entry>, backward: seq<Entry>)
    requires Fits(entries) && interval >= 1
    ensures !tooLarge ==> forward == entries && backward == entries
  {
    var contents, buffer, l := Build(entries, interval);
    tooLarge, forward, backward := |contents| >= UINT32, [], [];
    if !tooLarge {
      var block := new Block(contents, buffer, l);
      var it := block.NewIterator(less, buffer, l);
      forward := Forward(it);
      backward := Backward(it);
    }
  }

  lemma SecondRestart(l: Layout, interval: nat)
    requires RestartsOk(l) && Spaced(l, interval) && interval < |l.entries|
    ensures |l.restarts| > 1 && l.restarts[1] == interval && l.offsets[1] == l.at[interval]
  {
    assert IntervalAt(l, interval, 1) && RestartAt(l, 1);
  }

  /** In every block with a second restart point, restart_index_ is one behind after Next has
      come to it. */
  method LagsBehind(entries: seq<Entry>, interval: nat, less: Order) returns (tooLarge: bool, behind: bool)
    requires Fits(entries) && 1 <= interval < |entries|
    ensures !tooLarge ==> behind
  {
    var contents, buffer, l := Build(entries, interval);
    tooLarge, behind := |contents| >= UINT32, false;
    if !tooLarge {
      var block := new Block(contents, buffer, l);
      var it := block.NewIterator(less, buffer, l);
      it.SeekToFirst();
      for i := 1 to interval
        invariant it.Block() && it.On(i - 1) && fresh(it) && it.layout == l
      {
        it.Next(i - 1);
      }
      SecondRestart(l, interval);
      it.Next(interval - 1);
      behind := it.restartIndex == 0 && it.current == it.GetRestartPoint(1);
    }
  }

  /** Entry i is the first at or after the target, among ascending entries. */
  ghost predicate FirstOf(less: Order, entries: seq<Entry>, target: seq<byte>, i: nat) {
    && i <= |entries| && (i < |entries| ==> !less(entries[i].key, target))
    && forall k :: 0 <= k < i ==> less(entries[k].key, target)
  }

  lemma FirstIsFirst(less: Order, l: Layout, target: seq<byte>, i: nat)
    requires First(less, l, target, i)
    ensures FirstOf(less, l.entries, target, i)
  {
    forall k: nat | k < i ensures less(l.entries[k].key, target) {
      assert Below(less, l, target, k);
    }
  }

  /** Bytes that a builder makes of these entries. */
  ghost predicate Holds(contents: seq<byte>, entries: seq<Entry>) {
    exists buffer, l :: IsBlock(Fixed32(), contents, buffer, l) && l.entries == entries
  }

  /** Seek in a block that was built finds the first entry at or after the target. */
  method SeekBlock(contents: seq<byte>, less: Order, target: seq<byte>, ghost entries: seq<Entry>) returns (r: Option<Entry>)
    requires Holds(contents, entries) && |contents| < UINT32 && Transitive(less) && Ascends(less, entries)
    ensures exists i: nat :: FirstOf(less, entries, target, i) && r == if i < |entries| then Some(entries[i]) else None
  {
    ghost var buffer, l :| IsBlock(Fixed32(), contents, buffer, l) && l.entries == entries;
    var block := new Block(contents, buffer, l);
    var it := block.NewIterator(less, buffer, l);
    AscendingSplits(less, l, target);
    var i, restart := it.Seek(target);
    FirstIsFirst(less, l, target, i);
    if i < |entries| {
      it.OnIsBefore(i);
    }
    r := None;
    if it.Valid() {
      r := Some(Entry(it.key, it.value));
    }
  }

  /** Building and seeking, for every restart interval. */
  method BuildAndSeek(entries: seq<Entry>, interval: nat, less: Order, target: seq<byte>) returns (tooLarge: bool, r: Option<Entry>)
    requires Fits(entries) && interval >= 1 && Transitive(less) && Ascends(less, entries)
    ensures !tooLarge ==> exists i: nat :: FirstOf(less, entries, target, i) && r == if i < |entries| then Some(entries[i]) else None
  {
    var contents, buffer, l := Build(entries, interval);
    tooLarge, r := |contents| >= UINT32, None;
    if !tooLarge {
      r := SeekBlock(contents, less, target, entries);
    }
  }
}
