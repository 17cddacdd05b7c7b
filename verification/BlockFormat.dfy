/** Blocks of a table: entries with shared key prefixes and an array of restart points,
    and the builder that writes them (table/block_builder.cc). */
module BlockFormat {
  import opened Coding
  import opened Keys
  import opened Slices

  datatype Entry = Entry(key: seq<byte>, value: seq<byte>)

  /** The bytes of an entry that shares a prefix with the key before it. */
  function EntryBytes(shared: nat, e: Entry): (b: seq<byte>)
    requires shared <= |e.key|
    ensures |b| >= 3
  {
    Varint(shared) + Varint(|e.key| - shared) + Varint(|e.value|) + e.key[shared..] + e.value
  }

  /** What a buffer holds: the entries, where each starts (and the last ends), how much each
      shares with the one before, which entries are restart points, and their offsets. */
  datatype Layout = Layout(entries: seq<Entry>, at: seq<nat>, shared: seq<nat>, restarts: seq<nat>, offsets: seq<nat>)

  ghost predicate Shares(l: Layout, i: nat)
    requires i < |l.entries| && i < |l.shared|
  {
    var n, key := l.shared[i], l.entries[i].key;
    n <= |key| < UINT32 && (n > 0 ==> i > 0 && n <= |l.entries[i - 1].key| && l.entries[i - 1].key[..n] == key[..n])
  }

  ghost predicate EntryAt(buffer: seq<byte>, l: Layout, i: nat)
    requires i < |l.entries| && i < |l.shared| && i + 1 < |l.at|
  {
    Shares(l, i) && l.at[i] <= l.at[i + 1] <= |buffer| && buffer[l.at[i]..l.at[i + 1]] == EntryBytes(l.shared[i], l.entries[i])
  }

  ghost predicate LaidOut(buffer: seq<byte>, l: Layout) {
    && |l.at| == |l.entries| + 1 && |l.shared| == |l.entries| && l.at[0] == 0 && l.at[|l.entries|] == |buffer|
    && forall i {:trigger EntryAt(buffer, l, i)} :: 0 <= i < |l.entries| ==> EntryAt(buffer, l, i)
  }

  /** Restart point j is an entry that shares nothing, after restart point j - 1. */
  ghost predicate RestartAt(l: Layout, j: nat)
    requires j < |l.restarts| == |l.offsets| && |l.shared| == |l.entries| && |l.at| == |l.entries| + 1
  {
    && l.restarts[j] <= |l.entries| && l.offsets[j] == l.at[l.restarts[j]]
    && (l.restarts[j] < |l.entries| ==> l.shared[l.restarts[j]] == 0)
    && (j > 0 ==> l.restarts[j - 1] < l.restarts[j] < |l.entries|)
  }

  ghost predicate RestartsOk(l: Layout) {
    && |l.restarts| == |l.offsets| && |l.restarts| > 0 && l.restarts[0] == 0
    && |l.shared| == |l.entries| && |l.at| == |l.entries| + 1
    && forall j {:trigger RestartAt(l, j)} :: 0 <= j < |l.restarts| ==> RestartAt(l, j)
  }

  ghost predicate IntervalAt(l: Layout, interval: nat, j: nat)
    requires 0 < j < |l.restarts|
  {
    l.restarts[j] == l.restarts[j - 1] + interval
  }

  /** Every so many entries there is a restart point. */
  ghost predicate Spaced(l: Layout, interval: nat) {
    && |l.restarts| > 0 && l.restarts[|l.restarts| - 1] <= |l.entries| <= l.restarts[|l.restarts| - 1] + interval
    && forall j {:trigger IntervalAt(l, interval, j)} :: 0 < j < |l.restarts| ==> IntervalAt(l, interval, j)
  }

  /** A finished block. */
  ghost predicate IsBlock(put: WordWriter, contents: seq<byte>, buffer: seq<byte>, l: Layout) {
    && LaidOut(buffer, l) && RestartsOk(l)
    && contents == buffer + Words(put, l.offsets + [|l.restarts|])
  }

  // ------------------------------------------------------------------ one more entry

  /** The layout with one more entry, possibly a restart point. */
  ghost function More(buffer: seq<byte>, l: Layout, shared: nat, e: Entry, restart: bool): Layout
    requires shared <= |e.key|
  {
    Layout(l.entries + [e], l.at + [|buffer| + |EntryBytes(shared, e)|], l.shared + [shared],
           if restart then l.restarts + [|l.entries|] else l.restarts,
           if restart then l.offsets + [|buffer|] else l.offsets)
  }

  lemma EntryKept(buffer: seq<byte>, l: Layout, more: seq<byte>, l': Layout, i: nat)
    requires i < |l.entries| && i < |l.shared| && i + 1 < |l.at|
    requires l.entries <= l'.entries && l.shared <= l'.shared && l.at <= l'.at && EntryAt(buffer, l, i)
    ensures EntryAt(buffer + more, l', i)
  {
    assert (buffer + more)[l.at[i]..l.at[i + 1]] == buffer[l.at[i]..l.at[i + 1]];
  }

  lemma MoreIsLaidOut(buffer: seq<byte>, l: Layout, shared: nat, e: Entry, restart: bool)
    requires LaidOut(buffer, l) && shared <= |e.key| < UINT32
    requires shared > 0 ==> |l.entries| > 0 && shared <= |l.entries[|l.entries| - 1].key| && l.entries[|l.entries| - 1].key[..shared] == e.key[..shared]
    ensures LaidOut(buffer + EntryBytes(shared, e), More(buffer, l, shared, e, restart))
  {
    var l' := More(buffer, l, shared, e, restart);
    var b := EntryBytes(shared, e);
    forall i | 0 <= i < |l'.entries| ensures EntryAt(buffer + b, l', i) {
      if i < |l.entries| {
        assert EntryAt(buffer, l, i);
        EntryKept(buffer, l, b, l', i);
      } else {
        assert (buffer + b)[|buffer|..] == b;
      }
    }
  }

  lemma MoreRestarts(buffer: seq<byte>, l: Layout, shared: nat, e: Entry, restart: bool)
    requires LaidOut(buffer, l) && RestartsOk(l) && shared <= |e.key|
    requires restart || |l.entries| == 0 ==> shared == 0
    requires restart ==> l.restarts[|l.restarts| - 1] < |l.entries|
    ensures RestartsOk(More(buffer, l, shared, e, restart))
  {
    var l' := More(buffer, l, shared, e, restart);
    forall j | 0 <= j < |l'.restarts| ensures RestartAt(l', j) {
      if j < |l.restarts| {
        assert RestartAt(l, j);
      } else {
        assert RestartAt(l, |l.restarts| - 1);
      }
    }
  }

  lemma MoreIsSpaced(buffer: seq<byte>, l: Layout, shared: nat, e: Entry, restart: bool, interval: nat)
    requires Spaced(l, interval) && shared <= |e.key| && interval >= 1
    requires restart <==> |l.entries| - l.restarts[|l.restarts| - 1] >= interval
    ensures Spaced(More(buffer, l, shared, e, restart), interval)
  {
    var l' := More(buffer, l, shared, e, restart);
    forall j | 0 < j < |l'.restarts| ensures IntervalAt(l', interval, j) {
      assert j < |l.restarts| ==> IntervalAt(l, interval, j);
    }
  }

  class BlockBuilder {
    const interval: nat
    const put: WordWriter
    var buffer: seq<byte>
    var restarts: seq<nat>
    var counter: nat
    var finished: bool
    var lastKey: seq<byte>
    ghost var layout: Layout

    ghost predicate Valid()
      reads this
    {
      && LaidOut(buffer, layout) && RestartsOk(layout) && Spaced(layout, interval) && interval >= 1
      && restarts == layout.offsets && counter == |layout.entries| - layout.restarts[|layout.restarts| - 1]
      && (if layout.entries == [] then lastKey == [] else lastKey == layout.entries[|layout.entries| - 1].key)
    }

    constructor (interval: nat)
      requires interval >= 1
      ensures Valid() && !finished && layout.entries == [] && this.interval == interval && put == Fixed32()
    {
      this.interval, put := interval, Fixed32();
      buffer, restarts, counter, finished, lastKey := [], [0], 0, false, [];
      layout := Layout([], [0], [], [0], [0]);
    }

    /** How much of the key the previous one shares: as much as possible. */
    method SharedPrefix(key: seq<byte>) returns (shared: nat)
      ensures shared <= |key| && shared <= |lastKey| && lastKey[..shared] == key[..shared]
      ensures shared < |key| && shared < |lastKey| ==> lastKey[shared] != key[shared]
    {
      shared := 0;
      var minLength := if |lastKey| < |key| then |lastKey| else |key|;
      while shared < minLength && lastKey[shared] == key[shared]
        invariant shared <= minLength && lastKey[..shared] == key[..shared]
      {
        assert lastKey[..shared + 1] == lastKey[..shared] + [lastKey[shared]] && key[..shared + 1] == key[..shared] + [key[shared]];
        shared := shared + 1;
      }
    }

    method Add(key: seq<byte>, value: seq<byte>)
      requires Valid() && !finished && |key| < UINT32 && |value| < UINT32
      modifies this
      ensures Valid() && !finished && layout.entries == old(layout.entries) + [Entry(key, value)]
      ensures old(buffer) <= buffer
    {
      var shared: nat := 0;
      ghost var restart := counter >= interval;
      if counter < interval {
        shared := SharedPrefix(key);
      } else {
        restarts := restarts + [|buffer|];
        counter := 0;
      }
      ghost var e, was := Entry(key, value), buffer;
      MoreIsLaidOut(was, layout, shared, e, restart);
      MoreRestarts(was, layout, shared, e, restart);
      MoreIsSpaced(was, layout, shared, e, restart, interval);
      layout := More(was, layout, shared, e, restart);
      WriteEntry(shared, key, value);
      lastKey := lastKey[..shared] + key[shared..];
      assert lastKey == key by {
        assert key == key[..shared] + key[shared..];
      }
      counter := counter + 1;
    }

    /** Three lengths, the rest of the key, and the value. */
    method WriteEntry(shared: nat, key: seq<byte>, value: seq<byte>)
      requires shared <= |key| < UINT32 && |value| < UINT32
      modifies `buffer
      ensures buffer == old(buffer) + EntryBytes(shared, Entry(key, value))
    {
      buffer := PutVarint32(buffer, shared);
      buffer := PutVarint32(buffer, |key| - shared);
      buffer := PutVarint32(buffer, |value|);
      buffer := buffer + key[shared..];
      buffer := buffer + value;
      assert buffer == old(buffer) + EntryBytes(shared, Entry(key, value));
    }

    method Finish() returns (contents: seq<byte>)
      requires Valid()
      modifies this
      ensures IsBlock(put, contents, old(buffer), layout) && layout == old(layout) && finished
    {
      LastWord(put, restarts, |restarts|);
      buffer := PutWords(put, buffer, restarts);
      buffer := buffer + put(|restarts|);
      finished := true;
      contents := buffer;
      assert contents == old(buffer) + Words(put, restarts + [|restarts|]);
    }
  }
}
