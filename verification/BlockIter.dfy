/** Reading a block: DecodeEntry and the iterator (table/block.cc). */
module BlockIters {
  import opened BlockFormat
  import opened Coding
  import opened Keys
  import opened Slices

  // ------------------------------------------------------------------ one entry

  lemma ShortVarint(p: seq<byte>, n: nat, rest: seq<byte>)
    requires p == Varint(n) + rest && p[0] < 128
    ensures n == p[0] && p[1..] == rest
  {}

  /** The three lengths before an entry's bytes. */
  lemma EntryParts(shared: nat, e: Entry, rest: seq<byte>)
    requires shared <= |e.key|
    ensures var tail := e.key[shared..] + e.value + rest;
            EntryBytes(shared, e) + rest == Varint(shared) + (Varint(|e.key| - shared) + (Varint(|e.value|) + tail))
  {}

  /** The three lengths: in one byte each, or as varints. */
  method DecodeLengths(p: seq<byte>, ghost a: nat, ghost b: nat, ghost c: nat, ghost tail: seq<byte>)
    returns (ok: bool, shared: nat, nonShared: nat, valueLength: nat, q: seq<byte>)
    ensures ok ==> |q| <= |p|
    ensures p == Varint(a) + (Varint(b) + (Varint(c) + tail)) && a < UINT32 && b < UINT32 && c < UINT32 ==>
              ok && shared == a && nonShared == b && valueLength == c && q == tail
  {
    ok, shared, nonShared, valueLength, q := false, 0, 0, 0, p;
    ghost var third := Varint(c) + tail;
    ghost var second := Varint(b) + third;
    if |p| < 3 {
      return;
    }
    if p[0] < 128 && p[1] < 128 && p[2] < 128 {
      ok, shared, nonShared, valueLength, q := true, p[0], p[1], p[2], p[3..];
      if p == Varint(a) + second {
        ShortVarint(p, a, second);
        ShortVarint(p[1..], b, third);
        ShortVarint(p[2..], c, tail);
      }
    } else {
      ok, shared, q := GetVarint32(p, a, second);
      if ok {
        ok, nonShared, q := GetVarint32(q, b, third);
      }
      if ok {
        ok, valueLength, q := GetVarint32(q, c, tail);
      }
    }
  }

  /** DecodeEntry: the lengths, and the bytes that follow them. */
  method DecodeEntry(p: seq<byte>, ghost s: nat, ghost e: Entry, ghost rest: seq<byte>)
    returns (ok: bool, shared: nat, nonShared: nat, valueLength: nat, q: seq<byte>)
    requires s <= |e.key| < UINT32
    ensures ok ==> (nonShared + valueLength) % UINT32 <= |q| <= |p|
    ensures p == EntryBytes(s, e) + rest && |p| < UINT32 ==>
              ok && shared == s && nonShared == |e.key| - s && valueLength == |e.value| && q == e.key[s..] + e.value + rest
  {
    EntryParts(s, e, rest);
    ok, shared, nonShared, valueLength, q := DecodeLengths(p, s, |e.key| - s, |e.value|, e.key[s..] + e.value + rest);
    ok := ok && |q| >= (nonShared + valueLength) % UINT32;
  }

  // ------------------------------------------------------------------ the layout

  lemma {:induction false} AtGrows(buffer: seq<byte>, l: Layout, i: nat, j: nat)
    requires LaidOut(buffer, l) && i <= j <= |l.entries|
    ensures l.at[i] + 3 * (j - i) <= l.at[j] <= |buffer|
    decreases |l.entries| - i
  {
    if i < j {
      AtGrows(buffer, l, i + 1, j);
      assert EntryAt(buffer, l, i);
    } else if i < |l.entries| {
      AtGrows(buffer, l, i + 1, |l.entries|);
      assert EntryAt(buffer, l, i);
    }
  }

  /** Where entries start tells them apart. */
  lemma AtOrder(buffer: seq<byte>, l: Layout, i: nat, j: nat)
    requires LaidOut(buffer, l) && i <= |l.entries| && j <= |l.entries|
    ensures l.at[i] < l.at[j] <==> i < j
  {
    AtGrows(buffer, l, if i < j then i else j, if i < j then j else i);
  }

  /** Restart point j can be read back. */
  ghost predicate Points(data: seq<byte>, base: nat, offsets: seq<nat>, j: nat)
    requires j < |offsets|
  {
    base + 4 * j + 4 <= |data| && DecodeFixed32(data, base + 4 * j) == offsets[j]
  }

  ghost predicate AllPoint(data: seq<byte>, base: nat, offsets: seq<nat>) {
    forall j {:trigger Points(data, base, offsets, j)} :: 0 <= j < |offsets| ==> Points(data, base, offsets, j)
  }

  lemma WordOfBlock(contents: seq<byte>, buffer: seq<byte>, ns: seq<nat>, j: nat)
    requires contents == buffer + Words(Fixed32(), ns) && j < |ns| && ns[j] < UINT32
    ensures Points(contents, |buffer|, ns, j)
  {
    WordValue(ns[j]);
    WordRead(Fixed32(), buffer, ns, [], j);
    assert buffer + Words(Fixed32(), ns) + [] == contents;
  }

  /** The trailer of a block says where its entries end and which are restart points. */
  lemma BlockReads(contents: seq<byte>, buffer: seq<byte>, l: Layout)
    requires IsBlock(Fixed32(), contents, buffer, l) && |contents| < UINT32
    ensures buffer <= contents && |contents| == |buffer| + 4 * |l.restarts| + 4
    ensures DecodeFixed32(contents, |contents| - 4) == |l.restarts|
    ensures AllPoint(contents, |buffer|, l.offsets)
  {
    var ns := l.offsets + [|l.restarts|];
    WordOfBlock(contents, buffer, ns, |l.restarts|);
    forall j | 0 <= j < |l.offsets| ensures Points(contents, |buffer|, l.offsets, j) {
      assert RestartAt(l, j);
      AtGrows(buffer, l, l.restarts[j], |l.entries|);
      WordOfBlock(contents, buffer, ns, j);
    }
  }

  // ----------------------------------------------------------------------- order

  type Order = (seq<byte>, seq<byte>) -> bool

  ghost predicate Below(less: Order, l: Layout, target: seq<byte>, i: nat)
    requires i < |l.entries|
  {
    less(l.entries[i].key, target)
  }

  /** The keys below the target come first, as they do when the keys ascend. */
  ghost predicate Splits(less: Order, l: Layout, target: seq<byte>) {
    forall i: nat, j: nat {:trigger Below(less, l, target, i), Below(less, l, target, j)} ::
      i < j < |l.entries| && Below(less, l, target, j) ==> Below(less, l, target, i)
  }

  /** Entry i is the first at or after the target; there is none if i is the number of entries. */
  ghost predicate First(less: Order, l: Layout, target: seq<byte>, i: nat) {
    && i <= |l.entries| && (i < |l.entries| ==> !Below(less, l, target, i))
    && forall k: nat {:trigger Below(less, l, target, k)} :: k < i ==> Below(less, l, target, k)
  }

  ghost predicate Transitive(less: Order) {
    forall a, b, c :: less(a, b) && less(b, c) ==> less(a, c)
  }

  ghost predicate Ascends(less: Order, entries: seq<Entry>) {
    forall i, j :: 0 <= i < j < |entries| ==> less(entries[i].key, entries[j].key)
  }

  lemma AscendingSplits(less: Order, l: Layout, target: seq<byte>)
    requires Transitive(less) && Ascends(less, l.entries)
    ensures Splits(less, l, target)
  {
    forall i: nat, j: nat | i < j < |l.entries| && Below(less, l, target, j) ensures Below(less, l, target, i) {
      assert less(l.entries[i].key, l.entries[j].key);
    }
  }

  // -------------------------------------------------------------------- iterator

  class BlockIter {
    const data: seq<byte>
    const restarts: nat
    const numRestarts: nat
    const less: Order
    ghost const buffer: seq<byte>
    ghost const layout: Layout
    var current: nat
    var restartIndex: nat
    var key: seq<byte>
    var value: seq<byte>
    var nextOffset: nat
    var corrupt: bool

    /** What the iterator was made for. */
    ghost predicate Block() {
      && LaidOut(buffer, layout) && RestartsOk(layout) && buffer <= data && |data| < UINT32
      && restarts == |buffer| && numRestarts == |layout.restarts| && AllPoint(data, restarts, layout.offsets)
    }

    constructor (data: seq<byte>, restarts: nat, numRestarts: nat, less: Order, ghost buffer: seq<byte>, ghost layout: Layout)
      requires numRestarts > 0
      ensures this.data == data && this.restarts == restarts && this.numRestarts == numRestarts && this.less == less
      ensures this.buffer == buffer && this.layout == layout && Ended() && !corrupt
    {
      this.data, this.restarts, this.numRestarts, this.less := data, restarts, numRestarts, less;
      this.buffer, this.layout := buffer, layout;
      current, restartIndex, key, value, nextOffset, corrupt := restarts, numRestarts, [], [], 0, false;
    }

    predicate Valid()
      reads this
    {
      current < restarts
    }

    /** It stands on entry i. */
    ghost predicate On(i: nat)
      requires Block()
      reads this
    {
      && i < |layout.entries| && current == layout.at[i] && nextOffset == layout.at[i + 1]
      && key == layout.entries[i].key && value == layout.entries[i].value
      && restartIndex < numRestarts && layout.offsets[restartIndex] <= current
      && (restartIndex + 1 < numRestarts ==> current <= layout.offsets[restartIndex + 1])
    }

    ghost predicate Ended()
      reads this
    {
      current == restarts && restartIndex == numRestarts
    }

    /** Entry i is the next to be parsed. */
    ghost predicate Before(i: nat)
      requires Block()
      reads this
    {
      && i <= |layout.entries| && nextOffset == layout.at[i]
      && (i < |layout.entries| ==> layout.shared[i] <= |key| && layout.shared[i] <= |layout.entries[i].key| && key[..layout.shared[i]] == layout.entries[i].key[..layout.shared[i]])
      && restartIndex < numRestarts && layout.offsets[restartIndex] <= nextOffset
    }

    lemma OnIsBefore(i: nat)
      requires Block() && On(i)
      ensures Before(i + 1) && Valid()
    {
      assert EntryAt(buffer, layout, i);
      if i + 1 < |layout.entries| {
        assert EntryAt(buffer, layout, i + 1);
      }
      AtGrows(buffer, layout, i + 1, |layout.entries|);
    }

    function GetRestartPoint(index: nat): (offset: nat)
      requires Block() && index < numRestarts
      ensures offset == layout.offsets[index]
    {
      assert Points(data, restarts, layout.offsets, index);
      DecodeFixed32(data, restarts + 4 * index)
    }

    method SeekToRestartPoint(index: nat)
      requires Block() && index < numRestarts
      modifies this
      ensures Before(layout.restarts[index]) && corrupt == old(corrupt) && restartIndex == index
    {
      assert RestartAt(layout, index);
      key, restartIndex := [], index;
      value, nextOffset := [], GetRestartPoint(index);
      if layout.restarts[index] < |layout.entries| {
        assert EntryAt(buffer, layout, layout.restarts[index]);
      }
    }

    method CorruptionError()
      modifies this
      ensures Ended()
    {
      current, restartIndex, corrupt := restarts, numRestarts, true;
      key, value := [], [];
    }

    /** The rest of the key replaces what is not shared. */
    method TakeEntry(ghost i: nat) returns (ok: bool)
      requires Block() && current < restarts
      modifies `key, `value, `nextOffset
      ensures old(Before(i)) && current == old(nextOffset) ==>
                ok && i < |layout.entries| && key == layout.entries[i].key && value == layout.entries[i].value && nextOffset == layout.at[i + 1]
    {
      ghost var seen := Before(i) && current == nextOffset;
      ghost var e, s, rest := Entry([], []), 0, [];
      if seen {
        AtOrder(buffer, layout, i, |layout.entries|);
        EntryHere(buffer, data, layout, i);
        e, s, rest := layout.entries[i], layout.shared[i], buffer[layout.at[i + 1]..];
      }
      var shared, nonShared, valueLength, p;
      ok, shared, nonShared, valueLength, p := DecodeEntry(data[current..restarts], s, e, rest);
      ok := ok && |key| >= shared;
      if ok {
        key := key[..shared] + Bytes(p, 0, nonShared);
        value := Bytes(p, nonShared, valueLength);
        nextOffset := restarts - |p| + nonShared + valueLength;
        if seen {
          Taken(e, s, rest, p);
        }
      }
    }

    /** It has only gone on to restart points before the current entry. */
    ghost predicate AdvancedFrom(was: nat)
      requires Block()
      reads this
    {
      restartIndex >= was && (restartIndex > was && restartIndex < numRestarts ==> layout.offsets[restartIndex] < current)
    }

    /** The restart point at or before the current entry. */
    method AdvanceRestart()
      requires Block()
      modifies `restartIndex
      ensures old(restartIndex) < numRestarts && layout.offsets[old(restartIndex)] <= current ==>
                restartIndex < numRestarts && layout.offsets[restartIndex] <= current
                && (restartIndex + 1 < numRestarts ==> current <= layout.offsets[restartIndex + 1])
      ensures AdvancedFrom(old(restartIndex))
    {
      ghost var seen := restartIndex < numRestarts && layout.offsets[restartIndex] <= current;
      while restartIndex + 1 < numRestarts && GetRestartPoint(restartIndex + 1) < current
        invariant seen ==> restartIndex < numRestarts && layout.offsets[restartIndex] <= current
        invariant AdvancedFrom(old(restartIndex))
        decreases numRestarts - restartIndex
      {
        restartIndex := restartIndex + 1;
      }
    }

    method ParseNextKey(ghost i: nat) returns (ok: bool)
      requires Block()
      modifies this
      ensures old(Before(i)) ==> (ok <==> i < |layout.entries|) && corrupt == old(corrupt) && (ok ==> On(i))
      ensures ok ==> AdvancedFrom(old(restartIndex))
      ensures !ok ==> Ended()
    {
      current := nextOffset;
      if current >= restarts {
        AtEnd(i);
        current, restartIndex := restarts, numRestarts;
        return false;
      }
      ok := TakeEntry(i);
      if !ok {
        CorruptionError();
      } else {
        AdvanceRestart();
      }
    }

    method SeekToFirst()
      requires Block()
      modifies this
      ensures corrupt == old(corrupt) && (if layout.entries == [] then Ended() else On(0))
    {
      SeekToRestartPoint(0);
      var ok := ParseNextKey(0);
    }

    method Next(ghost i: nat)
      requires Block() && On(i)
      modifies this
      ensures corrupt == old(corrupt) && (if i + 1 < |layout.entries| then On(i + 1) else Ended())
      ensures forall j :: 0 < j < numRestarts && layout.restarts[j] == i + 1 ==> restartIndex == j - 1
    {
      OnIsBefore(i);
      ghost var was := restartIndex;
      var ok := ParseNextKey(i + 1);
      forall j | 0 < j < numRestarts && layout.restarts[j] == i + 1 ensures restartIndex == j - 1 {
        assert RestartAt(layout, j);
        NotYetThere(i, j, was);
      }
    }

    /** The restart block in which the current entry falls. */
    ghost predicate Falls(r: nat)
      requires Block()
      reads this
    {
      r < numRestarts && layout.offsets[r] <= current && (r + 1 < numRestarts ==> current < layout.offsets[r + 1])
    }

    lemma OffsetsAscend(j: nat, k: nat)
      requires Block() && j < k < numRestarts
      ensures layout.offsets[j] < layout.offsets[k]
    {
      assert RestartAt(layout, k) && RestartAt(layout, k - 1);
      AtOrder(buffer, layout, layout.restarts[k - 1], layout.restarts[k]);
      if j < k - 1 {
        OffsetsAscend(j, k - 1);
      }
    }

    /** On a restart point the index is still that of the block before, if it was when the
        entry before was current. */
    lemma NotYetThere(i: nat, j: nat, was: nat)
      requires Block() && On(i + 1) && AdvancedFrom(was) && 0 < j < numRestarts && layout.restarts[j] == i + 1
      requires was < numRestarts && layout.offsets[was] <= layout.at[i]
      ensures restartIndex == j - 1
    {
      assert RestartAt(layout, j);
      AtOrder(buffer, layout, i, i + 1);
      if j < restartIndex {
        OffsetsAscend(j, restartIndex);
      } else if restartIndex + 1 < j {
        OffsetsAscend(restartIndex + 1, j);
      }
    }

    /** restart_index_ is the restart block of the current entry, or the one before it,
        and that exactly if the entry is the restart point that follows. */
    lemma RestartIndexLags(i: nat)
      requires Block() && On(i)
      ensures var behind := restartIndex + 1 < numRestarts && current == layout.offsets[restartIndex + 1];
              (Falls(restartIndex) <==> !behind) && (behind ==> Falls(restartIndex + 1))
    {
      if restartIndex + 2 < numRestarts {
        OffsetsAscend(restartIndex + 1, restartIndex + 2);
      }
    }

    /** Parse from a restart point until the end of the current entry reaches a bound. */
    method ParseUpTo(bound: nat, ghost i: nat, ghost last: int)
      requires Block() && Before(i) && (i < |layout.entries| ==> i <= last < |layout.entries| && bound == layout.at[last + 1])
      modifies this
      ensures corrupt == old(corrupt) && (if i < |layout.entries| then On(last) else Ended())
    {
      var ok := ParseNextKey(i);
      ghost var k := i;
      while ok && nextOffset < bound
        invariant corrupt == old(corrupt) && (if i < |layout.entries| then i <= k <= last && ok && On(k) else !ok && Ended())
        decreases last - k
      {
        AtOrder(buffer, layout, k + 1, last + 1);
        OnIsBefore(k);
        k := k + 1;
        ok := ParseNextKey(k);
      }
      if ok {
        AtOrder(buffer, layout, k + 1, last + 1);
      }
    }

    /** Prev: back to a restart point that starts earlier, then forward again. */
    method Prev(ghost i: nat)
      requires Block() && On(i)
      modifies this
      ensures corrupt == old(corrupt) && (if i > 0 then On(i - 1) else Ended())
    {
      var original := current;
      while GetRestartPoint(restartIndex) >= original
        invariant restartIndex < numRestarts
        modifies `restartIndex, `current
        invariant current == original
        decreases restartIndex
      {
        if restartIndex == 0 {
          assert RestartAt(layout, 0);
          AtOrder(buffer, layout, 0, i);
          current, restartIndex := restarts, numRestarts;
          return;
        }
        restartIndex := restartIndex - 1;
      }
      var r := restartIndex;
      assert RestartAt(layout, r);
      AtOrder(buffer, layout, layout.restarts[r], i);
      SeekToRestartPoint(r);
      ParseUpTo(original, layout.restarts[r], i - 1);
    }

    method SeekToLast()
      requires Block()
      modifies this
      ensures corrupt == old(corrupt) && (if layout.entries == [] then Ended() else On(|layout.entries| - 1))
    {
      SeekToRestartPoint(numRestarts - 1);
      ghost var i := layout.restarts[numRestarts - 1];
      assert RestartAt(layout, numRestarts - 1);
      ParseUpTo(restarts, i, |layout.entries| - 1);
    }

    /** The key at a restart point, which shares nothing. */
    method RestartKey(index: nat) returns (ok: bool, k: seq<byte>)
      requires Block() && 0 < index < numRestarts
      ensures layout.restarts[index] < |layout.entries| && ok && k == layout.entries[layout.restarts[index]].key
    {
      assert RestartAt(layout, index);
      ghost var i := layout.restarts[index];
      EntryHere(buffer, data, layout, i);
      ghost var e, rest := layout.entries[i], buffer[layout.at[i + 1]..];
      var shared, nonShared, valueLength, p;
      ok, shared, nonShared, valueLength, p := DecodeEntry(data[GetRestartPoint(index)..restarts], 0, e, rest);
      ok := ok && shared == 0;
      Taken(e, 0, rest, p);
      k := Bytes(p, 0, nonShared);
    }

    /** Seek: binary search over the restart points for the last with a key before the
        target, then a scan for the first key at or after it. */
    method Seek(target: seq<byte>) returns (ghost i: nat, ghost r: nat)
      requires Block() && Splits(less, layout, target)
      modifies this
      ensures First(less, layout, target, i) && corrupt == old(corrupt) && (if i < |layout.entries| then On(i) else Ended())
      ensures r < numRestarts && layout.restarts[r] <= i && (r + 1 < numRestarts ==> i <= layout.restarts[r + 1])
    {
      var left: nat, right: nat := 0, numRestarts - 1;
      while left < right
        invariant left <= right < numRestarts && unchanged(this)
        invariant left > 0 ==> layout.restarts[left] < |layout.entries| && Below(less, layout, target, layout.restarts[left])
        invariant right + 1 < numRestarts ==> layout.restarts[right + 1] < |layout.entries| && !Below(less, layout, target, layout.restarts[right + 1])
        decreases right - left
      {
        var mid := (left + right + 1) / 2;
        var ok, midKey := RestartKey(mid);
        if less(midKey, target) {
          left := mid;
        } else {
          right := mid - 1;
        }
      }
      SeekToRestartPoint(left);
      i, r := layout.restarts[left], left;
      assert RestartAt(layout, left);
      var ok := ParseNextKey(i);
      while ok && less(key, target)
        invariant layout.restarts[r] <= i <= |layout.entries| && corrupt == old(corrupt)
        invariant forall k: nat {:trigger Below(less, layout, target, k)} :: k < i ==> Below(less, layout, target, k)
        invariant if ok then On(i) else i == |layout.entries| && Ended()
        decreases |layout.entries| - i
      {
        assert Below(less, layout, target, i);
        OnIsBefore(i);
        i := i + 1;
        ok := ParseNextKey(i);
      }
    }

    lemma AtEnd(i: nat)
      requires Block()
      ensures Before(i) && nextOffset >= restarts ==> i == |layout.entries|
    {
      if i <= |layout.entries| {
        AtOrder(buffer, layout, i, |layout.entries|);
      }
    }
  }

  /** The bytes at p; what lies beyond the block is not part of this model. */
  function Bytes(p: seq<byte>, start: nat, n: nat): seq<byte> {
    if start + n <= |p| then p[start..start + n] else []
  }

  lemma Taken(e: Entry, s: nat, rest: seq<byte>, p: seq<byte>)
    requires s <= |e.key| && p == e.key[s..] + e.value + rest
    ensures Bytes(p, 0, |e.key| - s) == e.key[s..] && Bytes(p, |e.key| - s, |e.value|) == e.value
    ensures e.key == e.key[..s] + e.key[s..]
  {}

  /** The bytes from where entry i starts. */
  lemma EntryHere(buffer: seq<byte>, data: seq<byte>, l: Layout, i: nat)
    requires LaidOut(buffer, l) && buffer <= data && i < |l.entries|
    ensures l.at[i] < l.at[i + 1] <= |buffer| && Shares(l, i)
    ensures data[l.at[i]..|buffer|] == EntryBytes(l.shared[i], l.entries[i]) + buffer[l.at[i + 1]..]
    ensures l.at[i + 1] == l.at[i] + |EntryBytes(l.shared[i], l.entries[i])|
  {
    assert EntryAt(buffer, l, i);
    assert data[l.at[i]..|buffer|] == buffer[l.at[i]..l.at[i + 1]] + buffer[l.at[i + 1]..];
  }
}
