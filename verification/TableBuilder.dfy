/** Building a table (table/table_builder.cc): data blocks, the index with its shortened
    keys, the filter block, and the bytes of the file they end up in. */
module TableBuilders {
  import opened Keys
  import opened Separator
  import opened Bloom
  import opened FilterBlock
  import opened Tables
  import opened TableBlocks
  import opened TableFormat
  import BlockFormat

  /** An estimate of the size of a block of these entries; any function will do. */
  type BlockSize = seq<Pair> -> nat

  type Blocks = seq<seq<Pair>>

  // ---------------------------------------------------------------- invariants

  ghost predicate NoneEmpty(blocks: Blocks) {
    forall b {:trigger blocks[b]} :: 0 <= b < |blocks| ==> |blocks[b]| > 0
  }

  /** The blocks written so far and the block being built hold all that was added. */
  ghost predicate Holds(blocks: Blocks, dataBlock: seq<Pair>, all: seq<Pair>) {
    all == Flat(blocks, |blocks|) + dataBlock && Ascending(all) && NoneEmpty(blocks)
  }

  ghost predicate WrittenAt(sum: Checksum, file: seq<byte>, block: seq<Pair>, h: Handle) {
    PairsAt(sum, file, h, block) && h.offset < |file|
  }

  /** Every block is where its handle says. */
  ghost predicate Written(sum: Checksum, file: seq<byte>, blocks: Blocks, handles: seq<Handle>) {
    |handles| == |blocks| && forall i {:trigger WrittenAt(sum, file, blocks[i], handles[i])} :: 0 <= i < |blocks| ==> WrittenAt(sum, file, blocks[i], handles[i])
  }

  ghost predicate BlocksFit(blocks: Blocks, dataBlock: seq<Pair>) {
    AllFit(dataBlock) && forall b {:trigger blocks[b]} :: 0 <= b < |blocks| ==> AllFit(blocks[b])
  }

  ghost predicate KeysFit(index: seq<IndexEntry>) {
    forall i {:trigger index[i]} :: 0 <= i < |index| ==> KeyFits(index[i].key)
  }

  /** Index entry i is for block i and separates it from the entry that follows. */
  ghost predicate Indexed(index: seq<IndexEntry>, blocks: Blocks, handles: seq<Handle>, rest: seq<Pair>, i: nat) {
    && |index| <= |blocks| && |handles| == |blocks| && NoneEmpty(blocks) && i < |index|
    && index[i].handle == handles[i] && SeparatorOk(index, blocks, rest, i)
  }

  ghost predicate AllIndexed(index: seq<IndexEntry>, blocks: Blocks, handles: seq<Handle>, rest: seq<Pair>) {
    forall i {:trigger Indexed(index, blocks, handles, rest, i)} :: 0 <= i < |index| ==> Indexed(index, blocks, handles, rest, i)
  }

  /** There is an index entry for every block, except that the one for the last may still
      be waiting for the next key; then the block being built is empty. */
  ghost predicate IndexOk(index: seq<IndexEntry>, waiting: bool, waitingHandle: Handle, blocks: Blocks, handles: seq<Handle>, dataBlock: seq<Pair>) {
    && AllIndexed(index, blocks, handles, dataBlock)
    && |index| + (if waiting then 1 else 0) == |blocks| == |handles|
    && (waiting ==> dataBlock == [] && waitingHandle == handles[|blocks| - 1])
    && (|index| > 0 && !waiting ==> dataBlock != [])
  }

  /** The user keys of a block are in its filter, or among the keys of the next one. */
  ghost predicate InFilter(filters: seq<seq<UserKey>>, pending: seq<UserKey>, offset: nat, block: seq<Pair>) {
    var f := offset / BASE;
    && f <= |filters|
    && forall j :: 0 <= j < |block| ==> block[j].key.user in if f < |filters| then filters[f] else pending
  }

  ghost predicate AllInFilter(filters: seq<seq<UserKey>>, pending: seq<UserKey>, offset: nat, blocks: Blocks, handles: seq<Handle>, dataBlock: seq<Pair>) {
    && |handles| == |blocks| && |filters| == offset / BASE && InFilter(filters, pending, offset, dataBlock)
    && forall i {:trigger handles[i]} :: 0 <= i < |blocks| ==> InFilter(filters, pending, handles[i].offset, blocks[i])
  }

  // ------------------------------------------------------------ one entry added

  lemma HoldsMore(blocks: Blocks, dataBlock: seq<Pair>, all: seq<Pair>, p: Pair)
    requires Holds(blocks, dataBlock, all) && (|all| > 0 ==> ILess(all[|all| - 1].key, p.key))
    ensures Holds(blocks, dataBlock + [p], all + [p])
  {}

  lemma LastFits(blocks: Blocks, dataBlock: seq<Pair>, all: seq<Pair>)
    requires Holds(blocks, dataBlock, all) && BlocksFit(blocks, dataBlock) && |all| > 0
    ensures KeyFits(all[|all| - 1].key)
  {
    if dataBlock == [] {
      LastOfAll(blocks, all);
    }
  }

  lemma LastOfAll(blocks: Blocks, all: seq<Pair>)
    requires Holds(blocks, [], all) && |blocks| > 0
    ensures |all| > 0 && |blocks[|blocks| - 1]| > 0 && all[|all| - 1] == blocks[|blocks| - 1][|blocks[|blocks| - 1]| - 1]
  {}

  /** The entry that waited, with a key that separates the last block from the new entry. */
  lemma IndexEntryAdded(index: seq<IndexEntry>, h: Handle, blocks: Blocks, handles: seq<Handle>, all: seq<Pair>, key: IKey, p: Pair)
    requires Holds(blocks, [], all) && IndexOk(index, true, h, blocks, handles, [])
    requires |all| > 0 && Separates(all[|all| - 1].key, key, p.key)
    ensures IndexOk(index + [IndexEntry(key, h)], false, h, blocks, handles, [p])
  {
    LastOfAll(blocks, all);
    var ix := index + [IndexEntry(key, h)];
    forall i | 0 <= i < |ix| ensures Indexed(ix, blocks, handles, [p], i) {
      assert i < |index| ==> Indexed(index, blocks, handles, [], i);
    }
  }

  /** No entry waited: what follows the last block stays the same. */
  lemma IndexKept(index: seq<IndexEntry>, h: Handle, blocks: Blocks, handles: seq<Handle>, dataBlock: seq<Pair>, p: Pair)
    requires IndexOk(index, false, h, blocks, handles, dataBlock)
    ensures IndexOk(index, false, h, blocks, handles, dataBlock + [p])
  {
    forall i | 0 <= i < |index| ensures Indexed(index, blocks, handles, dataBlock + [p], i) {
      assert Indexed(index, blocks, handles, dataBlock, i);
    }
  }

  lemma FilterKeyAdded(filters: seq<seq<UserKey>>, pending: seq<UserKey>, offset: nat, blocks: Blocks, handles: seq<Handle>, dataBlock: seq<Pair>, p: Pair)
    requires AllInFilter(filters, pending, offset, blocks, handles, dataBlock)
    ensures AllInFilter(filters, pending + [p.key.user], offset, blocks, handles, dataBlock + [p])
  {
    var more := pending + [p.key.user];
    forall i {:trigger handles[i]} | 0 <= i < |blocks| ensures InFilter(filters, more, handles[i].offset, blocks[i]) {
      assert InFilter(filters, pending, handles[i].offset, blocks[i]);
    }
  }

  // ------------------------------------------------------------- one block written

  lemma HoldsFlushed(blocks: Blocks, dataBlock: seq<Pair>, all: seq<Pair>)
    requires Holds(blocks, dataBlock, all) && dataBlock != []
    ensures Holds(blocks + [dataBlock], [], all)
  {
    FlatSame(blocks, blocks + [dataBlock], |blocks|);
  }

  lemma WrittenMore(sum: Checksum, file: seq<byte>, blocks: Blocks, handles: seq<Handle>, block: seq<Pair>, contents: seq<byte>)
    requires Written(sum, file, blocks, handles) && HoldsPairs(contents, block)
    ensures Written(sum, file + RawBlock(sum, contents), blocks + [block], handles + [Handle(|file|, |contents|)])
  {
    var file', hs, bs := file + RawBlock(sum, contents), handles + [Handle(|file|, |contents|)], blocks + [block];
    StoredLast(sum, file, contents);
    forall i | 0 <= i < |bs| ensures WrittenAt(sum, file', bs[i], hs[i]) {
      if i < |blocks| {
        assert WrittenAt(sum, file, blocks[i], handles[i]);
        PairsStay(sum, file, RawBlock(sum, contents), handles[i], blocks[i]);
      }
    }
  }

  lemma WrittenStays(sum: Checksum, file: seq<byte>, more: seq<byte>, blocks: Blocks, handles: seq<Handle>)
    requires Written(sum, file, blocks, handles)
    ensures Written(sum, file + more, blocks, handles)
  {
    forall i | 0 <= i < |blocks| ensures WrittenAt(sum, file + more, blocks[i], handles[i]) {
      assert WrittenAt(sum, file, blocks[i], handles[i]);
      PairsStay(sum, file, more, handles[i], blocks[i]);
    }
  }

  lemma IndexFlushed(index: seq<IndexEntry>, h: Handle, blocks: Blocks, handles: seq<Handle>, dataBlock: seq<Pair>, h': Handle)
    requires IndexOk(index, false, h, blocks, handles, dataBlock) && dataBlock != [] && NoneEmpty(blocks)
    ensures IndexOk(index, true, h', blocks + [dataBlock], handles + [h'], [])
  {
    var bs, hs := blocks + [dataBlock], handles + [h'];
    forall i | 0 <= i < |index| ensures Indexed(index, bs, hs, [], i) {
      assert Indexed(index, blocks, handles, dataBlock, i);
    }
  }

  /** All that holds once the block is in the file. */
  lemma BlockFlushed(sum: Checksum, file: seq<byte>, index: seq<IndexEntry>, h: Handle, blocks: Blocks, handles: seq<Handle>,
                     dataBlock: seq<Pair>, all: seq<Pair>, contents: seq<byte>)
    requires Holds(blocks, dataBlock, all) && Written(sum, file, blocks, handles) && BlocksFit(blocks, dataBlock)
    requires IndexOk(index, false, h, blocks, handles, dataBlock)
    requires HoldsPairs(contents, dataBlock) && dataBlock != []
    ensures var bs, hs, h' := blocks + [dataBlock], handles + [Handle(|file|, |contents|)], Handle(|file|, |contents|);
            && Holds(bs, [], all) && Written(sum, file + RawBlock(sum, contents), bs, hs) && BlocksFit(bs, [])
            && IndexOk(index, true, h', bs, hs, [])
  {
    HoldsFlushed(blocks, dataBlock, all);
    WrittenMore(sum, file, blocks, handles, dataBlock, contents);
    IndexFlushed(index, h, blocks, handles, dataBlock, Handle(|file|, |contents|));
  }

  /** The filters after StartBlock: the keys that waited are in the filter of their block. */
  ghost predicate Started(filters: seq<seq<UserKey>>, pending: seq<UserKey>, filters': seq<seq<UserKey>>, pending': seq<UserKey>, offset: nat) {
    && |filters'| == offset / BASE && |filters| <= |filters'|
    && (|filters'| == |filters| ==> filters' == filters && pending' == pending)
    && (|filters'| > |filters| ==> filters'[..|filters| + 1] == filters + [pending])
  }

  lemma InFilterKept(filters: seq<seq<UserKey>>, pending: seq<UserKey>, filters': seq<seq<UserKey>>, pending': seq<UserKey>, at: nat, offset': nat, block: seq<Pair>)
    requires InFilter(filters, pending, at, block) && Started(filters, pending, filters', pending', offset')
    ensures InFilter(filters', pending', at, block)
  {
    var f := at / BASE;
    if |filters'| > |filters| {
      assert filters'[f] == filters'[..|filters| + 1][f] == (filters + [pending])[f];
    }
  }

  lemma FilterFlushed(filters: seq<seq<UserKey>>, pending: seq<UserKey>, filters': seq<seq<UserKey>>, pending': seq<UserKey>,
                      offset: nat, offset': nat, blocks: Blocks, handles: seq<Handle>, dataBlock: seq<Pair>, h: Handle)
    requires AllInFilter(filters, pending, offset, blocks, handles, dataBlock) && h.offset == offset <= offset'
    requires Started(filters, pending, filters', pending', offset')
    ensures AllInFilter(filters', pending', offset', blocks + [dataBlock], handles + [h], [])
  {
    var bs, hs := blocks + [dataBlock], handles + [h];
    forall i {:trigger hs[i]} | 0 <= i < |bs| ensures InFilter(filters', pending', hs[i].offset, bs[i]) {
      assert i < |blocks| ==> InFilter(filters, pending, handles[i].offset, blocks[i]);
      InFilterKept(filters, pending, filters', pending', hs[i].offset, offset', bs[i]);
    }
  }

  // -------------------------------------------------------------------- finished

  /** With every block indexed, the table is built. */
  lemma FinishedIsBuilt(index: seq<IndexEntry>, blocks: Blocks, handles: seq<Handle>, all: seq<Pair>)
    requires Holds(blocks, [], all) && AllIndexed(index, blocks, handles, []) && |index| == |blocks|
    ensures Built(index, blocks, all)
  {
    forall i | 0 <= i < |index| ensures SeparatorOk(index, blocks, [], i) {
      assert Indexed(index, blocks, handles, [], i);
    }
  }

  /** The last index entry, when no key follows. */
  lemma LastIndexEntry(index: seq<IndexEntry>, h: Handle, blocks: Blocks, handles: seq<Handle>, all: seq<Pair>, key: IKey)
    requires Holds(blocks, [], all) && IndexOk(index, true, h, blocks, handles, [])
    requires |all| > 0 && Succeeds(all[|all| - 1].key, key)
    ensures AllIndexed(index + [IndexEntry(key, h)], blocks, handles, [])
  {
    LastOfAll(blocks, all);
    var ix := index + [IndexEntry(key, h)];
    forall i | 0 <= i < |ix| ensures Indexed(ix, blocks, handles, [], i) {
      assert i < |index| ==> Indexed(index, blocks, handles, [], i);
    }
  }

  /** Every block's keys are in the filter its offset selects. */
  lemma FinishedIsFiltered(filters: seq<seq<UserKey>>, pending: seq<UserKey>, filters': seq<seq<UserKey>>, offset: nat,
                           index: seq<IndexEntry>, blocks: Blocks, handles: seq<Handle>)
    requires AllInFilter(filters, pending, offset, blocks, handles, [])
    requires filters' == if pending == [] then filters else filters + [pending]
    requires AllIndexed(index, blocks, handles, []) && |index| == |blocks|
    ensures AllFiltered(filters', index, blocks)
  {
    forall i | 0 <= i < |index| ensures Filtered(filters', index, blocks, i) {
      assert Indexed(index, blocks, handles, [], i) && InFilter(filters, pending, handles[i].offset, blocks[i]);
    }
  }

  // ------------------------------------------------------------ the finished file

  /** What the filter block was written as. */
  datatype FilterView = FilterView(hash: Hash, contents: seq<byte>, result: seq<byte>, offsets: seq<nat>, filters: seq<seq<UserKey>>)

  /** What a table file was written as. */
  datatype TableView = TableView(
    blocks: Blocks, index: seq<IndexEntry>, all: seq<Pair>, meta: Handle, indexHandle: Handle, filterHandle: Option<Handle>, filter: FilterView)

  /** The entries of the metaindex block. */
  function MetaEntries(enc: HandleWriter, name: seq<byte>, filterHandle: Option<Handle>): seq<BlockFormat.Entry> {
    if filterHandle == None then [] else [BlockFormat.Entry(name, enc(filterHandle.value))]
  }

  ghost predicate MetaAt(sum: Checksum, file: seq<byte>, h: Handle, entries: seq<BlockFormat.Entry>) {
    exists contents :: Stored(sum, file, h, contents) && BlockRoundTrip.Holds(contents, entries)
  }

  /** The contents of a filter block. */
  ghost predicate FilterOf(put: Codec, v: FilterView) {
    && v.contents == v.result + Coding.Words(put.word, v.offsets + [|v.result|]) + [BASE_LG]
    && FiltersOk(v.hash, v.result, v.offsets, v.filters)
  }

  ghost predicate BlocksAt(sum: Checksum, file: seq<byte>, index: seq<IndexEntry>, blocks: Blocks)
    requires |index| == |blocks|
  {
    forall i {:trigger PairsAt(sum, file, index[i].handle, blocks[i])} :: 0 <= i < |index| ==> PairsAt(sum, file, index[i].handle, blocks[i])
  }

  /** Blocks, filters, metaindex and index are in the file, in front of the footer. */
  ghost predicate InFile(put: Codec, sum: Checksum, name: seq<byte>, file: seq<byte>, t: TableView) {
    && Built(t.index, t.blocks, t.all) && KeysFit(t.index) && BlocksFit(t.blocks, [])
    && BlocksAt(sum, file, t.index, t.blocks) && PairsAt(sum, file, t.indexHandle, AsPairs(put.handle, t.index))
    && MetaAt(sum, file, t.meta, MetaEntries(put.handle, name, t.filterHandle))
    && (t.filterHandle.Some? ==> Stored(sum, file, t.filterHandle.value, t.filter.contents) && FilterOf(put, t.filter) && AllFiltered(t.filter.filters, t.index, t.blocks))
  }

  /** A table file. */
  ghost predicate IsTable(put: Codec, sum: Checksum, name: seq<byte>, file: seq<byte>, t: TableView) {
    && InFile(put, sum, name, file, t)
    && exists front :: file == front + FooterBytes(put, t.meta, t.indexHandle)
  }

  lemma BlocksStay(sum: Checksum, file: seq<byte>, more: seq<byte>, index: seq<IndexEntry>, blocks: Blocks)
    requires |index| == |blocks| && BlocksAt(sum, file, index, blocks)
    ensures BlocksAt(sum, file + more, index, blocks)
  {
    forall i | 0 <= i < |index| ensures PairsAt(sum, file + more, index[i].handle, blocks[i]) {
      PairsStay(sum, file, more, index[i].handle, blocks[i]);
    }
  }

  lemma InFileStays(put: Codec, sum: Checksum, name: seq<byte>, file: seq<byte>, more: seq<byte>, t: TableView)
    requires InFile(put, sum, name, file, t)
    ensures InFile(put, sum, name, file + more, t)
  {
    BlocksStay(sum, file, more, t.index, t.blocks);
    PairsStay(sum, file, more, t.indexHandle, AsPairs(put.handle, t.index));
    var contents :| Stored(sum, file, t.meta, contents) && BlockRoundTrip.Holds(contents, MetaEntries(put.handle, name, t.filterHandle));
    StoredStays(sum, file, more, t.meta, contents);
    if t.filterHandle.Some? {
      StoredStays(sum, file, more, t.filterHandle.value, t.filter.contents);
    }
  }

  // --------------------------------------------------------------------- builder

  class TableBuilder {
    const blockSize: nat
    const sizeOf: BlockSize
    const interval: nat
    const sum: Checksum
    const put: Codec
    const filterBlock: FilterBlockBuilder?
    var file: seq<byte>
    var offset: nat
    var dataBlock: seq<Pair>
    var indexBlock: seq<IndexEntry>
    var lastKey: IKey
    var numEntries: nat
    var pendingIndexEntry: bool
    var pendingHandle: Handle
    ghost var blocks: Blocks
    ghost var handles: seq<Handle>
    ghost var all: seq<Pair>

    ghost predicate FilterOk()
      reads this, filterBlock, if filterBlock == null then null else filterBlock.policy
    {
      filterBlock != null ==>
        filterBlock.put == put.word && filterBlock.Valid() && AllInFilter(filterBlock.filters, filterBlock.pending, offset, blocks, handles, dataBlock)
    }

    /** What holds without the filter. */
    ghost predicate Sound()
      reads this
    {
      && interval >= 1 && Short(put.handle) && offset == |file| && BlocksFit(blocks, dataBlock) && KeysFit(indexBlock)
      && Holds(blocks, dataBlock, all) && Written(sum, file, blocks, handles)
      && IndexOk(indexBlock, pendingIndexEntry, pendingHandle, blocks, handles, dataBlock)
      && numEntries == |all| && (|all| > 0 ==> lastKey == all[|all| - 1].key)
    }

    ghost predicate Valid()
      reads this, filterBlock, if filterBlock == null then null else filterBlock.policy
    {
      Sound() && FilterOk()
    }

    /** No block is being built. */
    ghost predicate Flushed()
      reads this
    {
      Sound() && dataBlock == [] && (pendingIndexEntry || (indexBlock == [] && blocks == []))
    }

    constructor (blockSize: nat, sizeOf: BlockSize, interval: nat, sum: Checksum, put: Codec, filterBlock: FilterBlockBuilder?)
      requires interval >= 1 && Short(put.handle)
      requires filterBlock != null ==> filterBlock.Valid() && filterBlock.put == put.word && filterBlock.filters == [] && filterBlock.pending == []
      ensures Valid() && all == [] && this.filterBlock == filterBlock && this.blockSize == blockSize && this.sizeOf == sizeOf && this.sum == sum && this.put == put
    {
      this.blockSize, this.sizeOf, this.interval, this.sum, this.put, this.filterBlock := blockSize, sizeOf, interval, sum, put, filterBlock;
      file, offset, dataBlock, indexBlock, numEntries := [], 0, [], [], 0;
      lastKey, pendingIndexEntry, pendingHandle := IKey([], 0, Deletion), false, Handle(0, 0);
      blocks, handles, all := [], [], [];
    }

    /** The index entry that waited, now that the next entry is known. */
    method AddIndexEntry(p: Pair)
      requires Holds(blocks, dataBlock, all) && |all| > 0 && lastKey == all[|all| - 1].key && ILess(lastKey, p.key)
      requires IndexOk(indexBlock, true, pendingHandle, blocks, handles, dataBlock) && pendingIndexEntry
      requires KeysFit(indexBlock) && KeyFits(lastKey)
      modifies `lastKey, `indexBlock, `pendingIndexEntry
      ensures !pendingIndexEntry && IndexOk(indexBlock, false, pendingHandle, blocks, handles, [p]) && KeysFit(indexBlock)
    {
      lastKey := InternalSeparator(lastKey, p.key);
      IndexEntryAdded(indexBlock, pendingHandle, blocks, handles, all, lastKey, p);
      indexBlock := indexBlock + [IndexEntry(lastKey, pendingHandle)];
      pendingIndexEntry := false;
    }

    /** The user key goes to the filter that is being collected. */
    method AddToFilter(p: Pair)
      requires filterBlock != null && FilterOk()
      modifies filterBlock
      ensures filterBlock.Valid()
      ensures AllInFilter(filterBlock.filters, filterBlock.pending, offset, blocks, handles, dataBlock + [p])
    {
      FilterKeyAdded(filterBlock.filters, filterBlock.pending, offset, blocks, handles, dataBlock, p);
      filterBlock.AddKey(p.key.user);
    }

    /** The index entry that waited is added first. */
    method PrepareIndex(p: Pair)
      requires Holds(blocks, dataBlock, all) && (|all| > 0 ==> lastKey == all[|all| - 1].key && ILess(lastKey, p.key) && KeyFits(lastKey))
      requires IndexOk(indexBlock, pendingIndexEntry, pendingHandle, blocks, handles, dataBlock) && KeysFit(indexBlock)
      modifies `lastKey, `indexBlock, `pendingIndexEntry
      ensures !pendingIndexEntry && IndexOk(indexBlock, false, pendingHandle, blocks, handles, dataBlock + [p]) && KeysFit(indexBlock)
    {
      if pendingIndexEntry {
        LastOfAll(blocks, all);
        AddIndexEntry(p);
        assert dataBlock + [p] == [p];
      } else {
        IndexKept(indexBlock, pendingHandle, blocks, handles, dataBlock, p);
      }
    }

    /** The entry goes to the block being built. */
    method Take(p: Pair)
      modifies `lastKey, `numEntries, `dataBlock, `all
      ensures lastKey == p.key && numEntries == old(numEntries) + 1 && dataBlock == old(dataBlock) + [p] && all == old(all) + [p]
    {
      lastKey := p.key;
      numEntries := numEntries + 1;
      dataBlock := dataBlock + [p];
      all := all + [p];
    }

    method AppendEntry(p: Pair)
      requires Sound() && (|all| > 0 ==> ILess(all[|all| - 1].key, p.key)) && PairFits(p)
      modifies `lastKey, `indexBlock, `pendingIndexEntry, `numEntries, `dataBlock, `all
      ensures Sound() && all == old(all) + [p] && dataBlock == old(dataBlock) + [p]
    {
      HoldsMore(blocks, dataBlock, all, p);
      if |all| > 0 {
        LastFits(blocks, dataBlock, all);
      }
      PrepareIndex(p);
      Take(p);
    }

    method Append(p: Pair)
      requires Valid() && (|all| > 0 ==> ILess(all[|all| - 1].key, p.key)) && PairFits(p)
      modifies this, filterBlock
      ensures Valid() && all == old(all) + [p] && offset == old(offset) && dataBlock == old(dataBlock) + [p] && blocks == old(blocks)
    {
      if filterBlock != null {
        AddToFilter(p);
      }
      AppendEntry(p);
    }

    /** Add: the key must follow all those added before. */
    method Add(key: IKey, value: seq<byte>)
      requires Valid() && (|all| > 0 ==> ILess(all[|all| - 1].key, key)) && PairFits(Pair(key, value))
      modifies this, filterBlock
      ensures Valid() && all == old(all) + [Pair(key, value)]
      ensures var open := old(dataBlock) + [Pair(key, value)];
              if sizeOf(open) >= blockSize then dataBlock == [] && blocks == old(blocks) + [open] else dataBlock == open && blocks == old(blocks)
    {
      Append(Pair(key, value));
      if sizeOf(dataBlock) >= blockSize {
        Flush();
      }
    }

    /** WriteRawBlock: contents, type and checksum go to the end of the file. */
    method WriteRawBlock(contents: seq<byte>) returns (handle: Handle)
      requires offset == |file|
      modifies `file, `offset
      ensures handle == Handle(old(offset), |contents|) && file == old(file) + RawBlock(sum, contents) && offset == |file|
    {
      handle := Handle(offset, |contents|);
      file := file + RawBlock(sum, contents);
      offset := offset + |contents| + TRAILER;
    }

    /** The block being built goes to the end of the file, and another starts. */
    method StoreBlock(contents: seq<byte>)
      requires offset == |file|
      modifies `file, `offset, `blocks, `handles, `dataBlock, `pendingHandle, `pendingIndexEntry
      ensures file == old(file) + RawBlock(sum, contents) && offset == |file|
      ensures pendingHandle == Handle(|old(file)|, |contents|) && pendingIndexEntry && dataBlock == []
      ensures blocks == old(blocks) + [old(dataBlock)] && handles == old(handles) + [pendingHandle]
    {
      pendingHandle := WriteRawBlock(contents);
      pendingIndexEntry := true;
      blocks, handles, dataBlock := blocks + [dataBlock], handles + [pendingHandle], [];
    }

    /** WriteBlock: the block being built goes to the end of the file; its index entry waits. */
    method WriteBlock()
      requires Sound() && |dataBlock| > 0
      modifies this
      ensures Sound() && all == old(all) && dataBlock == [] && pendingIndexEntry
      ensures blocks == old(blocks) + [old(dataBlock)] && handles == old(handles) + [pendingHandle]
      ensures pendingHandle.offset == old(offset) <= offset
    {
      var contents := BuildPairs(dataBlock, interval);
      BlockFlushed(sum, file, indexBlock, pendingHandle, blocks, handles, dataBlock, all, contents);
      StoreBlock(contents);
    }

    method Flush()
      requires Valid()
      modifies this, filterBlock
      ensures Valid() && Flushed() && all == old(all) && blocks == if old(dataBlock) == [] then old(blocks) else old(blocks) + [old(dataBlock)]
    {
      if |dataBlock| == 0 {
        return;
      }
      WriteBlock();
      if filterBlock != null {
        ghost var filters, pending := filterBlock.filters, filterBlock.pending;
        OffsetsGrow(old(offset), offset);
        filterBlock.StartBlock(offset);
        FilterFlushed(filters, pending, filterBlock.filters, filterBlock.pending, old(offset), offset, old(blocks), old(handles), old(dataBlock), pendingHandle);
      }
    }

    /** The filter block, with the keys that were still waiting. */
    method WriteFilter() returns (h: Handle, ghost v: FilterView)
      requires filterBlock != null && filterBlock.Valid() && filterBlock.put == put.word && offset == |file|
      modifies `file, `offset, filterBlock
      ensures offset == |file| && file == old(file) + RawBlock(sum, v.contents) && h == Handle(|old(file)|, |v.contents|)
      ensures FilterOf(put, v) && v.hash == filterBlock.policy.hash
      ensures v.filters == if old(filterBlock.pending) == [] then old(filterBlock.filters) else old(filterBlock.filters) + [old(filterBlock.pending)]
    {
      var contents := filterBlock.Finish();
      v := FilterView(filterBlock.policy.hash, contents, filterBlock.result, filterBlock.filterOffsets, filterBlock.filters);
      h := WriteRawBlock(contents);
    }

    /** The metaindex block says where the filter block is. */
    method WriteMeta(name: seq<byte>, h: Option<Handle>) returns (meta: Handle, ghost contents: seq<byte>)
      requires offset == |file| && interval >= 1 && |name| < Coding.UINT32 && (h.Some? ==> HandleOk(h.value)) && Short(put.handle)
      modifies `file, `offset
      ensures offset == |file| && file == old(file) + RawBlock(sum, contents) && meta == Handle(|old(file)|, |contents|)
      ensures BlockRoundTrip.Holds(contents, MetaEntries(put.handle, name, h))
    {
      assert h.Some? ==> |put.handle(h.value)| <= MAX_HANDLE;
      var bytes;
      ghost var buffer, l;
      bytes, buffer, l := BlockRoundTrip.Build(MetaEntries(put.handle, name, h), interval);
      contents := bytes;
      meta := WriteRawBlock(bytes);
    }

    /** The index block, whose restart interval is 1. */
    method WriteIndex() returns (h: Handle, ghost contents: seq<byte>)
      requires offset == |file| && AllFit(AsPairs(put.handle, indexBlock))
      modifies `file, `offset
      ensures offset == |file| && file == old(file) + RawBlock(sum, contents) && h == Handle(|old(file)|, |contents|)
      ensures HoldsPairs(contents, AsPairs(put.handle, indexBlock))
    {
      var bytes := BuildPairs(AsPairs(put.handle, indexBlock), 1);
      contents := bytes;
      h := WriteRawBlock(bytes);
    }

    /** The last index entry, which no key follows. */
    method FinishIndex()
      requires Holds(blocks, [], all) && (|all| > 0 ==> lastKey == all[|all| - 1].key)
      requires IndexOk(indexBlock, pendingIndexEntry, pendingHandle, blocks, handles, [])
      requires pendingIndexEntry || (indexBlock == [] && blocks == [])
      requires KeysFit(indexBlock) && BlocksFit(blocks, [])
      modifies `lastKey, `indexBlock, `pendingIndexEntry
      ensures AllIndexed(indexBlock, blocks, handles, []) && |indexBlock| == |blocks| && KeysFit(indexBlock)
    {
      if pendingIndexEntry {
        LastOfAll(blocks, all);
        lastKey := InternalSuccessor(lastKey);
        LastIndexEntry(indexBlock, pendingHandle, blocks, handles, all, lastKey);
        indexBlock := indexBlock + [IndexEntry(lastKey, pendingHandle)];
        pendingIndexEntry := false;
      }
    }

    /** Finish: the last block, the filters, the metaindex, the index and the footer are
        written.  Then the file is a table of all that was added, whose filters know its
        keys; only a file of 2^64 bytes or more, whose offsets do not fit, is left out. */
    method Finish(name: seq<byte>) returns (tooLarge: bool, ghost t: TableView)
      requires Valid() && |name| < Coding.UINT32
      modifies this, filterBlock
      ensures all == old(all)
      ensures !tooLarge ==> IsTable(put, sum, name, file, t) && t.all == all
      ensures tooLarge ==> |file| >= Coding.UINT64
      ensures !tooLarge ==> if filterBlock == null then t.filterHandle == None else t.filterHandle.Some? && t.filter.hash == filterBlock.policy.hash
    {
      Flush();
      tooLarge, t := WriteRest(name);
    }

    /** What follows the data blocks. */
    method WriteRest(name: seq<byte>) returns (tooLarge: bool, ghost t: TableView)
      requires FilterOk() && Flushed() && |name| < Coding.UINT32
      modifies `file, `offset, `lastKey, `indexBlock, `pendingIndexEntry, filterBlock
      ensures tooLarge ==> |file| >= Coding.UINT64
      ensures !tooLarge ==> IsTable(put, sum, name, file, t) && t.all == all
      ensures !tooLarge ==> if filterBlock == null then t.filterHandle == None else t.filterHandle.Some? && t.filter.hash == filterBlock.policy.hash
    {
      ghost var last;
      var filterHandle;
      ghost var v;
      filterHandle, v, last := FinishFilter();
      tooLarge, t := offset >= Coding.UINT64, TableView([], [], [], Handle(0, 0), Handle(0, 0), None, NO_FILTER);
      if !tooLarge {
        t := FinishFile(name, filterHandle, v, last);
      }
    }

    /** The filter block, if there is a policy. */
    method FinishFilter() returns (h: Option<Handle>, ghost v: FilterView, ghost last: Pending)
      requires FilterOk() && Flushed()
      modifies `file, `offset, filterBlock
      ensures Flushed()
      ensures h.Some? <==> filterBlock != null
      ensures h.Some? ==> v.hash == filterBlock.policy.hash && FilterStored(put, sum, file, h.value, v, last, blocks, handles)
    {
      h, v, last := None, NO_FILTER, Pending([], [], 0);
      if filterBlock != null {
        last := Pending(filterBlock.filters, filterBlock.pending, offset);
        ghost var before := file;
        var handle;
        handle, v := WriteFilter();
        h := Some(handle);
        FilterIsStored(put, sum, before, v, last, blocks, handles);
      }
    }

    method WriteFooter(meta: Handle, indexHandle: Handle)
      modifies `file, `offset
      ensures file == old(file) + FooterBytes(put, meta, indexHandle)
    {
      var footer := EncodeFooter(put, meta, indexHandle);
      file, offset := file + footer, offset + |footer|;
    }

    /** The index with its last entry. */
    method CloseIndex(ghost before: seq<byte>)
      requires Holds(blocks, [], all) && (|all| > 0 ==> lastKey == all[|all| - 1].key)
      requires IndexOk(indexBlock, pendingIndexEntry, pendingHandle, blocks, handles, [])
      requires pendingIndexEntry || (indexBlock == [] && blocks == [])
      requires KeysFit(indexBlock) && BlocksFit(blocks, [])
      requires Written(sum, before, blocks, handles) && |before| < Coding.UINT64 && Short(put.handle)
      modifies `lastKey, `indexBlock, `pendingIndexEntry
      ensures AllIndexed(indexBlock, blocks, handles, []) && Built(indexBlock, blocks, all) && KeysFit(indexBlock)
      ensures AllFit(AsPairs(put.handle, indexBlock))
    {
      FinishIndex();
      FinishedIsBuilt(indexBlock, blocks, handles, all);
      HandlesFit(put.handle, sum, before, indexBlock, blocks, handles);
    }

    /** The metaindex block, and the index block. */
    method WriteIndexes(name: seq<byte>, filterHandle: Option<Handle>) returns (meta: Handle, indexHandle: Handle, ghost c1: seq<byte>, ghost c2: seq<byte>)
      requires |name| < Coding.UINT32 && offset < Coding.UINT64 && Flushed() && (filterHandle.Some? ==> HandleOk(filterHandle.value))
      modifies `file, `offset, `lastKey, `indexBlock, `pendingIndexEntry
      ensures AllIndexed(indexBlock, blocks, handles, []) && Built(indexBlock, blocks, all) && KeysFit(indexBlock)
      ensures file == old(file) + RawBlock(sum, c1) + RawBlock(sum, c2)
      ensures meta == Handle(|old(file)|, |c1|) && indexHandle == Handle(|old(file) + RawBlock(sum, c1)|, |c2|)
      ensures BlockRoundTrip.Holds(c1, MetaEntries(put.handle, name, filterHandle)) && HoldsPairs(c2, AsPairs(put.handle, indexBlock))
    {
      ghost var before := file;
      meta, c1 := WriteMeta(name, filterHandle);
      CloseIndex(before);
      indexHandle, c2 := WriteIndex();
    }

    /** Metaindex, index and footer, after the data and filter blocks. */
    method FinishFile(name: seq<byte>, filterHandle: Option<Handle>, ghost v: FilterView, ghost last: Pending) returns (ghost t: TableView)
      requires |name| < Coding.UINT32 && offset < Coding.UINT64
      requires Flushed() && (filterHandle.Some? ==> FilterStored(put, sum, file, filterHandle.value, v, last, blocks, handles))
      modifies `file, `offset, `lastKey, `indexBlock, `pendingIndexEntry
      ensures IsTable(put, sum, name, file, t) && t.all == all && t.filterHandle == filterHandle && t.filter == v
    {
      var meta, indexHandle;
      meta, indexHandle, t := FinishBlocks(name, filterHandle, v, last);
      WithFooter(put, sum, name, file, t);
      WriteFooter(meta, indexHandle);
    }

    method FinishBlocks(name: seq<byte>, filterHandle: Option<Handle>, ghost v: FilterView, ghost last: Pending)
      returns (meta: Handle, indexHandle: Handle, ghost t: TableView)
      requires |name| < Coding.UINT32 && offset < Coding.UINT64
      requires Flushed() && (filterHandle.Some? ==> FilterStored(put, sum, file, filterHandle.value, v, last, blocks, handles))
      modifies `file, `offset, `lastKey, `indexBlock, `pendingIndexEntry
      ensures InFile(put, sum, name, file, t) && t.meta == meta && t.indexHandle == indexHandle
      ensures t.all == all && t.filterHandle == filterHandle && t.filter == v
    {
      ghost var file0 := file;
      ghost var c1, c2;
      meta, indexHandle, c1, c2 := WriteIndexes(name, filterHandle);
      t := TableView(blocks, indexBlock, all, meta, indexHandle, filterHandle, v);
      FinishedInFile(put, sum, name, file0, c1, c2, t, handles, last);
    }
  }

  const NO_FILTER := FilterView((key: UserKey) => 0, [], [], [], [])

  /** The filters before the last one was made, the keys that waited for it, and the offset. */
  datatype Pending = Pending(filters: seq<seq<UserKey>>, keys: seq<UserKey>, offset: nat)

  ghost predicate Waits(last: Pending, filters: seq<seq<UserKey>>, blocks: Blocks, handles: seq<Handle>) {
    && AllInFilter(last.filters, last.keys, last.offset, blocks, handles, [])
    && filters == if last.keys == [] then last.filters else last.filters + [last.keys]
  }

  ghost predicate FilterStored(put: Codec, sum: Checksum, file: seq<byte>, h: Handle, v: FilterView, last: Pending, blocks: Blocks, handles: seq<Handle>) {
    Stored(sum, file, h, v.contents) && FilterOf(put, v) && Waits(last, v.filters, blocks, handles)
  }

  lemma FilterIsStored(put: Codec, sum: Checksum, file: seq<byte>, v: FilterView, last: Pending, blocks: Blocks, handles: seq<Handle>)
    requires FilterOf(put, v) && Waits(last, v.filters, blocks, handles) && Written(sum, file, blocks, handles)
    ensures FilterStored(put, sum, file + RawBlock(sum, v.contents), Handle(|file|, |v.contents|), v, last, blocks, handles)
    ensures Written(sum, file + RawBlock(sum, v.contents), blocks, handles)
  {
    WrittenStays(sum, file, RawBlock(sum, v.contents), blocks, handles);
    StoredLast(sum, file, v.contents);
  }

  /** The index entries have the sizes that their encodings are made for. */
  lemma HandlesFit(enc: HandleWriter, sum: Checksum, file: seq<byte>, index: seq<IndexEntry>, blocks: Blocks, handles: seq<Handle>)
    requires Written(sum, file, blocks, handles) && |file| < Coding.UINT64 && KeysFit(index) && Short(enc)
    requires AllIndexed(index, blocks, handles, []) && |index| == |blocks|
    ensures IndexFits(index) && AllFit(AsPairs(enc, index))
  {
    forall i | 0 <= i < |index| ensures KeyFits(index[i].key) && HandleOk(index[i].handle) {
      assert Indexed(index, blocks, handles, [], i) && WrittenAt(sum, file, blocks[i], handles[i]);
    }
    var ps := AsPairs(enc, index);
    forall i | 0 <= i < |ps| ensures PairFits(ps[i]) {
      assert |enc(index[i].handle)| <= MAX_HANDLE;
    }
  }

  lemma FinishedInFile(put: Codec, sum: Checksum, name: seq<byte>, file: seq<byte>, c1: seq<byte>, c2: seq<byte>, t: TableView, handles: seq<Handle>, last: Pending)
    requires Written(sum, file, t.blocks, handles) && BlocksFit(t.blocks, []) && KeysFit(t.index)
    requires AllIndexed(t.index, t.blocks, handles, []) && Built(t.index, t.blocks, t.all)
    requires t.meta == Handle(|file|, |c1|) && t.indexHandle == Handle(|file + RawBlock(sum, c1)|, |c2|)
    requires BlockRoundTrip.Holds(c1, MetaEntries(put.handle, name, t.filterHandle)) && HoldsPairs(c2, AsPairs(put.handle, t.index))
    requires t.filterHandle.Some? ==> FilterStored(put, sum, file, t.filterHandle.value, t.filter, last, t.blocks, handles)
    ensures InFile(put, sum, name, file + RawBlock(sum, c1) + RawBlock(sum, c2), t)
  {
    var r1, r2 := RawBlock(sum, c1), RawBlock(sum, c2);
    IndexedBlocksAt(sum, file, t.index, t.blocks, handles);
    BlocksStay(sum, file, r1, t.index, t.blocks);
    BlocksStay(sum, file + r1, r2, t.index, t.blocks);
    StoredLast(sum, file, c1);
    StoredStays(sum, file + r1, r2, t.meta, c1);
    StoredLast(sum, file + r1, c2);
    if t.filterHandle.Some? {
      StoredStays(sum, file, r1, t.filterHandle.value, t.filter.contents);
      StoredStays(sum, file + r1, r2, t.filterHandle.value, t.filter.contents);
      FinishedIsFiltered(last.filters, last.keys, t.filter.filters, last.offset, t.index, t.blocks, handles);
    }
  }

  lemma WithFooter(put: Codec, sum: Checksum, name: seq<byte>, file: seq<byte>, t: TableView)
    requires InFile(put, sum, name, file, t)
    ensures IsTable(put, sum, name, file + FooterBytes(put, t.meta, t.indexHandle), t)
  {
    InFileStays(put, sum, name, file, FooterBytes(put, t.meta, t.indexHandle), t);
  }

  lemma IndexedBlocksAt(sum: Checksum, file: seq<byte>, index: seq<IndexEntry>, blocks: Blocks, handles: seq<Handle>)
    requires Written(sum, file, blocks, handles) && AllIndexed(index, blocks, handles, []) && |index| == |blocks|
    ensures BlocksAt(sum, file, index, blocks)
  {
    forall i | 0 <= i < |index| ensures PairsAt(sum, file, index[i].handle, blocks[i]) {
      assert Indexed(index, blocks, handles, [], i) && WrittenAt(sum, file, blocks[i], handles[i]);
    }
  }

  lemma OffsetsGrow(a: nat, b: nat)
    requires a <= b
    ensures a / BASE <= b / BASE
  {}

  lemma NextFollows(entries: seq<Pair>, i: nat)
    requires Ascending(entries) && AllFit(entries) && i < |entries|
    ensures (i > 0 ==> ILess(entries[..i][i - 1].key, entries[i].key)) && PairFits(Pair(entries[i].key, entries[i].value))
    ensures entries[..i + 1] == entries[..i] + [Pair(entries[i].key, entries[i].value)]
  {}

  /** Add, for every entry in turn. */
  method AddAll(builder: TableBuilder, entries: seq<Pair>)
    requires builder.Valid() && builder.all == [] && Ascending(entries) && AllFit(entries)
    modifies builder, builder.filterBlock
    ensures builder.Valid() && builder.all == entries
  {
    for i := 0 to |entries|
      invariant builder.Valid() && builder.all == entries[..i]
    {
      NextFollows(entries, i);
      builder.Add(entries[i].key, entries[i].value);
    }
    assert entries[..|entries|] == entries;
  }
}
