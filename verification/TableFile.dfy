/** Reading a table file (table/table.cc): the footer, the index and the filter are read once,
    and a lookup reads one block. */
module TableFiles {
  import opened Keys
  import opened Bloom
  import opened FilterBlock
  import opened Tables
  import opened TableBlocks
  import opened TableFormat
  import opened TableBuilders

  /** BytewiseComparator */
  predicate BytewiseLess(a: seq<byte>, b: seq<byte>) {
    Less(a, b)
  }

  /** The sizes that the program's types hold. */
  ghost predicate Sized(file: seq<byte>) {
    |file| < Coding.UINT64
  }

  lemma BlockHandlesFit(sum: Checksum, file: seq<byte>, index: seq<IndexEntry>, blocks: Blocks)
    requires |index| == |blocks| && BlocksAt(sum, file, index, blocks) && Sized(file) && KeysFit(index)
    ensures IndexFits(index)
  {
    forall i | 0 <= i < |index| ensures KeyFits(index[i].key) && HandleOk(index[i].handle) {
      assert PairsAt(sum, file, index[i].handle, blocks[i]);
    }
  }

  lemma FitsBlock(index: seq<IndexEntry>, blocks: Blocks, all: seq<Pair>, i: nat)
    requires Built(index, blocks, all) && BlocksFit(blocks, []) && i < |blocks|
    ensures AllFit(blocks[i]) && Ascending(blocks[i])
  {
    forall x, y | 0 <= x < y < |blocks[i]| ensures ILess(blocks[i][x].key, blocks[i][y].key) {
      BlocksAscend(blocks, i, i, x, y);
    }
  }

  /** What seeking k in these entries yields. */
  ghost predicate IsAnswer(ps: seq<Pair>, k: IKey, r: Option<Pair>) {
    exists f: nat :: IsFirst(ps, k, f) && r == if f < |ps| then Some(ps[f]) else None
  }

  /** The first entry at or after k. */
  ghost predicate FoundIn(all: seq<Pair>, k: IKey, p: Pair) {
    exists f: nat :: IsFirst(all, k, f) && f < |all| && all[f] == p
  }

  /** Some entry at or after k has k's user key. */
  ghost predicate HasUser(ps: seq<Pair>, k: IKey) {
    exists j :: 0 <= j < |ps| && ps[j].key.user == k.user && !ILess(ps[j].key, k)
  }

  /** The answer of the block that the index leads to is that of the table. */
  lemma BlockAnswers(t: TableView, k: IKey, i: nat, r: Option<Pair>)
    requires Built(t.index, t.blocks, t.all) && i < |t.index| && IsFirstIndex(t.index, k, i) && IsAnswer(t.blocks[i], k, r)
    ensures r.Some? ==> FoundIn(t.all, k, r.value)
    ensures HasUser(t.blocks[i], k) ==> r.Some? && r.value.key.user == k.user
  {
    var j: nat :| IsFirst(t.blocks[i], k, j) && r == if j < |t.blocks[i]| then Some(t.blocks[i][j]) else None;
    if r.Some? {
      FoundIsFirst(t.index, t.blocks, t.all, k, i, j);
      FirstHasUser(t.blocks, i, j, k);
    }
  }

  /** An entry for the user key at or after k is in the block that the index leads to. */
  lemma InThisBlock(t: TableView, k: IKey, i: nat)
    requires Built(t.index, t.blocks, t.all) && IsFirstIndex(t.index, k, i)
    ensures HasUser(t.all, k) ==> i < |t.index| && HasUser(t.blocks[i], k)
  {
    if e :| 0 <= e < |t.all| && t.all[e].key.user == k.user && !ILess(t.all[e].key, k) {
      NeverMissed(t.index, t.blocks, t.all, k, i, e);
    }
  }

  /** A block that was read in its whole, or is too large to be read. */
  method ReadPairs(file: seq<byte>, verify: bool, sum: Checksum, h: Handle, target: IKey, ghost ps: seq<Pair>) returns (r: Option<Pair>, tooLarge: bool)
    requires PairsAt(sum, file, h, ps) && Ascending(ps) && AllFit(ps) && KeyFits(target)
    ensures tooLarge <==> h.size >= Coding.UINT32
    ensures !tooLarge ==> IsAnswer(ps, target, r)
  {
    ghost var contents :| Stored(sum, file, h, contents) && HoldsPairs(contents, ps);
    r, tooLarge := None, h.size >= Coding.UINT32;
    if !tooLarge {
      var c := ReadBlock(file, verify, sum, h, contents);
      r := SeekInBlock(c.value, target, ps);
    }
  }

  /** Looking up in one block of a table. */
  method BlockGet(file: seq<byte>, verify: bool, sum: Checksum, h: Handle, k: IKey, ghost t: TableView, ghost i: nat) returns (r: Option<Pair>, tooLarge: bool)
    requires Built(t.index, t.blocks, t.all) && BlocksFit(t.blocks, []) && i < |t.index| && IsFirstIndex(t.index, k, i)
    requires PairsAt(sum, file, h, t.blocks[i]) && KeyFits(k)
    ensures tooLarge <==> h.size >= Coding.UINT32
    ensures r.Some? ==> FoundIn(t.all, k, r.value)
    ensures !tooLarge && HasUser(t.blocks[i], k) ==> r.Some? && r.value.key.user == k.user
  {
    FitsBlock(t.index, t.blocks, t.all, i);
    r, tooLarge := ReadPairs(file, verify, sum, h, k, t.blocks[i]);
    if tooLarge {
      r := None;
    } else {
      BlockAnswers(t, k, i, r);
    }
  }

  class Table {
    const file: seq<byte>
    const verify: bool
    const sum: Checksum
    const indexContents: seq<byte>
    const filter: FilterBlockReader?
    ghost const t: TableView

    /** The open table and the file it was opened from. */
    ghost predicate Valid(name: seq<byte>)
      reads filter, if filter == null then null else filter.policy
    {
      && InFile(CODEC(), sum, name, file, t) && Sized(file)
      && HoldsPairs(indexContents, AsPairs(HandleCoder(), t.index)) && |indexContents| < Coding.UINT32
      && (filter != null ==> t.filterHandle.Some? && filter.Valid() && filter.Reads(t.filter.result, t.filter.offsets, t.filter.filters))
    }

    constructor (file: seq<byte>, verify: bool, sum: Checksum, indexContents: seq<byte>, filter: FilterBlockReader?, ghost t: TableView)
      ensures this.file == file && this.verify == verify && this.sum == sum && this.indexContents == indexContents && this.filter == filter && this.t == t
    {
      this.file, this.verify, this.sum, this.indexContents, this.filter, this.t := file, verify, sum, indexContents, filter, t;
    }

    /** The filter, if there is one, rules the key out. */
    method RuledOut(name: seq<byte>, h: Handle, k: IKey, ghost i: nat) returns (r: bool)
      requires Valid(name) && i < |t.index| && h == t.index[i].handle
      ensures r ==> !HasUser(t.blocks[i], k)
    {
      r := false;
      if filter != null {
        var may := filter.KeyMayMatch(h.offset, k.user, t.filter.result, t.filter.offsets, t.filter.filters);
        assert Filtered(t.filter.filters, t.index, t.blocks, i);
        r := !may;
      }
    }

    /** The block that the index leads to, unless the filter rules the key out. */
    method GetFromBlock(name: seq<byte>, k: IKey, h: Handle, ghost i: nat) returns (r: Option<Pair>, tooLarge: bool)
      requires Valid(name) && KeyFits(k) && i < |t.index| && h == t.index[i].handle && IsFirstIndex(t.index, k, i)
      ensures r.Some? ==> FoundIn(t.all, k, r.value)
      ensures !tooLarge && HasUser(t.blocks[i], k) ==> r.Some? && r.value.key.user == k.user
      ensures tooLarge ==> h.size >= Coding.UINT32
    {
      r, tooLarge := None, false;
      var out := RuledOut(name, h, k, i);
      if !out {
        assert PairsAt(sum, file, t.index[i].handle, t.blocks[i]);
        r, tooLarge := BlockGet(file, verify, sum, h, k, t, i);
      }
    }

    /** InternalGet: the first entry at or after k is handed over whenever an entry at or
        after k has k's user key; and nothing else is ever handed over. */
    method InternalGet(name: seq<byte>, k: IKey) returns (r: Option<Pair>, tooLarge: bool)
      requires Valid(name) && KeyFits(k)
      ensures r.Some? ==> FoundIn(t.all, k, r.value)
      ensures !tooLarge && HasUser(t.all, k) ==> r.Some? && r.value.key.user == k.user
      ensures tooLarge ==> exists i :: 0 <= i < |t.index| && t.index[i].handle.size >= Coding.UINT32
    {
      BlockHandlesFit(sum, file, t.index, t.blocks);
      var h := SeekInIndex(indexContents, k, t.index, t.blocks, t.all);
      ghost var i: nat :| IsFirstIndex(t.index, k, i) && h == if i < |t.index| then Some(t.index[i].handle) else None;
      InThisBlock(t, k, i);
      r, tooLarge := None, false;
      if h.Some? {
        r, tooLarge := GetFromBlock(name, k, h.value, i);
      }
    }
  }

  // ------------------------------------------------------------------ opening

  /** The footer's handles are within the file. */
  lemma HandlesInFile(c: Codec, sum: Checksum, name: seq<byte>, file: seq<byte>, t: TableView)
    requires InFile(c, sum, name, file, t) && Sized(file)
    ensures HandleOk(t.meta) && HandleOk(t.indexHandle) && (t.filterHandle.Some? ==> HandleOk(t.filterHandle.value))
  {
    var contents :| Stored(sum, file, t.meta, contents) && BlockRoundTrip.Holds(contents, MetaEntries(c.handle, name, t.filterHandle));
    assert PairsAt(sum, file, t.indexHandle, AsPairs(c.handle, t.index));
  }

  /** Every block is smaller than the file. */
  lemma SizesInFile(c: Codec, sum: Checksum, name: seq<byte>, file: seq<byte>, t: TableView)
    requires InFile(c, sum, name, file, t)
    ensures t.meta.size < |file| && t.indexHandle.size < |file| && (t.filterHandle.Some? ==> t.filterHandle.value.size < |file|)
    ensures forall i :: 0 <= i < |t.index| ==> t.index[i].handle.size < |file|
  {
    var contents :| Stored(sum, file, t.meta, contents) && BlockRoundTrip.Holds(contents, MetaEntries(c.handle, name, t.filterHandle));
    assert PairsAt(sum, file, t.indexHandle, AsPairs(c.handle, t.index));
    forall i | 0 <= i < |t.index| ensures t.index[i].handle.size < |file| {
      assert PairsAt(sum, file, t.index[i].handle, t.blocks[i]);
    }
  }

  lemma FooterAtEnd(sum: Checksum, name: seq<byte>, file: seq<byte>, t: TableView)
    requires IsTable(CODEC(), sum, name, file, t) && HandleOk(t.meta) && HandleOk(t.indexHandle)
    ensures |file| >= FOOTER && file[|file| - FOOTER..] == FooterBytes(CODEC(), t.meta, t.indexHandle)
  {
    HandlesAreShort();
    FooterSize(CODEC(), t.meta, t.indexHandle);
    var front :| file == front + FooterBytes(CODEC(), t.meta, t.indexHandle);
  }

  lemma OnlyEntry(name: seq<byte>, h: Option<Handle>, i: nat)
    requires BlockRoundTrip.FirstOf(BytewiseLess, MetaEntries(HandleCoder(), name, h), name, i)
    ensures i == 0
  {
    var es := MetaEntries(HandleCoder(), name, h);
    var before := |es| > 0 && BytewiseLess(es[0].key, name);
  }

  /** The handle of the filter block, looked up in the metaindex block. */
  method FindFilter(file: seq<byte>, verify: bool, sum: Checksum, meta: Handle, name: seq<byte>, ghost h: Option<Handle>) returns (r: Option<Handle>, tooLarge: bool)
    requires MetaAt(sum, file, meta, MetaEntries(HandleCoder(), name, h)) && (h.Some? ==> HandleOk(h.value))
    ensures !tooLarge ==> r == h
    ensures tooLarge <==> meta.size >= Coding.UINT32
  {
    ghost var entries, written := MetaEntries(HandleCoder(), name, h), if h.Some? then h.value else Handle(0, 0);
    ghost var contents :| Stored(sum, file, meta, contents) && BlockRoundTrip.Holds(contents, entries);
    r, tooLarge := None, meta.size >= Coding.UINT32;
    if !tooLarge {
      var c := ReadBlock(file, verify, sum, meta, contents);
      var e := BlockRoundTrip.SeekBlock(c.value, BytewiseLess, name, entries);
      ghost var i: nat :| BlockRoundTrip.FirstOf(BytewiseLess, entries, name, i) && e == if i < |entries| then Some(entries[i]) else None;
      OnlyEntry(name, h, i);
      if e.Some? && e.value.key == name {
        assert h.Some? ==> e.value.value == HandleBytes(h.value) + [];
        var rest;
        r, rest := DecodeHandle(e.value.value, written, []);
      }
    }
  }

  /** ReadMeta and ReadFilter: without a policy, or if the table has no filter block, there
      is no filter. */
  method ReadMeta(file: seq<byte>, verify: bool, sum: Checksum, meta: Handle, name: seq<byte>, policy: BloomFilterPolicy?, ghost t: TableView)
    returns (filter: FilterBlockReader?, tooLarge: bool)
    requires InFile(CODEC(), sum, name, file, t) && Sized(file) && meta == t.meta
    requires policy != null && t.filterHandle.Some? ==> policy.hash == t.filter.hash
    ensures filter != null ==> fresh(filter) && filter.policy == policy
    ensures !tooLarge && filter != null ==> t.filterHandle.Some? && filter.Valid() && filter.Reads(t.filter.result, t.filter.offsets, t.filter.filters)
    ensures tooLarge ==> |file| >= Coding.UINT32
  {
    filter, tooLarge := null, false;
    if policy == null {
      return;
    }
    HandlesInFile(CODEC(), sum, name, file, t);
    SizesInFile(CODEC(), sum, name, file, t);
    var h;
    h, tooLarge := FindFilter(file, verify, sum, meta, name, t.filterHandle);
    if !tooLarge && h.Some? {
      tooLarge := h.value.size >= Coding.UINT32;
      if !tooLarge {
        var c := ReadBlock(file, verify, sum, h.value, t.filter.contents);
        filter := new FilterBlockReader(policy, c.value, t.filter.result, t.filter.offsets, t.filter.filters);
      }
    }
  }

  /** Table::Open, for the bytes of a finished table; an index or filter block of 4 GB or
      more is left out. */
  method Open(file: seq<byte>, verify: bool, sum: Checksum, name: seq<byte>, policy: BloomFilterPolicy?, ghost t: TableView)
    returns (table: Table?, tooLarge: bool)
    requires IsTable(CODEC(), sum, name, file, t) && Sized(file)
    requires policy != null && t.filterHandle.Some? ==> policy.hash == t.filter.hash
    ensures !tooLarge ==> table != null && fresh(table) && table.Valid(name) && table.t == t
    ensures tooLarge ==> |file| >= Coding.UINT32
  {
    table, tooLarge := null, false;
    HandlesInFile(CODEC(), sum, name, file, t);
    FooterAtEnd(sum, name, file, t);
    if |file| < FOOTER {
      return;
    }
    var footer := DecodeFooter(file[|file| - FOOTER..], t.meta, t.indexHandle);
    if footer.Some? {
      var (meta, index) := footer.value;
      table, tooLarge := OpenAt(file, verify, sum, name, policy, meta, index, t);
    }
  }

  /** The rest of Open, once the footer is read. */
  method OpenAt(file: seq<byte>, verify: bool, sum: Checksum, name: seq<byte>, policy: BloomFilterPolicy?, meta: Handle, index: Handle, ghost t: TableView)
    returns (table: Table?, tooLarge: bool)
    requires InFile(CODEC(), sum, name, file, t) && Sized(file) && meta == t.meta && index == t.indexHandle
    requires policy != null && t.filterHandle.Some? ==> policy.hash == t.filter.hash
    ensures !tooLarge ==> table != null && fresh(table) && table.Valid(name) && table.t == t
    ensures tooLarge ==> |file| >= Coding.UINT32
  {
    SizesInFile(CODEC(), sum, name, file, t);
    table, tooLarge := null, index.size >= Coding.UINT32;
    if !tooLarge {
      ghost var contents :| Stored(sum, file, index, contents) && HoldsPairs(contents, AsPairs(HandleCoder(), t.index));
      var c := ReadBlock(file, verify, sum, index, contents);
      var filter;
      filter, tooLarge := ReadMeta(file, verify, sum, meta, name, policy, t);
      table := new Table(file, verify, sum, c.value, filter, t);
    }
  }

  /** Building a table file of any ascending entries, for all sizes of blocks and with or
      without a filter, opening it from its bytes, and looking a key up in it: whenever an
      entry at or after the key has its user key, the first entry at or after it is found,
      and nothing else ever is.  Files of 4 GB or more may have blocks whose sizes do not fit
      their types. */
  method BuildAndGet(entries: seq<Pair>, k: IKey, blockSize: nat, sizeOf: BlockSize, interval: nat, sum: Checksum, verify: bool, name: seq<byte>, policy: BloomFilterPolicy?)
    returns (r: Option<Pair>, tooLarge: bool, file: seq<byte>)
    requires Ascending(entries) && AllFit(entries) && KeyFits(k) && interval >= 1 && |name| < Coding.UINT32
    requires policy != null ==> 1 <= policy.k <= 30
    ensures r.Some? ==> FoundIn(entries, k, r.value)
    ensures !tooLarge && HasUser(entries, k) ==> r.Some? && r.value.key.user == k.user
    ensures tooLarge ==> |file| >= Coding.UINT32
  {
    r := None;
    ghost var t;
    file, tooLarge, t := BuildFile(entries, blockSize, sizeOf, interval, sum, name, policy);
    if !tooLarge {
      var table;
      table, tooLarge := Open(file, verify, sum, name, policy, t);
      if !tooLarge {
        SizesInFile(CODEC(), sum, name, file, t);
        r, tooLarge := table.InternalGet(name, k);
      }
    }
  }

  method BuildFile(entries: seq<Pair>, blockSize: nat, sizeOf: BlockSize, interval: nat, sum: Checksum, name: seq<byte>, policy: BloomFilterPolicy?)
    returns (file: seq<byte>, tooLarge: bool, ghost t: TableView)
    requires Ascending(entries) && AllFit(entries) && interval >= 1 && |name| < Coding.UINT32
    requires policy != null ==> 1 <= policy.k <= 30
    ensures !tooLarge ==> IsTable(CODEC(), sum, name, file, t) && Sized(file) && t.all == entries
    ensures !tooLarge && policy != null && t.filterHandle.Some? ==> t.filter.hash == policy.hash
    ensures tooLarge ==> |file| >= Coding.UINT64
  {
    var filterBlock: FilterBlockBuilder? := null;
    if policy != null {
      filterBlock := new FilterBlockBuilder(policy);
    }
    HandlesAreShort();
    var builder := new TableBuilder(blockSize, sizeOf, interval, sum, CODEC(), filterBlock);
    AddAll(builder, entries);
    tooLarge, t := builder.Finish(name);
    file := builder.file;
    tooLarge := tooLarge || |file| >= Coding.UINT64;
  }
}
