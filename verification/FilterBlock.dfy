/** The filter block of a table: one Bloom filter for every 2 KB of data
    (table/filter_block.cc). */
module FilterBlock {
  import opened Coding
  import opened Keys
  import opened Bloom

  const BASE_LG := 11
  const BASE := 2048

  /** Where filter i ends: where the next one starts, or at the end. */
  function Limit(offsets: seq<nat>, end: nat, i: nat): nat
    requires i < |offsets|
  {
    if i + 1 < |offsets| then offsets[i + 1] else end
  }

  /** Filter i of the concatenated filters. */
  function FilterAt(result: seq<byte>, offsets: seq<nat>, i: nat): seq<byte>
    requires i < |offsets|
  {
    if offsets[i] <= Limit(offsets, |result|, i) <= |result| then result[offsets[i]..Limit(offsets, |result|, i)] else []
  }

  /** Filter i of the concatenated filters matches its keys. */
  ghost predicate FilterOk(hash: Hash, result: seq<byte>, offsets: seq<nat>, filters: seq<seq<UserKey>>, i: nat)
    requires i < |offsets| && i < |filters|
  {
    && offsets[i] <= Limit(offsets, |result|, i) <= |result|
    && forall key :: key in filters[i] ==> Matches(hash, key, result[offsets[i]..Limit(offsets, |result|, i)])
  }

  ghost predicate FiltersOk(hash: Hash, result: seq<byte>, offsets: seq<nat>, filters: seq<seq<UserKey>>) {
    |offsets| == |filters| && forall i {:trigger FilterOk(hash, result, offsets, filters, i)} :: 0 <= i < |offsets| ==> FilterOk(hash, result, offsets, filters, i)
  }

  /** One more filter does not touch those before it. */
  lemma OneMoreFilter(hash: Hash, result: seq<byte>, offsets: seq<nat>, filters: seq<seq<UserKey>>, result': seq<byte>, keys: seq<UserKey>)
    requires FiltersOk(hash, result, offsets, filters) && result <= result'
    requires forall key :: key in keys ==> Matches(hash, key, result'[|result|..])
    ensures FiltersOk(hash, result', offsets + [|result|], filters + [keys])
  {
    var os, fs := offsets + [|result|], filters + [keys];
    forall i | 0 <= i < |os| ensures FilterOk(hash, result', os, fs, i) {
      if i < |offsets| {
        assert FilterOk(hash, result, offsets, filters, i);
        assert Limit(os, |result'|, i) == Limit(offsets, |result|, i);
        assert result'[os[i]..Limit(os, |result'|, i)] == result[offsets[i]..Limit(offsets, |result|, i)];
      } else {
        assert result'[|result|..|result'|] == result'[|result|..];
      }
    }
  }

  /** The keys of the current filter, stored end to end with their starts. */
  ghost predicate Flattened(keys: seq<byte>, start: seq<nat>, pending: seq<UserKey>) {
    |start| == |pending| && forall i {:trigger start[i]} :: 0 <= i < |start| ==> start[i] <= Limit(start, |keys|, i) <= |keys| && keys[start[i]..Limit(start, |keys|, i)] == pending[i]
  }

  lemma FlattenMore(keys: seq<byte>, start: seq<nat>, pending: seq<UserKey>, key: UserKey)
    requires Flattened(keys, start, pending)
    ensures Flattened(keys + key, start + [|keys|], pending + [key])
  {
    var ks, st := keys + key, start + [|keys|];
    forall i | 0 <= i < |st| ensures st[i] <= Limit(st, |ks|, i) <= |ks| && ks[st[i]..Limit(st, |ks|, i)] == (pending + [key])[i] {
      if i < |start| {
        assert Limit(st, |ks|, i) == Limit(start, |keys|, i);
        assert ks[st[i]..Limit(st, |ks|, i)] == keys[start[i]..Limit(start, |keys|, i)];
      }
    }
  }

  class FilterBlockBuilder {
    const policy: BloomFilterPolicy
    const put: WordWriter
    var keys: seq<byte>
    var start: seq<nat>
    var result: seq<byte>
    var filterOffsets: seq<nat>
    ghost var filters: seq<seq<UserKey>>
    ghost var pending: seq<UserKey>

    ghost predicate Valid()
      reads this, policy
    {
      1 <= policy.k <= 30 && Flattened(keys, start, pending) && FiltersOk(policy.hash, result, filterOffsets, filters)
    }

    constructor (policy: BloomFilterPolicy)
      requires 1 <= policy.k <= 30
      ensures Valid() && this.policy == policy && put == Fixed32() && filters == [] && pending == []
    {
      this.policy, put := policy, Fixed32();
      keys, start, result, filterOffsets, filters, pending := [], [], [], [], [], [];
    }

    /** The pending keys become the next filter, which may be empty. */
    method GenerateFilter()
      requires Valid()
      modifies this
      ensures Valid() && filters == old(filters) + [old(pending)] && pending == []
    {
      if |start| == 0 {
        OneMoreFilter(policy.hash, result, filterOffsets, filters, result, []);
        filterOffsets, filters := filterOffsets + [|result|], filters + [[]];
        return;
      }
      var tmpKeys: seq<UserKey> := [];
      for i := 0 to |start|
        invariant tmpKeys == pending[..i]
      {
        var limit := if i + 1 < |start| then start[i + 1] else |keys|;
        assert start[i] <= Limit(start, |keys|, i);
        tmpKeys := tmpKeys + [keys[start[i]..limit]];
      }
      assert pending[..|start|] == pending;
      var result' := policy.CreateFilter(tmpKeys, result);
      OneMoreFilter(policy.hash, result, filterOffsets, filters, result', pending);
      filterOffsets, filters := filterOffsets + [|result|], filters + [pending];
      result, keys, start, pending := result', [], [], [];
    }

    /** Keys added from now on belong to a block at this offset. */
    method StartBlock(blockOffset: nat)
      requires Valid() && blockOffset / BASE >= |filters|
      modifies this
      ensures Valid() && |filters| == blockOffset / 2048
      ensures blockOffset / BASE == |old(filters)| ==> filters == old(filters) && pending == old(pending)
      ensures blockOffset / BASE > |old(filters)| ==> pending == [] && filters[..|old(filters)| + 1] == old(filters) + [old(pending)]
    {
      var filterIndex := blockOffset / BASE;
      while filterIndex > |filterOffsets|
        invariant Valid() && |old(filters)| <= |filters| <= filterIndex
        invariant |filters| == |old(filters)| ==> filters == old(filters) && pending == old(pending)
        invariant |filters| > |old(filters)| ==> pending == [] && filters[..|old(filters)| + 1] == old(filters) + [old(pending)]
        decreases filterIndex - |filters|
      {
        ghost var was := filters;
        GenerateFilter();
        assert |was| > |old(filters)| ==> filters[..|old(filters)| + 1] == was[..|old(filters)| + 1];
        assert |was| == |old(filters)| ==> filters[..|old(filters)| + 1] == filters;
      }
    }

    method AddKey(key: UserKey)
      requires Valid()
      modifies `keys, `start, `pending
      ensures Valid() && pending == old(pending) + [key]
    {
      FlattenMore(keys, start, pending, key);
      start, keys, pending := start + [|keys|], keys + key, pending + [key];
    }

    /** The filters, their offsets, where those start, and the base. */
    method Finish() returns (contents: seq<byte>)
      requires Valid()
      modifies this
      ensures Valid() && pending == [] && filters == if old(pending) == [] then old(filters) else old(filters) + [old(pending)]
      ensures contents == result + Words(put, filterOffsets + [|result|]) + [11]
    {
      if |start| > 0 {
        GenerateFilter();
      }
      var arrayOffset := |result|;
      contents := PutWords(put, result, filterOffsets);
      LastWord(put, filterOffsets, arrayOffset);
      contents := contents + put(arrayOffset);
      contents := contents + [BASE_LG];
    }
  }

  // ------------------------------------------------------------------- reader

  /** The contents that Finish returns for these filters. */
  ghost predicate IsFilterBlock(hash: Hash, contents: seq<byte>, result: seq<byte>, offsets: seq<nat>, filters: seq<seq<UserKey>>) {
    && contents == result + Words(Fixed32(), offsets + [|result|]) + [BASE_LG] && |result| < UINT32
    && FiltersOk(hash, result, offsets, filters)
  }

  lemma ReadsWord(result: seq<byte>, ns: seq<nat>, tail: seq<byte>, i: nat)
    requires i < |ns| && ns[i] < UINT32
    ensures |result| + 4 * i + 4 <= |result + Words(Fixed32(), ns) + tail|
    ensures DecodeFixed32(result + Words(Fixed32(), ns) + tail, |result| + 4 * i) == ns[i]
  {
    WordValue(ns[i]);
    WordRead(Fixed32(), result, ns, tail, i);
  }

  /** The last five bytes say where the offsets start and what the base is. */
  lemma EndOfFilters(hash: Hash, contents: seq<byte>, result: seq<byte>, offsets: seq<nat>, filters: seq<seq<UserKey>>)
    requires IsFilterBlock(hash, contents, result, offsets, filters)
    ensures |contents| == |result| + 4 * |offsets| + 5 && contents[|contents| - 1] == BASE_LG
    ensures DecodeFixed32(contents, |contents| - 5) == |result|
  {
    ReadsWord(result, offsets + [|result|], [BASE_LG], |offsets|);
  }

  class FilterBlockReader {
    const policy: BloomFilterPolicy
    const data: seq<byte>
    const offset: nat
    const num: nat
    const baseLg: nat

    ghost predicate Valid()
      reads this
    {
      num == 0 || offset + 4 * num + 4 <= |data|
    }

    constructor (policy: BloomFilterPolicy, contents: seq<byte>, ghost result: seq<byte>, ghost offsets: seq<nat>, ghost filters: seq<seq<UserKey>>)
      ensures Valid() && this.policy == policy
      ensures IsFilterBlock(policy.hash, contents, result, offsets, filters) ==>
                data == contents && offset == |result| && num == |offsets| && baseLg == BASE_LG
    {
      this.policy := policy;
      var n := |contents|;
      data, offset, num, baseLg := [], 0, 0, 0;
      if n >= 5 {
        baseLg := contents[n - 1];
        var lastWord := DecodeFixed32(contents, n - 5);
        if IsFilterBlock(policy.hash, contents, result, offsets, filters) {
          EndOfFilters(policy.hash, contents, result, offsets, filters);
        }
        if lastWord <= n - 5 {
          data, offset, num := contents, lastWord, (n - 5 - lastWord) / 4;
        }
      }
    }

    /** Read from the contents of Finish. */
    ghost predicate Reads(result: seq<byte>, offsets: seq<nat>, filters: seq<seq<UserKey>>)
      reads policy
    {
      IsFilterBlock(policy.hash, data, result, offsets, filters) && offset == |result| && num == |offsets| && baseLg == BASE_LG
    }

    /** Ask the index-th filter. */
    method AskFilter(index: nat, key: UserKey, ghost result: seq<byte>, ghost offsets: seq<nat>, ghost filters: seq<seq<UserKey>>) returns (r: bool)
      requires Valid() && index < num
      ensures Reads(result, offsets, filters) ==> r == Matches(policy.hash, key, FilterAt(result, offsets, index))
      ensures Reads(result, offsets, filters) && key in filters[index] ==> r
    {
      var start := DecodeFixed32(data, offset + index * 4);
      var limit := DecodeFixed32(data, offset + index * 4 + 4);
      if Reads(result, offsets, filters) {
        ReadsFilter(policy.hash, data, result, offsets, filters, index);
      }
      if start <= limit && limit <= offset {
        r := policy.KeyMayMatch(key, data[start..limit]);
      } else {
        r := start != limit;
      }
    }

    /** The answer is that of the filter for the block's offset, if there is one; so a key
        that was added for the block is never missed. */
    method KeyMayMatch(blockOffset: nat, key: UserKey, ghost result: seq<byte>, ghost offsets: seq<nat>, ghost filters: seq<seq<UserKey>>) returns (r: bool)
      requires Valid()
      ensures Reads(result, offsets, filters) && (blockOffset / BASE < |filters| ==> key in filters[blockOffset / BASE]) ==> r
      ensures Reads(result, offsets, filters) && blockOffset / BASE < |filters| ==>
                r == Matches(policy.hash, key, FilterAt(result, offsets, blockOffset / BASE))
    {
      BaseIs();
      var index := blockOffset / Pow2(baseLg);
      r := true;
      if index < num {
        r := AskFilter(index, key, result, offsets, filters);
      }
    }
  }

  lemma PrefixSlice<T>(a: seq<T>, b: seq<T>, i: nat, j: nat)
    requires i <= j <= |a|
    ensures (a + b)[i..j] == a[i..j]
  {}

  lemma BaseIs()
    ensures Pow2(BASE_LG) == BASE
  {
    assert Pow2(4) == 16 && Pow2(8) == 256;
  }

  /** The two offsets the reader finds cut out the filter. */
  lemma ReadsFilter(hash: Hash, contents: seq<byte>, result: seq<byte>, offsets: seq<nat>, filters: seq<seq<UserKey>>, i: nat)
    requires IsFilterBlock(hash, contents, result, offsets, filters) && i < |offsets|
    ensures |result| + 4 * i + 8 <= |contents|
    ensures var s, l := DecodeFixed32(contents, |result| + i * 4), DecodeFixed32(contents, |result| + i * 4 + 4);
            s <= l <= |result| && contents[s..l] == FilterAt(result, offsets, i) && forall key :: key in filters[i] ==> Matches(hash, key, contents[s..l])
  {
    var ns := offsets + [|result|];
    assert FilterOk(hash, result, offsets, filters, i);
    assert i + 1 < |offsets| ==> FilterOk(hash, result, offsets, filters, i + 1);
    ReadsWord(result, ns, [BASE_LG], i);
    ReadsWord(result, ns, [BASE_LG], i + 1);
    assert ns[i + 1] == Limit(offsets, |result|, i);
    PrefixSlice(result, Words(Fixed32(), ns) + [BASE_LG], ns[i], ns[i + 1]);
    assert contents == result + (Words(Fixed32(), ns) + [BASE_LG]);
  }
}
