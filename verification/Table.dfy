/** Tables as lists (table/table_builder.cc, table/table.cc): blocks of entries, an index with
    a key for every block, and why looking a key up in them misses nothing. */
module Tables {
  import opened Keys
  import opened Separator
  import opened FilterBlock

  datatype Pair = Pair(key: IKey, value: seq<byte>)

  /** BlockHandle */
  datatype Handle = Handle(offset: nat, size: nat)

  datatype IndexEntry = IndexEntry(key: IKey, handle: Handle)

  const TRAILER := 5

  ghost predicate Ascending(ps: seq<Pair>) {
    forall i, j :: 0 <= i < j < |ps| ==> ILess(ps[i].key, ps[j].key)
  }

  /** The entries of the first n blocks. */
  ghost function Flat(blocks: seq<seq<Pair>>, n: nat): seq<Pair>
    requires n <= |blocks|
  {
    if n == 0 then [] else Flat(blocks, n - 1) + blocks[n - 1]
  }

  lemma {:induction false} FlatSame(a: seq<seq<Pair>>, b: seq<seq<Pair>>, n: nat)
    requires n <= |a| && a <= b
    ensures Flat(b, n) == Flat(a, n)
  {
    if n > 0 {
      FlatSame(a, b, n - 1);
    }
  }

  /** Block Iter::Seek: the first entry at or after the target. */
  ghost predicate IsFirst(ps: seq<Pair>, target: IKey, f: nat) {
    && f <= |ps| && (forall i :: 0 <= i < f ==> ILess(ps[i].key, target))
    && (f < |ps| ==> !ILess(ps[f].key, target))
  }

  // ------------------------------------------------------------- what is built

  /** The separator after block i, given the key that follows it, if any. */
  ghost predicate SeparatorOk(index: seq<IndexEntry>, blocks: seq<seq<Pair>>, rest: seq<Pair>, i: nat)
    requires i < |index| && |index| <= |blocks| && forall b :: 0 <= b < |blocks| ==> |blocks[b]| > 0
  {
    var last := blocks[i][|blocks[i]| - 1].key;
    if i + 1 < |blocks| then Separates(last, index[i].key, blocks[i + 1][0].key)
    else if rest != [] then Separates(last, index[i].key, rest[0].key)
    else Succeeds(last, index[i].key)
  }

  ghost predicate Filtered(filters: seq<seq<UserKey>>, index: seq<IndexEntry>, blocks: seq<seq<Pair>>, i: nat)
    requires i < |index| && i < |blocks|
  {
    var f := index[i].handle.offset / BASE;
    f < |filters| ==> forall j :: 0 <= j < |blocks[i]| ==> blocks[i][j].key.user in filters[f]
  }

  /** A finished table with these entries. */
  ghost predicate Built(index: seq<IndexEntry>, blocks: seq<seq<Pair>>, all: seq<Pair>) {
    && |index| == |blocks| && all == Flat(blocks, |blocks|) && Ascending(all)
    && (forall b :: 0 <= b < |blocks| ==> |blocks[b]| > 0)
    && (forall i {:trigger SeparatorOk(index, blocks, [], i)} :: 0 <= i < |index| ==> SeparatorOk(index, blocks, [], i))
  }

  ghost predicate AllFiltered(filters: seq<seq<UserKey>>, index: seq<IndexEntry>, blocks: seq<seq<Pair>>)
    requires |index| == |blocks|
  {
    forall i {:trigger Filtered(filters, index, blocks, i)} :: 0 <= i < |index| ==> Filtered(filters, index, blocks, i)
  }

  // ------------------------------------------------------------ point lookup

  /** Where the entries of block i are among all of them. */
  lemma {:induction false} FlatAt(blocks: seq<seq<Pair>>, n: nat, i: nat)
    requires i < n <= |blocks|
    ensures var at := |Flat(blocks, i)|;
            at + |blocks[i]| <= |Flat(blocks, n)| && Flat(blocks, n)[at..at + |blocks[i]|] == blocks[i]
            && Flat(blocks, n)[..at] == Flat(blocks, i)
    decreases n
  {
    if i < n - 1 {
      FlatAt(blocks, n - 1, i);
      var at, m := |Flat(blocks, i)|, |blocks[i]|;
      assert Flat(blocks, n)[at..at + m] == Flat(blocks, n - 1)[at..at + m];
      assert Flat(blocks, n)[..at] == Flat(blocks, n - 1)[..at];
    }
  }

  /** Which block an entry is in. */
  lemma {:induction false} BlockOf(blocks: seq<seq<Pair>>, n: nat, f: nat) returns (b: nat, j: nat)
    requires n <= |blocks| && f < |Flat(blocks, n)|
    ensures b < n && j < |blocks[b]| && f == |Flat(blocks, b)| + j && Flat(blocks, n)[f] == blocks[b][j]
    decreases n
  {
    if f < |Flat(blocks, n - 1)| {
      b, j := BlockOf(blocks, n - 1, f);
    } else {
      b, j := n - 1, f - |Flat(blocks, n - 1)|;
    }
  }

  /** Entries in block order: those of an earlier block are before those of a later one. */
  lemma BlocksAscend(blocks: seq<seq<Pair>>, a: nat, b: nat, i: nat, j: nat)
    requires Ascending(Flat(blocks, |blocks|)) && a < |blocks| && b < |blocks| && i < |blocks[a]| && j < |blocks[b]|
    requires a < b || (a == b && i < j)
    ensures ILess(blocks[a][i].key, blocks[b][j].key)
  {
    var all := Flat(blocks, |blocks|);
    FlatAt(blocks, |blocks|, a);
    FlatAt(blocks, |blocks|, b);
    var x, y := |Flat(blocks, a)|, |Flat(blocks, b)|;
    assert all[x..x + |blocks[a]|][i] == all[x + i] && all[y..y + |blocks[b]|][j] == all[y + j];
    if a < b {
      FlatAt(blocks, b, a);
    }
  }

  /** The first index key at or after k. */
  ghost predicate IsFirstIndex(index: seq<IndexEntry>, k: IKey, i: nat) {
    && i <= |index| && (forall x :: 0 <= x < i ==> ILess(index[x].key, k))
    && (i < |index| ==> !ILess(index[i].key, k))
  }

  /** The last key of a block is not after its index key. */
  lemma LastAtMost(index: seq<IndexEntry>, blocks: seq<seq<Pair>>, all: seq<Pair>, i: nat)
    requires Built(index, blocks, all) && i < |index|
    ensures IAtMost(blocks[i][|blocks[i]| - 1].key, index[i].key)
    ensures i + 1 < |index| ==> ILess(index[i].key, blocks[i + 1][0].key)
  {
    assert SeparatorOk(index, blocks, [], i);
    var last := blocks[i][|blocks[i]| - 1].key;
    if i + 1 < |blocks| {
      BlocksAscend(blocks, i, i + 1, |blocks[i]| - 1, 0);
      SeparatorIsBetween(last, index[i].key, blocks[i + 1][0].key);
    }
  }

  lemma AtMostThenLess(a: IKey, b: IKey, c: IKey)
    requires IAtMost(a, b) && ILess(b, c)
    ensures ILess(a, c)
  {}

  /** Everything in earlier blocks than the one found is before k. */
  lemma EarlierIsLess(index: seq<IndexEntry>, blocks: seq<seq<Pair>>, all: seq<Pair>, k: IKey, i: nat, b: nat, j: nat)
    requires Built(index, blocks, all) && IsFirstIndex(index, k, i) && b < i && b < |blocks| && j < |blocks[b]|
    ensures ILess(blocks[b][j].key, k)
  {
    var l := |blocks[b]| - 1;
    LastAtMost(index, blocks, all, b);
    AtMostThenLess(blocks[b][l].key, index[b].key, k);
    if j < l {
      BlocksAscend(blocks, b, b, j, l);
      AtMostThenLess(blocks[b][j].key, blocks[b][l].key, k);
    }
  }

  /** The entry found in the block is the first of the whole table at or after k. */
  lemma FoundIsFirst(index: seq<IndexEntry>, blocks: seq<seq<Pair>>, all: seq<Pair>, k: IKey, i: nat, j: nat)
    requires Built(index, blocks, all) && IsFirstIndex(index, k, i) && i < |index| && IsFirst(blocks[i], k, j) && j < |blocks[i]|
    ensures var f := |Flat(blocks, i)| + j; IsFirst(all, k, f) && f < |all| && all[f] == blocks[i][j]
  {
    var f := |Flat(blocks, i)| + j;
    FlatAt(blocks, |blocks|, i);
    assert all[|Flat(blocks, i)|..|Flat(blocks, i)| + |blocks[i]|][j] == all[f];
    forall x | 0 <= x < f ensures ILess(all[x].key, k) {
      var b, y := BlockOf(blocks, |blocks|, x);
      if b < i {
        EarlierIsLess(index, blocks, all, k, i, b, y);
      } else if b > i {
        FlatAt(blocks, b, i);
      }
    }
  }

  /** If some entry at or after k has k's user key, the block found holds it: no user key
      has entries on both sides of a lookup key and its separator. */
  lemma NeverMissed(index: seq<IndexEntry>, blocks: seq<seq<Pair>>, all: seq<Pair>, k: IKey, i: nat, e: nat)
    requires Built(index, blocks, all) && IsFirstIndex(index, k, i)
    requires e < |all| && !ILess(all[e].key, k) && all[e].key.user == k.user
    ensures i < |index| && exists j :: 0 <= j < |blocks[i]| && blocks[i][j].key.user == k.user && !ILess(blocks[i][j].key, k)
  {
    var b, y := BlockOf(blocks, |blocks|, e);
    if b < i {
      EarlierIsLess(index, blocks, all, k, i, b, y);
    } else if i < b {
      var l := |blocks[i]| - 1;
      var last, next := blocks[i][l].key, blocks[i + 1][0].key;
      ITotal(all[e].key, k);
      ITotal(index[i].key, k);
      ITotal(last, k);
      assert SeparatorOk(index, blocks, [], i);
      BlocksAscend(blocks, i, i + 1, l, 0);
      if ILess(last, k) {
        if i + 1 < b || y > 0 {
          BlocksAscend(blocks, i + 1, b, 0, y);
        }
        assert IAtMost(next, all[e].key);
        NothingBeyond(last, index[i].key, next, k);
      } else {
        Between(k, last, all[e].key, blocks, i, b, y);
      }
    }
  }

  /** A key between two of one user key has that user key. */
  lemma Between(k: IKey, last: IKey, e: IKey, blocks: seq<seq<Pair>>, i: nat, b: nat, y: nat)
    requires Ascending(Flat(blocks, |blocks|)) && i < b < |blocks| && |blocks[i]| > 0 && y < |blocks[b]|
    requires last == blocks[i][|blocks[i]| - 1].key && e == blocks[b][y].key && IAtMost(k, last) && e.user == k.user
    ensures last.user == k.user
  {
    BlocksAscend(blocks, i, b, |blocks[i]| - 1, y);
    RanksDiffer();
  }

  /** Of the entries at or after k, those with k's user key come first. */
  lemma FirstHasUser(blocks: seq<seq<Pair>>, i: nat, j: nat, k: IKey)
    requires Ascending(Flat(blocks, |blocks|)) && i < |blocks| && IsFirst(blocks[i], k, j) && j < |blocks[i]|
    ensures (exists x :: 0 <= x < |blocks[i]| && blocks[i][x].key.user == k.user && !ILess(blocks[i][x].key, k)) ==> blocks[i][j].key.user == k.user
  {
    if x :| 0 <= x < |blocks[i]| && blocks[i][x].key.user == k.user && !ILess(blocks[i][x].key, k) {
      if j < x {
        BlocksAscend(blocks, i, i, j, x);
      }
      ITotal(blocks[i][j].key, k);
      RanksDiffer();
    }
  }
}
