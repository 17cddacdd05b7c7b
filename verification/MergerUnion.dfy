/** Sorted lists with distinct keys have a sorted union, so that the merging iterator of
    table/merger.cc has one for any such children. */
module MergingUnion {
  import opened Keys
  import opened Version
  import opened Iterators
  import opened Merging

  ghost predicate Apart(a: Entry, b: Entry) {
    a.key.user != b.key.user || a.key.seqno != b.key.seqno
  }

  ghost predicate AllApart(a: seq<Entry>, b: seq<Entry>) {
    forall x, y {:trigger Apart(x, y)} :: x in a && y in b ==> Apart(x, y)
  }

  /** Each list is sorted, and no two of them share a key. */
  ghost predicate Mergeable(lists: seq<seq<Entry>>) {
    && (forall c {:trigger Sorted(lists[c])} :: 0 <= c < |lists| ==> Sorted(lists[c]))
    && forall c, d {:trigger AllApart(lists[c], lists[d])} :: 0 <= c < d < |lists| ==> AllApart(lists[c], lists[d])
  }

  /** Where places move when an element is inserted at q. */
  ghost function Shift(p: nat, q: nat): nat {
    if p < q then p else p + 1
  }

  ghost function ShiftAll(place: seq<nat>, q: nat): (r: seq<nat>)
    ensures |r| == |place| && forall j :: 0 <= j < |place| ==> r[j] == Shift(place[j], q)
  {
    if place == [] then [] else ShiftAll(place[..|place| - 1], q) + [Shift(place[|place| - 1], q)]
  }

  ghost function ShiftEach(place: seq<seq<nat>>, q: nat): (r: seq<seq<nat>>)
    ensures |r| == |place| && forall c :: 0 <= c < |place| ==> r[c] == ShiftAll(place[c], q)
  {
    if place == [] then [] else ShiftEach(place[..|place| - 1], q) + [ShiftAll(place[|place| - 1], q)]
  }

  ghost function Inserted<T>(s: seq<T>, q: nat, x: T): (r: seq<T>)
    requires q <= |s|
    ensures |r| == |s| + 1 && r[q] == x && forall p {:trigger r[p]} :: 0 <= p < |r| && p != q ==> r[p] == s[if p < q then p else p - 1]
  {
    s[..q] + [x] + s[q..]
  }

  lemma Total(a: Entry, b: Entry)
    requires Apart(a, b)
    ensures Before(a.key, b.key) || Before(b.key, a.key)
  {
    RanksDiffer();
  }

  /** The place among sorted entries where a new one belongs. */
  lemma {:induction false} PlaceFor(es: seq<Entry>, e: Entry, n: nat) returns (q: nat)
    requires Sorted(es) && n <= |es| && forall x :: x in es ==> Apart(x, e)
    ensures q <= n && forall p :: 0 <= p < q ==> Before(es[p].key, e.key)
    ensures forall p :: q <= p < n ==> Before(e.key, es[p].key)
  {
    if n == 0 {
      q := 0;
    } else {
      Total(es[n - 1], e);
      if Before(es[n - 1].key, e.key) {
        q := n;
        assert forall p :: 0 <= p < n - 1 ==> Before(es[p].key, es[n - 1].key);
      } else {
        q := PlaceFor(es, e, n - 1);
      }
    }
  }

  lemma InsertedSorted(es: seq<Entry>, e: Entry, q: nat)
    requires Sorted(es) && q <= |es|
    requires (forall p :: 0 <= p < q ==> Before(es[p].key, e.key)) && (forall p :: q <= p < |es| ==> Before(e.key, es[p].key))
    ensures Sorted(Inserted(es, q, e))
  {
    var r := Inserted(es, q, e);
    forall i, j | 0 <= i < j < |r| ensures Before(r[i].key, r[j].key) {
      assert i != q && j != q ==> Before(es[if i < q then i else i - 1].key, es[if j < q then j else j - 1].key);
    }
  }

  /** The union with one more element at the end of the last list. */
  ghost function WithEntry(u: Union, q: nat, e: Entry): Union
    requires Merges(u) && q <= |u.merged| && |u.lists| > 0
  {
    var c := |u.lists| - 1;
    var place := ShiftEach(u.place, q);
    Union(u.lists[c := u.lists[c] + [e]], Inserted(u.merged, q, e), place[c := place[c] + [q]], Inserted(u.owner, q, (c, |u.lists[c]|)))
  }

  lemma OldPlaced(u: Union, q: nat, e: Entry, c: nat, j: nat)
    requires Merges(u) && q <= |u.merged| && c < |u.lists| && j < |u.lists[c]|
    ensures |u.place[c]| == |u.lists[c]| && Placed(WithEntry(u, q, e), c, j)
  {
    assert ListPlaced(u, c) && Placed(u, c, j);
    var v := WithEntry(u, q, e);
    assert v.lists[c][j] == u.lists[c][j] && v.place[c][j] == Shift(u.place[c][j], q);
    assert j > 0 ==> v.place[c][j - 1] == Shift(u.place[c][j - 1], q);
  }

  lemma WithEntryPlaced(u: Union, q: nat, e: Entry, c: nat)
    requires Merges(u) && q <= |u.merged| && c < |u.lists|
    requires c == |u.lists| - 1 && u.lists[c] != [] ==> |u.place[c]| == |u.lists[c]| && u.place[c][|u.lists[c]| - 1] < q
    ensures ListPlaced(WithEntry(u, q, e), c)
  {
    assert ListPlaced(u, c);
    var v := WithEntry(u, q, e);
    forall j | 0 <= j < |v.lists[c]| ensures Placed(v, c, j) {
      if j < |u.lists[c]| {
        OldPlaced(u, q, e, c, j);
      } else {
        assert j > 0 ==> v.place[c][j - 1] == Shift(u.place[c][j - 1], q);
      }
    }
  }

  lemma OldOwned(u: Union, q: nat, e: Entry, p: nat)
    requires Merges(u) && q <= |u.merged| && p < |u.owner| && |u.lists| > 0
    ensures Shift(p, q) <= |u.owner| && Owned(WithEntry(u, q, e), Shift(p, q))
  {
    var v := WithEntry(u, q, e);
    assert Owned(u, p);
    var (c, j) := u.owner[p];
    assert ListPlaced(u, c);
    assert v.owner[Shift(p, q)] == (c, j) && v.place[c][j] == Shift(u.place[c][j], q);
  }

  lemma NewOwned(u: Union, q: nat, e: Entry)
    requires Merges(u) && q <= |u.merged| && |u.lists| > 0
    ensures Owned(WithEntry(u, q, e), q)
  {
    var v, l := WithEntry(u, q, e), |u.lists| - 1;
    assert ListPlaced(u, l);
    assert v.owner[q] == (l, |u.lists[l]|) && v.place[l] == ShiftAll(u.place[l], q) + [q];
  }

  lemma OneOwned(u: Union, q: nat, e: Entry, p: nat)
    requires Merges(u) && q <= |u.merged| && |u.lists| > 0 && p <= |u.owner|
    ensures Owned(WithEntry(u, q, e), p)
  {
    if p == q {
      NewOwned(u, q, e);
    } else {
      OldOwned(u, q, e, if p < q then p else p - 1);
    }
  }

  /** The entry goes after all of the list it is added to. */
  lemma LastPlaceBelow(u: Union, q: nat, e: Entry, c: nat)
    requires Merges(u) && q <= |u.merged| && c < |u.lists| && u.lists[c] != []
    requires (forall p :: q <= p < |u.merged| ==> Before(e.key, u.merged[p].key)) && Before(u.lists[c][|u.lists[c]| - 1].key, e.key)
    ensures |u.place[c]| == |u.lists[c]| && u.place[c][|u.lists[c]| - 1] < q
  {
    assert ListPlaced(u, c) && Placed(u, c, |u.lists[c]| - 1);
  }

  lemma WithEntryMerges(u: Union, q: nat, e: Entry)
    requires Merges(u) && q <= |u.merged| && |u.lists| > 0
    requires (forall p :: 0 <= p < q ==> Before(u.merged[p].key, e.key)) && (forall p :: q <= p < |u.merged| ==> Before(e.key, u.merged[p].key))
    requires var l := u.lists[|u.lists| - 1]; l != [] ==> Before(l[|l| - 1].key, e.key)
    ensures Merges(WithEntry(u, q, e))
  {
    InsertedSorted(u.merged, e, q);
    if u.lists[|u.lists| - 1] != [] {
      LastPlaceBelow(u, q, e, |u.lists| - 1);
    }
    forall c | 0 <= c < |u.lists| ensures ListPlaced(WithEntry(u, q, e), c) {
      WithEntryPlaced(u, q, e, c);
    }
    forall p | 0 <= p <= |u.owner| ensures Owned(WithEntry(u, q, e), p) {
      OneOwned(u, q, e, p);
    }
  }

  /** The same union with one more list, which is empty. */
  lemma EmptyListMerges(u: Union) returns (v: Union)
    requires Merges(u)
    ensures Merges(v) && v.lists == u.lists + [[]] && v.merged == u.merged
  {
    v := u.(lists := u.lists + [[]], place := u.place + [[]]);
    forall c | 0 <= c < |v.lists| ensures ListPlaced(v, c) {
      if c < |u.lists| {
        assert ListPlaced(u, c);
        assert forall j {:trigger Placed(v, c, j)} :: 0 <= j < |u.lists[c]| ==> Placed(u, c, j);
      }
    }
    forall p | 0 <= p < |v.owner| ensures Owned(v, p) {
      assert Owned(u, p);
    }
  }

  /** What is in the union is in one of the lists. */
  lemma FromAList(u: Union, x: Entry)
    requires Merges(u) && x in u.merged
    ensures exists c :: 0 <= c < |u.lists| && x in u.lists[c]
  {
    var p :| 0 <= p < |u.merged| && u.merged[p] == x;
    assert Owned(u, p);
    var (c, j) := u.owner[p];
    assert ListPlaced(u, c) && Placed(u, c, j);
    assert u.lists[c][j] in u.lists[c];
  }

  lemma Truncated(lists: seq<seq<Entry>>, c: nat)
    requires Mergeable(lists) && c == |lists| - 1 && lists[c] != []
    ensures Mergeable(lists[c := lists[c][..|lists[c]| - 1]])
    ensures forall d {:trigger lists[d]} :: 0 <= d < |lists| ==> AllApart(lists[c := lists[c][..|lists[c]| - 1]][d], [lists[c][|lists[c]| - 1]])
  {
    var e, ls := lists[c][|lists[c]| - 1], lists[c := lists[c][..|lists[c]| - 1]];
    assert Sorted(lists[c]);
    assert forall i, j :: 0 <= i < j < |ls[c]| ==> Before(lists[c][i].key, lists[c][j].key);
    assert forall i :: 0 <= i < |ls[c]| ==> Before(lists[c][i].key, e.key);
    forall d, d' | 0 <= d < d' < |ls| ensures AllApart(ls[d], ls[d']) {
      assert AllApart(lists[d], lists[d']);
    }
    forall d {:trigger lists[d]} | 0 <= d < |lists| ensures AllApart(ls[d], [e]) {
      if d < c {
        assert AllApart(lists[d], lists[c]) && e in lists[c];
      }
    }
    forall d | 0 <= d < |ls| ensures Sorted(ls[d]) {
      assert Sorted(lists[d]);
    }
  }

  /** The last list gets one more entry, which is apart from all others. */
  lemma AddEntry(v: Union, lists: seq<seq<Entry>>, c: nat, e: Entry) returns (u: Union)
    requires Merges(v) && v.lists == lists && c == |lists| - 1
    requires forall d {:trigger lists[d]} :: 0 <= d < |lists| ==> AllApart(lists[d], [e])
    requires lists[c] != [] ==> Before(lists[c][|lists[c]| - 1].key, e.key)
    ensures Merges(u) && u.lists == lists[c := lists[c] + [e]]
  {
    forall x | x in v.merged ensures Apart(x, e) {
      FromAList(v, x);
      var d :| 0 <= d < |lists| && x in lists[d];
      assert AllApart(lists[d], [e]) && e in [e];
    }
    var q := PlaceFor(v.merged, e, |v.merged|);
    WithEntryMerges(v, q, e);
    u := WithEntry(v, q, e);
  }

  /** Sorted lists that share no key have a sorted union. */
  lemma {:induction false} UnionExists(lists: seq<seq<Entry>>) returns (u: Union)
    requires Mergeable(lists)
    ensures Merges(u) && u.lists == lists
    decreases |lists|, if lists == [] then 0 else |lists[|lists| - 1]|
  {
    if lists == [] {
      u := Union([], [], [], []);
      return;
    }
    var c := |lists| - 1;
    if lists[c] == [] {
      assert forall d :: 0 <= d < c ==> lists[..c][d] == lists[d];
      var v := UnionExists(lists[..c]);
      u := EmptyListMerges(v);
    } else {
      var m := |lists[c]| - 1;
      var e, ls := lists[c][m], lists[c := lists[c][..m]];
      Truncated(lists, c);
      var v := UnionExists(ls);
      LastTwo(lists[c]);
      u := AddEntry(v, ls, c, e);
      assert lists[c] == lists[c][..m] + [e];
      assert ls[c := ls[c] + [e]] == lists;
    }
  }

  lemma LastTwo(l: seq<Entry>)
    requires Sorted(l) && |l| > 0
    ensures |l| > 1 ==> Before(l[|l| - 2].key, l[|l| - 1].key)
  {}

  /** NewMergingIterator, for two children or more. */
  method NewMergingIterator(children: seq<Iterator>, ghost lists: seq<seq<Entry>>) returns (it: MergingIterator)
    requires |children| >= 2 && (forall i, j :: 0 <= i < j < |children| ==> children[i] != children[j])
    requires |lists| == |children| && Mergeable(lists)
    requires forall i {:trigger children[i]} :: 0 <= i < |children| ==> children[i].Valid() && children[i].es == lists[i]
    ensures fresh(it) && it.Valid() && it.children == children && it.u.lists == lists && it.On(None)
  {
    ghost var u := UnionExists(lists);
    it := new MergingIterator(children, u);
  }
}
