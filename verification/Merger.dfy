/** The merging iterator (table/merger.cc): one cursor over the sorted union of the lists
    that its children iterate over. */
module Merging {
  import opened Keys
  import opened Version
  import opened Iterators

  // ------------------------------------------------------------- the sorted union

  /** The lists, their union, where each element is in the union, and which element each of
      the union is. */
  datatype Union = Union(lists: seq<seq<Entry>>, merged: seq<Entry>, place: seq<seq<nat>>, owner: seq<(nat, nat)>)

  ghost predicate Placed(u: Union, c: nat, j: nat)
    requires c < |u.lists| == |u.place| && j < |u.lists[c]| == |u.place[c]|
  {
    && u.place[c][j] < |u.merged| == |u.owner| && u.merged[u.place[c][j]] == u.lists[c][j]
    && u.owner[u.place[c][j]] == (c, j) && (j > 0 ==> u.place[c][j - 1] < u.place[c][j])
  }

  ghost predicate ListPlaced(u: Union, c: nat)
    requires c < |u.lists| == |u.place|
  {
    |u.place[c]| == |u.lists[c]| && forall j {:trigger Placed(u, c, j)} :: 0 <= j < |u.lists[c]| ==> Placed(u, c, j)
  }

  ghost predicate Owned(u: Union, p: nat)
    requires p < |u.owner|
  {
    var (c, j) := u.owner[p];
    c < |u.lists| == |u.place| && j < |u.lists[c]| == |u.place[c]| && u.place[c][j] == p
  }

  ghost predicate Merges(u: Union) {
    && |u.place| == |u.lists| && |u.owner| == |u.merged| && Sorted(u.merged)
    && (forall c {:trigger ListPlaced(u, c)} :: 0 <= c < |u.lists| ==> ListPlaced(u, c))
    && (forall p {:trigger Owned(u, p)} :: 0 <= p < |u.owner| ==> Owned(u, p))
  }

  lemma {:induction false} PlacesAscend(u: Union, c: nat, j: nat, k: nat)
    requires c < |u.lists| == |u.place| && ListPlaced(u, c) && j <= k < |u.lists[c]|
    ensures u.place[c][j] + (k - j) <= u.place[c][k]
    decreases k - j
  {
    if j < k {
      assert Placed(u, c, k);
      PlacesAscend(u, c, j, k - 1);
    }
  }

  /** Keys of the union compare as their places. */
  lemma KeysAsPlaces(es: seq<Entry>, p: nat, q: nat)
    requires Sorted(es) && p < |es| && q < |es|
    ensures ILess(es[p].key, es[q].key) <==> p < q
    ensures es[p].key == es[q].key <==> p == q
  {
    if p < q {
      assert Before(es[p].key, es[q].key);
    } else if q < p {
      assert Before(es[q].key, es[p].key);
    }
  }

  // -------------------------------------------------------------- where a child is

  /** The first of the places that is at or after p. */
  ghost predicate FirstFrom(place: seq<nat>, pos: Option<nat>, p: int) {
    match pos
    case None => |place| > 0 ==> place[|place| - 1] < p
    case Some(k) => k < |place| && place[k] >= p && (k > 0 ==> place[k - 1] < p)
  }

  /** The last of the places that is at or before p. */
  ghost predicate LastTo(place: seq<nat>, pos: Option<nat>, p: int) {
    match pos
    case None => |place| > 0 ==> place[0] > p
    case Some(k) => k < |place| && place[k] <= p && (k + 1 < |place| ==> place[k + 1] > p)
  }

  /** If p is one of the child's places, the child is there. */
  lemma AtItsPlace(u: Union, c: nat, pos: Option<nat>, p: nat)
    requires Merges(u) && c < |u.lists| && p < |u.merged| && u.owner[p].0 == c
    ensures FirstFrom(u.place[c], pos, p) || LastTo(u.place[c], pos, p) ==> pos == Some(u.owner[p].1)
  {
    assert Owned(u, p) && ListPlaced(u, c);
    var j := u.owner[p].1;
    PlacesAscend(u, c, j, |u.place[c]| - 1);
    PlacesAscend(u, c, 0, j);
    if pos.Some? && pos.value < |u.place[c]| {
      var k := pos.value;
      if k < j {
        PlacesAscend(u, c, k, j);
        PlacesAscend(u, c, k + 1, j);
      } else if j < k {
        PlacesAscend(u, c, j, k);
        PlacesAscend(u, c, j, k - 1);
      }
    }
  }

  /** Another child is nowhere at p, so it is as well after p as from p. */
  lemma NotItsPlace(u: Union, c: nat, pos: Option<nat>, p: nat)
    requires Merges(u) && c < |u.lists| && p < |u.merged| && u.owner[p].0 != c
    ensures FirstFrom(u.place[c], pos, p) ==> FirstFrom(u.place[c], pos, p + 1)
    ensures LastTo(u.place[c], pos, p) ==> LastTo(u.place[c], pos, p - 1)
    ensures pos.Some? && pos.value < |u.lists[c]| ==> |u.place[c]| == |u.lists[c]| && u.place[c][pos.value] != p && u.lists[c][pos.value].key != u.merged[p].key
  {
    assert ListPlaced(u, c);
    if pos.Some? && pos.value < |u.place[c]| {
      assert Placed(u, c, pos.value);
      KeysAsPlaces(u.merged, u.place[c][pos.value], p);
    }
  }

  /** Where a Seek to place p puts a child. */
  lemma SeekPlaces(u: Union, c: nat, pos: Option<nat>, target: IKey, p: nat)
    requires Merges(u) && c < |u.lists| && p <= |u.merged| && (pos.Some? ==> pos.value < |u.lists[c]|)
    requires forall i :: 0 <= i < p ==> ILess(u.merged[i].key, target)
    requires p < |u.merged| ==> !ILess(u.merged[p].key, target)
    requires forall i :: 0 <= i < (if pos.Some? then pos.value else |u.lists[c]|) ==> ILess(u.lists[c][i].key, target)
    requires pos.Some? ==> !ILess(u.lists[c][pos.value].key, target)
    ensures FirstFrom(u.place[c], pos, p)
  {
    assert ListPlaced(u, c);
    var n := if pos.Some? then pos.value else |u.lists[c]|;
    if n > 0 {
      assert Placed(u, c, n - 1);
      BeforePlace(u.merged, u.place[c][n - 1], p, target);
    }
    if pos.Some? {
      assert Placed(u, c, pos.value);
    }
  }

  lemma BeforePlace(es: seq<Entry>, q: nat, p: nat, target: IKey)
    requires Sorted(es) && q < |es| && p <= |es| && ILess(es[q].key, target)
    requires p < |es| ==> !ILess(es[p].key, target)
    ensures q < p
  {
    assert p < q ==> Before(es[p].key, es[q].key);
  }

  /** Every place before p has a key before that of p. */
  lemma OwnTarget(es: seq<Entry>, p: nat)
    requires Sorted(es) && p < |es|
    ensures forall i :: 0 <= i < p ==> ILess(es[i].key, es[p].key)
    ensures !ILess(es[p].key, es[p].key)
  {
    forall i | 0 <= i < p ensures ILess(es[i].key, es[p].key) {
      KeysAsPlaces(es, i, p);
    }
  }

  lemma OneOn(u: Union, c: nat, j: nat, p: nat)
    requires Merges(u) && p < |u.merged| && u.owner[p] == (c, j)
    ensures c < |u.lists| && j < |u.lists[c]| && |u.place[c]| == |u.lists[c]| && u.place[c][j] == p && u.lists[c][j] == u.merged[p]
    ensures FirstFrom(u.place[c], if j + 1 < |u.lists[c]| then Some(j + 1) else None, p + 1)
    ensures LastTo(u.place[c], if j > 0 then Some(j - 1) else None, p - 1)
    ensures FirstFrom(u.place[c], Some(j), p) && LastTo(u.place[c], Some(j), p)
  {
    assert Owned(u, p) && ListPlaced(u, c) && Placed(u, c, j);
    assert j + 1 < |u.lists[c]| ==> Placed(u, c, j + 1);
  }

  /** The place of a child's element, and whether it is p. */
  lemma PlaceOf(u: Union, c: nat, k: nat, p: nat)
    requires Merges(u) && c < |u.lists| && k < |u.lists[c]| && p <= |u.merged|
    ensures |u.place[c]| == |u.lists[c]| && u.place[c][k] < |u.merged| && u.lists[c][k] == u.merged[u.place[c][k]]
    ensures p < |u.merged| ==> (u.place[c][k] == p <==> u.owner[p] == (c, k))
    ensures (FirstFrom(u.place[c], Some(k), p) || LastTo(u.place[c], Some(k), p)) && p < |u.merged| ==> (u.place[c][k] == p <==> u.owner[p].0 == c)
  {
    assert ListPlaced(u, c) && Placed(u, c, k);
    if p < |u.merged| {
      assert Owned(u, p);
      if u.owner[p].0 == c {
        AtItsPlace(u, c, Some(k), p);
      }
    }
  }

  // ------------------------------------------------------------------- iterator

  class MergingIterator {
    const children: seq<Iterator>
    ghost const u: Union
    var current: Option<nat>
    var direction: Direction

    constructor (children: seq<Iterator>, ghost u: Union)
      requires Merges(u) && |children| == |u.lists|
      requires forall i, j :: 0 <= i < j < |children| ==> children[i] != children[j]
      requires forall i {:trigger children[i]} :: 0 <= i < |children| ==> children[i].Valid() && children[i].es == u.lists[i]
      ensures Valid() && this.children == children && this.u == u && On(None)
    {
      this.children, this.u, current, direction := children, u, None, Forward;
    }

    ghost predicate Valid()
      reads this, children
    {
      && Merges(u) && |children| == |u.lists| && (current.Some? ==> current.value < |children|)
      && (forall i, j :: 0 <= i < j < |children| ==> children[i] != children[j])
      && forall i {:trigger children[i]} :: 0 <= i < |children| ==> children[i].Valid() && children[i].es == u.lists[i]
    }

    /** Every child is at its first element from place p on. */
    ghost predicate AllFrom(p: nat)
      requires Merges(u) && |children| == |u.lists|
      reads children
    {
      p <= |u.merged| && forall c {:trigger children[c]} :: 0 <= c < |children| ==> FirstFrom(u.place[c], children[c].pos, p)
    }

    /** Every child is at its last element before place p. */
    ghost predicate AllBelow(p: nat)
      requires Merges(u) && |children| == |u.lists|
      reads children
    {
      p <= |u.merged| && forall c {:trigger children[c]} :: 0 <= c < |children| ==> LastTo(u.place[c], children[c].pos, p - 1)
    }

    /** It stands on element p of the union, or on none. */
    ghost predicate On(p: Option<nat>)
      requires Merges(u) && |children| == |u.lists|
      reads this, children
    {
      match p
      case None => current.None?
      case Some(p) =>
        && p < |u.merged| && current == Some(u.owner[p].0)
        && (if direction == Forward then AllFrom(p) else AllBelow(p + 1))
    }

    /** The child with the smallest key is the one that owns p. */
    method FindSmallest(ghost p: nat)
      requires Valid() && AllFrom(p)
      modifies `current
      ensures Valid() && current == if p < |u.merged| then Some(u.owner[p].0) else None
    {
      var smallest: Option<nat> := None;
      for i := 0 to |children|
        invariant smallest.Some? ==> smallest.value < i && children[smallest.value].pos.Some?
        invariant p < |u.merged| && u.owner[p].0 < i ==> smallest == Some(u.owner[p].0)
        invariant p == |u.merged| ==> smallest.None?
      {
        if children[i].pos.Some? {
          var x := children[i].pos.value;
          PlaceOf(u, i, x, p);
          if smallest.None? {
            smallest := Some(i);
          } else {
            var y := children[smallest.value].pos.value;
            PlaceOf(u, smallest.value, y, p);
            KeysAsPlaces(u.merged, u.place[i][x], u.place[smallest.value][y]);
            if ILess(children[i].es[x].key, children[smallest.value].es[y].key) {
              smallest := Some(i);
            }
          }
        }
        if p < |u.merged| && u.owner[p].0 == i {
          AtItsPlace(u, i, children[i].pos, p);
        }
      }
      assert p < |u.merged| ==> Owned(u, p);
      current := smallest;
    }

    /** The child with the largest key is the one that owns the place before p. */
    method FindLargest(ghost p: nat)
      requires Valid() && AllBelow(p)
      modifies `current
      ensures Valid() && current == if p > 0 then Some(u.owner[p - 1].0) else None
    {
      var largest: Option<nat> := None;
      var i := |children|;
      while i > 0
        invariant 0 <= i <= |children|
        invariant largest.Some? ==> i <= largest.value < |children| && children[largest.value].pos.Some?
        invariant p > 0 && u.owner[p - 1].0 >= i && u.owner[p - 1].0 < |children| ==> largest == Some(u.owner[p - 1].0)
        invariant p == 0 ==> largest.None?
      {
        i := i - 1;
        if children[i].pos.Some? {
          var x := children[i].pos.value;
          PlaceOf(u, i, x, if p > 0 then p - 1 else 0);
          if largest.None? {
            largest := Some(i);
          } else {
            var y := children[largest.value].pos.value;
            PlaceOf(u, largest.value, y, if p > 0 then p - 1 else 0);
            KeysAsPlaces(u.merged, u.place[largest.value][y], u.place[i][x]);
            if ILess(children[largest.value].es[y].key, children[i].es[x].key) {
              largest := Some(i);
            }
          }
        }
        if p > 0 && u.owner[p - 1].0 == i {
          AtItsPlace(u, i, children[i].pos, p - 1);
        }
      }
      assert p > 0 ==> Owned(u, p - 1);
      current := largest;
    }

    method SeekToFirst()
      requires Valid()
      modifies this, children
      ensures Valid() && On(if |u.merged| > 0 then Some(0) else None)
    {
      for i := 0 to |children|
        invariant Valid()
        invariant forall c {:trigger children[c]} :: 0 <= c < i ==> FirstFrom(u.place[c], children[c].pos, 0)
      {
        assert ListPlaced(u, i);
        children[i].SeekToFirst();
      }
      FindSmallest(0);
      direction := Forward;
    }

    method SeekToLast()
      requires Valid()
      modifies this, children
      ensures Valid() && On(if |u.merged| > 0 then Some(|u.merged| - 1) else None)
    {
      for i := 0 to |children|
        invariant Valid()
        invariant forall c {:trigger children[c]} :: 0 <= c < i ==> LastTo(u.place[c], children[c].pos, |u.merged| - 1)
      {
        assert ListPlaced(u, i);
        children[i].SeekToLast();
        assert |u.lists[i]| > 0 ==> Placed(u, i, |u.lists[i]| - 1);
      }
      FindLargest(|u.merged|);
      direction := Reverse;
    }

    /** The place of the first element of the union at or after the target. */
    ghost predicate FirstAtTarget(target: IKey, p: nat) {
      && p <= |u.merged| && (forall i :: 0 <= i < p ==> ILess(u.merged[i].key, target))
      && (p < |u.merged| ==> !ILess(u.merged[p].key, target))
    }

    method Seek(target: IKey, ghost p: nat)
      requires Valid() && FirstAtTarget(target, p)
      modifies this, children
      ensures Valid() && On(if p < |u.merged| then Some(p) else None)
    {
      for i := 0 to |children|
        invariant Valid()
        invariant forall c {:trigger children[c]} :: 0 <= c < i ==> FirstFrom(u.place[c], children[c].pos, p)
      {
        children[i].Seek(target);
        SeekPlaces(u, i, children[i].pos, target, p);
      }
      FindSmallest(p);
      direction := Forward;
    }

    /** Next, first part: coming from the other direction, the other children are moved
        after the current key. */
    method TurnForward(ghost p: nat)
      requires Valid() && On(Some(p)) && direction == Reverse
      modifies `direction, children
      ensures Valid() && On(Some(p)) && direction == Forward
    {
      var cur := current.value;
      AtItsPlace(u, cur, children[cur].pos, p);
      OneOn(u, cur, u.owner[p].1, p);
      var key := children[cur].es[children[cur].pos.value].key;
      OwnTarget(u.merged, p);
      for i := 0 to |children|
        invariant Valid() && children[cur].pos == Some(u.owner[p].1)
        invariant forall c {:trigger children[c]} :: 0 <= c < i && c != cur ==> FirstFrom(u.place[c], children[c].pos, p)
      {
        if i != cur {
          children[i].Seek(key);
          ghost var was := children[i].pos;
          if children[i].pos.Some? && children[i].es[children[i].pos.value].key == key {
            children[i].Next();
          }
          SeekPlaces(u, i, was, key, p);
          NotItsPlace(u, i, was, p);
        }
      }
      direction := Forward;
    }

    /** Prev, first part: coming from the other direction, the other children are moved
        before the current key. */
    method TurnBackward(ghost p: nat)
      requires Valid() && On(Some(p)) && direction == Forward
      modifies `direction, children
      ensures Valid() && On(Some(p)) && direction == Reverse
    {
      var cur := current.value;
      AtItsPlace(u, cur, children[cur].pos, p);
      OneOn(u, cur, u.owner[p].1, p);
      var key := children[cur].es[children[cur].pos.value].key;
      OwnTarget(u.merged, p);
      for i := 0 to |children|
        invariant Valid() && children[cur].pos == Some(u.owner[p].1)
        invariant forall c {:trigger children[c]} :: 0 <= c < i && c != cur ==> LastTo(u.place[c], children[c].pos, p)
      {
        if i != cur {
          children[i].Seek(key);
          ghost var was := children[i].pos;
          SeekPlaces(u, i, was, key, p);
          NotItsPlace(u, i, was, p);
          if children[i].pos.Some? {
            children[i].Prev();
          } else {
            children[i].SeekToLast();
          }
          StepBack(u, i, was, children[i].pos, p);
        }
      }
      direction := Reverse;
    }

    method Next(ghost p: nat)
      requires Valid() && On(Some(p))
      modifies this, children
      ensures Valid() && On(if p + 1 < |u.merged| then Some(p + 1) else None)
    {
      if direction != Forward {
        TurnForward(p);
      }
      var cur := current.value;
      AtItsPlace(u, cur, children[cur].pos, p);
      OneOn(u, cur, u.owner[p].1, p);
      forall c {:trigger children[c]} | 0 <= c < |children| && c != cur ensures FirstFrom(u.place[c], children[c].pos, p + 1) {
        NotItsPlace(u, c, children[c].pos, p);
      }
      children[cur].Next();
      FindSmallest(p + 1);
    }

    method Prev(ghost p: nat)
      requires Valid() && On(Some(p))
      modifies this, children
      ensures Valid() && On(if p > 0 then Some(p - 1) else None)
    {
      if direction != Reverse {
        TurnBackward(p);
      }
      var cur := current.value;
      AtItsPlace(u, cur, children[cur].pos, p);
      OneOn(u, cur, u.owner[p].1, p);
      forall c {:trigger children[c]} | 0 <= c < |children| && c != cur ensures LastTo(u.place[c], children[c].pos, p - 1) {
        NotItsPlace(u, c, children[c].pos, p);
      }
      children[cur].Prev();
      FindLargest(p);
    }

    /** key() and value() are those of element p of the union. */
    method KeyValue(ghost p: nat) returns (key: IKey, value: seq<byte>)
      requires Valid() && On(Some(p))
      ensures key == u.merged[p].key && value == u.merged[p].value
    {
      var cur := children[current.value];
      AtItsPlace(u, current.value, cur.pos, p);
      OneOn(u, current.value, u.owner[p].1, p);
      key, value := cur.es[cur.pos.value].key, cur.es[cur.pos.value].value;
    }
  }

  /** One step back from the first element after p leads to the last before it. */
  lemma StepBack(u: Union, c: nat, was: Option<nat>, pos: Option<nat>, p: nat)
    requires Merges(u) && c < |u.lists| && p < |u.merged| && u.owner[p].0 != c && FirstFrom(u.place[c], was, p) && FirstFrom(u.place[c], was, p + 1)
    requires was.Some? ==> pos == if was.value == 0 then None else Some(was.value - 1)
    requires was.None? ==> pos == if u.lists[c] == [] then None else Some(|u.lists[c]| - 1)
    ensures LastTo(u.place[c], pos, p)
  {
    assert ListPlaced(u, c);
  }
}
