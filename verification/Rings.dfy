/** The circular doubly linked lists of the cache (LRU_Remove and LRU_Append in
    util/cache.cc).  `links` maps the address of a node to its two links; a list is the
    sequence of nodes behind its dummy head. */
module Rings {
  import opened Seqs

  datatype Links = Links(next: nat, prev: nat)

  type Memory = map<nat, Links>

  /** The node at position k: the head is at 0 and again behind the last node. */
  function NodeAt(head: nat, q: seq<nat>, k: nat): nat {
    if 0 < k <= |q| then q[k - 1] else head
  }

  ghost predicate LinkedAt(links: Memory, head: nat, q: seq<nat>, k: nat) {
    var a, b := NodeAt(head, q, k), NodeAt(head, q, k + 1);
    a in links && b in links && links[a].next == b && links[b].prev == a
  }

  /** The list with the given head holds the nodes of q, oldest first. */
  ghost predicate Ring(links: Memory, head: nat, q: seq<nat>) {
    && head !in q && NoDup(q)
    && forall k {:trigger LinkedAt(links, head, q, k)} :: 0 <= k <= |q| ==> LinkedAt(links, head, q, k)
  }

  /** Make e the newest entry by inserting it just before the head. */
  method Append(links: Memory, head: nat, e: nat, ghost q: seq<nat>) returns (m: Memory)
    requires Ring(links, head, q) && e != head && e !in q
    ensures Ring(m, head, q + [e]) && m.Keys == links.Keys + {e}
    ensures forall x :: x in links && x != head && x !in q && x != e ==> m[x] == links[x]
  {
    assert LinkedAt(links, head, q, |q|);
    var last := links[head].prev;
    m := links[e := Links(head, last)];
    m := m[last := m[last].(next := e)];
    m := m[head := m[head].(prev := e)];
    ghost var r := q + [e];
    forall k | 0 <= k <= |r| ensures LinkedAt(m, head, r, k) {
      if k < |q| {
        assert LinkedAt(links, head, q, k);
      }
      assert k == |q| ==> NodeAt(head, r, k) == last;
    }
  }

  /** Unlink e, whatever list it is on; its own links stay as they are. */
  method Remove(links: Memory, e: nat, ghost head: nat, ghost q: seq<nat>, ghost i: nat) returns (m: Memory)
    requires Ring(links, head, q) && i < |q| && q[i] == e
    requires e in links && links[e].next in links && links[e].prev in links
    ensures Ring(m, head, q[..i] + q[i + 1..]) && m.Keys == links.Keys
    ensures forall x :: x in links && x != head && x !in q ==> m[x] == links[x]
  {
    assert LinkedAt(links, head, q, i) && LinkedAt(links, head, q, i + 1);
    var l := links[e];
    m := links[l.next := links[l.next].(prev := l.prev)];
    m := m[l.prev := m[l.prev].(next := l.next)];
    ghost var r := q[..i] + q[i + 1..];
    forall k | 0 <= k <= |r| ensures LinkedAt(m, head, r, k) {
      RemovedAt(links, m, head, q, i, k);
    }
  }

  lemma RemovedAt(links: Memory, m: Memory, head: nat, q: seq<nat>, i: nat, k: nat)
    requires Ring(links, head, q) && i < |q| && k <= |q| - 1
    requires LinkedAt(links, head, q, i) && LinkedAt(links, head, q, i + 1)
    requires var l := links[q[i]];
             var m0 := links[l.next := links[l.next].(prev := l.prev)];
             m == m0[l.prev := m0[l.prev].(next := l.next)]
    ensures LinkedAt(m, head, q[..i] + q[i + 1..], k)
  {
    var r := q[..i] + q[i + 1..];
    if k < i {
      assert LinkedAt(links, head, q, k);
      assert NodeAt(head, r, k) == NodeAt(head, q, k);
      assert k + 1 < i + 1 ==> NodeAt(head, r, k + 1) == NodeAt(head, q, k + 1);
    } else if k > i {
      assert LinkedAt(links, head, q, k + 1);
      assert NodeAt(head, r, k) == NodeAt(head, q, k + 1);
      assert NodeAt(head, r, k + 1) == NodeAt(head, q, k + 2);
    } else {
      assert NodeAt(head, r, k) == NodeAt(head, q, i);
      assert NodeAt(head, r, k + 1) == NodeAt(head, q, i + 2);
    }
  }

  /** A list is not affected by changes elsewhere. */
  lemma RingFrame(links: Memory, m: Memory, head: nat, q: seq<nat>)
    requires Ring(links, head, q)
    requires forall x :: x in links && (x == head || x in q) ==> x in m && m[x] == links[x]
    ensures Ring(m, head, q)
  {
    forall k | 0 <= k <= |q| ensures LinkedAt(m, head, q, k) {
      assert LinkedAt(links, head, q, k);
    }
  }
}
