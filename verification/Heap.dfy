/** The pointer-based binary heap of libuv (src/heap-inl.h).  Nodes live in their
    owners' memory: `mem` maps a node's address to its three links.  The ghost sequence
    `nodes` lists the tree in level order, so that completeness, links and parents are
    statements about indices. */
module Heap {
  import opened Keys

  /** struct heap_node. */
  datatype Links = Links(left: Option<nat>, right: Option<nat>, parent: Option<nat>)

  type Memory = map<nat, Links>

  // --------------------------------------------------- the path to an index

  /** Walking down from 1-based index m: one bit of `path` per level. */
  function Follow(m: nat, path: nat, k: nat): nat
    decreases k
  {
    if k == 0 then m else Follow(2 * m + path % 2, path / 2, k - 1)
  }

  lemma {:induction false} FollowGrows(m: nat, path: nat, k: nat)
    ensures Follow(m, path, k) >= m
    ensures k > 0 ==> Follow(m, path, k) >= 2 * m
    decreases k
  {
    if k > 0 {
      FollowGrows(2 * m + path % 2, path / 2, k - 1);
    }
  }

  ghost function Pow2(k: nat): nat {
    if k == 0 then 1 else 2 * Pow2(k - 1)
  }

  /** The loop that reverses the low bits of n: following the resulting path from the
      root leads to index n.  `path` never leaves 32 bits. */
  method PathTo(target: nat) returns (path: nat, k: nat)
    requires 1 <= target < 0x1_0000_0000
    ensures Follow(1, path, k) == target && path < 0x1_0000_0000
  {
    path, k := 0, 0;
    var n := target;
    while n >= 2
      invariant 1 <= n && Follow(n, path, k) == target
      invariant path < Pow2(k) && Pow2(k) * n <= target
      decreases n
    {
      ghost var p := Pow2(k);
      assert (2 * path + n % 2) % 2 == n % 2 && (2 * path + n % 2) / 2 == path;
      assert p * n <= target && n == 2 * (n / 2) + n % 2;
      Halve(p, n);
      path := 2 * path + n % 2;
      k := k + 1;
      n := n / 2;
    }
    assert Pow2(k) * n >= Pow2(k) by {
      assert n == 1;
    }
  }

  lemma Halve(p: nat, n: nat)
    ensures 2 * p * (n / 2) <= p * n
  {
    assert 2 * (n / 2) <= n;
    assert p * (2 * (n / 2)) <= p * n;
  }

  // -------------------------------------------------------- the complete tree

  function At(nodes: seq<nat>, i: nat): Option<nat> {
    if i < |nodes| then Some(nodes[i]) else None
  }

  function Up(nodes: seq<nat>, i: nat): Option<nat> {
    if i == 0 then None else At(nodes, (i - 1) / 2)
  }

  /** Node i of the level order is linked to its children and its parent. */
  ghost predicate Placed(mem: Memory, nodes: seq<nat>, i: nat)
    requires i < |nodes|
  {
    nodes[i] in mem && mem[nodes[i]] == Links(At(nodes, 2 * i + 1), At(nodes, 2 * i + 2), Up(nodes, i))
  }

  ghost predicate Distinct(nodes: seq<nat>) {
    forall i, j :: 0 <= i < j < |nodes| ==> nodes[i] != nodes[j]
  }

  /** `nodes` is the level order of the complete tree rooted at min. */
  ghost predicate Linked(mem: Memory, min: Option<nat>, nodes: seq<nat>) {
    && min == At(nodes, 0) && Distinct(nodes)
    && forall i {:trigger Placed(mem, nodes, i)} :: 0 <= i < |nodes| ==> Placed(mem, nodes, i)
  }

  function SetLeft(mem: Memory, n: nat, x: Option<nat>): Memory
    requires n in mem
  {
    mem[n := mem[n].(left := x)]
  }

  function SetRight(mem: Memory, n: nat, x: Option<nat>): Memory
    requires n in mem
  {
    mem[n := mem[n].(right := x)]
  }

  function SetParent(mem: Memory, n: nat, x: Option<nat>): Memory
    requires n in mem
  {
    mem[n := mem[n].(parent := x)]
  }

  function OnLeft(c: nat): bool {
    c % 2 == 1
  }

  function Sibling(c: nat): nat
    requires c > 0
  {
    if OnLeft(c) then c + 1 else c - 1
  }

  function Parent(c: nat): nat
    requires c > 0
  {
    (c - 1) / 2
  }

  /** The first stores of heap_node_swap: the two nodes exchange their links, then the
      child points at the parent on the side it came from. */
  method Exchange(mem: Memory, parent: nat, child: nat) returns (m: Memory, sibling: Option<nat>)
    requires parent in mem && child in mem && parent != child
    requires mem[parent].left == Some(child) || (mem[parent].right == Some(child) && mem[parent].left != Some(child))
    ensures sibling == if mem[parent].left == Some(child) then mem[parent].right else mem[parent].left
    ensures m == mem[parent := mem[child].(parent := Some(child))]
                    [child := if mem[parent].left == Some(child) then mem[parent].(left := Some(parent)) else mem[parent].(right := Some(parent))]
  {
    m := mem;
    var t := m[parent];
    m := m[parent := m[child]];
    m := m[child := t];
    m := SetParent(m, parent, Some(child));
    if m[child].left == Some(child) {
      m := SetLeft(m, child, Some(parent));
      sibling := m[child].right;
    } else {
      m := SetRight(m, child, Some(parent));
      sibling := m[child].left;
    }
  }

  method Adopt(mem: Memory, n: Option<nat>, p: nat) returns (m: Memory)
    requires n.Some? ==> n.value in mem
    ensures m == Adopted(mem, n, p)
  {
    m := mem;
    if n != None {
      m := SetParent(m, n.value, Some(p));
    }
  }

  /** The level order after the swap. */
  ghost function SwapNodes(nodes: seq<nat>, c: nat): seq<nat>
    requires 0 < c < |nodes|
  {
    nodes[Parent(c) := nodes[c]][c := nodes[Parent(c)]]
  }

  lemma AtAfterSwap(nodes: seq<nat>, c: nat, k: nat)
    requires 0 < c < |nodes|
    ensures At(SwapNodes(nodes, c), k) == if k == Parent(c) then Some(nodes[c]) else if k == c then Some(nodes[Parent(c)]) else At(nodes, k)
  {}

  /** The links node i must have once c and its parent have changed places. */
  ghost function LinksAfter(nodes: seq<nat>, c: nat, i: nat): Links
    requires 0 < c < |nodes|
  {
    Links(At(SwapNodes(nodes, c), 2 * i + 1), At(SwapNodes(nodes, c), 2 * i + 2), Up(SwapNodes(nodes, c), i))
  }

  /** How those differ from the links before. */
  lemma LinksDiffer(nodes: seq<nat>, c: nat, i: nat)
    requires 0 < c < |nodes| && i < |nodes|
    ensures var p, s := Parent(c), Sibling(c);
            var was := Links(At(nodes, 2 * i + 1), At(nodes, 2 * i + 2), Up(nodes, i));
            LinksAfter(nodes, c, i) ==
              if i == p then (if OnLeft(c) then Links(Some(nodes[p]), At(nodes, s), Up(nodes, p)) else Links(At(nodes, s), Some(nodes[p]), Up(nodes, p)))
              else if i == c then Links(was.left, was.right, Some(nodes[c]))
              else if i == s then was.(parent := Some(nodes[c]))
              else if i == 2 * c + 1 || i == 2 * c + 2 then was.(parent := Some(nodes[p]))
              else if p > 0 && i == Parent(p) then (if OnLeft(p) then was.(left := Some(nodes[c])) else was.(right := Some(nodes[c])))
              else was
  {
    AtAfterSwap(nodes, c, 2 * i + 1);
    AtAfterSwap(nodes, c, 2 * i + 2);
    if i > 0 {
      AtAfterSwap(nodes, c, Parent(i));
    }
  }

  /** The last store: whoever pointed at `parent` points at `child`. */
  method Redirect(mem: Memory, min: Option<nat>, grand: Option<nat>, parent: nat, child: nat) returns (m: Memory, min': Option<nat>)
    requires grand.Some? ==> grand.value in mem
    ensures m == Redirected(mem, grand, parent, child)
    ensures min' == if grand == None then Some(child) else min
  {
    m, min' := mem, min;
    if grand == None {
      min' := Some(child);
    } else if m[grand.value].left == Some(parent) {
      m := SetLeft(m, grand.value, Some(child));
    } else {
      m := SetRight(m, grand.value, Some(child));
    }
  }

  function Redirected(mem: Memory, grand: Option<nat>, parent: nat, child: nat): Memory
    requires grand.Some? ==> grand.value in mem
  {
    if grand == None then mem
    else if mem[grand.value].left == Some(parent) then SetLeft(mem, grand.value, Some(child))
    else SetRight(mem, grand.value, Some(child))
  }

  function Adopted(mem: Memory, n: Option<nat>, p: nat): Memory
    requires n.Some? ==> n.value in mem
  {
    if n.Some? then SetParent(mem, n.value, Some(p)) else mem
  }

  /** The memory after all stores, by the indices of the nodes involved. */
  ghost function Rewired(mem: Memory, nodes: seq<nat>, c: nat): Memory
    requires 0 < c < |nodes| && InMemory(mem, nodes)
  {
    var p, s := Parent(c), Sibling(c);
    var parent, child := nodes[p], nodes[c];
    var m0 := mem[parent := Links(At(nodes, 2 * c + 1), At(nodes, 2 * c + 2), Some(child))];
    var m1 := m0[child := if OnLeft(c) then Links(Some(parent), At(nodes, s), Up(nodes, p)) else Links(At(nodes, s), Some(parent), Up(nodes, p))];
    var m2 := Adopted(m1, At(nodes, s), child);
    var m3 := Adopted(m2, At(nodes, 2 * c + 1), parent);
    var m4 := Adopted(m3, At(nodes, 2 * c + 2), parent);
    Redirected(m4, Up(nodes, p), parent, child)
  }

  ghost predicate InMemory(mem: Memory, nodes: seq<nat>) {
    forall n :: n in nodes ==> n in mem
  }

  /** The six nodes around the swap. */
  ghost predicate Near(c: nat, i: nat)
    requires c > 0
  {
    i == Parent(c) || i == c || i == Sibling(c) || i == 2 * c + 1 || i == 2 * c + 2 || (Parent(c) > 0 && i == Parent(Parent(c)))
  }

  lemma FarIsUntouched(mem: Memory, nodes: seq<nat>, c: nat, n: nat)
    requires 0 < c < |nodes| && InMemory(mem, nodes) && n in mem
    requires forall i :: 0 <= i < |nodes| && nodes[i] == n ==> !Near(c, i)
    ensures Rewired(mem, nodes, c)[n] == mem[n]
  {}

  lemma FarPlaced(mem: Memory, nodes: seq<nat>, c: nat, i: nat)
    requires 0 < c < |nodes| && InMemory(mem, nodes) && Distinct(nodes) && i < |nodes| && Placed(mem, nodes, i) && !Near(c, i)
    ensures Placed(Rewired(mem, nodes, c), SwapNodes(nodes, c), i)
  {
    FarIsUntouched(mem, nodes, c, nodes[i]);
    LinksDiffer(nodes, c, i);
  }

  lemma PairPlaced(mem: Memory, nodes: seq<nat>, c: nat, i: nat)
    requires 0 < c < |nodes| && InMemory(mem, nodes) && Distinct(nodes) && i < |nodes| && Placed(mem, nodes, i)
    requires i == Parent(c) || i == c
    ensures Placed(Rewired(mem, nodes, c), SwapNodes(nodes, c), i)
  {
    LinksDiffer(nodes, c, i);
  }

  lemma SiblingPlaced(mem: Memory, nodes: seq<nat>, c: nat, i: nat)
    requires 0 < c < |nodes| && InMemory(mem, nodes) && Distinct(nodes) && i < |nodes| && Placed(mem, nodes, i)
    requires i == Sibling(c)
    ensures Placed(Rewired(mem, nodes, c), SwapNodes(nodes, c), i)
  {
    LinksDiffer(nodes, c, i);
  }

  lemma KidPlaced(mem: Memory, nodes: seq<nat>, c: nat, i: nat)
    requires 0 < c < |nodes| && InMemory(mem, nodes) && Distinct(nodes) && i < |nodes| && Placed(mem, nodes, i)
    requires i == 2 * c + 1 || i == 2 * c + 2
    ensures Placed(Rewired(mem, nodes, c), SwapNodes(nodes, c), i)
  {
    LinksDiffer(nodes, c, i);
  }

  lemma GrandPlaced(mem: Memory, nodes: seq<nat>, c: nat, i: nat)
    requires 0 < c < |nodes| && InMemory(mem, nodes) && Distinct(nodes) && i < |nodes| && Placed(mem, nodes, i)
    requires Parent(c) > 0 && i == Parent(Parent(c))
    ensures Placed(Rewired(mem, nodes, c), SwapNodes(nodes, c), i)
  {
    LinksDiffer(nodes, c, i);
  }

  lemma SwapKeepsTree(mem: Memory, min: Option<nat>, nodes: seq<nat>, c: nat)
    requires Linked(mem, min, nodes) && InMemory(mem, nodes) && 0 < c < |nodes|
    ensures Linked(Rewired(mem, nodes, c), if Parent(c) == 0 then Some(nodes[c]) else min, SwapNodes(nodes, c))
    ensures Rewired(mem, nodes, c).Keys == mem.Keys
    ensures forall n :: n in mem && n !in nodes ==> Rewired(mem, nodes, c)[n] == mem[n]
  {
    forall i | 0 <= i < |nodes| ensures Placed(Rewired(mem, nodes, c), SwapNodes(nodes, c), i) {
      assert Placed(mem, nodes, i);
      if i == Parent(c) || i == c {
        PairPlaced(mem, nodes, c, i);
      } else if i == Sibling(c) {
        SiblingPlaced(mem, nodes, c, i);
      } else if i == 2 * c + 1 || i == 2 * c + 2 {
        KidPlaced(mem, nodes, c, i);
      } else if Parent(c) > 0 && i == Parent(Parent(c)) {
        GrandPlaced(mem, nodes, c, i);
      } else {
        FarPlaced(mem, nodes, c, i);
      }
    }
    forall n | n in mem && n !in nodes ensures Rewired(mem, nodes, c)[n] == mem[n] {
      FarIsUntouched(mem, nodes, c, n);
    }
  }

  /** Which side of its parent a node hangs on. */
  lemma SideOf(mem: Memory, nodes: seq<nat>, c: nat)
    requires 0 < c < |nodes| && Distinct(nodes) && Placed(mem, nodes, Parent(c))
    ensures OnLeft(c) ==> mem[nodes[Parent(c)]].left == Some(nodes[c]) && mem[nodes[Parent(c)]].right == At(nodes, Sibling(c))
    ensures !OnLeft(c) ==> mem[nodes[Parent(c)]].right == Some(nodes[c]) && mem[nodes[Parent(c)]].left == At(nodes, Sibling(c))
    ensures !OnLeft(c) ==> mem[nodes[Parent(c)]].left != Some(nodes[c])
  {}

  /** heap_node_swap.  The tree keeps its shape; parent and child change places in the
      level order. */
  method NodeSwap(mem: Memory, min: Option<nat>, parent: nat, child: nat, ghost nodes: seq<nat>, ghost c: nat)
    returns (m: Memory, min': Option<nat>)
    requires Linked(mem, min, nodes) && InMemory(mem, nodes)
    requires 0 < c < |nodes| && child == nodes[c] && parent == nodes[Parent(c)]
    ensures Linked(m, min', SwapNodes(nodes, c))
    ensures m.Keys == mem.Keys && forall n :: n in mem && n !in nodes ==> m[n] == mem[n]
  {
    assert Placed(mem, nodes, Parent(c)) && Placed(mem, nodes, c);
    SideOf(mem, nodes, c);
    var sibling;
    m, sibling := Exchange(mem, parent, child);
    assert sibling == At(nodes, Sibling(c));
    m := Adopt(m, sibling, child);
    m := Adopt(m, m[parent].left, parent);
    m := Adopt(m, m[parent].right, parent);
    m, min' := Redirect(m, min, m[child].parent, parent, child);
    assert m == Rewired(mem, nodes, c);
    SwapKeepsTree(mem, min, nodes, c);
  }

  // ------------------------------------------------------------------ ordering

  /** What the heap needs of its comparison: a strict weak order. */
  ghost predicate WeakOrder(lt: (nat, nat) -> bool) {
    && (forall a, b :: !(lt(a, b) && lt(b, a)))
    && (forall a, b, c {:trigger lt(a, b), lt(b, c)} :: !lt(a, b) && !lt(b, c) ==> !lt(a, c))
  }

  /** Node i is not before its parent. */
  ghost predicate Kept(nodes: seq<nat>, lt: (nat, nat) -> bool, i: nat)
    requires 0 < i < |nodes|
  {
    !lt(nodes[i], nodes[Parent(i)])
  }

  ghost predicate Ordered(nodes: seq<nat>, lt: (nat, nat) -> bool) {
    forall i {:trigger Kept(nodes, lt, i)} :: 0 < i < |nodes| ==> Kept(nodes, lt, i)
  }

  /** Only node c may be before its parent. */
  ghost predicate OrderedBut(nodes: seq<nat>, lt: (nat, nat) -> bool, c: nat) {
    && c < |nodes|
    && (forall i {:trigger Kept(nodes, lt, i)} :: 0 < i < |nodes| && i != c ==> Kept(nodes, lt, i))
    && (c > 0 ==> (2 * c + 1 < |nodes| ==> !lt(nodes[2 * c + 1], nodes[Parent(c)])) && (2 * c + 2 < |nodes| ==> !lt(nodes[2 * c + 2], nodes[Parent(c)])))
  }

  /** Node c may be before its parent or after its children. */
  ghost predicate OrderedAround(nodes: seq<nat>, lt: (nat, nat) -> bool, c: nat) {
    && c < |nodes|
    && (forall i {:trigger Kept(nodes, lt, i)} :: 0 < i < |nodes| && i != c && Parent(i) != c ==> Kept(nodes, lt, i))
    && (c > 0 ==> (2 * c + 1 < |nodes| ==> !lt(nodes[2 * c + 1], nodes[Parent(c)])) && (2 * c + 2 < |nodes| ==> !lt(nodes[2 * c + 2], nodes[Parent(c)])))
  }

  lemma SwapUpOrdered(nodes: seq<nat>, lt: (nat, nat) -> bool, c: nat)
    requires WeakOrder(lt) && OrderedBut(nodes, lt, c) && c > 0 && lt(nodes[c], nodes[Parent(c)])
    ensures OrderedBut(SwapNodes(nodes, c), lt, Parent(c))
  {
    var p, ns := Parent(c), SwapNodes(nodes, c);
    assert p > 0 ==> Kept(nodes, lt, p);
    forall i | 0 < i < |ns| && i != p ensures Kept(ns, lt, i) {
      if i != c {
        assert Kept(nodes, lt, i);
      }
    }
    if p > 0 {
      assert Sibling(c) < |nodes| ==> Kept(nodes, lt, Sibling(c));
    }
  }

  lemma SwapDownOrdered(nodes: seq<nat>, lt: (nat, nat) -> bool, c: nat, k: nat)
    requires WeakOrder(lt) && OrderedAround(nodes, lt, c) && (k == 2 * c + 1 || k == 2 * c + 2) && k < |nodes|
    requires lt(nodes[k], nodes[c]) && (Sibling(k) < |nodes| ==> !lt(nodes[Sibling(k)], nodes[k]))
    ensures OrderedAround(SwapNodes(nodes, k), lt, k)
  {
    var ns := SwapNodes(nodes, k);
    assert 2 * k + 1 < |nodes| ==> Kept(nodes, lt, 2 * k + 1);
    assert 2 * k + 2 < |nodes| ==> Kept(nodes, lt, 2 * k + 2);
    forall i | 0 < i < |ns| && i != k && Parent(i) != k ensures Kept(ns, lt, i) {
      if i != c && Parent(i) != c {
        assert Kept(nodes, lt, i);
      }
    }
  }

  /** The root of an ordered heap is not after any node. */
  lemma {:induction false} RootIsLeast(nodes: seq<nat>, lt: (nat, nat) -> bool, i: nat)
    requires WeakOrder(lt) && Ordered(nodes, lt) && i < |nodes|
    ensures !lt(nodes[i], nodes[0])
  {
    if i > 0 {
      RootIsLeast(nodes, lt, Parent(i));
      assert Kept(nodes, lt, i);
    }
  }

  // --------------------------------------------------- finding the last slot

  /** One step of the walk: a set bit goes right. */
  function Step(mem: Memory, n: nat, bit: nat): Option<nat>
    requires n in mem
  {
    if bit == 1 then mem[n].right else mem[n].left
  }

  lemma StepReaches(mem: Memory, min: Option<nat>, nodes: seq<nat>, m: nat, bit: nat)
    requires Linked(mem, min, nodes) && 1 <= m <= |nodes| && bit < 2
    ensures nodes[m - 1] in mem && Step(mem, nodes[m - 1], bit) == At(nodes, 2 * m + bit - 1)
    ensures Parent(2 * m + bit - 1) == m - 1 && OnLeft(2 * m + bit - 1) == (bit == 0)
  {
    assert Placed(mem, nodes, m - 1);
  }

  /** The walk of heap_insert and heap_remove along a path of bits: the slot reached
      is that of 1-based index `target`. */
  method Walk(mem: Memory, min: Option<nat>, path: nat, k: nat, ghost nodes: seq<nat>, ghost target: nat)
    returns (par: Option<nat>, right: bool, cur: Option<nat>)
    requires Linked(mem, min, nodes) && Follow(1, path, k) == target && 1 <= target <= |nodes| + 1
    ensures cur == At(nodes, target - 1)
    ensures target == 1 ==> par == None && k == 0
    ensures target > 1 ==> par == At(nodes, Parent(target - 1)) && right == !OnLeft(target - 1)
  {
    FollowGrows(1, path, k);
    par, right, cur := None, false, min;
    var bits, left := path, k;
    ghost var m := 1;
    while left > 0
      invariant 1 <= m && Follow(m, bits, left) == target && m <= target
      invariant cur == At(nodes, m - 1)
      invariant m == 1 ==> par == None && left == k
      invariant m > 1 ==> par == At(nodes, Parent(m - 1)) && right == !OnLeft(m - 1)
      decreases left
    {
      FollowGrows(m, bits, left);
      FollowGrows(2 * m + bits % 2, bits / 2, left - 1);
      StepReaches(mem, min, nodes, m, bits % 2);
      par := cur;
      right, cur := bits % 2 == 1, Step(mem, par.value, bits % 2);
      m := 2 * m + bits % 2;
      bits, left := bits / 2, left - 1;
    }
  }

  lemma AppendLinked(mem: Memory, min: Option<nat>, nodes: seq<nat>, x: nat, m: Memory)
    requires Linked(mem, min, nodes) && InMemory(mem, nodes) && x !in nodes
    requires x in m && m[x] == Links(None, None, Up(nodes + [x], |nodes|))
    requires |nodes| > 0 ==> var p := nodes[Parent(|nodes|)];
               p in m && m[p] == (if OnLeft(|nodes|) then mem[p].(left := Some(x)) else mem[p].(right := Some(x)))
    requires forall i :: 0 <= i < |nodes| && 2 * i + 1 != |nodes| && 2 * i + 2 != |nodes| ==> nodes[i] in m && m[nodes[i]] == mem[nodes[i]]
    ensures Linked(m, if nodes == [] then Some(x) else min, nodes + [x])
  {
    var ns := nodes + [x];
    forall i | 0 <= i < |ns| ensures Placed(m, ns, i) {
      if i < |nodes| {
        assert Placed(mem, nodes, i);
      }
    }
  }

  // ------------------------------------------------------------ sifting

  /** The two level orders hold the same nodes. */
  ghost predicate SameNodes(a: seq<nat>, b: seq<nat>) {
    |a| == |b| && forall n :: n in a <==> n in b
  }

  /** Nothing outside the tree is written. */
  ghost predicate OthersKept(mem: Memory, m: Memory, nodes: seq<nat>) {
    m.Keys == mem.Keys && forall n :: n in mem && n !in nodes ==> m[n] == mem[n]
  }

  lemma LinkedInMemory(mem: Memory, min: Option<nat>, nodes: seq<nat>)
    requires Linked(mem, min, nodes)
    ensures InMemory(mem, nodes)
  {
    forall n | n in nodes ensures n in mem {
      var i :| 0 <= i < |nodes| && nodes[i] == n;
      assert Placed(mem, nodes, i);
    }
  }

  lemma SwapSameNodes(nodes: seq<nat>, c: nat)
    requires 0 < c < |nodes|
    ensures SameNodes(SwapNodes(nodes, c), nodes)
  {
    var ns := SwapNodes(nodes, c);
    forall n ensures n in ns <==> n in nodes {
      if n in nodes {
        var i :| 0 <= i < |nodes| && nodes[i] == n;
        assert ns[if i == c then Parent(c) else if i == Parent(c) then c else i] == n;
      }
    }
  }

  /** The upward loop of heap_insert and heap_remove. */
  method SiftUp(mem: Memory, min: Option<nat>, node: nat, lt: (nat, nat) -> bool, ghost nodes: seq<nat>, ghost c: nat)
    returns (m: Memory, min': Option<nat>, ghost ns: seq<nat>)
    requires WeakOrder(lt) && Linked(mem, min, nodes) && OrderedBut(nodes, lt, c) && nodes[c] == node
    ensures Linked(m, min', ns) && Ordered(ns, lt)
    ensures SameNodes(ns, nodes) && OthersKept(mem, m, nodes)
  {
    m, min', ns := mem, min, nodes;
    ghost var i := c;
    assert Placed(m, ns, i);
    while m[node].parent != None && lt(node, m[node].parent.value)
      invariant Linked(m, min', ns) && OrderedBut(ns, lt, i) && ns[i] == node && Placed(m, ns, i)
      invariant SameNodes(ns, nodes) && OthersKept(mem, m, nodes)
      decreases i
    {
      LinkedInMemory(m, min', ns);
      m, min' := NodeSwap(m, min', m[node].parent.value, node, ns, i);
      SwapUpOrdered(ns, lt, i);
      SwapSameNodes(ns, i);
      ns, i := SwapNodes(ns, i), Parent(i);
      assert Placed(m, ns, i);
    }
    assert i > 0 ==> Kept(ns, lt, i);
  }

  /** The smallest of a node and its children, as the downward loop picks it. */
  function Smallest(mem: Memory, child: nat, lt: (nat, nat) -> bool): nat
    requires child in mem
  {
    var l, r := mem[child].left, mem[child].right;
    var s := if l.Some? && lt(l.value, child) then l.value else child;
    if r.Some? && lt(r.value, s) then r.value else s
  }

  lemma SmallestKid(mem: Memory, nodes: seq<nat>, lt: (nat, nat) -> bool, i: nat) returns (k: nat)
    requires WeakOrder(lt) && Distinct(nodes) && i < |nodes| && Placed(mem, nodes, i)
    ensures k < |nodes| && Smallest(mem, nodes[i], lt) == nodes[k]
    ensures k == i || ((k == 2 * i + 1 || k == 2 * i + 2) && lt(nodes[k], nodes[i]) && (Sibling(k) < |nodes| ==> !lt(nodes[Sibling(k)], nodes[k])))
    ensures k == i ==> (2 * i + 1 < |nodes| ==> !lt(nodes[2 * i + 1], nodes[i])) && (2 * i + 2 < |nodes| ==> !lt(nodes[2 * i + 2], nodes[i]))
  {
    var smallest := Smallest(mem, nodes[i], lt);
    k := if smallest == nodes[i] then i else if At(nodes, 2 * i + 1) == Some(smallest) then 2 * i + 1 else 2 * i + 2;
  }

  lemma SettledOrdered(nodes: seq<nat>, lt: (nat, nat) -> bool, c: nat)
    requires OrderedAround(nodes, lt, c)
    requires 2 * c + 1 < |nodes| ==> !lt(nodes[2 * c + 1], nodes[c])
    requires 2 * c + 2 < |nodes| ==> !lt(nodes[2 * c + 2], nodes[c])
    ensures OrderedBut(nodes, lt, c)
  {
    forall i | 0 < i < |nodes| && i != c ensures Kept(nodes, lt, i) {
      assert Parent(i) == c ==> i == 2 * c + 1 || i == 2 * c + 2;
    }
  }

  /** The downward loop of heap_remove. */
  method SiftDown(mem: Memory, min: Option<nat>, child: nat, lt: (nat, nat) -> bool, ghost nodes: seq<nat>, ghost c: nat)
    returns (m: Memory, min': Option<nat>, ghost ns: seq<nat>, ghost at: nat)
    requires WeakOrder(lt) && Linked(mem, min, nodes) && OrderedAround(nodes, lt, c) && nodes[c] == child
    ensures Linked(m, min', ns) && OrderedBut(ns, lt, at) && ns[at] == child
    ensures SameNodes(ns, nodes) && OthersKept(mem, m, nodes)
  {
    m, min', ns, at := mem, min, nodes, c;
    while true
      invariant Linked(m, min', ns) && OrderedAround(ns, lt, at) && ns[at] == child
      invariant SameNodes(ns, nodes) && OthersKept(mem, m, nodes)
      decreases |ns| - at
    {
      assert Placed(m, ns, at);
      ghost var k: nat := SmallestKid(m, ns, lt, at);
      var smallest := Smallest(m, child, lt);
      if smallest == child {
        SettledOrdered(ns, lt, at);
        break;
      }
      LinkedInMemory(m, min', ns);
      assert k > 0 && Parent(k) == at;
      m, min' := NodeSwap(m, min', child, smallest, ns, k);
      SwapDownOrdered(ns, lt, at, k);
      SwapSameNodes(ns, k);
      ns, at := SwapNodes(ns, k), k;
    }
  }

  // ------------------------------------------------------ taking nodes out

  lemma DropLastLinked(mem: Memory, min: Option<nat>, nodes: seq<nat>, m: Memory)
    requires Linked(mem, min, nodes) && InMemory(mem, nodes) && |nodes| > 0
    requires var l := |nodes| - 1;
             m == if l == 0 then mem else if OnLeft(l) then SetLeft(mem, nodes[Parent(l)], None) else SetRight(mem, nodes[Parent(l)], None)
    ensures Linked(m, if |nodes| == 1 then None else min, nodes[..|nodes| - 1])
  {
    var ns := nodes[..|nodes| - 1];
    forall i | 0 <= i < |ns| ensures Placed(m, ns, i) {
      assert Placed(mem, nodes, i);
    }
  }

  /** Whoever hung on `node` hangs on `child`, which takes over its links. */
  function TakenOver(mem: Memory, node: nat, child: nat): Memory
    requires node in mem && forall n :: Some(n) == mem[node].left || Some(n) == mem[node].right || Some(n) == mem[node].parent ==> n in mem
  {
    var m0 := mem[child := mem[node]];
    var m1 := Adopted(m0, mem[node].left, child);
    var m2 := Adopted(m1, mem[node].right, child);
    Redirected(m2, mem[node].parent, node, child)
  }

  lemma TakenOverPlaced(mem: Memory, min: Option<nat>, nodes: seq<nat>, i: nat, x: nat, j: nat)
    requires Linked(mem, min, nodes) && InMemory(mem, nodes) && i < |nodes| && x !in nodes && j < |nodes| && Placed(mem, nodes, i)
    ensures Placed(TakenOver(mem, nodes[i], x), nodes[i := x], j)
  {
    assert Placed(mem, nodes, j);
    assert i > 0 ==> Placed(mem, nodes, Parent(i));
  }

  lemma TakenOverLinked(mem: Memory, min: Option<nat>, nodes: seq<nat>, i: nat, x: nat)
    requires Linked(mem, min, nodes) && InMemory(mem, nodes) && i < |nodes| && x !in nodes && Placed(mem, nodes, i)
    ensures Linked(TakenOver(mem, nodes[i], x), if i == 0 then Some(x) else min, nodes[i := x])
    ensures TakenOver(mem, nodes[i], x).Keys == mem.Keys + {x}
    ensures forall n :: n in mem && n !in nodes && n != x ==> TakenOver(mem, nodes[i], x)[n] == mem[n]
  {
    var m, ns := TakenOver(mem, nodes[i], x), nodes[i := x];
    forall j | 0 <= j < |ns| ensures Placed(m, ns, j) {
      TakenOverPlaced(mem, min, nodes, i, x, j);
    }
  }

  /** Putting the last node in place of node i leaves the order broken only around i. */
  lemma ReplacedOrdered(nodes: seq<nat>, lt: (nat, nat) -> bool, i: nat)
    requires WeakOrder(lt) && Ordered(nodes, lt) && i < |nodes| - 1
    ensures OrderedAround(nodes[..|nodes| - 1][i := nodes[|nodes| - 1]], lt, i)
  {
    var l := |nodes| - 1;
    var ns := nodes[..l][i := nodes[l]];
    forall j | 0 < j < |ns| && j != i && Parent(j) != i ensures Kept(ns, lt, j) {
      assert Kept(nodes, lt, j);
    }
    if i > 0 {
      assert Kept(nodes, lt, i);
      assert 2 * i + 1 < |ns| ==> Kept(nodes, lt, 2 * i + 1);
      assert 2 * i + 2 < |ns| ==> Kept(nodes, lt, 2 * i + 2);
    }
  }

  lemma AppendedOrdered(nodes: seq<nat>, lt: (nat, nat) -> bool, x: nat)
    requires Ordered(nodes, lt)
    ensures OrderedBut(nodes + [x], lt, |nodes|)
  {
    forall j | 0 < j < |nodes| ensures Kept(nodes + [x], lt, j) {
      assert Kept(nodes, lt, j);
    }
  }

  lemma DroppedOrdered(nodes: seq<nat>, lt: (nat, nat) -> bool)
    requires Ordered(nodes, lt) && |nodes| > 0
    ensures Ordered(nodes[..|nodes| - 1], lt)
  {
    var ns := nodes[..|nodes| - 1];
    forall j | 0 < j < |ns| ensures Kept(ns, lt, j) {
      assert Kept(nodes, lt, j);
    }
  }

  function ElementsOf(nodes: seq<nat>): set<nat> {
    set n | n in nodes
  }

  lemma ReplacedElements(nodes: seq<nat>, i: nat)
    requires Distinct(nodes) && i < |nodes| - 1
    ensures ElementsOf(nodes[..|nodes| - 1][i := nodes[|nodes| - 1]]) == ElementsOf(nodes) - {nodes[i]}
  {
    var l := |nodes| - 1;
    var ns := nodes[..l][i := nodes[l]];
    forall n | n in nodes && n != nodes[i] ensures n in ns {
      var j :| 0 <= j < |nodes| && nodes[j] == n;
      assert ns[if j == l then i else j] == n;
    }
    assert forall j :: 0 <= j < |ns| ==> ns[j] in nodes && ns[j] != nodes[i];
  }

  lemma DroppedElements(nodes: seq<nat>)
    requires Distinct(nodes) && |nodes| > 0
    ensures ElementsOf(nodes[..|nodes| - 1]) == ElementsOf(nodes) - {nodes[|nodes| - 1]}
  {
    assert nodes == nodes[..|nodes| - 1] + [nodes[|nodes| - 1]];
  }

  /** Find the last node by its path and unlink it. */
  method UnlinkLast(mem: Memory, min: Option<nat>, nelts: nat, ghost nodes: seq<nat>)
    returns (m: Memory, root: Option<nat>, child: nat)
    requires Linked(mem, min, nodes) && 0 < nelts == |nodes| < 0x1_0000_0000
    ensures Linked(m, root, nodes[..|nodes| - 1]) && child == nodes[|nodes| - 1]
    ensures OthersKept(mem, m, nodes)
  {
    LinkedInMemory(mem, min, nodes);
    var path, k := PathTo(nelts);
    var par, right, cur := Walk(mem, min, path, k, nodes, nelts);
    child := cur.value;
    m, root := mem, min;
    if par == None {
      root := None;
    } else if right {
      m := SetRight(m, par.value, None);
    } else {
      m := SetLeft(m, par.value, None);
    }
    DropLastLinked(mem, min, nodes, m);
  }

  /** The node to be deleted is replaced by `child`. */
  method Replace(mem: Memory, min: Option<nat>, node: nat, child: nat, ghost nodes: seq<nat>, ghost i: nat)
    returns (m: Memory, root: Option<nat>)
    requires Linked(mem, min, nodes) && i < |nodes| && node == nodes[i] && child !in nodes && child in mem
    ensures Linked(m, root, nodes[i := child])
    ensures m.Keys == mem.Keys && forall n :: n in mem && n !in nodes && n != child ==> m[n] == mem[n]
  {
    LinkedInMemory(mem, min, nodes);
    assert Placed(mem, nodes, i);
    var links := mem[node];
    m := mem[child := links];
    m := Adopt(m, links.left, child);
    m := Adopt(m, links.right, child);
    m, root := Redirect(m, min, links.parent, node, child);
    TakenOverLinked(mem, min, nodes, i, child);
  }

  /** Both loops of heap_remove, from the position the last node moved into. */
  method Settle(mem: Memory, min: Option<nat>, child: nat, lt: (nat, nat) -> bool, ghost nodes: seq<nat>, ghost c: nat)
    returns (m: Memory, root: Option<nat>, ghost ns: seq<nat>)
    requires WeakOrder(lt) && Linked(mem, min, nodes) && OrderedAround(nodes, lt, c) && nodes[c] == child
    ensures Linked(m, root, ns) && Ordered(ns, lt)
    ensures |ns| == |nodes| && ElementsOf(ns) == ElementsOf(nodes) && OthersKept(mem, m, nodes)
  {
    ghost var at;
    m, root, ns, at := SiftDown(mem, min, child, lt, nodes, c);
    m, root, ns := SiftUp(m, root, child, lt, ns, at);
  }

  /** heap_remove once the last node is unlinked and is not the one to delete. */
  method Delete(mem: Memory, min: Option<nat>, node: nat, child: nat, lt: (nat, nat) -> bool, ghost nodes: seq<nat>)
    returns (m: Memory, root: Option<nat>, ghost ns: seq<nat>)
    requires |nodes| > 0 && Linked(mem, min, nodes[..|nodes| - 1]) && Distinct(nodes) && Ordered(nodes, lt) && WeakOrder(lt)
    requires child == nodes[|nodes| - 1] && child in mem && node in nodes && node != child
    ensures Linked(m, root, ns) && Ordered(ns, lt) && |ns| == |nodes| - 1
    ensures ElementsOf(ns) == ElementsOf(nodes) - {node} && OthersKept(mem, m, nodes)
  {
    ghost var cut := nodes[..|nodes| - 1];
    ghost var i: nat :| i < |nodes| && nodes[i] == node;
    ReplacedOrdered(nodes, lt, i);
    ReplacedElements(nodes, i);
    m, root := Replace(mem, min, node, child, cut, i);
    ns := cut[i := child];
    assert forall n :: n in ns ==> n in ElementsOf(ns);
    m, root, ns := Settle(m, root, child, lt, ns, i);
  }

  /** struct heap, with the memory its nodes live in. */
  class Heap {
    var mem: Memory
    var min: Option<nat>
    var nelts: nat
    ghost var nodes: seq<nat>

    ghost predicate Valid(lt: (nat, nat) -> bool)
      reads this
    {
      WeakOrder(lt) && Linked(mem, min, nodes) && Ordered(nodes, lt) && nelts == |nodes| < 0x1_0000_0000
    }

    ghost function Elements(): set<nat>
      reads this
    {
      ElementsOf(nodes)
    }

    /** heap_init */
    constructor (memory: Memory)
      ensures nelts == 0 && min == None && nodes == [] && mem == memory
    {
      mem, min, nelts, nodes := memory, None, 0, [];
    }

    /** heap_min returns the root: no node is before it. */
    lemma MinIsLeast(lt: (nat, nat) -> bool)
      requires Valid(lt)
      ensures min == None <==> Elements() == {}
      ensures min.Some? ==> min.value in Elements() && forall n :: n in Elements() ==> !lt(n, min.value)
    {
      if nodes != [] {
        assert nodes[0] in Elements();
        forall n | n in Elements() ensures !lt(n, nodes[0]) {
          var i :| 0 <= i < |nodes| && nodes[i] == n;
          RootIsLeast(nodes, lt, i);
        }
      }
    }

    method Insert(newnode: nat, lt: (nat, nat) -> bool)
      requires Valid(lt) && newnode !in nodes && nelts < 0xFFFF_FFFF
      modifies this
      ensures Valid(lt) && Elements() == old(Elements()) + {newnode} && nelts == old(nelts) + 1
      ensures newnode in mem && OthersKept(old(mem)[newnode := mem[newnode]], mem, nodes)
    {
      LinkedInMemory(mem, min, nodes);
      ghost var l, ns := |nodes|, nodes + [newnode];
      var path, k := PathTo(1 + nelts);
      var par, right, cur := Walk(mem, min, path, k, nodes, 1 + nelts);
      ghost var was := mem;
      var m := mem[newnode := Links(None, None, par)];
      var root := min;
      if par == None {
        root := Some(newnode);
      } else if right {
        m := SetRight(m, par.value, Some(newnode));
      } else {
        m := SetLeft(m, par.value, Some(newnode));
      }
      assert par == Up(ns, l);
      AppendLinked(was, min, nodes, newnode, m);
      AppendedOrdered(nodes, lt, newnode);
      nelts := nelts + 1;
      mem, min, nodes := SiftUp(m, root, newnode, lt, ns, l);
    }

    method Remove(node: nat, lt: (nat, nat) -> bool)
      requires Valid(lt) && (nelts > 0 ==> node in nodes)
      modifies this
      ensures Valid(lt) && Elements() == old(Elements()) - {node} && (old(nelts) > 0 ==> nelts == old(nelts) - 1)
      ensures OthersKept(old(mem), mem, old(nodes))
    {
      if nelts == 0 {
        return;
      }
      ghost var l := |nodes| - 1;
      ghost var cut := nodes[..l];
      var m, root, child := UnlinkLast(mem, min, nelts, nodes);
      nelts := nelts - 1;
      if child == node {
        DroppedElements(nodes);
        DroppedOrdered(nodes, lt);
        mem, min, nodes := m, root, cut;
        return;
      }
      LinkedInMemory(mem, min, nodes);
      ghost var ns;
      m, root, ns := Delete(m, root, node, child, lt, nodes);
      mem, min, nodes := m, root, ns;
    }

    method Dequeue(lt: (nat, nat) -> bool)
      requires Valid(lt) && nelts > 0
      modifies this
      ensures Valid(lt) && old(min).Some? && Elements() == old(Elements()) - {old(min).value}
      ensures forall n :: n in old(Elements()) ==> !lt(n, old(min).value)
    {
      MinIsLeast(lt);
      Remove(min.value, lt);
    }
  }
}
