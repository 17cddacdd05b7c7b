/** What fields that occur more than once come to (decode_static_field in pb_decode.c): the
    last value counts, submessages merge, a union forgets its other side, arrays grow. */
module PbLaws {
  import opened Keys
  import opened PbTypes
  import opened PbCanon
  import opened PbWire

  /** A field for this place in the struct. */
  ghost predicate OnSlot(fs: seq<Field>, x: Item, s: nat) {
    !x.Unknown? && x.k < |fs| && fs[x.k].slot == s
  }

  /** The list without the fields for a place. */
  ghost function Off(fs: seq<Field>, items: seq<Item>, s: nat): seq<Item> {
    if items == [] then [] else (if OnSlot(fs, items[0], s) then [] else [items[0]]) + Off(fs, items[1..], s)
  }

  ghost predicate Elsewhere(fs: seq<Field>, items: seq<Item>, s: nat) {
    forall x :: x in items ==> !OnSlot(fs, x, s)
  }

  // ------------------------------------------------------ places do not interfere

  lemma OneOff(fs: seq<Field>, d: seq<Slot>, x: Item, s: nat, w: Slot)
    requires s < |d|
    ensures OnSlot(fs, x, s) ==> match TakeField(fs, d, x) { case None => true case Some(e) => |e| == |d| && e[s := w] == d[s := w] }
    ensures !OnSlot(fs, x, s) ==> TakeField(fs, d[s := w], x) == match TakeField(fs, d, x) { case None => None case Some(e) => Some(e[s := w]) }
    ensures !OnSlot(fs, x, s) ==> match TakeField(fs, d, x) { case None => true case Some(e) => |e| == |d| && e[s] == d[s] }
  {
    if !x.Unknown? && x.k < |fs| && fs[x.k].slot < |d| && fs[x.k].slot != s {
      var t := TakeItem(fs[x.k], d[fs[x.k].slot], x);
      if t.Some? {
        assert d[s := w][fs[x.k].slot := t.value] == d[fs[x.k].slot := t.value][s := w];
      }
    }
  }

  /** Without the fields for a place, all else is as with them. */
  lemma {:induction false} OffTakes(fs: seq<Field>, d: seq<Slot>, a: seq<Item>, s: nat, w: Slot)
    requires s < |d| && TakeItems(fs, d, a).Some?
    ensures var e := TakeItems(fs, d, a).value; |e| == |d| && TakeItems(fs, d[s := w], Off(fs, a, s)) == Some(e[s := w])
    decreases a
  {
    if a != [] {
      var x, rest := a[0], a[1..];
      OneOff(fs, d, x, s, w);
      var d' := TakeField(fs, d, x).value;
      OffTakes(fs, d', rest, s, w);
      if OnSlot(fs, x, s) {
        assert [] + Off(fs, rest, s) == Off(fs, rest, s);
      } else {
        assert ([x] + Off(fs, rest, s))[1..] == Off(fs, rest, s);
      }
    }
  }

  lemma {:induction false} ElsewhereTakes(fs: seq<Field>, d: seq<Slot>, b: seq<Item>, s: nat, w: Slot)
    requires s < |d| && Elsewhere(fs, b, s)
    ensures TakeItems(fs, d, b).None? ==> TakeItems(fs, d[s := w], b).None?
    ensures TakeItems(fs, d, b).Some? ==>
              var e := TakeItems(fs, d, b).value; |e| == |d| && e[s] == d[s] && TakeItems(fs, d[s := w], b) == Some(e[s := w])
    decreases b
  {
    if b != [] {
      OneOff(fs, d, b[0], s, w);
      var d' := TakeField(fs, d, b[0]);
      if d'.Some? {
        ElsewhereTakes(fs, d'.value, b[1..], s, w);
      }
    }
  }

  lemma {:induction false} OffMentions(fs: seq<Field>, a: seq<Item>, s: nat, k: nat)
    requires k < |fs| && fs[k].slot != s
    ensures Mentions(Off(fs, a, s), k) <==> Mentions(a, k)
    decreases a
  {
    if a != [] {
      var x, rest := a[0], a[1..];
      OffMentions(fs, rest, s, k);
      var head := if OnSlot(fs, x, s) then [] else [x];
      MentionsBoth([x], rest, k);
      MentionsBoth(head, Off(fs, rest, s), k);
      assert [x] + rest == a;
      assert Mentions([x], k) <==> IsFor([x][0], k);
      assert head == [x] || !Mentions(head, k);
    }
  }

  /** A required field has its place alone, so only fields for other places are left out
      where one for it stays. */
  lemma SameSeen(fs: seq<Field>, k: nat, a: seq<Item>, b: seq<Item>)
    requires DescriptorOk(fs) && k < |fs|
    requires fs[k].rule == Required ==> (Mentions(a, k) <==> Mentions(b, k))
    requires forall j {:trigger Mentions(a, j)} {:trigger Mentions(b, j)} :: 0 <= j < |fs| && fs[j].slot != fs[k].slot ==> (Mentions(a, j) <==> Mentions(b, j))
    ensures AllSeen(fs, a) <==> AllSeen(fs, b)
  {
    forall j | 0 <= j < |fs| && Checked(fs, j) ensures Mentions(a, j) <==> Mentions(b, j) {
      if j != k && fs[j].slot == fs[k].slot {
        TwoFields(fs, j, k);
      }
    }
  }

  lemma Mention(a: seq<Item>, x: Item, c: seq<Item>, k: nat)
    ensures Mentions(a + [x] + c, k) <==> Mentions(a, k) || IsFor(x, k) || Mentions(c, k)
  {
    MentionsBoth(a + [x], c, k);
    MentionsBoth(a, [x], k);
    assert Mentions([x], k) <==> IsFor([x][0], k);
  }

  lemma OneTaken(fs: seq<Field>, d: seq<Slot>, a: seq<Item>, x: Item, c: seq<Item>)
    ensures TakeItems(fs, d, a + [x] + c) ==
      match TakeItems(fs, d, a) { case None => None case Some(e) => match TakeField(fs, e, x) { case None => None case Some(g) => TakeItems(fs, g, c) } }
  {
    TakeBoth(fs, d, a + [x], c);
    TakeBoth(fs, d, a, [x]);
    var e := TakeItems(fs, d, a);
    if e.Some? {
      assert [x][0] == x && [x][1..] == [];
      assert TakeItems(fs, e.value, [x]) == match TakeField(fs, e.value, x) { case None => None case Some(g) => TakeItems(fs, g, [x][1..]) };
    }
  }

  // -------------------------------------------------------- the last value counts

  ghost predicate SameShape(s: Slot, t: Slot) {
    s.Plain? == t.Plain? && s.Opt? == t.Opt? && s.Array? == t.Array? && s.Union? == t.Union?
  }

  lemma ItemShape(f: Field, slot: Slot, x: Item)
    requires !x.Unknown? && TakeItem(f, slot, x).Some?
    ensures SameShape(TakeItem(f, slot, x).value, slot)
  {
    match (f.rule, slot)
    case (Required, Plain(_)) =>
    case (Implicit, Plain(_)) =>
    case (Optional, Opt(_, _)) =>
    case (Repeated(_), Array(_)) =>
    case (Oneof, Union(_)) =>
    case _ =>
  }

  lemma {:induction false} ShapeKept(fs: seq<Field>, d: seq<Slot>, a: seq<Item>, s: nat)
    requires s < |d| && TakeItems(fs, d, a).Some?
    ensures |TakeItems(fs, d, a).value| == |d| && SameShape(TakeItems(fs, d, a).value[s], d[s])
    decreases a
  {
    if a != [] {
      if OnSlot(fs, a[0], s) {
        ItemShape(fs[a[0].k], d[s], a[0]);
      }
      OneOff(fs, d, a[0], s, d[s]);
      ShapeKept(fs, TakeField(fs, d, a[0]).value, a[1..], s);
    }
  }

  lemma ValueAlone(f: Field, s: Slot, t: Slot, y: Item)
    requires !y.Unknown? && !f.rule.Repeated? && !f.kind.Message? && SameShape(s, t)
    ensures TakeItem(f, s, y) == TakeItem(f, t, y)
  {
    forall v, w ensures TakeValue(f, y, v) == TakeValue(f, y, w) {
      if y.Single? {
        TreeAlone(f.kind, y.t, v, w);
      }
    }
  }

  lemma TreeAlone(k: LType, t: Tree, v: Value, w: Value)
    requires !k.Message?
    ensures TakeTree(k, t, v) == TakeTree(k, t, w)
  {
    match t
    case Number(_) =>
    case Chunk(_) =>
    case Node(_) =>
  }

  /** Of a field that is no array and no submessage the last occurrence counts: those before it,
      and other sides of its union, might as well not be there, once they could be taken. */
  lemma LastValueCounts(fs: seq<Field>, d: seq<Slot>, a: seq<Item>, y: Item, c: seq<Item>, k: nat)
    requires DescriptorOk(fs) && k < |fs| && IsFor(y, k) && !fs[k].rule.Repeated? && !fs[k].kind.Message? && fs[k].slot < |d|
    requires TakeItems(fs, d, a).Some?
    ensures TakeAll(fs, d, Off(fs, a, fs[k].slot) + [y] + c) == TakeAll(fs, d, a + [y] + c)
  {
    var s := fs[k].slot;
    OneTaken(fs, d, a, y, c);
    OneTaken(fs, d, Off(fs, a, s), y, c);
    SeenWithout(fs, a, y, c, k);
    var e := TakeItems(fs, d, a).value;
    LengthKept(fs, d, a);
    OffTakes(fs, d, a, s, d[s]);
    ShapeKept(fs, d, a, s);
    assert d[s := d[s]] == d;
    ValueAlone(fs[k], e[s], d[s], y);
    var v := TakeItem(fs[k], e[s], y);
    if v.Some? {
      assert e[s := d[s]][s := v.value] == e[s := v.value];
    }
  }

  lemma {:induction false} LengthKept(fs: seq<Field>, d: seq<Slot>, a: seq<Item>)
    requires TakeItems(fs, d, a).Some?
    ensures |TakeItems(fs, d, a).value| == |d|
    decreases a
  {
    if a != [] {
      LengthKept(fs, TakeField(fs, d, a[0]).value, a[1..]);
    }
  }

  // ------------------------------------------------------------ submessages merge

  lemma JoinedTree(k: LType, p: seq<Item>, q: seq<Item>, v: Value, v1: Value)
    requires k.Message? && TakeTree(k, Node(p), v) == Some(v1) && AllSeen(k.fields, q)
    ensures TakeTree(k, Node(p + q), v) == TakeTree(k, Node(q), v1)
  {
    var fs, d := k.fields, SlotsOf(k.fields, v);
    TakeBoth(fs, d, p, q);
    forall j | 0 <= j < |fs| && Checked(fs, j) ensures Mentions(p + q, j) {
      MentionsBoth(p, q, j);
      assert Mentions(p, j);
    }
  }

  lemma JoinedItem(f: Field, slot: Slot, k: nat, p: seq<Item>, q: seq<Item>, t: Slot)
    requires !f.rule.Repeated? && f.kind.Message? && TakeItem(f, slot, Single(k, Node(p))) == Some(t) && AllSeen(f.kind.fields, q)
    ensures TakeItem(f, slot, Single(k, Node(p + q))) == TakeItem(f, t, Single(k, Node(q)))
  {
    var v := match slot
      case Plain(v) => v
      case Opt(_, v) => v
      case Union(which) => if which.Some? && which.value.0 == f.tag then which.value.1 else DefaultValue(f)
      case Array(_) => f.initial;
    JoinedTree(f.kind, p, q, v, TakeTree(f.kind, Node(p), v).value);
  }

  /** Two occurrences of a submessage are one with the fields of both, also in a union that
      stays on its side. */
  lemma SubmessagesMerge(fs: seq<Field>, d: seq<Slot>, a: seq<Item>, p: seq<Item>, b: seq<Item>, q: seq<Item>, c: seq<Item>, k: nat)
    requires DescriptorOk(fs) && k < |fs| && fs[k].kind.Message? && !fs[k].rule.Repeated? && Elsewhere(fs, b, fs[k].slot)
    requires TakeItems(fs, d, a + [Single(k, Node(p))]).Some? && AllSeen(fs[k].kind.fields, q)
    ensures TakeAll(fs, d, (a + b) + [Single(k, Node(p + q))] + c) == TakeAll(fs, d, a + [Single(k, Node(p))] + (b + [Single(k, Node(q))] + c))
  {
    var s, x, y, z := fs[k].slot, Single(k, Node(p)), Single(k, Node(q)), Single(k, Node(p + q));
    SeenTwice(fs, a, x, b, y, c, z, k);
    var e, t := FirstTaken(fs, d, a, x, k);
    OneTaken(fs, d, a, x, b + [y] + c);
    OneTaken(fs, e[s := t], b, y, c);
    ElsewhereTakes(fs, e, b, s, t);
    JoinedItem(fs[k], e[s], k, p, q, t);
    TakeBoth(fs, d, a, b);
    OneTaken(fs, d, a + b, z, c);
    var g, u := TakeItems(fs, e, b), TakeItem(fs[k], t, y);
    assert g.Some? && u.Some? ==> g.value[s := t][s := u.value] == g.value[s := u.value];
  }

  /** The message before and the place after a field that can be taken. */
  lemma FirstTaken(fs: seq<Field>, d: seq<Slot>, a: seq<Item>, x: Item, k: nat) returns (e: seq<Slot>, t: Slot)
    requires k < |fs| && IsFor(x, k) && TakeItems(fs, d, a + [x]).Some?
    ensures TakeItems(fs, d, a) == Some(e) && fs[k].slot < |e| == |d| && TakeItem(fs[k], e[fs[k].slot], x) == Some(t)
  {
    assert a + [x] + [] == a + [x];
    OneTaken(fs, d, a, x, []);
    LengthKept(fs, d, a);
    e := TakeItems(fs, d, a).value;
    t := TakeItem(fs[k], e[fs[k].slot], x).value;
  }

  lemma SeenTwice(fs: seq<Field>, a: seq<Item>, x: Item, b: seq<Item>, y: Item, c: seq<Item>, z: Item, k: nat)
    requires DescriptorOk(fs) && k < |fs| && IsFor(x, k) && IsFor(y, k) && IsFor(z, k)
    ensures AllSeen(fs, a + [x] + (b + [y] + c)) <==> AllSeen(fs, (a + b) + [z] + c)
  {
    forall j: nat ensures Mentions(a + [x] + (b + [y] + c), j) <==> Mentions((a + b) + [z] + c, j) {
      Mention(a, x, b + [y] + c, j);
      Mention(b, y, c, j);
      Mention(a + b, z, c, j);
      MentionsBoth(a, b, j);
    }
  }

  // ---------------------------------------------------------- unions change sides

  /** A union that changes sides keeps nothing of the other side: the field finds it as if
      nothing had been there. */
  lemma UnionForgets(fs: seq<Field>, d: seq<Slot>, a: seq<Item>, x: Item, b: seq<Item>, y: Item, c: seq<Item>, k: nat)
    requires DescriptorOk(fs) && k < |fs| && fs[k].rule.Oneof? && IsFor(y, k) && fs[k].slot < |d|
    requires OnSlot(fs, x, fs[k].slot) && !IsFor(x, k) && Elsewhere(fs, b, fs[k].slot)
    requires TakeItems(fs, d, a + [x] + b).Some?
    ensures TakeAll(fs, d[fs[k].slot := Union(None)], Off(fs, a + [x] + b, fs[k].slot) + [y] + c) == TakeAll(fs, d, (a + [x] + b) + [y] + c)
  {
    var s, front := fs[k].slot, a + [x] + b;
    OneTaken(fs, d, front, y, c);
    OneTaken(fs, d[s := Union(None)], Off(fs, front, s), y, c);
    OffTakes(fs, d, front, s, Union(None));
    OtherSide(fs, d, a, x, b, y, k);
    var g := TakeItems(fs, d, front).value;
    var u := TakeItem(fs[k], g[s], y);
    assert u.Some? ==> g[s := Union(None)][s := u.value] == g[s := u.value];
    SeenWithout(fs, front, y, c, k);
  }

  /** After a field for another side has been taken, y finds what it finds in an empty union. */
  lemma OtherSide(fs: seq<Field>, d: seq<Slot>, a: seq<Item>, x: Item, b: seq<Item>, y: Item, k: nat)
    requires DescriptorOk(fs) && k < |fs| && fs[k].rule.Oneof? && IsFor(y, k) && fs[k].slot < |d|
    requires OnSlot(fs, x, fs[k].slot) && !IsFor(x, k) && Elsewhere(fs, b, fs[k].slot)
    requires TakeItems(fs, d, a + [x] + b).Some?
    ensures var g := TakeItems(fs, d, a + [x] + b).value;
            |g| == |d| && TakeItem(fs[k], g[fs[k].slot], y) == TakeItem(fs[k], Union(None), y)
  {
    var s := fs[k].slot;
    TwoFields(fs, x.k, k);
    OneTaken(fs, d, a, x, b);
    TakeBoth(fs, d, a + [x], b);
    var e, t := FirstTaken(fs, d, a, x, x.k);
    ElsewhereTakes(fs, e[s := t], b, s, t);
  }

  lemma SeenWithout(fs: seq<Field>, a: seq<Item>, y: Item, c: seq<Item>, k: nat)
    requires DescriptorOk(fs) && k < |fs| && IsFor(y, k)
    ensures AllSeen(fs, Off(fs, a, fs[k].slot) + [y] + c) <==> AllSeen(fs, a + [y] + c)
  {
    var s := fs[k].slot;
    forall j: nat ensures j < |fs| && (j == k || fs[j].slot != s) ==> (Mentions(a + [y] + c, j) <==> Mentions(Off(fs, a, s) + [y] + c, j)) {
      Mention(a, y, c, j);
      Mention(Off(fs, a, s), y, c, j);
      if j < |fs| && fs[j].slot != s {
        OffMentions(fs, a, s, j);
      }
    }
    SameSeen(fs, k, a + [y] + c, Off(fs, a, s) + [y] + c);
  }

  // ------------------------------------------------------------------ arrays grow

  /** The values of one occurrence of an array field. */
  ghost function Carried(f: Field, x: Item): seq<Value> {
    match x
    case PackedArray(_, ns) => (match TakeNumbers(f.kind, ns, |ns|) case Some(vs) => vs case None => [])
    case Single(_, t) => (match TakeTree(f.kind, t, DefaultValue(f)) case Some(v) => [v] case None => [])
    case Unknown(_, _, _, _) => []
  }

  ghost function AllCarried(fs: seq<Field>, items: seq<Item>, k: nat): seq<Value>
    requires k < |fs|
  {
    if items == [] then [] else (if IsFor(items[0], k) then Carried(fs[k], items[0]) else []) + AllCarried(fs, items[1..], k)
  }

  lemma OneCarried(f: Field, items: seq<Value>, x: Item)
    requires f.rule.Repeated? && !x.Unknown? && TakeItem(f, Array(items), x).Some?
    ensures TakeItem(f, Array(items), x) == Some(Array(items + Carried(f, x)))
    ensures |items| <= f.rule.max ==> |items + Carried(f, x)| <= f.rule.max
  {}

  /** An array holds, behind what was there, the values of all its occurrences in order, packed
      or not, and no more than it has room for. */
  lemma {:induction false} ArrayHoldsAll(fs: seq<Field>, d: seq<Slot>, items: seq<Item>, k: nat)
    requires DescriptorOk(fs) && k < |fs| && fs[k].rule.Repeated? && fs[k].slot < |d| && d[fs[k].slot].Array?
    requires TakeItems(fs, d, items).Some? && |d[fs[k].slot].items| <= fs[k].rule.max
    ensures var s, r := fs[k].slot, TakeItems(fs, d, items).value;
            s < |r| && r[s] == Array(d[s].items + AllCarried(fs, items, k)) && |d[s].items + AllCarried(fs, items, k)| <= fs[k].rule.max
    decreases items
  {
    var s := fs[k].slot;
    if items == [] {
      assert d[s].items + [] == d[s].items;
    } else {
      var x, rest := items[0], items[1..];
      var d' := TakeField(fs, d, x).value;
      if OnSlot(fs, x, s) && x.k != k {
        TwoFields(fs, x.k, k);
      }
      OneOff(fs, d, x, s, d[s]);
      if IsFor(x, k) {
        OneCarried(fs[k], d[s].items, x);
      }
      ArrayHoldsAll(fs, d', rest, k);
      var more := if IsFor(x, k) then Carried(fs[k], x) else [];
      assert d'[s].items == d[s].items + more;
      assert d[s].items + more + AllCarried(fs, rest, k) == d[s].items + (more + AllCarried(fs, rest, k));
    }
  }

  lemma {:induction false} NumbersJoin(k: LType, ns: seq<nat>, ms: seq<nat>, n: nat)
    requires n <= |ms|
    ensures TakeNumbers(k, ns + ms, |ns| + n) ==
      match (TakeNumbers(k, ns, |ns|), TakeNumbers(k, ms, n)) { case (Some(vs), Some(ws)) => Some(vs + ws) case _ => None }
  {
    if n == 0 {
      NumbersPrefix(k, ns, ms, |ns|);
      var vs := TakeNumbers(k, ns, |ns|);
      assert vs.Some? ==> vs.value + [] == vs.value;
    } else {
      NumbersJoin(k, ns, ms, n - 1);
      assert (ns + ms)[|ns| + n - 1] == ms[n - 1];
      var vs, ws, w := TakeNumbers(k, ns, |ns|), TakeNumbers(k, ms, n - 1), TakeNumber(k, ms[n - 1]);
      assert vs.Some? && ws.Some? && w.Some? ==> vs.value + ws.value + [w.value] == vs.value + (ws.value + [w.value]);
    }
  }

  lemma {:induction false} NumbersPrefix(k: LType, ns: seq<nat>, ms: seq<nat>, n: nat)
    requires n <= |ns|
    ensures TakeNumbers(k, ns + ms, n) == TakeNumbers(k, ns, n)
  {
    if n > 0 {
      NumbersPrefix(k, ns, ms, n - 1);
      assert (ns + ms)[n - 1] == ns[n - 1];
    }
  }

  lemma PackedJoinsHere(f: Field, slot: Slot, k: nat, ns: seq<nat>, ms: seq<nat>)
    requires f.rule.Repeated?
    ensures TakeItem(f, slot, PackedArray(k, ns + ms)) ==
      match TakeItem(f, slot, PackedArray(k, ns)) { case None => None case Some(t) => TakeItem(f, t, PackedArray(k, ms)) }
  {
    NumbersJoin(f.kind, ns, ms, |ms|);
    if slot.Array? {
      var vs, ws := TakeNumbers(f.kind, ns, |ns|), TakeNumbers(f.kind, ms, |ms|);
      assert vs.Some? && ws.Some? ==> slot.items + vs.value + ws.value == slot.items + (vs.value + ws.value);
    }
  }

  /** Packed arrays may come in parts. */
  lemma PackedJoins(fs: seq<Field>, d: seq<Slot>, a: seq<Item>, ns: seq<nat>, b: seq<Item>, ms: seq<nat>, c: seq<Item>, k: nat)
    requires DescriptorOk(fs) && k < |fs| && fs[k].rule.Repeated? && Elsewhere(fs, b, fs[k].slot)
    requires TakeItems(fs, d, a + [PackedArray(k, ns)]).Some?
    ensures TakeAll(fs, d, (a + b) + [PackedArray(k, ns + ms)] + c) == TakeAll(fs, d, a + [PackedArray(k, ns)] + (b + [PackedArray(k, ms)] + c))
  {
    var s, x, y, z := fs[k].slot, PackedArray(k, ns), PackedArray(k, ms), PackedArray(k, ns + ms);
    SeenTwice(fs, a, x, b, y, c, z, k);
    var e, t := FirstTaken(fs, d, a, x, k);
    OneTaken(fs, d, a, x, b + [y] + c);
    OneTaken(fs, e[s := t], b, y, c);
    ElsewhereTakes(fs, e, b, s, t);
    PackedJoinsHere(fs[k], e[s], k, ns, ms);
    TakeBoth(fs, d, a, b);
    OneTaken(fs, d, a + b, z, c);
    var g, u := TakeItems(fs, e, b), TakeItem(fs[k], t, y);
    assert g.Some? && u.Some? ==> g.value[s := t][s := u.value] == g.value[s := u.value];
  }

  lemma OneIsPackedHere(f: Field, slot: Slot, k: nat, n: nat)
    requires f.rule.Repeated?
    ensures TakeItem(f, slot, Single(k, Number(n))) == TakeItem(f, slot, PackedArray(k, [n]))
  {
    var v := TakeNumber(f.kind, n);
    assert TakeValue(f, Single(k, Number(n)), DefaultValue(f)) == v;
    assert TakeNumbers(f.kind, [n], 0) == Some([]) && [n][0] == n;
    assert TakeNumbers(f.kind, [n], 1) == match v { case Some(w) => Some([] + [w]) case None => None };
    assert v.Some? ==> [] + [v.value] == [v.value];
  }

  /** A number on its own is a packed array of one. */
  lemma OneIsPacked(fs: seq<Field>, d: seq<Slot>, a: seq<Item>, n: nat, c: seq<Item>, k: nat)
    requires k < |fs| && fs[k].rule.Repeated?
    ensures TakeAll(fs, d, a + [Single(k, Number(n))] + c) == TakeAll(fs, d, a + [PackedArray(k, [n])] + c)
  {
    var x, y := Single(k, Number(n)), PackedArray(k, [n]);
    OneTaken(fs, d, a, x, c);
    OneTaken(fs, d, a, y, c);
    forall j: nat ensures Mentions(a + [x] + c, j) <==> Mentions(a + [y] + c, j) {
      Mention(a, x, c, j);
      Mention(a, y, c, j);
    }
    forall slot ensures TakeItem(fs[k], slot, x) == TakeItem(fs[k], slot, y) {
      OneIsPackedHere(fs[k], slot, k, n);
    }
  }

  // ------------------------------------------------------------- what is not there

  /** A place that no field is for stays as it is. */
  lemma NotMentionedStays(fs: seq<Field>, d: seq<Slot>, items: seq<Item>, s: nat)
    requires s < |d| && Elsewhere(fs, items, s) && TakeAll(fs, d, items).Some?
    ensures |TakeAll(fs, d, items).value| == |d| && TakeAll(fs, d, items).value[s] == d[s]
  {
    ElsewhereTakes(fs, d, items, s, d[s]);
  }

  /** In pb_decode it has its default: the value of the descriptor, not marked as there; an empty
      array; a union on no side. */
  lemma NotMentionedIsDefault(fs: seq<Field>, items: seq<Item>, k: nat)
    requires DescriptorOk(fs) && k < |fs| && Elsewhere(fs, items, fs[k].slot) && TakeAll(fs, Defaults(fs, |fs|), items).Some?
    ensures var s, r := fs[k].slot, TakeAll(fs, Defaults(fs, |fs|), items).value;
            && s < |r| && (fs[k].rule.Repeated? ==> r[s] == Array([])) && (fs[k].rule.Oneof? ==> r[s] == Union(None))
            && (!fs[k].kind.Message? && (fs[k].rule.Required? || fs[k].rule.Implicit?) ==> r[s] == Plain(fs[k].initial))
            && (!fs[k].kind.Message? && fs[k].rule.Optional? ==> r[s] == Opt(false, fs[k].initial))
  {
    DefaultsAt(fs, |fs|, k);
    NotMentionedStays(fs, Defaults(fs, |fs|), items, fs[k].slot);
  }

  // -------------------------------------------------------------- room in the struct

  /** The value is within what the field has room for. */
  ghost predicate Fits(k: LType, v: Value)
    decreases k, 0
  {
    match k
    case Bool => v.BoolV?
    case Bytes(c) => v.BytesV? && |v.bytes| <= c
    case Text(c) => v.BytesV? && |v.bytes| < c
    case FixedBytes(l) => v.BytesV? && |v.bytes| == l
    case Message(fs) => v.MessageV? && AllFit(fs, v.slots)
    case _ => v.NumV? && NumberOk(k, v.n)
  }

  ghost predicate SlotFits(f: Field, s: Slot)
    decreases f, 0
  {
    match s
    case Plain(v) => Fits(f.kind, v)
    case Opt(_, v) => Fits(f.kind, v)
    case Array(items) => f.rule.Repeated? && |items| <= f.rule.max && forall i :: 0 <= i < |items| ==> Fits(f.kind, items[i])
    case Union(which) => which.Some? && which.value.0 == f.tag ==> Fits(f.kind, which.value.1)
  }

  ghost predicate AllFit(fs: seq<Field>, m: seq<Slot>)
    decreases fs, 1
  {
    forall i {:trigger fs[i]} :: 0 <= i < |fs| ==> fs[i].slot < |m| && SlotFits(fs[i], m[fs[i].slot])
  }

  /** So are the default values, at every depth. */
  ghost predicate DefaultsFit(fs: seq<Field>)
    decreases fs, 0
  {
    AllFit(fs, Defaults(fs, |fs|)) && forall i {:trigger FieldDefaultsFit(fs[i])} :: 0 <= i < |fs| ==> FieldDefaultsFit(fs[i])
  }

  ghost predicate FieldDefaultsFit(f: Field)
    decreases f, 0
  {
    f.kind.Message? ==> DefaultsFit(f.kind.fields)
  }

  ghost predicate KindFits(k: LType) {
    k.Message? ==> DescriptorOk(k.fields) && DefaultsFit(k.fields)
  }

  lemma DefaultFits(f: Field)
    requires FieldDefaultsFit(f) && f.kind.Message?
    ensures Fits(f.kind, DefaultValue(f))
  {
    var fs := f.kind.fields;
    assert DefaultsFit(fs);
    assert AllFit(fs, Defaults(fs, |fs|));
  }

  lemma {:induction false} TreeFits(k: LType, t: Tree, start: Value)
    requires KindFits(k) && (k.Message? ==> Fits(k, start)) && TakeTree(k, t, start).Some?
    ensures Fits(k, TakeTree(k, t, start).value)
    decreases t, 1
  {
    match t
    case Number(_) =>
    case Chunk(_) =>
    case Node(items) => ItemsFit(k.fields, SlotsOf(k.fields, start), items);
  }

  lemma {:induction false} NumbersFit(k: LType, ns: seq<nat>, n: nat)
    requires n <= |ns| && TakeNumbers(k, ns, n).Some?
    ensures forall i :: 0 <= i < n ==> Fits(k, TakeNumbers(k, ns, n).value[i])
  {
    if n > 0 {
      NumbersFit(k, ns, n - 1);
    }
  }

  lemma {:induction false} ItemFits(f: Field, slot: Slot, x: Item)
    requires KindFits(f.kind) && SlotFits(f, slot) && !x.Unknown? && TakeItem(f, slot, x).Some?
    requires f.kind.Message? ==> Fits(f.kind, DefaultValue(f))
    ensures SlotFits(f, TakeItem(f, slot, x).value)
    decreases x, 0
  {
    match (f.rule, slot)
    case (Required, Plain(v)) => TreeFits(f.kind, x.t, v);
    case (Implicit, Plain(v)) => TreeFits(f.kind, x.t, v);
    case (Optional, Opt(_, v)) => TreeFits(f.kind, x.t, v);
    case (Repeated(_), Array(items)) =>
      if x.PackedArray? {
        NumbersFit(f.kind, x.ns, |x.ns|);
      } else {
        TreeFits(f.kind, x.t, DefaultValue(f));
      }
    case (Oneof, Union(which)) =>
      TreeFits(f.kind, x.t, if which.Some? && which.value.0 == f.tag then which.value.1 else DefaultValue(f));
    case _ =>
  }

  lemma {:induction false} FieldFits(fs: seq<Field>, d: seq<Slot>, x: Item)
    requires DescriptorOk(fs) && DefaultsFit(fs) && AllFit(fs, d) && TakeField(fs, d, x).Some?
    ensures AllFit(fs, TakeField(fs, d, x).value)
    decreases x, 1
  {
    if !x.Unknown? {
      var f, s := fs[x.k], fs[x.k].slot;
      assert FieldOk(fs[x.k]) && FieldDefaultsFit(fs[x.k]);
      if f.kind.Message? {
        DefaultFits(f);
      }
      ItemFits(f, d[s], x);
      var t := TakeItem(f, d[s], x).value;
      forall i | 0 <= i < |fs| ensures SlotFits(fs[i], d[s := t][fs[i].slot]) {
        if i != x.k && fs[i].slot == s {
          TwoFields(fs, i, x.k);
        }
      }
    }
  }

  /** Whatever the fields on the wire, a decoded message has no more items in an array, no more
      bytes in a string and no larger number than its descriptor has room for. */
  lemma {:induction false} ItemsFit(fs: seq<Field>, d: seq<Slot>, items: seq<Item>)
    requires DescriptorOk(fs) && DefaultsFit(fs) && AllFit(fs, d) && TakeItems(fs, d, items).Some?
    ensures AllFit(fs, TakeItems(fs, d, items).value)
    decreases items, 0
  {
    if items != [] {
      FieldFits(fs, d, items[0]);
      ItemsFit(fs, TakeField(fs, d, items[0]).value, items[1..]);
    }
  }
}
