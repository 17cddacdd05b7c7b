/** What a message on the wire means to the decoder, whoever wrote it: fields may come in
    any order and more than once, and the descriptor need not know all of them. */
module PbWire {
  import opened Keys
  import opened PbTypes
  import opened PbCanon
  import opened PbDecode

  /** A value on the wire: a number, a string of bytes, or a submessage, which is a list of
      fields. */
  datatype Tree = Number(n: nat) | Chunk(b: seq<byte>) | Node(items: seq<Item>)

  /** A field on the wire: a value or a packed array of numbers for field k of the
      descriptor, or a field that the descriptor does not know. */
  datatype Item = Single(k: nat, t: Tree) | PackedArray(k: nat, ns: seq<nat>) | Unknown(tag: nat, wireType: nat, n: nat, b: seq<byte>)

  // ------------------------------------------------------------------- bytes

  ghost function TreeBytes(k: LType, t: Tree): seq<byte>
    decreases t
  {
    match t
    case Number(n) => RawBytes(k, n)
    case Chunk(b) => Delimited(b)
    case Node(items) => if k.Message? then Delimited(ItemsBytes(k.fields, items)) else []
  }

  /** Packed numbers from i on, one after the other. */
  ghost function PackedBytes(k: LType, ns: seq<nat>, i: nat): seq<byte>
    decreases |ns| - i
  {
    if i >= |ns| then [] else RawBytes(k, ns[i]) + PackedBytes(k, ns, i + 1)
  }

  /** What follows the tag of a field that is known. */
  ghost function BodyBytes(f: Field, x: Item): seq<byte>
    decreases x, 0
  {
    match x
    case Single(_, t) => TreeBytes(f.kind, t)
    case PackedArray(_, ns) => Delimited(PackedBytes(f.kind, ns, 0))
    case Unknown(_, wireType, n, b) => Body(wireType, n, b)
  }

  ghost function WireTypeOf(f: Field, x: Item): nat {
    match x
    case Single(_, _) => WireType(f.kind)
    case PackedArray(_, _) => WT_STRING
    case Unknown(_, wireType, _, _) => wireType
  }

  ghost function ItemBytes(fs: seq<Field>, x: Item): seq<byte>
    decreases x, 1
  {
    if x.Unknown? then FieldTag(x.wireType, x.tag) + Body(x.wireType, x.n, x.b)
    else if x.k < |fs| then FieldTag(WireTypeOf(fs[x.k], x), fs[x.k].tag) + BodyBytes(fs[x.k], x)
    else []
  }

  ghost function ItemsBytes(fs: seq<Field>, items: seq<Item>): seq<byte>
    decreases items
  {
    if items == [] then [] else ItemBytes(fs, items[0]) + ItemsBytes(fs, items[1..])
  }

  // --------------------------------------------------------------- well-formed

  ghost predicate ChunkOk(k: LType, b: seq<byte>) {
    k.Bytes? || (k.Text? && 0 !in b) || k.FixedBytes?
  }

  ghost predicate TreeOk(k: LType, t: Tree)
    decreases t
  {
    match t
    case Number(n) => RawOk(k, n)
    case Chunk(b) => ChunkOk(k, b)
    case Node(items) => k.Message? && DescriptorOk(k.fields) && ItemsOk(k.fields, items)
  }

  /** A known field has a value of its wire type, a packed array is for a field that can be
      packed; an unknown one can be skipped. */
  ghost predicate ItemOk(fs: seq<Field>, x: Item)
    decreases x
  {
    match x
    case Single(k, t) => k < |fs| && TreeOk(fs[k].kind, t)
    case PackedArray(k, ns) => k < |fs| && PackedOk(fs[k], ns)
    case Unknown(tag, wireType, _, b) =>
      1 <= tag < 0x2000_0000 && wireType < 8 && BodyOk(wireType, b) && forall j :: 0 <= j < |fs| ==> fs[j].tag != tag
  }

  ghost predicate PackedOk(f: Field, ns: seq<nat>) {
    f.rule.Repeated? && Packable(f.kind) && forall i :: 0 <= i < |ns| ==> RawOk(f.kind, ns[i])
  }

  ghost predicate ItemsOk(fs: seq<Field>, items: seq<Item>)
    decreases items
  {
    forall i {:trigger ItemOk(fs, items[i])} :: 0 <= i < |items| ==> ItemOk(fs, items[i])
  }

  // ---------------------------------------------------------------- its meaning

  /** A number must fit its field. */
  ghost function TakeNumber(k: LType, n: nat): Option<Value> {
    if k.Bool? then Some(BoolV(n != 0))
    else if NumberOk(k, NumberOf(k, n)) then Some(NumV(NumberOf(k, n)))
    else None
  }

  /** The first n numbers of a packed array. */
  ghost function TakeNumbers(k: LType, ns: seq<nat>, n: nat): (r: Option<seq<Value>>)
    requires n <= |ns|
    ensures r.Some? ==> |r.value| == n
  {
    if n == 0 then Some([])
    else
      match (TakeNumbers(k, ns, n - 1), TakeNumber(k, ns[n - 1]))
      case (Some(vs), Some(v)) => Some(vs + [v])
      case _ => None
  }

  lemma {:induction false} OneFails(k: LType, ns: seq<nat>, i: nat, n: nat)
    requires i < n <= |ns| && TakeNumber(k, ns[i]) == None
    ensures TakeNumbers(k, ns, n) == None
  {
    if i < n - 1 {
      OneFails(k, ns, i, n - 1);
    }
  }

  /** Bytes and strings must have room; no bytes stand for zeros where the length is
      fixed. */
  ghost function TakeChunk(k: LType, b: seq<byte>): Option<Value> {
    match k
    case Bytes(c) => if |b| <= c then Some(BytesV(b)) else None
    case Text(c) => if |b| < c then Some(BytesV(b)) else None
    case FixedBytes(l) => if |b| == l then Some(BytesV(b)) else if b == [] then Some(BytesV(Zeros(l))) else None
    case _ => None
  }

  /** A submessage goes on from what is there already. */
  ghost function TakeTree(k: LType, t: Tree, start: Value): Option<Value>
    decreases t
  {
    match t
    case Number(n) => TakeNumber(k, n)
    case Chunk(b) => TakeChunk(k, b)
    case Node(items) =>
      if !k.Message? then None
      else
        match TakeAll(k.fields, SlotsOf(k.fields, start), items)
        case None => None
        case Some(d) => Some(MessageV(d))
  }

  function SlotsOf(fs: seq<Field>, v: Value): seq<Slot> {
    if v.MessageV? then v.slots else Defaults(fs, |fs|)
  }

  /** What a field makes of the place it is decoded into: the last value of a single field
      counts, arrays grow as far as they can, a union changes sides. */
  ghost function TakeItem(f: Field, slot: Slot, x: Item): Option<Slot>
    requires !x.Unknown?
    decreases x, 1
  {
    match (f.rule, slot)
    case (Required, Plain(old')) => PlainOf(TakeValue(f, x, old'))
    case (Implicit, Plain(old')) => PlainOf(TakeValue(f, x, old'))
    case (Optional, Opt(_, old')) => (match TakeValue(f, x, old') case None => None case Some(v) => Some(Opt(true, v)))
    case (Repeated(max), Array(items)) =>
      if x.PackedArray? then
        var vs := TakeNumbers(f.kind, x.ns, |x.ns|);
        if |items| + |x.ns| <= max && vs.Some? then Some(Array(items + vs.value)) else None
      else if |items| >= max then None
      else (match TakeValue(f, x, DefaultValue(f)) case None => None case Some(v) => Some(Array(items + [v])))
    case (Oneof, Union(which)) =>
      var start := if which.Some? && which.value.0 == f.tag then which.value.1 else DefaultValue(f);
      (match TakeValue(f, x, start) case None => None case Some(v) => Some(Union(Some((f.tag, v)))))
    case _ => None
  }

  ghost function PlainOf(v: Option<Value>): Option<Slot> {
    match v
    case None => None
    case Some(w) => Some(Plain(w))
  }

  ghost function TakeValue(f: Field, x: Item, start: Value): Option<Value>
    decreases x, 0
  {
    if x.Single? then TakeTree(f.kind, x.t, start) else None
  }

  ghost function TakeField(fs: seq<Field>, d: seq<Slot>, x: Item): Option<seq<Slot>>
    decreases x, 2
  {
    if x.Unknown? then Some(d)
    else if x.k < |fs| && fs[x.k].slot < |d| then
      match TakeItem(fs[x.k], d[fs[x.k].slot], x)
      case None => None
      case Some(s) => Some(d[fs[x.k].slot := s])
    else None
  }

  /** One field after the other. */
  ghost function TakeItems(fs: seq<Field>, d: seq<Slot>, items: seq<Item>): Option<seq<Slot>>
    decreases items, 0
  {
    if items == [] then Some(d)
    else
      match TakeField(fs, d, items[0])
      case None => None
      case Some(d') => TakeItems(fs, d', items[1..])
  }

  ghost predicate Mentions(items: seq<Item>, k: nat) {
    exists i :: 0 <= i < |items| && IsFor(items[i], k)
  }

  predicate IsFor(x: Item, k: nat) {
    !x.Unknown? && x.k == k
  }

  /** The first 64 required fields are all there. */
  ghost predicate AllSeen(fs: seq<Field>, items: seq<Item>) {
    forall k {:trigger Mentions(items, k)} :: 0 <= k < |fs| && Checked(fs, k) ==> Mentions(items, k)
  }

  ghost predicate Checked(fs: seq<Field>, k: nat)
    requires k < |fs|
  {
    fs[k].rule == Required && RequiredCount(fs, k) < 64
  }

  /** The message, if it can be decoded. */
  ghost function TakeAll(fs: seq<Field>, d: seq<Slot>, items: seq<Item>): Option<seq<Slot>>
    decreases items, 1
  {
    if AllSeen(fs, items) then TakeItems(fs, d, items) else None
  }

  // ------------------------------------------------------------ what it implies

  lemma {:induction false} TakeBoth(fs: seq<Field>, d: seq<Slot>, a: seq<Item>, b: seq<Item>)
    ensures TakeItems(fs, d, a + b) == match TakeItems(fs, d, a) { case None => None case Some(d') => TakeItems(fs, d', b) }
    decreases a
  {
    if a == [] {
      assert a + b == b;
    } else {
      assert (a + b)[1..] == a[1..] + b;
      var d' := TakeField(fs, d, a[0]);
      if d'.Some? {
        TakeBoth(fs, d'.value, a[1..], b);
      }
    }
  }

  lemma {:induction false} BytesOfBoth(fs: seq<Field>, a: seq<Item>, b: seq<Item>)
    ensures ItemsBytes(fs, a + b) == ItemsBytes(fs, a) + ItemsBytes(fs, b)
    decreases a
  {
    if a == [] {
      assert a + b == b;
    } else {
      assert (a + b)[1..] == a[1..] + b;
      BytesOfBoth(fs, a[1..], b);
    }
  }

  /** The same without the fields that are unknown, at every depth. */
  ghost function StripTree(t: Tree): Tree
    decreases t
  {
    match t
    case Node(items) => Node(Strip(items))
    case _ => t
  }

  ghost function StripItem(x: Item): Item
    decreases x
  {
    if x.Single? then Single(x.k, StripTree(x.t)) else x
  }

  ghost function Strip(items: seq<Item>): seq<Item>
    decreases items
  {
    if items == [] then [] else (if items[0].Unknown? then [] else [StripItem(items[0])]) + Strip(items[1..])
  }

  lemma {:induction false} StripMentions(items: seq<Item>, k: nat)
    ensures Mentions(Strip(items), k) <==> Mentions(items, k)
    decreases items
  {
    if items != [] {
      var x, rest := items[0], items[1..];
      StripMentions(rest, k);
      var head := if x.Unknown? then [] else [StripItem(x)];
      MentionsBoth([x], rest, k);
      MentionsBoth(head, Strip(rest), k);
      assert [x] + rest == items;
      assert Mentions([x], k) <==> IsFor([x][0], k);
      assert !x.Unknown? ==> (Mentions(head, k) <==> IsFor(head[0], k));
    }
  }

  lemma MentionsBoth(a: seq<Item>, b: seq<Item>, k: nat)
    ensures Mentions(a + b, k) <==> Mentions(a, k) || Mentions(b, k)
  {
    if i :| 0 <= i < |a| && IsFor(a[i], k) {
      assert (a + b)[i] == a[i];
    }
    if i :| 0 <= i < |b| && IsFor(b[i], k) {
      assert (a + b)[|a| + i] == b[i];
    }
  }

  lemma {:induction false} StripTakesTree(k: LType, t: Tree, start: Value)
    ensures TakeTree(k, StripTree(t), start) == TakeTree(k, t, start)
    decreases t, 0
  {
    if t.Node? && k.Message? {
      UnknownIsSkipped(k.fields, SlotsOf(k.fields, start), t.items);
    }
  }

  lemma {:induction false} StripTakesItems(fs: seq<Field>, d: seq<Slot>, items: seq<Item>)
    ensures TakeItems(fs, d, Strip(items)) == TakeItems(fs, d, items)
    decreases items, 0
  {
    if items != [] {
      var x, rest := items[0], items[1..];
      if !x.Unknown? {
        StripTakesField(fs, d, x);
        assert ([StripItem(x)] + Strip(rest))[1..] == Strip(rest);
      } else {
        assert [] + Strip(rest) == Strip(rest);
      }
      var d' := TakeField(fs, d, x);
      if d'.Some? {
        StripTakesItems(fs, d'.value, rest);
      }
    }
  }

  lemma {:induction false} StripTakesField(fs: seq<Field>, d: seq<Slot>, x: Item)
    requires !x.Unknown?
    ensures TakeField(fs, d, StripItem(x)) == TakeField(fs, d, x)
    decreases x, 1
  {
    if x.Single? {
      assert StripItem(x) == Single(x.k, StripTree(x.t));
      if x.k < |fs| && fs[x.k].slot < |d| {
        StripTakesItem(fs[x.k], d[fs[x.k].slot], x);
      }
    } else {
      assert StripItem(x) == x;
    }
  }

  lemma {:induction false} StripTakesItem(f: Field, slot: Slot, x: Item)
    requires x.Single?
    ensures TakeItem(f, slot, Single(x.k, StripTree(x.t))) == TakeItem(f, slot, x)
    decreases x, 0
  {
    forall start ensures TakeValue(f, Single(x.k, StripTree(x.t)), start) == TakeValue(f, x, start) {
      StripTakesTree(f.kind, x.t, start);
    }
  }

  /** Fields that the descriptor does not know change nothing, whether in the message or in
      its submessages. */
  lemma {:induction false} UnknownIsSkipped(fs: seq<Field>, d: seq<Slot>, items: seq<Item>)
    ensures TakeAll(fs, d, Strip(items)) == TakeAll(fs, d, items)
    decreases items, 1
  {
    StripTakesItems(fs, d, items);
    forall k | 0 <= k < |fs| ensures Mentions(Strip(items), k) <==> Mentions(items, k) {
      StripMentions(items, k);
    }
  }

  /** Fields with places of their own may change places. */
  lemma OrderIsFree(fs: seq<Field>, d: seq<Slot>, a: seq<Item>, x: Item, y: Item, b: seq<Item>)
    requires x.Unknown? || y.Unknown? || (x.k < |fs| && y.k < |fs| && fs[x.k].slot != fs[y.k].slot)
    ensures TakeAll(fs, d, a + [x, y] + b) == TakeAll(fs, d, a + [y, x] + b)
  {
    forall k: nat ensures Mentions(a + [x, y] + b, k) <==> Mentions(a + [y, x] + b, k) {
      MentionsBoth(a + [x, y], b, k);
      MentionsBoth(a + [y, x], b, k);
      MentionsBoth(a, [x, y], k);
      MentionsBoth(a, [y, x], k);
      assert [x, y][0] == x && [x, y][1] == y && [y, x][0] == y && [y, x][1] == x;
    }
    TakeBoth(fs, d, a + [x, y], b);
    TakeBoth(fs, d, a + [y, x], b);
    TakeBoth(fs, d, a, [x, y]);
    TakeBoth(fs, d, a, [y, x]);
    var e := TakeItems(fs, d, a);
    if e.Some? {
      TwoTaken(fs, e.value, x, y);
      TwoTaken(fs, e.value, y, x);
      Commute(fs, e.value, x, y);
    }
  }

  lemma TwoTaken(fs: seq<Field>, d: seq<Slot>, x: Item, y: Item)
    ensures TakeItems(fs, d, [x, y]) == match TakeField(fs, d, x) { case None => None case Some(d') => TakeField(fs, d', y) }
  {
    assert [x, y][1..] == [y] && [y][1..] == [];
    var d' := TakeField(fs, d, x);
    if d'.Some? {
      assert TakeItems(fs, d'.value, [y]) == match TakeField(fs, d'.value, y) { case None => None case Some(e) => TakeItems(fs, e, [y][1..]) };
    }
  }

  lemma Commute(fs: seq<Field>, d: seq<Slot>, x: Item, y: Item)
    requires x.Unknown? || y.Unknown? || (x.k < |fs| && y.k < |fs| && fs[x.k].slot != fs[y.k].slot)
    ensures (match TakeField(fs, d, x) { case None => None case Some(d') => TakeField(fs, d', y) })
         == (match TakeField(fs, d, y) { case None => None case Some(d') => TakeField(fs, d', x) })
  {
    if !x.Unknown? && !y.Unknown? {
      var i, j := fs[x.k].slot, fs[y.k].slot;
      if i < |d| && j < |d| {
        var s, t := TakeItem(fs[x.k], d[i], x), TakeItem(fs[y.k], d[j], y);
        if s.Some? && t.Some? {
          assert d[i := s.value][j := t.value] == d[j := t.value][i := s.value];
        }
      }
    }
  }
}
