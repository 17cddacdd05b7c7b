/** What the encoder writes, as fields on the wire: decoding them fills in the message. */
module PbItems {
  import opened Keys
  import opened Coding
  import opened PbTypes
  import opened PbCanon
  import opened PbDecode
  import opened PbWire

  /** The number on the wire for a value. */
  function Raw(k: LType, v: Value): nat {
    match v
    case BoolV(b) => if b then 1 else 0
    case NumV(n) => if k.Int? then n % UINT64 else if k.SInt? then ZigZag(n) else if n >= 0 then n else 0
    case _ => 0
  }

  function RawAll(k: LType, values: seq<Value>): (ns: seq<nat>)
    ensures |ns| == |values| && forall i :: 0 <= i < |ns| ==> ns[i] == Raw(k, values[i])
  {
    seq(|values|, i requires 0 <= i < |values| => Raw(k, values[i]))
  }

  ghost function ValueTree(k: LType, v: Value): Tree
    decreases k, 0
  {
    match v
    case MessageV(slots) => if k.Message? then Node(MessageItems(k.fields, slots, 0)) else Number(0)
    case BytesV(b) => Chunk(b)
    case _ => Number(Raw(k, v))
  }

  /** A number that fits its field is what its bytes stand for. */
  lemma NumberIsRead(k: LType, v: Value)
    requires Typed(k, v) && Packable(k)
    ensures RawOk(k, Raw(k, v)) && RawBytes(k, Raw(k, v)) == Payload(k, v) && TakeNumber(k, Raw(k, v)) == Some(v)
  {
    Pow256Values();
    if k.Int? {
      SignedIsRead(k.width, v.n);
    }
  }

  lemma NegativeMod(n: int)
    requires -0x8000_0000_0000_0000 <= n < 0
    ensures n % UINT64 == n + UINT64
    ensures n >= -0x8000_0000 ==> (n + UINT64) % UINT32 == n + UINT32
  {
    assert n + UINT64 == UINT32 * (UINT32 - 1) + (n + UINT32);
  }

  /** Negative numbers are written with 64 bits; the low bits of these are enough. */
  lemma SignedIsRead(width: nat, n: int)
    requires NumberOk(Int(width), n)
    ensures NumberOf(Int(width), n % UINT64) == n && Unsigned(n) == n % UINT64
  {
    Pow256Values();
    if n < 0 {
      NegativeMod(n);
    }
  }

  /** The items of an array that is not packed, from j on, for field i. */
  ghost function ArrayItems(f: Field, i: nat, values: seq<Value>, j: nat): seq<Item>
    decreases f, 0, |values| - j
  {
    if j >= |values| then [] else [Single(i, ValueTree(f.kind, values[j]))] + ArrayItems(f, i, values, j + 1)
  }

  ghost function FieldItems(f: Field, i: nat, s: Slot): seq<Item>
    decreases f, 1
  {
    match s
    case Plain(v) => if Written(f, s) then [Single(i, ValueTree(f.kind, v))] else []
    case Opt(has, v) => if has then [Single(i, ValueTree(f.kind, v))] else []
    case Array(values) =>
      if values == [] then [] else if Packable(f.kind) then [PackedArray(i, RawAll(f.kind, values))] else ArrayItems(f, i, values, 0)
    case Union(which) => if Written(f, s) then [Single(i, ValueTree(f.kind, which.value.1))] else []
  }

  /** The fields from i on. */
  ghost function MessageItems(fs: seq<Field>, m: seq<Slot>, i: nat): seq<Item>
    decreases fs, |fs| - i
  {
    if i >= |fs| then []
    else (if fs[i].slot < |m| then FieldItems(fs[i], i, m[fs[i].slot]) else []) + MessageItems(fs, m, i + 1)
  }

  ghost predicate ValueGood(k: LType, v: Value) {
    Typed(k, v) && Decodable(k, v) && (k.Message? ==> DescriptorOk(k.fields))
  }

  ghost predicate MessageGood(fs: seq<Field>, m: seq<Slot>) {
    DescriptorOk(fs) && TypedMessage(fs, m, 0) && DecodableMessage(fs, m, 0)
  }

  /** A value is read back from its bytes, as its canonical value. */
  lemma {:induction false} TreeOfValue(k: LType, v: Value, start: Value)
    requires ValueGood(k, v) && (k.Message? ==> start == MessageV(Defaults(k.fields, |k.fields|)))
    ensures TreeOk(k, ValueTree(k, v)) && TreeBytes(k, ValueTree(k, v)) == Payload(k, v)
    ensures TakeTree(k, ValueTree(k, v), start) == Some(CanonValue(k, v))
    decreases k, 0
  {
    if k.Message? {
      ItemsOfMessage(k.fields, v.slots);
    } else if Packable(k) {
      NumberIsRead(k, v);
    }
  }

  lemma OneItem(fs: seq<Field>, d: seq<Slot>, x: Item)
    ensures TakeItems(fs, d, [x]) == TakeField(fs, d, x) && ItemsBytes(fs, [x]) == ItemBytes(fs, x)
    ensures ItemOk(fs, x) ==> ItemsOk(fs, [x])
  {
    assert [x][1..] == [];
    var d' := TakeField(fs, d, x);
    assert d'.Some? ==> TakeItems(fs, d'.value, []) == d';
    assert ItemsBytes(fs, []) == [];
  }

  /** A value that is taken, in a place that is a default or an array with room. */
  lemma ValueTaken(f: Field, slot: Slot, x: Item, c: Value)
    requires x.Single? && TakeTree(f.kind, x.t, DefaultValue(f)) == Some(c)
    requires if f.rule.Repeated? then slot.Array? && |slot.items| < f.rule.max else slot == DefaultSlot(f)
    ensures TakeItem(f, slot, x) == Some(
      match f.rule
      case Required | Implicit => Plain(c)
      case Optional => Opt(true, c)
      case Repeated(_) => Array(slot.items + [c])
      case Oneof => Union(Some((f.tag, c))))
  {
    assert TakeValue(f, x, DefaultValue(f)) == Some(c);
  }

  /** A field with one value. */
  lemma {:induction false} OneValue(fs: seq<Field>, d: seq<Slot>, i: nat, s: Slot, v: Value)
    requires i < |fs| && fs[i].slot < |d| && d[fs[i].slot] == DefaultSlot(fs[i]) && FieldOk(fs[i])
    requires TypedSlot(fs[i], s) && DecodableSlot(fs[i], s) && Written(fs[i], s) && !s.Array? && v == ValueOf(s)
    ensures var x := [Single(i, ValueTree(fs[i].kind, v))];
            && ItemsOk(fs, x) && ItemsBytes(fs, x) == FieldBytes(fs[i], s)
            && TakeItems(fs, d, x) == Some(d[fs[i].slot := CanonSlot(fs[i], s)])
    decreases fs[i], 0
  {
    var f := fs[i];
    var x := Single(i, ValueTree(f.kind, v));
    TreeOfValue(f.kind, v, DefaultValue(f));
    ValueTaken(f, d[f.slot], x, CanonValue(f.kind, v));
    OneItem(fs, d, x);
  }

  function ValueOf(s: Slot): Value
    requires !s.Array? && (s.Union? ==> s.which.Some?)
  {
    match s
    case Plain(v) => v
    case Opt(_, v) => v
    case Union(which) => which.value.1
  }

  lemma {:induction false} CanonNumbers(k: LType, items: seq<Value>, n: nat)
    requires Packable(k) && n <= |items|
    ensures CanonItems(k, items, n) == items[..n]
  {
    if n > 0 {
      CanonNumbers(k, items, n - 1);
      assert items[..n] == items[..n - 1] + [items[n - 1]];
    }
  }

  /** Packed numbers are read back. */
  lemma {:induction false} NumbersAreRead(k: LType, values: seq<Value>, n: nat)
    requires Packable(k) && TypedItems(k, values) && n <= |values|
    ensures TakeNumbers(k, RawAll(k, values), n) == Some(values[..n])
  {
    if n > 0 {
      NumbersAreRead(k, values, n - 1);
      assert Typed(k, values[n - 1]);
      NumberIsRead(k, values[n - 1]);
      assert values[..n] == values[..n - 1] + [values[n - 1]];
    }
  }

  lemma {:induction false} NumbersAreWritten(k: LType, values: seq<Value>, i: nat)
    requires Packable(k) && TypedItems(k, values) && i <= |values|
    ensures PackedBytes(k, RawAll(k, values), i) == Packed(k, values, i)
    ensures forall j :: i <= j < |values| ==> RawOk(k, RawAll(k, values)[j])
    decreases |values| - i
  {
    if i < |values| {
      assert Typed(k, values[i]);
      NumberIsRead(k, values[i]);
      NumbersAreWritten(k, values, i + 1);
    }
  }

  lemma PackedFits(f: Field, slot: Slot, x: Item, values: seq<Value>)
    requires x.PackedArray? && slot == Array([]) && f.rule.Repeated? && |x.ns| <= f.rule.max
    requires TakeNumbers(f.kind, x.ns, |x.ns|) == Some(values)
    ensures TakeItem(f, slot, x) == Some(Array(values))
  {
    assert [] + values == values;
  }

  lemma PackedTaken(fs: seq<Field>, d: seq<Slot>, i: nat, values: seq<Value>, ns: seq<nat>)
    requires i < |fs| && fs[i].slot < |d| && d[fs[i].slot] == Array([]) && fs[i].rule.Repeated? && |ns| <= fs[i].rule.max
    requires TakeNumbers(fs[i].kind, ns, |ns|) == Some(values)
    ensures TakeItems(fs, d, [PackedArray(i, ns)]) == Some(d[fs[i].slot := Array(values)])
  {
    var x := PackedArray(i, ns);
    OneItem(fs, d, x);
    PackedFits(fs[i], d[fs[i].slot], x, values);
  }

  lemma PackedWritten(fs: seq<Field>, i: nat, ns: seq<nat>)
    requires i < |fs| && PackedOk(fs[i], ns)
    ensures ItemsOk(fs, [PackedArray(i, ns)])
    ensures ItemsBytes(fs, [PackedArray(i, ns)]) == FieldTag(WT_STRING, fs[i].tag) + Delimited(PackedBytes(fs[i].kind, ns, 0))
  {
    OneItem(fs, [], PackedArray(i, ns));
  }

  lemma PackedItem(fs: seq<Field>, d: seq<Slot>, i: nat, values: seq<Value>)
    requires i < |fs| && fs[i].slot < |d| && d[fs[i].slot] == Array([])
    requires TypedSlot(fs[i], Array(values)) && DecodableSlot(fs[i], Array(values)) && values != [] && Packable(fs[i].kind)
    ensures var x := [PackedArray(i, RawAll(fs[i].kind, values))];
            && ItemsOk(fs, x) && ItemsBytes(fs, x) == FieldBytes(fs[i], Array(values))
            && TakeItems(fs, d, x) == Some(d[fs[i].slot := CanonSlot(fs[i], Array(values))])
  {
    CanonNumbers(fs[i].kind, values, |values|);
    NumbersAreRead(fs[i].kind, values, |values|);
    NumbersAreWritten(fs[i].kind, values, 0);
    assert values[..|values|] == values;
    PackedTaken(fs, d, i, values, RawAll(fs[i].kind, values));
    PackedWritten(fs, i, RawAll(fs[i].kind, values));
  }

  /** The items of an array, one field each. */
  lemma {:induction false} ItemsOfArray(fs: seq<Field>, d: seq<Slot>, i: nat, values: seq<Value>, j: nat)
    requires i < |fs| && fs[i].slot < |d| && j <= |values| && FieldOk(fs[i])
    requires TypedSlot(fs[i], Array(values)) && DecodableSlot(fs[i], Array(values)) && !Packable(fs[i].kind)
    requires d[fs[i].slot] == Array(CanonItems(fs[i].kind, values, j))
    ensures var xs := ArrayItems(fs[i], i, values, j);
            && ItemsOk(fs, xs) && ItemsBytes(fs, xs) == TaggedValues(fs[i], values, j)
            && TakeItems(fs, d, xs) == Some(d[fs[i].slot := Array(CanonItems(fs[i].kind, values, |values|))])
    decreases fs[i], 1, |values| - j
  {
    var f := fs[i];
    if j == |values| {
      assert d[f.slot := d[f.slot]] == d;
    } else {
      assert Typed(f.kind, values[j]) && Decodable(f.kind, values[j]);
      TreeOfValue(f.kind, values[j], DefaultValue(f));
      var x, rest := Single(i, ValueTree(f.kind, values[j])), ArrayItems(f, i, values, j + 1);
      var d' := d[f.slot := Array(CanonItems(f.kind, values, j + 1))];
      assert CanonItems(f.kind, values, j + 1) == CanonItems(f.kind, values, j) + [CanonValue(f.kind, values[j])];
      ValueTaken(f, d[f.slot], x, CanonValue(f.kind, values[j]));
      OneItem(fs, d, x);
      assert TakeField(fs, d, x) == Some(d');
      ItemsOfArray(fs, d', i, values, j + 1);
      Join(fs, d, [x], rest);
      assert TaggedValues(f, values, j) == TaggedValue(f, values[j]) + TaggedValues(f, values, j + 1);
      assert d'[f.slot := Array(CanonItems(f.kind, values, |values|))] == d[f.slot := Array(CanonItems(f.kind, values, |values|))];
    }
  }

  lemma Join(fs: seq<Field>, d: seq<Slot>, a: seq<Item>, b: seq<Item>)
    requires ItemsOk(fs, a) && ItemsOk(fs, b) && TakeItems(fs, d, a).Some?
    ensures ItemsOk(fs, a + b) && ItemsBytes(fs, a + b) == ItemsBytes(fs, a) + ItemsBytes(fs, b)
    ensures TakeItems(fs, d, a + b) == TakeItems(fs, TakeItems(fs, d, a).value, b)
  {
    BytesOfBoth(fs, a, b);
    TakeBoth(fs, d, a, b);
    forall i | 0 <= i < |a + b| ensures ItemOk(fs, (a + b)[i]) {
      assert if i < |a| then ItemOk(fs, a[i]) else ItemOk(fs, b[i - |a|]);
    }
  }

  /** What is written for field i, decoded after the fields before it. */
  lemma {:induction false} ItemsOfField(fs: seq<Field>, m: seq<Slot>, i: nat)
    requires MessageGood(fs, m) && i < |fs|
    ensures fs[i].slot < |m|
    ensures var xs := FieldItems(fs[i], i, m[fs[i].slot]);
            && ItemsOk(fs, xs) && ItemsBytes(fs, xs) == FieldBytes(fs[i], m[fs[i].slot])
            && TakeItems(fs, Filled(fs, m, i), xs) == Some(Filled(fs, m, i + 1))
    decreases fs, 0
  {
    TypedAt(fs, m, 0, i);
    DecodableAt(fs, m, 0, i);
    FilledAt(fs, m, i, i);
    var f, s, d := fs[i], m[fs[i].slot], Filled(fs, m, i);
    assert FieldOk(f);
    if !Written(f, s) {
      assert ItemsBytes(fs, []) == [] && TakeItems(fs, d, []) == Some(d);
    } else if !s.Array? {
      OneValue(fs, d, i, s, ValueOf(s));
    } else if Packable(f.kind) {
      PackedItem(fs, d, i, s.items);
    } else {
      ItemsOfArray(fs, d, i, s.items, 0);
    }
  }

  lemma {:induction false} DecodableAt(fs: seq<Field>, m: seq<Slot>, i: nat, j: nat)
    requires DecodableMessage(fs, m, i) && i <= j < |fs|
    ensures fs[j].slot < |m| && DecodableSlot(fs[j], m[fs[j].slot])
    decreases |fs| - i
  {
    if i < j {
      DecodableAt(fs, m, i + 1, j);
    }
  }

  lemma {:induction false} ItemsFrom(fs: seq<Field>, m: seq<Slot>, i: nat)
    requires MessageGood(fs, m) && i <= |fs|
    ensures var xs := MessageItems(fs, m, i);
            && ItemsOk(fs, xs) && ItemsBytes(fs, xs) == MessageBytes(fs, m, i)
            && TakeItems(fs, Filled(fs, m, i), xs) == Some(Filled(fs, m, |fs|))
    decreases fs, 1, |fs| - i
  {
    if i < |fs| {
      ItemsOfField(fs, m, i);
      ItemsFrom(fs, m, i + 1);
      var a, b := FieldItems(fs[i], i, m[fs[i].slot]), MessageItems(fs, m, i + 1);
      Join(fs, Filled(fs, m, i), a, b);
      assert MessageItems(fs, m, i) == a + b;
    }
  }

  lemma {:induction false} RequiredIsWritten(fs: seq<Field>, m: seq<Slot>, i: nat, k: nat)
    requires TypedMessage(fs, m, 0) && i <= k < |fs| && fs[k].rule == Required
    ensures Mentions(MessageItems(fs, m, i), k)
    decreases |fs| - i
  {
    TypedAt(fs, m, 0, i);
    var a, b := FieldItems(fs[i], i, m[fs[i].slot]), MessageItems(fs, m, i + 1);
    MentionsBoth(a, b, k);
    if i == k {
      assert IsFor(a[0], k);
    } else {
      RequiredIsWritten(fs, m, i + 1, k);
    }
  }

  /** The bytes of a message are fields whose decoding gives the message. */
  lemma {:induction false} ItemsOfMessage(fs: seq<Field>, m: seq<Slot>)
    requires MessageGood(fs, m)
    ensures var xs := MessageItems(fs, m, 0);
            && ItemsOk(fs, xs) && ItemsBytes(fs, xs) == MessageBytes(fs, m, 0)
            && TakeAll(fs, Defaults(fs, |fs|), xs) == Some(Filled(fs, m, |fs|))
    decreases fs, 2
  {
    ItemsFrom(fs, m, 0);
    forall k | 0 <= k < |fs| && Checked(fs, k) ensures Mentions(MessageItems(fs, m, 0), k) {
      RequiredIsWritten(fs, m, 0, k);
    }
  }
}
