/** Decoding whole messages (pb_decode_noinit and the field decoders of pb_decode.c): the
    result is what PbWire says the fields on the wire mean. */
module PbMessages {
  import opened Coding
  import opened Keys
  import opened PbTypes
  import opened PbCanon
  import opened PbDecode
  import opened PbWire

  /** The stream starts with this value. */
  ghost predicate Ahead(s: seq<byte>, k: LType, t: Tree, rest: seq<byte>) {
    TreeOk(k, t) && s == TreeBytes(k, t) + rest && |s| < UINT32
  }

  /** Where a value is decoded into; an item of an array starts from defaults. */
  function Begin(k: LType, dest: Value, item: bool): Value {
    if k.Message? && item then MessageV(Defaults(k.fields, |k.fields|)) else dest
  }

  /** PB_DECODERS; submessages that are no items go on from what is there. */
  method DecodeValue(s: seq<byte>, k: LType, dest: Value, item: bool, ghost v: Tree, ghost rest: seq<byte>)
    returns (ok: bool, r: Value, t: seq<byte>)
    ensures ok ==> |t| < |s|
    ensures Ahead(s, k, v, rest) ==> (ok <==> TakeTree(k, v, Begin(k, dest, item)).Some?)
    ensures Ahead(s, k, v, rest) && ok ==> Some(r) == TakeTree(k, v, Begin(k, dest, item)) && t == rest
    decreases k, 0
  {
    r := dest;
    ghost var n0, b0 := if v.Number? then v.n else 0, if v.Chunk? then v.b else [];
    match k {
      case Bool =>
        var b;
        ok, b, t := DecodeBool(s, n0, rest);
        r := BoolV(b);
      case Bytes(c) =>
        var b;
        ok, b, t := DecodeBytes(s, c, b0, rest);
        r := BytesV(b);
      case Text(c) =>
        var b;
        ok, b, t := DecodeBytes(s, c - 1, b0, rest);
        r := BytesV(b);
      case FixedBytes(l) =>
        var b;
        ok, b, t := DecodeFixedBytes(s, l, b0, rest);
        r := BytesV(b);
      case Message(fs) =>
        ghost var items := if v.Node? then v.items else [];
        var sub;
        ok, sub, t := Substream(s, ItemsBytes(fs, items), rest);
        if ok {
          var slots;
          ok, slots := DecodeNoinit(sub, fs, SlotsOf(fs, Begin(k, dest, item)), items);
          r := MessageV(slots);
        }
      case _ =>
        var n;
        ok, n, t := DecodeNumber(s, k, n0, rest);
        r := NumV(n);
    }
  }

  ghost predicate PackedAhead(s: seq<byte>, f: Field, ns: seq<nat>, rest: seq<byte>) {
    PackedOk(f, ns) && |s| < UINT32 && s == Delimited(PackedBytes(f.kind, ns, 0)) + rest
  }

  /** The first j numbers have been taken. */
  ghost predicate Packing(f: Field, items0: seq<Value>, ns: seq<nat>, r: seq<Value>, sub: seq<byte>, j: nat) {
    && PackedOk(f, ns) && j <= |ns| && |sub| < UINT32 && sub == PackedBytes(f.kind, ns, j)
    && TakeNumbers(f.kind, ns, j).Some? && r == items0 + TakeNumbers(f.kind, ns, j).value
  }

  /** A packed array, onto what is there: numbers until the substream ends. */
  method DecodePacked(s: seq<byte>, f: Field, items0: seq<Value>, ghost ns: seq<nat>, ghost rest: seq<byte>)
    returns (ok: bool, r: seq<Value>, t: seq<byte>)
    requires f.rule.Repeated? && Packable(f.kind) && |items0| <= f.rule.max
    ensures ok ==> |t| < |s|
    ensures PackedAhead(s, f, ns, rest) ==> (ok <==> |items0| + |ns| <= f.rule.max && TakeNumbers(f.kind, ns, |ns|).Some?)
    ensures PackedAhead(s, f, ns, rest) && ok ==> r == items0 + TakeNumbers(f.kind, ns, |ns|).value && t == rest
    decreases f.kind, 1
  {
    var sub;
    ghost var seen := PackedAhead(s, f, ns, rest);
    ok, sub, t := Substream(s, PackedBytes(f.kind, ns, 0), rest);
    r := items0;
    if !ok {
      return;
    }
    ghost var j := 0;
    while |sub| > 0 && |r| < f.rule.max
      invariant ok && |sub| < |s| && |r| <= f.rule.max
      invariant seen ==> Packing(f, items0, ns, r, sub, j)
      decreases |sub|
    {
      var v;
      ghost var next, after := Number(0), [];
      if seen {
        next, after := NextPacked(f, items0, ns, r, sub, j);
      }
      ok, v, sub := DecodeValue(sub, f.kind, f.initial, true, next, after);
      if !ok {
        if seen {
          OneFails(f.kind, ns, j, |ns|);
        }
        break;
      }
      if seen {
        OnePacked(f, items0, ns, r, j, v);
      }
      r := r + [v];
      j := j + 1;
    }
    if |sub| != 0 {
      ok := false;
    }
  }

  /** While bytes are left, so are numbers. */
  lemma NextPacked(f: Field, items0: seq<Value>, ns: seq<nat>, r: seq<Value>, sub: seq<byte>, j: nat) returns (next: Tree, after: seq<byte>)
    requires Packing(f, items0, ns, r, sub, j) && |sub| > 0
    ensures j < |ns| && next == Number(ns[j]) && after == PackedBytes(f.kind, ns, j + 1) && Ahead(sub, f.kind, next, after)
    ensures TakeTree(f.kind, next, f.initial) == TakeNumber(f.kind, ns[j])
  {
    next, after := Number(ns[j]), PackedBytes(f.kind, ns, j + 1);
  }

  lemma OnePacked(f: Field, items0: seq<Value>, ns: seq<nat>, r: seq<Value>, j: nat, v: Value)
    requires Packing(f, items0, ns, r, PackedBytes(f.kind, ns, j), j) && j < |ns| && TakeNumber(f.kind, ns[j]) == Some(v)
    requires |PackedBytes(f.kind, ns, j + 1)| < UINT32
    ensures Packing(f, items0, ns, r + [v], PackedBytes(f.kind, ns, j + 1), j + 1)
  {
    assert TakeNumbers(f.kind, ns, j + 1) == Some(TakeNumbers(f.kind, ns, j).value + [v]);
  }

  /** The stream starts with what this field has behind its tag. */
  ghost predicate Here(s: seq<byte>, wireType: nat, f: Field, x: Item, rest: seq<byte>) {
    && |s| < UINT32 && s == BodyBytes(f, x) + rest && wireType == WireTypeOf(f, x)
    && match x
       case Single(_, t) => TreeOk(f.kind, t)
       case PackedArray(_, ns) => PackedOk(f, ns)
       case Unknown(_, _, _, _) => false
  }

  /** decode_static_field */
  method DecodeField(s: seq<byte>, wireType: nat, f: Field, slot: Slot, ghost x: Item, ghost rest: seq<byte>)
    returns (ok: bool, r: Slot, t: seq<byte>)
    ensures ok ==> |t| < |s|
    ensures Here(s, wireType, f, x, rest) ==> (ok <==> TakeItem(f, slot, x).Some?)
    ensures Here(s, wireType, f, x, rest) && ok ==> Some(r) == TakeItem(f, slot, x) && t == rest
    decreases f, 0
  {
    ghost var v := if x.Single? then x.t else Number(0);
    r, t, ok := slot, s, false;
    var c;
    match (f.rule, slot) {
      case (Required, Plain(old')) =>
        ok, c, t := DecodeValue(s, f.kind, old', false, v, rest);
        r := Plain(c);
      case (Implicit, Plain(old')) =>
        ok, c, t := DecodeValue(s, f.kind, old', false, v, rest);
        r := Plain(c);
      case (Optional, Opt(_, old')) =>
        ok, c, t := DecodeValue(s, f.kind, old', false, v, rest);
        r := Opt(true, c);
      case (Repeated(max), Array(items)) =>
        if wireType == WT_STRING && Packable(f.kind) {
          if |items| > max {
            return;
          }
          var packed;
          ok, packed, t := DecodePacked(s, f, items, if x.PackedArray? then x.ns else [], rest);
          r := Array(packed);
        } else {
          if |items| >= max {
            return;
          }
          ok, c, t := DecodeValue(s, f.kind, DefaultValue(f), true, v, rest);
          r := Array(items + [c]);
        }
      case (Oneof, Union(which)) =>
        var start := if which.Some? && which.value.0 == f.tag then which.value.1 else DefaultValue(f);
        ok, c, t := DecodeValue(s, f.kind, start, false, v, rest);
        r := Union(Some((f.tag, c)));
      case _ =>
    }
  }

  // -------------------------------------------------------- the main loop

  /** What is left of the stream are these fields. */
  ghost predicate Left(fs: seq<Field>, s: seq<byte>, left: seq<Item>) {
    DescriptorOk(fs) && ItemsOk(fs, left) && s == ItemsBytes(fs, left) && |s| < UINT32
  }

  /** The bits of the required fields, after these fields. */
  ghost predicate SeenIn(fs: seq<Field>, seen: seq<bool>, done: seq<Item>) {
    |seen| == 64 && forall k {:trigger Mentions(done, k)} :: 0 <= k < |fs| && Checked(fs, k) ==> (seen[RequiredCount(fs, k)] <==> Mentions(done, k))
  }

  lemma {:induction false} CountGrows(fs: seq<Field>, i: nat, j: nat)
    requires i < j <= |fs| && fs[i].rule == Required
    ensures RequiredCount(fs, i) < RequiredCount(fs, j)
    decreases j
  {
    if i < j - 1 {
      CountGrows(fs, i, j - 1);
    }
  }

  /** Every number below the count belongs to a required field. */
  lemma {:induction false} RequiredIndex(fs: seq<Field>, n: nat, i: nat) returns (k: nat)
    requires i <= |fs| && n < RequiredCount(fs, i)
    ensures k < i && fs[k].rule == Required && RequiredCount(fs, k) == n
  {
    if n < RequiredCount(fs, i - 1) {
      k := RequiredIndex(fs, n, i - 1);
    } else {
      k := i - 1;
    }
  }

  /** A field that is for field k of the descriptor sets the bit of k alone. */
  lemma SeenMore(fs: seq<Field>, seen: seq<bool>, seen': seq<bool>, done: seq<Item>, x: Item)
    requires SeenIn(fs, seen, done) && (!x.Unknown? ==> x.k < |fs|)
    requires seen' == if !x.Unknown? && Checked(fs, x.k) then seen[RequiredCount(fs, x.k) := true] else seen
    ensures SeenIn(fs, seen', done + [x])
  {
    forall k | 0 <= k < |fs| && Checked(fs, k) ensures seen'[RequiredCount(fs, k)] <==> Mentions(done + [x], k) {
      MentionsBoth(done, [x], k);
      assert Mentions([x], k) <==> IsFor([x][0], k);
      if !x.Unknown? && x.k != k && Checked(fs, x.k) {
        CountGrows(fs, if k < x.k then k else x.k, if k < x.k then x.k else k);
      }
    }
  }

  /** The check at the end finds out whether all required fields are there. */
  lemma CheckIsRight(fs: seq<Field>, seen: seq<bool>, items: seq<Item>, required: nat)
    requires SeenIn(fs, seen, items)
    requires required == if RequiredCount(fs, |fs|) > 64 then 64 else RequiredCount(fs, |fs|)
    ensures (forall r :: 0 <= r < required ==> seen[r]) <==> AllSeen(fs, items)
  {
    if forall r :: 0 <= r < required ==> seen[r] {
      forall k | 0 <= k < |fs| && Checked(fs, k) ensures Mentions(items, k) {
        CountGrows(fs, k, |fs|);
      }
    }
    if AllSeen(fs, items) {
      forall r | 0 <= r < required ensures seen[r] {
        var k := RequiredIndex(fs, r, |fs|);
        assert Checked(fs, k) && Mentions(items, k);
      }
    }
  }

  lemma Associates(a: seq<byte>, b: seq<byte>, c: seq<byte>)
    ensures (a + b) + c == a + (b + c)
  {}

  lemma TagIsWritten(wireType: nat, tag: nat)
    ensures |FieldTag(wireType, tag)| > 0
  {}

  /** The next field, and what stands behind its tag. */
  lemma NextItem(fs: seq<Field>, s: seq<byte>, left: seq<Item>) returns (x: Item, wireType: nat, tag: nat, body: seq<byte>, rest: seq<byte>)
    requires Left(fs, s, left) && left != []
    ensures x == left[0] && ItemOk(fs, x) && rest == ItemsBytes(fs, left[1..]) && Left(fs, rest, left[1..])
    ensures s == FieldTag(wireType, tag) + (body + rest) && wireType < 8 && 1 <= tag < 0x2000_0000 && |body + rest| < UINT32
    ensures if x.Unknown? then wireType == x.wireType && tag == x.tag && body == Body(wireType, x.n, x.b)
            else wireType == WireTypeOf(fs[x.k], x) && tag == fs[x.k].tag && body == BodyBytes(fs[x.k], x)
  {
    x, rest := left[0], ItemsBytes(fs, left[1..]);
    assert ItemOk(fs, left[0]);
    forall i | 0 <= i < |left[1..]| ensures ItemOk(fs, left[1..][i]) {
      assert ItemOk(fs, left[i + 1]);
    }
    if x.Unknown? {
      wireType, tag, body := x.wireType, x.tag, Body(x.wireType, x.n, x.b);
    } else {
      assert FieldOk(fs[x.k]);
      wireType, tag, body := WireTypeOf(fs[x.k], x), fs[x.k].tag, BodyBytes(fs[x.k], x);
    }
    assert ItemBytes(fs, x) == FieldTag(wireType, tag) + body;
    Associates(FieldTag(wireType, tag), body, rest);
  }

  datatype Progress = More | Ended | Failed

  /** A turn of the loop of pb_decode_noinit, without extensions. */
  method DecodeNext(s: seq<byte>, fs: seq<Field>, d: seq<Slot>, iter: Iter, seen: seq<bool>, ghost done: seq<Item>, ghost left: seq<Item>)
    returns (p: Progress, t: seq<byte>, d': seq<Slot>, iter': Iter, seen': seq<bool>)
    requires IterOk(fs, iter) && |seen| == 64 && |s| > 0
    ensures IterOk(fs, iter') && |seen'| == 64 && (p == More ==> |t| < |s|)
    ensures Left(fs, s, left) ==> left != [] && (p == More || p == Failed) && (p == More <==> TakeField(fs, d, left[0]).Some?)
    ensures Left(fs, s, left) && p == More ==> Some(d') == TakeField(fs, d, left[0]) && Left(fs, t, left[1..])
    ensures Left(fs, s, left) && p == More && SeenIn(fs, seen, done) ==> SeenIn(fs, seen', done + [left[0]])
    decreases fs, 0
  {
    d', iter', seen', p := d, iter, seen, Failed;
    ghost var good := Left(fs, s, left);
    ghost var x, wt0, tag0, body, rest := Unknown(1, 0, 0, []), 0, 1, [], [];
    if good {
      assert left != [];
      x, wt0, tag0, body, rest := NextItem(fs, s, left);
    }
    var more, eof, wireType, tag, found;
    more, eof, wireType, tag, t := DecodeTag(s, wt0, tag0, body + rest);
    if !more {
      p := if eof then Ended else Failed;
      return;
    }
    found, iter' := Find(fs, iter, tag);
    if good {
      FoundIs(fs, x, tag, found, iter'.pos);
    }
    if !found {
      more, t := SkipField(t, wireType, if x.Unknown? then x.n else 0, if x.Unknown? then x.b else [], rest);
      p := if more then More else Failed;
      if good && SeenIn(fs, seen, done) {
        SeenMore(fs, seen, seen', done, x);
      }
      return;
    }
    var f := fs[iter'.pos];
    if f.rule == Required && iter'.required < 64 {
      seen' := seen[iter'.required := true];
    }
    if good && SeenIn(fs, seen, done) {
      SeenMore(fs, seen, seen', done, x);
    }
    if f.slot >= |d| {
      return;
    }
    var slot;
    more, slot, t := DecodeField(t, wireType, f, d[f.slot], x, rest);
    if more {
      d', p := d[f.slot := slot], More;
    }
  }

  /** The tag leads to the field of the descriptor, and a field that is unknown to none. */
  lemma FoundIs(fs: seq<Field>, x: Item, tag: nat, found: bool, pos: nat)
    requires DescriptorOk(fs) && ItemOk(fs, x) && tag == if x.Unknown? then x.tag else fs[x.k].tag
    requires found ==> pos < |fs| && fs[pos].tag == tag
    requires !found ==> forall j :: 0 <= j < |fs| ==> fs[j].tag != tag
    ensures found <==> !x.Unknown?
    ensures found ==> pos == x.k
  {
    if !x.Unknown? && pos != x.k {
      assert found;
      TwoFields(fs, pos, x.k);
    }
  }

  /** pb_decode_noinit: a loop over the tags of the stream, and the check that every
      required field was seen. */
  method DecodeNoinit(s: seq<byte>, fs: seq<Field>, dest: seq<Slot>, ghost items: seq<Item>) returns (ok: bool, d: seq<Slot>)
    ensures Left(fs, s, items) ==> (ok <==> TakeAll(fs, dest, items).Some?)
    ensures Left(fs, s, items) && ok ==> Some(d) == TakeAll(fs, dest, items)
    decreases fs, 1
  {
    d := dest;
    var t, iter, seen := s, Iter(0, 0), seq(64, _ => false);
    ghost var good, done, left := Left(fs, s, items), [], items;
    while |t| > 0
      invariant IterOk(fs, iter) && |seen| == 64
      invariant good ==> Left(fs, t, left) && items == done + left && SeenIn(fs, seen, done)
      invariant good ==> TakeItems(fs, dest, items) == TakeItems(fs, d, left)
      decreases |t|
    {
      var p;
      p, t, d, iter, seen := DecodeNext(t, fs, d, iter, seen, done, left);
      if p == Failed {
        return false, d;
      }
      if p == Ended {
        break;
      }
      if good {
        assert done + left == done + [left[0]] + left[1..];
        done, left := done + [left[0]], left[1..];
      }
    }
    if good {
      NothingLeft(fs, left);
      assert done + [] == done;
    }
    var required := CountRequired(fs, iter);
    if required > 64 {
      required := 64;
    }
    ok := forall r :: 0 <= r < required ==> seen[r];
    if good {
      CheckIsRight(fs, seen, items, required);
    }
  }

  lemma NothingLeft(fs: seq<Field>, left: seq<Item>)
    requires Left(fs, [], left)
    ensures left == []
  {
    if left != [] {
      var x, wireType, tag, body, rest := NextItem(fs, [], left);
      TagIsWritten(wireType, tag);
    }
  }

  /** pb_decode: the same, from default values. */
  method Decode(s: seq<byte>, fs: seq<Field>, ghost items: seq<Item>) returns (ok: bool, d: seq<Slot>)
    ensures Left(fs, s, items) ==> (ok <==> TakeAll(fs, Defaults(fs, |fs|), items).Some?)
    ensures Left(fs, s, items) && ok ==> Some(d) == TakeAll(fs, Defaults(fs, |fs|), items)
  {
    ok, d := DecodeNoinit(s, fs, Defaults(fs, |fs|), items);
  }
}
