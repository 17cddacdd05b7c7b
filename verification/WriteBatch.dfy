/** Write batches as bytes (db/write_batch.cc): a sequence number, a count, and the
    operations. */
module WriteBatches {
  import opened Coding
  import opened GroupCommit
  import opened Keys
  import opened Slices

  const HEADER := 12

  const TYPE_DELETION := 0
  const TYPE_VALUE := 1

  /** The record of an operation; a deletion has no value. */
  function OpBytes(op: Op): seq<byte> {
    if op.kind == Value then [TYPE_VALUE] + (LengthPrefixed(op.key) + LengthPrefixed(op.value)) else [TYPE_DELETION] + LengthPrefixed(op.key)
  }

  function OpsBytes(ops: seq<Op>): seq<byte> {
    if ops == [] then [] else OpBytes(ops[0]) + OpsBytes(ops[1..])
  }

  predicate OpFits(op: Op) {
    |op.key| < UINT32 && |op.value| < UINT32 && (op.kind == Deletion ==> op.value == [])
  }

  lemma {:induction false} OpsBytesAppend(a: seq<Op>, b: seq<Op>)
    ensures OpsBytes(a + b) == OpsBytes(a) + OpsBytes(b)
  {
    if a == [] {
      assert a + b == b;
    } else {
      assert (a + b)[1..] == a[1..] + b;
      OpsBytesAppend(a[1..], b);
      Regroup(OpBytes(a[0]), OpsBytes(a[1..]), OpsBytes(b));
    }
  }

  lemma OneOp(op: Op)
    ensures OpsBytes([op]) == OpBytes(op)
  {
    assert [op][1..] == [];
  }

  lemma Regroup(a: seq<byte>, b: seq<byte>, c: seq<byte>)
    ensures (a + b) + c == a + (b + c)
  {}

  /** EncodeFixed32 and EncodeFixed64 */
  method EncodeFixed(n: nat, width: nat) returns (b: seq<byte>)
    requires n < Pow256(width)
    ensures |b| == width && FromBytes(b) == n
  {
    b := LittleEndian(n, width);
    FromLittleEndian(n, width);
  }

  ghost predicate Header(rep: seq<byte>, seqno: nat, count: nat) {
    |rep| >= HEADER && FromBytes(rep[..8]) == seqno && FromBytes(rep[8..12]) == count
  }

  /** The records of these operations follow the header. */
  ghost predicate Data(rep: seq<byte>, ops: seq<Op>) {
    |rep| >= HEADER && rep[HEADER..] == OpsBytes(ops) && forall i :: 0 <= i < |ops| ==> OpFits(ops[i])
  }

  /** A batch that holds these operations, with this sequence number. */
  ghost predicate Holds(rep: seq<byte>, seqno: nat, ops: seq<Op>) {
    Header(rep, seqno, |ops|) && Data(rep, ops)
  }

  lemma {:induction false} ZerosAreZero(b: seq<byte>)
    requires forall i :: 0 <= i < |b| ==> b[i] == 0
    ensures FromBytes(b) == 0
  {
    if b != [] {
      ZerosAreZero(b[1..]);
    }
  }

  /** The parts of a batch whose count and operations were replaced. */
  lemma Parts(head: seq<byte>, count: seq<byte>, data: seq<byte>)
    requires |head| == 8 && |count| == 4
    ensures var rep := head + count + data; |rep| >= HEADER && rep[..8] == head && rep[8..12] == count && rep[12..] == data
  {}

  /** One turn of the loop of Iterate: what the handler is given. */
  method NextOp(s: seq<byte>, ghost op: Op, ghost rest: seq<byte>) returns (ok: bool, op': Op, t: seq<byte>)
    requires |s| > 0
    ensures ok ==> |t| < |s|
    ensures s == OpBytes(op) + rest && OpFits(op) ==> ok && op' == op && t == rest
  {
    var tag := s[0];
    t := s[1..];
    op' := Op(Deletion, [], []);
    var key, value;
    if tag == TYPE_VALUE {
      ghost var second := LengthPrefixed(op.value) + rest;
      if s == OpBytes(op) + rest && op.kind == Value {
        assert t == LengthPrefixed(op.key) + second;
      }
      ok, key, t := GetLengthPrefixedSlice(t, op.key, second);
      if ok {
        ok, value, t := GetLengthPrefixedSlice(t, op.value, rest);
        op' := Op(Value, key, value);
      }
    } else if tag == TYPE_DELETION {
      if s == OpBytes(op) + rest && op.kind == Deletion {
        assert t == LengthPrefixed(op.key) + rest;
      }
      ok, key, t := GetLengthPrefixedSlice(t, op.key, rest);
      op' := Op(Deletion, key, []);
    } else {
      ok := false;
    }
  }

  class WriteBatch {
    var rep: seq<byte>

    constructor ()
      ensures Holds(rep, 0, [])
    {
      rep := seq(HEADER, _ => 0);
      new;
      Clear();
    }

    /** Clear: a header of zeros. */
    method Clear()
      modifies this
      ensures Holds(rep, 0, [])
    {
      rep := seq(HEADER, _ => 0);
      ZerosAreZero(rep[..8]);
      ZerosAreZero(rep[8..12]);
    }

    method Count() returns (n: nat)
      requires |rep| >= HEADER
      ensures n == FromBytes(rep[8..12])
    {
      n := FromBytes(rep[8..12]);
    }

    method SetCount(n: nat, ghost seqno: nat, ghost count: nat, ghost ops: seq<Op>)
      requires Header(rep, seqno, count) && Data(rep, ops) && n < UINT32
      modifies this
      ensures Header(rep, seqno, n) && Data(rep, ops)
    {
      Pow256Values();
      var w := EncodeFixed(n, 4);
      Parts(rep[..8], w, rep[HEADER..]);
      rep := rep[..8] + w + rep[HEADER..];
    }

    method SetSequence(seqno: nat, ghost was: nat, ghost ops: seq<Op>)
      requires Holds(rep, was, ops) && seqno < UINT64
      modifies this
      ensures Holds(rep, seqno, ops)
    {
      Pow256Values();
      var w := EncodeFixed(seqno, 8);
      Parts(w, rep[8..12], rep[HEADER..]);
      rep := w + rep[8..12] + rep[HEADER..];
    }

    /** The record of a Put. */
    method PushPut(key: seq<byte>, value: seq<byte>)
      requires |key| < UINT32 && |value| < UINT32
      modifies this
      ensures rep == old(rep) + OpBytes(Op(Value, key, value))
    {
      rep := rep + [TYPE_VALUE];
      rep := PutLengthPrefixedSlice(rep, key);
      rep := PutLengthPrefixedSlice(rep, value);
      Regroup(old(rep) + [TYPE_VALUE], LengthPrefixed(key), LengthPrefixed(value));
      Regroup(old(rep), [TYPE_VALUE], LengthPrefixed(key) + LengthPrefixed(value));
    }

    /** The record of a Delete. */
    method PushDelete(key: seq<byte>)
      requires |key| < UINT32
      modifies this
      ensures rep == old(rep) + OpBytes(Op(Deletion, key, []))
    {
      rep := rep + [TYPE_DELETION];
      rep := PutLengthPrefixedSlice(rep, key);
      Regroup(old(rep), [TYPE_DELETION], LengthPrefixed(key));
    }

    /** Put, with the count raised first; the count of a batch is a signed 32-bit number. */
    method Put(key: seq<byte>, value: seq<byte>, ghost seqno: nat, ghost ops: seq<Op>)
      requires Holds(rep, seqno, ops) && OpFits(Op(Value, key, value)) && |ops| < 0x7FFF_FFFF
      modifies this
      ensures Holds(rep, seqno, ops + [Op(Value, key, value)])
    {
      var n := Count();
      SetCount(n + 1, seqno, n, ops);
      ghost var was := rep;
      PushPut(key, value);
      OneOp(Op(Value, key, value));
      Extended(was, seqno, ops, [Op(Value, key, value)]);
    }

    method Delete(key: seq<byte>, ghost seqno: nat, ghost ops: seq<Op>)
      requires Holds(rep, seqno, ops) && OpFits(Op(Deletion, key, [])) && |ops| < 0x7FFF_FFFF
      modifies this
      ensures Holds(rep, seqno, ops + [Op(Deletion, key, [])])
    {
      var n := Count();
      SetCount(n + 1, seqno, n, ops);
      ghost var was := rep;
      PushDelete(key);
      OneOp(Op(Deletion, key, []));
      Extended(was, seqno, ops, [Op(Deletion, key, [])]);
    }

    /** Append: the other batch's operations follow, and its sequence number is ignored.  The
        other batch may be this one. */
    method Append(source: WriteBatch, ghost seqno: nat, ghost ops: seq<Op>, ghost from: nat, ghost more: seq<Op>)
      requires Holds(rep, seqno, ops) && Holds(source.rep, from, more) && |ops| + |more| <= 0x7FFF_FFFF
      modifies this
      ensures Holds(rep, seqno, ops + more)
    {
      var n := Count();
      var m := source.Count();
      ghost var data := source.rep[HEADER..];
      SetCount(n + m, seqno, n, ops);
      assert source.rep[HEADER..] == data;
      Extended(rep, seqno, ops, more);
      rep := rep + source.rep[HEADER..];
    }

    /** Iterate with the handler that inserts into the memtable: the operations get the
        batch's number and those that follow it.  Whatever the bytes are, an accepted
        batch has given as many entries as its count says. */
    method InsertInto(mem: seq<Entry>, ghost seqno: nat, ghost ops: seq<Op>) returns (ok: bool, mem': seq<Entry>)
      ensures mem <= mem'
      ensures ok ==> |rep| >= HEADER && |mem'| == |mem| + FromBytes(rep[8..12])
      ensures Holds(rep, seqno, ops) ==> ok && mem' == mem + Entries(seqno, ops)
    {
      if |rep| < HEADER {
        return false, mem;
      }
      var found;
      ok, found, mem' := InsertAll(rep[HEADER..], FromBytes(rep[..8]), mem, ops);
      var count := Count();
      ok := ok && found == count;
    }
  }

  /** One operation is given to the handler, which inserts it. */
  method InsertOne(s: seq<byte>, sequence: nat, mem: seq<Entry>, ghost seen: bool, ghost left: seq<Op>, ghost target: seq<Entry>)
    returns (ok: bool, t: seq<byte>, mem': seq<Entry>)
    requires |s| > 0 && (seen ==> Left(s, sequence, left, mem, target))
    ensures mem <= mem' && (ok ==> |t| < |s| && |mem'| == |mem| + 1)
    ensures seen ==> ok && left != [] && Left(t, sequence + 1, left[1..], mem', target)
  {
    ghost var op, rest := Op(Deletion, [], []), [];
    if seen {
      LeftMore(s, sequence, left, mem, target);
      op, rest := left[0], OpsBytes(left[1..]);
    }
    var op';
    ok, op', t := NextOp(s, op, rest);
    mem' := if ok then mem + [Entry(sequence, op')] else mem;
  }

  /** The loop of Iterate. */
  method InsertAll(data: seq<byte>, seqno: nat, mem: seq<Entry>, ghost ops: seq<Op>) returns (ok: bool, found: nat, mem': seq<Entry>)
    ensures mem <= mem' && (ok ==> |mem'| == |mem| + found)
    ensures data == OpsBytes(ops) && (forall i :: 0 <= i < |ops| ==> OpFits(ops[i])) ==> ok && found == |ops| && mem' == mem + Entries(seqno, ops)
  {
    var input, sequence := data, seqno;
    ghost var target, left := mem + Entries(seqno, ops), ops;
    ghost var seen := Left(data, seqno, ops, mem, target);
    ok, found, mem' := true, 0, mem;
    while ok && |input| > 0
      invariant mem <= mem' && (ok ==> |mem'| == |mem| + found)
      invariant seen ==> ok && Left(input, sequence, left, mem', target) && found + |left| == |ops|
      decreases ok, |input|
    {
      found := found + 1;
      ok, input, mem' := InsertOne(input, sequence, mem', seen, left, target);
      sequence := sequence + 1;
      left := if seen then left[1..] else [];
    }
    if seen {
      LeftDone(sequence, left, mem', target);
    }
  }

  lemma LeftDone(sequence: nat, left: seq<Op>, mem: seq<Entry>, target: seq<Entry>)
    requires Left([], sequence, left, mem, target)
    ensures left == [] && mem == target
  {
    assert left != [] ==> |OpsBytes(left)| > 0;
    assert mem + [] == mem;
  }

  /** The operations left are those of the input, and lead to the target. */
  ghost predicate Left(input: seq<byte>, sequence: nat, left: seq<Op>, mem: seq<Entry>, target: seq<Entry>) {
    && input == OpsBytes(left) && mem + Entries(sequence, left) == target
    && forall i :: 0 <= i < |left| ==> OpFits(left[i])
  }

  lemma LeftMore(input: seq<byte>, sequence: nat, left: seq<Op>, mem: seq<Entry>, target: seq<Entry>)
    requires Left(input, sequence, left, mem, target) && input != []
    ensures left != [] && OpFits(left[0]) && input == OpBytes(left[0]) + OpsBytes(left[1..])
    ensures Left(OpsBytes(left[1..]), sequence + 1, left[1..], mem + [Entry(sequence, left[0])], target)
  {
    OneBefore(mem, Entry(sequence, left[0]), Entries(sequence + 1, left[1..]));
  }

  lemma OneBefore(a: seq<Entry>, e: Entry, b: seq<Entry>)
    ensures (a + [e]) + b == a + ([e] + b)
  {}

  /** A batch with more operations at its end, after its count was raised. */
  lemma Extended(rep: seq<byte>, seqno: nat, ops: seq<Op>, more: seq<Op>)
    requires Header(rep, seqno, |ops| + |more|) && Data(rep, ops) && forall i :: 0 <= i < |more| ==> OpFits(more[i])
    ensures Holds(rep + OpsBytes(more), seqno, ops + more)
  {
    OpsBytesAppend(ops, more);
    Pushed(rep, OpsBytes(more));
  }

  lemma Pushed(rep: seq<byte>, x: seq<byte>)
    requires |rep| >= HEADER
    ensures (rep + x)[..8] == rep[..8] && (rep + x)[8..12] == rep[8..12] && (rep + x)[HEADER..] == rep[HEADER..] + x
  {}
}
