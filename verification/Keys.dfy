/** User keys, internal keys and their order (util/comparator.cc, db/dbformat.cc).

    A user key is a byte string and the byte-wise comparator orders byte strings
    lexicographically.  Proofs use `Rank`, an order embedding of the byte strings
    into the real interval [0, 1): `CompareIsRank` shows that the comparator and the
    ranks agree, which turns every order argument into linear arithmetic. */
module Keys {

  type byte = x: int | 0 <= x < 256
  type UserKey = seq<byte>

  datatype Option<+T> = None | Some(value: T)

  // ---------------------------------------------------------------- user keys

  /** Slice::compare from position i on: negative, zero or positive. */
  function CompareFrom(a: UserKey, b: UserKey, i: nat): int
    requires i <= |a| && i <= |b|
    decreases |a| - i
  {
    if i == |a| then (if i == |b| then 0 else -1)
    else if i == |b| then 1
    else if a[i] != b[i] then a[i] - b[i]
    else CompareFrom(a, b, i + 1)
  }

  /** The position of a byte string in the lexicographic order: a fraction in
      base 257, where digit 0 marks the end of the string. */
  ghost function Rank(a: UserKey): (r: real)
    ensures 0.0 <= r < 1.0
    ensures r == 0.0 <==> a == []
  {
    if a == [] then 0.0 else (a[0] as real + 1.0 + Rank(a[1..])) / 257.0
  }

  lemma {:induction false} CompareIsRank(a: UserKey, b: UserKey, i: nat)
    requires i <= |a| && i <= |b|
    ensures CompareFrom(a, b, i) < 0 <==> Rank(a[i..]) < Rank(b[i..])
    ensures CompareFrom(a, b, i) == 0 <==> Rank(a[i..]) == Rank(b[i..])
    ensures CompareFrom(a, b, i) == 0 <==> a[i..] == b[i..]
    decreases |a| - i
  {
    if i < |a| && i < |b| {
      assert a[i..][1..] == a[i + 1..] && b[i..][1..] == b[i + 1..];
      assert a[i..] == [a[i]] + a[i + 1..] && b[i..] == [b[i]] + b[i + 1..];
      if a[i] < b[i] {
        assert a[i] as real + 1.0 <= b[i] as real;
      } else if b[i] < a[i] {
        assert b[i] as real + 1.0 <= a[i] as real;
      } else {
        CompareIsRank(a, b, i + 1);
      }
    }
  }

  /** The comparator's verdict a < b. */
  predicate Less(a: UserKey, b: UserKey)
    ensures Less(a, b) <==> Rank(a) < Rank(b)
  {
    CompareIsRank(a, b, 0);
    assert a[0..] == a && b[0..] == b;
    CompareFrom(a, b, 0) < 0
  }

  /** Distinct keys have distinct ranks, so the order is total. */
  lemma RanksDiffer()
    ensures forall a: UserKey, b: UserKey {:trigger Rank(a), Rank(b)} :: Rank(a) == Rank(b) ==> a == b
  {
    forall a: UserKey, b: UserKey ensures Rank(a) == Rank(b) ==> a == b {
      CompareIsRank(a, b, 0);
      assert a[0..] == a && b[0..] == b;
    }
  }

  // ------------------------------------------------------------ internal keys

  /** kTypeDeletion = 0x0, kTypeValue = 0x1; kTypeValue is also kValueTypeForSeek. */
  datatype Kind = Deletion | Value

  const MAX_SEQUENCE: nat := 0x100_0000_0000_0000 - 1

  datatype IKey = IKey(user: UserKey, seqno: nat, kind: Kind)

  /** PackSequenceAndType. */
  function Tag(k: IKey): nat {
    256 * k.seqno + (if k.kind == Value then 1 else 0)
  }

  /** InternalKeyComparator::Compare(a, b) < 0: user keys ascending, then tags
      descending. */
  predicate ILess(a: IKey, b: IKey) {
    Less(a.user, b.user) || (a.user == b.user && Tag(a) > Tag(b))
  }

  /** InternalKeyComparator::Compare(a, b) <= 0. */
  predicate IAtMost(a: IKey, b: IKey) {
    a == b || ILess(a, b)
  }

  lemma ITotal(a: IKey, b: IKey)
    ensures ILess(a, b) || a == b || ILess(b, a)
    ensures !(ILess(a, b) && ILess(b, a))
    ensures IAtMost(a, b) <==> !ILess(b, a)
  {
    RanksDiffer();
  }
}
