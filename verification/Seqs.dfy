/** Sequences as lists: filtering by a test, and queues without duplicates. */
module Seqs {

  function FilterTo<T>(s: seq<T>, p: T -> bool, n: nat): (m: seq<T>)
    requires n <= |s|
    ensures |m| <= n
  {
    if n == 0 then []
    else FilterTo(s, p, n - 1) + (if p(s[n - 1]) then [s[n - 1]] else [])
  }

  lemma {:induction false} FilterToMember<T(!new)>(s: seq<T>, p: T -> bool, n: nat, x: T)
    requires n <= |s|
    ensures x in FilterTo(s, p, n) <==> p(x) && exists i :: 0 <= i < n && s[i] == x
  {
    if n > 0 {
      FilterToMember(s, p, n - 1, x);
    }
  }

  /** The elements that pass the test, in order. */
  function Filter<T(!new)>(s: seq<T>, p: T -> bool): (m: seq<T>)
    ensures forall x :: x in m <==> x in s && p(x)
  {
    assert forall x :: x in FilterTo(s, p, |s|) <==> x in s && p(x) by {
      forall x ensures x in FilterTo(s, p, |s|) <==> x in s && p(x) {
        FilterToMember(s, p, |s|, x);
      }
    }
    FilterTo(s, p, |s|)
  }

  lemma {:induction false} FilterToSlice<T>(s: seq<T>, p: T -> bool, lo: nat, hi: nat, n: nat)
    requires lo < hi <= |s| && n <= |s|
    requires forall i :: 0 <= i < |s| ==> (p(s[i]) <==> lo <= i < hi)
    ensures n <= lo ==> FilterTo(s, p, n) == []
    ensures lo <= n <= hi ==> FilterTo(s, p, n) == s[lo..n]
    ensures hi <= n ==> FilterTo(s, p, n) == s[lo..hi]
  {
    if n > 0 {
      FilterToSlice(s, p, lo, hi, n - 1);
      if lo < n <= hi {
        assert s[lo..n] == s[lo..n - 1] + [s[n - 1]];
      }
    }
  }

  /** No element occurs twice. */
  ghost predicate NoDup<T(!new)>(q: seq<T>) {
    forall i, j :: 0 <= i < j < |q| ==> q[i] != q[j]
  }

  lemma {:induction false} FilterToNoDup<T(!new)>(s: seq<T>, p: T -> bool, n: nat)
    requires n <= |s| && NoDup(s)
    ensures NoDup(FilterTo(s, p, n))
  {
    if n > 0 {
      FilterToNoDup(s, p, n - 1);
      FilterToMember(s, p, n - 1, s[n - 1]);
    }
  }

  /** The sequence without the first occurrence of x. */
  function Without<T(==)>(q: seq<T>, x: T): seq<T> {
    if q == [] then [] else if q[0] == x then q[1..] else [q[0]] + Without(q[1..], x)
  }

  lemma {:induction false} WithoutMember<T(!new)>(q: seq<T>, x: T)
    requires NoDup(q)
    ensures NoDup(Without(q, x)) && forall y :: y in Without(q, x) <==> y in q && y != x
    ensures x !in q ==> Without(q, x) == q
  {
    if q != [] {
      var r := q[1..];
      assert forall i :: 0 <= i < |r| ==> r[i] == q[i + 1];
      assert forall y :: y in q <==> y == q[0] || y in r;
      if q[0] == x {
        assert x !in r;
      } else {
        WithoutMember(r, x);
        assert q[0] !in r;
        var w := [q[0]] + Without(r, x);
        assert forall y :: y in w <==> y == q[0] || y in Without(r, x);
        assert x !in q ==> w == q;
      }
    }
  }

  lemma Appended<T(!new)>(q: seq<T>, x: T)
    requires NoDup(q) && x !in q
    ensures NoDup(q + [x]) && forall y :: y in q + [x] <==> y in q || y == x
  {}

  lemma Popped<T(!new)>(q: seq<T>)
    requires NoDup(q) && |q| > 0
    ensures NoDup(q[1..]) && q[0] in q && forall y :: y in q[1..] <==> y in q && y != q[0]
  {
    assert q == [q[0]] + q[1..];
    assert forall i :: 0 <= i < |q[1..]| ==> q[1..][i] == q[i + 1];
  }

  /** x stands before y in the list. */
  ghost predicate StandsBefore<T(!new)>(q: seq<T>, x: T, y: T) {
    exists i, j :: 0 <= i < j < |q| && q[i] == x && q[j] == y
  }

  /** r is of elements of q, in the same order. */
  ghost predicate OrderKept<T(!new)>(q: seq<T>, r: seq<T>) {
    && (forall x {:trigger x in r} :: x in r ==> x in q)
    && forall x, y {:trigger StandsBefore(r, x, y)} :: StandsBefore(r, x, y) ==> StandsBefore(q, x, y)
  }

  lemma {:induction false} WithoutOrder<T(!new)>(q: seq<T>, x: T, i: nat, j: nat)
    requires i < j < |Without(q, x)|
    ensures StandsBefore(q, Without(q, x)[i], Without(q, x)[j])
  {
    if q[0] == x {
      assert q[i + 1] == Without(q, x)[i] && q[j + 1] == Without(q, x)[j];
    } else if i > 0 {
      WithoutOrder(q[1..], x, i - 1, j - 1);
      var a, b :| 0 <= a < b < |q[1..]| && q[1..][a] == Without(q, x)[i] && q[1..][b] == Without(q, x)[j];
      assert q[a + 1] == Without(q, x)[i] && q[b + 1] == Without(q, x)[j];
    } else {
      WithoutIn(q[1..], x, j - 1);
      var b :| 0 <= b < |q[1..]| && q[1..][b] == Without(q, x)[j];
      assert q[0] == Without(q, x)[i] && q[b + 1] == Without(q, x)[j];
    }
  }

  lemma {:induction false} WithoutIn<T(!new)>(q: seq<T>, x: T, i: nat)
    requires i < |Without(q, x)|
    ensures Without(q, x)[i] in q
  {
    if q[0] != x && i > 0 {
      WithoutIn(q[1..], x, i - 1);
    }
  }

  lemma WithoutKeepsOrder<T(!new)>(q: seq<T>, x: T)
    ensures OrderKept(q, Without(q, x))
  {
    forall h | h in Without(q, x) ensures h in q {
      var i :| 0 <= i < |Without(q, x)| && Without(q, x)[i] == h;
      WithoutIn(q, x, i);
    }
    forall g, h | StandsBefore(Without(q, x), g, h) ensures StandsBefore(q, g, h) {
      var i, j :| 0 <= i < j < |Without(q, x)| && Without(q, x)[i] == g && Without(q, x)[j] == h;
      WithoutOrder(q, x, i, j);
    }
  }

  lemma AppendedOrder<T(!new)>(q: seq<T>, x: T, g: T, h: T)
    requires StandsBefore(q + [x], g, h) && x !in q
    ensures StandsBefore(q, g, h) || (h == x && g in q)
  {
    var i, j :| 0 <= i < j < |q + [x]| && (q + [x])[i] == g && (q + [x])[j] == h;
    if j < |q| {
      assert q[i] == g && q[j] == h;
    }
  }

  lemma AcrossTheCut<T(!new)>(q: seq<T>, k: nat, d: T, h: T)
    requires k <= |q| && d in q && d !in q[k..] && h in q[k..]
    ensures StandsBefore(q, d, h)
  {
    assert q == q[..k] + q[k..];
    var i :| 0 <= i < k && q[..k][i] == d;
    var j :| 0 <= j < |q[k..]| && q[k..][j] == h;
    assert q[i] == d && q[k + j] == h;
  }

  lemma TailKeepsOrder<T(!new)>(q: seq<T>)
    requires |q| > 0
    ensures OrderKept(q, q[1..])
  {
    forall x, y | StandsBefore(q[1..], x, y) ensures StandsBefore(q, x, y) {
      var i, j :| 0 <= i < j < |q[1..]| && q[1..][i] == x && q[1..][j] == y;
      assert q[i + 1] == x && q[j + 1] == y;
    }
  }

  lemma ConcatKeepsOrder<T(!new)>(p: seq<T>, p': seq<T>, q: seq<T>, q': seq<T>)
    requires OrderKept(p, p') && OrderKept(q, q')
    ensures OrderKept(p + q, p' + q')
  {
    forall x, y | StandsBefore(p' + q', x, y) ensures StandsBefore(p + q, x, y) {
      var i, j :| 0 <= i < j < |p' + q'| && (p' + q')[i] == x && (p' + q')[j] == y;
      if j < |p'| {
        assert StandsBefore(p', x, y);
        var k, l :| 0 <= k < l < |p| && p[k] == x && p[l] == y;
        assert (p + q)[k] == x && (p + q)[l] == y;
      } else if i >= |p'| {
        assert q'[i - |p'|] == x && q'[j - |p'|] == y;
        assert StandsBefore(q', x, y);
        var k, l :| 0 <= k < l < |q| && q[k] == x && q[l] == y;
        assert (p + q)[|p| + k] == x && (p + q)[|p| + l] == y;
      } else {
        assert x in p' && y in q';
        var k :| 0 <= k < |p| && p[k] == x;
        var l :| 0 <= l < |q| && q[l] == y;
        assert (p + q)[k] == x && (p + q)[|p| + l] == y;
      }
    }
  }

  lemma {:induction false} WithoutSize<T(!new)>(q: seq<T>, x: T)
    ensures |Without(q, x)| <= |q|
  {
    if q != [] && q[0] != x {
      WithoutSize(q[1..], x);
    }
  }
}
