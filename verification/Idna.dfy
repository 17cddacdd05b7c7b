/** The Punycode encoder of libuv (src/idna.c), over decoded code points. */
module Idna {
  import opened Keys
  import opened Punycode

  const UINT32 := 0x1_0000_0000
  const BAD := 0xFFFF_FFFF

  type uint32 = n: nat | n < UINT32

  /** What uv__idna_toascii_label returns: UV_EINVAL, UV_E2BIG, or the bytes written. */
  datatype Outcome = Invalid | TooBig | Ascii(text: seq<nat>)

  // ------------------------------------------ what the decoder has so far

  /** The code points of s[..e] that are below n, or equal to n and before index j. */
  ghost function Part(s: seq<nat>, n: nat, j: nat, e: nat): (r: seq<nat>)
    requires e <= |s|
    ensures |r| <= e
  {
    if e == 0 then []
    else if s[e - 1] < n || (s[e - 1] == n && e - 1 < j) then Part(s, n, j, e - 1) + [s[e - 1]]
    else Part(s, n, j, e - 1)
  }

  lemma {:induction false} PartPrefix(s: seq<nat>, n: nat, j: nat, a: nat, e: nat)
    requires a <= e <= |s|
    ensures Part(s, n, j, a) <= Part(s, n, j, e)
  {
    if a < e {
      PartPrefix(s, n, j, a, e - 1);
    }
  }

  /** Counting all code points means having them all. */
  lemma {:induction false} PartFull(s: seq<nat>, n: nat, j: nat, e: nat)
    requires e <= |s| && |Part(s, n, j, e)| == e
    ensures Part(s, n, j, e) == s[..e]
  {
    if e > 0 {
      PartFull(s, n, j, e - 1);
      assert s[..e] == s[..e - 1] + [s[e - 1]];
    }
  }

  /** Moving j past an index changes nothing unless n stands there. */
  lemma {:induction false} PartSkip(s: seq<nat>, n: nat, j: nat, e: nat)
    requires e <= |s| && j < |s| && (s[j] != n || e <= j)
    ensures Part(s, n, j + 1, e) == Part(s, n, j, e)
  {
    if e > 0 {
      PartSkip(s, n, j, e - 1);
    }
  }

  /** When n stands at j, it is inserted where the code points before j end. */
  lemma {:induction false} PartInsert(s: seq<nat>, n: nat, j: nat, e: nat)
    requires j < e <= |s| && s[j] == n
    ensures var p := |Part(s, n, j, j)|;
            p <= |Part(s, n, j, e)| && Part(s, n, j + 1, e) == Part(s, n, j, e)[..p] + [n] + Part(s, n, j, e)[p..]
  {
    PartSkip(s, n, j, j);
    PartPrefix(s, n, j, j, e);
    if e > j + 1 {
      PartPrefix(s, n, j, j, e - 1);
      PartInsert(s, n, j, e - 1);
    }
  }

  /** Between two occurring code points nothing changes. */
  lemma {:induction false} PartRaise(s: seq<nat>, n: nat, m: nat, e: nat)
    requires e <= |s| && n <= m && forall i :: 0 <= i < e ==> s[i] < n || m <= s[i]
    ensures Part(s, m, 0, e) == Part(s, n, 0, e)
  {
    if e > 0 {
      PartRaise(s, n, m, e - 1);
    }
  }

  lemma {:induction false} PartNext(s: seq<nat>, n: nat, e: nat)
    requires e <= |s|
    ensures Part(s, n + 1, 0, e) == Part(s, n, |s|, e)
  {
    if e > 0 {
      PartNext(s, n, e - 1);
    }
  }

  // ---------------------------------------------------------- the encoder

  ghost predicate AllBasic(s: seq<nat>) {
    forall i :: 0 <= i < |s| ==> s[i] < INITIAL_N
  }

  /** The variables of the encoder; `out` is what follows "xn--". */
  datatype Vars = Vars(h: nat, bias: nat, delta: nat, todo: nat, first: bool, out: seq<nat>)

  /** The basic code points, followed by a delimiter if there are any. */
  ghost function Head(s: seq<nat>): seq<nat> {
    var basic := Part(s, INITIAL_N, 0, |s|);
    if basic == [] then [] else basic + [DELIMITER]
  }

  ghost function Start(s: seq<nat>): State {
    State(INITIAL_N, 0, INITIAL_BIAS, Part(s, INITIAL_N, 0, |s|))
  }

  /** What has been written after the head makes the decoder reach `st`. */
  ghost predicate Decodes(s: seq<nat>, out: seq<nat>, st: State) {
    && Head(s) <= out && (forall i :: |Head(s)| <= i < |out| ==> out[i] != DELIMITER && out[i] < INITIAL_N)
    && Run(Place, Start(s), out, |Head(s)|) == Some(st)
  }

  /** The distance, in the decoder's walk, from its state to the slot of s[j] at n. */
  ghost function Distance(s: seq<nat>, st: State, n: nat, j: nat): int
    requires j <= |s|
  {
    (n - st.n) * (|st.output| + 1) + |Part(s, n, j, j)| - st.i
  }

  /** Encoder and decoder are in step before index j of the pass for n. */
  ghost predicate InStep(s: seq<nat>, v: Vars, st: State, n: nat, j: nat) {
    && j <= |s| && st.n <= n && st.output == Part(s, n, j, |s|)
    && v.h == |st.output| && v.h + v.todo == |s| && v.bias == st.bias && v.first == (st.i == 0)
    && INITIAL_N <= st.n && v.delta == Distance(s, st, n, j)
    && Decodes(s, v.out, st)
  }

  /** The digits written so far, and q still to write. */
  ghost function Amount(ds: seq<nat>, q: nat, bias: nat): nat {
    Total(ds, bias) + q * Weight(|ds|, bias)
  }

  ghost predicate Splits(q: nat, t: nat, digit: nat, rest: nat) {
    t <= digit < BASE && rest < q && digit + rest * (BASE - t) == q
  }

  lemma AmountStep(ds: seq<nat>, q: nat, bias: nat, digit: nat, rest: nat)
    requires Splits(q, Threshold(BASE * (|ds| + 1), bias), digit, rest)
    ensures Amount(ds + [digit], rest, bias) == Amount(ds, q, bias)
  {
    var y, w := BASE - Threshold(BASE * (|ds| + 1), bias), Weight(|ds|, bias);
    assert (ds + [digit])[..|ds|] == ds;
    calc {
      digit * w + rest * (w * y);
      digit * w + (rest * y) * w;
      (digit + rest * y) * w;
      q * w;
    }
  }

  lemma AmountEnd(ds: seq<nat>, q: nat, bias: nat)
    ensures Total(ds + [q], bias) == Amount(ds, q, bias)
  {
    assert (ds + [q])[..|ds|] == ds;
  }

  /** More digits follow: none is below its threshold. */
  ghost predicate Leading(ds: seq<nat>, bias: nat) {
    forall j {:trigger ds[j]} :: 0 <= j < |ds| ==> Threshold(BASE * (j + 1), bias) <= ds[j] < BASE
  }

  ghost predicate Emitted(out: seq<nat>, out': seq<nat>, ds: seq<nat>) {
    out <= out' && |out'| == |out| + |ds| && SpelledAt(out', |out|, ds)
  }

  lemma EmitOne(out: seq<nat>, out': seq<nat>, ds: seq<nat>, d: nat)
    requires Emitted(out, out', ds) && d < BASE
    ensures Emitted(out, out' + [Digit(d)], ds + [d])
  {}

  lemma LeadOne(ds: seq<nat>, d: nat, bias: nat)
    requires Leading(ds, bias) && d < BASE
    ensures Threshold(BASE * (|ds| + 1), bias) <= d ==> Leading(ds + [d], bias)
    ensures d < Threshold(BASE * (|ds| + 1), bias) ==> Whole(ds + [d], bias)
  {}

  /** One turn of the digit loop: the digit for threshold t, and what remains. */
  method SplitDigit(q: uint32, t: nat) returns (digit: nat, rest: uint32)
    requires TMIN <= t <= TMAX && t <= q
    ensures Splits(q, t, digit, rest)
  {
    var x, y := q - t, 36 - t;
    var a, b := x / y, x % y;
    assert a * y + b == x;
    assert a <= a * y;
    rest, digit := a, t + b;
  }

  method ThresholdOf(k: nat, bias: nat) returns (t: nat)
    ensures t == Threshold(k, bias)
  {
    t := 1;
    if k > bias {
      t := k - bias;
    }
    if t > 26 {
      t := 26;
    }
  }

  /** The digit loop: delta as a generalized variable-length integer, which the decoder
      reads back from where it begins. */
  method EmitInteger(out: seq<nat>, delta: uint32, bias: uint32) returns (out': seq<nat>, ghost ds: seq<nat>)
    ensures Emitted(out, out', ds) && Whole(ds, bias) && Total(ds, bias) == delta
    ensures out <= out' && ReadDigits(out', |out|, 0, bias) == Some(ds) && |out'| == |out| + |ds|
  {
    out', ds := out, [];
    var k, q: uint32 := BASE, delta;
    while true
      invariant k == BASE * (|ds| + 1) && Amount(ds, q, bias) == delta
      invariant Leading(ds, bias) && Emitted(out, out', ds)
      decreases q
    {
      var t := ThresholdOf(k, bias);
      if q < t {
        break;
      }
      var digit;
      ghost var was := q;
      digit, q := SplitDigit(q, t);
      AmountStep(ds, was, bias, digit, q);
      EmitOne(out, out', ds, digit);
      LeadOne(ds, digit, bias);
      out', ds := out' + [Digit(digit)], ds + [digit];
      k := k + 36;
    }
    AmountEnd(ds, q, bias);
    EmitOne(out, out', ds, q);
    LeadOne(ds, q, bias);
    out', ds := out' + [Digit(q)], ds + [q];
    ReadsWhole(out', |out|, ds, 0, bias);
    assert ds[0..] == ds;
  }

  lemma QuotientFits(a: nat, h: nat)
    requires h > 0
    ensures a / h <= a
  {
    var q, r := a / h, a % h;
    assert a == q * h + r;
    Grows(q, h);
  }

  lemma {:induction false} Grows(q: nat, h: nat)
    requires h > 0
    ensures q <= q * h
  {
    if q > 0 {
      Grows(q - 1, h);
      assert q * h == (q - 1) * h + h;
    }
  }

  method Halve(delta: uint32, first: bool) returns (d: uint32)
    ensures d == if first then delta / DAMP else delta / 2
    ensures d <= 0x7FFF_FFFF
  {
    d := delta / 2;
    if first {
      d := d / 350;
    }
  }

  /** The bias update is the adaptation of section 6.1; halving leaves room for the sum. */
  method AdaptBias(delta: uint32, h: uint32, first: bool) returns (bias: uint32)
    requires h > 0
    ensures bias == Adapt(delta, h, first)
  {
    var d := Halve(delta, first);
    QuotientFits(d, h);
    bias := ReduceBias(d + d / h);
  }

  method ReduceBias(delta0: uint32) returns (bias: uint32)
    ensures bias == Reduce(delta0, 0)
  {
    var delta: uint32 := delta0;
    bias := 0;
    while delta > 35 * 26 / 2
      invariant Reduce(delta, bias) == Reduce(delta0, 0) && bias + delta <= delta0
    {
      delta := delta / 35;
      bias := bias + 36;
    }
    bias := bias + 36 * delta / (delta + 38);
  }

  // ---------------------------------------------- encoder and decoder in step

  lemma FewerTurns(a: nat, b: nat, len: nat, x: nat)
    requires x < len
    ensures a < b ==> a * len + x < b * len
  {
    if a < b {
      Grows(len, b - a);
      assert b * len == a * len + (b - a) * len;
    }
  }

  /** p slots into the given turn. */
  lemma TurnsAndSlots(turns: nat, len: nat, p: nat)
    requires p < len
    ensures (turns * len + p) / len == turns && (turns * len + p) % len == p
  {
    var i := turns * len + p;
    assert i == i / len * len + i % len;
    FewerTurns(i / len, turns, len, i % len);
    FewerTurns(turns, i / len, len, p);
  }

  /** The decoder inserts n where the encoder found it. */
  lemma PlacesAt(s: seq<nat>, st: State, ds: seq<nat>, n: nat, j: nat)
    requires j < |s| && s[j] == n && st.n <= n && st.output == Part(s, n, j, |s|)
    requires Total(ds, st.bias) == Distance(s, st, n, j)
    ensures var p := |Part(s, n, j, j)|;
            Place(st, ds) == State(n, p + 1, Adapt(Total(ds, st.bias), |st.output| + 1, st.i == 0), Part(s, n, j + 1, |s|))
  {
    PartInsert(s, n, j, |s|);
    TurnsAndSlots(n - st.n, |st.output| + 1, |Part(s, n, j, j)|);
  }

  lemma StepBelow(s: seq<nat>, v: Vars, st: State, n: nat, j: nat)
    requires InStep(s, v, st, n, j) && j < |s| && s[j] < n
    ensures InStep(s, v.(delta := v.delta + 1), st, n, j + 1)
  {
    PartSkip(s, n, j, |s|);
    PartSkip(s, n, j, j);
  }

  lemma StepAbove(s: seq<nat>, v: Vars, st: State, n: nat, j: nat)
    requires InStep(s, v, st, n, j) && j < |s| && s[j] > n
    ensures InStep(s, v, st, n, j + 1)
  {
    PartSkip(s, n, j, |s|);
    PartSkip(s, n, j, j);
  }

  lemma DecodesOneMore(s: seq<nat>, out: seq<nat>, st: State, out': seq<nat>, ds: seq<nat>)
    requires Decodes(s, out, st) && Emitted(out, out', ds) && Whole(ds, st.bias)
    ensures Decodes(s, out', Place(st, ds))
  {
    RunsOneMore(Place, Start(s), out, out', |Head(s)|, ds);
    forall i | |Head(s)| <= i < |out'| ensures out'[i] != DELIMITER && out'[i] < INITIAL_N {
      if i >= |out| {
        assert ds[i - |out|] < BASE && out'[|out| + (i - |out|)] == Digit(ds[i - |out|]);
      }
    }
  }

  lemma StepInsert(s: seq<nat>, v: Vars, st: State, n: nat, j: nat, out': seq<nat>, ds: seq<nat>)
    requires InStep(s, v, st, n, j) && j < |s| && s[j] == n && v.todo > 0
    requires Emitted(v.out, out', ds) && Whole(ds, v.bias) && Total(ds, v.bias) == v.delta
    ensures InStep(s, Vars(v.h + 1, Adapt(v.delta, v.h + 1, v.first), 0, v.todo - 1, false, out'), Place(st, ds), n, j + 1)
    ensures Place(st, ds).n == n
  {
    PlacesAt(s, st, ds, n, j);
    PartInsert(s, n, j, |s|);
    PartSkip(s, n, j, j);
    DecodesOneMore(s, v.out, st, out', ds);
  }

  lemma StepPass(s: seq<nat>, v: Vars, st: State, n: nat)
    requires InStep(s, v, st, n, |s|)
    ensures InStep(s, v.(delta := v.delta + 1), st, n + 1, 0)
  {
    PartNext(s, n, |s|);
    assert (n + 1 - st.n) * (v.h + 1) == (n - st.n) * (v.h + 1) + v.h + 1;
  }

  lemma StepRaise(s: seq<nat>, v: Vars, st: State, n: nat, m: nat, delta: int)
    requires InStep(s, v, st, n, 0) && n <= m && forall i :: 0 <= i < |s| ==> s[i] < n || m <= s[i]
    requires delta == v.delta + (m - n) * (v.h + 1)
    ensures delta >= 0 && InStep(s, v.(delta := delta), st, m, 0)
  {
    PartRaise(s, n, m, |s|);
    TimesAtMost(0, 0, m - n, v.h + 1);
    assert (m - st.n) * (v.h + 1) == (n - st.n) * (v.h + 1) + (m - n) * (v.h + 1);
  }

  /** While code points remain, one of them is n or above. */
  lemma {:induction false} PartMissing(s: seq<nat>, n: nat, e: nat)
    requires e <= |s| && |Part(s, n, 0, e)| < e
    ensures exists i :: 0 <= i < e && s[i] >= n
  {
    if s[e - 1] < n {
      PartMissing(s, n, e - 1);
    }
  }

  lemma {:induction false} PartBelow(s: seq<nat>, n: nat, e: nat)
    requires e <= |s|
    ensures forall i :: 0 <= i < |Part(s, n, 0, e)| ==> Part(s, n, 0, e)[i] < n
  {
    if e > 0 {
      PartBelow(s, n, e - 1);
    }
  }

  /** The decoder finds the head of the output before the last delimiter. */
  lemma FindsHead(s: seq<nat>, out: seq<nat>, st: State)
    requires Decodes(s, out, st)
    ensures Decode(out) == Some(st.output)
  {
    var basic, d := Part(s, INITIAL_N, 0, |s|), LastDelimiter(out, |out|);
    PartBelow(s, INITIAL_N, |s|);
    if basic == [] {
      assert d == None;
    } else {
      assert out[|basic|] == DELIMITER by {
        assert Head(s)[|basic|] == DELIMITER;
      }
      assert d == Some(|basic|);
      assert out[..|basic|] == basic;
    }
  }

  lemma OutputIsBasic(s: seq<nat>, out: seq<nat>, st: State)
    requires Decodes(s, out, st)
    ensures AllBasic(out)
  {
    PartBelow(s, INITIAL_N, |s|);
    forall i | 0 <= i < |out| ensures out[i] < INITIAL_N {
      if i < |Head(s)| {
        assert out[i] == Head(s)[i];
      }
    }
  }

  lemma InStepAtEnd(s: seq<nat>, v: Vars, st: State, n: nat)
    requires InStep(s, v, st, n, 0) && v.todo == 0
    ensures Decode(v.out) == Some(s) && AllBasic(v.out)
  {
    PartFull(s, n, 0, |s|);
    assert s[..|s|] == s;
    FindsHead(s, v.out, st);
    OutputIsBasic(s, v.out, st);
  }

  // ------------------------------------------------------ when it is too big

  const MAX_POINT := 0x10_FFFF

  /** Up to this many Unicode code points the distance fits 32 bits. */
  const SAFE_LENGTH := 3855

  lemma {:induction false} TimesAtMost(a: nat, b: nat, a': nat, b': nat)
    requires a <= a' && b <= b'
    ensures a * b <= a' * b'
  {
    assert a * b <= a * b' by {
      assert a * b' == a * b + a * (b' - b);
    }
    assert a' * b' == a * b' + (a' - a) * b';
  }

  lemma DistanceFits(s: seq<nat>, st: State, n: nat, j: nat)
    requires j <= |s| <= SAFE_LENGTH && INITIAL_N <= st.n <= n <= MAX_POINT
    requires |st.output| < |s| || st.n == n
    ensures Distance(s, st, n, j) < UINT32
  {
    if st.n < n {
      TimesAtMost(n - st.n, |st.output| + 1, MAX_POINT - INITIAL_N, SAFE_LENGTH);
    }
  }

  // -------------------------------------------------------------- the label

  /** No overflow is reported for such labels. */
  predicate Modest(s: seq<nat>) {
    |s| <= SAFE_LENGTH && forall i :: 0 <= i < |s| ==> s[i] <= MAX_POINT
  }

  /** The basic code points are copied first. */
  method CopyBasic(s: seq<uint32>, h: nat) returns (out: seq<nat>)
    requires h == |Part(s, INITIAL_N, 0, |s|)|
    ensures out == Part(s, INITIAL_N, 0, |s|)
  {
    out := [];
    var x := 0;
    for i := 0 to |s|
      invariant out == Part(s, INITIAL_N, 0, i) && x == |out| && (h > 0 ==> x < h)
    {
      PartPrefix(s, INITIAL_N, 0, i + 1, |s|);
      if s[i] > 127 {
        continue;
      }
      out := out + [s[i]];
      x := x + 1;
      if x == h {
        return;
      }
    }
  }

  /** The next code point to insert: the least one not below n. */
  method NextPoint(s: seq<uint32>, n: nat) returns (m: uint32)
    requires exists i :: 0 <= i < |s| && s[i] >= n
    requires BAD !in s
    ensures n <= m < BAD && m in s && forall i :: 0 <= i < |s| ==> s[i] < n || m <= s[i]
    ensures Modest(s) ==> m <= MAX_POINT
  {
    m := BAD;
    for i := 0 to |s|
      invariant m == BAD || (m in s && n <= m < BAD)
      invariant forall k :: 0 <= k < i ==> s[k] < n || m <= s[k]
    {
      if s[i] >= n && s[i] < m {
        m := s[i];
      }
    }
  }

  /** What the passes keep besides the step: 32-bit variables. */
  ghost predicate Narrow(v: Vars) {
    v.delta < UINT32 && v.bias < UINT32
  }

  function Increment(x: uint32): uint32 {
    if x == 0xFFFF_FFFF then 0 else x + 1
  }

  /** A smaller code point only lengthens the way. */
  method VisitBelow(s: seq<uint32>, v: Vars, n: uint32, j: nat, ghost st: State) returns (ok: bool, v': Vars)
    requires InStep(s, v, st, n, j) && Narrow(v) && j < |s| && s[j] < n && (v.todo == 0 ==> st.n == n)
    ensures ok ==> InStep(s, v', st, n, j + 1) && Narrow(v') && v'.todo == v.todo
    ensures !ok ==> n > MAX_POINT || |s| > SAFE_LENGTH
  {
    StepBelow(s, v, st, n, j);
    v' := v;
    ok := Increment(v.delta) != 0;
    if ok {
      v' := v.(delta := Increment(v.delta));
    } else if n <= MAX_POINT && |s| <= SAFE_LENGTH {
      DistanceFits(s, st, n, j + 1);
    }
  }

  /** An occurrence of n is written out. */
  method VisitHere(s: seq<uint32>, v: Vars, n: uint32, j: nat, ghost st: State) returns (v': Vars, ghost st': State)
    requires InStep(s, v, st, n, j) && Narrow(v) && j < |s| && s[j] == n && |s| < BAD
    ensures InStep(s, v', st', n, j + 1) && Narrow(v') && v'.todo == v.todo - 1 && st'.n == n
  {
    TodoLeft(s, v, st, n, j);
    var out, ds := EmitInteger(v.out, v.delta, v.bias);
    var adapted := AdaptBias(v.delta, v.h + 1, v.first);
    StepInsert(s, v, st, n, j, out, ds);
    v', st' := Vars(v.h + 1, adapted, 0, v.todo - 1, false, out), Place(st, ds);
  }

  /** The pass for n has come to index j; it started with `todo` code points to insert. */
  ghost predicate InPass(s: seq<nat>, v: Vars, st: State, n: nat, j: nat, todo: nat) {
    && InStep(s, v, st, n, j) && Narrow(v) && v.todo <= todo
    && (v.todo == 0 || n in s[..j] ==> st.n == n) && (n in s[..j] ==> v.todo < todo)
  }

  /** The body of the loop over the label. */
  method Visit(s: seq<uint32>, v: Vars, n: uint32, j: nat, ghost st: State, ghost todo: nat) returns (ok: bool, v': Vars, ghost st': State)
    requires InPass(s, v, st, n, j, todo) && j < |s| < BAD
    ensures ok ==> InPass(s, v', st', n, j + 1, todo)
    ensures !ok ==> n > MAX_POINT || |s| > SAFE_LENGTH
  {
    assert s[..j + 1] == s[..j] + [s[j]];
    ok, v', st' := true, v, st;
    if s[j] < n {
      ok, v' := VisitBelow(s, v, n, j, st);
    } else if s[j] == n {
      v', st' := VisitHere(s, v, n, j, st);
    } else {
      StepAbove(s, v, st, n, j);
    }
  }

  /** One pass over the label, inserting every n. */
  method Pass(s: seq<uint32>, v0: Vars, n: uint32, ghost st0: State) returns (ok: bool, v: Vars, ghost st: State)
    requires InPass(s, v0, st0, n, 0, v0.todo) && |s| < BAD
    ensures ok ==> InPass(s, v, st, n, |s|, v0.todo)
    ensures !ok ==> n > MAX_POINT || |s| > SAFE_LENGTH
  {
    v, st, ok := v0, st0, true;
    var j := 0;
    while j < |s|
      invariant j <= |s| && InPass(s, v, st, n, j, v0.todo)
    {
      ok, v, st := Visit(s, v, n, j, st, v0.todo);
      if !ok {
        return;
      }
      j := j + 1;
    }
  }

  lemma EndFits(s: seq<nat>, v: Vars, st: State, n: nat)
    requires InStep(s, v, st, n, |s|) && st.n == n
    ensures v.delta <= |s|
  {
    assert (n - st.n) * (|st.output| + 1) == 0;
  }

  lemma StepEnd(s: seq<nat>, v: Vars, st: State, n: nat)
    requires InStep(s, v, st, n, |s|) && st.n == n && Narrow(v) && |s| < BAD
    ensures v.delta + 1 < UINT32 && InStep(s, v.(delta := v.delta + 1), st, n + 1, 0)
  {
    EndFits(s, v, st, n);
    StepPass(s, v, st, n);
  }

  /** The end of a pass; delta cannot wrap there. */
  method EndPass(s: seq<uint32>, v: Vars, n: uint32, ghost st: State, ghost todo: nat) returns (v': Vars)
    requires InPass(s, v, st, n, |s|, todo) && n in s && |s| < BAD
    ensures InStep(s, v', st, n + 1, 0) && Narrow(v') && v'.todo < todo
  {
    assert s[..|s|] == s;
    StepEnd(s, v, st, n);
    v' := v.(delta := Increment(v.delta));
  }

  /** The start of a pass: on to the next code point m. */
  method StartPass(s: seq<uint32>, v: Vars, n: uint32, m: uint32, ghost st: State) returns (ok: bool, v': Vars)
    requires InStep(s, v, st, n, 0) && Narrow(v) && v.todo > 0
    requires n <= m && forall i :: 0 <= i < |s| ==> s[i] < n || m <= s[i]
    ensures ok ==> InPass(s, v', st, m, 0, v.todo) && v'.todo == v.todo
    ensures !ok ==> m > MAX_POINT || |s| > SAFE_LENGTH
  {
    v' := v;
    var x, y := m - n, v.h + 1;
    StepRaise(s, v, st, n, m, v.delta + x * y);
    TooFar(x, y, v.delta);
    ok := x <= (0xFFFF_FFFF - v.delta) / y;
    if ok {
      var delta := v.delta + x * y;
      v' := v.(delta := delta);
    } else if m <= MAX_POINT && |s| <= SAFE_LENGTH {
      DistanceFits(s, st, m, 0);
    }
  }

  /** An n not yet inserted is still to do. */
  lemma TodoLeft(s: seq<nat>, v: Vars, st: State, n: nat, j: nat)
    requires InStep(s, v, st, n, j) && j < |s| && s[j] == n
    ensures v.todo > 0
  {
    if v.todo == 0 {
      PartFull(s, n, j, |s|);
      PartInsert(s, n, j, |s|);
    }
  }

  /** The overflow check is exact. */
  lemma TooFar(x: nat, y: nat, delta: uint32)
    requires y > 0
    ensures x <= (0xFFFF_FFFF - delta) / y <==> delta + x * y < UINT32
  {
    var a := 0xFFFF_FFFF - delta;
    assert a == a / y * y + a % y;
    if x <= a / y {
      TimesAtMost(x, y, a / y, y);
    } else {
      TimesAtMost(a / y + 1, y, x, y);
      assert (a / y + 1) * y == a / y * y + y;
    }
  }

  /** The first loop counts basic and other code points. */
  method Count(s: seq<uint32>) returns (ok: bool, h: nat, todo: nat)
    ensures ok <==> BAD !in s
    ensures ok ==> h == |Part(s, INITIAL_N, 0, |s|)| && h + todo == |s| && (todo == 0 <==> AllBasic(s))
  {
    h, todo := 0, 0;
    for i := 0 to |s|
      invariant h == |Part(s, INITIAL_N, 0, i)| && h + todo == i && BAD !in s[..i]
      invariant todo == 0 <==> forall k :: 0 <= k < i ==> s[k] < INITIAL_N
    {
      assert s[..i + 1] == s[..i] + [s[i]];
      if s[i] < 128 {
        h := h + 1;
      } else if s[i] == BAD {
        return false, h, todo;
      } else {
        todo := todo + 1;
      }
    }
    assert s[..|s|] == s;
    ok := true;
  }

  lemma StillAbove(s: seq<nat>, v: Vars, st: State, n: nat)
    requires InStep(s, v, st, n, 0) && v.todo > 0
    ensures exists i :: 0 <= i < |s| && s[i] >= n
  {
    PartMissing(s, n, |s|);
  }

  /** One turn of the outer loop. */
  method OneTurn(s: seq<uint32>, v0: Vars, n: uint32, ghost st0: State) returns (ok: bool, v: Vars, n': uint32, ghost st: State)
    requires |s| < BAD && BAD !in s && InStep(s, v0, st0, n, 0) && Narrow(v0) && v0.todo > 0
    ensures ok ==> InStep(s, v, st, n', 0) && Narrow(v) && v.todo < v0.todo
    ensures Modest(s) ==> ok
  {
    StillAbove(s, v0, st0, n);
    var m := NextPoint(s, n);
    n', st := m + 1, st0;
    ok, v := StartPass(s, v0, n, m, st);
    if ok {
      ok, v, st := Pass(s, v, m, st);
      if ok {
        v := EndPass(s, v, m, st, v0.todo);
      }
    }
  }

  /** All passes, from the head on. */
  method Insertions(s: seq<uint32>, v0: Vars) returns (ok: bool, out: seq<nat>)
    requires |s| < BAD && BAD !in s && InStep(s, v0, Start(s), INITIAL_N, 0) && Narrow(v0)
    ensures ok ==> Decode(out) == Some(s) && AllBasic(out)
    ensures Modest(s) ==> ok
  {
    var n: uint32, v := INITIAL_N, v0;
    ghost var st := Start(s);
    while v.todo > 0
      invariant InStep(s, v, st, n, 0) && Narrow(v)
      decreases v.todo
    {
      ok, v, n, st := OneTurn(s, v, n, st);
      if !ok {
        return false, [];
      }
    }
    InStepAtEnd(s, v, st, n);
    return true, v.out;
  }

  lemma HeadInStep(s: seq<nat>, h: nat, todo: nat, out: seq<nat>)
    requires h == |Part(s, INITIAL_N, 0, |s|)| && h + todo == |s| && out == Head(s)
    ensures InStep(s, Vars(h, INITIAL_BIAS, 0, todo, true, out), Start(s), INITIAL_N, 0)
  {}

  /** The label has other code points: head, then insertions. */
  method Encode(s: seq<uint32>, h: nat, todo: nat, basic: seq<nat>) returns (ok: bool, out: seq<nat>)
    requires |s| < BAD && BAD !in s && basic == Part(s, INITIAL_N, 0, |s|) && h == |basic| && h + todo == |s|
    ensures ok ==> Decode(out) == Some(s) && AllBasic(out)
    ensures Modest(s) ==> ok
  {
    out := basic;
    if h > 0 {
      out := out + [45];
    }
    HeadInStep(s, h, todo, out);
    ok, out := Insertions(s, Vars(h, 72, 0, todo, true, out));
  }

  /** uv__idna_toascii_label over decoded code points, BAD marking those that do not
      decode.  What it writes after "xn--" decodes to the label. */
  method ToAsciiLabel(s: seq<uint32>) returns (r: Outcome)
    requires |s| < BAD
    ensures r == Invalid <==> BAD in s
    ensures r.Ascii? && AllBasic(s) ==> r.text == s
    ensures r.Ascii? && !AllBasic(s) ==> |r.text| >= 4 && r.text[..4] == [120, 110, 45, 45] && Decode(r.text[4..]) == Some(s)
    ensures r.Ascii? ==> AllBasic(r.text)
    ensures Modest(s) ==> r != TooBig
  {
    var ok, h, todo := Count(s);
    if !ok {
      return Invalid;
    }
    var out := CopyBasic(s, h);
    if todo == 0 {
      PartFull(s, INITIAL_N, 0, |s|);
      assert s[..|s|] == s;
      return Ascii(out);
    }
    ok, out := Encode(s, h, todo, out);
    if !ok {
      return TooBig;
    }
    r := Ascii([120, 110, 45, 45] + out);
    assert r.text[4..] == out;
  }
}
