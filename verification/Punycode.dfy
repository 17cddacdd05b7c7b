/** Punycode, RFC 3492: the decoder of section 6.2 and the bias adaptation of section 6.1. */
module Punycode {
  import opened Keys

  // bootstring parameters, section 5
  const BASE := 36
  const TMIN := 1
  const TMAX := 26
  const SKEW := 38
  const DAMP := 700
  const INITIAL_BIAS := 72
  const INITIAL_N := 128
  const DELIMITER := 45

  function Digit(d: nat): (c: nat)
    requires d < BASE
    ensures c != DELIMITER && c < 128 && DigitValue(c) == Some(d)
  {
    if d < 26 then 97 + d else 22 + d
  }

  function DigitValue(c: nat): (d: Option<nat>)
    ensures d.Some? ==> d.value < BASE
  {
    if 97 <= c <= 122 then Some(c - 97)
    else if 65 <= c <= 90 then Some(c - 65)
    else if 48 <= c <= 57 then Some(c - 22)
    else None
  }

  /** The threshold of the digit at position k (a multiple of 36). */
  function Threshold(k: nat, bias: nat): (t: nat)
    ensures TMIN <= t <= TMAX
  {
    if k <= bias then TMIN else if k >= bias + TMAX then TMAX else k - bias
  }

  function Reduce(delta: nat, k: nat): nat {
    if delta > ((BASE - TMIN) * TMAX) / 2 then Reduce(delta / (BASE - TMIN), k + BASE)
    else k + (BASE - TMIN + 1) * delta / (delta + SKEW)
  }

  function Damped(delta: nat, numpoints: nat, first: bool): nat
    requires numpoints > 0
  {
    var d := if first then delta / DAMP else delta / 2;
    d + d / numpoints
  }

  /** Section 6.1. */
  function Adapt(delta: nat, numpoints: nat, first: bool): nat
    requires numpoints > 0
  {
    Reduce(Damped(delta, numpoints, first), 0)
  }

  /** The decoder's variables between two insertions. */
  datatype State = State(n: nat, i: nat, bias: nat, output: seq<nat>)

  /** The weight of digit j: the product of the thresholds' complements before it. */
  function Weight(j: nat, bias: nat): nat {
    if j == 0 then 1 else Weight(j - 1, bias) * (BASE - Threshold(BASE * j, bias))
  }

  /** The generalized variable-length integer spelled by the digits. */
  function Total(digits: seq<nat>, bias: nat): nat {
    if digits == [] then 0
    else
      var last := |digits| - 1;
      Total(digits[..last], bias) + digits[last] * Weight(last, bias)
  }

  /** The digits from position j of an integer on, starting at `input[pos]`: the last is
      the first one below its threshold. */
  function ReadDigits(input: seq<nat>, pos: nat, j: nat, bias: nat): (r: Option<seq<nat>>)
    ensures r.Some? ==> |r.value| > 0 && pos + |r.value| <= |input|
    decreases |input| - pos
  {
    if pos >= |input| || DigitValue(input[pos]) == None then None
    else
      var digit := DigitValue(input[pos]).value;
      if digit < Threshold(BASE * (j + 1), bias) then Some([digit])
      else
        var rest := ReadDigits(input, pos + 1, j + 1, bias);
        if rest == None then None else Some([digit] + rest.value)
  }

  /** One insertion: the integer moves i around the output, wrapping into n. */
  function Place(st: State, digits: seq<nat>): State {
    var i := st.i + Total(digits, st.bias);
    var len := |st.output| + 1;
    var at := i % len;
    State(st.n + i / len, at + 1, Adapt(i - st.i, len, st.i == 0),
          st.output[..at] + [st.n + i / len] + st.output[at..])
  }

  /** The decoder's loop, where `place` is the effect of one integer. */
  function Run(place: (State, seq<nat>) -> State, st: State, input: seq<nat>, pos: nat): Option<State>
    decreases |input| - pos
  {
    if pos >= |input| then Some(st)
    else
      var r := ReadDigits(input, pos, 0, st.bias);
      if r == None then None else Run(place, place(st, r.value), input, pos + |r.value|)
  }

  /** The index of the last delimiter, if there is one. */
  function LastDelimiter(input: seq<nat>, end: nat): (d: Option<nat>)
    requires end <= |input|
    ensures d.Some? ==> d.value < end && input[d.value] == DELIMITER
    ensures forall j :: (if d.Some? then d.value + 1 else 0) <= j < end ==> input[j] != DELIMITER
  {
    if end == 0 then None
    else if input[end - 1] == DELIMITER then Some(end - 1)
    else LastDelimiter(input, end - 1)
  }

  /** Section 6.2, over unbounded integers. */
  function Decode(input: seq<nat>): Option<seq<nat>> {
    var d := LastDelimiter(input, |input|);
    var basic := if d.Some? then input[..d.value] else [];
    if exists j :: 0 <= j < |basic| && basic[j] >= INITIAL_N then None
    else
      var start := if d.Some? && d.value > 0 then d.value + 1 else 0;
      var r := Run(Place, State(INITIAL_N, 0, INITIAL_BIAS, basic), input, start);
      if r == None then None else Some(r.value.output)
  }

  // ------------------------------------------- variable-length integers

  /** The digits of one whole integer: only the last is below its threshold. */
  ghost predicate Whole(ds: seq<nat>, bias: nat) {
    && |ds| > 0 && (forall j {:trigger ds[j]} :: 0 <= j < |ds| ==> ds[j] < BASE)
    && (forall j {:trigger ds[j]} :: 0 <= j < |ds| ==> (ds[j] < Threshold(BASE * (j + 1), bias) <==> j == |ds| - 1))
  }

  /** The digits ds stand in `input` at pos. */
  ghost predicate SpelledAt(input: seq<nat>, pos: nat, ds: seq<nat>) {
    && pos + |ds| <= |input|
    && forall j {:trigger ds[j]} :: 0 <= j < |ds| ==> ds[j] < BASE && input[pos + j] == Digit(ds[j])
  }

  /** Reading back exactly the digits written. */
  lemma {:induction false} ReadsWhole(input: seq<nat>, pos: nat, ds: seq<nat>, j: nat, bias: nat)
    requires SpelledAt(input, pos, ds) && Whole(ds, bias) && j < |ds|
    ensures ReadDigits(input, pos + j, j, bias) == Some(ds[j..])
    decreases |ds| - j
  {
    assert DigitValue(input[pos + j]) == Some(ds[j]);
    if j < |ds| - 1 {
      ReadsWhole(input, pos, ds, j + 1, bias);
      assert ds[j..] == [ds[j]] + ds[j + 1..];
    } else {
      assert ds[j..] == [ds[j]];
    }
  }

  lemma {:induction false} ReadDigitsExtends(a: seq<nat>, b: seq<nat>, pos: nat, j: nat, bias: nat)
    requires a <= b && ReadDigits(a, pos, j, bias).Some?
    ensures ReadDigits(b, pos, j, bias) == ReadDigits(a, pos, j, bias)
    decreases |a| - pos
  {
    if DigitValue(a[pos]).value >= Threshold(BASE * (j + 1), bias) {
      ReadDigitsExtends(a, b, pos + 1, j + 1, bias);
    }
  }

  lemma {:induction false} RunExtends(place: (State, seq<nat>) -> State, st: State, a: seq<nat>, b: seq<nat>, pos: nat)
    requires a <= b && pos <= |a| && Run(place, st, a, pos).Some?
    ensures Run(place, st, b, pos) == Run(place, Run(place, st, a, pos).value, b, |a|)
    decreases |a| - pos
  {
    if pos < |a| {
      var ds := ReadDigits(a, pos, 0, st.bias).value;
      ReadDigitsExtends(a, b, pos, 0, st.bias);
      RunExtends(place, place(st, ds), a, b, pos + |ds|);
    }
  }

  /** One more integer makes one more insertion. */
  lemma RunsOneMore(place: (State, seq<nat>) -> State, st: State, a: seq<nat>, b: seq<nat>, pos: nat, ds: seq<nat>)
    requires a <= b && pos <= |a| && Run(place, st, a, pos).Some? && |b| == |a| + |ds|
    requires Whole(ds, Run(place, st, a, pos).value.bias) && SpelledAt(b, |a|, ds)
    ensures var now := Run(place, st, a, pos).value;
            Run(place, st, b, pos) == Some(place(now, ds))
  {
    var now := Run(place, st, a, pos).value;
    RunExtends(place, st, a, b, pos);
    ReadsWhole(b, |a|, ds, 0, now.bias);
    assert ds[0..] == ds;
  }
}
