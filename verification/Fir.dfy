/**
 The FIR filter engines of `SIPEngine/FirAlgs.c`.

 Six routines compute the same filter over six in-place delay-line layouts. Each layout is
 described by a predicate saying which past input every cell of `z` holds, and each routine is
 proved to return the convolution of the coefficients with the whole input history while moving
 its layout from the history `xs` to the history `xs + [input]`.

 Samples are reals: the rounding of IEEE doubles is not modelled.
 */
module Fir {

  /** The input received `k` steps ago; silence before the first one. */
  function Past(xs: seq<real>, k: nat): real {
    if k < |xs| then xs[|xs| - 1 - k] else 0.0
  }

  /** What one tap contributes. */
  function Tap(coefficient: real, sample: real): real {
    coefficient * sample
  }

  /** The part of the convolution contributed by the first `n` taps, after the inputs `xs`. */
  function Partial(h: seq<real>, xs: seq<real>, n: nat): real
    requires n <= |h|
  {
    if n == 0 then 0.0 else Partial(h, xs, n - 1) + Tap(h[n - 1], Past(xs, n - 1))
  }

  /** The filter itself: the output after the inputs `xs`, the sum of h[k] * x[t-k] over all taps. */
  function Convolution(h: seq<real>, xs: seq<real>): real {
    Partial(h, xs, |h|)
  }

  // ----- what the filter means -----

  function Impulse(t: nat): seq<real> {
    [1.0] + seq(t, _ => 0.0)
  }

  /** Fed a unit impulse, the filter plays back its coefficients, then silence. */
  lemma {:induction false} ImpulseResponse(h: seq<real>, t: nat)
    ensures Convolution(h, Impulse(t)) == if t < |h| then h[t] else 0.0
  {
    ImpulsePartial(h, t, |h|);
  }

  lemma {:induction false} ImpulsePartial(h: seq<real>, t: nat, n: nat)
    requires n <= |h|
    ensures Partial(h, Impulse(t), n) == if t < n then h[t] else 0.0
  {
    if n > 0 {
      ImpulsePartial(h, t, n - 1);
      assert Past(Impulse(t), n - 1) == if n - 1 == t then 1.0 else 0.0;
    }
  }

  function Blend(a: real, x: real, b: real, y: real): real {
    a * x + b * y
  }

  /** a * x + b * y, sample by sample. */
  function Mix(a: real, x: seq<real>, b: real, y: seq<real>): (r: seq<real>)
    requires |x| == |y|
  {
    seq(|x|, i requires 0 <= i < |x| => Blend(a, x[i], b, y[i]))
  }

  /** Superposition: filtering a mixture is mixing the filtered signals. */
  lemma {:induction false} Linear(h: seq<real>, a: real, x: seq<real>, b: real, y: seq<real>)
    requires |x| == |y|
    ensures Convolution(h, Mix(a, x, b, y)) == Blend(a, Convolution(h, x), b, Convolution(h, y))
  {
    hide Blend;
    LinearPartial(h, a, x, b, y, |h|);
  }

  lemma {:induction false} LinearPartial(h: seq<real>, a: real, x: seq<real>, b: real, y: seq<real>, n: nat)
    requires |x| == |y| && n <= |h|
    ensures Partial(h, Mix(a, x, b, y), n) == Blend(a, Partial(h, x, n), b, Partial(h, y, n))
  {
    hide Tap, Past, Mix, Blend;
    if n == 0 {
      assert Blend(a, 0.0, b, 0.0) == 0.0 by { BlendSilence(a, b); }
    } else {
      LinearPartial(h, a, x, b, y, n - 1);
      MixPast(a, x, b, y, n - 1);
      Distribute(a, b, h[n - 1], Past(x, n - 1), Past(y, n - 1), Partial(h, x, n - 1), Partial(h, y, n - 1));
    }
  }

  lemma BlendSilence(a: real, b: real)
    ensures Blend(a, 0.0, b, 0.0) == 0.0
  {
  }

  lemma MixPast(a: real, x: seq<real>, b: real, y: seq<real>, k: nat)
    requires |x| == |y|
    ensures Past(Mix(a, x, b, y), k) == Blend(a, Past(x, k), b, Past(y, k))
  {
  }

  lemma Distribute(a: real, b: real, c: real, p: real, q: real, u: real, v: real)
    ensures Blend(a, u, b, v) + Tap(c, Blend(a, p, b, q)) == Blend(a, u + Tap(c, p), b, v + Tap(c, q))
  {
    assert c * (a * p) == a * (c * p);
    assert c * (b * q) == b * (c * q);
  }

  /** Time invariance: silence in front of the input changes nothing. */
  lemma {:induction false} TimeInvariant(h: seq<real>, d: nat, xs: seq<real>)
    ensures Convolution(h, seq(d, _ => 0.0) + xs) == Convolution(h, xs)
  {
    DelayPartial(h, d, xs, |h|);
  }

  lemma {:induction false} DelayPartial(h: seq<real>, d: nat, xs: seq<real>, n: nat)
    requires n <= |h|
    ensures Partial(h, seq(d, _ => 0.0) + xs, n) == Partial(h, xs, n)
  {
    if n > 0 {
      DelayPartial(h, d, xs, n - 1);
      assert Past(seq(d, _ => 0.0) + xs, n - 1) == Past(xs, n - 1);
    }
  }

  /** Only the last |h| inputs matter: a finite impulse response. */
  lemma {:induction false} FiniteMemory(h: seq<real>, xs: seq<real>, ys: seq<real>)
    requires forall k | 0 <= k < |h| :: Past(xs, k) == Past(ys, k)
    ensures Convolution(h, xs) == Convolution(h, ys)
  {
    MemoryPartial(h, xs, ys, |h|);
  }

  lemma {:induction false} MemoryPartial(h: seq<real>, xs: seq<real>, ys: seq<real>, n: nat)
    requires n <= |h|
    requires forall k | 0 <= k < n :: Past(xs, k) == Past(ys, k)
    ensures Partial(h, xs, n) == Partial(h, ys, n)
  {
    if n > 0 {
      MemoryPartial(h, xs, ys, n - 1);
    }
  }

  // ----- the delay-line layouts -----

  /** fir_basic and fir_shuffle: cell i holds the input of i steps ago; cell 0 awaits the next one. */
  ghost predicate Shifting(z: seq<real>, n: nat, xs: seq<real>) {
    n <= |z| && forall i | 1 <= i < n :: z[i] == Past(xs, i - 1)
  }

  /** The cell `k` places before `state`, wrapping below zero. */
  function Back(state: nat, k: nat, n: nat): int {
    if state - k >= 0 then state - k else state - k + n
  }

  /** fir_circular: going backwards from `state`, ever older inputs. */
  ghost predicate Circular(z: seq<real>, n: nat, state: int, xs: seq<real>) {
    0 <= state < n <= |z| && forall k | 1 <= k < n :: z[Back(state, k, n)] == Past(xs, k - 1)
  }

  /** The cell `k` places after `state`, wrapping at `n`. */
  function Ahead(state: nat, k: nat, n: nat): int {
    if state + k < n then state + k else state + k - n
  }

  /** fir_split and fir_double_h: going forwards from `state`, ever older inputs. */
  ghost predicate Reversed(z: seq<real>, n: nat, state: int, xs: seq<real>) {
    0 <= state < n <= |z| && forall k | 1 <= k < n :: z[Ahead(state, k, n)] == Past(xs, k - 1)
  }

  /** fir_double_z: the reversed layout, kept twice. */
  ghost predicate Doubled(z: seq<real>, n: nat, state: int, xs: seq<real>) {
    2 * n <= |z| && Reversed(z, n, state, xs) && z[n..2 * n] == z[..n]
  }

  /** The doubled coefficients fir_double_h is supplied with. */
  ghost predicate DoubledTaps(h2: seq<real>, h: seq<real>) {
    |h2| >= 2 * |h| && forall i | 0 <= i < |h| :: h2[i] == h[i] && h2[i + |h|] == h[i]
  }

  // ----- the routines -----

  method Clear(ntaps: nat, z: array<real>)
    requires ntaps <= z.Length
    modifies z
    ensures forall i | 0 <= i < ntaps :: z[i] == 0.0
    ensures z[ntaps..] == old(z[ntaps..])
  {
    for ii := 0 to ntaps
      invariant forall i | 0 <= i < ii :: z[i] == 0.0
      invariant z[ntaps..] == old(z[ntaps..])
    {
      z[ii] := 0.0;
    }
  }

  /** A cleared line is every layout at once: it says that nothing was received yet. */
  lemma ClearedLine(z: seq<real>, n: nat, state: nat)
    requires state < n <= |z| && forall i | 0 <= i < |z| :: z[i] == 0.0
    ensures Shifting(z, n, []) && Circular(z, n, state, []) && Reversed(z, n, state, [])
    ensures 2 * n <= |z| ==> Doubled(z, n, state, [])
  {
  }

  method Basic(input: real, ntaps: int, h: array<real>, z: array<real>, ghost xs: seq<real>) returns (accum: real)
    requires 1 <= ntaps <= h.Length && ntaps <= z.Length && h != z
    requires Shifting(z[..], ntaps, xs)
    modifies z
    ensures accum == Convolution(h[..ntaps], xs + [input])
    ensures Shifting(z[..], ntaps, xs + [input])
    ensures z[ntaps..] == old(z[ntaps..])
  {
    hide Tap;
    ghost var ys := xs + [input];
    ghost var taps := h[..ntaps];
    z[0] := input;
    assert forall i | 0 <= i < ntaps :: z[i] == Past(ys, i);

    accum := 0.0;
    for ii := 0 to ntaps
      invariant accum == Partial(taps, ys, ii)
    {
      accum := accum + Tap(h[ii], z[ii]);
    }

    for ii := ntaps - 1 downto 0
      invariant forall i | 0 <= i <= ii :: z[i] == Past(ys, i)
      invariant forall i | ii < i < ntaps :: z[i] == Past(ys, i - 1)
      invariant z[ntaps..] == old(z[ntaps..])
      invariant h[..ntaps] == taps
    {
      z[ii + 1] := z[ii];
    }
  }

  method Shuffle(input: real, ntaps: int, h: array<real>, z: array<real>, ghost xs: seq<real>) returns (accum: real)
    requires 1 <= ntaps <= h.Length && ntaps <= z.Length && h != z
    requires Shifting(z[..], ntaps, xs)
    modifies z
    ensures accum == Convolution(h[..ntaps], xs + [input])
    ensures Shifting(z[..], ntaps, xs + [input])
    ensures z[ntaps..] == old(z[ntaps..])
  {
    hide Tap;
    ghost var ys := xs + [input];
    ghost var taps := h[..ntaps];
    z[0] := input;
    assert forall i | 0 <= i < ntaps :: z[i] == Past(ys, i);

    accum := Tap(h[ntaps - 1], z[ntaps - 1]);
    for ii := ntaps - 1 downto 0
      invariant accum + Partial(taps, ys, ii) == Partial(taps, ys, ntaps)
      invariant forall i | 0 <= i <= ii :: z[i] == Past(ys, i)
      invariant forall i | ii < i < ntaps :: z[i] == Past(ys, i - 1)
      invariant z[ntaps..] == old(z[ntaps..])
      invariant h[..ntaps] == taps
    {
      accum := accum + Tap(h[ii], z[ii]);
      z[ii + 1] := z[ii];
    }
  }

  method CircularStep(input: real, ntaps: int, h: array<real>, z: array<real>, pState: int, ghost xs: seq<real>)
    returns (accum: real, state: int)
    requires 1 <= ntaps <= h.Length && ntaps <= z.Length && h != z
    requires Circular(z[..], ntaps, pState, xs)
    modifies z
    ensures accum == Convolution(h[..ntaps], xs + [input])
    ensures Circular(z[..], ntaps, state, xs + [input])
    ensures state == if pState + 1 >= ntaps then 0 else pState + 1
    ensures z[..] == old(z[..])[pState := input]
  {
    hide Tap;
    ghost var ys := xs + [input];
    ghost var taps := h[..ntaps];
    state := pState;
    z[state] := input;
    state := state + 1;
    if state >= ntaps {
      state := 0;
    }
    ghost var first := state;
    // from the oldest input, at `first`, round to the newest, just before it
    assert forall k | 0 <= k < ntaps :: z[Back(pState, k, ntaps)] == Past(ys, k);

    accum := 0.0;
    for ii := ntaps downto 0
      invariant state == if ii == 0 then first else Back(pState, ii - 1, ntaps)
      invariant accum + Partial(taps, ys, ii) == Partial(taps, ys, ntaps)
    {
      accum := accum + Tap(h[ii], z[state]);
      state := state + 1;
      if state >= ntaps {
        state := 0;
      }
    }
    forall k | 1 <= k < ntaps ensures z[Back(state, k, ntaps)] == Past(ys, k - 1) {
      assert Back(state, k, ntaps) == Back(pState, k - 1, ntaps);
    }
  }

  /** One place down, wrapping below zero: how fir_split and its kin move on. */
  function Down(state: int, n: int): int {
    if state - 1 < 0 then state - 1 + n else state - 1
  }

  /** Storing the input at `state` and stepping down carries the layout to the longer history. */
  lemma ReversedStep(z: seq<real>, z': seq<real>, n: nat, state: int, xs: seq<real>, input: real)
    requires Reversed(z, n, state, xs)
    requires |z'| == |z| && z'[state] == input && forall i | 0 <= i < n && i != state :: z'[i] == z[i]
    ensures forall k | 0 <= k < n :: z'[Ahead(state, k, n)] == Past(xs + [input], k)
    ensures Reversed(z', n, Down(state, n), xs + [input])
  {
    var ys := xs + [input];
    forall k | 1 <= k < n ensures z'[Ahead(Down(state, n), k, n)] == Past(ys, k - 1) {
      assert Ahead(Down(state, n), k, n) == Ahead(state, k - 1, n);
    }
  }

  method Split(input: real, ntaps: int, h: array<real>, z: array<real>, pState: int, ghost xs: seq<real>)
    returns (accum: real, state: int)
    requires 1 <= ntaps <= h.Length && ntaps <= z.Length && h != z
    requires Reversed(z[..], ntaps, pState, xs)
    modifies z
    ensures accum == Convolution(h[..ntaps], xs + [input])
    ensures Reversed(z[..], ntaps, state, xs + [input])
    ensures state == Down(pState, ntaps)
    ensures z[..] == old(z[..])[pState := input]
  {
    hide Tap;
    ghost var ys := xs + [input];
    ghost var taps := h[..ntaps];
    state := pState;
    accum := 0.0;
    var pH := 0;

    // the end part
    var pZ := state;
    z[pZ] := input;
    ReversedStep(old(z[..]), z[..], ntaps, pState, xs, input);
    var endTaps := ntaps - state;
    for ii := 0 to endTaps
      invariant pH == ii && pZ == state + ii
      invariant accum == Partial(taps, ys, ii)
    {
      assert z[pZ] == z[..][Ahead(state, ii, ntaps)];
      accum := accum + Tap(h[pH], z[pZ]);
      pH, pZ := pH + 1, pZ + 1;
    }

    // the beginning part
    pZ := 0;
    for ii := 0 to state
      invariant pH == endTaps + ii && pZ == ii
      invariant accum == Partial(taps, ys, pH)
    {
      assert z[pZ] == z[..][Ahead(state, pH, ntaps)];
      accum := accum + Tap(h[pH], z[pZ]);
      pH, pZ := pH + 1, pZ + 1;
    }

    state := state - 1;
    if state < 0 {
      state := state + ntaps;
    }
  }

  /** Over the doubled line the flat window starting at `state` is the whole history, newest first. */
  lemma DoubledWindow(z: seq<real>, n: nat, state: nat, ys: seq<real>)
    requires state < n && 2 * n <= |z|
    requires z[n..2 * n] == z[..n]
    requires forall k | 0 <= k < n :: z[Ahead(state, k, n)] == Past(ys, k)
    ensures forall k | 0 <= k < n :: z[state + k] == Past(ys, k)
  {
    forall k | 0 <= k < n ensures z[state + k] == Past(ys, k) {
      assert z[Ahead(state, k, n)] == Past(ys, k);
      if state + k >= n {
        assert z[n..2 * n][state + k - n] == z[..n][state + k - n];
      }
    }
  }

  method DoubleZ(input: real, ntaps: int, h: array<real>, z: array<real>, pState: int, ghost xs: seq<real>)
    returns (accum: real, state: int)
    requires 1 <= ntaps <= h.Length && h != z
    requires Doubled(z[..], ntaps, pState, xs)
    modifies z
    ensures accum == Convolution(h[..ntaps], xs + [input])
    ensures Doubled(z[..], ntaps, state, xs + [input])
    ensures state == Down(pState, ntaps)
    ensures z[..] == old(z[..])[pState := input][pState + ntaps := input]
  {
    hide Tap;
    ghost var ys := xs + [input];
    ghost var taps := h[..ntaps];
    state := pState;
    z[state + ntaps] := input;
    z[state] := input;
    ReversedStep(old(z[..]), z[..], ntaps, pState, xs, input);
    assert z[..][ntaps..2 * ntaps] == z[..][..ntaps] by { assert old(z[..])[ntaps..2 * ntaps] == old(z[..])[..ntaps]; }

    DoubledWindow(z[..], ntaps, state, ys);

    var pH, pZ := 0, state;
    accum := 0.0;
    for ii := 0 to ntaps
      invariant pH == ii && pZ == state + ii
      invariant accum == Partial(taps, ys, ii)
    {
      assert z[..][state + ii] == Past(ys, ii);
      accum := accum + Tap(h[pH], z[pZ]);
      pH, pZ := pH + 1, pZ + 1;
    }

    state := state - 1;
    if state < 0 {
      state := state + ntaps;
    }
  }

  /** The taps in the order fir_double_h meets them: cell i of z is tap `ntaps - state + i` of the doubled array. */
  function Flat(h2: seq<real>, z: seq<real>, n: nat, state: nat, from: nat, to: nat): real
    requires from <= to <= n <= |z| && state <= n && 2 * n <= |h2|
  {
    if to == from then 0.0 else Flat(h2, z, n, state, from, to - 1) + Tap(h2[n - state + to - 1], z[to - 1])
  }

  /** Walking z from its start visits taps n-state.. first and taps 0..n-state after; the sum is the same. */
  lemma {:induction false} FlatLow(h2: seq<real>, h: seq<real>, z: seq<real>, state: nat, ys: seq<real>, k: nat)
    requires DoubledTaps(h2, h) && k <= state < |h| <= |z|
    requires forall k | 0 <= k < |h| :: z[Ahead(state, k, |h|)] == Past(ys, k)
    ensures Flat(h2, z, |h|, state, 0, k) == Partial(h, ys, |h| - state + k) - Partial(h, ys, |h| - state)
  {
    if k > 0 {
      FlatLow(h2, h, z, state, ys, k - 1);
      assert z[Ahead(state, |h| - state + k - 1, |h|)] == z[k - 1];
    }
  }

  lemma {:induction false} FlatHigh(h2: seq<real>, h: seq<real>, z: seq<real>, state: nat, ys: seq<real>, k: nat)
    requires DoubledTaps(h2, h) && state < |h| <= |z| && k <= |h| - state
    requires forall k | 0 <= k < |h| :: z[Ahead(state, k, |h|)] == Past(ys, k)
    ensures Flat(h2, z, |h|, state, state, state + k) == Partial(h, ys, k)
  {
    if k > 0 {
      FlatHigh(h2, h, z, state, ys, k - 1);
      assert z[Ahead(state, k - 1, |h|)] == z[state + k - 1];
      assert h2[|h| - state + (state + k) - 1] == h2[(k - 1) + |h|] == h[k - 1];
    }
  }

  lemma {:induction false} FlatJoin(h2: seq<real>, z: seq<real>, n: nat, state: nat, k: nat)
    requires state <= k <= n <= |z| && 2 * n <= |h2|
    ensures Flat(h2, z, n, state, 0, k) == Flat(h2, z, n, state, 0, state) + Flat(h2, z, n, state, state, k)
  {
    if k > state {
      FlatJoin(h2, z, n, state, k - 1);
    }
  }

  lemma FlatIsConvolution(h2: seq<real>, h: seq<real>, z: seq<real>, state: nat, ys: seq<real>)
    requires DoubledTaps(h2, h) && state < |h| <= |z|
    requires forall k | 0 <= k < |h| :: z[Ahead(state, k, |h|)] == Past(ys, k)
    ensures Flat(h2, z, |h|, state, 0, |h|) == Convolution(h, ys)
  {
    FlatJoin(h2, z, |h|, state, |h|);
    FlatLow(h2, h, z, state, ys, state);
    FlatHigh(h2, h, z, state, ys, |h| - state);
    assert state + (|h| - state) == |h|;
  }

  method DoubleH(input: real, ntaps: int, h2: array<real>, z: array<real>, pState: int,
                 ghost h: seq<real>, ghost xs: seq<real>)
    returns (accum: real, state: int)
    requires 1 <= ntaps == |h| && h2 != z
    requires DoubledTaps(h2[..], h)
    requires Reversed(z[..], ntaps, pState, xs)
    modifies z
    ensures accum == Convolution(h, xs + [input])
    ensures Reversed(z[..], ntaps, state, xs + [input])
    ensures state == Down(pState, ntaps)
    ensures z[..] == old(z[..])[pState := input]
  {
    hide Tap;
    ghost var ys := xs + [input];
    state := pState;
    z[state] := input;
    ReversedStep(old(z[..]), z[..], ntaps, pState, xs, input);

    var pH, pZ := ntaps - state, 0;
    accum := 0.0;
    for ii := 0 to ntaps
      invariant pH == ntaps - state + ii && pZ == ii
      invariant accum == Flat(h2[..], z[..], ntaps, state, 0, ii)
    {
      accum := accum + Tap(h2[pH], z[pZ]);
      pH, pZ := pH + 1, pZ + 1;
    }
    FlatIsConvolution(h2[..], h, z[..], state, ys);

    state := state - 1;
    if state < 0 {
      state := state + ntaps;
    }
  }

  // ----- whole runs -----

  /** One output sample of each of the six routines. */
  datatype Outputs = Outputs(basic: real, circular: real, shuffle: real, split: real, doubleZ: real, doubleH: real)

  ghost predicate AllEqual(o: Outputs, y: real) {
    o == Outputs(y, y, y, y, y, y)
  }

  /** The six filters side by side, each on its own delay line. */
  class FilterBank {
    const n: nat
    const h: array<real>
    const h2: array<real>
    const zs: seq<array<real>>
    var states: seq<int>
    ghost const taps: seq<real>
    ghost var history: seq<real>

    /** The arrays are six delay lines and two coefficient tables, all distinct. */
    ghost predicate Apart() {
      && |zs| == 6 && h != h2 && h !in zs && h2 !in zs
      && forall i, j | 0 <= i < j < 6 :: zs[i] != zs[j]
    }

    ghost predicate Valid()
      reads this, h, h2, zs
    {
      && n == |taps| >= 1 && |zs| == 6 && |states| == 6
      && Apart()
      && h[..] == taps && DoubledTaps(h2[..], taps)
      && Shifting(zs[0][..], n, history)
      && Circular(zs[1][..], n, states[1], history)
      && Shifting(zs[2][..], n, history)
      && Reversed(zs[3][..], n, states[3], history)
      && Doubled(zs[4][..], n, states[4], history)
      && Reversed(zs[5][..], n, states[5], history)
    }

    static method Line(cells: nat, n: nat, start: nat) returns (z: array<real>)
      requires start < n <= cells
      ensures fresh(z) && z.Length == cells
      ensures Shifting(z[..], n, []) && Circular(z[..], n, start, []) && Reversed(z[..], n, start, [])
      ensures 2 * n <= cells ==> Doubled(z[..], n, start, [])
    {
      z := new real[cells];
      Clear(cells, z);
      ClearedLine(z[..], n, start);
    }

    static method Coefficients(taps: seq<real>) returns (h: array<real>, h2: array<real>)
      ensures fresh(h) && fresh(h2) && h != h2
      ensures h[..] == taps && DoubledTaps(h2[..], taps)
    {
      var n := |taps|;
      h := new real[n](i requires 0 <= i < n => taps[i]);
      h2 := new real[2 * n](i requires 0 <= i < 2 * n => taps[if i < n then i else i - n]);
      assert forall i | 0 <= i < n :: h2[..][i] == taps[i] && h2[..][i + n] == taps[i];
    }

    /** Cleared lines; the circular variants may start at any cell. */
    constructor (taps: seq<real>, start: nat)
      requires start < |taps|
      ensures Valid() && history == [] && this.taps == taps
      ensures fresh(zs)
    {
      var n := |taps|;
      var h, h2 := Coefficients(taps);
      var z0 := Line(n, n, start);
      var z1 := Line(n, n, start);
      var z2 := Line(n, n, start);
      var z3 := Line(n, n, start);
      var z4 := Line(2 * n, n, start);
      var z5 := Line(n, n, start);
      this.n, this.taps, this.h, this.h2 := n, taps, h, h2;
      zs, states, history := [z0, z1, z2, z3, z4, z5], [start, start, start, start, start, start], [];
    }

    /** One input through all six: they all return the convolution of the history so far. */
    method Step(input: real) returns (out: Outputs)
      requires Valid()
      modifies `states, `history, zs
      ensures Valid() && history == old(history) + [input]
      ensures AllEqual(out, Convolution(taps, history))
    {
      ghost var xs := history;
      assert h[..n] == taps;
      var y0 := Basic(input, n, h, zs[0], xs);
      var y1, s1 := CircularStep(input, n, h, zs[1], states[1], xs);
      var y2 := Shuffle(input, n, h, zs[2], xs);
      var y3, s3 := Split(input, n, h, zs[3], states[3], xs);
      var y4, s4 := DoubleZ(input, n, h, zs[4], states[4], xs);
      var y5, s5 := DoubleH(input, n, h2, zs[5], states[5], taps, xs);
      states := [0, s1, 0, s3, s4, s5];
      history := xs + [input];
      out := Outputs(y0, y1, y2, y3, y4, y5);
    }
  }

  /**
   Over every input stream all six filters return the convolution at every step, so they never part
   from each other.
   */
  method RunAll(taps: seq<real>, input: seq<real>, start: nat) returns (out: seq<Outputs>)
    requires start < |taps|
    ensures |out| == |input|
    ensures forall t | 0 <= t < |input| :: AllEqual(out[t], Convolution(taps, input[..t + 1]))
  {
    var bank := new FilterBank(taps, start);
    out := [];
    for t := 0 to |input|
      invariant fresh(bank) && fresh(bank.zs)
      invariant bank.Valid() && bank.taps == taps && bank.history == input[..t]
      invariant |out| == t
      invariant forall u | 0 <= u < t :: AllEqual(out[u], Convolution(taps, input[..u + 1]))
    {
      assert input[..t + 1] == input[..t] + [input[t]];
      var o := bank.Step(input[t]);
      out := out + [o];
    }
  }
}
