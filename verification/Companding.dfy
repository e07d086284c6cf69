/**
 The A-law and mu-law companding of `SIPEngine/sound_conv.c` (clause 3 of ITU-T G.711).

 Codes are bytes 0..255. The exclusive or of the code words is computed bit by bit, the
 shifts and masks of the source are divisions and remainders by powers of two.
 */
module Companding {
  import opened Numerals

  // ----- exclusive or -----

  /** Exclusive or of the lowest `bits` bits. */
  function Xor(a: nat, b: nat, bits: nat): nat {
    if bits == 0 then 0
    else (if a % 2 == b % 2 then 0 else 1) + 2 * Xor(a / 2, b / 2, bits - 1)
  }

  function Pow2(n: nat): nat {
    if n == 0 then 1 else 2 * Pow2(n - 1)
  }

  lemma {:induction false} XorBound(a: nat, b: nat, bits: nat)
    ensures Xor(a, b, bits) < Pow2(bits)
  {
    if bits > 0 {
      XorBound(a / 2, b / 2, bits - 1);
    }
  }

  lemma {:induction false} XorAssociative(a: nat, b: nat, c: nat, bits: nat)
    ensures Xor(Xor(a, b, bits), c, bits) == Xor(a, Xor(b, c, bits), bits)
  {
    if bits > 0 {
      XorAssociative(a / 2, b / 2, c / 2, bits - 1);
      var x, y := Xor(a / 2, b / 2, bits - 1), Xor(b / 2, c / 2, bits - 1);
      assert Xor(a, b, bits) / 2 == x && Xor(b, c, bits) / 2 == y;
    }
  }

  lemma {:induction false} XorZero(a: nat, bits: nat)
    requires a < Pow2(bits)
    ensures Xor(a, 0, bits) == a
  {
    if bits > 0 {
      XorZero(a / 2, bits - 1);
    }
  }

  lemma {:induction false} XorTop(a: nat, bits: nat)
    requires bits > 0 && a < Pow2(bits)
    ensures Xor(a, Pow2(bits - 1), bits) == if a < Pow2(bits - 1) then a + Pow2(bits - 1) else a - Pow2(bits - 1)
  {
    if bits > 1 {
      XorTop(a / 2, bits - 1);
    }
  }

  lemma {:induction false} XorFull(a: nat, bits: nat)
    requires a < Pow2(bits)
    ensures Xor(a, Pow2(bits) - 1, bits) == Pow2(bits) - 1 - a
  {
    if bits > 0 {
      XorFull(a / 2, bits - 1);
      assert (Pow2(bits) - 1) / 2 == Pow2(bits - 1) - 1;
    }
  }

  lemma Pow2Values()
    ensures Pow2(0) == 1 && Pow2(1) == 2 && Pow2(2) == 4 && Pow2(3) == 8 && Pow2(4) == 16
    ensures Pow2(5) == 32 && Pow2(6) == 64 && Pow2(7) == 128 && Pow2(8) == 256 && Pow2(9) == 512
    ensures Pow2(10) == 1024 && Pow2(11) == 2048 && Pow2(12) == 4096 && Pow2(13) == 8192
    ensures Pow2(14) == 16384 && Pow2(15) == 32768
  {
  }

  function ByteXor(a: Byte, b: Byte): (r: Byte)
  {
    XorBound(a, b, 8);
    Pow2Values();
    Xor(a, b, 8)
  }

  // The masks of the two laws, computed from their top bit down.
  lemma Masks()
    ensures Xor(0xD5, 0x55, 8) == 0x80 && Xor(0x55, 0x55, 8) == 0
    ensures Xor(0xFF, 0x80, 8) == 0x7F
  {
    assert Xor(6, 2, 3) == 4;
    assert Xor(13, 5, 4) == 8;
    assert Xor(26, 10, 5) == 16;
    assert Xor(53, 21, 6) == 32;
    assert Xor(106, 42, 7) == 64;
    assert Xor(2, 2, 3) == 0;
    assert Xor(5, 5, 4) == 0;
    assert Xor(10, 10, 5) == 0;
    assert Xor(21, 21, 6) == 0;
    assert Xor(42, 42, 7) == 0;
    Pow2Values();
    XorTop(0xFF, 8);
  }

  /** Two masks one after the other are one mask. */
  lemma TwoMasks(a: Byte, m: Byte, k: Byte)
    ensures ByteXor(ByteXor(a, m), k) == ByteXor(a, ByteXor(m, k))
  {
    XorAssociative(a, m, k, 8);
  }

  lemma PlainMasks(a: Byte)
    ensures ByteXor(a, 0) == a
    ensures ByteXor(a, 0x80) == if a < 128 then a + 128 else a - 128
    ensures ByteXor(a, 0xFF) == 255 - a
    ensures ByteXor(a, 0x7F) == if a < 128 then 127 - a else 383 - a
  {
    Pow2Values();
    Masks();
    XorZero(a, 8);
    XorTop(a, 8);
    XorFull(a, 8);
    XorAssociative(a, 0xFF, 0x80, 8);
    XorTop(255 - a, 8);
  }

  // ----- the segment number -----

  /** val_seg: the position of the leading bit, found by halving the candidate range. */
  function ValSeg(val: int): (r: nat)
    ensures r <= 7
  {
    var v0 := val / 128;
    var (v1, r1) := if (v0 / 16) % 16 != 0 then (v0 / 16, 4) else (v0, 0);
    var (v2, r2) := if (v1 / 4) % 4 != 0 then (v1 / 4, r1 + 2) else (v1, r1);
    if (v2 / 2) % 2 != 0 then r2 + 1 else r2
  }

  /** It is the binary exponent of the magnitude, counted from 2^7. */
  lemma ValSegIsExponent(v: int)
    requires 0 <= v < 32768
    ensures v < 128 ==> ValSeg(v) == 0
    ensures 128 <= v ==> Pow2(ValSeg(v) + 7) <= v < Pow2(ValSeg(v) + 8)
  {
    Pow2Values();
    var v0 := v / 128;
    if v0 >= 16 {
      assert ValSeg(v) >= 4;
      var v1 := v0 / 16;
      assert 1 <= v1 < 16;
    }
  }

  /** The exponent is unique, so any segment with the right bounds is the one val_seg finds. */
  lemma ValSegUnique(v: int, seg: nat)
    requires seg <= 7 && Pow2(seg + 7) <= v < Pow2(seg + 8)
    ensures ValSeg(v) == seg
  {
    Pow2Values();
    ValSegIsExponent(v);
  }

  /** The width of the quantisation steps of a segment. */
  function Step(seg: nat): (p: nat)
    ensures p >= 1
  {
    Pow2Positive(seg + 3);
    Pow2(seg + 3)
  }

  /** The middle of the quantisation step a magnitude falls into. */
  function Middle(m: nat): int {
    m / Step(ValSeg(m)) * Step(ValSeg(m)) + Step(ValSeg(m)) / 2
  }

  lemma {:induction false} Pow2Positive(n: nat)
    ensures Pow2(n) >= 1
  {
    if n > 0 {
      Pow2Positive(n - 1);
    }
  }

  /** The code bits wxyz: which of the sixteen steps of its segment a magnitude falls into. */
  function Code(m: nat): (c: nat)
    ensures c < 128
  {
    var seg := ValSeg(m);
    seg * 16 + m / Step(seg) % 16
  }

  /** Sixteen steps of width p span [16p, 32p). */
  lemma SixteenSteps(m: nat, p: nat)
    requires p >= 1 && 16 * p <= m < 32 * p
    ensures 16 <= m / p < 32 && m / p % 16 == m / p - 16
    ensures m / p * p <= m < m / p * p + p
  {
    var q := m / p;
    assert m == q * p + m % p;
    assert q <= 15 ==> q * p <= 15 * p;
    assert q >= 32 ==> q * p >= 32 * p;
  }

  /** Segment bounds, step width and decoder scale, all in terms of the step width. */
  lemma SegmentShape(seg: nat)
    ensures Pow2(seg + 7) == 16 * Step(seg) && Pow2(seg + 8) == 32 * Step(seg)
    ensures Step(seg) == 8 * Pow2(seg) && Step(seg) / 2 == 4 * Pow2(seg) && Pow2(seg + 2) == 4 * Pow2(seg)
  {
    assert Pow2(seg + 1) == 2 * Pow2(seg);
    assert Pow2(seg + 2) == 2 * Pow2(seg + 1);
    assert Pow2(seg + 3) == 2 * Pow2(seg + 2);
    assert Pow2(seg + 4) == 2 * Pow2(seg + 3);
    assert Pow2(seg + 5) == 2 * Pow2(seg + 4);
    assert Pow2(seg + 6) == 2 * Pow2(seg + 5);
    assert Pow2(seg + 7) == 2 * Pow2(seg + 6);
    assert Pow2(seg + 8) == 2 * Pow2(seg + 7);
  }

  /** Segment and step give the middle back. */
  lemma CodeMiddle(m: nat)
    requires 128 <= m < 32768
    ensures Code(m) / 16 == ValSeg(m)
    ensures (Code(m) % 16 * 8 + 0x84) * Pow2(ValSeg(m)) == Middle(m)
    ensures Middle(m) - Step(ValSeg(m)) / 2 <= m < Middle(m) + Step(ValSeg(m)) / 2
    ensures Pow2(ValSeg(m) + 7) < Middle(m) < Pow2(ValSeg(m) + 8)
  {
    hide ValSeg, Pow2, Step;
    var seg := ValSeg(m);
    var p, e, q := Step(seg), Pow2(seg), m / Step(seg);
    ValSegIsExponent(m);
    SegmentShape(seg);
    SixteenSteps(m, p);
    Digits(seg, q % 16);
    assert Code(m) == seg * 16 + q % 16;
    assert Middle(m) == q * p + p / 2;
    Scale(q, e);
    Widths(q, p);
  }

  lemma Digits(seg: nat, w: nat)
    requires w < 16
    ensures (seg * 16 + w) / 16 == seg && (seg * 16 + w) % 16 == w
  {
  }

  lemma Widths(q: nat, p: nat)
    requires 16 <= q < 32
    ensures 16 * p <= q * p && q * p + p <= 32 * p
  {
  }

  lemma Scale(q: nat, e: nat)
    ensures ((q - 16) * 8 + 0x84) * e == q * (8 * e) + 4 * e
  {
  }

  lemma {:induction false} Pow2Monotone(a: nat, b: nat)
    requires a <= b
    ensures Pow2(a) <= Pow2(b)
  {
    if a < b {
      Pow2Monotone(a, b - 1);
    }
  }

  lemma MiddleMonotone(m: nat, n: nat)
    requires 128 <= m <= n < 32768
    ensures Middle(m) <= Middle(n)
  {
    hide ValSeg, Pow2, Step;
    CodeMiddle(m);
    CodeMiddle(n);
    ValSegIsExponent(m);
    ValSegIsExponent(n);
    var s, t := ValSeg(m), ValSeg(n);
    if s < t {
      Pow2Monotone(s + 8, t + 7);
    } else if s > t {
      Pow2Monotone(t + 8, s + 7);
      assert false;
    } else {
      Floors(m, n, Step(s));
    }
  }

  lemma ProductOrder(a: nat, b: nat, p: nat)
    ensures a <= b ==> a * p <= b * p
  {
  }

  lemma Floors(m: nat, n: nat, p: nat)
    requires p >= 1 && m <= n
    ensures m / p * p <= n / p * p
  {
    var a, b := m / p, n / p;
    assert m == a * p + m % p && n == b * p + n % p;
    ProductOrder(a, b, p);
    ProductOrder(b + 1, a, p);
    assert (b + 1) * p == b * p + p;
  }

  function Abs(x: int): nat {
    if x < 0 then -x else x
  }

  // ----- mu-law -----

  const BIAS := 0x84
  const CLIP := 0x7FFF

  /** The biased, clipped magnitude that is encoded. */
  function UlawMagnitude(pcm: int): (m: nat)
    ensures BIAS <= m <= CLIP
  {
    var m := if pcm < 0 then BIAS - pcm else pcm + BIAS;
    if m > CLIP then CLIP else m
  }

  function S16ToUlaw(pcm: int): (r: Byte) {
    ByteXor(Code(UlawMagnitude(pcm)), if pcm < 0 then 0x7F else 0xFF)
  }

  /** The biased magnitude a seven-bit code stands for. */
  function Expand(c: nat): (t: nat) {
    (c % 16 * 8 + BIAS) * Pow2(c / 16)
  }

  function UlawToS16(u: Byte): (r: int) {
    var b := ByteXor(u, 0xFF);
    var t := Expand(b % 128);
    if b >= 128 then BIAS - t else t - BIAS
  }

  /** The complemented code word: sign and code come apart again. */
  lemma UlawDecodes(c: Byte, negative: bool)
    requires c < 128
    ensures UlawToS16(ByteXor(c, if negative then 0x7F else 0xFF)) == if negative then BIAS - Expand(c) else Expand(c) - BIAS
  {
    hide ByteXor, Expand;
    PlainMasks(c);
    PlainMasks(255 - c);
    PlainMasks(127 - c);
  }

  /** Step number `step` of segment number `segment` is where the magnitude m lies. */
  predicate LiesIn(m: int, segment: nat, step: nat) {
    segment <= 7 && step < 16 && (16 + step) * Pow2(segment + 3) <= m < (17 + step) * Pow2(segment + 3)
  }

  lemma CodeOf(m: nat, segment: nat, step: nat)
    requires LiesIn(m, segment, step)
    ensures Code(m) == 16 * segment + step
  {
    hide ValSeg, Pow2;
    SegmentShape(segment);
    var p := Step(segment);
    assert (16 + step) * p <= m < (17 + step) * p;
    WithinSegment(m, step, p);
    ValSegUnique(m, segment);
    SixteenSteps(m, p);
  }

  lemma WithinSegment(m: nat, step: nat, p: nat)
    requires p >= 1 && step < 16 && (16 + step) * p <= m < (17 + step) * p
    ensures 16 * p <= m < 32 * p && m / p == 16 + step
  {
    ProductOrder(16, 16 + step, p);
    ProductOrder(17 + step, 32, p);
    var q := m / p;
    assert m == q * p + m % p;
    ProductOrder(q + 1, 16 + step, p);
    ProductOrder(17 + step, q, p);
    assert (q + 1) * p == q * p + p;
  }

  /** The mu-law code word itself: sign, segment and step, each bit inverted. */
  lemma UlawCodeWord(x: int, segment: nat, step: nat)
    requires LiesIn(if Abs(x) + 132 > 32767 then 32767 else Abs(x) + 132, segment, step)
    ensures S16ToUlaw(x) == (if x >= 0 then 255 else 127) - (16 * segment + step)
  {
    hide ByteXor, Code, LiesIn;
    CodeOf(UlawMagnitude(x), segment, step);
    PlainMasks(Code(UlawMagnitude(x)));
  }

  /** Decoding an encoded sample gives the middle of its step, with the sample's sign. */
  lemma UlawDecodesToMiddle(x: int)
    ensures var m := Middle(UlawMagnitude(x)); UlawToS16(S16ToUlaw(x)) == if x < 0 then BIAS - m else m - BIAS
  {
    hide ValSeg, Pow2, Step, ByteXor, UlawToS16, Code, Middle;
    CodeMiddle(UlawMagnitude(x));
    UlawDecodes(Code(UlawMagnitude(x)), x < 0);
  }

  /** The error is at most half a step: 2^(seg+2). */
  lemma UlawError(x: int)
    requires -32635 <= x <= 32635
    ensures Abs(UlawToS16(S16ToUlaw(x)) - x) <= Pow2(ValSeg(UlawMagnitude(x)) + 2)
  {
    hide ValSeg, Pow2, Step, S16ToUlaw, UlawToS16, Middle, Code;
    UlawDecodesToMiddle(x);
    CodeMiddle(UlawMagnitude(x));
    SegmentShape(ValSeg(UlawMagnitude(x)));
  }

  lemma MiddleOfBias()
    ensures Middle(BIAS) == BIAS
  {
    assert ValSeg(BIAS) == 0;
    assert Step(0) == 8;
  }

  /** The clamp makes the compander monotone over all integers. */
  lemma UlawMonotone(x: int, y: int)
    requires x <= y
    ensures UlawToS16(S16ToUlaw(x)) <= UlawToS16(S16ToUlaw(y))
  {
    hide ValSeg, Pow2, Step, S16ToUlaw, UlawToS16, Middle;
    UlawDecodesToMiddle(x);
    UlawDecodesToMiddle(y);
    var m, n := UlawMagnitude(x), UlawMagnitude(y);
    if 0 <= x {
      MiddleMonotone(m, n);
    } else if y < 0 {
      MiddleMonotone(n, m);
    } else {
      MiddleMonotone(BIAS, m);
      MiddleMonotone(BIAS, n);
      MiddleOfBias();
    }
  }

  /** What a code expands to lies in the code's own segment and step. */
  lemma ExpandInSegment(c: nat)
    requires c < 128
    ensures Pow2(c / 16 + 7) < Expand(c) < Pow2(c / 16 + 8)
    ensures Expand(c) == (c % 16 + 16) * Step(c / 16) + Step(c / 16) / 2
  {
    hide Pow2, Step;
    var seg, q := c / 16, c % 16 + 16;
    SegmentShape(seg);
    Scale(q, Pow2(seg));
    Widths(q, Step(seg));
    PowOfSegment(seg);
  }

  lemma PowOfSegment(seg: nat)
    ensures Pow2(seg) >= 1
  {
    Pow2Positive(seg);
  }

  /** Encoding what a code expands to gives the code back. */
  lemma CodeOfExpand(c: nat)
    requires c < 128
    ensures BIAS <= Expand(c) <= CLIP && Code(Expand(c)) == c
    ensures Expand(c) == BIAS <==> c == 0
  {
    hide ValSeg, Pow2, Step, Expand;
    var seg, w := c / 16, c % 16;
    var t := Expand(c);
    ExpandInSegment(c);
    SegmentRange(seg);
    ValSegUnique(t, seg);
    SegmentShape(seg);
    SixteenSteps(t, Step(seg));
    Quotient(w + 16, Step(seg), Step(seg) / 2);
    PowOfSegment(seg);
    assert t / Step(seg) == w + 16;
    ExpandAtLeastBias(c);
  }

  lemma ExpandAtLeastBias(c: nat)
    ensures Expand(c) >= BIAS && (Expand(c) == BIAS <==> c == 0)
  {
    var a, e := c % 16 * 8 + BIAS, Pow2(c / 16);
    PowOfSegment(c / 16);
    assert a * e >= a && (e > 1 ==> a * e >= 2 * a) by { Scaling(a, e); }
    if c / 16 > 0 {
      Pow2Positive(c / 16 - 1);
    }
  }

  lemma Scaling(a: nat, e: nat)
    requires e >= 1
    ensures a * e >= a && (e > 1 ==> a * e >= 2 * a)
  {
    assert a * e == a + a * (e - 1);
    assert e > 1 ==> a * (e - 1) == a + a * (e - 2);
  }

  lemma Quotient(q: nat, p: nat, r: nat)
    requires r < p
    ensures (q * p + r) / p == q
  {
    var x := (q * p + r) / p;
    assert q * p + r == x * p + (q * p + r) % p;
    assert x < q ==> (x + 1) * p <= q * p;
    assert x > q ==> (q + 1) * p <= x * p;
  }

  lemma SegmentRange(seg: nat)
    requires seg <= 7
    ensures Pow2(seg + 8) <= 32768
  {
    Pow2Values();
    Pow2Monotone(seg + 8, 15);
  }

  /** Decoding then encoding restores every byte but the negative zero 0x7F, which becomes 0xFF. */
  lemma UlawByteRoundTrip(u: Byte)
    ensures S16ToUlaw(UlawToS16(u)) == if u == 0x7F then 0xFF else u
    ensures -32767 <= UlawToS16(u) <= 32767
  {
    hide ValSeg, Pow2, Step, ByteXor, Expand, Code;
    PlainMasks(u);
    var c := (255 - u) % 128;
    CodeOfExpand(c);
    PlainMasks(c);
    PlainMasks(0);
    assert UlawToS16(u) == if u < 128 then BIAS - Expand(c) else Expand(c) - BIAS;
  }

  /** The negative zero code is sent for exactly three samples. */
  lemma UlawEncodesNegativeZero(x: int)
    ensures S16ToUlaw(x) == 0x7F <==> -4 < x < 0
  {
    hide ValSeg, Pow2, Step, ByteXor, Code;
    var m := UlawMagnitude(x);
    PlainMasks(Code(m));
    CodeZero(m);
  }

  lemma CodeZero(m: nat)
    requires BIAS <= m <= CLIP
    ensures Code(m) == 0 <==> m < 136
  {
    Pow2Values();
    if m < 256 {
      assert ValSeg(m) == 0 && Step(0) == 8;
    } else {
      hide ValSeg, Step;
      ValSegIsExponent(m);
    }
  }

  /**
   Encoding, decoding and encoding again equals encoding once exactly outside -4 < x < 0: those
   samples are sent as negative zero, which decodes to 0 and comes back as positive zero.
   */
  lemma UlawIdempotent(x: int)
    ensures S16ToUlaw(UlawToS16(S16ToUlaw(x))) == S16ToUlaw(x) <==> !(-4 < x < 0)
  {
    hide S16ToUlaw, UlawToS16;
    UlawEncodesNegativeZero(x);
    UlawByteRoundTrip(S16ToUlaw(x));
  }

  lemma UlawNotIdempotentExample()
    ensures S16ToUlaw(-1) == 0x7F && S16ToUlaw(UlawToS16(S16ToUlaw(-1))) == 0xFF
  {
    hide S16ToUlaw, UlawToS16;
    UlawEncodesNegativeZero(-1);
    UlawByteRoundTrip(0x7F);
  }

  // ----- A-law -----

  /** Only the negative side is clamped. */
  function AlawMagnitude(pcm: int): (m: nat)
    ensures pcm <= CLIP ==> m <= CLIP
  {
    if pcm >= 0 then pcm else if -pcm > CLIP then CLIP else -pcm
  }

  /** The two lowest segments share steps of 16. */
  function AlawCode(m: nat): (c: nat)
    ensures c < 128
  {
    if m < 256 then m / 16 else Code(m)
  }

  function S16ToAlaw(pcm: int): (r: Byte) {
    ByteXor(AlawCode(AlawMagnitude(pcm)), if pcm >= 0 then 0xD5 else 0x55)
  }

  /** The magnitude a seven-bit code stands for. */
  function AlawExpand(c: nat): (t: int)
    requires c < 128
  {
    if c < 16 then c * 16 + 8
    else (c % 16 * 16 + 0x108) * Pow2(c / 16 - 1)
  }

  function AlawToS16(a: Byte): (r: int) {
    var b := ByteXor(a, 0x55);
    var t := AlawExpand(b % 128);
    if b >= 128 then t else -t
  }

  /** From the second segment on both laws share their steps. */
  lemma AlawExpandHigh(c: nat)
    requires 16 <= c < 128
    ensures AlawExpand(c) == Expand(c)
  {
    var e := Pow2(c / 16 - 1);
    assert Pow2(c / 16) == 2 * e;
    ScaleTwice(c % 16, e);
  }

  lemma ScaleTwice(w: nat, e: nat)
    ensures (w * 16 + 0x108) * e == (w * 8 + 0x84) * (2 * e)
  {
  }

  lemma AlawDecodes(c: Byte, positive: bool)
    requires c < 128
    ensures AlawToS16(ByteXor(c, if positive then 0xD5 else 0x55)) == if positive then AlawExpand(c) else -AlawExpand(c)
  {
    hide ByteXor, AlawExpand;
    MaskBytes();
    TwoMasks(c, 0xD5, 0x55);
    TwoMasks(c, 0x55, 0x55);
    PlainMasks(c);
  }

  lemma MaskBytes()
    ensures ByteXor(0xD5, 0x55) == 0x80 && ByteXor(0x55, 0x55) == 0 && ByteXor(0x55, 0xD5) == 0x80
  {
    Masks();
    assert Xor(2, 6, 3) == 4;
    assert Xor(5, 13, 4) == 8;
    assert Xor(10, 26, 5) == 16;
    assert Xor(21, 53, 6) == 32;
    assert Xor(42, 106, 7) == 64;
  }

  predicate Bit(b: nat) {
    b <= 1
  }

  function Differ(a: nat, b: nat): nat {
    if a == b then 0 else 1
  }

  lemma XorMore(a: nat, m: nat, b: nat, c: nat, x: nat, y: nat, bits: nat)
    requires Bit(b) && Bit(c) && a == b + 2 * x && m == c + 2 * y
    ensures Xor(a, m, bits + 1) == Differ(b, c) + 2 * Xor(x, y, bits)
  {
    assert a / 2 == x && m / 2 == y;
  }

  lemma XorNothing()
    ensures Xor(0, 0, 0) == 0
  {
  }

  lemma Differs(b: nat)
    requires Bit(b)
    ensures Differ(b, 1) == 1 - b && Differ(b, 0) == b && Differ(0, b) == b
  {
  }

  /** A word against 0x55, or against 0xD5 where `top` is 1: its even bits are inverted. */
  lemma EvenBitsInverted(b0: nat, b1: nat, b2: nat, b3: nat, b4: nat, b5: nat, b6: nat, top: nat, code: nat)
    requires Bit(b0) && Bit(b1) && Bit(b2) && Bit(b3) && Bit(b4) && Bit(b5) && Bit(b6) && Bit(top)
    requires code == b0 + 2 * b1 + 4 * b2 + 8 * b3 + 16 * b4 + 32 * b5 + 64 * b6
    ensures Xor(code, 0x55 + 128 * top, 8)
         == (1 - b0) + 2 * b1 + 4 * (1 - b2) + 8 * b3 + 16 * (1 - b4) + 32 * b5 + 64 * (1 - b6) + 128 * top
  {
    hide Xor, Differ;
    var c5 := b5 + 2 * b6;
    var c4 := b4 + 2 * c5;
    var c3 := b3 + 2 * c4;
    var c2 := b2 + 2 * c3;
    var c1 := b1 + 2 * c2;
    var m6 := 1 + 2 * top;
    XorMore(code, 0x55 + 128 * top, b0, 1, c1, 42 + 64 * top, 7);
    XorMore(c1, 42 + 64 * top, b1, 0, c2, 21 + 32 * top, 6);
    XorMore(c2, 21 + 32 * top, b2, 1, c3, 10 + 16 * top, 5);
    XorMore(c3, 10 + 16 * top, b3, 0, c4, 5 + 8 * top, 4);
    XorMore(c4, 5 + 8 * top, b4, 1, c5, 2 + 4 * top, 3);
    XorMore(c5, 2 + 4 * top, b5, 0, b6, m6, 2);
    XorMore(b6, m6, b6, 1, 0, top, 1);
    XorMore(0, top, 0, top, 0, 0, 0);
    XorNothing();
    Differs(b0);
    Differs(b1);
    Differs(b2);
    Differs(b3);
    Differs(b4);
    Differs(b5);
    Differs(b6);
    Differs(top);
  }

  /** The A-law code word: sign, segment and step, with its even bits inverted. */
  lemma AlawCodeWord(x: int, code: nat, b0: nat, b1: nat, b2: nat, b3: nat, b4: nat, b5: nat, b6: nat)
    requires x <= 32767
    requires var m := if Abs(x) > 32767 then 32767 else Abs(x);
      if m < 256 then code == m / 16 else LiesIn(m, code / 16, code % 16)
    requires Bit(b0) && Bit(b1) && Bit(b2) && Bit(b3) && Bit(b4) && Bit(b5) && Bit(b6)
    requires code == b0 + 2 * b1 + 4 * b2 + 8 * b3 + 16 * b4 + 32 * b5 + 64 * b6
    ensures S16ToAlaw(x)
         == (1 - b0) + 2 * b1 + 4 * (1 - b2) + 8 * b3 + 16 * (1 - b4) + 32 * b5 + 64 * (1 - b6) + if x >= 0 then 128 else 0
  {
    hide Xor, Code, LiesIn;
    var m := AlawMagnitude(x);
    if m >= 256 {
      CodeOf(m, code / 16, code % 16);
    }
    EvenBitsInverted(b0, b1, b2, b3, b4, b5, b6, if x >= 0 then 1 else 0, code);
  }

  /** The middle of the step a magnitude falls into. */
  function AlawMiddle(m: nat): int {
    if m < 256 then m / 16 * 16 + 8 else Middle(m)
  }

  lemma AlawCodeMiddle(m: nat)
    requires m <= CLIP
    ensures AlawExpand(AlawCode(m)) == AlawMiddle(m)
  {
    if m >= 256 {
      hide ValSeg, Step, Code, Middle, AlawExpand;
      Pow2Values();
      ValSegIsExponent(m);
      CodeMiddle(m);
      AlawExpandHigh(Code(m));
    }
  }

  lemma AlawDecodesToMiddle(x: int)
    requires x <= 32767
    ensures var m := AlawMiddle(AlawMagnitude(x)); AlawToS16(S16ToAlaw(x)) == if x >= 0 then m else -m
  {
    hide ByteXor, AlawToS16, AlawExpand, AlawCode, AlawMiddle;
    var m := AlawMagnitude(x);
    AlawDecodes(AlawCode(m), x >= 0);
    AlawCodeMiddle(m);
  }

  /** At most half a step: 8 in the two lowest segments, 2^(seg+2) above. */
  lemma AlawError(x: int)
    requires -32767 <= x <= 32767
    ensures var m := AlawMagnitude(x);
            Abs(AlawToS16(S16ToAlaw(x)) - x) <= if m < 256 then 8 else Pow2(ValSeg(m) + 2)
  {
    hide ValSeg, Pow2, Step, S16ToAlaw, AlawToS16, Middle, Code;
    AlawDecodesToMiddle(x);
    if AlawMagnitude(x) >= 256 {
      CodeMiddle(AlawMagnitude(x));
      SegmentShape(ValSeg(AlawMagnitude(x)));
    }
  }

  lemma AlawMiddleMonotone(m: nat, n: nat)
    requires m <= n <= CLIP
    ensures 0 < AlawMiddle(m) <= AlawMiddle(n)
  {
    hide ValSeg, Step, Middle, Code;
    Pow2Values();
    if m >= 256 {
      MiddleMonotone(m, n);
      CodeMiddle(m);
      hide Pow2;
      PowOfSegment(ValSeg(m) + 7);
    } else if n >= 256 {
      ValSegIsExponent(n);
      CodeMiddle(n);
      assert ValSeg(n) >= 1;
      Pow2Monotone(8, ValSeg(n) + 7);
    }
  }

  /** Over the 16-bit range, and below it, A-law companding is monotone. */
  lemma AlawMonotone(x: int, y: int)
    requires x <= y <= 32767
    ensures AlawToS16(S16ToAlaw(x)) <= AlawToS16(S16ToAlaw(y))
  {
    hide S16ToAlaw, AlawToS16, AlawMiddle;
    AlawDecodesToMiddle(x);
    AlawDecodesToMiddle(y);
    var m, n := AlawMagnitude(x), AlawMagnitude(y);
    if 0 <= x {
      AlawMiddleMonotone(m, n);
    } else if y < 0 {
      AlawMiddleMonotone(n, m);
    } else {
      AlawMiddleMonotone(0, m);
      AlawMiddleMonotone(0, n);
    }
  }

  /** Past the 16-bit range the missing clamp on the positive side breaks monotonicity. */
  lemma AlawNotMonotoneAbove()
    ensures AlawToS16(S16ToAlaw(32768)) == 8 < AlawToS16(S16ToAlaw(256))
  {
    hide ByteXor, AlawToS16;
    AlawDecodes(0, true);
    AlawDecodesToMiddle(256);
    AlawMiddleMonotone(255, 256);
    assert ValSeg(32768) == 0 && Step(0) == 8;
    assert AlawCode(32768) == 0;
    assert AlawExpand(0) == 8;
  }

  ghost predicate AlawNondecreasingUpTo(bound: int) {
    forall x, y | x <= y <= bound :: AlawToS16(S16ToAlaw(x)) <= AlawToS16(S16ToAlaw(y))
  }

  /** Decode after encode is nondecreasing on all samples up to a bound exactly if the bound is at most 32767. */
  lemma AlawMonotoneExactly(bound: int)
    ensures AlawNondecreasingUpTo(bound) <==> bound <= 32767
  {
    hide S16ToAlaw, AlawToS16;
    if bound <= 32767 {
      forall x, y | x <= y <= bound ensures AlawToS16(S16ToAlaw(x)) <= AlawToS16(S16ToAlaw(y)) {
        AlawMonotone(x, y);
      }
    } else {
      AlawNotMonotoneAbove();
      assert AlawToS16(S16ToAlaw(256)) > AlawToS16(S16ToAlaw(32768));
    }
  }

  lemma AlawCodeOfExpand(c: nat)
    requires c < 128
    ensures 0 < AlawExpand(c) <= CLIP && AlawCode(AlawExpand(c)) == c
  {
    if c >= 16 {
      hide ValSeg, Step, Code, AlawExpand, Expand;
      AlawExpandHigh(c);
      CodeOfExpand(c);
      ExpandInSegment(c);
      Pow2Values();
      Pow2Monotone(8, c / 16 + 7);
    }
  }

  /** Decoding then encoding restores every A-law byte. */
  lemma AlawByteRoundTrip(a: Byte)
    ensures S16ToAlaw(AlawToS16(a)) == a
    ensures -32767 <= AlawToS16(a) <= 32767
  {
    hide ByteXor, AlawExpand, AlawCode, Xor;
    var b := ByteXor(a, 0x55);
    AlawCodeOfExpand(b % 128);
    MaskBytes();
    TwoMasks(a, 0x55, 0x55);
    TwoMasks(a, 0x55, 0xD5);
    PlainMasks(a);
    AlawSignBit(a, b);
  }

  /** Masking a code word with or without the sign bit in the mask. */
  lemma AlawSignBit(a: Byte, b: Byte)
    requires b == ByteXor(a, 0x55)
    ensures ByteXor(b % 128, if b >= 128 then 0xD5 else 0x55) == a
  {
    hide ByteXor, Xor;
    MaskBytes();
    TwoMasks(a, 0x55, 0x55);
    PlainMasks(a);
    if b >= 128 {
      PlainMasks(b);
      TwoMasks(b, 0x80, 0xD5);
      SignMask();
    }
  }

  lemma SignMask()
    ensures ByteXor(0x80, 0xD5) == 0x55
  {
    assert Xor(4, 6, 3) == 2;
    assert Xor(8, 13, 4) == 5;
    assert Xor(16, 26, 5) == 10;
    assert Xor(32, 53, 6) == 21;
    assert Xor(64, 106, 7) == 42;
  }

  lemma AlawIdempotent(x: int)
    ensures S16ToAlaw(AlawToS16(S16ToAlaw(x))) == S16ToAlaw(x)
  {
    AlawByteRoundTrip(S16ToAlaw(x));
  }

  // ----- the buffer loops -----

  /** Halving as C does it, toward zero. */
  function Half(n: int): int {
    if n >= 0 then n / 2 else -(-n / 2)
  }

  method MulawDec(mulawData: array<Byte>, s16Data: array<int>, size: int)
    requires size <= mulawData.Length && size <= s16Data.Length
    modifies s16Data
    ensures forall i | 0 <= i < size :: s16Data[i] == UlawToS16(mulawData[i])
    ensures forall i | 0 <= i < s16Data.Length && size <= i :: s16Data[i] == old(s16Data[i])
  {
    var i := 0;
    while i < size
      invariant 0 <= i && (i <= size || i == 0)
      invariant forall j | 0 <= j < i :: s16Data[j] == UlawToS16(mulawData[j])
      invariant forall j | i <= j < s16Data.Length :: s16Data[j] == old(s16Data[j])
    {
      s16Data[i] := UlawToS16(mulawData[i]);
      i := i + 1;
    }
  }

  method MulawEnc(s16Data: array<int>, mulawData: array<Byte>, pcmSize: int)
    requires Half(pcmSize) <= mulawData.Length && Half(pcmSize) <= s16Data.Length
    modifies mulawData
    ensures forall i | 0 <= i < Half(pcmSize) :: mulawData[i] == S16ToUlaw(s16Data[i])
    ensures forall i | 0 <= i < mulawData.Length && Half(pcmSize) <= i :: mulawData[i] == old(mulawData[i])
  {
    var limit := Half(pcmSize);
    var i := 0;
    while i < limit
      invariant 0 <= i && (i <= limit || i == 0)
      invariant forall j | 0 <= j < i :: mulawData[j] == S16ToUlaw(s16Data[j])
      invariant forall j | i <= j < mulawData.Length :: mulawData[j] == old(mulawData[j])
    {
      mulawData[i] := S16ToUlaw(s16Data[i]);
      i := i + 1;
    }
  }

  method AlawDec(alawData: array<Byte>, s16Data: array<int>, size: int)
    requires size <= alawData.Length && size <= s16Data.Length
    modifies s16Data
    ensures forall i | 0 <= i < size :: s16Data[i] == AlawToS16(alawData[i])
    ensures forall i | 0 <= i < s16Data.Length && size <= i :: s16Data[i] == old(s16Data[i])
  {
    var i := 0;
    while i < size
      invariant 0 <= i && (i <= size || i == 0)
      invariant forall j | 0 <= j < i :: s16Data[j] == AlawToS16(alawData[j])
      invariant forall j | i <= j < s16Data.Length :: s16Data[j] == old(s16Data[j])
    {
      s16Data[i] := AlawToS16(alawData[i]);
      i := i + 1;
    }
  }

  method AlawEnc(s16Data: array<int>, alawData: array<Byte>, pcmSize: int)
    requires Half(pcmSize) <= alawData.Length && Half(pcmSize) <= s16Data.Length
    modifies alawData
    ensures forall i | 0 <= i < Half(pcmSize) :: alawData[i] == S16ToAlaw(s16Data[i])
    ensures forall i | 0 <= i < alawData.Length && Half(pcmSize) <= i :: alawData[i] == old(alawData[i])
  {
    var limit := Half(pcmSize);
    var i := 0;
    while i < limit
      invariant 0 <= i && (i <= limit || i == 0)
      invariant forall j | 0 <= j < i :: alawData[j] == S16ToAlaw(s16Data[j])
      invariant forall j | i <= j < alawData.Length :: alawData[j] == old(alawData[j])
    {
      alawData[i] := S16ToAlaw(s16Data[i]);
      i := i + 1;
    }
  }

  /** A whole A-law buffer survives decoding and encoding byte for byte; a mu-law one up to negative zero. */
  method RecodeBuffers(alaw: array<Byte>, mulaw: array<Byte>, s16: array<int>, size: nat)
    requires size <= alaw.Length && size <= mulaw.Length && size <= s16.Length && alaw != mulaw
    modifies alaw, mulaw, s16
    ensures alaw[..] == old(alaw[..])
    ensures forall i | 0 <= i < size :: mulaw[i] == if old(mulaw[i]) == 0x7F then 0xFF else old(mulaw[i])
  {
    AlawDec(alaw, s16, size);
    AlawEnc(s16, alaw, 2 * size);
    forall i | 0 <= i < size ensures alaw[i] == old(alaw[i]) {
      AlawByteRoundTrip(old(alaw[i]));
    }
    MulawDec(mulaw, s16, size);
    MulawEnc(s16, mulaw, 2 * size);
    forall i | 0 <= i < size ensures mulaw[i] == if old(mulaw[i]) == 0x7F then 0xFF else old(mulaw[i]) {
      UlawByteRoundTrip(old(mulaw[i]));
    }
  }
}
