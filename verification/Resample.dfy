/**
 The microphone resampler of `SIPEngine/sound_resample.c`: it picks input samples at a fractional
 stride, filters them through fir_double_h with a delay line that lives across calls, and
 compands the result.

 Samples and the stride are reals; single-precision rounding of the stride is not modelled.
 */
module Resample {
  import opened Fir
  import opened Companding
  import opened Numerals

  const NTAPS := 8

  const H: seq<real> := [
    -0.192761875, 0.121943383, -2.085947762, 0.635617843,
    0.635617843, -2.085947762, 0.121943383, -0.192761875
  ]

  // ----- what the stream means -----

  /** Conversion of a double to a short: toward zero, then the low 16 bits. */
  function ToShort(x: real): (r: int)
    ensures -32768 <= r < 32768
    ensures 0.0 <= x < 32768.0 ==> r as real <= x < (r + 1) as real
    ensures -32769.0 < x <= 0.0 ==> (r - 1) as real < x <= r as real
  {
    var t := if x >= 0.0 then x.Floor else -((-x).Floor);
    (t + 32768) % 65536 - 32768
  }

  function Compand(pcm: int, payload: int): Byte {
    if payload == 0 then S16ToUlaw(pcm) else S16ToAlaw(pcm)
  }

  /** A sample picked from the input, with the payload type it will be sent under. */
  datatype Pick = Pick(sample: real, payload: int)

  function Samples(picks: seq<Pick>): (r: seq<real>)
    ensures |r| == |picks|
  {
    seq(|picks|, i requires 0 <= i < |picks| => picks[i].sample)
  }

  /** The bytes for `picks`, when `history` went through the filter before. */
  function Emitted(taps: seq<real>, history: seq<real>, picks: seq<Pick>): (r: seq<Byte>)
    ensures |r| == |picks|
  {
    if picks == [] then []
    else
      var last := |picks| - 1;
      Emitted(taps, history, picks[..last])
      + [Compand(ToShort(Convolution(taps, history + Samples(picks))), picks[last].payload)]
  }

  /** Byte i is the companded convolution of everything heard up to pick i. */
  lemma {:induction false} EmittedAt(taps: seq<real>, history: seq<real>, picks: seq<Pick>, i: nat)
    requires i < |picks|
    ensures Emitted(taps, history, picks)[i]
         == Compand(ToShort(Convolution(taps, history + Samples(picks)[..i + 1])), picks[i].payload)
  {
    var last := |picks| - 1;
    if i < last {
      EmittedAt(taps, history, picks[..last], i);
      assert Samples(picks[..last])[..i + 1] == Samples(picks)[..i + 1];
    } else {
      assert Samples(picks)[..i + 1] == Samples(picks);
    }
  }

  /** Under payload type 0 it is the mu-law code that is sent, under any other the A-law code. */
  lemma EmittedByte(taps: seq<real>, history: seq<real>, picks: seq<Pick>, i: nat)
    requires i < |picks|
    ensures var pcm := ToShort(Convolution(taps, history + Samples(picks)[..i + 1]));
      Emitted(taps, history, picks)[i] == if picks[i].payload == 0 then S16ToUlaw(pcm) else S16ToAlaw(pcm)
  {
    hide Emitted, Convolution, ToShort, S16ToUlaw, S16ToAlaw, Samples;
    EmittedAt(taps, history, picks, i);
  }

  /** Cutting the stream between two calls makes no difference. */
  lemma {:induction false} StreamConsistent(taps: seq<real>, history: seq<real>, a: seq<Pick>, b: seq<Pick>)
    ensures Emitted(taps, history, a + b) == Emitted(taps, history, a) + Emitted(taps, history + Samples(a), b)
  {
    hide Samples, Convolution, Compand, ToShort;
    if b == [] {
      assert a + b == a;
    } else {
      var last := |b| - 1;
      var ab := a + b;
      StreamConsistent(taps, history, a, b[..last]);
      SamplesJoin(history, a, b);
      assert ab[..|ab| - 1] == a + b[..last] && ab[|ab| - 1] == b[last];
      var sent := [Compand(ToShort(Convolution(taps, history + Samples(ab))), b[last].payload)];
      assert Emitted(taps, history, ab) == Emitted(taps, history, a + b[..last]) + sent;
    }
  }

  lemma SamplesJoin(history: seq<real>, a: seq<Pick>, b: seq<Pick>)
    ensures history + Samples(a + b) == history + Samples(a) + Samples(b)
  {
  }

  /** One more pick: its sample joins the history, its byte the output. */
  lemma EmittedNext(taps: seq<real>, history: seq<real>, picks: seq<Pick>, p: Pick)
    ensures history + Samples(picks + [p]) == history + Samples(picks) + [p.sample]
    ensures Emitted(taps, history, picks + [p]) == Emitted(taps, history, picks)
         + [Compand(ToShort(Convolution(taps, history + Samples(picks) + [p.sample])), p.payload)]
  {
    var all := picks + [p];
    assert all[..|all| - 1] == picks && all[|all| - 1] == p;
    assert history + Samples(all) == history + Samples(picks) + [p.sample];
  }

  function Flatten(calls: seq<seq<Pick>>): seq<Pick> {
    if calls == [] then [] else calls[0] + Flatten(calls[1..])
  }

  /** The bytes of a sequence of calls, the history carried from each to the next. */
  function EmittedByCalls(taps: seq<real>, history: seq<real>, calls: seq<seq<Pick>>): seq<Byte>
    decreases |calls|
  {
    if calls == [] then []
    else Emitted(taps, history, calls[0]) + EmittedByCalls(taps, history + Samples(calls[0]), calls[1..])
  }

  /** Any sequence of calls sends what one call over the concatenated picks would have sent. */
  lemma {:induction false} CallsJoin(taps: seq<real>, history: seq<real>, calls: seq<seq<Pick>>)
    ensures EmittedByCalls(taps, history, calls) == Emitted(taps, history, Flatten(calls))
    decreases |calls|
  {
    hide Samples, Emitted;
    if calls != [] {
      CallsJoin(taps, history + Samples(calls[0]), calls[1..]);
      StreamConsistent(taps, history, calls[0], Flatten(calls[1..]));
    }
  }

  // ----- the picked indices -----

  function Factor(inLen: int, outLen: int): real
    requires outLen > 0
  {
    inLen as real / outLen as real
  }

  function Scaled(i: int, factor: real): int {
    (i as real * factor).Floor
  }

  /** Output i of outLen takes input floor(i * inLen / outLen). */
  function PickedIndex(i: nat, inLen: nat, outLen: nat): (k: int)
    requires outLen > 0
  {
    Scaled(i, Factor(inLen, outLen))
  }

  /** It is the exact integer quotient, inside the input, and moves only forward. */
  lemma PickedIndexInRange(i: nat, inLen: nat, outLen: nat)
    requires i < outLen && inLen > 0
    ensures PickedIndex(i, inLen, outLen) == i * inLen / outLen
    ensures 0 <= PickedIndex(i, inLen, outLen) < inLen
    ensures i > 0 ==> PickedIndex(i - 1, inLen, outLen) <= PickedIndex(i, inLen, outLen)
  {
    ExactQuotient(i, inLen, outLen);
    QuotientBelow(i, inLen, outLen);
    if i > 0 {
      ExactQuotient(i - 1, inLen, outLen);
      QuotientGrows(i - 1, inLen, outLen);
    }
  }

  lemma QuotientBelow(i: nat, n: nat, m: nat)
    requires i < m && n > 0
    ensures 0 <= i * n / m < n
  {
    var x := i * n;
    assert x < m * n by { Products(i, m, n); }
    assert x == x / m * m + x % m;
    Products(n, x / m, m);
  }

  lemma Products(a: nat, b: nat, n: nat)
    requires n > 0
    ensures a < b ==> a * n < b * n
    ensures a <= b ==> a * n <= b * n
  {
  }

  lemma QuotientGrows(i: nat, n: nat, m: nat)
    requires m > 0
    ensures i * n / m <= (i + 1) * n / m
  {
    var x, y := i * n, (i + 1) * n;
    assert y == x + n;
    assert x == x / m * m + x % m && y == y / m * m + y % m;
    Products(y / m + 1, x / m, m);
    assert (y / m + 1) * m == y / m * m + m;
  }

  lemma ExactQuotient(i: nat, n: nat, m: nat)
    requires m > 0
    ensures PickedIndex(i, n, m) == i * n / m
  {
    var x := i as real * (n as real / m as real);
    var k := i * n / m;
    var r := i * n % m;
    assert i * n == k * m + r;
    ScaleBack(i as real, n as real, m as real);
    assert (i * n) as real == i as real * n as real;
    assert (k * m) as real == k as real * m as real;
    Between(x, k as real, r as real, m as real);
  }

  lemma ScaleBack(i: real, n: real, m: real)
    requires m > 0.0
    ensures i * (n / m) * m == i * n
  {
    assert n / m * m == n;
    assert i * (n / m) * m == i * (n / m * m);
  }

  lemma Between(x: real, k: real, r: real, m: real)
    requires x * m == k * m + r && 0.0 <= r < m
    ensures k <= x < k + 1.0
  {
    var d := x - k;
    assert d * m == r;
    assert d >= 1.0 ==> d * m >= m;
    assert d < 0.0 ==> d * m < 0.0;
  }

  function Picks(input: seq<int>, inLen: nat, outLen: nat, payload: int, n: nat): (r: seq<Pick>)
    requires n <= outLen && (n > 0 ==> 0 < inLen <= |input|)
    ensures |r| == n
  {
    if n == 0 then []
    else
      PickedIndexInRange(n - 1, inLen, outLen);
      Picks(input, inLen, outLen, payload, n - 1)
      + [Pick(input[PickedIndex(n - 1, inLen, outLen)] as real, payload)]
  }

  /** Pick i is input sample i * inLen / outLen, under the payload type of the call. */
  lemma {:induction false} PicksAt(input: seq<int>, inLen: nat, outLen: nat, payload: int, n: nat, i: nat)
    requires i < n <= outLen && 0 < inLen <= |input|
    ensures 0 <= i * inLen / outLen < inLen
    ensures Picks(input, inLen, outLen, payload, n)[i] == Pick(input[i * inLen / outLen] as real, payload)
  {
    PickedIndexInRange(i, inLen, outLen);
    PickedIndexInRange(n - 1, inLen, outLen);
    if i < n - 1 {
      PicksAt(input, inLen, outLen, payload, n - 1, i);
    }
  }

  // ----- the resampler -----

  class Resampler {
    var h2: array<real>
    var z: array<real>
    var state: int
    ghost var history: seq<real>

    /** The delay line holds the history, whatever the coefficients are. */
    ghost predicate Line()
      reads this, h2, z
    {
      && h2.Length == 2 * NTAPS && z.Length == 2 * NTAPS && h2 != z
      && Reversed(z[..], NTAPS, state, history)
    }

    ghost predicate Valid()
      reads this, h2, z
    {
      Line() && DoubledTaps(h2[..], H)
    }

    /** The static storage: all zero. */
    constructor ()
      ensures Line() && history == [] && fresh(h2) && fresh(z)
      ensures h2[..] == seq(2 * NTAPS, _ => 0.0)
    {
      h2 := new real[2 * NTAPS](_ => 0.0);
      z := new real[2 * NTAPS](_ => 0.0);
      state := 0;
      history := [];
      new;
      assert h2[..] == seq(2 * NTAPS, _ => 0.0);
      ClearedLine(z[..], NTAPS, 0);
    }

    method ResampleAudioInit()
      requires Line()
      modifies h2
      ensures Valid()
    {
      for i := 0 to NTAPS
        invariant forall j | 0 <= j < i :: h2[j] == H[j] && h2[j + NTAPS] == H[j]
      {
        h2[i + NTAPS] := H[i];
        h2[i] := H[i];
      }
    }

    method ResampleAudio(inBuffer: array<int>, inLen: int, outBuffer: array<Byte>, outLen: int, rtpPayload: int)
      requires Valid()
      requires 0 <= outLen <= outBuffer.Length
      requires 0 <= inLen <= inBuffer.Length && (outLen > 0 ==> inLen > 0)
      modifies this`state, this`history, z, outBuffer
      ensures Valid()
      ensures history == old(history) + Samples(Picks(inBuffer[..], inLen, outLen, rtpPayload, outLen))
      ensures outBuffer[..outLen] == Emitted(H, old(history), Picks(inBuffer[..], inLen, outLen, rtpPayload, outLen))
      ensures outBuffer[outLen..] == old(outBuffer[outLen..])
      ensures |history| == |old(history)| + outLen && history[..|old(history)|] == old(history)
      ensures forall i | 0 <= i < outLen ::
        var pcm := ToShort(Convolution(H, history[..|old(history)| + i + 1]));
        outBuffer[i] == if rtpPayload == 0 then S16ToUlaw(pcm) else S16ToAlaw(pcm)
    {
      hide Factor, Scaled, Samples, Emitted, Convolution, ToShort, Reversed, DoubledTaps, S16ToUlaw, S16ToAlaw, Companding.ByteXor;
      ghost var before := history;
      ghost var input := inBuffer[..];
      if outLen > 0 {
        var factor := Factor(inLen, outLen);
        for i := 0 to outLen
          invariant Valid()
          invariant history == before + Samples(Picks(input, inLen, outLen, rtpPayload, i))
          invariant outBuffer[..i] == Emitted(H, before, Picks(input, inLen, outLen, rtpPayload, i))
          invariant outBuffer[outLen..] == old(outBuffer[outLen..])
          invariant inBuffer[..] == input
        {
          PickedIndexInRange(i, inLen, outLen);
          var index := Scaled(i, factor);
          ghost var picks := Picks(input, inLen, outLen, rtpPayload, i);
          EmittedNext(H, before, picks, Pick(input[index] as real, rtpPayload));
          var y;
          y, state := DoubleH(inBuffer[index] as real, NTAPS, h2, z, state, H, history);
          history := history + [input[index] as real];
          var output := ToShort(y);
          if rtpPayload == 0 {
            outBuffer[i] := S16ToUlaw(output);
          } else {
            outBuffer[i] := S16ToAlaw(output);
          }
          assert outBuffer[..i + 1] == outBuffer[..i] + [outBuffer[i]];
        }
      }
      ghost var picks := Picks(input, inLen, outLen, rtpPayload, outLen);
      forall i | 0 <= i < outLen
        ensures var pcm := ToShort(Convolution(H, history[..|before| + i + 1]));
          outBuffer[i] == if rtpPayload == 0 then S16ToUlaw(pcm) else S16ToAlaw(pcm)
      {
        EmittedByte(H, before, picks, i);
        PicksAt(input, inLen, outLen, rtpPayload, outLen, i);
        assert history[..|before| + i + 1] == before + Samples(picks)[..i + 1];
        assert outBuffer[i] == outBuffer[..outLen][i];
      }
    }
  }

  // ----- sequences of calls -----

  /** The arguments of one call of ResampleAudio. */
  datatype Block = Block(input: seq<int>, outLen: nat, payload: int)

  predicate Playable(b: Block) {
    b.outLen > 0 ==> b.input != []
  }

  function PicksOf(b: Block): seq<Pick>
    requires Playable(b)
  {
    Picks(b.input, |b.input|, b.outLen, b.payload, b.outLen)
  }

  function AllPicks(blocks: seq<Block>): seq<Pick>
    requires forall b | b in blocks :: Playable(b)
  {
    if blocks == [] then []
    else AllPicks(blocks[..|blocks| - 1]) + PicksOf(blocks[|blocks| - 1])
  }

  /**
   Any sequence of calls on one resampler, with buffers of any lengths, sends what the filter makes
   of all picked samples in a row.
   */
  method ResampleBlocks(r: Resampler, blocks: seq<Block>) returns (sent: seq<Byte>)
    requires r.Valid() && forall b | b in blocks :: Playable(b)
    modifies r, r.z
    ensures r.Valid() && r.history == old(r.history) + Samples(AllPicks(blocks))
    ensures sent == Emitted(H, old(r.history), AllPicks(blocks))
    ensures |sent| == |AllPicks(blocks)| && forall i | 0 <= i < |sent| ::
      var pcm := ToShort(Convolution(H, old(r.history) + Samples(AllPicks(blocks))[..i + 1]));
      sent[i] == if AllPicks(blocks)[i].payload == 0 then S16ToUlaw(pcm) else S16ToAlaw(pcm)
  {
    hide Picks, Samples, Emitted, AllPicks, PicksOf, Convolution, ToShort, S16ToUlaw, S16ToAlaw;
    ghost var before := r.history;
    sent := [];
    NothingSent(before);
    for n := 0 to |blocks|
      invariant r.Valid() && r.z == old(r.z) && r.h2 == old(r.h2)
      invariant r.history == before + Samples(AllPicks(blocks[..n]))
      invariant sent == Emitted(H, before, AllPicks(blocks[..n]))
    {
      var b := blocks[n];
      assert b in blocks;
      var input := new int[|b.input|](i requires 0 <= i < |b.input| => b.input[i]);
      var output := new Byte[b.outLen](_ => 0);
      assert input[..] == b.input;
      OneMoreBlock(before, blocks, n);
      r.ResampleAudio(input, input.Length, output, b.outLen, b.payload);
      sent := sent + output[..b.outLen];
    }
    assert blocks[..|blocks|] == blocks;
    forall i | 0 <= i < |sent|
      ensures var pcm := ToShort(Convolution(H, before + Samples(AllPicks(blocks))[..i + 1]));
        sent[i] == if AllPicks(blocks)[i].payload == 0 then S16ToUlaw(pcm) else S16ToAlaw(pcm)
    {
      EmittedByte(H, before, AllPicks(blocks), i);
    }
  }

  lemma NothingSent(history: seq<real>)
    ensures AllPicks([]) == [] && history + Samples([]) == history && Emitted(H, history, []) == []
  {
  }

  lemma OneMoreBlock(history: seq<real>, blocks: seq<Block>, n: nat)
    requires n < |blocks| && forall b | b in blocks :: Playable(b)
    ensures var a, p := AllPicks(blocks[..n]), PicksOf(blocks[n]); var all := AllPicks(blocks[..n + 1]);
      && p == Picks(blocks[n].input, |blocks[n].input|, blocks[n].outLen, blocks[n].payload, blocks[n].outLen)
      && history + Samples(all) == history + Samples(a) + Samples(p)
      && Emitted(H, history, all) == Emitted(H, history, a) + Emitted(H, history + Samples(a), p)
  {
    hide Picks, Samples, Emitted;
    var a, p := AllPicks(blocks[..n]), PicksOf(blocks[n]);
    assert blocks[..n + 1][..n] == blocks[..n];
    StreamConsistent(H, history, a, p);
    SamplesJoin(history, a, p);
  }
}
