/**
 The address printer of `libeXosip2-3.0.3-3/src/inet_ntop.c`, and the reader of section 2.2 of
 RFC 4291 it is inverted by.
 */
module InetNtop {
  import opened Numerals

  // ----- choosing the run of zeros -----

  /** A run of zero words; base -1 means there is none, as in the source. */
  datatype Run = Run(base: int, len: int)

  const NO_RUN := Run(-1, 0)

  predicate ZeroRun(words: seq<int>, base: int, len: int) {
    0 <= base && 1 <= len && base + len <= |words| && forall i | base <= i < base + len :: words[i] == 0
  }

  /** The leftmost of the longest zero runs within words[..end]. */
  ghost predicate Leading(words: seq<int>, end: int, best: Run) {
    && (best.base != -1 ==> ZeroRun(words, best.base, best.len) && best.base + best.len <= end)
    && forall b, l | ZeroRun(words, b, l) && b + l <= end ::
      best.base != -1 && (l < best.len || (l == best.len && best.base <= b))
  }

  /** Section 4.2 of RFC 5952: shorten the leftmost of the longest runs, and no single zero word. */
  ghost predicate Shortened(words: seq<int>, best: Run) {
    if best.base == -1 then forall b, l | ZeroRun(words, b, l) :: l < 2
    else best.len >= 2 && Leading(words, |words|, best)
  }

  function Better(best: Run, cur: Run): Run {
    if best.base == -1 || cur.len > best.len then cur else best
  }

  /** The scan from word i on, then the final comparison and the rejection of single zeros. */
  function Scan(words: seq<int>, i: nat, best: Run, cur: Run): Run
    requires i <= |words|
    decreases |words| - i
  {
    if i < |words| then
      if words[i] == 0 then
        Scan(words, i + 1, best, if cur.base == -1 then Run(i, 1) else Run(cur.base, cur.len + 1))
      else if cur.base != -1 then
        Scan(words, i + 1, Better(best, cur), NO_RUN)
      else
        Scan(words, i + 1, best, cur)
    else
      var last := if cur.base != -1 then Better(best, cur) else best;
      if last.base != -1 && last.len < 2 then NO_RUN else last
  }

  function BestRun(words: seq<int>): Run {
    Scan(words, 0, NO_RUN, NO_RUN)
  }

  /** What is known before looking at word i. */
  ghost predicate ScanState(words: seq<int>, i: nat, best: Run, cur: Run) {
    && i <= |words|
    && (cur.base == -1 ==> i == 0 || words[i - 1] != 0)
    && (cur.base != -1 ==> ZeroRun(words, cur.base, cur.len) && cur.base + cur.len == i)
    && (cur.base > 0 ==> words[cur.base - 1] != 0)
    && Leading(words, if cur.base == -1 then i else cur.base, best)
  }

  /** Closing the current run at i settles the best run up to there. */
  lemma CloseRun(words: seq<int>, i: nat, best: Run, cur: Run)
    requires ScanState(words, i, best, cur) && cur.base != -1
    ensures Leading(words, i, Better(best, cur))
  {
    if cur.base > 0 {
      assert words[cur.base - 1] != 0;
    }
  }

  lemma {:induction false} ScanFindsShortened(words: seq<int>, i: nat, best: Run, cur: Run)
    requires ScanState(words, i, best, cur)
    ensures Shortened(words, Scan(words, i, best, cur))
    decreases |words| - i
  {
    if i < |words| {
      if words[i] == 0 {
        ScanFindsShortened(words, i + 1, best, if cur.base == -1 then Run(i, 1) else Run(cur.base, cur.len + 1));
      } else {
        var b := if cur.base != -1 then Better(best, cur) else best;
        if cur.base != -1 {
          CloseRun(words, i, best, cur);
        }
        assert ScanState(words, i + 1, b, NO_RUN);
        ScanFindsShortened(words, i + 1, b, if cur.base != -1 then NO_RUN else cur);
      }
    } else if cur.base != -1 {
      CloseRun(words, i, best, cur);
    }
  }

  /** For word arrays of any length the scan follows section 4.2 of RFC 5952. */
  lemma BestRunIsShortened(words: seq<int>)
    ensures Shortened(words, BestRun(words))
  {
    ScanFindsShortened(words, 0, NO_RUN, NO_RUN);
  }

  /** and there is only one such run, so the choice is determined. */
  lemma ShortenedUnique(words: seq<int>, r: Run, s: Run)
    requires Shortened(words, r) && Shortened(words, s)
    ensures r.base == s.base && (r.base != -1 ==> r.len == s.len)
  {
    if r.base != -1 {
      assert ZeroRun(words, r.base, r.len);
    }
    if s.base != -1 {
      assert ZeroRun(words, s.base, s.len);
    }
  }

  method FindRun(words: seq<int>) returns (best: Run)
    ensures best == BestRun(words)
    ensures Shortened(words, best)
  {
    best := NO_RUN;
    var cur := NO_RUN;
    for i := 0 to |words|
      invariant Scan(words, i, best, cur) == BestRun(words)
    {
      if words[i] == 0 {
        if cur.base == -1 {
          cur := Run(i, 1);
        } else {
          cur := cur.(len := cur.len + 1);
        }
      } else {
        if cur.base != -1 {
          if best.base == -1 || cur.len > best.len {
            best := cur;
          }
          cur := NO_RUN;
        }
      }
    }
    if cur.base != -1 {
      if best.base == -1 || cur.len > best.len {
        best := cur;
      }
    }
    if best.base != -1 && best.len < 2 {
      best := NO_RUN;
    }
    BestRunIsShortened(words);
  }

  // ----- the printed text -----

  /** Sixteen-bit words from bytes, high byte first. */
  function Words(src: seq<Byte>): (w: Eight)
    requires |src| == 16
  {
    seq(8, i requires 0 <= i < 8 => src[2 * i] as int * 256 + src[2 * i + 1])
  }

  /** Dotted decimal. */
  function Ntop4(a: Byte, b: Byte, c: Byte, d: Byte): string {
    Digits(a, Decimal) + "." + Digits(b, Decimal) + "." + Digits(c, Decimal) + "." + Digits(d, Decimal)
  }

  function Tail4(src: seq<Byte>): string
    requires |src| == 16
  {
    Ntop4(src[12], src[13], src[14], src[15])
  }

  predicate Inside(best: Run, i: int) {
    best.base != -1 && best.base <= i < best.base + best.len
  }

  /** Eight sixteen-bit words. */
  type Eight = w: seq<int> | |w| == 8 && forall i | 0 <= i < 8 :: 0 <= w[i] < 0x10000 witness seq(8, _ => 0)

  /** An address whose last four bytes are printed as an IPv4 address. */
  predicate Embedded(words: Eight, best: Run) {
    best.base == 0 && (best.len == 6 || (best.len == 5 && words[5] == 0xffff))
  }

  /** Field i: a word in hexadecimal, or the dotted tail in place of the last two. */
  function Field(words: Eight, tail: string, best: Run, i: nat): string
    requires i < 8
  {
    if i == 6 && Embedded(words, best) then tail else Digits(words[i], Hexadecimal)
  }

  /** What iteration i of the formatting loop appends. */
  function Piece(words: Eight, tail: string, best: Run, i: nat): string
    requires i < 8
  {
    if Inside(best, i) then (if i == best.base then ":" else "")
    else (if i != 0 then ":" else "") + Field(words, tail, best, i)
  }

  function Body(words: Eight, tail: string, best: Run, n: nat): string
    requires n <= 8
  {
    if n == 0 then "" else Body(words, tail, best, n - 1) + Piece(words, tail, best, n - 1)
  }

  /** How many iterations run: the embedded form breaks out after the seventh. */
  function Iterations(words: Eight, best: Run): (n: nat)
    ensures n == 7 || n == 8
  {
    if Embedded(words, best) then 7 else 8
  }

  /** The text of eight words whose dotted tail would be `tail`. */
  function Text(words: Eight, tail: string, best: Run): string {
    Body(words, tail, best, Iterations(words, best))
    + if best.base != -1 && best.base + best.len == 8 then ":" else ""
  }

  function Ntop6(src: seq<Byte>): string
    requires |src| == 16
  {
    Text(Words(src), Tail4(src), BestRun(Words(src)))
  }

  lemma Ntop4Length(a: Byte, b: Byte, c: Byte, d: Byte)
    ensures |Ntop4(a, b, c, d)| <= 15
  {
    assert Power(Decimal, 1) == 10 && Power(Decimal, 2) == 100 && Power(Decimal, 3) == 1000;
    DigitsLength(a, Decimal, 3);
    DigitsLength(b, Decimal, 3);
    DigitsLength(c, Decimal, 3);
    DigitsLength(d, Decimal, 3);
  }

  lemma WordLength(w: nat)
    requires w < 0x10000
    ensures |Digits(w, Hexadecimal)| <= 4
  {
    assert Power(Hexadecimal, 1) == 16 && Power(Hexadecimal, 2) == 256 && Power(Hexadecimal, 3) == 4096;
    DigitsLength(w, Hexadecimal, 4);
  }

  /** Before an embedded IPv4 tail nothing but ":" or "::ffff" is printed. */
  lemma EmbeddedBody(words: Eight, tail: string, best: Run)
    requires Embedded(words, best)
    ensures |Body(words, tail, best, 6)| <= 6
  {
    WordLength(words[5]);
    assert Body(words, tail, best, 1) == ":";
    assert Body(words, tail, best, 2) == ":";
    assert Body(words, tail, best, 3) == ":";
    assert Body(words, tail, best, 4) == ":";
    assert Body(words, tail, best, 5) == ":";
  }

  lemma {:induction false} PlainBody(words: Eight, tail: string, best: Run, n: nat)
    requires n <= 8 && !Embedded(words, best)
    ensures |Body(words, tail, best, n)| <= 5 * n
  {
    hide Embedded;
    if n > 0 {
      PlainBody(words, tail, best, n - 1);
      WordLength(words[n - 1]);
    }
  }

  lemma TextFits(words: Eight, tail: string, best: Run)
    requires |tail| <= 15
    ensures |Text(words, tail, best)| + 1 <= 46
  {
    if Embedded(words, best) {
      EmbeddedBody(words, tail, best);
    } else {
      PlainBody(words, tail, best, 8);
    }
  }

  /** The text and its terminator fit the 46-byte temporary. */
  lemma Ntop6Fits(src: seq<Byte>)
    requires |src| == 16
    ensures |Ntop6(src)| + 1 <= 46
  {
    Ntop4Length(src[12], src[13], src[14], src[15]);
    TextFits(Words(src), Tail4(src), BestRun(Words(src)));
  }

  // ----- the form of the text -----

  /** The fields with colons between them. */
  function Joined(fields: seq<string>): string {
    if fields == [] then "" else if |fields| == 1 then fields[0] else fields[0] + ":" + Joined(fields[1..])
  }

  /**
   The addresses that end in dotted form: the first six words are zero and the seventh is not, or the
   first five are zero and the sixth has all its bits set.
   */
  predicate Dotted(src: seq<Byte>)
    requires |src| == 16
  {
    && (forall i | 0 <= i < 10 :: src[i] == 0)
    && ((src[10] == 0 && src[11] == 0 && (src[12] != 0 || src[13] != 0)) || (src[10] == 255 && src[11] == 255))
  }

  /** Word i in hexadecimal. */
  function Hex(src: seq<Byte>, i: nat): string
    requires |src| == 16 && i < 8
  {
    Digits(src[2 * i] as int * 256 + src[2 * i + 1], Hexadecimal)
  }

  function PrintedFields(src: seq<Byte>): (r: seq<string>)
    requires |src| == 16
    ensures |r| == if Dotted(src) then 7 else 8
  {
    if Dotted(src) then seq(6, i requires 0 <= i < 6 => Hex(src, i)) + [Ntop4(src[12], src[13], src[14], src[15])]
    else seq(8, i requires 0 <= i < 8 => Hex(src, i))
  }

  lemma RunAtFront(words: Eight, len: nat)
    requires 5 <= len <= 6 && (forall i | 0 <= i < len :: words[i] == 0) && words[len] != 0
    ensures BestRun(words) == Run(0, len)
  {
    var r := Run(0, len);
    assert ZeroRun(words, 0, len);
    forall b, l | ZeroRun(words, b, l) ensures l < len || (l == len && 0 <= b) {
      if b <= len < b + l {
        assert false;
      }
    }
    BestRunIsShortened(words);
    ShortenedUnique(words, BestRun(words), r);
  }

  lemma EmbeddedExactly(src: seq<Byte>)
    requires |src| == 16
    ensures Embedded(Words(src), BestRun(Words(src))) <==> Dotted(src)
  {
    var words := Words(src);
    var best := BestRun(words);
    if Dotted(src) {
      forall i | 0 <= i < 5 ensures words[i] == 0 {
        assert src[2 * i] == 0 && src[2 * i + 1] == 0;
      }
      assert words[5] == src[10] as int * 256 + src[11] && words[6] == src[12] as int * 256 + src[13];
      RunAtFront(words, if src[10] == 0 then 6 else 5);
    }
    if Embedded(words, best) {
      BestRunIsShortened(words);
      EmbeddedZeros(words, best);
      forall i | 0 <= i < 10 ensures src[i] == 0 {
        assert words[i / 2] == 0;
      }
      assert words[5] == src[10] as int * 256 + src[11] && words[6] == src[12] as int * 256 + src[13];
    }
  }

  lemma EmbeddedZeros(words: Eight, best: Run)
    requires Embedded(words, best) && Shortened(words, best)
    ensures forall i | 0 <= i < 5 :: words[i] == 0
    ensures (words[5] == 0 && words[6] != 0) || words[5] == 0xffff
  {
    assert ZeroRun(words, 0, best.len);
    if best.len == 6 && words[6] == 0 {
      assert ZeroRun(words, 0, 7);
    }
  }

  lemma {:induction false} JoinedMore(fields: seq<string>, x: string)
    ensures Joined(fields + [x]) == if fields == [] then x else Joined(fields) + ":" + x
  {
    if |fields| == 1 {
      assert (fields + [x])[1..] == [x];
    } else if fields != [] {
      assert (fields + [x])[1..] == fields[1..] + [x];
      JoinedMore(fields[1..], x);
    }
  }

  lemma FieldAt(src: seq<Byte>, i: nat)
    requires |src| == 16 && i < |PrintedFields(src)|
    ensures Field(Words(src), Tail4(src), BestRun(Words(src)), i) == PrintedFields(src)[i]
  {
    hide BestRun, Digits, Ntop4, Embedded, Dotted, Words;
    EmbeddedExactly(src);
    if i < 6 || !Dotted(src) {
      WordAt(src, i);
    }
  }

  lemma WordAt(src: seq<Byte>, i: nat)
    requires |src| == 16 && i < 8
    ensures Digits(Words(src)[i], Hexadecimal) == Hex(src, i)
  {
    hide Digits;
  }

  lemma {:induction false} BodyBefore(src: seq<Byte>, best: Run, n: nat)
    requires |src| == 16 && best == BestRun(Words(src)) && n <= |PrintedFields(src)| && (best.base != -1 ==> n <= best.base)
    ensures Body(Words(src), Tail4(src), best, n) == Joined(PrintedFields(src)[..n])
  {
    hide BestRun, PrintedFields, Field, Tail4, Words;
    if n > 0 {
      BodyBefore(src, best, n - 1);
      FieldAt(src, n - 1);
      assert PrintedFields(src)[..n] == PrintedFields(src)[..n - 1] + [PrintedFields(src)[n - 1]];
      JoinedMore(PrintedFields(src)[..n - 1], PrintedFields(src)[n - 1]);
    }
  }

  lemma {:induction false} BodyInside(src: seq<Byte>, best: Run, n: nat)
    requires |src| == 16 && best == BestRun(Words(src)) && best.base != -1 && 0 <= best.base < n <= best.base + best.len <= 8
    requires best.base <= |PrintedFields(src)|
    ensures Body(Words(src), Tail4(src), best, n) == Joined(PrintedFields(src)[..best.base]) + ":"
  {
    hide BestRun, PrintedFields, Field, Tail4, Words;
    if n == best.base + 1 {
      BodyBefore(src, best, n - 1);
    } else {
      BodyInside(src, best, n - 1);
    }
  }

  lemma {:induction false} BodyBehind(src: seq<Byte>, best: Run, n: nat)
    requires |src| == 16 && best == BestRun(Words(src)) && best.base != -1 && 0 <= best.base && best.len >= 1
    requires best.base + best.len < n <= |PrintedFields(src)|
    ensures Body(Words(src), Tail4(src), best, n)
         == Joined(PrintedFields(src)[..best.base]) + "::" + Joined(PrintedFields(src)[best.base + best.len..n])
  {
    hide BestRun, PrintedFields, Field, Tail4, Words, Joined, Body;
    var f, e := PrintedFields(src), best.base + best.len;
    var left, x := Joined(f[..best.base]), f[n - 1];
    FieldAt(src, n - 1);
    PieceBehind(Words(src), Tail4(src), best, n, x);
    assert f[e..n] == f[e..n - 1] + [x];
    JoinedMore(f[e..n - 1], x);
    if n == e + 1 {
      BodyInside(src, best, n - 1);
      assert f[e..n - 1] == [];
      assert (left + ":") + (":" + x) == left + "::" + x;
    } else {
      BodyBehind(src, best, n - 1);
      var right := Joined(f[e..n - 1]);
      assert (left + "::" + right) + (":" + x) == left + "::" + (right + ":" + x);
    }
  }

  lemma PieceBehind(words: Eight, tail: string, best: Run, n: nat, x: string)
    requires 0 <= best.base && best.len >= 1 && best.base + best.len < n <= 8 && Field(words, tail, best, n - 1) == x
    ensures Body(words, tail, best, n) == Body(words, tail, best, n - 1) + (":" + x)
  {
    hide Field;
  }

  /**
   The text in full: the words in hexadecimal without zeros in front, the last two in dotted form where
   the address is dotted, with colons between them, and two colons in place of the leftmost of the
   longest runs of at least two zero words.
   */
  lemma Ntop6Form(src: seq<Byte>, run: Run)
    requires |src| == 16 && Shortened(Words(src), run)
    ensures var f := PrintedFields(src);
      if run.base == -1 then Ntop6(src) == Joined(f)
      else 0 <= run.base && run.base + run.len <= |f| && Ntop6(src) == Joined(f[..run.base]) + "::" + Joined(f[run.base + run.len..])
  {
    hide BestRun, Digits, Ntop4, Words, Tail4, PrintedFields, Body;
    var words, f := Words(src), PrintedFields(src);
    var best := BestRun(words);
    BestRunIsShortened(words);
    ShortenedUnique(words, best, run);
    EmbeddedExactly(src);
    assert |f| == Iterations(words, best);
    if run.base == -1 {
      BodyBefore(src, best, |f|);
      assert f[..|f|] == f;
    } else {
      assert ZeroRun(words, run.base, run.len);
      if run.base + run.len < |f| {
        BodyBehind(src, best, |f|);
        assert f[run.base + run.len..|f|] == f[run.base + run.len..];
      } else {
        BodyInside(src, best, 8);
        assert f[8..] == [];
      }
    }
  }

  // ----- the printers -----

  /**
   The dotted form and its terminator, written at `at`, unless the form is longer than `size`. What is
   written stays inside the `size` cells offered exactly if the form is not as long as `size`: the
   terminator is not counted in the check, so the cell behind the offered ones must exist here.
   */
  method InetNtop4(src: seq<Byte>, dst: array<char>, at: nat, size: int) returns (written: Option<nat>)
    requires |src| == 4 && 0 <= size && at + size < dst.Length
    modifies dst
    ensures var text := Ntop4(src[0], src[1], src[2], src[3]);
      && (written.None? <==> |text| > size)
      && (written.Some? ==>
            && written.value == |text| + 1
            && dst[at..at + written.value] == text + ['\0']
            && (written.value <= size <==> |text| != size))
    ensures dst[..at] == old(dst[..at])
    ensures var end := at + if written.Some? then written.value else 0; dst[end..] == old(dst[end..])
  {
    hide Ntop4;
    var tmp := Ntop4(src[0], src[1], src[2], src[3]);
    if |tmp| > size {
      return None;
    }
    var text := tmp + ['\0'];
    for i := 0 to |text|
      invariant dst[at..at + i] == text[..i]
      invariant dst[..at] == old(dst[..at]) && dst[at + |text|..] == old(dst[at + |text|..])
    {
      dst[at + i] := text[i];
      assert dst[at..at + i + 1] == dst[at..at + i] + [text[i]];
    }
    assert text[..|text|] == text;
    written := Some(|text|);
  }

  /** An address whose text is exactly as long as the room: the terminator lands in the eighth of seven cells. */
  method OneCellTooMany(dst: array<char>) returns (written: Option<nat>)
    requires dst.Length == 8
    modifies dst
    ensures written == Some(8) && dst[..] == "1.1.1.1" + ['\0']
  {
    assert Digits(1, Decimal) == "1";
    assert Ntop4(1, 1, 1, 1) == "1.1.1.1";
    written := InetNtop4([1, 1, 1, 1], dst, 0, 7);
    assert dst[0..0 + 8] == dst[..];
  }

  /** The bytes or-ed pairwise into words; the two halves of a word have no bit in common. */
  method CollectWords(src: seq<Byte>) returns (words: Eight)
    requires |src| == 16
    ensures words == Words(src)
  {
    var ws: seq<int> := [0, 0, 0, 0, 0, 0, 0, 0];
    for i := 0 to 16
      invariant |ws| == 8
      invariant forall j | 0 <= j < 8 ::
          ws[j] == (if 2 * j < i then src[2 * j] as int * 256 else 0) + (if 2 * j + 1 < i then src[2 * j + 1] else 0)
    {
      ws := ws[i / 2 := ws[i / 2] + src[i] as int * (if i % 2 == 0 then 256 else 1)];
    }
    assert ws == Words(src);
    words := ws;
  }

  /** The formatting loop. */
  method FormatWords(src: seq<Byte>, words: Eight, best: Run) returns (tp: string)
    requires |src| == 16
    ensures tp == Text(words, Tail4(src), best)
  {
    ghost var tail := Tail4(src);
    assert |tail| <= 15 by { Ntop4Length(src[12], src[13], src[14], src[15]); }
    hide Digits, Tail4;
    tp := "";
    var i := 0;
    var embedded := false;
    while i < 8 && !embedded
      invariant 0 <= i <= 8
      invariant i == 8 ==> !Embedded(words, best)
      invariant embedded ==> i == 7 && Embedded(words, best)
      invariant i == 7 && !embedded ==> !Embedded(words, best)
      invariant tp == Body(words, tail, best, i)
      decreases 8 - i
    {
      ghost var before := tp;
      if Inside(best, i) {
        if i == best.base {
          tp := tp + ":";
        }
        assert tp == before + Piece(words, tail, best, i);
      } else {
        if i != 0 {
          tp := tp + ":";
        }
        if i == 6 && best.base == 0 && (best.len == 6 || (best.len == 5 && words[5] == 0xffff)) {
          EmbeddedBody(words, tail, best);
          var printed := PrintTail(src, 46 - |tp|);
          tp := tp + printed;
          embedded := true;
        } else {
          tp := tp + Digits(words[i], Hexadecimal);
        }
        Regroup(before, if i != 0 then ":" else "", Field(words, tail, best, i));
        assert tp == before + Piece(words, tail, best, i);
      }
      i := i + 1;
    }
    if best.base != -1 && best.base + best.len == 8 {
      tp := tp + ":";
    }
  }

  method InetNtop6(src: seq<Byte>, size: int) returns (dst: Option<string>)
    requires |src| == 16
    ensures dst == if |Ntop6(src)| + 1 > size then None else Some(Ntop6(src))
  {
    var words := CollectWords(src);
    var best := FindRun(words);
    var tp := FormatWords(src, words, best);
    if |tp| + 1 > size {
      return None;
    }
    dst := Some(tp);
  }

  /** The inner call of _inet_ntop4: with at least 16 bytes left it cannot fail, and stays inside them. */
  method PrintTail(src: seq<Byte>, room: int) returns (tail: string)
    requires |src| == 16 && room >= 16
    ensures tail == Tail4(src)
  {
    Ntop4Length(src[12], src[13], src[14], src[15]);
    var tmp := new char[room + 1];
    var written := InetNtop4(src[12..], tmp, 0, room);
    tail := tmp[..written.value - 1];
    assert tail == tmp[0..written.value][..written.value - 1] == Tail4(src);
  }

  // ----- reading an address: section 2.2 of RFC 4291 -----

  /** The fields between separators. */
  function SplitOn(s: string, sep: char): (r: seq<string>)
    ensures |r| >= 1
  {
    if s == "" then [""]
    else
      var r := SplitOn(s[..|s| - 1], sep);
      if s[|s| - 1] == sep then r + [""]
      else r[..|r| - 1] + [r[|r| - 1] + [s[|s| - 1]]]
  }

  /** The position of the first "::". */
  function Gap(t: string): (r: Option<nat>)
    ensures r.Some? ==> r.value + 2 <= |t|
  {
    if |t| < 2 then None
    else if t[0] == ':' && t[1] == ':' then Some(0)
    else match Gap(t[1..])
      case None => None
      case Some(i) => Some(i + 1)
  }

  /** One to four hexadecimal digits. */
  function ParseH16(f: string): Option<nat> {
    if 1 <= |f| <= 4 && AllDigits(f, Hexadecimal) then Some(Value(f, Hexadecimal)) else None
  }

  /** One to three decimal digits denoting at most 255. */
  function ParseOctet(f: string): Option<nat> {
    if 1 <= |f| <= 3 && AllDigits(f, Decimal) && Value(f, Decimal) <= 255 then Some(Value(f, Decimal)) else None
  }

  /** d.d.d.d as two words. */
  function Parse4(f: string): Option<seq<nat>> {
    var fs := SplitOn(f, '.');
    if |fs| != 4 then None
    else match (ParseOctet(fs[0]), ParseOctet(fs[1]), ParseOctet(fs[2]), ParseOctet(fs[3]))
      case (Some(a), Some(b), Some(c), Some(d)) => Some([a * 256 + b, c * 256 + d])
      case _ => None
  }

  function ParseWords(fs: seq<string>): Option<seq<nat>> {
    if fs == [] then Some([])
    else match (ParseWords(fs[..|fs| - 1]), ParseH16(fs[|fs| - 1]))
      case (Some(ws), Some(w)) => Some(ws + [w])
      case _ => None
  }

  /** Words, of which the last two may be written as an IPv4 address. */
  function ParseFields(fs: seq<string>): Option<seq<nat>> {
    if fs != [] && ParseH16(fs[|fs| - 1]).None? then
      match (ParseWords(fs[..|fs| - 1]), Parse4(fs[|fs| - 1]))
      case (Some(ws), Some(tail)) => Some(ws + tail)
      case _ => None
    else ParseWords(fs)
  }

  function FieldsOf(s: string): seq<string> {
    if s == "" then [] else SplitOn(s, ':')
  }

  function Zeros(n: nat): (r: seq<nat>)
    ensures |r| == n && forall i | 0 <= i < n :: r[i] == 0
  {
    seq(n, _ => 0)
  }

  /** The eight words a text denotes: "::" stands for one or more groups of zeros. */
  function ParseAddress(t: string): Option<seq<nat>> {
    match Gap(t)
    case None =>
      (match ParseFields(FieldsOf(t))
       case Some(ws) => if |ws| == 8 then Some(ws) else None
       case None => None)
    case Some(i) =>
      match (ParseWords(FieldsOf(t[..i])), ParseFields(FieldsOf(t[i + 2..])))
      case (Some(l), Some(r)) =>
        if |l| + |r| <= 7 then Some(l + Zeros(8 - |l| - |r|) + r) else None
      case _ => None
  }

  // ----- the shape of the printed text -----

  function Join(fs: seq<string>): string {
    if fs == [] then ""
    else if |fs| == 1 then fs[0]
    else Join(fs[..|fs| - 1]) + ":" + fs[|fs| - 1]
  }

  function Fields(words: Eight, tail: string, best: Run, lo: nat, hi: nat): (r: seq<string>)
    requires lo <= hi <= 8
    ensures |r| == hi - lo
  {
    if lo == hi then [] else Fields(words, tail, best, lo, hi - 1) + [Field(words, tail, best, hi - 1)]
  }

  lemma JoinNext(fs: seq<string>, f: string)
    ensures Join(fs + [f]) == Join(fs) + (if fs != [] then ":" else "") + f
  {
    assert (fs + [f])[..|fs|] == fs;
  }

  lemma {:induction false} BodyShape(words: Eight, tail: string, best: Run, n: nat)
    requires n <= 8
    requires best.base == -1 || (0 <= best.base && 1 <= best.len && best.base + best.len <= 8)
    ensures best.base == -1 || n <= best.base ==>
              Body(words, tail, best, n) == Join(Fields(words, tail, best, 0, n))
    ensures best.base != -1 && best.base < n <= best.base + best.len ==>
              Body(words, tail, best, n) == Join(Fields(words, tail, best, 0, best.base)) + ":"
    ensures best.base != -1 && best.base + best.len < n ==>
              Body(words, tail, best, n) == Join(Fields(words, tail, best, 0, best.base)) + "::"
                                          + Join(Fields(words, tail, best, best.base + best.len, n))
  {
    hide Field, Embedded, Join;
    if n == 0 {
      assert Join([]) == "" by { EmptyJoin(); }
    } else {
      var i := n - 1;
      BodyShape(words, tail, best, i);
      var f := Field(words, tail, best, i);
      if best.base == -1 || n <= best.base {
        JoinNext(Fields(words, tail, best, 0, i), f);
        Regroup(Body(words, tail, best, i), if i != 0 then ":" else "", f);
      } else if n <= best.base + best.len {
        Regroup(Body(words, tail, best, i), "", "");
      } else {
        var hi := best.base + best.len;
        var l, r := Join(Fields(words, tail, best, 0, best.base)), Join(Fields(words, tail, best, hi, i));
        JoinNext(Fields(words, tail, best, hi, i), f);
        EmptyJoin();
        assert Body(words, tail, best, n) == Body(words, tail, best, i) + (":" + f);
        if i == hi {
          assert (l + ":") + (":" + f) == l + "::" + (r + "" + f);
        } else {
          assert (l + "::" + r) + (":" + f) == l + "::" + (r + ":" + f);
        }
      }
    }
  }

  lemma Regroup(a: string, b: string, c: string)
    ensures a + b + c == a + (b + c) && a + "" == a
  {
  }

  lemma EmptyJoin()
    ensures Join([]) == ""
  {
  }

  /** Either eight fields, or the fields around one "::". */
  lemma TextShape(words: Eight, tail: string, best: Run)
    requires Shortened(words, best)
    ensures if best.base == -1 then Text(words, tail, best) == Join(Fields(words, tail, best, 0, 8))
            else
              && 0 <= best.base && best.len >= 2 && best.base + best.len <= Iterations(words, best)
              && Text(words, tail, best) == Join(Fields(words, tail, best, 0, best.base)) + "::"
                 + Join(Fields(words, tail, best, best.base + best.len, Iterations(words, best)))
  {
    hide Field, Join, Body;
    BodyShape(words, tail, best, Iterations(words, best));
    EmptyJoin();
  }

  // ----- reading back what was printed -----

  predicate Free(s: string, sep: char) {
    sep !in s
  }

  lemma {:induction false} SplitField(s: string, f: string, sep: char)
    requires Free(f, sep)
    ensures SplitOn(s + [sep] + f, sep) == SplitOn(s, sep) + [f]
  {
    var t := s + [sep] + f;
    if f == "" {
      assert t[..|t| - 1] == s;
    } else {
      SplitField(s, f[..|f| - 1], sep);
      assert t[..|t| - 1] == s + [sep] + f[..|f| - 1];
      assert t[|t| - 1] == f[|f| - 1];
      assert f == f[..|f| - 1] + [f[|f| - 1]];
    }
  }

  lemma {:induction false} SplitOne(f: string, sep: char)
    requires Free(f, sep)
    ensures SplitOn(f, sep) == [f]
  {
    if f != "" {
      SplitOne(f[..|f| - 1], sep);
      assert f == f[..|f| - 1] + [f[|f| - 1]];
    }
  }

  /** A field of an address: not empty, and without a colon. */
  predicate IsField(f: string) {
    f != "" && Free(f, ':')
  }

  predicate AllFields(fs: seq<string>) {
    forall i | 0 <= i < |fs| :: IsField(fs[i])
  }

  lemma {:induction false} SplitJoin(fs: seq<string>)
    requires fs != [] && AllFields(fs)
    ensures Join(fs) != "" && SplitOn(Join(fs), ':') == fs
  {
    var last := |fs| - 1;
    if last == 0 {
      SplitOne(fs[0], ':');
    } else {
      SplitJoin(fs[..last]);
      SplitField(Join(fs[..last]), fs[last], ':');
      assert fs == fs[..last] + [fs[last]];
    }
  }

  lemma FieldsOfJoin(fs: seq<string>)
    requires AllFields(fs)
    ensures FieldsOf(Join(fs)) == fs
  {
    if fs != [] {
      SplitJoin(fs);
    }
  }

  /** No two colons meet, and none is at either end. */
  predicate Tight(t: string) {
    && (t != "" ==> t[0] != ':' && t[|t| - 1] != ':')
    && forall i | 0 <= i < |t| - 1 :: !(t[i] == ':' && t[i + 1] == ':')
  }

  lemma {:induction false} JoinTight(fs: seq<string>)
    requires AllFields(fs)
    ensures Tight(Join(fs))
  {
    if fs != [] {
      var last := |fs| - 1;
      var f := fs[last];
      assert IsField(f);
      assert f[0] in f && f[|f| - 1] in f;
      if last > 0 {
        JoinTight(fs[..last]);
        SplitJoin(fs[..last]);
        var s := Join(fs[..last]);
        var t := s + ":" + f;
        forall i | 0 <= i < |t| - 1 ensures !(t[i] == ':' && t[i + 1] == ':') {
          if i > |s| {
            assert t[i] == f[i - |s| - 1];
          } else if i + 1 < |s| {
            assert t[i] == s[i] && t[i + 1] == s[i + 1];
          }
        }
      } else {
        forall i | 0 <= i < |f| - 1 ensures !(f[i] == ':' && f[i + 1] == ':') {
          assert f[i] in f;
        }
      }
    }
  }

  lemma {:induction false} GapFirst(t: string, i: nat)
    requires i + 2 <= |t| && t[i] == ':' && t[i + 1] == ':'
    requires forall j | 0 <= j < i :: !(t[j] == ':' && t[j + 1] == ':')
    ensures Gap(t) == Some(i)
  {
    if i > 0 {
      forall j | 0 <= j < i - 1 ensures !(t[1..][j] == ':' && t[1..][j + 1] == ':') {
        assert t[1..][j] == t[j + 1] && t[1..][j + 1] == t[j + 2];
      }
      GapFirst(t[1..], i - 1);
    }
  }

  lemma {:induction false} GapNone(t: string)
    requires forall j | 0 <= j < |t| - 1 :: !(t[j] == ':' && t[j + 1] == ':')
    ensures Gap(t) == None
  {
    if |t| >= 2 {
      forall j | 0 <= j < |t[1..]| - 1 ensures !(t[1..][j] == ':' && t[1..][j + 1] == ':') {
        assert t[1..][j] == t[j + 1] && t[1..][j + 1] == t[j + 2];
      }
      GapNone(t[1..]);
    }
  }

  /** Between two tight texts the gap is found where it was put. */
  lemma GapBetween(l: string, r: string)
    requires Tight(l) && Tight(r)
    ensures Gap(l + "::" + r) == Some(|l|)
  {
    var t := l + "::" + r;
    forall j | 0 <= j < |l| ensures !(t[j] == ':' && t[j + 1] == ':') {
      assert t[j] == l[j];
      if j + 1 < |l| {
        assert t[j + 1] == l[j + 1];
      }
    }
    GapFirst(t, |l|);
  }

  lemma DigitsFree(n: nat, b: Base, c: char)
    requires DigitValue(c) == -1
    ensures Free(Digits(n, b), c)
  {
    DigitsRoundTrip(n, b);
    var s := Digits(n, b);
    forall i | 0 <= i < |s| ensures s[i] != c {
      assert IsDigit(s[i], b);
    }
  }

  lemma ParseH16Word(w: nat)
    requires w < 0x10000
    ensures ParseH16(Digits(w, Hexadecimal)) == Some(w) && IsField(Digits(w, Hexadecimal))
  {
    WordLength(w);
    DigitsRoundTrip(w, Hexadecimal);
    DigitsFree(w, Hexadecimal, ':');
  }

  lemma ParseOctetByte(b: Byte)
    ensures ParseOctet(Digits(b, Decimal)) == Some(b)
    ensures Free(Digits(b, Decimal), '.') && Free(Digits(b, Decimal), ':')
  {
    assert Power(Decimal, 1) == 10 && Power(Decimal, 2) == 100 && Power(Decimal, 3) == 1000;
    DigitsLength(b, Decimal, 3);
    DigitsRoundTrip(b, Decimal);
    DigitsFree(b, Decimal, '.');
    DigitsFree(b, Decimal, ':');
  }

  /** The dotted form reads back as its two words, and cannot be taken for a hexadecimal group. */
  lemma Parse4Ntop4(a: Byte, b: Byte, c: Byte, d: Byte)
    ensures Parse4(Ntop4(a, b, c, d)) == Some([a as int * 256 + b, c as int * 256 + d])
    ensures ParseH16(Ntop4(a, b, c, d)) == None && IsField(Ntop4(a, b, c, d))
  {
    hide ParseOctet, SplitOn, Digits;
    ParseOctetByte(a);
    ParseOctetByte(b);
    ParseOctetByte(c);
    ParseOctetByte(d);
    var da, db, dc, dd := Digits(a, Decimal), Digits(b, Decimal), Digits(c, Decimal), Digits(d, Decimal);
    SplitOne(da, '.');
    SplitField(da, db, '.');
    SplitField(da + "." + db, dc, '.');
    SplitField(da + "." + db + "." + dc, dd, '.');
    assert SplitOn(Ntop4(a, b, c, d), '.') == [da, db, dc, dd];
  }

  lemma {:induction false} ParseWordsOf(words: Eight, tail: string, best: Run, lo: nat, hi: nat)
    requires lo <= hi <= 8 && (Embedded(words, best) ==> hi <= 6)
    ensures ParseWords(Fields(words, tail, best, lo, hi)) == Some(words[lo..hi])
    ensures AllFields(Fields(words, tail, best, lo, hi))
  {
    hide Embedded, ParseH16, Digits, IsField;
    if lo < hi {
      ParseWordsOf(words, tail, best, lo, hi - 1);
      ParseH16Word(words[hi - 1]);
      var fs := Fields(words, tail, best, lo, hi);
      assert fs[..|fs| - 1] == Fields(words, tail, best, lo, hi - 1);
      assert words[lo..hi] == words[lo..hi - 1] + [words[hi - 1]];
    } else {
      assert words[lo..hi] == [];
    }
  }

  /** A tail that reads as the last two words and as nothing else. */
  predicate TailOf(words: Eight, tail: string) {
    Parse4(tail) == Some([words[6], words[7]]) && ParseH16(tail) == None && IsField(tail)
  }

  /** The fields after the gap, or all of them, read back as the words from `lo` on. */
  lemma ParseFieldsOf(words: Eight, tail: string, best: Run, lo: nat)
    requires lo <= Iterations(words, best) && (Embedded(words, best) ==> lo <= 6) && TailOf(words, tail)
    ensures ParseFields(Fields(words, tail, best, lo, Iterations(words, best))) == Some(words[lo..])
    ensures AllFields(Fields(words, tail, best, lo, Iterations(words, best)))
  {
    hide Embedded, ParseWords, Parse4, ParseH16, Digits, IsField;
    if Embedded(words, best) {
      ParseWordsOf(words, tail, best, lo, 6);
      var fs := Fields(words, tail, best, lo, 7);
      assert fs[..|fs| - 1] == Fields(words, tail, best, lo, 6);
      assert words[lo..] == words[lo..6] + [words[6], words[7]];
    } else {
      ParseWordsOf(words, tail, best, lo, 8);
      assert words[lo..8] == words[lo..];
      ParseH16Word(words[7]);
    }
  }

  lemma ParseText(words: Eight, tail: string, best: Run)
    requires TailOf(words, tail) && Shortened(words, best)
    ensures ParseAddress(Text(words, tail, best)) == Some(words)
  {
    var n := Iterations(words, best);
    TextShape(words, tail, best);
    if best.base == -1 {
      hide Fields, ParseFields, Gap, FieldsOf, Join, Text, TailOf, Shortened;
      RightReads(words, tail, best, 0);
      GapNone(Join(Fields(words, tail, best, 0, 8)));
      assert words[0..] == words;
    } else {
      assert ZeroRun(words, best.base, best.len);
      ParseGap(words, tail, best);
    }
  }

  lemma ParseGap(words: Eight, tail: string, best: Run)
    requires TailOf(words, tail)
    requires 0 <= best.base && best.len >= 2 && best.base + best.len <= Iterations(words, best)
    requires ZeroRun(words, best.base, best.len)
    ensures ParseAddress(Join(Fields(words, tail, best, 0, best.base)) + "::"
                         + Join(Fields(words, tail, best, best.base + best.len, Iterations(words, best)))) == Some(words)
  {
    var hi := best.base + best.len;
    hide Fields, ParseFields, ParseWords, FieldsOf, Join, TailOf, ZeroRun, ParseAddress, Zeros, Tight;
    LeftReads(words, tail, best, best.base);
    RightReads(words, tail, best, hi);
    ParseAroundGap(Join(Fields(words, tail, best, 0, best.base)),
                   Join(Fields(words, tail, best, hi, Iterations(words, best))), words[0..best.base], words[hi..]);
    WordsAroundGap(words, best);
  }

  lemma LeftReads(words: Eight, tail: string, best: Run, hi: nat)
    requires hi <= 8 && (Embedded(words, best) ==> hi <= 6)
    ensures Tight(Join(Fields(words, tail, best, 0, hi)))
    ensures ParseWords(FieldsOf(Join(Fields(words, tail, best, 0, hi)))) == Some(words[0..hi])
  {
    hide Fields, ParseWords, FieldsOf, Join, Tight, AllFields;
    ParseWordsOf(words, tail, best, 0, hi);
    FieldsOfJoin(Fields(words, tail, best, 0, hi));
    JoinTight(Fields(words, tail, best, 0, hi));
  }

  lemma RightReads(words: Eight, tail: string, best: Run, lo: nat)
    requires lo <= Iterations(words, best) && (Embedded(words, best) ==> lo <= 6) && TailOf(words, tail)
    ensures Tight(Join(Fields(words, tail, best, lo, Iterations(words, best))))
    ensures ParseFields(FieldsOf(Join(Fields(words, tail, best, lo, Iterations(words, best))))) == Some(words[lo..])
  {
    hide Fields, ParseFields, FieldsOf, Join, Tight, AllFields, TailOf;
    var fs := Fields(words, tail, best, lo, Iterations(words, best));
    ParseFieldsOf(words, tail, best, lo);
    FieldsOfJoin(fs);
    JoinTight(fs);
  }

  lemma WordsAroundGap(words: Eight, best: Run)
    requires ZeroRun(words, best.base, best.len)
    ensures words == words[0..best.base] + Zeros(best.len) + words[best.base + best.len..]
  {
  }

  lemma ParseAroundGap(l: string, r: string, ls: seq<nat>, rs: seq<nat>)
    requires Tight(l) && Tight(r) && |ls| + |rs| <= 7
    requires ParseWords(FieldsOf(l)) == Some(ls) && ParseFields(FieldsOf(r)) == Some(rs)
    ensures ParseAddress(l + "::" + r) == Some(ls + Zeros(8 - |ls| - |rs|) + rs)
  {
    hide ParseFields, ParseWords, Gap, FieldsOf, Tight;
    var t := l + "::" + r;
    GapBetween(l, r);
    assert t[..|l|] == l && t[|l| + 2..] == r;
  }

  /** Reading the printed text gives the address back, for every address. */
  lemma ParseNtop6(src: seq<Byte>)
    requires |src| == 16
    ensures ParseAddress(Ntop6(src)) == Some(Words(src))
  {
    hide Words, Tail4, ParseAddress, BestRun, Shortened, Text, TailOf;
    TailReads(src);
    BestRunIsShortened(Words(src));
    ParseText(Words(src), Tail4(src), BestRun(Words(src)));
  }

  lemma TailReads(src: seq<Byte>)
    requires |src| == 16
    ensures TailOf(Words(src), Tail4(src))
  {
    hide Ntop4, Parse4, ParseH16;
    Parse4Ntop4(src[12], src[13], src[14], src[15]);
    assert Words(src)[6] == src[12] as int * 256 + src[13] && Words(src)[7] == src[14] as int * 256 + src[15];
  }

  lemma WordsInjective(a: seq<Byte>, b: seq<Byte>)
    requires |a| == |b| == 16 && Words(a) == Words(b)
    ensures a == b
  {
    forall i | 0 <= i < 16 ensures a[i] == b[i] {
      assert Words(a)[i / 2] == Words(b)[i / 2];
    }
  }

  /** So no two addresses print alike. */
  lemma Ntop6Injective(a: seq<Byte>, b: seq<Byte>)
    requires |a| == |b| == 16 && Ntop6(a) == Ntop6(b)
    ensures a == b
  {
    ParseNtop6(a);
    ParseNtop6(b);
    WordsInjective(a, b);
  }
}
