/**
 The rtpmap strings of `ortp-0.13.1/src/payloadtype.c` (section 6 of RFC 4566): printing a
 payload type as "name/rate/1" and finding a payload number from such a string.
 */
module RtpMap {
  import opened Numerals

  const MAX_PAYLOADS := 128

  datatype PayloadType = PayloadType(mimeType: string, clockRate: int)

  type Profile = p: seq<Option<PayloadType>> | |p| == MAX_PAYLOADS witness seq(MAX_PAYLOADS, _ => None)

  predicate Int32(n: int) {
    -0x8000_0000 <= n < 0x8000_0000
  }

  // ----- C library functions -----

  /** printf's %i. */
  function IntText(n: int): string {
    if n < 0 then "-" + Digits(-n, Decimal) else Digits(n, Decimal)
  }

  /** snprintf keeps at most len - 1 characters. */
  function Snprintf(s: string, len: nat): string {
    if |s| < len then s else if len == 0 then "" else s[..len - 1]
  }

  function IsSpace(c: char): bool {
    c == ' ' || '\t' <= c <= '\r'
  }

  /** The value of the digits a string starts with, `acc` having been read already. */
  function ReadDigits(s: string, acc: nat): nat {
    if s != "" && IsDigit(s[0], Decimal) then ReadDigits(s[1..], acc * 10 + DigitValue(s[0])) else acc
  }

  /** atoi: spaces, one sign, then digits; whatever follows is ignored. */
  function Atoi(s: string): int {
    if s != "" && IsSpace(s[0]) then Atoi(s[1..])
    else if s != "" && s[0] == '-' then 0 - ReadDigits(s[1..], 0)
    else if s != "" && s[0] == '+' then ReadDigits(s[1..], 0)
    else ReadDigits(s, 0)
  }

  /** strchr: the position of the first c. */
  function Strchr(s: string, c: char): (r: Option<nat>)
    ensures match r
            case Some(i) => i < |s| && s[i] == c && c !in s[..i]
            case None => c !in s
  {
    if s == "" then None
    else if s[0] == c then Some(0)
    else match Strchr(s[1..], c)
      case None => None
      case Some(i) =>
        assert s[..i + 1] == [s[0]] + s[1..][..i];
        Some(i + 1)
  }

  // ----- the two directions -----

  function RtpmapText(pt: PayloadType): string {
    pt.mimeType + "/" + IntText(pt.clockRate) + "/1"
  }

  /** payload_type_get_rtpmap, with the buffer it allocates. */
  function GetRtpmap(pt: PayloadType): string {
    Snprintf(RtpmapText(pt), |pt.mimeType| + 15)
  }

  predicate Matches(p: Option<PayloadType>, mime: string, rate: int) {
    p.Some? && EqualFold(p.value.mimeType, mime) && p.value.clockRate == rate
  }

  /** The lowest matching index, or -1. */
  ghost predicate Lowest(profile: Profile, mime: string, rate: int, r: int) {
    if r == -1 then forall i | 0 <= i < MAX_PAYLOADS :: !Matches(profile[i], mime, rate)
    else
      && 0 <= r < MAX_PAYLOADS && Matches(profile[r], mime, rate)
      && forall i | 0 <= i < r :: !Matches(profile[i], mime, rate)
  }

  method FindPayloadNumber(profile: Profile, mime: string, rate: int) returns (r: int)
    ensures Lowest(profile, mime, rate, r)
  {
    for i := 0 to MAX_PAYLOADS
      invariant forall j | 0 <= j < i :: !Matches(profile[j], mime, rate)
    {
      var pt := profile[i];
      if pt.Some? {
        if EqualFold(pt.value.mimeType, mime) && pt.value.clockRate == rate {
          return i;
        }
      }
    }
    r := -1;
  }

  /** Name and rate as the parser cuts them out: None without a '/'. */
  function Cut(rtpmap: string): Option<(string, int)> {
    match Strchr(rtpmap, '/')
    case None => None
    case Some(p) =>
      var c := rtpmap[p + 1..];
      match Strchr(c, '/')
      case None => Some((rtpmap[..p], Atoi(c)))
      case Some(q) => Some((rtpmap[..p], Atoi(c[..q])))
  }

  method GetPayloadNumberFromRtpmap(profile: Profile, rtpmap: string) returns (r: int)
    ensures match Cut(rtpmap)
            case None => r == -1
            case Some((mime, rate)) => Lowest(profile, mime, rate, r)
  {
    var tmp := rtpmap;
    var p := Strchr(tmp, '/');
    if p.None? {
      return -1;
    }
    var mime := tmp[..p.value];
    var c := tmp[p.value + 1..];
    var q := Strchr(c, '/');
    if q.Some? {
      c := c[..q.value];
    }
    var clockRate := Atoi(c);
    r := FindPayloadNumber(profile, mime, clockRate);
  }

  // ----- the round trip -----

  lemma {:induction false} ReadDigitsAppend(s: string, t: string, acc: nat)
    requires AllDigits(s, Decimal)
    ensures ReadDigits(s + t, acc) == ReadDigits(t, ReadDigits(s, acc))
  {
    if s == "" {
      assert s + t == t;
    } else {
      assert IsDigit(s[0], Decimal);
      assert (s + t)[1..] == s[1..] + t;
      ReadDigitsAppend(s[1..], t, acc * 10 + DigitValue(s[0]));
    }
  }

  /** Reading left to right gives the positional value. */
  lemma {:induction false} ReadDigitsValue(s: string)
    requires AllDigits(s, Decimal)
    ensures ReadDigits(s, 0) == Value(s, Decimal)
  {
    if s != "" {
      var last := |s| - 1;
      ReadDigitsValue(s[..last]);
      ReadDigitsAppend(s[..last], s[last..], 0);
      assert s == s[..last] + s[last..];
      assert IsDigit(s[last], Decimal);
      assert s[last..][1..] == "";
    }
  }

  /** White space in the C locale. */
  predicate Blank(s: string) {
    forall c | c in s :: c as int in {9, 10, 11, 12, 13, 32}
  }

  /** What atoi makes of white space, a sign or none, digits, and whatever follows them. */
  lemma {:induction false} AtoiExactly(blank: string, sign: string, digits: string, rest: string)
    requires Blank(blank) && sign in {"", "+", "-"} && digits != "" && AllDigits(digits, Decimal)
    requires rest == "" || !('0' <= rest[0] <= '9')
    ensures Atoi(blank + sign + digits + rest) == if sign == "-" then 0 - Value(digits, Decimal) else Value(digits, Decimal)
    decreases |blank|
  {
    hide Value;
    var s := blank + sign + digits + rest;
    assert IsDigit(digits[0], Decimal);
    if blank != "" {
      assert blank[0] in blank && s[1..] == blank[1..] + sign + digits + rest;
      assert forall c | c in blank[1..] :: c in blank;
      AtoiExactly(blank[1..], sign, digits, rest);
    } else {
      ReadDigitsAppend(digits, rest, 0);
      ReadDigitsValue(digits);
      if sign == "" {
        assert s == digits + rest;
      } else {
        assert s[1..] == digits + rest;
      }
    }
  }

  lemma AtoiIntText(n: int)
    ensures Atoi(IntText(n)) == n && '/' !in IntText(n)
  {
    var m := if n < 0 then -n else n;
    var s := Digits(m, Decimal);
    DigitsRoundTrip(m, Decimal);
    ReadDigitsValue(s);
    assert IsDigit(s[0], Decimal);
    forall i | 0 <= i < |s| ensures s[i] != '/' {
      assert IsDigit(s[i], Decimal);
    }
    if n < 0 {
      assert IntText(n)[1..] == s;
    }
  }

  lemma IntTextLength(n: int)
    requires Int32(n)
    ensures |IntText(n)| <= 11
  {
    assert Power(Decimal, 4) == 10_000 by {
      assert Power(Decimal, 1) == 10 && Power(Decimal, 2) == 100 && Power(Decimal, 3) == 1000;
    }
    assert Power(Decimal, 8) == 100_000_000 by {
      assert Power(Decimal, 5) == 100_000 && Power(Decimal, 6) == 1_000_000 && Power(Decimal, 7) == 10_000_000;
    }
    assert Power(Decimal, 10) == 10_000_000_000 by {
      assert Power(Decimal, 9) == 1_000_000_000;
    }
    DigitsLength(if n < 0 then -n else n, Decimal, 10);
  }

  /** The buffer of strlen(name) + 15 bytes never truncates a 32-bit rate. */
  lemma RtpmapNotTruncated(pt: PayloadType)
    requires Int32(pt.clockRate)
    ensures GetRtpmap(pt) == RtpmapText(pt)
  {
    IntTextLength(pt.clockRate);
  }

  /** The text and its terminator fit the buffer whatever the rate. */
  lemma RtpmapFits(pt: PayloadType)
    ensures |GetRtpmap(pt)| + 1 <= |pt.mimeType| + 15 && GetRtpmap(pt) <= RtpmapText(pt)
  {
  }

  lemma {:induction false} StrchrAt(s: string, t: string, c: char)
    requires c !in s
    ensures Strchr(s + [c] + t, c) == Some(|s|)
  {
    if s != "" {
      StrchrAt(s[1..], t, c);
      assert (s + [c] + t)[1..] == s[1..] + [c] + t;
    }
  }

  /** The string of a payload whose name has no '/' is cut back into that name and rate. */
  lemma CutRtpmap(pt: PayloadType)
    requires Int32(pt.clockRate) && '/' !in pt.mimeType
    ensures Cut(GetRtpmap(pt)) == Some((pt.mimeType, pt.clockRate))
  {
    RtpmapNotTruncated(pt);
    AtoiIntText(pt.clockRate);
    hide Strchr, Atoi, IntText;
    var r := IntText(pt.clockRate);
    var text := RtpmapText(pt);
    assert text == pt.mimeType + "/" + (r + "/1");
    StrchrAt(pt.mimeType, r + "/1", '/');
    assert text[|pt.mimeType| + 1..] == r + "/1" == r + "/" + "1";
    assert text[..|pt.mimeType|] == pt.mimeType;
    StrchrAt(r, "1", '/');
    assert (r + "/1")[..|r|] == r;
  }

  /** The round trip of the string holds exactly for the names without a '/'. */
  lemma CutRtpmapExactly(pt: PayloadType)
    requires Int32(pt.clockRate)
    ensures Cut(GetRtpmap(pt)) == Some((pt.mimeType, pt.clockRate)) <==> '/' !in pt.mimeType
  {
    if '/' !in pt.mimeType {
      CutRtpmap(pt);
    } else {
      RtpmapNotTruncated(pt);
      hide Atoi;
      assert '/' in RtpmapText(pt);
    }
  }

  /** Name and rate of payload i come back as the lowest index carrying them, at most i. */
  method RtpmapRoundTrip(profile: Profile, i: nat) returns (r: int)
    requires i < MAX_PAYLOADS && profile[i].Some?
    requires Int32(profile[i].value.clockRate) && '/' !in profile[i].value.mimeType
    ensures 0 <= r <= i
    ensures Lowest(profile, profile[i].value.mimeType, profile[i].value.clockRate, r)
  {
    var pt := profile[i].value;
    CutRtpmap(pt);
    assert Matches(profile[i], pt.mimeType, pt.clockRate);
    r := GetPayloadNumberFromRtpmap(profile, GetRtpmap(pt));
  }

  /** A '/' in the name does not survive: the name is cut there and the rate is lost. */
  lemma SlashInName()
    ensures Cut(GetRtpmap(PayloadType("a/b", 8000))) == Some(("a", 0))
  {
    var pt := PayloadType("a/b", 8000);
    RtpmapNotTruncated(pt);
    var text := RtpmapText(pt);
    var r := IntText(8000);
    assert text == "a" + "/" + ("b/" + r + "/1");
    StrchrAt("a", "b/" + r + "/1", '/');
    assert text[2..] == "b" + "/" + (r + "/1");
    StrchrAt("b", r + "/1", '/');
    assert text[2..][..1] == "b";
    assert text[..1] == "a";
  }
}
