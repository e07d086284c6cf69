/**
 The receive path of oRTP: `ortp-0.13.1/src/rtpparse.c`, with the queue operations it uses from
 `rtpsession.c` and `str_utils.c`. Header fields are taken in host order; ssrc and timestamp-jump
 signals, the reception clock and the process-wide statistics are not modelled.
 */
module RtpReceive {
  import opened Numerals
  import opened Jitter

  const M16 := 0x1_0000

  // ----- extended sequence numbers -----

  /** The two halves of hwrcv_extseq. */
  datatype ExtSeq = ExtSeq(hi: nat, lo: nat)

  predicate IsExt(e: ExtSeq) {
    e.hi < M16 && e.lo < M16
  }

  function Extended(e: ExtSeq): nat {
    e.hi * M16 + e.lo
  }

  /** The update in rtp_session_rtp_parse; hi is a 16-bit counter. */
  function SeqUpdate(e: ExtSeq, seqNo: nat): ExtSeq {
    if seqNo > e.lo then e.(lo := seqNo)
    else if seqNo < 200 && e.lo > M16 - 200 then ExtSeq((e.hi + 1) % M16, seqNo)
    else e
  }

  /** It never decreases until hi overflows. */
  lemma SeqMonotone(e: ExtSeq, seqNo: nat)
    requires IsExt(e) && seqNo < M16
    ensures IsExt(SeqUpdate(e, seqNo))
    ensures Extended(e) <= Extended(SeqUpdate(e, seqNo)) || (e.hi == M16 - 1 && SeqUpdate(e, seqNo).hi == 0)
  {
  }

  function Max(a: nat, b: nat): nat {
    if a < b then b else a
  }

  /**
   A packet whose true number is t, when the highest so far is h, is placed right exactly when: a
   late one neither exceeds the current low half nor looks like a wrap; a new one is in the current
   cycle, or in the next one and looks like a wrap.
   */
  predicate Placeable(h: nat, t: nat) {
    if t <= h then t % M16 <= h % M16 && !(t % M16 < 200 && h % M16 > M16 - 200)
    else
      || t / M16 == h / M16
      || (t / M16 == h / M16 + 1 && t % M16 <= h % M16 && t % M16 < 200 && h % M16 > M16 - 200)
  }

  lemma SeqPlacedExactly(e: ExtSeq, t: nat)
    requires IsExt(e) && t < 0x1_0000_0000
    ensures Extended(SeqUpdate(e, t % M16)) == Max(Extended(e), t) <==> Placeable(Extended(e), t)
  {
    var h := Extended(e);
    assert h / M16 == e.hi && h % M16 == e.lo;
    assert t == t / M16 * M16 + t % M16;
  }

  /** Reordering within a cycle up to 65000 back, and jumps across the wrap of at most 199, are placed right. */
  lemma OrdinaryStreamsPlaceable(h: nat, t: nat)
    requires t / M16 == h / M16 || t - h <= 199
    requires t <= h ==> t / M16 == h / M16 && h - t <= 65000
    ensures Placeable(h, t)
  {
    assert t == t / M16 * M16 + t % M16 && h == h / M16 * M16 + h % M16;
  }

  function HighestOf(h: nat, ts: seq<nat>): nat
    decreases |ts|
  {
    if ts == [] then h else HighestOf(Max(h, ts[0]), ts[1..])
  }

  ghost predicate AllPlaceable(h: nat, ts: seq<nat>)
    decreases |ts|
  {
    ts != [] ==> Placeable(h, ts[0]) && ts[0] < 0x1_0000_0000 && AllPlaceable(Max(h, ts[0]), ts[1..])
  }

  function SeqUpdates(e: ExtSeq, ts: seq<nat>): ExtSeq
    decreases |ts|
  {
    if ts == [] then e else SeqUpdates(SeqUpdate(e, ts[0] % M16), ts[1..])
  }

  /** Over such a stream the extended number is the highest true number after every packet. */
  lemma {:induction false} TracksHighest(e: ExtSeq, ts: seq<nat>, n: nat)
    requires IsExt(e) && AllPlaceable(Extended(e), ts) && n <= |ts|
    ensures Extended(SeqUpdates(e, ts[..n])) == HighestOf(Extended(e), ts[..n])
    decreases n
  {
    if n > 0 {
      SeqPlacedExactly(e, ts[0]);
      SeqMonotone(e, ts[0] % M16);
      TracksHighest(SeqUpdate(e, ts[0] % M16), ts[1..], n - 1);
      assert ts[..n][1..] == ts[1..][..n - 1];
    }
  }

  // ----- the packet queue -----

  /** What the receiver looks at; `id` tells packets apart. */
  datatype Packet = Packet(id: nat, size: nat, version: nat, cc: nat, seqNo: nat, ts: nat, ssrc: nat,
                           payType: int, stunLength: nat)

  type Queue = seq<Packet>

  /** RTP_SEQ_IS_GREATER: ahead by less than half the 16-bit circle. */
  predicate SeqGreater(a: int, b: int) {
    (a - b) % M16 < 0x8000
  }

  /** By true numbers within half the circle: not behind. */
  lemma SeqGreaterTrue(a: int, b: int)
    requires -0x8000 <= a - b < 0x8000
    ensures SeqGreater(a % M16, b % M16) <==> a >= b
  {
    var x, y := a / M16, b / M16;
    assert a % M16 - b % M16 == a - b + (y - x) * M16;
    WrapAway(a - b, y - x);
  }

  /** rtp_putq from the i-th packet upwards: behind the first one it is not older than; never twice. */
  function PutFrom(q: Queue, p: Packet, i: nat): Queue
    requires i <= |q|
  {
    if i == 0 then [p] + q
    else if p.seqNo == q[i - 1].seqNo then q
    else if SeqGreater(p.seqNo, q[i - 1].seqNo) then q[..i] + [p] + q[i..]
    else PutFrom(q, p, i - 1)
  }

  function Put(q: Queue, p: Packet): Queue {
    PutFrom(q, p, |q|)
  }

  /** A packet is either filed once, or dropped because its number is queued already. */
  lemma {:induction false} PutContents(q: Queue, p: Packet, i: nat)
    requires i <= |q|
    ensures |PutFrom(q, p, i)| == |q| + 1 || PutFrom(q, p, i) == q
    ensures |PutFrom(q, p, i)| == |q| + 1 ==> multiset(PutFrom(q, p, i)) == multiset(q) + multiset{p}
    ensures PutFrom(q, p, i) == q ==> exists j :: 0 <= j < i && q[j].seqNo == p.seqNo
  {
    if i > 0 {
      if p.seqNo != q[i - 1].seqNo && SeqGreater(p.seqNo, q[i - 1].seqNo) {
        assert q == q[..i] + q[i..];
      } else if p.seqNo != q[i - 1].seqNo {
        PutContents(q, p, i - 1);
      }
    }
  }

  /** Below i there is a packet with p's number, and p is ahead of none of those after it. */
  predicate Shadowed(q: Queue, p: Packet, i: nat)
    requires i <= |q|
  {
    exists j :: 0 <= j < i && q[j].seqNo == p.seqNo && forall k | j < k < i :: !SeqGreater(p.seqNo, q[k].seqNo)
  }

  /** The scan drops a packet exactly if it meets its number before a packet that p is ahead of. */
  lemma {:induction false} DroppedExactly(q: Queue, p: Packet, i: nat)
    requires i <= |q|
    ensures PutFrom(q, p, i) == q <==> Shadowed(q, p, i)
  {
    if i > 0 {
      var last := q[i - 1];
      if p.seqNo == last.seqNo {
        assert Shadowed(q, p, i);
      } else if SeqGreater(p.seqNo, last.seqNo) {
        assert |PutFrom(q, p, i)| == |q| + 1;
      } else {
        DroppedExactly(q, p, i - 1);
        if Shadowed(q, p, i - 1) {
          var j :| 0 <= j < i - 1 && q[j].seqNo == p.seqNo && forall k | j < k < i - 1 :: !SeqGreater(p.seqNo, q[k].seqNo);
          assert forall k | j < k < i :: !SeqGreater(p.seqNo, q[k].seqNo);
        }
      }
    }
  }

  /** The place of a sequence number in the half circle that starts at `base`. */
  function Offset(base: nat, seqNo: nat): nat {
    (seqNo as int - base) % M16
  }

  /** All numbers within half the circle, strictly ascending. */
  ghost predicate Ordered(base: nat, q: Queue) {
    && (forall i | 0 <= i < |q| :: q[i].seqNo < M16 && Offset(base, q[i].seqNo) < 0x8000)
    && forall i, j | 0 <= i < j < |q| :: Offset(base, q[i].seqNo) < Offset(base, q[j].seqNo)
  }

  lemma GreaterInWindow(base: nat, a: nat, b: nat)
    requires a < M16 && b < M16 && Offset(base, a) < 0x8000 && Offset(base, b) < 0x8000
    ensures SeqGreater(a, b) <==> Offset(base, a) >= Offset(base, b)
    ensures a == b <==> Offset(base, a) == Offset(base, b)
  {
    var x, y := (a as int - base) / M16, (b as int - base) / M16;
    assert a - b == Offset(base, a) - Offset(base, b) + (x - y) * M16;
    var d := Offset(base, a) as int - Offset(base, b);
    assert (a - b) % M16 == d % M16 by { WrapAway(d, x - y); }
  }

  lemma WrapAway(d: int, k: int)
    ensures (d + k * M16) % M16 == d % M16
  {
    assert d + k * M16 == (d / M16 + k) * M16 + d % M16;
  }

  /** Inserting a number strictly between its neighbours keeps the order, and it was not there before. */
  lemma InsertOrdered(base: nat, q: Queue, p: Packet, i: nat)
    requires Ordered(base, q) && i <= |q| && p.seqNo < M16 && Offset(base, p.seqNo) < 0x8000
    requires forall j | i <= j < |q| :: Offset(base, p.seqNo) < Offset(base, q[j].seqNo)
    requires i > 0 ==> Offset(base, q[i - 1].seqNo) < Offset(base, p.seqNo)
    ensures Ordered(base, q[..i] + [p] + q[i..])
    ensures forall j | 0 <= j < |q| :: q[j].seqNo != p.seqNo
  {
    hide Offset;
    forall j | 0 <= j < i ensures Offset(base, q[j].seqNo) < Offset(base, p.seqNo) {
      if j < i - 1 {
        assert Offset(base, q[j].seqNo) < Offset(base, q[i - 1].seqNo);
      }
    }
  }

  /** Within half the circle the queue stays in strictly ascending order, whatever order packets come in. */
  lemma {:induction false} PutOrdered(base: nat, q: Queue, p: Packet, i: nat)
    requires Ordered(base, q) && i <= |q|
    requires p.seqNo < M16 && Offset(base, p.seqNo) < 0x8000
    requires forall j | i <= j < |q| :: Offset(base, p.seqNo) < Offset(base, q[j].seqNo)
    ensures Ordered(base, PutFrom(q, p, i))
    ensures |PutFrom(q, p, i)| == |q| <==> exists j :: 0 <= j < |q| && q[j].seqNo == p.seqNo
  {
    hide Offset, SeqGreater;
    if i == 0 {
      InsertOrdered(base, q, p, 0);
      assert q[..0] + [p] + q[0..] == [p] + q;
    } else {
      GreaterInWindow(base, p.seqNo, q[i - 1].seqNo);
      if p.seqNo != q[i - 1].seqNo {
        if SeqGreater(p.seqNo, q[i - 1].seqNo) {
          InsertOrdered(base, q, p, i);
        } else {
          PutOrdered(base, q, p, i - 1);
        }
      }
    }
  }

  const FIXED_HEADER := 12

  function HeaderSize(p: Packet): nat {
    FIXED_HEADER + 4 * p.cc
  }

  /** split_and_queue: a packet without data is discarded; a full queue loses its oldest packets. */
  function Queued(q: Queue, max: nat, p: Packet): Queue {
    if p.size == HeaderSize(p) then q
    else
      var q1 := Put(q, p);
      if |q1| > max then q1[|q1| - max..] else q1
  }

  function QueuedDiscards(q: Queue, max: nat, p: Packet): nat {
    if p.size == HeaderSize(p) then 1
    else if |Put(q, p)| > max then |Put(q, p)| - max
    else 0
  }

  /** Whether rtp_putq drops the packet as a duplicate, which no statistic records. */
  predicate DroppedAsDuplicate(q: Queue, p: Packet) {
    p.size != HeaderSize(p) && Shadowed(q, p, |q|)
  }

  /** Every packet offered is queued, discarded and counted, or dropped as a duplicate; the bound holds after. */
  lemma QueuedAccounts(q: Queue, max: nat, p: Packet)
    ensures |q| + 1 == |Queued(q, max, p)| + QueuedDiscards(q, max, p) + if DroppedAsDuplicate(q, p) then 1 else 0
    ensures p.size != HeaderSize(p) ==> |Queued(q, max, p)| <= max
    ensures |q| <= max ==> |Queued(q, max, p)| <= max
  {
    PutContents(q, p, |q|);
    DroppedExactly(q, p, |q|);
  }

  class PacketQueue {
    var items: Queue

    constructor ()
      ensures items == []
    {
      items := [];
    }

    /** str_utils.c getq: the first packet, if any. */
    method Getq() returns (p: Option<Packet>)
      modifies this
      ensures old(items) == [] ==> p == None && items == []
      ensures old(items) != [] ==> p == Some(old(items)[0]) && items == old(items)[1..]
    {
      if items == [] {
        return None;
      }
      p := Some(items[0]);
      items := items[1..];
    }

    /** rtpsession.c rtp_putq: looks from the newest packet to the oldest. */
    method RtpPutq(p: Packet)
      modifies this
      ensures items == Put(old(items), p)
    {
      if items == [] {
        items := [p];
        return;
      }
      var tmp := |items| - 1;
      while tmp != -1
        invariant -1 <= tmp < |items| && items == old(items)
        invariant PutFrom(items, p, tmp + 1) == Put(items, p)
        decreases tmp
      {
        if p.seqNo == items[tmp].seqNo {
          return;
        } else if SeqGreater(p.seqNo, items[tmp].seqNo) {
          items := items[..tmp + 1] + [p] + items[tmp + 1..];
          return;
        }
        tmp := tmp - 1;
      }
      items := [p] + items;
    }

    method SplitAndQueue(maxrqsz: int, mp: Packet) returns (discarded: int)
      requires maxrqsz >= 0
      modifies this
      ensures items == Queued(old(items), maxrqsz, mp)
      ensures discarded == QueuedDiscards(old(items), maxrqsz, mp)
    {
      discarded := 0;
      if mp.size == HeaderSize(mp) {
        discarded := discarded + 1;
        return;
      }
      RtpPutq(mp);
      ghost var q := items;
      while |items| > maxrqsz
        invariant 0 <= discarded <= |q| && items == q[discarded..]
        invariant discarded > 0 ==> |items| >= maxrqsz
      {
        var tmp := Getq();
        discarded := discarded + 1;
      }
    }

    /** rtpsession.c rtp_getq: of the packets due, the last timestamp; the older ones are rejected. */
    method RtpGetq(timestamp: nat) returns (ret: Option<Packet>, rejected: int)
      modifies this
      ensures var t := Taken(old(items), timestamp, None);
              ret == t.ret && items == t.rest && rejected == t.rejected
    {
      rejected := 0;
      ret := None;
      var tsFound := 0;
      while |items| > 0
        invariant ret.Some? ==> tsFound == ret.value.ts
        invariant var t := Taken(items, timestamp, ret); t.(rejected := t.rejected + rejected) == Taken(old(items), timestamp, None)
        decreases |items|
      {
        var tmp := items[0];
        if NewerThan(timestamp, tmp.ts) {
          if ret.Some? && tmp.ts == tsFound {
            break;
          }
          if ret.Some? {
            rejected := rejected + 1;
          }
          ret := Getq();
          tsFound := tmp.ts;
        } else {
          break;
        }
      }
    }

    /** rtpsession.c rtp_getq_permissive: the first packet if it is due. */
    method RtpGetqPermissive(timestamp: nat) returns (ret: Option<Packet>, rejected: int)
      modifies this
      ensures rejected == 0
      ensures if old(items) != [] && NewerThan(timestamp, old(items)[0].ts)
              then ret == Some(old(items)[0]) && items == old(items)[1..]
              else ret == None && items == old(items)
    {
      rejected := 0;
      ret := None;
      if items == [] {
        return;
      }
      if NewerThan(timestamp, items[0].ts) {
        ret := Getq();
      }
    }
  }

  // ----- taking packets out -----

  /** RTP_TIMESTAMP_IS_NEWER_THAN */
  predicate NewerThan(a: int, b: int) {
    (a - b) % M32 < 0x8000_0000
  }

  /** RTP_TIMESTAMP_IS_STRICTLY_NEWER_THAN */
  predicate StrictlyNewerThan(a: int, b: int) {
    NewerThan(a, b) && a != b
  }

  datatype TakenOut = TakenOut(ret: Option<Packet>, rest: Queue, rejected: nat)

  function Taken(q: Queue, timestamp: nat, held: Option<Packet>): TakenOut
    decreases |q|
  {
    if q == [] || !NewerThan(timestamp, q[0].ts) || (held.Some? && q[0].ts == held.value.ts) then TakenOut(held, q, 0)
    else
      var t := Taken(q[1..], timestamp, Some(q[0]));
      if held.Some? then t.(rejected := t.rejected + 1) else t
  }

  /** What leaves the queue is the packet returned and the rejected ones; the rest is a suffix. */
  lemma {:induction false} TakenAccounts(q: Queue, timestamp: nat, held: Option<Packet>)
    ensures var t := Taken(q, timestamp, held);
      && |t.rest| <= |q| && t.rest == q[|q| - |t.rest|..]
      && |q| + (if held.Some? then 1 else 0) == |t.rest| + t.rejected + (if t.ret.Some? then 1 else 0)
    decreases |q|
  {
    if !(q == [] || !NewerThan(timestamp, q[0].ts) || (held.Some? && q[0].ts == held.value.ts)) {
      TakenAccounts(q[1..], timestamp, Some(q[0]));
    }
  }

  // ----- the session -----

  /** What the profile knows of a payload type. */
  datatype PayloadInfo = PayloadInfo(clockRate: int, video: bool, tsJump: nat)

  type Profile = m: map<int, PayloadInfo> | forall k | k in m :: m[k].clockRate > 0 witness map[]

  datatype Stats = Stats(packetRecv: nat, bad: nat, outoftime: nat, discarded: nat, hwRecv: nat, sinceLastSR: nat)

  datatype Timing = Timing(
    ext: ExtSeq, ssrc: nat, hwRecvPt: int, permissive: bool, tsJump: nat,
    firstDelivered: bool, rcvLastTs: nat, hwrcvDiffTs: int, rcvDiffTs: int, control: Control)

  datatype Receiver = Receiver(
    rq: Queue, tevRq: Queue, maxRqSize: nat, tevPt: int, stats: Stats, timing: Timing, stunEvents: seq<Packet>)

  /** The statistics of a packet that is RTP at all. */
  function Counted(s: Stats, p: Packet): Stats {
    s.(packetRecv := s.packetRecv + 1, hwRecv := s.hwRecv + p.size, sinceLastSR := s.sinceLastSR + 1)
  }

  /** Source and extended sequence number. */
  function Seen(t: Timing, p: Packet): Timing {
    t.(ssrc := p.ssrc, ext := SeqUpdate(t.ext, p.seqNo))
  }

  /** A new payload type brings its own clock rate, jump limit and queue discipline, if the profile knows it. */
  function PayloadUpdated(t: Timing, payType: int, profile: Profile): Timing {
    if t.hwRecvPt == payType then t
    else if payType !in profile then t.(hwRecvPt := payType)
    else
      var info := profile[payType];
      t.(hwRecvPt := payType, control := AfterPayload(t.control, info.clockRate), tsJump := info.tsJump, permissive := info.video)
  }

  /** Once a packet was delivered, every media packet moves the jitter estimate and the time offset. */
  function JitterUpdated(t: Timing, p: Packet, localTs: int): Timing {
    if !t.firstDelivered then t
    else
      var c := AfterPacket(t.control, Diff(p.ts, localTs));
      var slide := if c.adaptive then Trunc(c.estimate.slide) else 0;
      t.(control := c, rcvDiffTs := (t.hwrcvDiffTs + slide - SafeDelay(c.adaptive, c.jittCompTs, c.estimate.jitter)) % M32)
  }

  /** Older than what the application got last, and not a jump ahead. */
  predicate IsLate(t: Timing, p: Packet) {
    && t.firstDelivered
    && !NewerThan(p.ts, (t.rcvLastTs + t.tsJump) % M32)
    && StrictlyNewerThan(t.rcvLastTs, p.ts)
  }

  /** The timing by which a media packet is judged. */
  function MediaTiming(t: Timing, p: Packet, profile: Profile, localTs: int): Timing {
    JitterUpdated(PayloadUpdated(Seen(t, p), p.payType, profile), p, localTs)
  }

  function QueuedEvent(r: Receiver, p: Packet): Receiver {
    r.(tevRq := Queued(r.tevRq, r.maxRqSize, p),
       stats := r.stats.(discarded := r.stats.discarded + QueuedDiscards(r.tevRq, r.maxRqSize, p)))
  }

  function QueuedMedia(r: Receiver, p: Packet): Receiver {
    r.(rq := Queued(r.rq, r.maxRqSize, p),
       stats := r.stats.(discarded := r.stats.discarded + QueuedDiscards(r.rq, r.maxRqSize, p)))
  }

  function Bad(s: Stats): Stats {
    s.(bad := s.bad + 1)
  }

  function TooLate(s: Stats): Stats {
    s.(outoftime := s.outoftime + 1)
  }

  predicate IsRtp(p: Packet) {
    p.size >= FIXED_HEADER && p.version == 2
  }

  predicate HasCsrcs(p: Packet) {
    p.cc * 4 <= p.size as int - FIXED_HEADER
  }

  /** rtp_session_rtp_parse */
  function Parsed(r: Receiver, p: Packet, profile: Profile, localTs: int, wantsStun: bool): Receiver {
    if p.size < FIXED_HEADER then r.(stats := Bad(r.stats))
    else if !IsRtp(p) then
      if p.stunLength + 20 == p.size && wantsStun then r.(stunEvents := r.stunEvents + [p]) else r
    else ParsedRtp(r.(stats := Counted(r.stats, p)), p, profile, localTs)
  }

  /** From the conversion of the header on. */
  function ParsedRtp(r: Receiver, p: Packet, profile: Profile, localTs: int): Receiver {
    if !HasCsrcs(p) then r.(stats := Bad(r.stats))
    else if p.payType == r.tevPt then QueuedEvent(r.(timing := Seen(r.timing, p)), p)
    else FiledMedia(r.(timing := Seen(r.timing, p)), p, profile, localTs)
  }

  /** The rest of the function for a media packet: payload type, jitter, lateness, queue. */
  function FiledMedia(r: Receiver, p: Packet, profile: Profile, localTs: int): Receiver {
    var r1 := r.(timing := JitterUpdated(PayloadUpdated(r.timing, p.payType, profile), p, localTs));
    if IsLate(r1.timing, p) then r1.(stats := TooLate(r1.stats)) else QueuedMedia(r1, p)
  }

  /** The application asks for the media packet of a timestamp. */
  function MediaTaken(r: Receiver, timestamp: nat): (Option<Packet>, Receiver) {
    if r.timing.permissive || r.timing.control.jittCompTs == 0 then
      if r.rq != [] && NewerThan(timestamp, r.rq[0].ts) then
        (Some(r.rq[0]), r.(rq := r.rq[1..], timing := Delivered(r.timing, r.rq[0])))
      else (None, r)
    else
      var t := Taken(r.rq, timestamp, None);
      var r1 := r.(rq := t.rest, stats := r.stats.(outoftime := r.stats.outoftime + t.rejected));
      (t.ret, if t.ret.Some? then r1.(timing := Delivered(r1.timing, t.ret.value)) else r1)
  }

  /** Book-keeping for a packet handed to the application. */
  function Delivered(t: Timing, p: Packet): Timing {
    var c := t.control;
    var c1 := if c.adaptive && p.ts != t.rcvLastTs then
                c.(correctiveSlide := Corrected(Trunc(c.estimate.slide), c.correctiveStep, c.correctiveSlide))
              else c;
    t.(control := c1, rcvLastTs := p.ts, firstDelivered := true)
  }

  // ----- lateness, by true timestamps -----

  /** A packet that gets as far as the queue of media packets. */
  predicate IsMedia(r: Receiver, p: Packet) {
    p.size >= 12 && p.version == 2 && 12 + p.cc * 4 <= p.size && p.payType != r.tevPt
  }

  /** The jump limit in force for the packet, a 32-bit number: that of its payload type, if it brings a new one. */
  function JumpLimit(r: Receiver, p: Packet, profile: Profile): (j: int)
    ensures 0 <= j < M32
  {
    (if p.payType != r.timing.hwRecvPt && p.payType in profile then profile[p.payType].tsJump else r.timing.tsJump) % M32
  }

  /** Reading a difference of 32-bit timestamps that wraps at most once. */
  lemma NewerByTrue(a: int, b: int, d: int)
    requires -2 * M32 < d < M32 && (a - b - d) % M32 == 0
    ensures NewerThan(a, b) <==> 0 <= d < 0x8000_0000 || -M32 <= d < -0x8000_0000 || d < -M32 - 0x8000_0000
  {
    var k := (a - b - d) / M32;
    assert a - b == d + k * M32;
    ModShift(d, -k);
    assert (a - b) % M32 == d % M32;
    ModShift(d, -1);
    ModShift(d, -2);
  }

  lemma TrueDifference(a: int, b: int)
    ensures (a % M32 - b % M32 - (a - b)) % M32 == 0
  {
    var x, y := a / M32, b / M32;
    assert a % M32 - b % M32 - (a - b) == 0 - (x - y) * M32;
    ModShift(0, x - y);
  }

  /**
   A media packet with the true timestamp t, which arrives after one with the true timestamp `last` was
   delivered: it is thrown away as late exactly if it is older, and not so much older that it looks like
   a jump ahead, that is, by less than half the circle newer than the jump limit. Every other packet
   goes to the queue.
   */
  lemma LateExactly(r: Receiver, p: Packet, profile: Profile, localTs: int, wantsStun: bool, last: int, t: int)
    requires IsMedia(r, p) && r.timing.rcvLastTs == last % M32 && p.ts == t % M32
    requires -0x8000_0000 < t - last < 0x8000_0000
    ensures var v := Parsed(r, p, profile, localTs, wantsStun); var jump := JumpLimit(r, p, profile);
      var late := r.timing.firstDelivered && t < last && (-0x8000_0000 <= t - last - jump || t - last - jump < -M32);
      && v.tevRq == r.tevRq && v.stats.packetRecv == r.stats.packetRecv + 1 && v.stats.bad == r.stats.bad
      && (if late then v.rq == r.rq && v.stats.outoftime == r.stats.outoftime + 1 && v.stats.discarded == r.stats.discarded
          else v.rq == Queued(r.rq, r.maxRqSize, p) && v.stats.outoftime == r.stats.outoftime
               && v.stats.discarded == r.stats.discarded + QueuedDiscards(r.rq, r.maxRqSize, p))
  {
    hide Queued, QueuedDiscards, NewerThan, AfterPayload, AfterPacket, SafeDelay, Diff, Trunc;
    var timing := MediaTiming(r.timing, p, profile, localTs);
    LateByTrue(timing, p, last, t);
  }

  lemma LateByTrue(timing: Timing, p: Packet, last: int, t: int)
    requires timing.rcvLastTs == last % M32 && p.ts == t % M32 && -0x8000_0000 < t - last < 0x8000_0000
    ensures var x := t - last - timing.tsJump % M32;
      IsLate(timing, p) <==> timing.firstDelivered && t < last && (-0x8000_0000 <= x || x < -M32)
  {
    hide NewerThan;
    var jump := timing.tsJump;
    TrueDifference(t, last);
    TrueDifference(last, t);
    NewerByTrue(timing.rcvLastTs, p.ts, last - t);
    var a, b := t / M32, last / M32;
    var q := (timing.rcvLastTs + jump) / M32;
    assert p.ts - (timing.rcvLastTs + jump) % M32 - (t - last - jump % M32) == 0 - (a - b - q + jump / M32) * M32;
    ModShift(0, a - b - q + jump / M32);
    NewerByTrue(p.ts, (timing.rcvLastTs + jump) % M32, t - last - jump % M32);
    if t == last {
      NotStrict(timing, p);
    }
  }

  lemma NotStrict(timing: Timing, p: Packet)
    requires timing.rcvLastTs == p.ts
    ensures !IsLate(timing, p)
  {
  }

  /** The packets of the queue carry the true timestamps ts, each within half the circle of the wanted one. */
  predicate Carry(q: Queue, ts: seq<int>, wanted: int) {
    |q| == |ts| && forall i | 0 <= i < |q| :: q[i].ts == ts[i] % M32 && -0x8000_0000 < wanted - ts[i] < 0x8000_0000
  }

  /** The first k packets are due, no two of them in a row with the same timestamp; the next one, if any, is not. */
  predicate DueUpTo(ts: seq<int>, wanted: int, k: nat) {
    && k <= |ts| && (forall i | 0 <= i < k :: ts[i] <= wanted && (i > 0 ==> ts[i] != ts[i - 1]))
    && (k < |ts| ==> ts[k] > wanted || (k > 0 && ts[k] == ts[k - 1]))
  }

  /** By true timestamps: the last due packet is returned, those before it are rejected, the rest stays. */
  lemma TakenExactly(q: Queue, ts: seq<int>, wanted: int, k: nat)
    requires Carry(q, ts, wanted) && DueUpTo(ts, wanted, k)
    ensures Taken(q, wanted % M32, None) == TakenOut(if k == 0 then None else Some(q[k - 1]), q[k..], if k == 0 then 0 else k - 1)
  {
    TakenFrom(q, ts, wanted, 0, k);
    assert q[0..] == q;
  }

  lemma DueByTrue(q: Queue, ts: seq<int>, wanted: int, i: nat)
    requires Carry(q, ts, wanted) && i < |q|
    ensures NewerThan(wanted % M32, q[i].ts) <==> ts[i] <= wanted
    ensures i > 0 ==> (q[i].ts == q[i - 1].ts <==> ts[i] == ts[i - 1])
  {
    hide NewerThan;
    TrueDifference(wanted, ts[i]);
    NewerByTrue(wanted % M32, q[i].ts, wanted - ts[i]);
    if i > 0 {
      SameByTrue(ts[i], ts[i - 1]);
    }
  }

  lemma SameByTrue(a: int, b: int)
    requires -M32 < a - b < M32
    ensures a % M32 == b % M32 <==> a == b
  {
    var x, y := a / M32, b / M32;
    if a % M32 == b % M32 {
      assert a - b == (x - y) * M32;
    }
  }

  lemma {:induction false} TakenFrom(q: Queue, ts: seq<int>, wanted: int, i: nat, k: nat)
    requires Carry(q, ts, wanted) && DueUpTo(ts, wanted, k) && i <= k
    ensures var t := Taken(q[i..], wanted % M32, if i == 0 then None else Some(q[i - 1]));
      t == TakenOut(if k == 0 then None else Some(q[k - 1]), q[k..], if i == 0 then if k == 0 then 0 else k - 1 else k - i)
    decreases k - i
  {
    hide NewerThan, Carry;
    assert |q| == |ts| by { CarryLength(q, ts, wanted); }
    if i < |q| {
      DueByTrue(q, ts, wanted, i);
      assert q[i..][0] == q[i] && q[i..][1..] == q[i + 1..];
    }
    if i < k {
      TakenFrom(q, ts, wanted, i + 1, k);
    }
  }

  lemma CarryLength(q: Queue, ts: seq<int>, wanted: int)
    requires Carry(q, ts, wanted)
    ensures |q| == |ts|
  {
  }

  // ----- the other packets, and what is remembered -----

  /** A packet that is not for the media queue. */
  lemma ParsedExactly(r: Receiver, p: Packet, profile: Profile, localTs: int, wantsStun: bool)
    requires !IsMedia(r, p)
    ensures var v := Parsed(r, p, profile, localTs, wantsStun);
      var counted := r.stats.(packetRecv := r.stats.packetRecv + 1, hwRecv := r.stats.hwRecv + p.size, sinceLastSR := r.stats.sinceLastSR + 1);
      if p.size < 12 then v == r.(stats := r.stats.(bad := r.stats.bad + 1))
      else if p.version != 2 then v == if wantsStun && p.stunLength + 20 == p.size then r.(stunEvents := r.stunEvents + [p]) else r
      else if 12 + p.cc * 4 > p.size then v == r.(stats := counted.(bad := r.stats.bad + 1))
      else
        v == r.(stats := counted.(discarded := r.stats.discarded + QueuedDiscards(r.tevRq, r.maxRqSize, p)),
                tevRq := Queued(r.tevRq, r.maxRqSize, p),
                timing := r.timing.(ssrc := p.ssrc, ext := SeqUpdate(r.timing.ext, p.seqNo)))
  {
    hide Queued, QueuedDiscards, SeqUpdate, FiledMedia;
  }

  /**
   What a media packet leaves behind, late or not: its source, its number and its payload type, with
   what the profile knows of a type that is new; and once a packet was delivered, the jitter averages
   and the offset to the sender's clock.
   */
  lemma TimingExactly(r: Receiver, p: Packet, profile: Profile, localTs: int, wantsStun: bool)
    requires IsMedia(r, p)
    ensures var v := Parsed(r, p, profile, localTs, wantsStun); var t := r.timing;
      var novel := p.payType != t.hwRecvPt && p.payType in profile;
      var c := if novel then AfterPayload(t.control, profile[p.payType].clockRate) else t.control;
      var d := AfterPacket(c, Diff(p.ts, localTs));
      var slide := if d.adaptive then Trunc(d.estimate.slide) else 0;
      && v.stats.hwRecv == r.stats.hwRecv + p.size && v.stats.sinceLastSR == r.stats.sinceLastSR + 1
      && v.timing == t.(ssrc := p.ssrc, ext := SeqUpdate(t.ext, p.seqNo), hwRecvPt := p.payType,
                        permissive := if novel then profile[p.payType].video else t.permissive,
                        tsJump := if novel then profile[p.payType].tsJump else t.tsJump,
                        control := if t.firstDelivered then d else c,
                        rcvDiffTs := if t.firstDelivered then (t.hwrcvDiffTs + slide - SafeDelay(d.adaptive, d.jittCompTs, d.estimate.jitter)) % M32
                                     else t.rcvDiffTs)
  {
    hide Queued, QueuedDiscards, SeqUpdate, AfterPayload, AfterPacket, Diff, SafeDelay, Trunc, NewerThan;
  }

  /**
   Asking for the media of a true timestamp: with a permissive queue, or without a delay, the first
   packet is handed out if it is due; else the last of those due, and the others count as late. What is
   handed out becomes the last timestamp, and moves the corrective slide if it is another than before.
   */
  lemma MediaTakenExactly(r: Receiver, ts: seq<int>, wanted: int, k: nat)
    requires Carry(r.rq, ts, wanted)
    requires if r.timing.permissive || r.timing.control.jittCompTs == 0 then k == if ts != [] && ts[0] <= wanted then 1 else 0
             else DueUpTo(ts, wanted, k)
    ensures var (mp, v) := MediaTaken(r, wanted % M32); var t := r.timing; var c := t.control;
      if k == 0 then mp == None && v == r
      else
        && k <= |r.rq| && mp == Some(r.rq[k - 1])
        && v == r.(rq := r.rq[k..], stats := r.stats.(outoftime := r.stats.outoftime + k - 1),
                   timing := t.(rcvLastTs := r.rq[k - 1].ts, firstDelivered := true,
                                control := if c.adaptive && r.rq[k - 1].ts != t.rcvLastTs
                                           then c.(correctiveSlide := Corrected(Trunc(c.estimate.slide), c.correctiveStep, c.correctiveSlide))
                                           else c))
  {
    hide NewerThan, Corrected, Trunc, Taken, Carry, DueUpTo;
    CarryLength(r.rq, ts, wanted);
    if r.timing.permissive || r.timing.control.jittCompTs == 0 {
      if r.rq != [] {
        DueByTrue(r.rq, ts, wanted, 0);
      }
    } else {
      TakenExactly(r.rq, ts, wanted, k);
      assert k <= |ts| by { DueShort(ts, wanted, k); }
      assert r.rq[0..] == r.rq;
    }
  }

  lemma DueShort(ts: seq<int>, wanted: int, k: nat)
    requires DueUpTo(ts, wanted, k)
    ensures k <= |ts|
  {
  }

  class RtpSession {
    const rq: PacketQueue
    const tevRq: PacketQueue
    const jittctl: JitterControl
    var maxRqSize: nat
    var packetRecv: nat
    var bad: nat
    var outoftime: nat
    var discarded: nat
    var hwRecv: nat
    var sinceLastSR: nat
    var extHi: nat
    var extLo: nat
    var ssrc: nat
    var tevPt: int
    var hwRecvPt: int
    var permissive: bool
    var tsJump: nat
    var firstDelivered: bool
    var rcvLastTs: nat
    var hwrcvDiffTs: int
    var rcvDiffTs: int
    var stunEvents: seq<Packet>

    function StatsView(): Stats
      reads `packetRecv, `bad, `outoftime, `discarded, `hwRecv, `sinceLastSR
    {
      Stats(packetRecv, bad, outoftime, discarded, hwRecv, sinceLastSR)
    }

    function TimingView(): Timing
      reads `extHi, `extLo, `ssrc, `hwRecvPt, `permissive, `tsJump, `firstDelivered, `rcvLastTs, `hwrcvDiffTs, `rcvDiffTs
      reads jittctl
    {
      Timing(ExtSeq(extHi, extLo), ssrc, hwRecvPt, permissive, tsJump, firstDelivered, rcvLastTs,
             hwrcvDiffTs, rcvDiffTs, jittctl.State())
    }

    function View(): Receiver
      reads this, rq, tevRq, jittctl
    {
      Receiver(rq.items, tevRq.items, maxRqSize, tevPt, StatsView(), TimingView(), stunEvents)
    }

    /** rtp_session_init: everything zero, queues of 100 packets, payload types undefined. */
    constructor ()
      ensures fresh(rq) && fresh(tevRq) && fresh(jittctl) && rq != tevRq
      ensures rq.items == [] && tevRq.items == [] && maxRqSize == 100
      ensures packetRecv == bad == outoftime == discarded == hwRecv == sinceLastSR == extHi == extLo == 0
      ensures !firstDelivered
    {
      rq := new PacketQueue();
      tevRq := new PacketQueue();
      jittctl := new JitterControl();
      maxRqSize, packetRecv, bad, outoftime, discarded, hwRecv, sinceLastSR := 100, 0, 0, 0, 0, 0, 0;
      extHi, extLo, ssrc, tevPt, hwRecvPt, permissive, tsJump := 0, 0, 0, -1, -1, false, 0;
      firstDelivered, rcvLastTs, hwrcvDiffTs, rcvDiffTs, stunEvents := false, 0, 0, 0, [];
    }

    method UpdatePayloadType(payType: int, profile: Profile)
      requires hwRecvPt != payType
      modifies this`hwRecvPt, this`tsJump, this`permissive, jittctl
      ensures TimingView() == PayloadUpdated(old(TimingView()), payType, profile)
    {
      hide AfterPayload;
      hwRecvPt := payType;
      if payType in profile {
        jittctl.SetPayload(profile[payType].clockRate);
        tsJump := profile[payType].tsJump;
        permissive := profile[payType].video;
      }
    }

    method CheckSourceAndSequence(mp: Packet)
      modifies this`ssrc, this`extHi, this`extLo
      ensures TimingView() == Seen(old(TimingView()), mp)
    {
      if ssrc != 0 {
        if ssrc != mp.ssrc {
          ssrc := mp.ssrc;
        }
      } else {
        ssrc := mp.ssrc;
      }
      if mp.seqNo > extLo {
        extLo := mp.seqNo;
      } else if mp.seqNo < 200 && extLo > M16 - 200 {
        extLo := mp.seqNo;
        extHi := (extHi + 1) % M16;
      }
    }

    method JudgeTiming(p: Packet, localTs: int) returns (late: bool)
      modifies this`rcvDiffTs, this`outoftime, jittctl
      ensures TimingView() == JitterUpdated(old(TimingView()), p, localTs)
      ensures late == IsLate(TimingView(), p)
      ensures StatsView() == if late then TooLate(old(StatsView())) else old(StatsView())
    {
      late := false;
      if firstDelivered {
        var slide, safeDelay := jittctl.NewPacket(p.ts, localTs);
        rcvDiffTs := (hwrcvDiffTs + slide - safeDelay) % M32;
        hide AfterPacket, SafeDelay, Diff, NewerThan;
        if NewerThan(p.ts, (rcvLastTs + tsJump) % M32) {
          // only a signal: the application may resynchronise
        } else if StrictlyNewerThan(rcvLastTs, p.ts) {
          outoftime := outoftime + 1;
          late := true;
        }
      }
    }

    method RtpParse(mp: Packet, profile: Profile, localTs: int, wantsStun: bool)
      requires rq != tevRq
      modifies this, rq, tevRq, jittctl
      ensures View() == Parsed(old(View()), mp, profile, localTs, wantsStun)
    {
      hide ParsedRtp, TimingView;
      if mp.size < FIXED_HEADER {
        bad := bad + 1;
        return;
      }
      if mp.version != 2 {
        if mp.stunLength + 20 == mp.size {
          if wantsStun {
            stunEvents := stunEvents + [mp];
            return;
          }
        }
        return;
      }
      packetRecv := packetRecv + 1;
      hwRecv := hwRecv + mp.size;
      sinceLastSR := sinceLastSR + 1;
      ParseRtp(mp, profile, localTs);
    }

    method ParseRtp(mp: Packet, profile: Profile, localTs: int)
      requires rq != tevRq && mp.size >= FIXED_HEADER
      modifies this, rq, tevRq, jittctl
      ensures View() == ParsedRtp(old(View()), mp, profile, localTs)
    {
      hide Seen, FiledMedia, QueuedEvent, TimingView;
      if mp.cc * 4 > mp.size - FIXED_HEADER {
        bad := bad + 1;
        return;
      }
      CheckSourceAndSequence(mp);
      if mp.payType == tevPt {
        FileEvent(mp);
        return;
      }
      FileMedia(mp, profile, localTs);
    }

    method FileEvent(mp: Packet)
      requires rq != tevRq
      modifies this`discarded, tevRq
      ensures View() == QueuedEvent(old(View()), mp)
    {
      hide Queued, QueuedDiscards;
      var i := tevRq.SplitAndQueue(maxRqSize, mp);
      discarded := discarded + i;
    }

    method FileMedia(mp: Packet, profile: Profile, localTs: int)
      requires rq != tevRq
      modifies this, rq, jittctl
      ensures View() == FiledMedia(old(View()), mp, profile, localTs)
    {
      hide JitterUpdated, IsLate, Queued, QueuedDiscards, AfterPayload;
      if hwRecvPt != mp.payType {
        UpdatePayloadType(mp.payType, profile);
      }
      hide PayloadUpdated, TimingView;
      var late := JudgeTiming(mp, localTs);
      if late {
        return;
      }
      var i := rq.SplitAndQueue(maxRqSize, mp);
      discarded := discarded + i;
    }

    /** The queue side of rtp_session_recvm_with_ts. */
    method TakeMedia(timestamp: nat) returns (mp: Option<Packet>)
      requires rq != tevRq
      modifies this, rq, jittctl
      ensures (mp, View()) == MediaTaken(old(View()), timestamp)
    {
      hide Taken, Corrected, Trunc, NewerThan;
      var rejected;
      if permissive || jittctl.jittCompTs == 0 {
        mp, rejected := rq.RtpGetqPermissive(timestamp);
      } else {
        mp, rejected := rq.RtpGetq(timestamp);
      }
      outoftime := outoftime + rejected;
      if mp.Some? {
        if jittctl.adaptive {
          if mp.value.ts != rcvLastTs {
            jittctl.UpdateCorrectiveSlide();
          }
        }
        rcvLastTs := mp.value.ts;
        firstDelivered := true;
      }
    }
  }

  // ----- packet accounting over whole runs -----

  /** The receiver with what its statistics do not separate: a ledger of three counts. */
  datatype World = World(r: Receiver, shortCsrc: nat, duplicates: nat, taken: nat)

  datatype Happening =
    | Arrive(p: Packet, localTs: int, wantsStun: bool)
    | TakeMedia(timestamp: nat)
    | TakeEvent

  /** A packet dropped by rtp_putq while it is being parsed. */
  predicate Duplicate(r: Receiver, p: Packet, profile: Profile, localTs: int) {
    && IsRtp(p) && HasCsrcs(p)
    && if p.payType == r.tevPt then DroppedAsDuplicate(r.tevRq, p)
       else !IsLate(MediaTiming(r.timing, p, profile, localTs), p) && DroppedAsDuplicate(r.rq, p)
  }

  function Step(w: World, h: Happening, profile: Profile): World {
    match h
    case Arrive(p, localTs, wantsStun) =>
      w.(r := Parsed(w.r, p, profile, localTs, wantsStun),
         shortCsrc := w.shortCsrc + (if IsRtp(p) && !HasCsrcs(p) then 1 else 0),
         duplicates := w.duplicates + (if Duplicate(w.r, p, profile, localTs) then 1 else 0))
    case TakeMedia(timestamp) =>
      var (mp, r) := MediaTaken(w.r, timestamp);
      w.(r := r, taken := w.taken + (if mp.Some? then 1 else 0))
    case TakeEvent =>
      if w.r.tevRq == [] then w else w.(r := w.r.(tevRq := w.r.tevRq[1..]), taken := w.taken + 1)
  }

  /** Every packet counted in packet_recv is accounted for, the duplicates only by the ledger. */
  ghost predicate Balanced(w: World) {
    && w.r.stats.packetRecv
       == w.shortCsrc + w.r.stats.outoftime + w.r.stats.discarded + |w.r.rq| + |w.r.tevRq| + w.taken + w.duplicates
    && |w.r.rq| <= w.r.maxRqSize && |w.r.tevRq| <= w.r.maxRqSize
  }

  lemma ArriveBalanced(w: World, p: Packet, localTs: int, wantsStun: bool, profile: Profile)
    requires Balanced(w)
    ensures Balanced(Step(w, Arrive(p, localTs, wantsStun), profile))
  {
    QueuedAccounts(w.r.rq, w.r.maxRqSize, p);
    QueuedAccounts(w.r.tevRq, w.r.maxRqSize, p);
    hide Queued, QueuedDiscards, DroppedAsDuplicate, IsLate, JitterUpdated, PayloadUpdated, Seen;
  }

  lemma TakeBalanced(w: World, timestamp: nat, profile: Profile)
    requires Balanced(w)
    ensures Balanced(Step(w, TakeMedia(timestamp), profile))
  {
    hide Taken, Delivered, NewerThan;
    TakenAccounts(w.r.rq, timestamp, None);
  }

  function Run(w: World, hs: seq<Happening>, profile: Profile): World
    decreases |hs|
  {
    if hs == [] then w else Run(Step(w, hs[0], profile), hs[1..], profile)
  }

  /** Over any run: nothing is lost unaccounted, and no queue outgrows its limit. */
  lemma {:induction false} RunBalanced(w: World, hs: seq<Happening>, profile: Profile)
    requires Balanced(w)
    ensures Balanced(Run(w, hs, profile))
    decreases |hs|
  {
    if hs != [] {
      match hs[0] {
        case Arrive(p, localTs, wantsStun) => ArriveBalanced(w, p, localTs, wantsStun, profile);
        case TakeMedia(timestamp) => TakeBalanced(w, timestamp, profile);
        case TakeEvent =>
      }
      RunBalanced(Step(w, hs[0], profile), hs[1..], profile);
    }
  }

  /** The next happening is the arrival of a packet that meets its own number in the queue. */
  predicate ArrivesShadowed(w: World, h: Happening, profile: Profile) {
    h.Arrive? && Duplicate(w.r, h.p, profile, h.localTs)
  }

  /** No packet of the run meets its own number when it arrives. */
  predicate NoneShadowed(w: World, hs: seq<Happening>, profile: Profile)
    decreases |hs|
  {
    hs == [] || (!ArrivesShadowed(w, hs[0], profile) && NoneShadowed(Step(w, hs[0], profile), hs[1..], profile))
  }

  lemma {:induction false} DuplicatesOfRun(w: World, hs: seq<Happening>, profile: Profile)
    ensures Run(w, hs, profile).duplicates >= w.duplicates
    ensures Run(w, hs, profile).duplicates == w.duplicates <==> NoneShadowed(w, hs, profile)
    decreases |hs|
  {
    hide Parsed, MediaTaken, Duplicate;
    if hs != [] {
      DuplicatesOfRun(Step(w, hs[0], profile), hs[1..], profile);
      var n := Step(w, hs[0], profile).duplicates;
      assert n == w.duplicates + if ArrivesShadowed(w, hs[0], profile) then 1 else 0;
    }
  }

  /** The statistics alone close the books exactly when no packet met its own number on arrival. */
  lemma StatisticsCloseExactly(w: World, hs: seq<Happening>, profile: Profile)
    requires Balanced(w) && w.duplicates == 0
    ensures var v := Run(w, hs, profile);
            v.r.stats.packetRecv
            == v.shortCsrc + v.r.stats.outoftime + v.r.stats.discarded + |v.r.rq| + |v.r.tevRq| + v.taken
            <==> NoneShadowed(w, hs, profile)
  {
    RunBalanced(w, hs, profile);
    DuplicatesOfRun(w, hs, profile);
  }

  /** The same packet arriving twice is enough. */
  lemma DuplicateUncounted(w: World, p: Packet, localTs: int, profile: Profile)
    requires w.r.rq == [] && w.r.maxRqSize >= 1 && !w.r.timing.firstDelivered
    requires p.size > HeaderSize(p) && p.version == 2 && p.payType != w.r.tevPt
    ensures var v := Run(w, [Arrive(p, localTs, false), Arrive(p, localTs, false)], profile);
            && v.duplicates == w.duplicates + 1 && v.r.rq == [p]
            && v.r.stats == w.r.stats.(packetRecv := w.r.stats.packetRecv + 2, hwRecv := w.r.stats.hwRecv + 2 * p.size,
                                       sinceLastSR := w.r.stats.sinceLastSR + 2)
  {
    hide AfterPayload, SeqUpdate;
    var a := Arrive(p, localTs, false);
    assert Put([], p) == [p] && Put([p], p) == [p];
    var w1 := Step(w, a, profile);
    assert Queued([], w.r.maxRqSize, p) == [p];
    assert w1.r.rq == [p] && w1.duplicates == w.duplicates;
    var w2 := Step(w1, a, profile);
    assert [a, a][1..] == [a] && [a][1..] == [];
    assert Run(w, [a, a], profile) == Run(w1, [a], profile) == w2;
  }
}
