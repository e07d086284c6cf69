/**
 The timer that repeats a 200 OK until its ACK arrives (eXosip_retransmit_lost200ok). Its loop over
 the dialogs of a call starts again behind the first dialog each time a timer fires; nevertheless
 it ends, and every dialog's timer goes through what `Finish` says, once a pass.
 */
module Lost200 {
  import opened Numerals
  import opened CallStore
  import opened CallOps
  import opened CallInvariants
  import opened CallRelease
  import opened CallHandlers
  import opened CallTimes
  import opened CallFronts
  import opened CallRuns

  // ----- termination -----

  /** How many of the dialogs have a timer in the past. */
  function Late(s: Store, ds: seq<Ptr>, now: int): nat {
    if ds == [] then 0 else (if DialogOf(s, ds[0]).timer < now then 1 else 0) + Late(s, ds[1..], now)
  }

  lemma {:induction false} LateSame(s: Store, r: Store, ds: seq<Ptr>, now: int)
    requires forall d | d in ds :: DialogOf(r, d).timer == DialogOf(s, d).timer
    ensures Late(r, ds, now) == Late(s, ds, now)
  {
    if ds != [] {
      LateSame(s, r, ds[1..], now);
    }
  }

  /** A timer that fires is set to the future, so one dialog less is late. */
  lemma {:induction false} LateLess(s: Store, ds: seq<Ptr>, d: Ptr, now: int)
    requires NoDup(ds) && d in ds && DialogOf(s, d).timer < now
    ensures Late(SetDialog(s, d, Resent(DialogOf(s, d), now)), ds, now) < Late(s, ds, now)
  {
    var r := SetDialog(s, d, Resent(DialogOf(s, d), now));
    if ds[0] == d {
      LateSame(s, r, ds[1..], now);
    } else {
      assert ds == [ds[0]] + ds[1..];
      LateLess(s, ds[1..], d, now);
    }
  }

  // ----- what a pass does to one dialog -----

  /** The part of a dialog the timer works on. */
  datatype Timing = Timing(waiting: bool, timer: int, count: int)

  function TimingOf(dialog: Dialog): Timing {
    Timing(Waiting(dialog), dialog.timer, dialog.count)
  }

  function TimingAt(s: Store, d: Ptr): Timing {
    TimingOf(DialogOf(s, d))
  }

  function Dropped(x: Timing): Timing {
    x.(waiting := false, count := 0)
  }

  /**
   A pass over one dialog that waits for its ACK: after five repeats it is given up; otherwise, if
   its timer is past, it is repeated and the timer set four seconds ahead. In any store this is what
   the loop does: a dialog other than the first of its call would be looked at again after its timer
   fired, so that its fifth repeat and the giving up would happen in one pass. In a store that a run
   reaches, no such dialog waits (OthersUntouched).
   */
  function Finish(x: Timing, now: int, first: bool): Timing {
    if !x.waiting then x
    else if x.count == 5 then Dropped(x)
    else if x.timer >= now then x
    else
      var y := x.(timer := now + 4, count := x.count + 1);
      if !first && y.count == 5 then Dropped(y) else y
  }

  /** Of the dialogs of a call in order, a pass touches the first at most. */
  lemma OthersUntouched(w: World, c: Ptr, k: nat, now: int)
    requires Good(w) && c in w.s.calls && 0 < k < |CallOf(w.s, c).dialogs|
    ensures var x := TimingAt(w.s, CallOf(w.s, c).dialogs[k]); !x.waiting && Finish(x, now, false) == x
  {
    hide Sane;
    assert HeadedAt(w.s, c) && NoDup(CallOf(w.s, c).dialogs);
  }

  /** Ids are positive where the timer looks, and name one dialog each. */
  ghost predicate Tidy(s: Store) {
    && (forall c | c in s.calls :: CallOf(s, c).id >= 1)
    && (forall c, d | LiveDialog(s, c, d) && DialogOf(s, d).established :: DialogOf(s, d).id >= 1)
    && (forall c, d, b, e | LiveDialog(s, c, d) && LiveDialog(s, b, e) && DialogOf(s, d).id >= 1
          && DialogOf(s, e).id == DialogOf(s, d).id :: b == c && e == d)
  }

  /** Before the loop of call c looks at position i: what is done and what is still to do. */
  ghost predicate Progress(s0: Store, s: Store, ds: seq<Ptr>, i: nat, now: int) {
    && (forall k | 0 <= k < |ds| && k < i :: TimingAt(s, ds[k]) == Finish(TimingAt(s0, ds[k]), now, k == 0))
    && (forall k | i <= k < |ds| :: Finish(TimingAt(s, ds[k]), now, k == 0) == Finish(TimingAt(s0, ds[k]), now, k == 0))
    && (i == 0 ==> |ds| > 0 ==> TimingAt(s, ds[0]) == TimingAt(s0, ds[0]))
    && (forall c, d | LiveDialog(s0, c, d) && d !in ds :: TimingAt(s, d) == TimingAt(s0, d))
  }

  lemma ProgressStart(s: Store, ds: seq<Ptr>, now: int)
    ensures Progress(s, s, ds, 0, now)
  {
  }

  /** A dialog that needs nothing. */
  lemma ProgressSkip(s0: Store, s: Store, ds: seq<Ptr>, i: nat, now: int)
    requires Progress(s0, s, ds, i, now) && i < |ds|
    requires var x := TimingAt(s, ds[i]); !x.waiting || (x.count != 5 && x.timer >= now)
    ensures Progress(s0, s, ds, i + 1, now)
  {
    assert Finish(TimingAt(s, ds[i]), now, i == 0) == TimingAt(s, ds[i]);
  }

  /** A timer that fires sends the loop back to the second dialog; what it has passed stays as it is. */
  lemma ProgressFire(s0: Store, s: Store, ds: seq<Ptr>, i: nat, now: int)
    requires NoDup(ds) && Progress(s0, s, ds, i, now) && i < |ds| && Due(DialogOf(s, ds[i]), now)
    ensures Progress(s0, SetDialog(s, ds[i], Resent(DialogOf(s, ds[i]), now)), ds, 1, now)
  {
    var r := SetDialog(s, ds[i], Resent(DialogOf(s, ds[i]), now));
    assert TimingAt(r, ds[i]) == TimingAt(s, ds[i]).(timer := now + 4, count := DialogOf(s, ds[i]).count + 1);
    forall k | 0 <= k < |ds| && k != i ensures TimingAt(r, ds[k]) == TimingAt(s, ds[k]) {
    }
    forall k | 1 <= k < |ds| ensures Finish(TimingAt(r, ds[k]), now, false) == Finish(TimingAt(s0, ds[k]), now, false) {
    }
  }

  /** A dialog that is given up. */
  lemma ProgressDrop(s0: Store, s: Store, r: Store, ds: seq<Ptr>, i: nat, now: int)
    requires NoDup(ds) && Progress(s0, s, ds, i, now) && i < |ds| && TimingAt(s, ds[i]).waiting && TimingAt(s, ds[i]).count == 5
    requires TimingAt(r, ds[i]) == Dropped(TimingAt(s, ds[i]))
    requires forall k | 0 <= k < |ds| && k != i :: TimingAt(r, ds[k]) == TimingAt(s, ds[k])
    requires forall c, d | LiveDialog(s0, c, d) && d !in ds :: TimingAt(r, d) == TimingAt(s, d)
    ensures Progress(s0, r, ds, i + 1, now)
  {
  }

  // ----- what closing does to ids -----

  lemma ClosedIds(s: Store, d: Ptr, e: Ptr)
    requires e != d
    ensures NumberKept(s, Closed(s, d), e)
    ensures !DialogOf(Closed(s, d), d).established
  {
    hide Updated;
    var s1 := SetDialog(s, d, DialogOf(s, d).(established := false));
    UpdatedIds(s1, e);
    UpdatedIds(s1, d);
  }

  // ----- giving up -----

  lemma {:induction false} DialogWithIdSome(s: Store, ds: seq<Ptr>, d: Ptr)
    requires d in ds
    ensures DialogWithId(s, ds, DialogOf(s, d).id).Some?
  {
    if ds[0] != d {
      assert ds == [ds[0]] + ds[1..];
      DialogWithIdSome(s, ds[1..], d);
    }
  }

  lemma {:induction false} CallDialogFindSome(s: Store, cs: seq<Ptr>, c: Ptr, d: Ptr)
    requires c in cs && d in CallOf(s, c).dialogs
    ensures CallDialogFind(s, cs, DialogOf(s, d).id).Some?
  {
    if cs[0] == c {
      DialogWithIdSome(s, CallOf(s, c).dialogs, d);
    } else {
      assert cs == [cs[0]] + cs[1..];
      CallDialogFindSome(s, cs[1..], c, d);
    }
  }

  /** Only dialog d is touched: it is acknowledged, may send a request, and may be closed. */
  ghost predicate OnlyDialog(s: Store, r: Store, d: Ptr) {
    && r.calls == s.calls && (forall c :: CallOf(r, c).dialogs == CallOf(s, c).dialogs)
    && (forall e | e != d :: NumberKept(s, r, e))
    && (forall c :: CallIdKept(s, r, c))
    && (forall e :: DialogOf(r, e).timer == DialogOf(s, e).timer)
    && (DialogOf(r, d).established ==> DialogOf(s, d).established && DialogOf(r, d).id == DialogOf(s, d).id)
    && (DialogOf(r, d).id == DialogOf(s, d).id || DialogOf(r, d).id == -1)
  }

  lemma SameIdsShape(s: Store, r: Store)
    requires SameButIds(s, r)
    ensures r.calls == s.calls && (forall c :: CallOf(r, c).dialogs == CallOf(s, c).dialogs)
    ensures forall e :: DialogOf(r, e).(id := 0) == DialogOf(s, e).(id := 0)
  {
    SameButIdsOutside(s, r, 0);
    forall c ensures CallOf(r, c).dialogs == CallOf(s, c).dialogs {
      assert SameCall(s, r, c);
    }
    forall e ensures DialogOf(r, e).(id := 0) == DialogOf(s, e).(id := 0) {
      SameButIdsDialog(s, r, e);
    }
  }

  lemma ClosedOnly(s: Store, d: Ptr)
    ensures OnlyDialog(s, Closed(s, d), d)
    ensures var x := DialogOf(Closed(s, d), d); x.count == DialogOf(s, d).count && x.ok200 == DialogOf(s, d).ok200 && !x.established
  {
    hide Updated, SameButIds;
    var s1 := SetDialog(s, d, DialogOf(s, d).(established := false));
    SameIdsShape(s1, Updated(s1));
    assert DialogOf(Updated(s1), d).(id := 0) == DialogOf(s1, d).(id := 0);
    UpdatedIds(s1, d);
    forall e | e != d ensures NumberKept(s, Closed(s, d), e) {
      ClosedIds(s, d, e);
    }
    forall c ensures CallIdKept(s, Closed(s, d), c) {
      UpdatedCallIds(s1, c);
    }
    forall e ensures DialogOf(Closed(s, d), e).timer == DialogOf(s, e).timer {
      assert DialogOf(Updated(s1), e).(id := 0) == DialogOf(s1, e).(id := 0);
    }
  }

  lemma OnlyJoin(s: Store, m: Store, r: Store, d: Ptr)
    requires OnlyDialog(s, m, d) && OnlyDialog(m, r, d)
    ensures OnlyDialog(s, r, d)
  {
    forall e | e != d ensures NumberKept(s, r, e) {
      assert NumberKept(s, m, e) && NumberKept(m, r, e);
    }
    forall c ensures CallIdKept(s, r, c) {
      assert CallIdKept(s, m, c) && CallIdKept(m, r, c);
    }
    forall c ensures CallOf(r, c).dialogs == CallOf(s, c).dialogs {
      assert CallOf(m, c).dialogs == CallOf(s, c).dialogs;
    }
    forall e ensures DialogOf(r, e).timer == DialogOf(s, e).timer {
      assert DialogOf(m, e).timer == DialogOf(s, e).timer;
    }
  }

  lemma SentOnly(s: Store, c: Ptr, d: Ptr, t: Ptr, m: string, state: State, now: int)
    ensures OnlyDialog(s, RequestSent(s, c, d, t, m, state, now), d)
    ensures var x := DialogOf(RequestSent(s, c, d, t, m, state, now), d); x.(outTrs := []) == DialogOf(s, d).(outTrs := [])
  {
  }

  lemma FiledOnly(s: Store, t: Ptr, tr: Transaction, d: Ptr)
    ensures OnlyDialog(s, Filed(WithTr(s, t, tr), t), d)
    ensures DialogOf(Filed(WithTr(s, t, tr), t), d) == DialogOf(s, d)
  {
  }

  lemma TerminatedAtOnly(s: Store, c: Ptr, d: Ptr, t: Ptr, toTag: bool, now: int)
    ensures var r := TerminatedAt(s, c, Some(d), t, toTag, now);
      && OnlyDialog(s, r, d)
      && DialogOf(r, d).count == DialogOf(s, d).count && DialogOf(r, d).ok200 == DialogOf(s, d).ok200
  {
    hide Closed, RequestSent, FindLastOutInvite, FindLastIncInvite, Provisional, OnlyDialog;
    var tr := Born("CANCEL", NICT_PRE_TRYING, now, None);
    var s1 := Filed(WithTr(s, t, tr), t);
    FiledOnly(s, t, tr, d);
    ClosedOnly(s1, d);
    OnlyJoin(s, s1, Closed(s1, d), d);
    var s2 := RequestSent(s, c, d, t, "BYE", NICT_PRE_TRYING, now);
    SentOnly(s, c, d, t, "BYE", NICT_PRE_TRYING, now);
    ClosedOnly(s2, d);
    OnlyJoin(s, s2, Closed(s2, d), d);
    assert OnlyDialog(s, s, d) by { SelfOnly(s, d); }
  }

  lemma SelfOnly(s: Store, d: Ptr)
    ensures OnlyDialog(s, s, d)
  {
  }

  lemma AcknowledgedOnly(s: Store, d: Ptr)
    ensures OnlyDialog(s, Acknowledged(s, d), d)
    ensures DialogOf(Acknowledged(s, d), d) == DialogOf(s, d).(count := 0, ok200 := false)
  {
  }

  /** Whatever it finds, terminating a call moves no timer and unlinks nothing. */
  lemma TerminateTimers(s: Store, cid: int, did: int, t: Ptr, toTag: bool, now: int)
    ensures var r := Terminate(s, cid, did, t, toTag, now);
      && r.calls == s.calls && (forall c :: CallOf(r, c).dialogs == CallOf(s, c).dialogs)
      && (forall e :: DialogOf(r, e).timer == DialogOf(s, e).timer)
  {
    hide TerminatedAt, CallDialogFind, CallFind, NumberKept;
    var p := if did > 0 then CallDialogFind(s, s.calls, did) else CallFind(s, s.calls, cid);
    if p.Some? {
      if p.value.d.Some? {
        TerminatedAtOnly(s, p.value.c, p.value.d.value, t, toTag, now);
      } else {
        TerminatedNowhere(s, p.value.c, t, toTag, now);
      }
    }
  }

  lemma TerminatedNowhere(s: Store, c: Ptr, t: Ptr, toTag: bool, now: int)
    ensures var r := TerminatedAt(s, c, None, t, toTag, now);
      r == s || r == Filed(WithTr(s, t, Born("CANCEL", NICT_PRE_TRYING, now, None)), t)
  {
    hide FindLastOutInvite, FindLastIncInvite, Provisional;
  }

  lemma GivenUpTimers(s: Store, c: Ptr, d: Ptr, t: Ptr, toTag: bool, now: int)
    ensures var r := GivenUp(s, c, d, t, toTag, now);
      && r.calls == s.calls && (forall b :: CallOf(r, b).dialogs == CallOf(s, b).dialogs)
      && (forall e :: DialogOf(r, e).timer == DialogOf(s, e).timer)
  {
    hide Terminate, Acknowledged, NumberKept;
    AcknowledgedOnly(s, d);
    TerminateTimers(Acknowledged(s, d), CallOf(s, c).id, DialogOf(s, d).id, t, toTag, now);
  }

  lemma OnlyTidy(s: Store, r: Store, d: Ptr)
    requires Tidy(s) && OnlyDialog(s, r, d)
    ensures Tidy(r)
    ensures forall b, e | LiveDialog(s, b, e) && e != d :: TimingAt(r, e) == TimingAt(s, e)
  {
    forall b, e | LiveDialog(s, b, e) && e != d ensures TimingAt(r, e) == TimingAt(s, e) {
      assert NumberKept(s, r, e);
    }
    forall c | c in r.calls ensures CallOf(r, c).id >= 1 {
      assert CallIdKept(s, r, c);
    }
    forall b, e | LiveDialog(r, b, e) ensures LiveDialog(s, b, e) && (DialogOf(r, e).id == DialogOf(s, e).id || DialogOf(r, e).id == -1)
      ensures DialogOf(r, e).established ==> DialogOf(r, e).id >= 1
    {
      assert LiveDialog(s, b, e);
      assert e != d ==> NumberKept(s, r, e);
    }
  }

  /** Where ids are tidy, giving up on a dialog stops its timer, and no other. */
  lemma GivenUpOnly(s: Store, c: Ptr, d: Ptr, t: Ptr, toTag: bool, now: int)
    requires Tidy(s) && LiveDialog(s, c, d) && Waiting(DialogOf(s, d))
    ensures var r := GivenUp(s, c, d, t, toTag, now);
      && Tidy(r) && TimingAt(r, d) == Dropped(TimingAt(s, d))
      && forall b, e | LiveDialog(s, b, e) && e != d :: TimingAt(r, e) == TimingAt(s, e)
  {
    hide TerminatedAt, CallDialogFind, OnlyDialog, Acknowledged;
    var s1 := Acknowledged(s, d);
    AcknowledgedOnly(s, d);
    OnlyTidy(s, s1, d);
    var p := CallDialogFind(s1, s1.calls, DialogOf(s, d).id);
    assert s1.calls == s.calls && CallOf(s1, c).dialogs == CallOf(s, c).dialogs by { OnlyShape(s, s1, d); }
    assert LiveDialog(s1, c, d);
    CallDialogFindSome(s1, s1.calls, c, d);
    assert LiveDialog(s1, p.value.c, p.value.d.value);
    assert p == Some(Place(c, Some(d)));
    TerminatedAtOnly(s1, c, d, t, toTag, now);
    var r := TerminatedAt(s1, c, Some(d), t, toTag, now);
    assert r == GivenUp(s, c, d, t, toTag, now);
    OnlyJoin(s, s1, r, d);
    OnlyTidy(s, r, d);
    OnlyShape(s, r, d);
  }

  lemma OnlyShape(s: Store, r: Store, d: Ptr)
    requires OnlyDialog(s, r, d)
    ensures r.calls == s.calls && (forall c :: CallOf(r, c).dialogs == CallOf(s, c).dialogs)
    ensures DialogOf(r, d).timer == DialogOf(s, d).timer
  {
  }

  // ----- a whole pass -----

  /** Every dialog of call c has been through Finish. */
  ghost predicate Passed(s0: Store, s: Store, c: Ptr, now: int) {
    var ds := CallOf(s0, c).dialogs;
    forall k | 0 <= k < |ds| :: TimingAt(s, ds[k]) == Finish(TimingAt(s0, ds[k]), now, k == 0)
  }

  /** No dialog of call c has been touched. */
  ghost predicate Untouched(s0: Store, s: Store, c: Ptr) {
    forall d | d in CallOf(s0, c).dialogs :: TimingAt(s, d) == TimingAt(s0, d)
  }

  /** After a pass nothing is due: at this moment, a second pass would repeat nothing. */
  lemma NothingDue(s0: Store, s: Store, c: Ptr, d: Ptr, now: int)
    requires Passed(s0, s, c, now) && d in CallOf(s0, c).dialogs
    ensures !Due(DialogOf(s, d), now)
  {
    var ds := CallOf(s0, c).dialogs;
    var k :| 0 <= k < |ds| && ds[k] == d;
    assert TimingAt(s, ds[k]) == Finish(TimingAt(s0, ds[k]), now, k == 0);
  }
}
