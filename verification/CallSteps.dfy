/** Every operation keeps the invariants; a new transaction gets exactly one place, or none in the cases listed. */
module CallSteps {
  import opened Numerals
  import opened CallStore
  import opened CallOps
  import opened CallInvariants
  import opened CallRelease
  import opened CallHandlers
  import opened CallGrowth

  /** No transaction is from the future. */
  ghost predicate Past(s: Store, now: int) {
    forall t | t in s.trAt :: s.trAt[t].birth <= now
  }

  lemma YoungestNow(s: Store, c: Ptr, d: Ptr, t: Ptr, now: int)
    requires Inv(s) && Past(s, now) && c in s.calls && d in CallOf(s, c).dialogs && TrOf(s, t).birth == now
    ensures Youngest(s, d, t)
  {
    hide CallsOk, Linked, CallHeld, Owned;
    forall x | Listed(s, d, x) ensures TrOf(s, x).birth <= now {
      ListedHeld(s, c, d, x);
      HeldTwice(s, c, x);
    }
  }

  lemma UpdatedPlaced(s: Store, r: Store, t: Ptr)
    requires Placed(s, r, t)
    ensures Placed(s, Updated(r), t)
  {
    hide Inv, Held, Updated;
    UpdatedKeeps(r, Updated(r));
  }

  lemma ClosedKeeps(s: Store, c: Ptr, d: Ptr)
    requires Inv(s) && c in s.calls && d in CallOf(s, c).dialogs
    ensures var r := Closed(s, d); Inv(r) && Held(r) == Held(s)
  {
    hide Inv, Held, Updated;
    var s1 := SetDialog(s, d, DialogOf(s, d).(established := false));
    SameListsKeeps(s, c, d, DialogOf(s, d).(established := false));
    UpdatedKeeps(s1, Updated(s1));
  }

  // ----- the call API -----

  lemma InitialInvitePlaced(s: Store, c: Ptr, t: Ptr, now: int)
    requires Inv(s) && t !in s.trAt && c !in s.callAt
    ensures Placed(s, InitialInvite(s, c, t, now), t)
  {
    hide Inv, Held, Updated;
    var s1 := WithTr(s, t, Born("INVITE", ICT_PRE_CALLING, now, Some(JInfo(c, None))));
    BornKeeps(s, t, Born("INVITE", ICT_PRE_CALLING, now, Some(JInfo(c, None))));
    var s2 := CallAdded(s1, c);
    CallAddedKeeps(s1, c);
    FillsPlaced(s2, c, CallOf(s2, c).(outTr := Some(t)), t);
    UpdatedPlaced(s, SetCall(s2, c, CallOf(s2, c).(outTr := Some(t))), t);
  }

  lemma RequestSentPlaced(s: Store, c: Ptr, d: Ptr, t: Ptr, m: string, state: State, now: int)
    requires Inv(s) && Past(s, now) && t !in s.trAt && c in s.calls && d in CallOf(s, c).dialogs
    ensures Placed(s, RequestSent(s, c, d, t, m, state, now), t)
  {
    hide Inv, Held;
    var s1 := WithTr(s, t, Born(m, state, now, Some(JInfo(c, Some(d)))));
    BornKeeps(s, t, Born(m, state, now, Some(JInfo(c, Some(d)))));
    YoungestNow(s1, c, d, t, now);
    FrontsPlaced(s1, c, d, DialogOf(s1, d).(outTrs := [t] + DialogOf(s1, d).outTrs), t);
  }

  /** Either nothing is held that was not, or just t is. */
  ghost predicate Grown(s: Store, r: Store, t: Ptr) {
    Placed(s, r, t) || (Inv(r) && Held(r) == Held(s))
  }

  lemma SendRequestGrown(s: Store, did: int, t: Ptr, m: string, now: int)
    requires Inv(s) && Past(s, now) && t !in s.trAt
    ensures Grown(s, SendRequest(s, did, t, m, now), t)
  {
    hide Inv, Held, RequestSent, FindLastInvite, FindLast;
    var p := CallDialogFind(s, s.calls, did);
    if did > 0 && p.Some? {
      var invite := EqualFold(m, "INVITE");
      RequestSentPlaced(s, p.value.c, p.value.d.value, t, m, if invite then ICT_PRE_CALLING else NICT_PRE_TRYING, now);
    }
  }

  lemma SendPrackGrown(s: Store, tid: Ptr, t: Ptr, now: int)
    requires Inv(s) && Past(s, now) && t !in s.trAt
    ensures Grown(s, SendPrack(s, tid, t, now), t)
  {
    hide Inv, Held, RequestSent;
    var p := TransactionFind(s, s.calls, tid);
    if p.Some? && p.value.d.Some? {
      RequestSentPlaced(s, p.value.c, p.value.d.value, t, "PRACK", NICT_PRE_TRYING, now);
    }
  }

  lemma ClosedPlaced(s: Store, r: Store, c: Ptr, d: Ptr, t: Ptr)
    requires Placed(s, r, t) && c in r.calls && d in CallOf(r, c).dialogs
    ensures Placed(s, Closed(r, d), t)
  {
    hide Inv, Held, Closed;
    ClosedKeeps(r, c, d);
  }

  lemma TerminatedAtGrown(s: Store, c: Ptr, d: Option<Ptr>, t: Ptr, toTag: bool, now: int)
    requires Inv(s) && Past(s, now) && t !in s.trAt && c in s.calls && (d.Some? ==> d.value in CallOf(s, c).dialogs)
    ensures Grown(s, TerminatedAt(s, c, d, t, toTag, now), t)
  {
    hide Inv, Held, Closed, Provisional, FindLastOutInvite, FindLastIncInvite, Placed;
    var s1 := WithTr(s, t, Born("CANCEL", NICT_PRE_TRYING, now, None));
    BornKeeps(s, t, Born("CANCEL", NICT_PRE_TRYING, now, None));
    FiledPlaced(s1, t);
    assert Placed(s, Filed(s1, t), t) by { PlacedFrom(s, s1, Filed(s1, t), t); }
    if d.Some? {
      ClosedPlaced(s, Filed(s1, t), c, d.value, t);
      RequestSentPlaced(s, c, d.value, t, "BYE", NICT_PRE_TRYING, now);
      ClosedPlaced(s, RequestSent(s, c, d.value, t, "BYE", NICT_PRE_TRYING, now), c, d.value, t);
    }
  }

  lemma PlacedFrom(s: Store, s1: Store, r: Store, t: Ptr)
    requires Held(s1) == Held(s) && Placed(s1, r, t)
    ensures Placed(s, r, t)
  {
  }

  lemma TerminateGrown(s: Store, cid: int, did: int, t: Ptr, toTag: bool, now: int)
    requires Inv(s) && Past(s, now) && t !in s.trAt
    ensures Grown(s, Terminate(s, cid, did, t, toTag, now), t)
  {
    hide Inv, Held, TerminatedAt;
    var p := if did > 0 then CallDialogFind(s, s.calls, did) else CallFind(s, s.calls, cid);
    if p.Some? {
      TerminatedAtGrown(s, p.value.c, p.value.d, t, toTag, now);
    }
  }

  lemma SendAnswerKeeps(s: Store, tid: Ptr, status: int, answer: Option<int>, now: int)
    requires Inv(s)
    ensures var r := SendAnswer(s, tid, status, answer, now); Inv(r) && Held(r) == Held(s)
  {
    hide Inv, Held, Updated;
    var p := TransactionFind(s, s.calls, tid);
    UpdatedKeeps(s, Updated(s));
    if p.Some? && p.value.d.Some? {
      var d := p.value.d.value;
      var s1 := SetDialog(s, d, Set200Ok(DialogOf(s, d), now));
      SameListsKeeps(s, p.value.c, d, Set200Ok(DialogOf(s, d), now));
      UpdatedKeeps(s1, Updated(s1));
    }
  }

  // ----- the retry -----

  /** The slot's old transaction goes to the garbage list, the new one takes its place, and the dialog goes. */
  lemma SwapPlaced(s: Store, c: Ptr, former: Ptr, t: Ptr)
    requires Inv(s) && Loose(s, t) && Names(s, t) == None && ReportsTo(s, t, c) && c in s.calls && CallOf(s, c).outTr == Some(former)
    ensures var r := SetCall(Filed(s, former), c, CallOf(s, c).(outTr := Some(t)));
      Placed(s, r, t) && CallOf(r, c).incTr == None
  {
    hide Inv, Held;
    InvShape(s, c);
    var call0 := CallOf(s, c).(outTr := None);
    var s1 := Filed(SetCall(s, c, call0), former);
    SlotOut(s, c, call0, former);
    FillsPlaced(s1, c, call0.(outTr := Some(t)), t);
    var r := SetCall(s1, c, call0.(outTr := Some(t)));
    assert r == SetCall(Filed(s, former), c, CallOf(s, c).(outTr := Some(t))) by {
      assert s.callAt[c := call0][c := call0.(outTr := Some(t))] == s.callAt[c := call0.(outTr := Some(t))];
    }
  }

  lemma RetriedGrown(s: Store, c: Ptr, d: Option<Ptr>, former: Ptr, t: Ptr, now: int)
    requires Inv(s) && Past(s, now) && t !in s.trAt && c in s.calls && (d.Some? ==> d.value in CallOf(s, c).dialogs)
    ensures Grown(s, Retried(s, c, d, former, t, now), t)
  {
    hide Inv, Held, Updated, RequestSent, Placed, DialogFreed, Unlinked;
    var m := TrOf(s, former).cseqMethod;
    var state := if EqualFold(m, "INVITE") then ICT_PRE_CALLING else NICT_PRE_TRYING;
    if CallOf(s, c).outTr == Some(former) {
      var s0 := WithTr(s, t, Born(m, state, now, Some(JInfo(c, None))));
      BornKeeps(s, t, Born(m, state, now, Some(JInfo(c, None))));
      var s2 := SetCall(Filed(s0, former), c, CallOf(s0, c).(outTr := Some(t)));
      SwapPlaced(s0, c, former, t);
      PlacedFrom(s, s0, s2, t);
      if d.Some? {
        DroppedPlaced(s, s2, c, d.value, t);
      } else {
        UpdatedPlaced(s, s2, t);
      }
    } else if d.Some? {
      RequestSentPlaced(s, c, d.value, t, m, state, now);
      UpdatedPlaced(s, RequestSent(s, c, d.value, t, m, state, now), t);
    }
  }

  /** REMOVE_ELEMENT and eXosip_dialog_free alone are enough here: the only transaction of the call is the new one. */
  lemma DroppedPlaced(s: Store, s2: Store, c: Ptr, d: Ptr, t: Ptr)
    requires Placed(s, s2, t) && c in s2.calls && d in CallOf(s2, c).dialogs
    requires CallOf(s2, c).incTr == None && CallOf(s2, c).outTr == Some(t) && Names(s2, t) == None
    ensures Placed(s, Updated(Updated(DialogFreed(Unlinked(s2, c, d), d))), t)
  {
    hide Inv, Held, Updated, DialogFreed, Unlinked;
    InvApart(s2, c);
    var s3 := DialogFreed(Unlinked(s2, c, d), d);
    FreedStep(s2, c, d);
    UnnamedGoes(s2, s3, c, d);
    UpdatedPlaced(s, s3, t);
    UpdatedPlaced(s, Updated(s3), t);
  }

  // ----- incoming requests -----

  lemma AcknowledgedKeeps(s: Store, c: Ptr, d: Ptr)
    requires Inv(s) && c in s.calls && d in CallOf(s, c).dialogs
    ensures var r := Acknowledged(s, d); Inv(r) && Held(r) == Held(s)
  {
    hide Inv, Held;
    SameListsKeeps(s, c, d, DialogOf(s, d).(count := 0, ok200 := false));
  }

  lemma IncListedPlaced(s: Store, c: Ptr, d: Ptr, t: Ptr, now: int)
    requires Inv(s) && Past(s, now) && Loose(s, t) && TrOf(s, t).birth == now && c in s.calls && d in CallOf(s, c).dialogs
    requires (Names(s, t) == None || Names(s, t) == Some(d)) && ReportsTo(s, t, c)
    ensures Placed(s, IncListed(s, d, t), t)
  {
    hide Inv, Held;
    YoungestNow(s, c, d, t, now);
    FrontsPlaced(s, c, d, DialogOf(s, d).(incTrs := [t] + DialogOf(s, d).incTrs), t);
  }

  /** Reporting to call c, and to dialog d or to none, then listed in d. */
  lemma ReportedPlaced(s: Store, c: Ptr, d: Ptr, t: Ptr, jd: Option<Ptr>, now: int)
    requires Inv(s) && Past(s, now) && Loose(s, t) && TrOf(s, t).birth == now && c in s.calls && d in CallOf(s, c).dialogs
    requires jd == None || jd == Some(d)
    ensures Placed(s, IncListed(Reporting(s, t, JInfo(c, jd)), d, t), t)
  {
    hide Inv, Held, IncListed, Loose;
    var s1 := Reporting(s, t, JInfo(c, jd));
    ReportingKeeps(s, t, JInfo(c, jd));
    IncListedPlaced(s1, c, d, t, now);
  }

  lemma WithinDialogPlaced(s: Store, req: Request, t: Ptr, c: Ptr, d: Ptr, now: int)
    requires Inv(s) && Past(s, now) && Loose(s, t) && TrOf(s, t).birth == now && c in s.calls && d in CallOf(s, c).dialogs
    ensures Placed(s, WithinDialog(s, req, t, c, d), t)
  {
    hide Inv, Held, IncListed, Reporting, Closed, FindLastInc, FindLastOut, Unfinished, Placed, Loose, Past;
    FiledPlaced(s, t);
    ReportedPlaced(s, c, d, t, Some(d), now);
    ReinvitePlaced(s, req, t, c, d, now);
    ByePlaced(s, t, c, d, now);
  }

  lemma ReinvitePlaced(s: Store, req: Request, t: Ptr, c: Ptr, d: Ptr, now: int)
    requires Inv(s) && Past(s, now) && Loose(s, t) && TrOf(s, t).birth == now && c in s.calls && d in CallOf(s, c).dialogs
    ensures Placed(s, IncListed(Reporting(SetDialog(s, d, DialogOf(s, d).(remoteCseq := req.cseq)), t, JInfo(c, Some(d))), d, t), t)
  {
    hide Inv, Held, IncListed, Reporting;
    SameListsKeeps(s, c, d, DialogOf(s, d).(remoteCseq := req.cseq));
    ReportedPlaced(SetDialog(s, d, DialogOf(s, d).(remoteCseq := req.cseq)), c, d, t, Some(d), now);
  }

  lemma ByePlaced(s: Store, t: Ptr, c: Ptr, d: Ptr, now: int)
    requires Inv(s) && Past(s, now) && Loose(s, t) && TrOf(s, t).birth == now && c in s.calls && d in CallOf(s, c).dialogs
    ensures Placed(s, Closed(IncListed(Reporting(s, t, JInfo(c, None)), d, t), d), t)
  {
    hide Inv, Held, Closed, Loose, Past;
    ReportedPlaced(s, c, d, t, None, now);
    ClosedPlaced(s, IncListed(Reporting(s, t, JInfo(c, None)), d, t), c, d, t);
  }

  lemma NewInvitePlaced(s: Store, req: Request, t: Ptr, c: Ptr, d: Ptr, now: int)
    requires Inv(s) && Loose(s, t) && c !in s.callAt && d !in s.dialogAt
    ensures if req.toTag then Inv(NewInvite(s, req, t, c, d, now)) && Held(NewInvite(s, req, t, c, d, now)) == Held(s)
            else Placed(s, NewInvite(s, req, t, c, d, now), t)
  {
    hide Inv, Held, Updated;
    if req.toTag {
      UpdatedKeeps(s, Updated(s));
    } else {
      var s0 := CallAdded(s, c);
      CallAddedKeeps(s, c);
      var s1 := DialogAdded(s0, c, d, NewDialog(req.cseq, now));
      DialogAddedKeeps(s0, c, d, NewDialog(req.cseq, now));
      ReportingKeeps(s1, t, JInfo(c, Some(d)));
      var s2 := Reporting(s1, t, JInfo(c, Some(d)));
      UpdatedKeeps(s2, Updated(s2));
      SlotAfterUpdate(s2, c, t, d);
    }
  }

  lemma SlotAfterUpdate(s2: Store, c: Ptr, t: Ptr, d: Ptr)
    requires Inv(s2) && Inv(Updated(s2)) && Held(Updated(s2)) == Held(s2) && Loose(s2, t) && c in s2.calls && ReportsTo(s2, t, c)
    requires CallOf(s2, c).incTr == None && CallOf(s2, c).outTr == None && CallOf(s2, c).dialogs == [d] && Names(s2, t) == Some(d)
    ensures var u := Updated(s2); Placed(s2, SetCall(u, c, CallOf(u, c).(incTr := Some(t))), t)
  {
    hide Inv, Held, Updated;
    var u := Updated(s2);
    SameButIdsOutside(s2, u, c);
    assert SameCall(s2, u, c);
    FillsPlaced(u, c, CallOf(u, c).(incTr := Some(t)), t);
  }

  // ----- CANCEL -----

  lemma {:induction false} CancelTargetPlace(s: Store, cs: seq<Ptr>, ts: set<Ptr>, tr: Option<Ptr>) returns (c: Ptr)
    requires CancelTarget(s, cs, ts, tr).d.Some?
    ensures c in cs && CancelTarget(s, cs, ts, tr).d.value in CallOf(s, c).dialogs
    decreases |cs|
  {
    var call := CallOf(s, cs[0]);
    if call.incTr.Some? && call.incTr.value in ts {
      c := cs[0];
    } else {
      c := CancelTargetPlace(s, cs[1..], ts, LastScanned(s, call.dialogs, ts, None));
    }
  }

  lemma CancelledPlaced(s: Store, req: Request, t: Ptr, now: int)
    requires Inv(s) && Past(s, now) && Loose(s, t) && TrOf(s, t).birth == now && TrOf(s, t).info == None
    ensures Placed(s, Cancelled(s, req, t), t)
  {
    hide Inv, Held, IncListed, CancelTarget, Loose, Past;
    var target := CancelTarget(s, s.calls, req.cancels, None);
    if target.tr.Some? && target.d.Some? {
      var c := CancelTargetPlace(s, s.calls, req.cancels, None);
      IncListedPlaced(s, c, target.d.value, t, now);
    } else {
      FiledPlaced(s, t);
    }
  }

  /** The requests whose transaction ends up in no call and not in the garbage list either. */
  predicate Unlisted(s: Store, req: Request) {
    var p := MatchingPlace(s, s.calls, req.matches);
    || req.sipMethod == "ACK"
    || (req.sipMethod != "CANCEL" && p.None? && ((req.sipMethod == "INVITE" && req.toTag) || req.sipMethod == "SUBSCRIBE"))
    || (req.sipMethod != "CANCEL" && p.Some? && (var remote := DialogOf(s, p.value.d.value).remoteCseq; remote > 0 && req.cseq <= remote))
  }

  /** A request's transaction gets exactly one place, unless the request is one of the unlisted. */
  lemma NewRequestExactly(s: Store, req: Request, t: Ptr, c: Ptr, d: Ptr, now: int)
    requires Inv(s) && Past(s, now) && t !in s.trAt && c !in s.callAt && d !in s.dialogAt
    ensures var r := NewRequest(s, req, t, c, d, now);
      Inv(r) && Held(r) == Held(s) + if Unlisted(s, req) then multiset{} else multiset{t}
  {
    hide Inv, Held, WithinDialog, NewInvite, Cancelled, Acknowledged, Loose, Past, MatchingDialog;
    var p := MatchingPlace(s, s.calls, req.matches);
    if req.sipMethod == "ACK" {
      if p.Some? {
        AcknowledgedKeeps(s, p.value.c, p.value.d.value);
      }
    } else {
      var tr := Born(req.cseqMethod, if req.sipMethod == "INVITE" then IST_PRE_PROCEEDING else NIST_PRE_TRYING, now, None);
      var s1 := WithTr(s, t, tr);
      BornKeeps(s, t, tr);
      BornPast(s, t, tr, now);
      MatchingSame(s, s1, s.calls, req.matches);
      if req.sipMethod == "CANCEL" {
        CancelledPlaced(s1, req, t, now);
      } else if p.Some? {
        WithinDialogPlaced(s1, req, t, p.value.c, p.value.d.value, now);
      } else {
        FiledPlaced(s1, t);
        NewInvitePlaced(s1, req, t, c, d, now);
      }
    }
  }

  lemma BornPast(s: Store, t: Ptr, tr: Transaction, now: int)
    requires Past(s, now) && tr.birth <= now
    ensures Past(WithTr(s, t, tr), now)
  {
  }

  lemma {:induction false} MatchingSame(s: Store, s1: Store, cs: seq<Ptr>, matches: set<Ptr>)
    requires s1.callAt == s.callAt && s1.dialogAt == s.dialogAt
    ensures MatchingPlace(s1, cs, matches) == MatchingPlace(s, cs, matches)
  {
    if cs != [] {
      MatchingDialogSame(s, s1, CallOf(s, cs[0]).dialogs, matches);
      MatchingSame(s, s1, cs[1..], matches);
    }
  }

  lemma {:induction false} MatchingDialogSame(s: Store, s1: Store, ds: seq<Ptr>, matches: set<Ptr>)
    requires s1.dialogAt == s.dialogAt
    ensures MatchingDialog(s1, ds, matches) == MatchingDialog(s, ds, matches)
  {
    if ds != [] {
      MatchingDialogSame(s, s1, ds[1..], matches);
    }
  }

  // ----- callbacks and timers -----

  lemma DialogMadeKeeps(s: Store, c: Ptr, d: Ptr, now: int)
    requires Inv(s) && c in s.calls && d !in s.dialogAt
    ensures var r := DialogMade(s, c, d, now); Inv(r) && Held(r) == Held(s)
  {
    hide Inv, Held, Updated;
    var t := CallOf(s, c).outTr;
    if t.Some? {
      var s1 := DialogAdded(s, c, d, NewDialog(-1, now));
      DialogAddedKeeps(s, c, d, NewDialog(-1, now));
      RenamedKeeps(s1, c, t.value, d);
      var s2 := Reporting(s1, t.value, JInfo(c, Some(d)));
      UpdatedKeeps(s2, Updated(s2));
    }
  }

  lemma ProgressedKeeps(s: Store, t: Ptr, state: State, completed: int, response: Option<int>)
    requires Inv(s)
    ensures var r := Progressed(s, t, state, completed, response); Inv(r) && Held(r) == Held(s)
  {
    hide Inv, Held;
    if t in s.trAt {
      WithTrKeeps(s, t, s.trAt[t].(state := state, completed := completed, response := response));
    }
  }

  lemma ResentKeeps(s: Store, c: Ptr, d: Ptr, now: int)
    requires Inv(s) && c in s.calls && d in CallOf(s, c).dialogs
    ensures var r := SetDialog(s, d, Resent(DialogOf(s, d), now)); Inv(r) && Held(r) == Held(s)
  {
    hide Inv, Held;
    SameListsKeeps(s, c, d, Resent(DialogOf(s, d), now));
  }

  lemma GivenUpGrown(s: Store, c: Ptr, d: Ptr, t: Ptr, toTag: bool, now: int)
    requires Inv(s) && Past(s, now) && t !in s.trAt && c in s.calls && d in CallOf(s, c).dialogs
    ensures Grown(s, GivenUp(s, c, d, t, toTag, now), t)
  {
    hide Inv, Held, Terminate, Acknowledged;
    AcknowledgedKeeps(s, c, d);
    assert Acknowledged(s, d).trAt == s.trAt by { AcknowledgedTrs(s, d); }
    TerminateGrown(Acknowledged(s, d), CallOf(s, c).id, DialogOf(s, d).id, t, toTag, now);
  }

  lemma AcknowledgedTrs(s: Store, d: Ptr)
    ensures Acknowledged(s, d).trAt == s.trAt
  {
  }
}
