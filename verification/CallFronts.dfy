/**
 Which dialogs of a call are established. A dialog is made by an answer to a request of the call that
 names none, goes in front of the others, and is named by the request from then on; so at most the
 first one is established, and a call's own request names that one or none.
 */
module CallFronts {
  import opened Numerals
  import opened CallStore
  import opened CallOps
  import opened CallInvariants
  import opened CallRelease
  import opened CallHandlers
  import opened CallGrowth
  import opened CallLookups
  import opened CallGarbage
  import opened CallTimes
  import opened CallPass

  ghost predicate HeadedAt(s: Store, c: Ptr) {
    var call := CallOf(s, c);
    && (forall d | d in call.dialogs && DialogOf(s, d).established ::
          d == call.dialogs[0] && (call.outTr.Some? ==> Names(s, call.outTr.value) == Some(d)))
    && (call.outTr.Some? && Names(s, call.outTr.value).Some? ==> Names(s, call.outTr.value) == First(call.dialogs))
  }

  ghost predicate Headed(s: Store) {
    forall c | c in s.calls :: HeadedAt(s, c)
  }

  // ----- operations that make no call and free nothing -----

  /** Calls, what transactions other than t name, and the garbage list but for t are as before; no dialog is established. */
  ghost predicate Steady(s: Store, r: Store, t: Ptr) {
    && r.calls == s.calls && (forall c :: CallOf(r, c).(id := 0) == CallOf(s, c).(id := 0))
    && (forall x: Ptr | x != t :: Names(r, x) == Names(s, x))
    && (forall d :: DialogOf(r, d).established ==> DialogOf(s, d).established)
    && s.dialogAt.Keys <= r.dialogAt.Keys && (forall x | x in r.garbage :: x == t || x in s.garbage)
  }

  lemma SteadySelf(s: Store, t: Ptr)
    ensures Steady(s, s, t)
  {
  }

  lemma UpdatedSteady(a: Store, s: Store, t: Ptr)
    requires Steady(a, s, t)
    ensures Steady(a, Updated(s), t)
  {
    hide Updated, Names;
    var r := Updated(s);
    forall x: Ptr | x != t ensures Names(r, x) == Names(s, x) { UpdatedNames(s, x); }
    UpdatedNames(s, 0);
    forall d ensures DialogOf(r, d).established == DialogOf(s, d).established { SameButIdsDialog(s, r, d); }
    SameButIdsOutside(s, r, 0);
    forall c ensures CallOf(r, c).(id := 0) == CallOf(s, c).(id := 0) { assert SameCall(s, r, c); }
  }

  lemma SetDialogSteady(a: Store, s: Store, d: Ptr, dialog: Dialog, t: Ptr)
    requires Steady(a, s, t) && (dialog.established ==> DialogOf(s, d).established)
    ensures Steady(a, SetDialog(s, d, dialog), t)
  {
    var r := SetDialog(s, d, dialog);
    forall x: Ptr ensures Names(r, x) == Names(s, x) {
    }
  }

  lemma WithTrSteady(a: Store, s: Store, t: Ptr, tr: Transaction)
    requires Steady(a, s, t)
    ensures Steady(a, WithTr(s, t, tr), t)
  {
    var r := WithTr(s, t, tr);
    forall x: Ptr | x != t ensures Names(r, x) == Names(s, x) {
    }
  }

  lemma FiledSteady(a: Store, s: Store, t: Ptr)
    requires Steady(a, s, t)
    ensures Steady(a, Filed(s, t), t)
  {
    forall x: Ptr ensures Names(Filed(s, t), x) == Names(s, x) {
    }
  }

  lemma ClosedSteady(a: Store, s: Store, d: Ptr, t: Ptr)
    requires Steady(a, s, t)
    ensures Steady(a, Closed(s, d), t)
  {
    hide Updated, Steady;
    var s1 := SetDialog(s, d, DialogOf(s, d).(established := false));
    SetDialogSteady(a, s, d, DialogOf(s, d).(established := false), t);
    UpdatedSteady(a, s1, t);
  }

  lemma RequestSentSteady(a: Store, s: Store, c: Ptr, d: Ptr, t: Ptr, m: string, state: State, now: int)
    requires Steady(a, s, t)
    ensures Steady(a, RequestSent(s, c, d, t, m, state, now), t)
  {
    hide Steady;
    var tr := Born(m, state, now, Some(JInfo(c, Some(d))));
    WithTrSteady(a, s, t, tr);
    var s1 := WithTr(s, t, tr);
    SetDialogSteady(a, s1, d, DialogOf(s1, d).(outTrs := [t] + DialogOf(s1, d).outTrs), t);
  }

  lemma SendRequestSteady(s: Store, did: int, t: Ptr, m: string, now: int)
    ensures Steady(s, SendRequest(s, did, t, m, now), t)
  {
    hide Steady, RequestSent, FindLastInvite, FindLast, CallDialogFind;
    SteadySelf(s, t);
    forall c, d, state ensures Steady(s, RequestSent(s, c, d, t, m, state, now), t) {
      RequestSentSteady(s, s, c, d, t, m, state, now);
    }
  }

  lemma SendPrackSteady(s: Store, tid: Ptr, t: Ptr, now: int)
    ensures Steady(s, SendPrack(s, tid, t, now), t)
  {
    hide Steady, RequestSent, TransactionFind;
    SteadySelf(s, t);
    forall c, d, state ensures Steady(s, RequestSent(s, c, d, t, "PRACK", state, now), t) {
      RequestSentSteady(s, s, c, d, t, "PRACK", state, now);
    }
  }

  lemma SendAnswerSteady(s: Store, tid: Ptr, status: int, answer: Option<int>, now: int, t: Ptr)
    ensures Steady(s, SendAnswer(s, tid, status, answer, now), t)
  {
    hide Steady, Updated, TransactionFind;
    SteadySelf(s, t);
    UpdatedSteady(s, s, t);
    forall d ensures Steady(s, Updated(SetDialog(s, d, Set200Ok(DialogOf(s, d), now))), t) {
      SetDialogSteady(s, s, d, Set200Ok(DialogOf(s, d), now), t);
      UpdatedSteady(s, SetDialog(s, d, Set200Ok(DialogOf(s, d), now)), t);
    }
  }

  lemma TerminatedAtSteady(a: Store, s: Store, c: Ptr, d: Option<Ptr>, t: Ptr, toTag: bool, now: int)
    requires Steady(a, s, t)
    ensures Steady(a, TerminatedAt(s, c, d, t, toTag, now), t)
  {
    hide Steady, Closed, RequestSent, FindLastOutInvite, FindLastIncInvite, Provisional;
    var tr := Born("CANCEL", NICT_PRE_TRYING, now, None);
    WithTrSteady(a, s, t, tr);
    var s1 := Filed(WithTr(s, t, tr), t);
    FiledSteady(a, WithTr(s, t, tr), t);
    if d.Some? {
      ClosedSteady(a, s1, d.value, t);
      RequestSentSteady(a, s, c, d.value, t, "BYE", NICT_PRE_TRYING, now);
      ClosedSteady(a, RequestSent(s, c, d.value, t, "BYE", NICT_PRE_TRYING, now), d.value, t);
    }
  }

  lemma TerminateSteady(a: Store, s: Store, cid: int, did: int, t: Ptr, toTag: bool, now: int)
    requires Steady(a, s, t)
    ensures Steady(a, Terminate(s, cid, did, t, toTag, now), t)
  {
    hide Steady, TerminatedAt;
    var p := if did > 0 then CallDialogFind(s, s.calls, did) else CallFind(s, s.calls, cid);
    if p.Some? {
      TerminatedAtSteady(a, s, p.value.c, p.value.d, t, toTag, now);
    }
  }

  lemma AcknowledgedSteady(a: Store, s: Store, d: Ptr, t: Ptr)
    requires Steady(a, s, t)
    ensures Steady(a, Acknowledged(s, d), t)
  {
    hide Steady;
    SetDialogSteady(a, s, d, DialogOf(s, d).(count := 0, ok200 := false), t);
  }

  lemma GivenUpSteady(s: Store, c: Ptr, d: Ptr, t: Ptr, toTag: bool, now: int)
    ensures Steady(s, GivenUp(s, c, d, t, toTag, now), t)
  {
    hide Steady, Acknowledged, Terminate;
    SteadySelf(s, t);
    AcknowledgedSteady(s, s, d, t);
    TerminateSteady(s, Acknowledged(s, d), CallOf(s, c).id, DialogOf(s, d).id, t, toTag, now);
  }

  lemma ResentSteady(s: Store, d: Ptr, now: int, t: Ptr)
    ensures Steady(s, SetDialog(s, d, Resent(DialogOf(s, d), now)), t)
  {
    hide Steady;
    SteadySelf(s, t);
    SetDialogSteady(s, s, d, Resent(DialogOf(s, d), now), t);
  }

  lemma IncListedSteady(a: Store, s: Store, d: Ptr, t: Ptr)
    requires Steady(a, s, t)
    ensures Steady(a, IncListed(s, d, t), t)
  {
    hide Steady;
    SetDialogSteady(a, s, d, DialogOf(s, d).(incTrs := [t] + DialogOf(s, d).incTrs), t);
  }

  lemma ReportedSteady(a: Store, s: Store, t: Ptr, info: JInfo, d: Ptr)
    requires Steady(a, s, t)
    ensures Steady(a, IncListed(Reporting(s, t, info), d, t), t)
  {
    hide Steady, IncListed;
    WithTrSteady(a, s, t, TrOf(s, t).(info := Some(info)));
    IncListedSteady(a, Reporting(s, t, info), d, t);
  }

  lemma WithinDialogSteady(a: Store, s: Store, req: Request, t: Ptr, c: Ptr, d: Ptr)
    requires Steady(a, s, t)
    ensures Steady(a, WithinDialog(s, req, t, c, d), t)
  {
    hide Steady, IncListed, Reporting, Closed, FindLastInc, FindLastOut, FindLastIncInvite, FindLastOutInvite, Unfinished;
    FiledSteady(a, s, t);
    var s1 := SetDialog(s, d, DialogOf(s, d).(remoteCseq := req.cseq));
    SetDialogSteady(a, s, d, DialogOf(s, d).(remoteCseq := req.cseq), t);
    ReportedSteady(a, s1, t, JInfo(c, Some(d)), d);
    ReportedSteady(a, s, t, JInfo(c, Some(d)), d);
    ReportedSteady(a, s, t, JInfo(c, None), d);
    ClosedSteady(a, IncListed(Reporting(s, t, JInfo(c, None)), d, t), d, t);
  }

  lemma NewRequestSteady(s: Store, req: Request, t: Ptr, c: Ptr, d: Ptr, now: int)
    requires !OpensCall(s, req)
    ensures Steady(s, NewRequest(s, req, t, c, d, now), t)
  {
    hide Steady, WithinDialog, Updated, IncListed, Acknowledged, MatchingPlace, CancelTarget;
    SteadySelf(s, t);
    var tr := Born(req.cseqMethod, if req.sipMethod == "INVITE" then IST_PRE_PROCEEDING else NIST_PRE_TRYING, now, None);
    var s1 := WithTr(s, t, tr);
    WithTrSteady(s, s, t, tr);
    FiledSteady(s, s1, t);
    UpdatedSteady(s, s1, t);
    var target := CancelTarget(s1, s1.calls, req.cancels, None);
    if target.d.Some? {
      IncListedSteady(s, s1, target.d.value, t);
    }
    var p := MatchingPlace(s, s.calls, req.matches);
    if p.Some? {
      AcknowledgedSteady(s, s, p.value.d.value, t);
      WithinDialogSteady(s, s1, req, t, p.value.c, p.value.d.value);
    }
  }

  /** Call c has the same dialogs and the same request of its own. */
  lemma SteadyHeaded(s: Store, r: Store, t: Ptr)
    requires Headed(s) && Steady(s, r, t) && forall c | c in s.calls :: CallOf(s, c).outTr != Some(t)
    ensures Headed(r)
  {
    hide Names;
    forall c | c in r.calls ensures HeadedAt(r, c) {
      assert HeadedAt(s, c) && CallOf(r, c).(id := 0) == CallOf(s, c).(id := 0);
    }
  }

  /** Where no transaction is new. */
  lemma SteadyAllHeaded(s: Store, r: Store)
    requires Headed(s) && Steady(s, r, 0) && Steady(s, r, 1)
    ensures Headed(r)
  {
    hide Names;
    forall x: Ptr ensures Names(r, x) == Names(s, x) {
      assert x != 0 || x != 1;
    }
    forall c | c in r.calls ensures HeadedAt(r, c) {
      assert HeadedAt(s, c) && CallOf(r, c).(id := 0) == CallOf(s, c).(id := 0);
    }
  }

  lemma SendAnswerHeaded(s: Store, tid: Ptr, status: int, answer: Option<int>, now: int)
    requires Headed(s)
    ensures Headed(SendAnswer(s, tid, status, answer, now))
  {
    hide Headed, Steady, SendAnswer;
    SendAnswerSteady(s, tid, status, answer, now, 0);
    SendAnswerSteady(s, tid, status, answer, now, 1);
    SteadyAllHeaded(s, SendAnswer(s, tid, status, answer, now));
  }

  lemma ClosedHeaded(s: Store, d: Ptr)
    requires Headed(s)
    ensures Headed(Closed(s, d))
  {
    hide Headed, Steady, Closed;
    SteadySelf(s, 0);
    SteadySelf(s, 1);
    ClosedSteady(s, s, d, 0);
    ClosedSteady(s, s, d, 1);
    SteadyAllHeaded(s, Closed(s, d));
  }

  lemma ResentHeaded(s: Store, d: Ptr, now: int)
    requires Headed(s)
    ensures Headed(SetDialog(s, d, Resent(DialogOf(s, d), now)))
  {
    hide Headed, Steady;
    ResentSteady(s, d, now, 0);
    ResentSteady(s, d, now, 1);
    SteadyAllHeaded(s, SetDialog(s, d, Resent(DialogOf(s, d), now)));
  }

  lemma ProgressedHeaded(s: Store, t: Ptr, state: State, completed: int, response: Option<int>)
    requires Headed(s)
    ensures Headed(Progressed(s, t, state, completed, response))
  {
    var r := Progressed(s, t, state, completed, response);
    forall x: Ptr ensures Names(r, x) == Names(s, x) {
    }
    forall c | c in r.calls ensures HeadedAt(r, c) {
      assert HeadedAt(s, c);
    }
  }

  lemma FreshNoSlot(s: Store, t: Ptr)
    requires Inv(s) && t !in s.trAt
    ensures forall c | c in s.calls :: CallOf(s, c).outTr != Some(t)
  {
    hide Inv, Own, CallHeld;
    forall c | c in s.calls ensures CallOf(s, c).outTr != Some(t) {
      HeldNotGarbage(s, c);
      assert CallOf(s, c).outTr == Some(t) ==> InSlot(s, c, t);
    }
  }

  // ----- new calls and dialogs -----

  lemma InitialInviteHeaded(s: Store, c: Ptr, t: Ptr, now: int)
    requires Inv(s) && Headed(s) && t !in s.trAt && c !in s.callAt
    ensures Headed(InitialInvite(s, c, t, now))
  {
    hide Inv, Updated, Names, Steady;
    FreshNoSlot(s, t);
    assert c !in s.calls by { CallAllocated(s, c); }
    var s1 := WithTr(s, t, Born("INVITE", ICT_PRE_CALLING, now, Some(JInfo(c, None))));
    var s2 := SetCall(CallAdded(s1, c), c, Call(-1, None, Some(t), []));
    assert InitialInvite(s, c, t, now) == Updated(s2) by {
      assert s1.callAt[c := Call(-1, None, None, [])][c := Call(-1, None, Some(t), [])] == s1.callAt[c := Call(-1, None, Some(t), [])];
    }
    forall x: Ptr | x != t ensures Names(s2, x) == Names(s, x) { SwapNames(s, s2, t, x); }
    assert Names(s2, t) == None by { BornNames(s2, t); }
    AddedHeaded(s, s2, c, t);
    UpdatedHeaded(s2);
  }

  lemma CallAllocated(s: Store, c: Ptr)
    requires Inv(s)
    ensures c in s.calls ==> c in s.callAt
  {
  }

  lemma BornNames(s: Store, t: Ptr)
    ensures Names(s, t) == if TrOf(s, t).info.Some? then TrOf(s, t).info.value.jd else None
  {
  }

  /** One call more, which is headed itself. */
  lemma AddedHeaded(s: Store, r: Store, c: Ptr, t: Ptr)
    requires Headed(s) && r.calls == [c] + s.calls && c !in s.calls && HeadedAt(r, c)
    requires forall b | b in s.calls :: CallOf(r, b) == CallOf(s, b) && CallOf(s, b).outTr != Some(t)
    requires forall x: Ptr | x != t :: Names(r, x) == Names(s, x)
    requires forall b, d | b in s.calls && d in CallOf(s, b).dialogs :: DialogOf(r, d) == DialogOf(s, d)
    ensures Headed(r)
  {
    hide Names;
    forall b | b in r.calls && b != c ensures HeadedAt(r, b) {
      assert HeadedAt(s, b);
    }
  }

  lemma UpdatedHeaded(s: Store)
    requires Headed(s)
    ensures Headed(Updated(s))
  {
    hide Updated, Names;
    var r := Updated(s);
    SameButIdsOutside(s, r, 0);
    forall c | c in r.calls ensures HeadedAt(r, c) {
      assert HeadedAt(s, c) && SameCall(s, r, c);
      forall x: Ptr ensures Names(r, x) == Names(s, x) { UpdatedNames(s, x); }
      forall d ensures DialogOf(r, d).established == DialogOf(s, d).established { SameButIdsDialog(s, r, d); }
    }
  }

  lemma NewInviteHeaded(s: Store, req: Request, t: Ptr, c: Ptr, d: Ptr, now: int)
    requires Inv(s) && Headed(s) && !req.toTag && c !in s.callAt && d !in s.dialogAt && t in s.trAt
    requires forall b | b in s.calls :: CallOf(s, b).outTr != Some(t)
    ensures Headed(NewInvite(s, req, t, c, d, now))
  {
    hide Inv, Updated, Names;
    assert c !in s.calls by { CallAllocated(s, c); }
    var dialog := NewDialog(req.cseq, now);
    var s1 := Reporting(DialogAdded(CallAdded(s, c), c, d, dialog), t, JInfo(c, Some(d)));
    forall x: Ptr | x != t ensures Names(s1, x) == Names(s, x) { SwapNames(s, s1, t, x); }
    forall b, e | b in s.calls && e in CallOf(s, b).dialogs ensures DialogOf(s1, e) == DialogOf(s, e) {
      InvShape(s, b);
    }
    AddedHeaded(s, s1, c, t);
    UpdatedHeaded(s1);
    var u := Updated(s1);
    SlotHeaded(u, c, CallOf(u, c).(incTr := Some(t)));
  }

  lemma SlotHeaded(s: Store, c: Ptr, call: Call)
    requires Headed(s) && call.dialogs == CallOf(s, c).dialogs && call.outTr == CallOf(s, c).outTr
    ensures Headed(SetCall(s, c, call))
  {
    var r := SetCall(s, c, call);
    forall b | b in r.calls ensures HeadedAt(r, b) {
      assert HeadedAt(s, b);
      forall x: Ptr ensures Names(r, x) == Names(s, x) {
      }
    }
  }

  lemma OpeningHeaded(s: Store, req: Request, t: Ptr, c: Ptr, d: Ptr, now: int)
    requires Inv(s) && Headed(s) && OpensCall(s, req) && t !in s.trAt && c !in s.callAt && d !in s.dialogAt
    ensures Headed(NewRequest(s, req, t, c, d, now))
  {
    hide Inv, Held, NewInvite, MatchingPlace, Steady, Headed, Loose;
    var tr := Born(req.cseqMethod, IST_PRE_PROCEEDING, now, None);
    var s1 := WithTr(s, t, tr);
    SteadySelf(s, t);
    WithTrSteady(s, s, t, tr);
    FreshNoSlot(s, t);
    SteadyHeaded(s, s1, t);
    BornKeeps(s, t, tr);
    NewInviteHeaded(s1, req, t, c, d, now);
  }

  /** The first answer: no dialog of the call was established, as its request named none. */
  lemma DialogMadeHeaded(s: Store, c: Ptr, d: Ptr, now: int)
    requires Inv(s) && Headed(s) && c in s.calls && d !in s.dialogAt
    ensures Headed(DialogMade(s, c, d, now))
  {
    hide Inv, Updated;
    if OpensDialog(s, c) {
      var t := CallOf(s, c).outTr.value;
      var s1 := Reporting(DialogAdded(s, c, d, NewDialog(-1, now)), t, JInfo(c, Some(d)));
      forall b | b in s.calls ensures HeadedAt(s1, b) {
        MadeHeadedAt(s, s1, c, d, t, b, now);
      }
      UpdatedHeaded(s1);
    }
  }

  lemma MadeHeadedAt(s: Store, r: Store, c: Ptr, d: Ptr, t: Ptr, b: Ptr, now: int)
    requires Inv(s) && HeadedAt(s, b) && c in s.calls && b in s.calls && d !in s.dialogAt && OpensDialog(s, c)
    requires CallOf(s, c).outTr == Some(t) && r == Reporting(DialogAdded(s, c, d, NewDialog(-1, now)), t, JInfo(c, Some(d)))
    ensures HeadedAt(r, b)
  {
    hide Inv;
    InvShape(s, b);
    if b == c {
      forall e | e in CallOf(s, c).dialogs ensures !DialogOf(s, e).established {
      }
    } else {
      OwnRequests(s, c, b, t);
    }
  }

  /** A call's own request is no other call's. */
  lemma OwnRequests(s: Store, c: Ptr, b: Ptr, t: Ptr)
    requires Inv(s) && c in s.calls && b in s.calls && b != c && CallOf(s, c).outTr == Some(t)
    ensures CallOf(s, b).outTr != Some(t)
  {
    hide Inv, CallHeld;
    assert InSlot(s, c, t);
    SlotOnly(s, c, t);
    if CallOf(s, b).outTr == Some(t) {
      InSlotHeld(s, b, t);
    }
  }

  // ----- the retry -----

  /** Where the call's own request is retried, no dialog but the one that goes is established. */
  lemma RetriedAtFront(s: Store, c: Ptr, d: Option<Ptr>, former: Ptr, now: int)
    requires Inv(s) && Headed(s) && Retries(s, c, d, former, now)
    ensures c in s.calls && (d.Some? ==> d.value in CallOf(s, c).dialogs)
    ensures CallOf(s, c).outTr == Some(former) ==>
      && (d.Some? ==> d == First(CallOf(s, c).dialogs))
      && (forall e | e in CallOf(s, c).dialogs && Some(e) != d :: !DialogOf(s, e).established)
  {
    hide Inv, TransactionFind, CallsHeld, CallHeld, Names, ToRepeat, Rejected, ToRetry;
    assert Linked(s) && Owned(s) by { InvLinkedOwned(s); }
    TransactionFindExactly(s, former);
    assert c in s.calls;
    assert HeadedAt(s, c);
    if CallOf(s, c).outTr == Some(former) && TransactionFind(s, s.calls, former) == Some(Place(c, d)) {
      assert InSlot(s, c, former);
    }
  }

  lemma SwappedHeadedAt(s: Store, c: Ptr, former: Ptr, t: Ptr, tr: Transaction, b: Ptr)
    requires Inv(s) && HeadedAt(s, b) && b in s.calls && b != c && t !in s.trAt
    ensures HeadedAt(Swapped(s, c, former, t, tr), b)
  {
    hide Inv, Names;
    FreshNoSlot(s, t);
    var r := Swapped(s, c, former, t, tr);
    forall x: Ptr | x != t ensures Names(r, x) == Names(s, x) { SwapNames(s, r, t, x); }
  }

  lemma SwappedHeaded(s: Store, c: Ptr, former: Ptr, t: Ptr, tr: Transaction)
    requires Inv(s) && Headed(s) && c in s.calls && t !in s.trAt && tr.info == Some(JInfo(c, None))
    requires forall e | e in CallOf(s, c).dialogs :: !DialogOf(s, e).established
    ensures Headed(Swapped(s, c, former, t, tr))
  {
    hide Inv;
    var r := Swapped(s, c, former, t, tr);
    forall b | b in r.calls ensures HeadedAt(r, b) {
      if b != c {
        assert HeadedAt(s, b);
        SwappedHeadedAt(s, c, former, t, tr, b);
      }
    }
  }

  /** The call's first dialog is freed, and the others were not established. */
  lemma SwapDroppedHeaded(s: Store, c: Ptr, d: Ptr, former: Ptr, t: Ptr, now: int)
    requires Inv(s) && Headed(s) && c in s.calls && t !in s.trAt && d in CallOf(s, c).dialogs && CallOf(s, c).outTr == Some(former)
    requires forall e | e in CallOf(s, c).dialogs && e != d :: !DialogOf(s, e).established
    ensures Headed(Updated(DialogFreed(Unlinked(Swapped(s, c, former, t, Again(s, c, former, now)), c, d), d)))
  {
    hide Inv, Names, Updated, DialogFreed, Unlinked, Own, CallHeld, Swapped, Clean, NamedInGarbage, SameCall, SameDialog;
    var s2 := Swapped(s, c, former, t, Again(s, c, former, now));
    SwapFacts(s, c, d, former, t, now);
    TurnDropped(s2, c, d);
    TurnTaken(s2, c, d);
    var r := Updated(DialogFreed(Unlinked(s2, c, d), d));
    SwapShape(s, c, former, t, now);
    forall b | b in r.calls ensures HeadedAt(r, b) {
      assert HeadedAt(s, b);
      if b == c {
        RestHeadedAt(s, s2, r, c, d, t);
      } else {
        SwappedHeadedAt(s, c, former, t, Again(s, c, former, now), b);
        OtherHeadedAt(s, s2, r, c, d, b, t);
      }
    }
  }

  lemma SwapShape(s: Store, c: Ptr, former: Ptr, t: Ptr, now: int)
    ensures var r := Swapped(s, c, former, t, Again(s, c, former, now));
      && r.calls == s.calls && r.dialogAt == s.dialogAt && CallOf(r, c) == CallOf(s, c).(outTr := Some(t)) && Names(r, t) == None
      && (forall b | b != c :: CallOf(r, b) == CallOf(s, b))
  {
    hide EqualFold;
  }

  lemma RestHeadedAt(s: Store, s2: Store, r: Store, c: Ptr, d: Ptr, t: Ptr)
    requires Apart(s2, c) && d in CallOf(s2, c).dialogs && Turned(s2, r, c, d) && Dropped(s2, r, Own(s2, d), {d})
    requires s2.dialogAt == s.dialogAt && CallOf(s2, c).dialogs == CallOf(s, c).dialogs
    requires CallOf(s2, c).outTr == Some(t) && Names(s2, t) == None
    requires forall e | e in CallOf(s, c).dialogs && e != d :: !DialogOf(s, e).established
    ensures HeadedAt(r, c)
  {
    hide Names, Own, Outside;
    var ds := CallOf(s2, c).dialogs;
    RemoveNoDup(ds, d);
    RemoveContents(ds, d);
    assert CallOf(r, c).dialogs == Remove(ds, d) && CallOf(r, c).outTr == Some(t);
    assert Names(r, t) == None;
    forall e | e in Remove(ds, d) ensures !DialogOf(r, e).established {
      assert SameDialog(s2, r, e) && DialogOf(s2, e) == DialogOf(s, e);
    }
  }

  lemma OtherHeadedAt(s: Store, s2: Store, r: Store, c: Ptr, d: Ptr, b: Ptr, t: Ptr)
    requires Inv(s) && c in s.calls && d in CallOf(s, c).dialogs && b in s.calls && b != c && HeadedAt(s2, b)
    requires s2.calls == s.calls && CallOf(s2, b) == CallOf(s, b) && Own(s2, d) == Own(s, d)
    requires Turned(s2, r, c, d) && Dropped(s2, r, Own(s2, d), {d})
    ensures HeadedAt(r, b)
  {
    hide Inv, Names, Own, CallHeld;
    assert SameCall(s2, r, b);
    var out := CallOf(s, b).outTr;
    if out.Some? {
      assert InSlot(s, b, out.value);
      SlotOnly(s, b, out.value);
      if out.value in Own(s, d) {
        ListedOwn(s, d, out.value);
        ListedHeld(s, c, d, out.value);
      }
    }
    forall e | e in CallOf(r, b).dialogs ensures DialogOf(r, e).established == DialogOf(s2, e).established {
      assert SameDialog(s2, r, e);
    }
  }

  lemma RetriedHeaded(s: Store, c: Ptr, d: Option<Ptr>, former: Ptr, t: Ptr, now: int)
    requires Inv(s) && Headed(s) && t !in s.trAt && Retries(s, c, d, former, now)
    ensures Headed(Retried(s, c, d, former, t, now))
  {
    hide Inv, Headed, Retries, Steady, Updated, RequestSent, DialogFreed, Unlinked, Swapped;
    RetriedAtFront(s, c, d, former, now);
    if TrOf(s, former).response.None? { return; }
    var m := TrOf(s, former).cseqMethod;
    var state := if EqualFold(m, "INVITE") then ICT_PRE_CALLING else NICT_PRE_TRYING;
    if CallOf(s, c).outTr == Some(former) {
      var s2 := Swapped(s, c, former, t, Again(s, c, former, now));
      if d.Some? {
        SwapDroppedHeaded(s, c, d.value, former, t, now);
        UpdatedHeaded(Updated(DialogFreed(Unlinked(s2, c, d.value), d.value)));
      } else {
        SwappedHeaded(s, c, former, t, Again(s, c, former, now));
        UpdatedHeaded(s2);
      }
    } else if d.Some? {
      SteadySelf(s, t);
      RequestSentSteady(s, s, c, d.value, t, m, state, now);
      UpdatedSteady(s, RequestSent(s, c, d.value, t, m, state, now), t);
      FreshNoSlot(s, t);
      SteadyHeaded(s, Updated(RequestSent(s, c, d.value, t, m, state, now)), t);
    }
  }

  // ----- the release pass -----

  /** Call c has lost dialogs at most, and its own request names what it named or, if that is gone, nothing. */
  ghost predicate Thin(s: Store, r: Store, c: Ptr) {
    var a, b := CallOf(s, c), CallOf(r, c);
    && c in s.calls && b.outTr == a.outTr
    && (forall d | d in b.dialogs :: d in a.dialogs && (DialogOf(r, d).established ==> DialogOf(s, d).established))
    && (a.dialogs != [] && a.dialogs[0] in b.dialogs ==> b.dialogs[0] == a.dialogs[0])
    && (a.outTr.Some? ==> var t := a.outTr.value;
          && (Names(r, t) == None || Names(r, t) == Names(s, t))
          && (Names(s, t).Some? && Names(s, t).value in b.dialogs ==> Names(r, t) == Names(s, t)))
  }

  ghost predicate Thinner(s: Store, r: Store) {
    forall c | c in r.calls :: Thin(s, r, c)
  }

  lemma ThinnerJoin(a: Store, s: Store, r: Store)
    requires Thinner(a, s) && Thinner(s, r)
    ensures Thinner(a, r)
  {
    hide Names;
    forall c | c in r.calls ensures Thin(a, r, c) {
      assert Thin(s, r, c) && Thin(a, s, c);
    }
  }

  lemma ThinnerHeaded(s: Store, r: Store)
    requires Headed(s) && Thinner(s, r) && Inv(r)
    ensures Headed(r)
  {
    hide Names, CallSorted, Linked, Owned;
    forall c | c in r.calls ensures HeadedAt(r, c) {
      assert Thin(s, r, c) && HeadedAt(s, c) && CallOk(r, c);
      var out := CallOf(r, c).outTr;
      if out.Some? && Names(r, out.value).Some? {
        assert InSlot(r, c, out.value);
        assert Names(r, out.value).value in CallOf(r, c).dialogs;
      }
    }
  }

  lemma TrimmedThinner(s: Store, r: Store, d: Ptr)
    requires Trimmed(s, r, d)
    ensures Thinner(s, r)
  {
    assert forall x: Ptr :: Names(r, x) == Names(s, x);
    forall c | c in r.calls ensures Thin(s, r, c) {
      assert CallOf(r, c) == CallOf(s, c);
    }
  }

  /** What a dialog does not hold keeps its name, unless that is the dialog. */
  lemma RemovedName(s: Store, c: Ptr, d: Ptr, b: Ptr, t: Ptr)
    requires Inv(s) && c in s.calls && d in CallOf(s, c).dialogs && b in s.calls && InSlot(s, b, t)
    ensures Names(DialogRemoved(s, c, d), t) == if b == c && Names(s, t) == Some(d) then None else Names(s, t)
  {
    hide Inv, DialogRemoved, RefsDropped, Own, Names, CallHeld;
    RemovedDropped(s, c, d);
    RefsNames(s, c, d, t);
    if b == c {
      SlotNotOwn(s, c, d, t);
    } else {
      SlotOnly(s, b, t);
      if InSlot(s, c, t) {
        InSlotHeld(s, c, t);
      }
      if t in Own(s, d) {
        ListedOwn(s, d, t);
        ListedHeld(s, c, d, t);
      }
    }
  }

  lemma RemovedThinner(s: Store, c: Ptr, d: Ptr)
    requires Inv(s) && c in s.calls && d in CallOf(s, c).dialogs
    ensures Thinner(s, DialogRemoved(s, c, d))
  {
    hide Inv, DialogRemoved, Names, Calm, Remove, NoDup;
    var r := DialogRemoved(s, c, d);
    RemovedAside(s, c, d);
    DialogRemovedKeeps(s, c, d);
    var ds := CallOf(s, c).dialogs;
    RemoveContents(ds, d);
    assert NoDup(ds) by { InvApart(s, c); }
    RemoveNoDup(ds, d);
    RemoveFront(ds, d);
    forall b | b in r.calls ensures Thin(s, r, b) {
      var out := CallOf(s, b).outTr;
      if out.Some? {
        assert InSlot(s, b, out.value);
        RemovedName(s, c, d, b, out.value);
      }
      if b != c {
        assert SameCall(s, r, b);
        forall e | e in CallOf(r, b).dialogs ensures DialogOf(r, e).established == DialogOf(s, e).established {
          assert SameDialog(s, r, e);
        }
      } else {
        forall e | e in CallOf(r, b).dialogs ensures DialogOf(r, e).established == DialogOf(s, e).established {
          assert SameDialog(s, r, e);
        }
      }
    }
  }

  lemma RemoveFront(l: seq<Ptr>, x: Ptr)
    ensures l != [] && l[0] != x ==> Remove(l, x) != [] && Remove(l, x)[0] == l[0]
  {
  }

  lemma ReleasedThinner(s: Store, c: Ptr)
    requires Inv(s) && c in s.calls
    ensures Thinner(s, CallReleased(s, c))
  {
    hide Inv, CallReleased, Names, Calm, Remove, NoDup, CallHeld, Members;
    var r := CallReleased(s, c);
    ReleasedSpares(s, c);
    ReleasedDropped(s, c);
    assert NoDup(s.calls) by { InvNoDup(s); }
    RemoveContents(s.calls, c);
    RemoveNoDup(s.calls, c);
    forall b | b in r.calls ensures Thin(s, r, b) {
      assert b != c && Spared(s, r, b);
      forall e | e in CallOf(r, b).dialogs ensures DialogOf(r, e).established == DialogOf(s, e).established {
        assert SameDialog(s, r, e);
      }
      var out := CallOf(s, b).outTr;
      if out.Some? {
        assert InSlot(s, b, out.value);
        SlotOnly(s, b, out.value);
      }
    }
  }

  lemma VisitThinner(s: Store, c: Ptr, d: Ptr, now: int)
    requires Inv(s) && c in s.calls && d in CallOf(s, c).dialogs
    ensures Thinner(s, DialogVisited(s, c, d, now).s)
  {
    hide Inv, Trimmed, Fails, Reaches, DialogVisited, DialogRemoved, CallReleased, Thinner, FinishedCalls, AbortedCalls;
    var m := VisitKind(s, c, d, now);
    TrimmedCalm(s, m, c, d);
    TrimmedThinner(s, m, d);
    RemovedThinner(m, c, d);
    ThinnerJoin(s, m, DialogRemoved(m, c, d));
    ReleasedThinner(m, c);
    ThinnerJoin(s, m, CallReleased(m, c));
  }

  lemma ThinnerSelf(s: Store)
    ensures Thinner(s, s)
  {
  }

  lemma {:induction false} DialogsVisitedThinner(s: Store, c: Ptr, ds: seq<Ptr>, now: int)
    requires Inv(s) && c in s.calls && NoDup(ds) && forall d | d in ds :: d in CallOf(s, c).dialogs
    ensures Thinner(s, DialogsVisited(s, c, ds, now))
    decreases |ds|
  {
    hide Inv, Held, DialogVisited, Thinner, Remove;
    ThinnerSelf(s);
    if ds != [] {
      var v := DialogVisited(s, c, ds[0], now);
      VisitThinner(s, c, ds[0], now);
      DialogVisitedKeeps(s, c, ds[0], now);
      if !v.yes {
        VisitLeft(s, v, c, ds);
        DialogsVisitedThinner(v.s, c, ds[1..], now);
        ThinnerJoin(s, v.s, DialogsVisited(v.s, c, ds[1..], now));
      }
    }
  }

  lemma {:induction false} CallsVisitedThinner(s: Store, cs: seq<Ptr>, now: int)
    requires Inv(s) && NoDup(cs) && forall c | c in cs :: c in s.calls
    ensures Thinner(s, CallsVisited(s, cs, now))
    decreases |cs|
  {
    hide Inv, DialogsVisited, Thinner, Spared, NoDup;
    ThinnerSelf(s);
    if cs != [] {
      var ds := CallOf(s, cs[0]).dialogs;
      var s1 := DialogsVisited(s, cs[0], ds, now);
      assert NoDup(ds) by { InvApart(s, cs[0]); }
      DialogsVisitedThinner(s, cs[0], ds, now);
      FirstCall(s, cs, now);
      CallsVisitedThinner(s1, cs[1..], now);
      ThinnerJoin(s, s1, CallsVisited(s1, cs[1..], now));
    }
  }

  lemma {:induction false} AbandonedReleasedThinner(s: Store, cs: seq<Ptr>, now: int)
    requires Inv(s) && NoDup(cs) && forall c | c in cs :: c in s.calls
    ensures Thinner(s, AbandonedReleased(s, cs, now))
    decreases |cs|
  {
    hide Inv, Held, CallReleased, Thinner, Remove, Abandoned;
    ThinnerSelf(s);
    if cs != [] {
      var s1 := if Abandoned(s, cs[0], now) then CallReleased(s, cs[0]) else s;
      CallReleasedKeeps(s, cs[0]);
      ReleasedThinner(s, cs[0]);
      RemoveContents(s.calls, cs[0]);
      AbandonedReleasedThinner(s1, cs[1..], now);
      ThinnerJoin(s, s1, AbandonedReleased(s1, cs[1..], now));
    }
  }

  lemma SweptHeaded(s: Store, now: int)
    requires Inv(s) && Headed(s)
    ensures Headed(Swept(s, now))
  {
    hide Inv, Swept, CallHeld;
    var r := Swept(s, now);
    SweptRecords(s, now);
    assert Owned(s) by { InvLinkedOwned(s); }
    forall c | c in r.calls ensures HeadedAt(r, c) {
      assert HeadedAt(s, c);
      var out := CallOf(s, c).outTr;
      if out.Some? {
        InSlotHeld(s, c, out.value);
        SweptTr(s, c, out.value, now);
      }
    }
  }

  lemma ReleasePassHeaded(s: Store, now: int)
    requires Inv(s) && Headed(s)
    ensures Headed(ReleasePass(s, now))
  {
    hide Inv, Held, CallsVisited, AbandonedReleased, Swept, Thinner, Headed;
    assert NoDup(s.calls) by { InvNoDup(s); }
    CallsVisitedThinner(s, s.calls, now);
    CallsVisitedKeeps(s, s.calls, now);
    var s1 := CallsVisited(s, s.calls, now);
    assert NoDup(s1.calls) by { InvNoDup(s1); }
    AbandonedReleasedThinner(s1, s1.calls, now);
    var m := Collected(s, now);
    ThinnerJoin(s, s1, m);
    CollectedConserves(s, now);
    ThinnerHeaded(s, m);
    SweptHeaded(m, now);
  }
}
