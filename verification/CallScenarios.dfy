/** Short runs from the start that reach what the source gets wrong, event by event. */
module CallScenarios {
  import opened Numerals
  import opened CallStore
  import opened CallOps
  import opened CallHandlers
  import opened CallGarbage
  import opened CallPass
  import opened CallRuns

  /** A store with one call, whatever the ids, in the first second. */
  ghost predicate Shape(w: World, call: Call, ds: map<Ptr, Dialog>, trs: map<Ptr, Transaction>, garbage: seq<Ptr>) {
    && w.now == 0 && w.s.calls == [1] && w.s.callAt.Keys == {1} && CallOf(w.s, 1).(id := 0) == call
    && w.s.dialogAt.Keys == ds.Keys && (forall d | d in ds :: w.s.dialogAt[d].(id := 0) == ds[d])
    && w.s.trAt == trs && w.s.garbage == garbage
  }

  lemma UpdatedShape(s: Store, call: Call, ds: map<Ptr, Dialog>, trs: map<Ptr, Transaction>, garbage: seq<Ptr>)
    requires Shape(World(s, 0), call, ds, trs, garbage)
    ensures Shape(World(Updated(s), 0), call, ds, trs, garbage)
  {
    hide Updated;
    var r := Updated(s);
    assert SameButIds(s, r);
    assert r.callAt[1].(id := 0) == s.callAt[1].(id := 0);
    forall d | d in ds ensures r.dialogAt[d].(id := 0) == ds[d] {
      assert r.dialogAt[d].(id := 0) == s.dialogAt[d].(id := 0);
    }
  }

  // ----- a call goes out, and its first answer makes a dialog -----

  const STARTED := [CallStarted(1, 20)]
  const CALLED := STARTED + [FirstAnswerArrived(1, 10)]

  /** A dialog that an answer has made. */
  const EARLY := Dialog(0, true, -1, [], [], 0, 0, false)

  function Invite(jd: Option<Ptr>, state: State, response: Option<int>): Transaction {
    Transaction("INVITE", state, 0, 0, response, Some(JInfo(1, jd)))
  }

  ghost predicate Ringing(w: World) {
    Shape(w, Call(0, None, Some(20), [10]), map[10 := EARLY], map[20 := Invite(Some(10), ICT_PRE_CALLING, None)], [])
  }

  lemma StartsCalling()
    ensures AllEnabled(START, STARTED)
    ensures Shape(Run(START, STARTED), Call(0, None, Some(20), []), map[], map[20 := Invite(None, ICT_PRE_CALLING, None)], [])
  {
    hide Updated;
    assert [] + [CallStarted(1, 20)] == STARTED;
    RunMore(START, [], CallStarted(1, 20));
    var s1 := CallAdded(WithTr(START.s, 20, Invite(None, ICT_PRE_CALLING, None)), 1);
    var s2 := SetCall(s1, 1, CallOf(s1, 1).(outTr := Some(20)));
    UpdatedShape(s2, Call(0, None, Some(20), []), map[], map[20 := Invite(None, ICT_PRE_CALLING, None)], []);
  }

  /** The call's request names no dialog, and an answer comes in. */
  lemma AnswerOpens(w: World, d: Ptr, t: Ptr, ds: map<Ptr, Dialog>, before: seq<Ptr>, trs: map<Ptr, Transaction>, garbage: seq<Ptr>)
    requires Shape(w, Call(0, None, Some(t), before), ds, trs, garbage) && d !in ds
    requires t in trs && trs[t] == Invite(None, ICT_PRE_CALLING, None)
    ensures Enabled(w, FirstAnswerArrived(1, d))
    ensures Shape(Step(w, FirstAnswerArrived(1, d)), Call(0, None, Some(t), [d] + before), ds[d := EARLY],
                  trs[t := Invite(Some(d), ICT_PRE_CALLING, None)], garbage)
  {
    hide Updated;
    var s1 := DialogAdded(w.s, 1, d, NewDialog(-1, 0));
    var s2 := Reporting(s1, t, JInfo(1, Some(d)));
    UpdatedShape(s2, Call(0, None, Some(t), [d] + before), ds[d := EARLY], trs[t := Invite(Some(d), ICT_PRE_CALLING, None)], garbage);
  }

  lemma CalledRings()
    ensures AllEnabled(START, CALLED) && Ringing(Run(START, CALLED))
  {
    hide Run, AllEnabled, Step;
    StartsCalling();
    var w := Run(START, STARTED);
    var trs := map[20 := Invite(None, ICT_PRE_CALLING, None)];
    var none: map<Ptr, Dialog> := map[];
    AnswerOpens(w, 10, 20, none, [], trs, []);
    assert trs[20 := Invite(Some(10), ICT_PRE_CALLING, None)] == map[20 := Invite(Some(10), ICT_PRE_CALLING, None)];
    assert none[10 := EARLY] == map[10 := EARLY] && [10] + [] == [10];
    RunMore(START, STARTED, FirstAnswerArrived(1, 10));
  }

  // ----- the INVITE is rejected and retried -----

  lemma Progresses(w: World, t: Ptr, state: State, response: int, call: Call, ds: map<Ptr, Dialog>, trs: map<Ptr, Transaction>, garbage: seq<Ptr>)
    requires Shape(w, call, ds, trs, garbage) && t in trs && trs[t].completed == 0
    ensures Enabled(w, TransactionMoved(t, state, 0, Some(response)))
    ensures Shape(Step(w, TransactionMoved(t, state, 0, Some(response))), call, ds, trs[t := trs[t].(state := state, response := Some(response))], garbage)
  {
  }

  lemma Ends(w: World, d: Ptr, call: Call, ds: map<Ptr, Dialog>, trs: map<Ptr, Transaction>, garbage: seq<Ptr>)
    requires Shape(w, call, ds, trs, garbage) && d in ds && d in call.dialogs
    ensures Enabled(w, DialogEnded(1, d))
    ensures Shape(Step(w, DialogEnded(1, d)), call, ds[d := ds[d].(established := false)], trs, garbage)
  {
    hide Updated;
    var s1 := SetDialog(w.s, d, DialogOf(w.s, d).(established := false));
    UpdatedShape(s1, call, ds[d := ds[d].(established := false)], trs, garbage);
  }

  const REJECTED := CALLED + [TransactionMoved(20, ICT_TERMINATED, 0, Some(401))] + [DialogEnded(1, 10)]

  ghost predicate Rejected401(w: World) {
    Shape(w, Call(0, None, Some(20), [10]), map[10 := EARLY.(established := false)], map[20 := Invite(Some(10), ICT_TERMINATED, Some(401))], [])
  }

  lemma RunIsRejected()
    ensures AllEnabled(START, REJECTED) && Rejected401(Run(START, REJECTED))
  {
    hide Run, AllEnabled, Step, Enabled;
    var call := Call(0, None, Some(20), [10]);
    var t0 := map[20 := Invite(Some(10), ICT_PRE_CALLING, None)];
    var es1 := CALLED + [TransactionMoved(20, ICT_TERMINATED, 0, Some(401))];
    CalledRings();
    Progresses(Run(START, CALLED), 20, ICT_TERMINATED, 401, call, map[10 := EARLY], t0, []);
    RunMore(START, CALLED, TransactionMoved(20, ICT_TERMINATED, 0, Some(401)));
    assert t0[20 := Invite(Some(10), ICT_TERMINATED, Some(401))] == map[20 := Invite(Some(10), ICT_TERMINATED, Some(401))];
    Ends(Run(START, es1), 10, call, map[10 := EARLY], map[20 := Invite(Some(10), ICT_TERMINATED, Some(401))], []);
    RunMore(START, es1, DialogEnded(1, 10));
    assert map[10 := EARLY][10 := EARLY.(established := false)] == map[10 := EARLY.(established := false)];
  }

  /** The INVITE is rejected, its dialog closed, and the INVITE sent again: the old one names a dialog that is gone. */
  lemma RunLeavesName()
    ensures var w := Run(START, REJECTED); var e := RetryCalled(1, Some(10), 20, 21);
      && AllEnabled(START, REJECTED) && Enabled(w, e)
      && 20 in Step(w, e).s.garbage && Names(Step(w, e).s, 20) == Some(10) && 10 !in Step(w, e).s.dialogAt
  {
    hide Good, Retried, Run, AllEnabled;
    RunIsRejected();
    ReachedIsGood(REJECTED);
    var w := Run(START, REJECTED);
    assert Inv(w.s) by { GoodInv(w); }
    assert InSlot(w.s, 1, 20) && TransactionFind(w.s, [1], 20) == Some(Place(1, Some(10)));
    RetryLeavesName(w.s, 1, 10, 20, 21, 0);
  }

  // ----- a BYE that goes on, and a sibling whose INVITE has failed -----

  const BYE := Request("BYE", "BYE", 1, true, {10}, {})
  const FAILED := CALLED + [RequestArrived(BYE, 30, 2, 11)] + [TransactionMoved(20, ICT_TERMINATED, 0, Some(401))]
                  + [RetryCalled(1, None, 20, 21)] + [FirstAnswerArrived(1, 11)] + [DialogEnded(1, 11)]
                  + [TransactionMoved(21, ICT_TERMINATED, 0, Some(486))]

  const HUNG_UP := EARLY.(established := false, incTrs := [30])
  const BYE_RECEIVED := Transaction("BYE", NIST_PRE_TRYING, 0, 0, None, Some(JInfo(1, None)))

  lemma HangsUp(w: World)
    requires Ringing(w)
    ensures var e := RequestArrived(BYE, 30, 2, 11);
      && Enabled(w, e)
      && Shape(Step(w, e), Call(0, None, Some(20), [10]), map[10 := HUNG_UP],
               map[20 := Invite(Some(10), ICT_PRE_CALLING, None), 30 := BYE_RECEIVED], [])
  {
    hide Updated;
    var s := w.s;
    assert MatchingDialog(s, [10], {10}) == Some(10);
    assert MatchingPlace(s, [1], {10}) == Some(Place(1, Some(10)));
    var s1 := WithTr(s, 30, Born("BYE", NIST_PRE_TRYING, 0, None));
    assert FindLastInc(s1, 10, "BYE") == None;
    var s2 := IncListed(Reporting(s1, 30, JInfo(1, None)), 10, 30);
    var s3 := SetDialog(s2, 10, DialogOf(s2, 10).(established := false));
    assert NewRequest(s, BYE, 30, 2, 11, 0) == Updated(s3);
    var trs := map[20 := Invite(Some(10), ICT_PRE_CALLING, None), 30 := BYE_RECEIVED];
    assert s3.trAt == trs;
    UpdatedShape(s3, Call(0, None, Some(20), [10]), map[10 := HUNG_UP], trs, []);
  }

  /** Without an established dialog the call's own request is sent again. */
  lemma SendsAgain(w: World, ds: map<Ptr, Dialog>, trs: map<Ptr, Transaction>)
    requires Shape(w, Call(0, None, Some(20), [10]), ds, trs, []) && 10 in ds && !ds[10].established
    requires 20 in trs && trs[20] == Invite(Some(10), ICT_TERMINATED, Some(401)) && 21 !in trs
    ensures var e := RetryCalled(1, None, 20, 21);
      && Enabled(w, e)
      && Shape(Step(w, e), Call(0, None, Some(21), [10]), ds, trs[21 := Invite(None, ICT_PRE_CALLING, None)], [20])
  {
    hide Updated, TransactionFind;
    assert EqualFold("INVITE", "INVITE");
    var s2 := Swapped(w.s, 1, 20, 21, Invite(None, ICT_PRE_CALLING, None));
    assert Retried(w.s, 1, None, 20, 21, 0) == Updated(s2);
    UpdatedShape(s2, Call(0, None, Some(21), [10]), ds, trs[21 := Invite(None, ICT_PRE_CALLING, None)], [20]);
  }

  ghost predicate Failed486(w: World) {
    && w.now == 0 && w.s.calls == [1] && CallOf(w.s, 1).(id := 0) == Call(0, None, Some(21), [11, 10])
    && DialogOf(w.s, 10).(id := 0) == HUNG_UP && DialogOf(w.s, 11).(id := 0) == EARLY.(established := false)
    && TrOf(w.s, 21) == Invite(Some(11), ICT_TERMINATED, Some(486)) && TrOf(w.s, 30) == BYE_RECEIVED
  }

  lemma RunFails()
    ensures AllEnabled(START, FAILED) && Failed486(Run(START, FAILED))
  {
    hide Run, AllEnabled, Step, Enabled;
    var es1 := CALLED + [RequestArrived(BYE, 30, 2, 11)];
    var es2 := es1 + [TransactionMoved(20, ICT_TERMINATED, 0, Some(401))];
    var es3 := es2 + [RetryCalled(1, None, 20, 21)];
    var es4 := es3 + [FirstAnswerArrived(1, 11)];
    var es5 := es4 + [DialogEnded(1, 11)];
    var ds := map[10 := HUNG_UP];
    var t0 := map[20 := Invite(Some(10), ICT_PRE_CALLING, None), 30 := BYE_RECEIVED];
    var t1 := t0[20 := Invite(Some(10), ICT_TERMINATED, Some(401))];
    var t2 := t1[21 := Invite(None, ICT_PRE_CALLING, None)];
    var t3 := t2[21 := Invite(Some(11), ICT_PRE_CALLING, None)];
    CalledRings();
    HangsUp(Run(START, CALLED));
    RunMore(START, CALLED, RequestArrived(BYE, 30, 2, 11));
    Progresses(Run(START, es1), 20, ICT_TERMINATED, 401, Call(0, None, Some(20), [10]), ds, t0, []);
    RunMore(START, es1, TransactionMoved(20, ICT_TERMINATED, 0, Some(401)));
    SendsAgain(Run(START, es2), ds, t1);
    RunMore(START, es2, RetryCalled(1, None, 20, 21));
    AnswerOpens(Run(START, es3), 11, 21, ds, [10], t2, [20]);
    RunMore(START, es3, FirstAnswerArrived(1, 11));
    assert [11] + [10] == [11, 10];
    Ends(Run(START, es4), 11, Call(0, None, Some(21), [11, 10]), ds[11 := EARLY], t3, [20]);
    RunMore(START, es4, DialogEnded(1, 11));
    Progresses(Run(START, es5), 21, ICT_TERMINATED, 486, Call(0, None, Some(21), [11, 10]),
               ds[11 := EARLY][11 := EARLY.(established := false)], t3, [20]);
    RunMore(START, es5, TransactionMoved(21, ICT_TERMINATED, 0, Some(486)));
  }

  /** The first dialog's visit gets to the check of the call, whose INVITE has failed. */
  lemma SiblingFalls(w: World)
    requires Failed486(w)
    ensures HasPending(w.s, 1, 10, 0) && Falls(w.s, 1, [11, 10], 0)
  {
    hide CallReleased, DialogRemoved;
    var s := w.s;
    assert EqualFold("BYE", "BYE");
    assert FirstWith(s, [30], "BYE", false) == Some(30);
    assert Pending(s, 1, 11, 0) == Checked(s, false);
    assert FinishedTransactions(s, 1, 11, 0) == Checked(s, false);
    assert Reaches(s, 1, 11, 0) && 11 in [11, 10];
  }

  /**
   A BYE has just come in and goes on; the INVITE was rejected, sent again, and failed. The release pass
   frees the call, and the dialog with the BYE, while the BYE is unfinished.
   */
  lemma SiblingFrees()
    ensures var w := Run(START, FAILED);
      && AllEnabled(START, FAILED) && w.now == 0 && LiveDialog(w.s, 1, 10)
      && FindLastInc(w.s, 10, "BYE") == Some(30) && GoesOn(w.s, Some(30), NIST_TERMINATED, 0)
      && 1 !in Step(w, ReleasePassed).s.calls
  {
    hide Good, Run, AllEnabled, ReleasePass, HasPending, Falls;
    RunFails();
    var w := Run(START, FAILED);
    ReachedIsGood(FAILED);
    assert Inv(w.s) by { GoodInv(w); }
    SiblingFalls(w);
    UnfinishedProtects(w.s, 1, 10, 0);
    assert EqualFold("BYE", "BYE") && FirstWith(w.s, [30], "BYE", false) == Some(30);
  }

  lemma GoodInv(w: World)
    requires Good(w)
    ensures Inv(w.s)
  {
  }
}
