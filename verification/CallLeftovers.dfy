/**
 Transactions in the garbage list that name a dialog that is gone, over whole runs: which events leave
 the first one. What a release pass files with a name it sweeps away again at once, so only a request
 that was retried can stay in the list under a name.
 */
module CallLeftovers {
  import opened Numerals
  import opened CallStore
  import opened CallOps
  import opened CallRelease
  import opened CallHandlers
  import opened CallGarbage
  import opened CallTimes
  import opened CallProtocol
  import opened CallPass
  import opened CallFronts
  import opened CallRuns

  // ----- events that free nothing -----

  /** What comes into the garbage list has no name, what is there keeps its name, and no dialog is freed. */
  ghost predicate Lasting(s: Store, r: Store) {
    && (forall x | x in r.garbage :: Names(r, x) == None || (x in s.garbage && Names(r, x) == Names(s, x)))
    && s.dialogAt.Keys <= r.dialogAt.Keys
  }

  lemma LastingClean(s: Store, r: Store)
    requires Clean(s) && Lasting(s, r)
    ensures Clean(r)
  {
  }

  /** The garbage list is as it was, or t is filed in front without a name. */
  ghost predicate Tossed(s: Store, r: Store, t: Ptr) {
    r.garbage == s.garbage || (r.garbage == [t] + s.garbage && Names(r, t) == None)
  }

  lemma TossedLasting(s: Store, r: Store, t: Ptr)
    requires Inv(s) && t !in s.trAt && Steady(s, r, t) && Tossed(s, r, t)
    ensures Lasting(s, r)
  {
    hide Inv, Names;
    GarbageAllocated(s, t);
  }

  lemma UpdatedTossed(s: Store, m: Store, t: Ptr)
    requires Tossed(s, m, t)
    ensures Tossed(s, Updated(m), t)
  {
    hide Names, Updated;
    UpdatedNames(m, t);
  }

  lemma ClosedTossed(s: Store, m: Store, d: Ptr, t: Ptr)
    requires Tossed(s, m, t)
    ensures Tossed(s, Closed(m, d), t)
  {
    hide Updated;
    UpdatedTossed(s, SetDialog(m, d, DialogOf(m, d).(established := false)), t);
  }

  lemma TerminatedAtTossed(s: Store, c: Ptr, d: Option<Ptr>, t: Ptr, toTag: bool, now: int)
    ensures Tossed(s, TerminatedAt(s, c, d, t, toTag, now), t)
  {
    hide Closed, FindLastOutInvite, FindLastIncInvite, Provisional;
    var s1 := Filed(WithTr(s, t, Born("CANCEL", NICT_PRE_TRYING, now, None)), t);
    if d.Some? {
      ClosedTossed(s, s1, d.value, t);
      ClosedTossed(s, RequestSent(s, c, d.value, t, "BYE", NICT_PRE_TRYING, now), d.value, t);
    }
  }

  lemma TerminateTossed(s: Store, cid: int, did: int, t: Ptr, toTag: bool, now: int)
    ensures Tossed(s, Terminate(s, cid, did, t, toTag, now), t)
  {
    hide TerminatedAt;
    var p := if did > 0 then CallDialogFind(s, s.calls, did) else CallFind(s, s.calls, cid);
    if p.Some? {
      TerminatedAtTossed(s, p.value.c, p.value.d, t, toTag, now);
    }
  }

  lemma GivenUpTossed(s: Store, c: Ptr, d: Ptr, t: Ptr, toTag: bool, now: int)
    ensures Tossed(s, GivenUp(s, c, d, t, toTag, now), t)
  {
    hide Terminate;
    TerminateTossed(Acknowledged(s, d), CallOf(s, c).id, DialogOf(s, d).id, t, toTag, now);
  }

  lemma WithinDialogTossed(s: Store, req: Request, t: Ptr, c: Ptr, d: Ptr)
    requires Names(s, t) == None
    ensures Tossed(s, WithinDialog(s, req, t, c, d), t)
  {
    hide Closed, FindLastInc, FindLastOut, FindLastIncInvite, FindLastOutInvite, Unfinished;
    ClosedTossed(s, IncListed(Reporting(s, t, JInfo(c, None)), d, t), d, t);
  }

  lemma NewRequestTossed(s: Store, req: Request, t: Ptr, c: Ptr, d: Ptr, now: int)
    requires !OpensCall(s, req)
    ensures Tossed(s, NewRequest(s, req, t, c, d, now), t)
  {
    hide WithinDialog, Updated, MatchingPlace, CancelTarget;
    var tr := Born(req.cseqMethod, if req.sipMethod == "INVITE" then IST_PRE_PROCEEDING else NIST_PRE_TRYING, now, None);
    var s1 := WithTr(s, t, tr);
    UpdatedTossed(s, s1, t);
    var p := MatchingPlace(s, s.calls, req.matches);
    if p.Some? {
      WithinDialogTossed(s1, req, t, p.value.c, p.value.d.value);
    }
  }

  lemma SentTossed(s: Store, did: int, t: Ptr, m: string, now: int)
    ensures Tossed(s, SendRequest(s, did, t, m, now), t)
  {
    hide CallDialogFind, FindLastInvite, FindLast;
  }

  lemma PrackTossed(s: Store, tid: Ptr, t: Ptr, now: int)
    ensures Tossed(s, SendPrack(s, tid, t, now), t)
  {
    hide TransactionFind;
  }

  lemma AnswerGarbage(s: Store, tid: Ptr, status: int, answer: Option<int>, now: int)
    ensures SendAnswer(s, tid, status, answer, now).garbage == s.garbage
  {
    hide TransactionFind, Updated;
  }

  // ----- new calls and dialogs -----

  lemma StartedLasting(s: Store, c: Ptr, t: Ptr, now: int)
    requires Inv(s) && t !in s.trAt
    ensures Lasting(s, InitialInvite(s, c, t, now))
  {
    hide Inv, Updated, Names;
    GarbageAllocated(s, t);
    var s1 := CallAdded(WithTr(s, t, Born("INVITE", ICT_PRE_CALLING, now, Some(JInfo(c, None)))), c);
    var s2 := SetCall(s1, c, CallOf(s1, c).(outTr := Some(t)));
    NamedLasting(s, s2, t);
  }

  /** Only what t names differs, and t is not in the garbage list. */
  lemma NamedLasting(s: Store, r: Store, t: Ptr)
    requires t !in s.garbage && r.garbage == s.garbage && s.dialogAt.Keys <= r.dialogAt.Keys
    requires s.trAt.Keys <= r.trAt.Keys <= s.trAt.Keys + {t} && forall x: Ptr | x in s.trAt && x != t :: r.trAt[x] == s.trAt[x]
    ensures Lasting(s, Updated(r))
  {
    hide Updated;
    UpdatedNames(r, 0);
    forall x | x in s.garbage ensures Names(Updated(r), x) == Names(s, x) {
      UpdatedNames(r, x);
    }
  }

  lemma OpenedLasting(s: Store, req: Request, t: Ptr, c: Ptr, d: Ptr, now: int)
    requires Inv(s) && t !in s.trAt && OpensCall(s, req)
    ensures Lasting(s, NewRequest(s, req, t, c, d, now))
  {
    hide Inv, Updated, Names, MatchingPlace;
    GarbageAllocated(s, t);
    var s1 := WithTr(s, t, Born(req.cseqMethod, IST_PRE_PROCEEDING, now, None));
    var s2 := Reporting(DialogAdded(CallAdded(s1, c), c, d, NewDialog(req.cseq, now)), t, JInfo(c, Some(d)));
    NamedLasting(s, s2, t);
    var u := Updated(s2);
    SlotLasting(s, u, c, CallOf(u, c).(incTr := Some(t)));
  }

  lemma SlotLasting(s: Store, m: Store, c: Ptr, call: Call)
    requires Lasting(s, m)
    ensures Lasting(s, SetCall(m, c, call))
  {
    assert forall x: Ptr :: Names(SetCall(m, c, call), x) == Names(m, x);
  }

  lemma MadeLasting(s: Store, c: Ptr, d: Ptr, now: int)
    requires Inv(s) && c in s.calls
    ensures Lasting(s, DialogMade(s, c, d, now))
  {
    hide Inv, Updated, Names, CallHeld, Own;
    var out := CallOf(s, c).outTr;
    if out.Some? && OpensDialog(s, c) {
      HeldNotGarbage(s, c);
      assert InSlot(s, c, out.value);
      var s2 := Reporting(DialogAdded(s, c, d, NewDialog(-1, now)), out.value, JInfo(c, Some(d)));
      NamedLasting(s, s2, out.value);
    }
  }

  /** Where no transaction is new and the garbage list stays. */
  lemma SameLasting(s: Store, r: Store)
    requires r.garbage == s.garbage && Steady(s, r, 0) && Steady(s, r, 1)
    ensures Lasting(s, r)
  {
    hide Names;
    forall x: Ptr ensures Names(r, x) == Names(s, x) {
      assert x != 0 || x != 1;
    }
  }

  lemma QuietLasting(w: World, e: Event)
    requires e.TimePasses? || e.AnswerCalled? || e.DialogEnded? || e.TransactionMoved? || e.TimerFired?
    ensures Lasting(w.s, Step(w, e).s)
  {
    hide Steady, SendAnswer, Closed;
    match e
    case TimePasses(_) =>
    case AnswerCalled(tid, status, answer) =>
      AnswerGarbage(w.s, tid, status, answer, w.now);
      SendAnswerSteady(w.s, tid, status, answer, w.now, 0);
      SendAnswerSteady(w.s, tid, status, answer, w.now, 1);
      SameLasting(w.s, Step(w, e).s);
    case DialogEnded(c, d) =>
      SteadySelf(w.s, 0);
      SteadySelf(w.s, 1);
      ClosedSteady(w.s, w.s, d, 0);
      ClosedSteady(w.s, w.s, d, 1);
      ClosedGarbage(w.s, d);
      SameLasting(w.s, Step(w, e).s);
    case TransactionMoved(t, state, completed, response) =>
      assert forall x: Ptr :: Names(Step(w, e).s, x) == Names(w.s, x);
    case TimerFired(c, d) =>
      ResentSteady(w.s, d, w.now, 0);
      ResentSteady(w.s, d, w.now, 1);
      SameLasting(w.s, Step(w, e).s);
  }

  lemma ClosedGarbage(s: Store, d: Ptr)
    ensures Closed(s, d).garbage == s.garbage
  {
    hide Updated;
  }

  /** No event but a retry and a release pass frees a dialog or files a transaction under a name. */
  lemma StepLasting(w: World, e: Event)
    requires Good(w) && Enabled(w, e) && !e.RetryCalled? && !e.ReleasePassed?
    ensures Lasting(w.s, Step(w, e).s)
  {
    hide Inv, Sane, Headed, Steady, Tossed, Lasting, InitialInvite, SendRequest, SendPrack, SendAnswer, Terminate, NewRequest,
      DialogMade, Closed, Progressed, Resent, GivenUp, OpensCall;
    var r := Step(w, e).s;
    match e {
      case CallStarted(c, t) => StartedLasting(w.s, c, t, w.now);
      case RequestCalled(did, t, m) =>
        SendRequestSteady(w.s, did, t, m, w.now);
        SentTossed(w.s, did, t, m, w.now);
        TossedLasting(w.s, r, t);
      case PrackCalled(tid, t) =>
        SendPrackSteady(w.s, tid, t, w.now);
        PrackTossed(w.s, tid, t, w.now);
        TossedLasting(w.s, r, t);
      case TerminateCalled(cid, did, t, toTag) =>
        SteadySelf(w.s, t);
        TerminateSteady(w.s, w.s, cid, did, t, toTag, w.now);
        TerminateTossed(w.s, cid, did, t, toTag, w.now);
        TossedLasting(w.s, r, t);
      case RequestArrived(req, t, c, d) =>
        if OpensCall(w.s, req) {
          OpenedLasting(w.s, req, t, c, d, w.now);
        } else {
          NewRequestSteady(w.s, req, t, c, d, w.now);
          NewRequestTossed(w.s, req, t, c, d, w.now);
          TossedLasting(w.s, r, t);
        }
      case FirstAnswerArrived(c, d) => MadeLasting(w.s, c, d, w.now);
      case TimerRanOut(c, d, t, toTag) =>
        GivenUpSteady(w.s, c, d, t, toTag, w.now);
        GivenUpTossed(w.s, c, d, t, toTag, w.now);
        TossedLasting(w.s, r, t);
      case _ => QuietLasting(w, e);
    }
  }

  // ----- the retry -----

  /** The retry frees dialog d, which the old request or one in the garbage list names. */
  ghost predicate RetryLeaves(s: Store, c: Ptr, d: Option<Ptr>, former: Ptr) {
    && CallOf(s, c).outTr == Some(former) && d.Some?
    && (Names(s, former) == d || NamedInGarbage(s, d.value))
  }

  lemma RetryExactly(s: Store, c: Ptr, d: Option<Ptr>, former: Ptr, t: Ptr, now: int)
    requires Inv(s) && Headed(s) && Clean(s) && t !in s.trAt && Retries(s, c, d, former, now)
    ensures Clean(Retried(s, c, d, former, t, now)) <==> !RetryLeaves(s, c, d, former)
  {
    hide Inv, Headed, Clean, Updated, NamedInGarbage, TransactionFind, CallHeld, Own, Names, RequestSent, EqualFold, Steady, Lasting;
    RetriedAtFront(s, c, d, former, now);
    if CallOf(s, c).outTr == Some(former) {
      if d.Some? {
        RetriedClean(s, c, d.value, former, t, now);
      } else {
        HeldNotGarbage(s, c);
        FormerNamed(s, c, former);
        GarbageAllocated(s, t);
        var s2 := Swapped(s, c, former, t, Again(s, c, former, now));
        forall x: Ptr | x != t ensures Names(s2, x) == Names(s, x) { SwapNames(s, s2, t, x); }
        assert InSlot(s, c, former);
        SwappedClean(s, s2, former, t);
        UpdatedClean(s2);
      }
    } else if d.Some? {
      BesideLasting(s, c, d.value, former, t, now);
      LastingClean(s, Retried(s, c, d, former, t, now));
    }
  }

  lemma BesideLasting(s: Store, c: Ptr, d: Ptr, former: Ptr, t: Ptr, now: int)
    requires Inv(s) && t !in s.trAt && CallOf(s, c).outTr != Some(former)
    ensures Lasting(s, Retried(s, c, Some(d), former, t, now))
  {
    hide Inv, Updated, Steady, Names, EqualFold;
    var m := TrOf(s, former).cseqMethod;
    var state := if EqualFold(m, "INVITE") then ICT_PRE_CALLING else NICT_PRE_TRYING;
    var r := RequestSent(s, c, d, t, m, state, now);
    SteadySelf(s, t);
    RequestSentSteady(s, s, c, d, t, m, state, now);
    UpdatedSteady(s, r, t);
    UpdatedTossed(s, r, t);
    TossedLasting(s, Updated(r), t);
  }

  // ----- the release pass -----

  /** The garbage list has taken in transactions without a name, or such as the sweep takes away. */
  ghost predicate Gathers(s: Store, r: Store, now: int) {
    && Calm(s, r)
    && (forall t | t in s.garbage :: t in r.garbage && Names(r, t) == Names(s, t))
    && (forall t | t in r.garbage && t !in s.garbage :: Names(r, t) == None || Expendable(r, t, now))
  }

  lemma CalmExpendable(s: Store, r: Store, t: Ptr, now: int)
    requires Calm(s, r)
    ensures Expendable(r, t, now) == Expendable(s, t, now)
  {
    hide Calm;
    CalmTr(s, r, t);
  }

  lemma GathersSelf(s: Store, now: int)
    ensures Gathers(s, s, now)
  {
  }

  lemma GathersJoin(a: Store, s: Store, r: Store, now: int)
    requires Gathers(a, s, now) && Gathers(s, r, now)
    ensures Gathers(a, r, now)
  {
    hide Names, Expendable, Calm;
    CalmJoin(a, s, r);
    forall t | t in r.garbage && t !in a.garbage ensures Names(r, t) == None || Expendable(r, t, now) {
      CalmExpendable(s, r, t, now);
    }
  }

  /** A transaction that is filed, and that the sweep will take away. */
  lemma FiledGathers(s: Store, r: Store, t: Ptr, now: int)
    requires r.trAt == s.trAt && r.garbage == [t] + s.garbage && Expendable(s, t, now)
    ensures Gathers(s, r, now)
  {
  }

  lemma CheckGathers(a: Store, s: Store, t: Option<Ptr>, done: State, c: Ptr, now: int, expire: bool)
    requires Gathers(a, s, now)
    ensures Gathers(a, Check(s, t, done, c, now, expire).s, now)
  {
    hide Gathers;
    GathersSelf(s, now);
    if t.Some? && Older(s, t.value, 180, now) {
      RemovedKept(s, t.value, c);
      FiledGathers(s, Filed(RemovedFromCall(s, t.value, c), t.value), t.value, now);
    }
    GathersJoin(a, s, Check(s, t, done, c, now, expire).s, now);
  }

  lemma RemovedKept(s: Store, t: Ptr, c: Ptr)
    ensures RemovedFromCall(s, t, c).trAt == s.trAt && RemovedFromCall(s, t, c).garbage == s.garbage
  {
    hide Remove;
  }

  lemma PendingGathers(s: Store, c: Ptr, d: Ptr, now: int)
    ensures Gathers(s, Pending(s, c, d, now).s, now)
  {
    hide Gathers, Check, FindLastInc, FindLastOut, FindLastIncInvite, FindLastOutInvite;
    GathersSelf(s, now);
    var r1 := Check(s, FindLastInc(s, d, "BYE"), NIST_TERMINATED, c, now, true);
    CheckGathers(s, s, FindLastInc(s, d, "BYE"), NIST_TERMINATED, c, now, true);
    var r2 := Check(r1.s, FindLastOut(r1.s, d, "BYE"), NICT_TERMINATED, c, now, true);
    CheckGathers(s, r1.s, FindLastOut(r1.s, d, "BYE"), NICT_TERMINATED, c, now, true);
    var r3 := Check(r2.s, FindLastIncInvite(r2.s, c, Some(d)), IST_TERMINATED, c, now, false);
    CheckGathers(s, r2.s, FindLastIncInvite(r2.s, c, Some(d)), IST_TERMINATED, c, now, false);
    var r4 := Check(r3.s, FindLastOutInvite(r3.s, c, Some(d)), ICT_TERMINATED, c, now, false);
    CheckGathers(s, r3.s, FindLastOutInvite(r3.s, c, Some(d)), ICT_TERMINATED, c, now, false);
    var r5 := Check(r4.s, FindLastInc(r4.s, d, "REFER"), IST_TERMINATED, c, now, true);
    CheckGathers(s, r4.s, FindLastInc(r4.s, d, "REFER"), IST_TERMINATED, c, now, true);
    CheckGathers(s, r5.s, FindLastOut(r5.s, d, "REFER"), NICT_TERMINATED, c, now, true);
  }

  lemma FinishedGathers(s: Store, c: Ptr, d: Ptr, now: int)
    ensures Gathers(s, FinishedTransactions(s, c, d, now).s, now)
  {
    hide Gathers, IncReleased, OutReleased;
    IncGathers(s, c, d, now);
    var m := IncReleased(s, c, d, now).s;
    OutGathers(m, c, d, now);
    GathersJoin(s, m, OutReleased(m, c, d, now).s, now);
  }

  lemma IncGathers(s: Store, c: Ptr, d: Ptr, now: int)
    ensures Gathers(s, IncReleased(s, c, d, now).s, now)
  {
    hide Gathers, FirstReleasable, FindLastIncInvite, EqualFold;
    var l := DialogOf(s, d).incTrs;
    var k := FirstReleasable(s, l, 1, FindLastIncInvite(s, c, Some(d)), IST_TERMINATED, NIST_TERMINATED, now);
    GathersSelf(s, now);
    if k < |l| {
      FoundReleasable(s, l, 1, FindLastIncInvite(s, c, Some(d)), IST_TERMINATED, NIST_TERMINATED, now);
      FiledGathers(s, IncReleased(s, c, d, now).s, l[k], now);
    }
  }

  lemma OutGathers(s: Store, c: Ptr, d: Ptr, now: int)
    ensures Gathers(s, OutReleased(s, c, d, now).s, now)
  {
    hide Gathers, FirstReleasable, FindLastOutInvite, EqualFold;
    var l := DialogOf(s, d).outTrs;
    var k := FirstReleasable(s, l, 1, FindLastOutInvite(s, c, Some(d)), ICT_TERMINATED, NICT_TERMINATED, now);
    GathersSelf(s, now);
    if k < |l| {
      FoundReleasable(s, l, 1, FindLastOutInvite(s, c, Some(d)), ICT_TERMINATED, NICT_TERMINATED, now);
      FiledGathers(s, OutReleased(s, c, d, now).s, l[k], now);
    }
  }

  lemma DroppedGathers(s: Store, s0: Store, r: Store, ts: multiset<Ptr>, ds: set<Ptr>, now: int)
    requires Calm(s, r) && Dropped(s0, r, ts, ds) && s0.garbage == s.garbage
    requires forall t | t in s.garbage :: t !in ts && Names(s0, t) == Names(s, t)
    ensures Gathers(s, r, now)
  {
    hide Names, Calm, Expendable;
    forall t ensures t in r.garbage <==> t in s.garbage || t in ts {
      InGarbage(s0, r, ts, t);
    }
  }

  lemma RemovedGathers(s: Store, c: Ptr, d: Ptr, now: int)
    requires Inv(s) && c in s.calls && d in CallOf(s, c).dialogs
    ensures Gathers(s, DialogRemoved(s, c, d), now)
  {
    hide Inv, DialogRemoved, RefsDropped, Own, CallHeld, Clean, NamedInGarbage, Gathers, Calm;
    RemovedDropped(s, c, d);
    RefsGarbage(s, c, d);
    HeldNotGarbage(s, c);
    RemovedAside(s, c, d);
    DroppedGathers(s, RefsDropped(s, c, d), DialogRemoved(s, c, d), Own(s, d), {d}, now);
  }

  lemma ReleasedGathers(s: Store, c: Ptr, now: int)
    requires Inv(s) && c in s.calls
    ensures Gathers(s, CallReleased(s, c), now)
  {
    hide Inv, CallReleased, Own, CallHeld, Gathers, Calm, Members;
    ReleasedDropped(s, c);
    HeldNotGarbage(s, c);
    ReleasedSpares(s, c);
    DroppedGathers(s, s, CallReleased(s, c), CallHeld(s, c), Members(CallOf(s, c).dialogs), now);
  }

  lemma VisitGathers(s: Store, c: Ptr, d: Ptr, now: int)
    requires Inv(s) && c in s.calls && d in CallOf(s, c).dialogs
    ensures Gathers(s, DialogVisited(s, c, d, now).s, now)
  {
    hide Inv, Trimmed, Fails, Reaches, DialogVisited, DialogRemoved, CallReleased, Gathers, FinishedCalls, AbortedCalls,
      Pending, FinishedTransactions;
    var m := VisitKind(s, c, d, now);
    var p := Pending(s, c, d, now).s;
    PendingGathers(s, c, d, now);
    FinishedGathers(p, c, d, now);
    GathersJoin(s, p, FinishedTransactions(p, c, d, now).s, now);
    TrimmedCalm(s, m, c, d);
    RemovedGathers(m, c, d, now);
    GathersJoin(s, m, DialogRemoved(m, c, d), now);
    ReleasedGathers(m, c, now);
    GathersJoin(s, m, CallReleased(m, c), now);
  }

  lemma {:induction false} DialogsVisitedGathers(s: Store, c: Ptr, ds: seq<Ptr>, now: int)
    requires Inv(s) && c in s.calls && NoDup(ds) && forall d | d in ds :: d in CallOf(s, c).dialogs
    ensures Gathers(s, DialogsVisited(s, c, ds, now), now)
    decreases |ds|
  {
    hide Inv, Held, DialogVisited, Gathers, Remove;
    GathersSelf(s, now);
    if ds != [] {
      var v := DialogVisited(s, c, ds[0], now);
      VisitGathers(s, c, ds[0], now);
      DialogVisitedKeeps(s, c, ds[0], now);
      if !v.yes {
        VisitLeft(s, v, c, ds);
        DialogsVisitedGathers(v.s, c, ds[1..], now);
        GathersJoin(s, v.s, DialogsVisited(v.s, c, ds[1..], now), now);
      }
    }
  }

  lemma {:induction false} CallsVisitedGathers(s: Store, cs: seq<Ptr>, now: int)
    requires Inv(s) && NoDup(cs) && forall c | c in cs :: c in s.calls
    ensures Gathers(s, CallsVisited(s, cs, now), now)
    decreases |cs|
  {
    hide Inv, DialogsVisited, Gathers, Spared, NoDup;
    GathersSelf(s, now);
    if cs != [] {
      var ds := CallOf(s, cs[0]).dialogs;
      var s1 := DialogsVisited(s, cs[0], ds, now);
      assert NoDup(ds) by { InvApart(s, cs[0]); }
      DialogsVisitedGathers(s, cs[0], ds, now);
      FirstCall(s, cs, now);
      CallsVisitedGathers(s1, cs[1..], now);
      GathersJoin(s, s1, CallsVisited(s1, cs[1..], now), now);
    }
  }

  lemma {:induction false} AbandonedReleasedGathers(s: Store, cs: seq<Ptr>, now: int)
    requires Inv(s) && NoDup(cs) && forall c | c in cs :: c in s.calls
    ensures Gathers(s, AbandonedReleased(s, cs, now), now)
    decreases |cs|
  {
    hide Inv, Held, CallReleased, Gathers, Remove, Abandoned;
    GathersSelf(s, now);
    if cs != [] {
      var s1 := if Abandoned(s, cs[0], now) then CallReleased(s, cs[0]) else s;
      CallReleasedKeeps(s, cs[0]);
      ReleasedGathers(s, cs[0], now);
      RemoveContents(s.calls, cs[0]);
      AbandonedReleasedGathers(s1, cs[1..], now);
      GathersJoin(s, s1, AbandonedReleased(s1, cs[1..], now), now);
    }
  }

  lemma CollectedGathers(s: Store, now: int)
    requires Inv(s)
    ensures Gathers(s, Collected(s, now), now)
  {
    hide Inv, Held, CallsVisited, AbandonedReleased, Gathers;
    assert NoDup(s.calls) by { InvNoDup(s); }
    CallsVisitedGathers(s, s.calls, now);
    CallsVisitedKeeps(s, s.calls, now);
    var s1 := CallsVisited(s, s.calls, now);
    assert NoDup(s1.calls) by { InvNoDup(s1); }
    AbandonedReleasedGathers(s1, s1.calls, now);
    GathersJoin(s, s1, Collected(s, now), now);
  }

  /** The pass frees a dialog that a transaction in the garbage list names and the sweep leaves. */
  ghost predicate PassLeaves(s: Store, now: int) {
    exists t | t in s.garbage && !Expendable(s, t, now) && Names(s, t).Some? :: Names(s, t).value !in ReleasePass(s, now).dialogAt
  }

  lemma SweptGarbageNames(s: Store, t: Ptr, now: int)
    requires Inv(s)
    ensures var r := Swept(s, now);
      && (t in r.garbage <==> t in s.garbage && !Expendable(s, t, now)) && (t in r.garbage ==> Names(r, t) == Names(s, t))
  {
    hide Inv, Expendable;
    KeptExactly(s, s.garbage, now);
    var r := Swept(s, now);
    assert t in r.garbage <==> multiset(r.garbage)[t] > 0;
    assert t in s.garbage <==> multiset(s.garbage)[t] > 0;
  }

  lemma PassExactly(s: Store, now: int)
    requires Inv(s) && Clean(s)
    ensures Clean(ReleasePass(s, now)) <==> !PassLeaves(s, now)
  {
    hide Inv, Names, Expendable, Collected, Swept, Calm, Held;
    var m, r := Collected(s, now), ReleasePass(s, now);
    CollectedGathers(s, now);
    CollectedConserves(s, now);
    forall t ensures (t in r.garbage && Names(r, t).Some?) <==> (t in s.garbage && !Expendable(s, t, now) && Names(s, t).Some?)
      ensures t in r.garbage && Names(r, t).Some? ==> Names(r, t) == Names(s, t)
    {
      SweptGarbageNames(m, t, now);
      CalmExpendable(s, m, t, now);
    }
  }

  // ----- runs -----

  /** The event leaves the garbage list with a transaction that names a dialog that is gone. */
  ghost predicate Leaves(w: World, e: Event) {
    match e
    case RetryCalled(c, d, former, _) => RetryLeaves(w.s, c, d, former)
    case ReleasePassed => PassLeaves(w.s, w.now)
    case _ => false
  }

  lemma StepCleanExactly(w: World, e: Event)
    requires Good(w) && Enabled(w, e) && Clean(w.s)
    ensures Clean(Step(w, e).s) <==> !Leaves(w, e)
  {
    hide Inv, Sane, Headed, Clean, Retried, ReleasePass, RetryLeaves, PassLeaves, Lasting, Retries;
    if e.RetryCalled? {
      RetryExactly(w.s, e.c, e.within, e.former, e.t, w.now);
    } else if e.ReleasePassed? {
      PassExactly(w.s, w.now);
    } else {
      StepLasting(w, e);
      LastingClean(w.s, Step(w, e).s);
    }
  }

  ghost predicate AllClean(w: World, es: seq<Event>)
    decreases |es|
  {
    Clean(w.s) && (es == [] || AllClean(Step(w, es[0]), es[1..]))
  }

  ghost predicate NoneLeaves(w: World, es: seq<Event>)
    decreases |es|
  {
    es == [] || (!Leaves(w, es[0]) && NoneLeaves(Step(w, es[0]), es[1..]))
  }

  /** In a run no garbage transaction ever names a dialog that is gone exactly if no event of the run leaves one. */
  lemma {:induction false} RunsCleanExactly(w: World, es: seq<Event>)
    requires Good(w) && AllEnabled(w, es) && Clean(w.s)
    ensures AllClean(w, es) <==> NoneLeaves(w, es)
    decreases |es|
  {
    hide Inv, Sane, Headed, Clean, Step, Enabled, Leaves;
    if es != [] {
      StepCleanExactly(w, es[0]);
      StepInv(w, es[0]);
      StepSane(w, es[0]);
      StepHeaded(w, es[0]);
      if Clean(Step(w, es[0]).s) {
        RunsCleanExactly(Step(w, es[0]), es[1..]);
      } else {
        FirstUnclean(Step(w, es[0]), es[1..]);
      }
    }
  }

  lemma FirstUnclean(w: World, es: seq<Event>)
    requires !Clean(w.s)
    ensures !AllClean(w, es)
  {
  }
}
