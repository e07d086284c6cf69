/** Runs: any sequence of API calls, requests, callbacks, timer steps and release passes, as time goes by. */
module CallRuns {
  import opened Numerals
  import opened CallStore
  import opened CallOps
  import opened CallRelease
  import opened CallHandlers
  import opened CallSteps
  import opened CallTimes
  import opened CallFronts

  datatype World = World(s: Store, now: int)

  /** What can happen; t, c and d are the pointers that malloc returns for new structures. */
  datatype Event =
    | TimePasses(seconds: nat)
    | CallStarted(c: Ptr, t: Ptr)
    | RequestCalled(did: int, t: Ptr, m: string)
    | PrackCalled(tid: Ptr, t: Ptr)
    | AnswerCalled(tid: Ptr, status: int, answer: Option<int>)
    | TerminateCalled(cid: int, did: int, t: Ptr, toTag: bool)
    | RetryCalled(c: Ptr, within: Option<Ptr>, former: Ptr, t: Ptr)
    | RequestArrived(req: Request, t: Ptr, c: Ptr, d: Ptr)
    | FirstAnswerArrived(c: Ptr, d: Ptr)
    | DialogEnded(c: Ptr, d: Ptr)
    | TransactionMoved(t: Ptr, state: State, completed: int, response: Option<int>)
    | TimerFired(c: Ptr, d: Ptr)
    | TimerRanOut(c: Ptr, d: Ptr, t: Ptr, toTag: bool)
    | ReleasePassed

  predicate FreshTr(s: Store, t: Ptr) {
    t !in s.trAt
  }

  predicate LiveDialog(s: Store, c: Ptr, d: Ptr) {
    c in s.calls && d in CallOf(s, c).dialogs
  }

  /**
   malloc returns pointers not in use; the timer and the callbacks work on live calls and dialogs, and
   requests are retried from where the library does.
   */
  predicate Enabled(w: World, e: Event) {
    match e
    case CallStarted(c, t) => FreshTr(w.s, t) && c !in w.s.callAt
    case RequestCalled(_, t, _) => FreshTr(w.s, t)
    case PrackCalled(_, t) => FreshTr(w.s, t)
    case TerminateCalled(_, _, t, _) => FreshTr(w.s, t)
    case RetryCalled(c, d, former, t) => FreshTr(w.s, t) && Retries(w.s, c, d, former, w.now)
    case RequestArrived(_, t, c, d) => FreshTr(w.s, t) && c !in w.s.callAt && d !in w.s.dialogAt
    case FirstAnswerArrived(c, d) => c in w.s.calls && d !in w.s.dialogAt
    case DialogEnded(c, d) => LiveDialog(w.s, c, d)
    case TimerFired(c, d) => LiveDialog(w.s, c, d) && Due(DialogOf(w.s, d), w.now)
    case TimerRanOut(c, d, t, _) => FreshTr(w.s, t) && LiveDialog(w.s, c, d) && DialogOf(w.s, d).count == 5
    case _ => true
  }

  function Step(w: World, e: Event): World {
    match e
    case TimePasses(seconds) => w.(now := w.now + seconds)
    case CallStarted(c, t) => w.(s := InitialInvite(w.s, c, t, w.now))
    case RequestCalled(did, t, m) => w.(s := SendRequest(w.s, did, t, m, w.now))
    case PrackCalled(tid, t) => w.(s := SendPrack(w.s, tid, t, w.now))
    case AnswerCalled(tid, status, answer) => w.(s := SendAnswer(w.s, tid, status, answer, w.now))
    case TerminateCalled(cid, did, t, toTag) => w.(s := Terminate(w.s, cid, did, t, toTag, w.now))
    case RetryCalled(c, d, former, t) => w.(s := Retried(w.s, c, d, former, t, w.now))
    case RequestArrived(req, t, c, d) => w.(s := NewRequest(w.s, req, t, c, d, w.now))
    case FirstAnswerArrived(c, d) => w.(s := DialogMade(w.s, c, d, w.now))
    case DialogEnded(c, d) => w.(s := Closed(w.s, d))
    case TransactionMoved(t, state, completed, response) => w.(s := Progressed(w.s, t, state, completed, response))
    case TimerFired(c, d) => w.(s := SetDialog(w.s, d, Resent(DialogOf(w.s, d), w.now)))
    case TimerRanOut(c, d, t, toTag) => w.(s := GivenUp(w.s, c, d, t, toTag, w.now))
    case ReleasePassed => w.(s := ReleasePass(w.s, w.now))
  }

  ghost predicate Good(w: World) {
    Inv(w.s) && Sane(w.s, w.now) && Headed(w.s)
  }

  /** The transaction an event creates. */
  function Created(e: Event): multiset<Ptr> {
    match e
    case CallStarted(_, t) => multiset{t}
    case RequestCalled(_, t, _) => multiset{t}
    case PrackCalled(_, t) => multiset{t}
    case TerminateCalled(_, _, t, _) => multiset{t}
    case RetryCalled(_, _, _, t) => multiset{t}
    case RequestArrived(_, t, _, _) => multiset{t}
    case TimerRanOut(_, _, t, _) => multiset{t}
    case _ => multiset{}
  }

  /** What an event works on. */
  function ScopeOf(w: World, e: Event): Scope {
    var trs := set t | t in Created(e);
    match e
    case CallStarted(_, _) => Scope(w.now, trs, {}, {}, false)
    case AnswerCalled(tid, status, answer) =>
      Scope(w.now, trs, if Starts200(w.s, tid, status, answer).Some? then {Starts200(w.s, tid, status, answer).value} else {}, {}, true)
    case RequestArrived(req, _, _, d) =>
      if OpensCall(w.s, req) then Scope(w.now, trs, {}, {d}, false) else Scope(w.now, trs, {}, {}, true)
    case FirstAnswerArrived(c, d) =>
      if OpensDialog(w.s, c) then Scope(w.now, trs, {}, {d}, false) else Scope(w.now, trs, {}, {}, true)
    case TimerFired(_, d) => Scope(w.now, trs, {d}, {}, true)
    case _ => Scope(w.now, trs, {}, {}, true)
  }

  /** Every event but the passing of time and a step of a transaction machine is gentle in its scope. */
  lemma StepGentle(w: World, e: Event)
    requires Enabled(w, e) && !e.TransactionMoved?
    ensures Gentle(w.s, Step(w, e).s, ScopeOf(w, e))
  {
    hide Gentle, InitialInvite, SendRequest, SendPrack, SendAnswer, Terminate, Retried, NewRequest, DialogMade,
      Closed, Resent, GivenUp, ReleasePass, OpensCall, OpensDialog, Starts200;
    var z := ScopeOf(w, e);
    GentleSelf(w.s, z);
    match e
    case TimePasses(_) =>
    case CallStarted(c, t) => InitialInviteGentle(w.s, w.s, c, t, z);
    case RequestCalled(did, t, m) => SendRequestGentle(w.s, w.s, did, t, m, z);
    case PrackCalled(tid, t) => SendPrackGentle(w.s, w.s, tid, t, z);
    case AnswerCalled(tid, status, answer) => SendAnswerGentle(w.s, w.s, tid, status, answer, z);
    case TerminateCalled(cid, did, t, toTag) => TerminateGentle(w.s, w.s, cid, did, t, toTag, z);
    case RetryCalled(c, d, former, t) => RetriedGentle(w.s, w.s, c, d, former, t, z);
    case RequestArrived(req, t, c, d) => NewRequestGentle(w.s, w.s, req, t, c, d, z);
    case FirstAnswerArrived(c, d) => DialogMadeGentle(w.s, w.s, c, d, z);
    case DialogEnded(c, d) => ClosedGentle(w.s, w.s, d, z);
    case TimerFired(c, d) => ResentGentle(w.s, w.s, d, z);
    case TimerRanOut(c, d, t, toTag) => GivenUpGentle(w.s, w.s, c, d, t, toTag, z);
    case ReleasePassed => ReleasePassGentle(w.s, w.s, z);
  }

  /** A 200 OK that is sent starts its dialog's timer. */
  lemma AnswerStarts(s: Store, tid: Ptr, status: int, answer: Option<int>, now: int)
    ensures var d := Starts200(s, tid, status, answer); var r := SendAnswer(s, tid, status, answer, now);
      d.Some? ==> DialogOf(r, d.value).(id := 0) == Set200Ok(DialogOf(s, d.value), now).(id := 0)
  {
    hide Updated, TransactionFind;
    var d := Starts200(s, tid, status, answer);
    if d.Some? {
      var s1 := SetDialog(s, d.value, Set200Ok(DialogOf(s, d.value), now));
      SameButIdsDialog(s1, Updated(s1), d.value);
    }
  }

  lemma StepSane(w: World, e: Event)
    requires Sane(w.s, w.now) && Enabled(w, e)
    ensures Sane(Step(w, e).s, Step(w, e).now)
  {
    hide Gentle, InitialInvite, SendRequest, SendPrack, SendAnswer, Terminate, Retried, NewRequest, DialogMade,
      Closed, GivenUp, ReleasePass, OpensCall, OpensDialog, Starts200;
    if e.TransactionMoved? || e.TimePasses? { return; }
    StepGentle(w, e);
    match e {
      case AnswerCalled(tid, status, answer) => AnswerStarts(w.s, tid, status, answer, w.now);
      case _ =>
    }
    GentleSane(w.s, Step(w, e).s, ScopeOf(w, e));
  }

  /** Nothing is lost but in a release pass, and nothing comes in but the new transaction. */
  ghost predicate Accounted(w: World, e: Event) {
    var r := Step(w, e);
    if e.ReleasePassed? then Held(r.s) <= Held(w.s)
    else Held(r.s) == Held(w.s) || Held(r.s) == Held(w.s) + Created(e)
  }

  lemma StepInv(w: World, e: Event)
    requires Good(w) && Enabled(w, e)
    ensures Inv(Step(w, e).s) && Accounted(w, e)
  {
    hide Inv, Held, Past, CountsOk, Headed, Retries, InitialInvite, SendRequest, SendPrack, SendAnswer, Terminate, Retried, NewRequest, DialogMade,
      Closed, Progressed, Resent, GivenUp, ReleasePass, Unlisted;
    match e
    case TimePasses(_) =>
    case CallStarted(c, t) => InitialInvitePlaced(w.s, c, t, w.now);
    case RequestCalled(did, t, m) => SendRequestGrown(w.s, did, t, m, w.now);
    case PrackCalled(tid, t) => SendPrackGrown(w.s, tid, t, w.now);
    case AnswerCalled(tid, status, answer) => SendAnswerKeeps(w.s, tid, status, answer, w.now);
    case TerminateCalled(cid, did, t, toTag) => TerminateGrown(w.s, cid, did, t, toTag, w.now);
    case RetryCalled(c, d, former, t) =>
      RetriedAtFront(w.s, c, d, former, w.now);
      RetriedGrown(w.s, c, d, former, t, w.now);
    case RequestArrived(req, t, c, d) => NewRequestExactly(w.s, req, t, c, d, w.now);
    case FirstAnswerArrived(c, d) => DialogMadeKeeps(w.s, c, d, w.now);
    case DialogEnded(c, d) => ClosedKeeps(w.s, c, d);
    case TransactionMoved(t, state, completed, response) => ProgressedKeeps(w.s, t, state, completed, response);
    case TimerFired(c, d) => ResentKeeps(w.s, c, d, w.now);
    case TimerRanOut(c, d, t, toTag) => GivenUpGrown(w.s, c, d, t, toTag, w.now);
    case ReleasePassed => ReleasePassLess(w.s, w.now);
  }

  /** Every event leaves at most the first dialog of a call established. */
  lemma StepHeaded(w: World, e: Event)
    requires Good(w) && Enabled(w, e)
    ensures Headed(Step(w, e).s)
  {
    hide Inv, Sane, Headed, Steady, Retries, InitialInvite, SendRequest, SendPrack, SendAnswer, Terminate, Retried, NewRequest,
      DialogMade, Closed, Progressed, Resent, GivenUp, ReleasePass, OpensCall;
    match e
    case TimePasses(_) =>
    case CallStarted(c, t) => InitialInviteHeaded(w.s, c, t, w.now);
    case RequestCalled(did, t, m) => SendRequestSteady(w.s, did, t, m, w.now); FreshHeaded(w.s, Step(w, e).s, t);
    case PrackCalled(tid, t) => SendPrackSteady(w.s, tid, t, w.now); FreshHeaded(w.s, Step(w, e).s, t);
    case AnswerCalled(tid, status, answer) => SendAnswerHeaded(w.s, tid, status, answer, w.now);
    case TerminateCalled(cid, did, t, toTag) =>
      SteadySelf(w.s, t);
      TerminateSteady(w.s, w.s, cid, did, t, toTag, w.now);
      FreshHeaded(w.s, Step(w, e).s, t);
    case RetryCalled(c, d, former, t) => RetriedHeaded(w.s, c, d, former, t, w.now);
    case RequestArrived(req, t, c, d) =>
      if OpensCall(w.s, req) {
        OpeningHeaded(w.s, req, t, c, d, w.now);
      } else {
        NewRequestSteady(w.s, req, t, c, d, w.now);
        FreshHeaded(w.s, Step(w, e).s, t);
      }
    case FirstAnswerArrived(c, d) => DialogMadeHeaded(w.s, c, d, w.now);
    case DialogEnded(c, d) => ClosedHeaded(w.s, d);
    case TransactionMoved(t, state, completed, response) => ProgressedHeaded(w.s, t, state, completed, response);
    case TimerFired(c, d) => ResentHeaded(w.s, d, w.now);
    case TimerRanOut(c, d, t, toTag) => GivenUpSteady(w.s, c, d, t, toTag, w.now); FreshHeaded(w.s, Step(w, e).s, t);
    case ReleasePassed => ReleasePassHeaded(w.s, w.now);
  }

  lemma FreshHeaded(s: Store, r: Store, t: Ptr)
    requires Inv(s) && Headed(s) && FreshTr(s, t) && Steady(s, r, t)
    ensures Headed(r)
  {
    hide Inv, Headed, Steady;
    FreshNoSlot(s, t);
    SteadyHeaded(s, r, t);
  }

  function Run(w: World, es: seq<Event>): World
    decreases |es|
  {
    if es == [] then w else Run(Step(w, es[0]), es[1..])
  }

  predicate AllEnabled(w: World, es: seq<Event>)
    decreases |es|
  {
    es == [] || (Enabled(w, es[0]) && AllEnabled(Step(w, es[0]), es[1..]))
  }

  lemma {:induction false} RunMore(w: World, es: seq<Event>, e: Event)
    requires AllEnabled(w, es) && Enabled(Run(w, es), e)
    ensures AllEnabled(w, es + [e]) && Run(w, es + [e]) == Step(Run(w, es), e)
    decreases |es|
  {
    hide Enabled, Step;
    if es == [] {
      assert es + [e] == [e] && [e][1..] == [];
      assert AllEnabled(Step(w, e), []) && Run(Step(w, e), []) == Step(w, e);
    } else {
      assert (es + [e])[1..] == es[1..] + [e] && (es + [e])[0] == es[0];
      RunMore(Step(w, es[0]), es[1..], e);
    }
  }

  /**
   In every run, at every moment: no transaction is in two places; no call, dialog or transaction in
   use has been freed; a transaction in a dialog reports to that dialog or to none; the lists are
   newest first; no lost-200 count exceeds five; and no dialog but the first of its call is established.
   */
  lemma {:induction false} RunsAreGood(w: World, es: seq<Event>)
    requires Good(w) && AllEnabled(w, es)
    ensures Good(Run(w, es))
    decreases |es|
  {
    hide Inv, Sane, Headed, Step, Enabled, Held;
    if es != [] {
      StepInv(w, es[0]);
      StepSane(w, es[0]);
      StepHeaded(w, es[0]);
      RunsAreGood(Step(w, es[0]), es[1..]);
    }
  }

  /** eXosip starts with nothing. */
  const START := World(Store([], [], map[], map[], map[], 1), 0)

  lemma StartIsGood()
    ensures Good(START)
  {
    assert Held(START.s) == multiset{};
  }

  /** So every world that can be reached is in order. */
  lemma ReachedIsGood(es: seq<Event>)
    requires AllEnabled(START, es)
    ensures Good(Run(START, es))
  {
    StartIsGood();
    RunsAreGood(START, es);
  }
}
