/**
 What holds over whole runs of calls and dialogs: how often the timer of a 200 OK fires and when, and
 that an ended dialog stays ended.
 */
module CallHistory {
  import opened Numerals
  import opened CallStore
  import opened CallOps
  import opened CallInvariants
  import opened CallRelease
  import opened CallHandlers
  import opened CallSteps
  import opened CallTimes
  import opened CallFronts
  import opened CallRuns
  import opened CallProtocol

  // ----- the timer of a dialog's 200 OK -----

  /** The event sends a 200 OK in dialog d. */
  predicate Starts(w: World, e: Event, d: Ptr) {
    e.AnswerCalled? && Starts200(w.s, e.tid, e.status, e.answer) == Some(d)
  }

  /** No 200 OK is sent in dialog d. */
  predicate NoneStarts(w: World, es: seq<Event>, d: Ptr)
    decreases |es|
  {
    es == [] || (!Starts(w, es[0], d) && NoneStarts(Step(w, es[0]), es[1..], d))
  }

  /** The moments at which the timer of dialog d fires. */
  function Firings(w: World, es: seq<Event>, d: Ptr): seq<int>
    decreases |es|
  {
    if es == [] then []
    else (if es[0].TimerFired? && es[0].d == d then [w.now] else []) + Firings(Step(w, es[0]), es[1..], d)
  }

  /** The first after `after`, and more than four seconds between any two. */
  predicate Spaced(times: seq<int>, after: int) {
    times == [] || (times[0] > after && Spaced(times[1..], times[0] + 4))
  }

  /** How often a timer may still fire. */
  function Left(dialog: Dialog): int {
    if dialog.ok200 then 5 - dialog.count else 0
  }

  lemma StepTime(w: World, e: Event, d: Ptr)
    requires Enabled(w, e) && !Starts(w, e, d) && !(e.TimerFired? && e.d == d)
    ensures TimeKept(DialogOf(w.s, d), DialogOf(Step(w, e).s, d))
  {
    hide Step, Starts200, OpensCall, OpensDialog, LinksLess;
    if e.TransactionMoved? {
      MovedDialogs(w, e);
    } else {
      StepGentle(w, e);
    }
  }

  lemma MovedDialogs(w: World, e: Event)
    requires e.TransactionMoved?
    ensures Step(w, e).s == w.s.(trAt := Step(w, e).s.trAt)
  {
  }

  /**
   In every run without another 200 OK in dialog d, its timer fires at most five times in all, first
   after the moment it is set to and then more than four seconds apart; without a 200 OK to repeat,
   never.
   */
  lemma {:induction false} FiresAtMostFiveTimes(w: World, es: seq<Event>, d: Ptr)
    requires Good(w) && AllEnabled(w, es) && NoneStarts(w, es, d)
    ensures var times := Firings(w, es, d); var x := DialogOf(w.s, d);
      |times| <= Left(x) && Spaced(times, x.timer)
    decreases |es|
  {
    hide Inv, Headed, Step, Starts, Past;
    if es != [] {
      var e, v := es[0], Step(w, es[0]);
      StepInv(w, e);
      StepSane(w, e);
      StepHeaded(w, e);
      FiresAtMostFiveTimes(v, es[1..], d);
      if e.TimerFired? && e.d == d {
        FiringTime(w, e);
        assert Firings(w, es, d)[1..] == Firings(v, es[1..], d);
      } else {
        StepTime(w, e, d);
        assert Firings(w, es, d) == Firings(v, es[1..], d);
      }
    }
  }

  lemma FiringTime(w: World, e: Event)
    requires Enabled(w, e) && e.TimerFired?
    ensures Due(DialogOf(w.s, e.d), w.now) && DialogOf(Step(w, e).s, e.d) == Resent(DialogOf(w.s, e.d), w.now)
  {
  }

  /** From a 200 OK on: at most five times, first more than two seconds later. */
  lemma FiresAfterAnswer(w: World, e: Event, es: seq<Event>, d: Ptr)
    requires Good(w) && AllEnabled(w, [e] + es) && Starts(w, e, d) && NoneStarts(Step(w, e), es, d)
    ensures var times := Firings(Step(w, e), es, d); |times| <= 5 && Spaced(times, w.now + 2)
  {
    hide Inv, Headed, Sane, SendAnswer, Starts200;
    assert ([e] + es)[1..] == es;
    StepInv(w, e);
    StepSane(w, e);
    StepHeaded(w, e);
    AnswerStarts(w.s, e.tid, e.status, e.answer, w.now);
    FiresAtMostFiveTimes(Step(w, e), es, d);
  }

  /** The timer of a 200 OK is due from the third second on. */
  lemma DueAfterAnswer(w: World, e: Event, c: Ptr, d: Ptr, seconds: nat)
    requires Enabled(w, e) && Starts(w, e, d)
    ensures var v := Step(w, e); var x := DialogOf(v.s, d);
      Enabled(Step(v, TimePasses(seconds)), TimerFired(c, d)) <==> LiveDialog(v.s, c, d) && x.established && x.id >= 1 && seconds >= 3
  {
    hide SendAnswer, Starts200;
    AnswerStarts(w.s, e.tid, e.status, e.answer, w.now);
  }

  /** Once it has fired, it is due again from the fifth second on, and after the fifth time no more. */
  lemma DueAfterFiring(w: World, c: Ptr, d: Ptr, seconds: nat)
    requires Enabled(w, TimerFired(c, d)) && DialogOf(w.s, d).count <= 4
    ensures var u := Step(Step(w, TimerFired(c, d)), TimePasses(seconds));
      Enabled(u, TimerFired(c, d)) <==> DialogOf(w.s, d).count < 4 && seconds >= 5
  {
  }

  /** From the ACK on: never. */
  lemma NeverFiresAfterAck(w: World, e: Event, es: seq<Event>, d: Ptr)
    requires Good(w) && AllEnabled(w, [e] + es) && NoneStarts(Step(w, e), es, d)
    requires e.RequestArrived? && e.req.sipMethod == "ACK"
    requires var p := MatchingPlace(w.s, w.s.calls, e.req.matches); p.Some? && p.value.d == Some(d)
    ensures Firings(Step(w, e), es, d) == []
  {
    hide Inv, Headed, Sane, MatchingPlace;
    assert ([e] + es)[1..] == es;
    StepInv(w, e);
    StepSane(w, e);
    StepHeaded(w, e);
    FiresAtMostFiveTimes(Step(w, e), es, d);
  }

  // ----- ended dialogs -----

  /** Dialog d is not freed. */
  predicate AllKeep(w: World, es: seq<Event>, d: Ptr)
    decreases |es|
  {
    d in w.s.dialogAt && (es == [] || AllKeep(Step(w, es[0]), es[1..], d))
  }

  lemma StepEnded(w: World, e: Event, d: Ptr)
    requires Enabled(w, e) && d in w.s.dialogAt && !DialogOf(w.s, d).established
    ensures !DialogOf(Step(w, e).s, d).established
  {
    hide Step, Starts200, OpensCall, OpensDialog, LinksLess, TimeKept;
    if e.TransactionMoved? {
      MovedDialogs(w, e);
    } else {
      StepGentle(w, e);
      assert IdKept(DialogOf(w.s, d), DialogOf(Step(w, e).s, d));
    }
  }

  /** A dialog that has ended stays ended until it is freed: whatever arrives, no request finds it. */
  lemma {:induction false} EndedStaysEnded(w: World, es: seq<Event>, d: Ptr, matches: set<Ptr>)
    requires AllEnabled(w, es) && AllKeep(w, es, d) && !DialogOf(w.s, d).established
    ensures var r := Run(w, es).s; var p := MatchingPlace(r, r.calls, matches);
      !DialogOf(r, d).established && (p.Some? ==> p.value.d != Some(d))
    decreases |es|
  {
    hide Step, Enabled, MatchingPlace;
    if es == [] {
      ClosedNotMatching(w.s, w.s.calls, matches, d);
    } else {
      StepEnded(w, es[0], d);
      EndedStaysEnded(Step(w, es[0]), es[1..], d, matches);
    }
  }

  lemma RunSplit(w: World, e: Event, es: seq<Event>, d: Ptr)
    ensures AllEnabled(w, [e] + es) <==> Enabled(w, e) && AllEnabled(Step(w, e), es)
    ensures Run(w, [e] + es) == Run(Step(w, e), es)
    ensures AllKeep(w, [e] + es, d) <==> d in w.s.dialogAt && AllKeep(Step(w, e), es, d)
  {
    hide Step, Enabled;
    assert ([e] + es)[1..] == es;
  }

  lemma {:induction false} FirstWithFresh(s: Store, l: seq<Ptr>, m: string, exact: bool, t: Ptr, tr: Transaction)
    requires t !in l
    ensures FirstWith(WithTr(s, t, tr), l, m, exact) == FirstWith(s, l, m, exact)
  {
    if l != [] {
      FirstWithFresh(s, l[1..], m, exact, t, tr);
    }
  }

  /** A new transaction is in no dialog's list. */
  lemma FreshUnlisted(s: Store, c: Ptr, d: Ptr, t: Ptr)
    requires Inv(s) && t !in s.trAt && LiveDialog(s, c, d)
    ensures !Listed(s, d, t)
  {
    hide CallsOk, CallHeld, Owned;
    if Listed(s, d, t) {
      ListedHeld(s, c, d, t);
      HeldTwice(s, c, t);
      assert false;
    }
  }

  /**
   The first BYE that is received in a dialog ends it: it is on record as the last one, and from then
   on, until the dialog is freed, no request finds the dialog, whatever it matches.
   */
  lemma ByeEndsDialog(w: World, e: Event, es: seq<Event>, c: Ptr, d: Ptr, matches: set<Ptr>)
    requires Good(w) && AllEnabled(w, [e] + es) && AllKeep(w, [e] + es, d)
    requires e.RequestArrived? && e.req.sipMethod == "BYE" && EqualFold(e.req.cseqMethod, "BYE")
    requires MatchingPlace(w.s, w.s.calls, e.req.matches) == Some(Place(c, Some(d)))
    requires FindLastInc(w.s, d, "BYE").None?
    requires DialogOf(w.s, d).remoteCseq <= 0 || e.req.cseq > DialogOf(w.s, d).remoteCseq
    ensures FindLastInc(Step(w, e).s, d, "BYE") == Some(e.t)
    ensures var r := Run(w, [e] + es).s; var p := MatchingPlace(r, r.calls, matches);
      !DialogOf(r, d).established && (p.Some? ==> p.value.d != Some(d))
  {
    hide Inv, Headed, Sane, MatchingPlace, WithinDialog, AllEnabled, AllKeep, Run, FirstWith, EqualFold;
    RunSplit(w, e, es, d);
    var tr := Born(e.req.cseqMethod, NIST_PRE_TRYING, w.now, None);
    var s1 := WithTr(w.s, e.t, tr);
    assert LiveDialog(w.s, c, d);
    FreshUnlisted(w.s, c, d, e.t);
    FirstWithFresh(w.s, DialogOf(w.s, d).incTrs, "BYE", false, e.t, tr);
    ByeCloses(s1, e.req, e.t, c, d);
    assert Step(w, e).s == WithinDialog(s1, e.req, e.t, c, d);
    EndedStaysEnded(Step(w, e), es, d, matches);
  }

  /** Terminating an established call ends its dialog in the same way: the BYE is the last one sent. */
  lemma TerminateEndsDialog(w: World, e: Event, es: seq<Event>, c: Ptr, d: Ptr, matches: set<Ptr>)
    requires AllEnabled(w, [e] + es) && AllKeep(w, [e] + es, d)
    requires e.TerminateCalled? && e.did > 0 && CallDialogFind(w.s, w.s.calls, e.did) == Some(Place(c, Some(d)))
    requires DialogOf(w.s, d).established && !Provisional(w.s, FindLastOutInvite(w.s, c, Some(d)))
    requires FindLastOutInvite(w.s, c, Some(d)).Some? || e.toTag || !Provisional(w.s, FindLastIncInvite(w.s, c, Some(d)))
    ensures FindLastOut(Step(w, e).s, d, "BYE") == Some(e.t)
    ensures var r := Run(w, [e] + es).s; var p := MatchingPlace(r, r.calls, matches);
      !DialogOf(r, d).established && (p.Some? ==> p.value.d != Some(d))
  {
    hide CallDialogFind, MatchingPlace, TerminatedAt, AllEnabled, AllKeep, Run, FirstWith;
    RunSplit(w, e, es, d);
    TerminateCloses(w.s, c, d, e.t, e.toTag, w.now);
    assert Step(w, e).s == TerminatedAt(w.s, c, Some(d), e.t, e.toTag, w.now);
    EndedStaysEnded(Step(w, e), es, d, matches);
  }
}
