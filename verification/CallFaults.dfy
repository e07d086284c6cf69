/**
 Where the source follows a pointer without checking it, or after it may have freed it, and exactly when
 that goes wrong. The specification functions go on as if the pointer had been checked; a run of the
 program itself ends there.
 */
module CallFaults {
  import opened Numerals
  import opened CallStore
  import opened CallOps
  import opened CallRelease
  import opened CallHandlers
  import opened CallLookups
  import opened CallTimes
  import opened CallPass
  import opened CallFronts
  import opened CallRuns
  import opened CallScenarios

  // ----- the ACK -----

  /** eXosip_process_ack reads the request of the last incoming INVITE, found or not. */
  predicate AckFaults(s: Store, req: Request) {
    var p := MatchingPlace(s, s.calls, req.matches);
    req.sipMethod == "ACK" && p.Some? && FindLastIncInvite(s, p.value.c, p.value.d).None?
  }

  /** It is NULL exactly if the call did not come in, and no INVITE came in within the dialog. */
  lemma AckFaultsExactly(s: Store, req: Request, c: Ptr, d: Ptr)
    requires req.sipMethod == "ACK" && MatchingPlace(s, s.calls, req.matches) == Some(Place(c, Some(d)))
    ensures AckFaults(s, req) <==>
      CallOf(s, c).incTr == None && forall t | t in DialogOf(s, d).incTrs :: TrOf(s, t).cseqMethod != "INVITE"
  {
    hide MatchingPlace;
  }

  /** It happens in a run: a call goes out, its first answer makes a dialog, and an ACK comes in within it. */
  lemma OutgoingAckFaults(req: Request)
    requires req.sipMethod == "ACK" && req.matches == {10}
    ensures AllEnabled(START, CALLED) && AckFaults(Run(START, CALLED).s, req)
  {
    hide Good, Run, AllEnabled;
    CalledRings();
    var s := Run(START, CALLED).s;
    assert MatchingDialog(s, [10], {10}) == Some(10);
    assert [1][1..] == [];
    assert MatchingPlace(s, s.calls, req.matches) == Some(Place(1, Some(10)));
  }

  // ----- the repeated 200 OK -----

  /** The 200 OK that is sent when the timer of dialog `fired` has fired: that of the first dialog, `from`, if it has one. */
  datatype Sending = Sending(fired: Ptr, from: Ptr, isNull: bool)

  function SendingOf(w: World, e: Event): seq<Sending> {
    if e.TimerFired? && CallOf(w.s, e.c).dialogs != [] then
      var from := CallOf(w.s, e.c).dialogs[0];
      [Sending(e.d, from, !DialogOf(w.s, from).ok200)]
    else []
  }

  function Sendings(w: World, es: seq<Event>): seq<Sending>
    decreases |es|
  {
    if es == [] then [] else SendingOf(w, es[0]) + Sendings(Step(w, es[0]), es[1..])
  }

  lemma {:induction false} SendingsJoin(w: World, es: seq<Event>, fs: seq<Event>)
    ensures Sendings(w, es + fs) == Sendings(w, es) + Sendings(Run(w, es), fs)
    decreases |es|
  {
    hide Step, SendingOf;
    if es == [] {
      assert es + fs == fs;
    } else {
      assert (es + fs)[1..] == es[1..] + fs && (es + fs)[0] == es[0];
      SendingsJoin(Step(w, es[0]), es[1..], fs);
    }
  }

  lemma SendingsOne(w: World, e: Event)
    ensures Sendings(w, [e]) == SendingOf(w, e)
  {
    hide Step, SendingOf;
    assert [e][1..] == [] && Sendings(Step(w, e), []) == [];
  }

  /** In a world that is in order only the first dialog of a call can wait for an ACK. */
  lemma OnlyFirstWaits(w: World, c: Ptr, d: Ptr)
    requires Good(w) && LiveDialog(w.s, c, d) && Waiting(DialogOf(w.s, d))
    ensures First(CallOf(w.s, c).dialogs) == Some(d)
  {
    hide Inv, Sane;
    assert HeadedAt(w.s, c);
  }

  /** So what is sent when a timer fires, which is the first dialog's 200 OK, is the dialog's own, and there is one. */
  lemma SendsOwn(w: World, c: Ptr, d: Ptr)
    requires Good(w) && Enabled(w, TimerFired(c, d))
    ensures SendingOf(w, TimerFired(c, d)) == [Sending(d, d, false)]
  {
    hide Good;
    OnlyFirstWaits(w, c, d);
  }

  predicate OwnOnly(sent: seq<Sending>) {
    forall x | x in sent :: x.from == x.fired && !x.isNull
  }

  /** Over every run: each repeat is of the 200 OK of the dialog whose timer has fired, and none is NULL. */
  lemma {:induction false} RunsSendOwn(w: World, es: seq<Event>)
    requires Good(w) && AllEnabled(w, es)
    ensures OwnOnly(Sendings(w, es))
    decreases |es|
  {
    hide Inv, Sane, Headed, Enabled, Step, SendingOf;
    if es != [] {
      StepInv(w, es[0]);
      StepSane(w, es[0]);
      StepHeaded(w, es[0]);
      RunsSendOwn(Step(w, es[0]), es[1..]);
      if es[0].TimerFired? {
        SendsOwn(w, es[0].c, es[0].d);
      } else {
        NothingSent(w, es[0]);
      }
    }
  }

  lemma NothingSent(w: World, e: Event)
    requires !e.TimerFired?
    ensures SendingOf(w, e) == []
  {
  }

  // ----- the retry -----

  /** _eXosip_call_retry_request lists a transaction that is not the call's own in a dialog, given or not. */
  predicate RetryFaults(s: Store, c: Ptr, d: Option<Ptr>, former: Ptr) {
    TrOf(s, former).response.Some? && CallOf(s, c).outTr != Some(former) && d.None?
  }

  /** From where it is called, it is NULL exactly for the incoming INVITE of a call that has lost its dialogs. */
  lemma RetryFaultsExactly(s: Store, c: Ptr, d: Option<Ptr>, former: Ptr, now: int)
    requires Inv(s) && Retries(s, c, d, former, now)
    ensures RetryFaults(s, c, d, former) <==> d.None? && CallOf(s, c).incTr == Some(former)
    ensures RetryFaults(s, c, d, former) ==> CallOf(s, c).dialogs == []
  {
    hide Inv, TransactionFind, CallsHeld, CallHeld, NamesOk, CallSorted;
    assert Linked(s) && Owned(s) by { InvLinkedOwned(s); }
    TransactionFindExactly(s, former);
    InvShape(s, c);
  }

  /**
   The loop of eXosip_automatic_action goes on with the next pointer of the dialog it has retried for.
   That dialog has been freed exactly if it had no request of its own; the request retried is then the
   call's own, and it names the dialog. (A callback closes the dialog that a rejected INVITE names if
   it is still an early one, so what gets here is a dialog that was confirmed before.)
   */
  lemma AutomaticFreesExactly(s: Store, c: Ptr, d: Ptr, former: Ptr, t: Ptr, now: int)
    requires Inv(s) && Headed(s) && t !in s.trAt && c in s.calls && d in CallOf(s, c).dialogs && DialogOf(s, d).established
    requires ToRetry(s, c, d) == Some(former) && ToRepeat(s, former, now)
    ensures d !in Retried(s, c, Some(d), former, t, now).dialogAt <==> DialogOf(s, d).outTrs == []
    ensures DialogOf(s, d).outTrs == [] ==>
      CallOf(s, c).outTr == Some(former) && Names(s, former) == Some(d) && CallOf(s, c).dialogs[0] == d
  {
    hide Inv, Updated, Unlinked, DrainedInto, InfoDeleted, Own, Names;
    assert HeadedAt(s, c);
    InvShape(s, c);
    var m := TrOf(s, former).cseqMethod;
    var state := if EqualFold(m, "INVITE") then ICT_PRE_CALLING else NICT_PRE_TRYING;
    if DialogOf(s, d).outTrs != [] {
      assert Owned(s) by { InvOwned(s); }
      SlotApart(s, c, d, former);
      UpdatedDialogs(RequestSent(s, c, d, t, m, state, now));
    } else {
      var s1 := DialogFreed(Unlinked(Swapped(s, c, former, t, Born(m, state, now, Some(JInfo(c, None)))), c, d), d);
      UpdatedDialogs(s1);
      UpdatedDialogs(Updated(s1));
    }
  }

  /** What it looks at is a newest request of the dialog, or for a dialog without one the call's own. */
  lemma RetriesNewest(s: Store, c: Ptr, d: Ptr)
    requires DialogSorted(s, d)
    ensures var out := DialogOf(s, d).outTrs; var r := ToRetry(s, c, d);
      if out == [] then r == CallOf(s, c).outTr
      else r.Some? && r.value in out && forall x | x in out :: TrOf(s, x).birth <= TrOf(s, r.value).birth
  {
    var out := DialogOf(s, d).outTrs;
    forall x | out != [] && x in out ensures TrOf(s, x).birth <= TrOf(s, out[0]).birth {
      var i :| 0 <= i < |out| && out[i] == x;
    }
  }

  lemma InvOwned(s: Store)
    requires Inv(s)
    ensures Owned(s)
  {
  }

  lemma UpdatedDialogs(s: Store)
    ensures Updated(s).dialogAt.Keys == s.dialogAt.Keys
  {
    hide Updated;
  }
}
