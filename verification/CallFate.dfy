/**
 What becomes of every dialog and every call in a release pass, said in states, ages, answers, methods
 and ids, without the functions the pass is made of.
 */
module CallFate {
  import opened Numerals
  import opened CallStore
  import opened CallOps
  import opened CallInvariants
  import opened CallRelease
  import opened CallTimes
  import opened CallNumbers
  import opened CallPass
  import opened CallLeftovers
  import opened CallTrimming

  // ----- the call's own INVITE -----

  predicate OwnInvite(s: Store, c: Ptr, t: Ptr) {
    CallOf(s, c).incTr == Some(t) || (CallOf(s, c).incTr.None? && CallOf(s, c).outTr == Some(t))
  }

  /** It is over and was refused, or it went out, is over and was never answered. */
  ghost predicate Refused(s: Store, c: Ptr) {
    exists t: Ptr ::
      && OwnInvite(s, c, t) && TrOf(s, t).state in {IST_TERMINATED, ICT_TERMINATED}
      && if TrOf(s, t).response.Some? then 300 <= TrOf(s, t).response.value <= 699 else CallOf(s, c).incTr != Some(t)
  }

  /** The call has none, or it is still not over after three minutes. */
  ghost predicate Forsaken(s: Store, c: Ptr, now: int) {
    forall t: Ptr | OwnInvite(s, c, t) :: TrOf(s, t).state !in {IST_TERMINATED, ICT_TERMINATED} && TrOf(s, t).birth + 180 < now
  }

  lemma OwnInviteIs(s: Store, c: Ptr, now: int)
    ensures Refused(s, c) == Fails(s, c)
    ensures var a := AbortedCalls(s, c, 0, now); !Refused(s, c) ==> a.yes == Forsaken(s, c, now)
  {
    hide DialogRemoved, CallReleased;
    var t := if CallOf(s, c).incTr.Some? then CallOf(s, c).incTr else CallOf(s, c).outTr;
    assert forall x: Ptr :: OwnInvite(s, c, x) <==> t == Some(x);
  }

  lemma AbortedSame(s: Store, c: Ptr, d: Ptr, e: Ptr, now: int)
    ensures AbortedCalls(s, c, d, now).yes == AbortedCalls(s, c, e, now).yes
  {
    hide DialogRemoved, CallReleased;
  }

  lemma OwnInviteSame(s: Store, r: Store, c: Ptr, now: int)
    requires Calm(s, r) && SameSlots(s, r, c)
    ensures Refused(r, c) == Refused(s, c) && Forsaken(r, c, now) == Forsaken(s, c, now)
  {
    hide Calm;
    forall t: Ptr ensures OwnInvite(r, c, t) == OwnInvite(s, c, t) && TrOf(r, t).(info := None) == TrOf(s, t).(info := None) {
      CalmWhole(s, r, t);
    }
  }

  // ----- one visit -----

  /** What makes a visit remove the dialog, or with it the whole call. */
  ghost predicate Breaks(s: Store, c: Ptr, ds: seq<Ptr>, now: int) {
    Refused(s, c) && exists e: Ptr :: e in ds && Idle(s, c, e, now)
  }

  lemma VisitExactly(s: Store, c: Ptr, d: Ptr, now: int)
    requires Inv(s) && c in s.calls && d in CallOf(s, c).dialogs
    ensures var m := Trimming(s, c, d, now);
      && Trimmed(s, m, d) && Inv(m) && c in m.calls && d in CallOf(m, c).dialogs
      && DialogVisited(s, c, d, now) ==
           if Idle(s, c, d, now) && Refused(s, c) then Checked(CallReleased(m, c), true)
           else if Idle(s, c, d, now) && Forsaken(s, c, now) then Checked(DialogRemoved(m, c, d), true)
           else if Ended(s, c, d, now) || (Idle(s, c, d, now) && DialogOf(s, d).id == -1) then Checked(DialogRemoved(m, c, d), false)
           else Checked(m, false)
  {
    hide Inv, Pending, FinishedTransactions, FinishedCalls, AbortedCalls, Trimmed, Alike, Fails, DialogRemoved, CallReleased;
    hide Refused, Forsaken, Idle, Ended;
    AlikeSelf(s, c, d);
    PendingTwin(s, s, c, d, now);
    VisitsExactly(s, c, d, now);
    var p := Pending(s, c, d, now);
    var m := Trimming(s, c, d, now);
    if !p.yes {
      FinishedTwin(p.s, p.s, c, d, now);
      TwinJoin(s, p.s, FinishedTransactions(p.s, c, d, now), s, p.s, FinishedTransactions(p.s, c, d, now), c, d);
      FinishedCallsKind(m, c, d);
      AbortedKind(m, c, d, now);
      AbortedSame(m, c, d, 0, now);
      OwnInviteIs(m, c, now);
      OwnInviteIs(s, c, now);
      TrimmedCalm(s, m, c, d);
      OwnInviteSame(s, m, c, now);
      TrimmedId(s, m, d);
    }
  }

  lemma TrimmedId(s: Store, m: Store, d: Ptr)
    requires Trimmed(s, m, d)
    ensures DialogOf(m, d).id == DialogOf(s, d).id && DialogOf(m, d).established == DialogOf(s, d).established
  {
  }

  // ----- ids after something was freed -----

  lemma RemovedRight(s: Store, c: Ptr, d: Ptr)
    ensures AllRight(DialogRemoved(s, c, d))
  {
    hide Updated, AllRight;
    UpdatedRight(DialogFreed(Unlinked(RefsDropped(s, c, d), c, d), d));
  }

  lemma {:induction false} DrainedRight(s: Store, c: Ptr)
    ensures var r := DialogsDrained(s, c); r.calls == s.calls && (CallOf(s, c).dialogs != [] ==> AllRight(r))
    decreases |CallOf(s, c).dialogs|
  {
    hide Updated, AllRight, SameButIds, DrainedInto, InfoDeleted;
    var ds := CallOf(s, c).dialogs;
    if ds != [] {
      assert Remove(ds, ds[0]) == ds[1..];
      var s1 := DialogFreed(Unlinked(s, c, ds[0]), ds[0]);
      var s2 := Updated(s1);
      SameIdsCalls(s1, s2);
      UpdatedRight(s1);
      assert CallOf(s2, c).dialogs == ds[1..];
      DrainedRight(s2, c);
    }
  }

  lemma ReleasedRight(s: Store, c: Ptr)
    requires Inv(s) && c in s.calls && CallOf(s, c).dialogs != []
    ensures AllRight(CallReleased(s, c))
  {
    hide Inv, DialogsDrained, Fronted, InfoDeleted, Right, Remove;
    var s0 := s.(calls := Remove(s.calls, c));
    assert NoDup(s.calls) by { InvNoDup(s); }
    RemoveNoDup(s.calls, c);
    DrainedRight(s0, c);
    var s1 := DialogsDrained(s0, c);
    assert CallOf(s0, c) == CallOf(s, c);
    var r := CallReleased(s, c);
    forall b: Ptr, e: Ptr | b in r.calls && e in CallOf(r, b).dialogs ensures Right(DialogOf(r, e)) {
      assert b != c && b in s1.calls;
      assert CallOf(r, b) == CallOf(s1, b) && DialogOf(r, e) == DialogOf(s1, e);
    }
  }

  // ----- which dialogs of a call go -----

  /** Where the call is forsaken, the visits stop after the first idle dialog. */
  ghost predicate Stopped(s: Store, c: Ptr, ds: seq<Ptr>, k: nat, now: int)
    requires k <= |ds|
  {
    Forsaken(s, c, now) && exists j :: 0 <= j < k && Idle(s, c, ds[j], now)
  }

  /** Dialog k of the list goes, if its id is -1 or not when it is visited. */
  ghost predicate GoesIf(s: Store, c: Ptr, ds: seq<Ptr>, k: nat, minus: bool, now: int)
    requires k < |ds|
  {
    !Stopped(s, c, ds, k, now) && (Ended(s, c, ds[k], now) || (Idle(s, c, ds[k], now) && (Forsaken(s, c, now) || minus)))
  }

  /** One of the first k goes, as the ids are now. */
  ghost predicate SomeGoes(s: Store, c: Ptr, ds: seq<Ptr>, k: nat, now: int)
    requires k <= |ds|
  {
    exists j :: 0 <= j < k && GoesIf(s, c, ds, j, DialogOf(s, ds[j]).id == -1, now)
  }

  /** Once a dialog has gone, those that are not established have the id -1, and the others another. */
  ghost predicate Goes(s: Store, c: Ptr, ds: seq<Ptr>, k: nat, early: bool, now: int)
    requires k < |ds|
  {
    GoesIf(s, c, ds, k, if early || SomeGoes(s, c, ds, k, now) then !DialogOf(s, ds[k]).established else DialogOf(s, ds[k]).id == -1, now)
  }

  /** The visits of ds remove something. */
  ghost predicate Removes(s: Store, c: Ptr, ds: seq<Ptr>, now: int) {
    Breaks(s, c, ds, now) || SomeGoes(s, c, ds, |ds|, now)
  }

  // ----- one dialog less -----

  lemma GoesIfShift(s: Store, c: Ptr, ds: seq<Ptr>, k: nat, minus: bool, now: int)
    requires k + 1 < |ds| && !(Forsaken(s, c, now) && Idle(s, c, ds[0], now))
    ensures GoesIf(s, c, ds, k + 1, minus, now) == GoesIf(s, c, ds[1..], k, minus, now)
  {
    hide Forsaken, Idle, Ended;
    StoppedShift(s, c, ds, k, now);
    assert ds[1..][k] == ds[k + 1];
  }

  lemma StoppedShift(s: Store, c: Ptr, ds: seq<Ptr>, k: nat, now: int)
    requires k < |ds| && !(Forsaken(s, c, now) && Idle(s, c, ds[0], now))
    ensures Stopped(s, c, ds, k + 1, now) == Stopped(s, c, ds[1..], k, now)
  {
    hide Forsaken, Idle;
    assert forall j | 0 <= j < k :: ds[1..][j] == ds[j + 1];
  }

  lemma SomeGoesShift(s: Store, c: Ptr, ds: seq<Ptr>, k: nat, now: int)
    requires k < |ds| && !(Forsaken(s, c, now) && Idle(s, c, ds[0], now))
    ensures SomeGoes(s, c, ds, k + 1, now) <==>
      GoesIf(s, c, ds, 0, DialogOf(s, ds[0]).id == -1, now) || SomeGoes(s, c, ds[1..], k, now)
  {
    hide GoesIf;
    forall j: nat, minus: bool | j < k ensures GoesIf(s, c, ds, j + 1, minus, now) == GoesIf(s, c, ds[1..], j, minus, now) {
      GoesIfShift(s, c, ds, j, minus, now);
    }
    if SomeGoes(s, c, ds, k + 1, now) {
      var j :| 0 <= j < k + 1 && GoesIf(s, c, ds, j, DialogOf(s, ds[j]).id == -1, now);
      if j > 0 {
        assert ds[1..][j - 1] == ds[j];
        assert GoesIf(s, c, ds[1..], j - 1, DialogOf(s, ds[1..][j - 1]).id == -1, now);
      }
    }
    if SomeGoes(s, c, ds[1..], k, now) {
      var j :| 0 <= j < k && GoesIf(s, c, ds[1..], j, DialogOf(s, ds[1..][j]).id == -1, now);
      assert ds[1..][j] == ds[j + 1];
      assert GoesIf(s, c, ds, j + 1, DialogOf(s, ds[j + 1]).id == -1, now);
    }
  }

  lemma GoesShift(s: Store, c: Ptr, ds: seq<Ptr>, k: nat, early: bool, now: int)
    requires k + 1 < |ds| && !(Forsaken(s, c, now) && Idle(s, c, ds[0], now))
    ensures Goes(s, c, ds, k + 1, early, now) == Goes(s, c, ds[1..], k, early || GoesIf(s, c, ds, 0, DialogOf(s, ds[0]).id == -1, now), now)
  {
    hide GoesIf, SomeGoes, Forsaken, Idle;
    SomeGoesShift(s, c, ds, k, now);
    GoesIfShift(s, c, ds, k, true, now);
    GoesIfShift(s, c, ds, k, false, now);
    assert ds[1..][k] == ds[k + 1];
  }

  // ----- the same in another store -----

  /** The dialogs ds of call c are judged alike in both stores, but for their ids. */
  ghost predicate Judged(s: Store, r: Store, c: Ptr, ds: seq<Ptr>, now: int) {
    && Refused(r, c) == Refused(s, c) && Forsaken(r, c, now) == Forsaken(s, c, now)
    && forall e: Ptr | e in ds ::
         && Idle(r, c, e, now) == Idle(s, c, e, now) && Ended(r, c, e, now) == Ended(s, c, e, now)
         && DialogOf(r, e).established == DialogOf(s, e).established
  }

  ghost predicate SameIds(s: Store, r: Store, ds: seq<Ptr>) {
    forall e: Ptr | e in ds :: DialogOf(r, e).id == DialogOf(s, e).id
  }

  lemma GoesIfJudged(s: Store, r: Store, c: Ptr, ds: seq<Ptr>, k: nat, minus: bool, now: int)
    requires Judged(s, r, c, ds, now) && k < |ds|
    ensures GoesIf(r, c, ds, k, minus, now) == GoesIf(s, c, ds, k, minus, now)
  {
    hide Forsaken, Refused, Idle, Ended;
    assert forall j | 0 <= j < |ds| :: ds[j] in ds;
    assert Stopped(r, c, ds, k, now) == Stopped(s, c, ds, k, now);
  }

  lemma SomeGoesJudged(s: Store, r: Store, c: Ptr, ds: seq<Ptr>, k: nat, now: int)
    requires Judged(s, r, c, ds, now) && SameIds(s, r, ds) && k <= |ds|
    ensures SomeGoes(r, c, ds, k, now) == SomeGoes(s, c, ds, k, now)
  {
    hide GoesIf, Judged;
    forall j: nat | j < k
      ensures GoesIf(r, c, ds, j, DialogOf(r, ds[j]).id == -1, now) == GoesIf(s, c, ds, j, DialogOf(s, ds[j]).id == -1, now)
    {
      GoesIfJudged(s, r, c, ds, j, DialogOf(s, ds[j]).id == -1, now);
      assert ds[j] in ds;
    }
  }

  lemma GoesJudged(s: Store, r: Store, c: Ptr, ds: seq<Ptr>, k: nat, early: bool, now: int)
    requires Judged(s, r, c, ds, now) && SameIds(s, r, ds) && k < |ds|
    ensures Goes(r, c, ds, k, early, now) == Goes(s, c, ds, k, early, now)
  {
    hide GoesIf, SomeGoes, Idle, Ended, Forsaken, Refused;
    SomeGoesJudged(s, r, c, ds, k, now);
    GoesIfJudged(s, r, c, ds, k, true, now);
    GoesIfJudged(s, r, c, ds, k, false, now);
    assert ds[k] in ds;
  }

  /** Where all ids are right, it makes no difference whether one went before. */
  lemma GoesRight(s: Store, r: Store, c: Ptr, ds: seq<Ptr>, k: nat, early: bool, now: int)
    requires Judged(s, r, c, ds, now) && k < |ds| && Right(DialogOf(r, ds[k]))
    ensures Goes(r, c, ds, k, early, now) == Goes(s, c, ds, k, true, now)
  {
    hide GoesIf, SomeGoes, Idle, Ended, Forsaken, Refused;
    GoesIfJudged(s, r, c, ds, k, true, now);
    GoesIfJudged(s, r, c, ds, k, false, now);
    assert ds[k] in ds;
  }

  lemma EndsAlike(s: Store, r: Store, c: Ptr, d: Ptr, now: int)
    requires Ready(s, r, c, d)
    ensures Ends(r, c, d, now) == Ends(s, c, d, now)
    ensures DialogOf(Trimming(r, c, d, now), d).incTrs == DialogOf(Trimming(s, c, d, now), d).incTrs
    ensures DialogOf(Trimming(r, c, d, now), d).outTrs == DialogOf(Trimming(s, c, d, now), d).outTrs
  {
    hide Inv, Pending, FinishedTransactions, FinishedCalls, Trimmed, Calm, SameSlots;
    var p, q := Pending(s, c, d, now), Pending(r, c, d, now);
    PendingTwin(s, r, c, d, now);
    var f, g := FinishedTransactions(p.s, c, d, now), FinishedTransactions(q.s, c, d, now);
    FinishedTwin(p.s, q.s, c, d, now);
    FinishedCallsAlike(f.s, g.s, c, d);
  }

  lemma DialogJudged(s: Store, r: Store, c: Ptr, d: Ptr, now: int)
    requires Ready(s, r, c, d)
    ensures Idle(r, c, d, now) == Idle(s, c, d, now) && Ended(r, c, d, now) == Ended(s, c, d, now)
    ensures DialogOf(r, d).established == DialogOf(s, d).established
  {
    hide Inv, Calm, Reaches, Ends, Idle, Ended;
    ReachesAlike(s, r, c, d, now);
    EndsAlike(s, r, c, d, now);
    VisitsExactly(s, c, d, now);
    VisitsExactly(r, c, d, now);
  }

  lemma ReadyJudged(s: Store, r: Store, c: Ptr, ds: seq<Ptr>, now: int)
    requires Calm(s, r) && SameSlots(s, r, c) && forall e: Ptr | e in ds :: Ready(s, r, c, e)
    ensures Judged(s, r, c, ds, now)
  {
    hide Calm, Ready, SameSlots, Refused, Forsaken, Idle, Ended;
    OwnInviteSame(s, r, c, now);
    forall e: Ptr | e in ds ensures Idle(r, c, e, now) == Idle(s, c, e, now) && Ended(r, c, e, now) == Ended(s, c, e, now)
      ensures DialogOf(r, e).established == DialogOf(s, e).established
    {
      DialogJudged(s, r, c, e, now);
    }
  }

  // ----- the visits to the dialogs of a call -----

  /** Nothing is unlinked, and no id changes. */
  ghost predicate Untouched(s: Store, r: Store) {
    && r.calls == s.calls && r.callAt == s.callAt
    && forall e: Ptr :: DialogOf(r, e).id == DialogOf(s, e).id && DialogOf(r, e).established == DialogOf(s, e).established
  }

  lemma UntouchedRight(s: Store, r: Store)
    requires Untouched(s, r) && AllRight(s)
    ensures AllRight(r)
  {
    forall b: Ptr, e: Ptr | b in r.calls && e in CallOf(r, b).dialogs ensures Right(DialogOf(r, e)) {
      assert e in CallOf(s, b).dialogs;
    }
  }

  lemma TrimmedUntouched(s: Store, m: Store, d: Ptr)
    requires Trimmed(s, m, d)
    ensures Untouched(s, m)
  {
    forall e: Ptr ensures DialogOf(m, e).id == DialogOf(s, e).id && DialogOf(m, e).established == DialogOf(s, e).established {
      assert e != d ==> DialogOf(m, e) == DialogOf(s, e);
    }
  }

  /** Dialogs to be visited. */
  ghost predicate ToVisit(s: Store, c: Ptr, ds: seq<Ptr>) {
    Inv(s) && c in s.calls && NoDup(ds) && forall d | d in ds :: d in CallOf(s, c).dialogs
  }

  predicate SameLists(s: Store, r: Store, d: Ptr) {
    DialogOf(r, d).incTrs == DialogOf(s, d).incTrs && DialogOf(r, d).outTrs == DialogOf(s, d).outTrs
  }

  /** The visit of dialog d, unless it releases the call. */
  ghost predicate Step(s: Store, v: Checked, c: Ptr, d: Ptr, goes: bool, now: int) {
    && Inv(v.s) && Aside(s, v.s, c, d) && v.yes == (Forsaken(s, c, now) && Idle(s, c, d, now))
    && CallOf(v.s, c).dialogs == (if goes then Remove(CallOf(s, c).dialogs, d) else CallOf(s, c).dialogs)
    && (goes ==> AllRight(v.s)) && (!goes ==> Untouched(s, v.s) && SameLists(Trimming(s, c, d, now), v.s, d))
  }

  lemma VisitStep(s: Store, c: Ptr, ds: seq<Ptr>, now: int)
    requires ToVisit(s, c, ds) && ds != [] && !(Refused(s, c) && Idle(s, c, ds[0], now))
    ensures Step(s, DialogVisited(s, c, ds[0], now), c, ds[0], GoesIf(s, c, ds, 0, DialogOf(s, ds[0]).id == -1, now), now)
  {
    hide Inv, Trimmed, Aside, Refused, Forsaken, Idle, Ended, Trimming, DialogVisited, DialogRemoved, CallReleased;
    hide Remove, AllRight, Untouched, NoDup, Fails, Reaches;
    var d := ds[0];
    VisitExactly(s, c, d, now);
    VisitsExactly(s, c, d, now);
    OwnInviteIs(s, c, now);
    VisitFrame(s, c, d, now);
    var m := Trimming(s, c, d, now);
    TrimmedUntouched(s, m, d);
    TrimmedCalm(s, m, c, d);
    RemovedRight(m, c, d);
    DialogRemovedKeeps(m, c, d);
    IdleNotEnded(s, c, d, now);
  }

  lemma IdleNotEnded(s: Store, c: Ptr, d: Ptr, now: int)
    ensures !(Idle(s, c, d, now) && Ended(s, c, d, now))
  {
    hide Quiet, ByeOver;
  }

  /** The dialogs still to visit are linked as before. */
  lemma StepToVisit(s: Store, v: Checked, c: Ptr, ds: seq<Ptr>, goes: bool, now: int)
    requires ToVisit(s, c, ds) && ds != [] && Step(s, v, c, ds[0], goes, now)
    ensures ToVisit(v.s, c, ds[1..]) && forall e: Ptr | e in ds[1..] :: e != ds[0] && e in CallOf(s, c).dialogs
  {
    hide Inv, Aside, Forsaken, Idle, Remove, AllRight, Untouched, SameLists;
    assert ds == [ds[0]] + ds[1..];
    assert v.s.calls == s.calls by { AsideSlots(s, v.s, c, ds[0]); }
    RemoveContents(CallOf(s, c).dialogs, ds[0]);
    assert forall e | e in ds[1..] :: e in ds;
  }

  lemma StepReady(s: Store, v: Checked, c: Ptr, ds: seq<Ptr>, goes: bool, now: int)
    requires ToVisit(s, c, ds) && ds != [] && Step(s, v, c, ds[0], goes, now)
    ensures forall e: Ptr | e in ds[1..] :: Ready(s, v.s, c, e)
  {
    hide Inv, Aside, Ready, Forsaken, Idle, Remove, AllRight, Untouched, SameLists, ToVisit;
    assert Inv(s) && c in s.calls by { VisitInv(s, c, ds); }
    StepToVisit(s, v, c, ds, goes, now);
    forall e: Ptr | e in ds[1..] ensures Ready(s, v.s, c, e) {
      AsideReady(s, v.s, c, ds[0], e);
    }
  }

  lemma VisitInv(s: Store, c: Ptr, ds: seq<Ptr>)
    requires ToVisit(s, c, ds)
    ensures Inv(s) && c in s.calls
  {
    hide Inv;
  }

  /** They are judged as before. */
  lemma StepJudged(s: Store, v: Checked, c: Ptr, ds: seq<Ptr>, goes: bool, now: int)
    requires ToVisit(s, c, ds) && ds != [] && Step(s, v, c, ds[0], goes, now)
    ensures ToVisit(v.s, c, ds[1..]) && Judged(s, v.s, c, ds[1..], now)
    ensures forall e: Ptr | e in ds[1..] :: Ready(s, v.s, c, e)
    ensures if goes then forall e: Ptr | e in ds[1..] :: Right(DialogOf(v.s, e)) else SameIds(s, v.s, ds[1..])
  {
    hide Inv, Aside, Judged, Ready, Forsaken, Idle, Right;
    StepToVisit(s, v, c, ds, goes, now);
    StepReady(s, v, c, ds, goes, now);
    AsideSlots(s, v.s, c, ds[0]);
    ReadyJudged(s, v.s, c, ds[1..], now);
  }

  lemma BreaksShift(s: Store, c: Ptr, ds: seq<Ptr>, now: int)
    requires ds != []
    ensures Breaks(s, c, ds, now) <==> (Refused(s, c) && Idle(s, c, ds[0], now)) || Breaks(s, c, ds[1..], now)
  {
    hide Refused, Idle;
    assert ds == [ds[0]] + ds[1..];
  }

  lemma BreaksJudged(s: Store, r: Store, c: Ptr, ds: seq<Ptr>, now: int)
    requires Judged(s, r, c, ds, now)
    ensures Breaks(r, c, ds, now) == Breaks(s, c, ds, now)
  {
    hide Refused, Idle, Ended, Forsaken;
  }

  /** A dialog that is not visited stays or not as before, with its lists. */
  lemma {:induction false} LoopElse(s: Store, c: Ptr, ds: seq<Ptr>, d: Ptr, now: int)
    requires ToVisit(s, c, ds) && d !in ds && !Breaks(s, c, ds, now)
    ensures var r := DialogsVisited(s, c, ds, now);
      && c in r.calls && (d in CallOf(r, c).dialogs <==> d in CallOf(s, c).dialogs)
      && (d in CallOf(s, c).dialogs ==> SameLists(s, r, d))
    decreases |ds|
  {
    hide Inv, DialogVisited, Forsaken, Refused, Idle, Ended, Right, Breaks, Judged, Ready, NoDup, GoesIf, AllRight, Untouched, Trimming, Remove;
    if ds != [] {
      BreaksShift(s, c, ds, now);
      var v := DialogVisited(s, c, ds[0], now);
      var goes := GoesIf(s, c, ds, 0, DialogOf(s, ds[0]).id == -1, now);
      VisitStep(s, c, ds, now);
      StepJudged(s, v, c, ds, goes, now);
      BreaksJudged(s, v.s, c, ds[1..], now);
      RemoveContents(CallOf(s, c).dialogs, ds[0]);
      AsideElse(s, v.s, c, ds[0], d);
      if !v.yes {
        LoopElse(v.s, c, ds[1..], d, now);
      }
    }
  }

  lemma AsideElse(s: Store, r: Store, c: Ptr, e: Ptr, d: Ptr)
    requires Aside(s, r, c, e) && d != e
    ensures r.calls == s.calls && (d in CallOf(s, c).dialogs ==> SameLists(s, r, d))
  {
    hide Calm, SameCall, Remove;
  }

  /** Dialog k of those visited stays or goes, and with what is left in its lists. */
  lemma {:induction false} LoopFate(s: Store, c: Ptr, ds: seq<Ptr>, k: nat, now: int)
    requires ToVisit(s, c, ds) && k < |ds| && !Breaks(s, c, ds, now)
    ensures var r := DialogsVisited(s, c, ds, now);
      && c in r.calls && (ds[k] in CallOf(r, c).dialogs <==> !Goes(s, c, ds, k, false, now))
      && (ds[k] in CallOf(r, c).dialogs ==> SameLists(if Stopped(s, c, ds, k, now) then s else Trimming(s, c, ds[k], now), r, ds[k]))
    decreases |ds|
  {
    hide Inv, DialogVisited, Forsaken, Refused, Idle, Ended, Right, Breaks, Judged, Ready, NoDup;
    hide GoesIf, Goes, AllRight, Untouched, Trimming, Remove, Stopped;
    BreaksShift(s, c, ds, now);
    var v := DialogVisited(s, c, ds[0], now);
    var goes := GoesIf(s, c, ds, 0, DialogOf(s, ds[0]).id == -1, now);
    VisitStep(s, c, ds, now);
    StepJudged(s, v, c, ds, goes, now);
    BreaksJudged(s, v.s, c, ds[1..], now);
    RemoveContents(CallOf(s, c).dialogs, ds[0]);
    FirstApart(s, c, ds);
    if k == 0 {
      FirstGoes(s, c, ds, now);
      if !v.yes {
        LoopElse(v.s, c, ds[1..], ds[0], now);
      }
    } else {
      assert ds[k] == ds[1..][k - 1] && ds[k] in ds[1..];
      AsideElse(s, v.s, c, ds[0], ds[k]);
      if v.yes {
        StoppedGoes(s, c, ds, k, now);
      } else {
        NextGoes(s, v.s, c, ds, k, goes, now);
        EndsAlike(s, v.s, c, ds[k], now);
        LoopFate(v.s, c, ds[1..], k - 1, now);
      }
    }
  }

  /** After the visit of the first dialog, the fate of dialog k is what it was before it. */
  lemma NextGoes(s: Store, r: Store, c: Ptr, ds: seq<Ptr>, k: nat, goes: bool, now: int)
    requires 0 < k < |ds| && !(Forsaken(s, c, now) && Idle(s, c, ds[0], now)) && Judged(s, r, c, ds[1..], now)
    requires goes == GoesIf(s, c, ds, 0, DialogOf(s, ds[0]).id == -1, now)
    requires if goes then forall e: Ptr | e in ds[1..] :: Right(DialogOf(r, e)) else SameIds(s, r, ds[1..])
    ensures Goes(r, c, ds[1..], k - 1, false, now) == Goes(s, c, ds, k, false, now)
    ensures Stopped(r, c, ds[1..], k - 1, now) == Stopped(s, c, ds, k, now)
  {
    hide Forsaken, Idle, Right, Judged, GoesIf, Goes, Stopped, SameIds;
    assert ds[1..][k - 1] in ds[1..];
    GoesShift(s, c, ds, k - 1, false, now);
    StoppedShift(s, c, ds, k - 1, now);
    StoppedJudged(s, r, c, ds[1..], k - 1, now);
    if goes {
      GoesRight(s, r, c, ds[1..], k - 1, false, now);
    } else {
      GoesJudged(s, r, c, ds[1..], k - 1, false, now);
    }
  }

  lemma FirstApart(s: Store, c: Ptr, ds: seq<Ptr>)
    requires ToVisit(s, c, ds) && ds != []
    ensures ds[0] in CallOf(s, c).dialogs && ds[0] !in Remove(CallOf(s, c).dialogs, ds[0]) && ds[0] !in ds[1..]
  {
    hide Inv, Remove;
    assert NoDup(CallOf(s, c).dialogs) by { InvApart(s, c); }
    RemoveNoDup(CallOf(s, c).dialogs, ds[0]);
  }

  lemma FirstGoes(s: Store, c: Ptr, ds: seq<Ptr>, now: int)
    requires ds != []
    ensures Goes(s, c, ds, 0, false, now) == GoesIf(s, c, ds, 0, DialogOf(s, ds[0]).id == -1, now) && !Stopped(s, c, ds, 0, now)
  {
    hide GoesIf, Forsaken, Idle;
  }

  lemma StoppedGoes(s: Store, c: Ptr, ds: seq<Ptr>, k: nat, now: int)
    requires 0 < k < |ds| && Forsaken(s, c, now) && Idle(s, c, ds[0], now)
    ensures Stopped(s, c, ds, k, now) && !Goes(s, c, ds, k, false, now)
  {
    hide Forsaken, Idle, Ended;
  }

  lemma StoppedJudged(s: Store, r: Store, c: Ptr, ds: seq<Ptr>, k: nat, now: int)
    requires Judged(s, r, c, ds, now) && k <= |ds|
    ensures Stopped(r, c, ds, k, now) == Stopped(s, c, ds, k, now)
  {
    hide Forsaken, Idle, Ended, Refused;
    assert forall j | 0 <= j < |ds| :: ds[j] in ds;
  }

  lemma RemovesShift(s: Store, c: Ptr, ds: seq<Ptr>, now: int)
    requires ds != [] && !(Forsaken(s, c, now) && Idle(s, c, ds[0], now)) && !(Refused(s, c) && Idle(s, c, ds[0], now))
    ensures Removes(s, c, ds, now) <==> GoesIf(s, c, ds, 0, DialogOf(s, ds[0]).id == -1, now) || Removes(s, c, ds[1..], now)
  {
    hide Forsaken, Refused, Idle, Breaks, SomeGoes, GoesIf;
    BreaksShift(s, c, ds, now);
    SomeGoesShift(s, c, ds, |ds| - 1, now);
  }

  lemma RemovesFirst(s: Store, c: Ptr, ds: seq<Ptr>, now: int)
    requires ds != []
    ensures GoesIf(s, c, ds, 0, DialogOf(s, ds[0]).id == -1, now) ==> Removes(s, c, ds, now)
    ensures (Forsaken(s, c, now) || Refused(s, c)) && Idle(s, c, ds[0], now) ==> Removes(s, c, ds, now)
    ensures Forsaken(s, c, now) && Idle(s, c, ds[0], now) ==> GoesIf(s, c, ds, 0, DialogOf(s, ds[0]).id == -1, now)
  {
    hide Forsaken, Refused, Idle, Ended;
  }

  lemma RemovesJudged(s: Store, r: Store, c: Ptr, ds: seq<Ptr>, now: int)
    requires Judged(s, r, c, ds, now) && SameIds(s, r, ds)
    ensures Removes(r, c, ds, now) == Removes(s, c, ds, now)
  {
    hide Breaks, SomeGoes, Judged;
    BreaksJudged(s, r, c, ds, now);
    SomeGoesJudged(s, r, c, ds, |ds|, now);
  }

  /** After the visits all ids are right if anything went, and as before otherwise; the call is released where it breaks. */
  lemma {:induction false} LoopRemoves(s: Store, c: Ptr, ds: seq<Ptr>, now: int)
    requires ToVisit(s, c, ds)
    ensures var r := DialogsVisited(s, c, ds, now);
      && (if Removes(s, c, ds, now) then AllRight(r) else Untouched(s, r))
      && (Breaks(s, c, ds, now) ==> r.calls == Remove(s.calls, c))
    decreases |ds|
  {
    hide Inv, DialogVisited, Forsaken, Refused, Idle, Ended, Right, Breaks, Judged, Ready, NoDup;
    hide GoesIf, AllRight, Untouched, Trimming, Remove, Removes;
    if ds == [] {
      NothingRemoves(s, c, now);
    } else {
      BreaksShift(s, c, ds, now);
      RemovesFirst(s, c, ds, now);
      var v := DialogVisited(s, c, ds[0], now);
      if Refused(s, c) && Idle(s, c, ds[0], now) {
        ReleaseStep(s, c, ds[0], now);
      } else {
        var goes := GoesIf(s, c, ds, 0, DialogOf(s, ds[0]).id == -1, now);
        VisitStep(s, c, ds, now);
        NotForsaken(s, c, ds, now);
        if !v.yes {
          StepJudged(s, v, c, ds, goes, now);
          BreaksJudged(s, v.s, c, ds[1..], now);
          RemovesShift(s, c, ds, now);
          LoopRemoves(v.s, c, ds[1..], now);
          AsideSlots(s, v.s, c, ds[0]);
          var r := DialogsVisited(v.s, c, ds[1..], now);
          if goes {
            if !Removes(v.s, c, ds[1..], now) {
              UntouchedRight(v.s, r);
            }
          } else {
            RemovesJudged(s, v.s, c, ds[1..], now);
            if !Removes(s, c, ds, now) {
              UntouchedJoin(s, v.s, r);
            }
          }
        }
      }
    }
  }

  lemma UntouchedJoin(a: Store, b: Store, s: Store)
    requires Untouched(a, b) && Untouched(b, s)
    ensures Untouched(a, s)
  {
    forall e: Ptr ensures DialogOf(s, e).id == DialogOf(a, e).id && DialogOf(s, e).established == DialogOf(a, e).established {
      assert DialogOf(b, e).id == DialogOf(a, e).id && DialogOf(b, e).established == DialogOf(a, e).established;
    }
  }

  lemma NothingRemoves(s: Store, c: Ptr, now: int)
    ensures !Removes(s, c, [], now) && !Breaks(s, c, [], now) && Untouched(s, s)
  {
    hide Refused;
  }

  /** A call is not forsaken and refused at a time. */
  lemma NotForsaken(s: Store, c: Ptr, ds: seq<Ptr>, now: int)
    ensures !(Forsaken(s, c, now) && Breaks(s, c, ds, now))
  {
    hide Idle;
  }

  lemma ReleaseStep(s: Store, c: Ptr, d: Ptr, now: int)
    requires Inv(s) && c in s.calls && d in CallOf(s, c).dialogs && Refused(s, c) && Idle(s, c, d, now)
    ensures var v := DialogVisited(s, c, d, now); v.yes && v.s.calls == Remove(s.calls, c) && AllRight(v.s)
  {
    hide Inv, Trimmed, Refused, Forsaken, Idle, Ended, Trimming, DialogVisited, DialogRemoved, CallReleased, Remove, AllRight;
    VisitExactly(s, c, d, now);
    var m := Trimming(s, c, d, now);
    TrimmedCalm(s, m, c, d);
    ReleasedRight(m, c);
    ReleasedSpares(m, c);
  }

  // ----- the visits to all calls -----

  /** A dialog of one of the first i calls goes. */
  ghost predicate EarlierGoes(s: Store, cs: seq<Ptr>, i: nat, now: int)
    requires i <= |cs|
  {
    exists h :: 0 <= h < i && Removes(s, cs[h], CallOf(s, cs[h]).dialogs, now)
  }

  /** A call that is spared is judged as before, whatever became of the ids. */
  lemma SparedJudged(s: Store, r: Store, c: Ptr, now: int)
    requires Inv(s) && c in s.calls && Spared(s, r, c)
    ensures Judged(s, r, c, CallOf(s, c).dialogs, now) && CallOf(r, c).dialogs == CallOf(s, c).dialogs
    ensures forall e: Ptr | e in CallOf(s, c).dialogs :: Ready(s, r, c, e)
  {
    hide Inv, Spared, Ready, Judged, Calm, SameSlots;
    SparedDialogs(s, r, c);
    forall e: Ptr | e in CallOf(s, c).dialogs ensures Ready(s, r, c, e) {
      SparedReady(s, r, c, e);
    }
    ReadyJudged(s, r, c, CallOf(s, c).dialogs, now);
  }

  /** Calls to be visited. */
  ghost predicate ToVisitCalls(s: Store, cs: seq<Ptr>) {
    Inv(s) && NoDup(cs) && forall b | b in cs :: b in s.calls
  }

  lemma CallToVisit(s: Store, c: Ptr)
    requires Inv(s) && c in s.calls
    ensures ToVisit(s, c, CallOf(s, c).dialogs)
  {
    hide Inv;
    InvApart(s, c);
  }

  /** After the visits to the first call, the others are as before, except for ids where something went. */
  lemma FirstCallFate(s: Store, cs: seq<Ptr>, now: int)
    requires ToVisitCalls(s, cs) && cs != []
    ensures var s1 := DialogsVisited(s, cs[0], CallOf(s, cs[0]).dialogs, now);
      && ToVisitCalls(s1, cs[1..])
      && (forall b: Ptr | b in cs[1..] :: b != cs[0] && b in s.calls && Spared(s, s1, b))
      && (if Removes(s, cs[0], CallOf(s, cs[0]).dialogs, now) then AllRight(s1) else Untouched(s, s1))
  {
    hide Inv, Spared, Removes, AllRight, Untouched, DialogsVisited, ToVisit, NoDup;
    FirstCall(s, cs, now);
    CallToVisit(s, cs[0]);
    LoopRemoves(s, cs[0], CallOf(s, cs[0]).dialogs, now);
    assert cs == [cs[0]] + cs[1..];
  }

  lemma EarlierShift(s: Store, s1: Store, cs: seq<Ptr>, i: nat, now: int)
    requires cs != [] && i < |cs| && Inv(s) && (forall b: Ptr | b in cs[1..] :: b in s.calls && Spared(s, s1, b))
    requires !Removes(s, cs[0], CallOf(s, cs[0]).dialogs, now) && Untouched(s, s1)
    ensures EarlierGoes(s1, cs[1..], i, now) == EarlierGoes(s, cs, i + 1, now)
  {
    hide Inv, Spared, Removes, Judged;
    forall h: nat | h < |cs| - 1
      ensures Removes(s1, cs[1..][h], CallOf(s1, cs[1..][h]).dialogs, now) == Removes(s, cs[h + 1], CallOf(s, cs[h + 1]).dialogs, now)
    {
      var b := cs[1..][h];
      assert b == cs[h + 1] && b in cs[1..];
      SparedJudged(s, s1, b, now);
      RemovesJudged(s, s1, b, CallOf(s, b).dialogs, now);
    }
    if EarlierGoes(s, cs, i + 1, now) {
      var h :| 0 <= h < i + 1 && Removes(s, cs[h], CallOf(s, cs[h]).dialogs, now);
      assert Removes(s1, cs[1..][h - 1], CallOf(s1, cs[1..][h - 1]).dialogs, now);
    }
    if EarlierGoes(s1, cs[1..], i, now) {
      var h :| 0 <= h < i && Removes(s1, cs[1..][h], CallOf(s1, cs[1..][h]).dialogs, now);
      assert Removes(s, cs[h + 1], CallOf(s, cs[h + 1]).dialogs, now);
    }
  }

  /** The fate of dialog k of call c in store r, after the visits to it that started in s. */
  ghost predicate Fate(s: Store, r: Store, c: Ptr, k: nat, early: bool, now: int)
    requires k < |CallOf(s, c).dialogs|
  {
    var ds := CallOf(s, c).dialogs;
    if Breaks(s, c, ds, now) then c !in r.calls
    else
      && c in r.calls && (ds[k] in CallOf(r, c).dialogs <==> !Goes(s, c, ds, k, early, now))
      && (ds[k] in CallOf(r, c).dialogs ==> SameLists(if Stopped(s, c, ds, k, now) then s else Trimming(s, c, ds[k], now), r, ds[k]))
  }

  lemma {:induction false} CallsFate(s: Store, cs: seq<Ptr>, i: nat, k: nat, now: int)
    requires ToVisitCalls(s, cs) && i < |cs| && k < |CallOf(s, cs[i]).dialogs|
    ensures Fate(s, CallsVisited(s, cs, now), cs[i], k, EarlierGoes(s, cs, i, now), now)
    decreases i
  {
    hide Inv, Spared, Removes, AllRight, Untouched, DialogsVisited, ToVisitCalls, EarlierGoes, Fate, Judged;
    assert Inv(s) && cs[0] in s.calls && cs[i] in s.calls by { VisitedCalls(s, cs, 0); VisitedCalls(s, cs, i); }
    var c := cs[i];
    var s1 := DialogsVisited(s, cs[0], CallOf(s, cs[0]).dialogs, now);
    FirstCallFate(s, cs, now);
    if i == 0 {
      NoneEarlier(s, cs, now);
      OwnFate(s, c, k, now);
      LaterFate(s, s1, cs[1..], c, k, now);
    } else {
      assert c == cs[1..][i - 1];
      SparedJudged(s, s1, c, now);
      CallsFate(s1, cs[1..], i - 1, k, now);
      var r := CallsVisited(s1, cs[1..], now);
      if Removes(s, cs[0], CallOf(s, cs[0]).dialogs, now) {
        EarlierRemoved(s, cs, i, now);
        RightFate(s, s1, r, c, k, EarlierGoes(s1, cs[1..], i - 1, now), now);
      } else {
        EarlierShift(s, s1, cs, i - 1, now);
        SameFate(s, s1, r, c, k, EarlierGoes(s, cs, i, now), now);
      }
    }
  }

  lemma VisitedCalls(s: Store, cs: seq<Ptr>, i: nat)
    requires ToVisitCalls(s, cs) && i < |cs|
    ensures Inv(s) && cs[i] in s.calls
  {
    hide Inv;
  }

  lemma NoneEarlier(s: Store, cs: seq<Ptr>, now: int)
    ensures !EarlierGoes(s, cs, 0, now)
  {
  }

  lemma EarlierRemoved(s: Store, cs: seq<Ptr>, i: nat, now: int)
    requires 0 < i <= |cs| && Removes(s, cs[0], CallOf(s, cs[0]).dialogs, now)
    ensures EarlierGoes(s, cs, i, now)
  {
    hide Removes;
  }

  /** The visits to the call itself. */
  lemma OwnFate(s: Store, c: Ptr, k: nat, now: int)
    requires Inv(s) && c in s.calls && k < |CallOf(s, c).dialogs|
    ensures Fate(s, DialogsVisited(s, c, CallOf(s, c).dialogs, now), c, k, false, now)
  {
    hide Inv, DialogsVisited, ToVisit, Breaks, Goes, Stopped, Removes, Trimming, Remove, NoDup, SameLists;
    var ds := CallOf(s, c).dialogs;
    CallToVisit(s, c);
    if Breaks(s, c, ds, now) {
      LoopRemoves(s, c, ds, now);
      assert NoDup(s.calls) by { InvNoDup(s); }
      RemoveNoDup(s.calls, c);
    } else {
      LoopFate(s, c, ds, k, now);
    }
  }

  /** The visits to later calls change nothing of it. */
  lemma LaterFate(s: Store, s1: Store, cs: seq<Ptr>, c: Ptr, k: nat, now: int)
    requires ToVisitCalls(s1, cs) && c !in cs && k < |CallOf(s, c).dialogs| && Fate(s, s1, c, k, false, now)
    ensures Fate(s, CallsVisited(s1, cs, now), c, k, false, now)
  {
    hide Inv, CallsVisited, Breaks, Goes, Stopped, Trimming, Spared, NoDup;
    var r := CallsVisited(s1, cs, now);
    if c in s1.calls {
      CallsVisitedSpares(s1, cs, c, now);
      SparedLists(s1, r, c);
    } else {
      UnlinkedStays(s1, cs, c, now);
    }
  }

  lemma SparedLists(s: Store, r: Store, c: Ptr)
    requires Spared(s, r, c)
    ensures c in r.calls && CallOf(r, c).dialogs == CallOf(s, c).dialogs && forall e: Ptr | e in CallOf(s, c).dialogs :: SameLists(s, r, e)
  {
    hide Calm, Inv;
    forall e: Ptr | e in CallOf(s, c).dialogs ensures SameLists(s, r, e) {
      assert SameDialog(s, r, e);
    }
  }

  /** What is alike for a dialog before its visit. */
  lemma FateParts(s: Store, r: Store, c: Ptr, k: nat, now: int)
    requires Inv(s) && c in s.calls && k < |CallOf(s, c).dialogs|
    requires Judged(s, r, c, CallOf(s, c).dialogs, now) && Ready(s, r, c, CallOf(s, c).dialogs[k])
    ensures var ds := CallOf(s, c).dialogs;
      && Breaks(r, c, ds, now) == Breaks(s, c, ds, now) && Stopped(r, c, ds, k, now) == Stopped(s, c, ds, k, now)
      && SameLists(s, r, ds[k]) && SameLists(Trimming(s, c, ds[k], now), Trimming(r, c, ds[k], now), ds[k])
  {
    hide Inv, Breaks, Stopped, Trimming, Judged, Calm;
    var ds := CallOf(s, c).dialogs;
    BreaksJudged(s, r, c, ds, now);
    StoppedJudged(s, r, c, ds, k, now);
    EndsAlike(s, r, c, ds[k], now);
  }

  lemma RightFate(s: Store, s1: Store, r: Store, c: Ptr, k: nat, early: bool, now: int)
    requires Inv(s) && c in s.calls && Spared(s, s1, c) && AllRight(s1)
    requires k < |CallOf(s, c).dialogs| && CallOf(s1, c).dialogs == CallOf(s, c).dialogs
    requires Fate(s1, r, c, k, early, now)
    ensures Fate(s, r, c, k, true, now)
  {
    hide Inv, Spared, Judged, Ready, Breaks, Goes, Stopped, Trimming, Right;
    SparedJudged(s, s1, c, now);
    FateParts(s, s1, c, k, now);
    SparedDialogs(s, s1, c);
    GoesRight(s, s1, c, CallOf(s, c).dialogs, k, early, now);
  }

  lemma SameFate(s: Store, s1: Store, r: Store, c: Ptr, k: nat, early: bool, now: int)
    requires Inv(s) && c in s.calls && Spared(s, s1, c) && Untouched(s, s1)
    requires k < |CallOf(s, c).dialogs| && CallOf(s1, c).dialogs == CallOf(s, c).dialogs
    requires Fate(s1, r, c, k, early, now)
    ensures Fate(s, r, c, k, early, now)
  {
    hide Inv, Spared, Judged, Ready, Breaks, Goes, Stopped, Trimming;
    SparedJudged(s, s1, c, now);
    FateParts(s, s1, c, k, now);
    GoesJudged(s, s1, c, CallOf(s, c).dialogs, k, early, now);
  }

  // ----- the whole pass -----

  /**
   What a call without a dialog is kept for: its INVITE is not over and not older than three minutes,
   or it sent one that is over since less than ten seconds.
   */
  ghost predicate Awaited(s: Store, c: Ptr, now: int) {
    exists t: Ptr ::
      || (CallOf(s, c).incTr == Some(t) && TrOf(s, t).state != IST_TERMINATED && now <= TrOf(s, t).birth + 180)
      || (CallOf(s, c).outTr == Some(t)
          && if TrOf(s, t).state != ICT_TERMINATED then now <= TrOf(s, t).birth + 180 else TrOf(s, t).completed + 10 > now)
  }

  lemma AbandonedIs(s: Store, c: Ptr, now: int)
    requires OneSided(s, c)
    ensures Abandoned(s, c, now) <==> CallOf(s, c).dialogs == [] && !Awaited(s, c, now)
  {
    var call := CallOf(s, c);
    assert forall t: Ptr :: (call.incTr == Some(t) <==> call.incTr.Some? && call.incTr.value == t);
    if call.incTr.Some? {
      AwaitedIn(s, c, now);
    } else if call.outTr.Some? {
      AwaitedOut(s, c, now);
    }
  }

  lemma AwaitedIn(s: Store, c: Ptr, now: int)
    requires CallOf(s, c).incTr.Some? && CallOf(s, c).outTr.None?
    ensures var t := CallOf(s, c).incTr.value;
      Awaited(s, c, now) <==> TrOf(s, t).state != IST_TERMINATED && now <= TrOf(s, t).birth + 180
  {
  }

  lemma AwaitedOut(s: Store, c: Ptr, now: int)
    requires CallOf(s, c).incTr.None? && CallOf(s, c).outTr.Some?
    ensures var t := CallOf(s, c).outTr.value;
      Awaited(s, c, now) <==> if TrOf(s, t).state != ICT_TERMINATED then now <= TrOf(s, t).birth + 180 else TrOf(s, t).completed + 10 > now
  {
  }

  lemma AwaitedSame(s: Store, r: Store, c: Ptr, now: int)
    requires Calm(s, r) && SameSlots(s, r, c)
    ensures Awaited(r, c, now) == Awaited(s, c, now)
  {
    hide Calm;
    forall t: Ptr ensures TrOf(r, t).(info := None) == TrOf(s, t).(info := None) {
      CalmWhole(s, r, t);
    }
  }

  /** Call c is still linked, with the same transactions of its own, and no more dialogs than before. */
  ghost predicate Lasts(s: Store, r: Store, c: Ptr) {
    Calm(s, r) && SameSlots(s, r, c) && c in r.calls && Inv(r) && forall d: Ptr | d in CallOf(r, c).dialogs :: d in CallOf(s, c).dialogs
  }

  /** The visits to a call that does not break leave its slots, and its links go at most. */
  lemma {:induction false} LoopSlots(s: Store, c: Ptr, ds: seq<Ptr>, now: int)
    requires ToVisit(s, c, ds) && !Breaks(s, c, ds, now)
    ensures Lasts(s, DialogsVisited(s, c, ds, now), c)
    decreases |ds|
  {
    hide Inv, DialogVisited, Forsaken, Refused, Idle, Ended, Right, Breaks, Judged, Ready, NoDup, GoesIf, AllRight, Untouched, Trimming, Remove, Calm;
    if ds == [] {
      CalmSelf(s);
    } else {
      BreaksShift(s, c, ds, now);
      var v := DialogVisited(s, c, ds[0], now);
      var goes := GoesIf(s, c, ds, 0, DialogOf(s, ds[0]).id == -1, now);
      VisitStep(s, c, ds, now);
      StepJudged(s, v, c, ds, goes, now);
      BreaksJudged(s, v.s, c, ds[1..], now);
      RemoveContents(CallOf(s, c).dialogs, ds[0]);
      AsideSlots(s, v.s, c, ds[0]);
      if !v.yes {
        LoopSlots(v.s, c, ds[1..], now);
        CalmJoin(s, v.s, DialogsVisited(v.s, c, ds[1..], now));
      }
    }
  }

  lemma SparedLasts(s: Store, r: Store, c: Ptr)
    requires Spared(s, r, c)
    ensures Lasts(s, r, c)
  {
    hide Inv, Calm;
  }

  lemma LastsLinked(s: Store, r: Store, c: Ptr)
    requires Lasts(s, r, c)
    ensures c in r.calls && Inv(r)
  {
    hide Inv, Calm;
  }

  lemma LastsJoin(a: Store, b: Store, s: Store, c: Ptr)
    requires Lasts(a, b, c) && Lasts(b, s, c)
    ensures Lasts(a, s, c)
  {
    hide Inv, Calm;
    CalmJoin(a, b, s);
  }

  lemma {:induction false} CallsLast(s: Store, cs: seq<Ptr>, c: Ptr, now: int)
    requires ToVisitCalls(s, cs) && c in s.calls
    ensures var r := CallsVisited(s, cs, now);
      if c in cs && Breaks(s, c, CallOf(s, c).dialogs, now) then c !in r.calls else Lasts(s, r, c)
    decreases |cs|
  {
    hide Inv, Breaks, ToVisit, DialogsVisited, Lasts, Spared, NoDup, Remove, Removes;
    if cs == [] {
      assert Lasts(s, s, c) by { assert Inv(s); SparedSelf(s, c); SparedLasts(s, s, c); }
    } else {
      var ds := CallOf(s, cs[0]).dialogs;
      var s1 := DialogsVisited(s, cs[0], ds, now);
      FirstCall(s, cs, now);
      assert cs == [cs[0]] + cs[1..];
      if cs[0] == c {
        CallToVisit(s, c);
        if Breaks(s, c, ds, now) {
          LoopRemoves(s, c, ds, now);
          assert NoDup(s.calls) by { InvNoDup(s); }
          RemoveNoDup(s.calls, c);
          UnlinkedStays(s1, cs[1..], c, now);
        } else {
          LoopSlots(s, c, ds, now);
          LastsLinked(s, s1, c);
          CallsVisitedSpares(s1, cs[1..], c, now);
          SparedLasts(s1, CallsVisited(s1, cs[1..], now), c);
          LastsJoin(s, s1, CallsVisited(s1, cs[1..], now), c);
        }
      } else {
        SparedLasts(s, s1, c);
        SparedBreaks(s, s1, c, now);
        assert c in s1.calls by { SparedDialogs(s, s1, c); }
        CallsLast(s1, cs[1..], c, now);
        if Lasts(s1, CallsVisited(s1, cs[1..], now), c) {
          LastsJoin(s, s1, CallsVisited(s1, cs[1..], now), c);
        }
      }
    }
  }

  lemma SparedBreaks(s: Store, r: Store, c: Ptr, now: int)
    requires Inv(s) && c in s.calls && Spared(s, r, c)
    ensures Breaks(r, c, CallOf(r, c).dialogs, now) == Breaks(s, c, CallOf(s, c).dialogs, now)
  {
    hide Inv, Spared, Judged, Breaks, Ready;
    SparedJudged(s, r, c, now);
    BreaksJudged(s, r, c, CallOf(s, c).dialogs, now);
  }

  ghost predicate Unlinks(r: Store, d: Ptr) {
    forall b: Ptr | b in r.calls :: d !in CallOf(r, b).dialogs
  }

  /** Store r has no links that s does not have. */
  lemma PassLinks(s: Store, now: int)
    requires Inv(s)
    ensures var r := ReleasePass(s, now); Inv(r) && r.calls == Collected(s, now).calls
    ensures var r := ReleasePass(s, now); forall b: Ptr :: CallOf(r, b) == CallOf(Collected(s, now), b)
    ensures var r := ReleasePass(s, now);
      forall b: Ptr | b in r.calls :: b in s.calls && forall d: Ptr | d in CallOf(r, b).dialogs :: d in CallOf(s, b).dialogs
    ensures forall d: Ptr :: DialogOf(ReleasePass(s, now), d) == DialogOf(Collected(s, now), d)
  {
    hide Inv, Held, CallsVisited, AbandonedReleased, Swept, Expendable, Gentle;
    ReleasePassExactly(s, now);
    SweptRecords(Collected(s, now), now);
    assert NoDup(s.calls) by { InvNoDup(s); }
    var z := Scope(now, {}, {}, {}, true);
    GentleSelf(s, z);
    var s1 := CallsVisited(s, s.calls, now);
    CallsVisitedGentle(s, s, s.calls, z);
    AbandonedReleasedGentle(s, s1, s1.calls, z);
    var m := Collected(s, now);
    GentleLinks(s, m, z);
    forall b: Ptr | b in m.calls ensures b in s.calls && forall d: Ptr | d in CallOf(m, b).dialogs :: d in CallOf(s, b).dialogs {
      assert CallLess(s, m, b);
    }
  }

  lemma OneCall(s: Store, c: Ptr, d: Ptr, r: Store)
    requires Inv(s) && c in s.calls && d in CallOf(s, c).dialogs
    requires forall b: Ptr | b in r.calls :: b in s.calls && forall e: Ptr | e in CallOf(r, b).dialogs :: e in CallOf(s, b).dialogs
    ensures c !in r.calls || d !in CallOf(r, c).dialogs ==> Unlinks(r, d)
  {
    hide Owned, CallsOk;
    forall b: Ptr | b in r.calls && d in CallOf(r, b).dialogs ensures b == c {
    }
  }

  /** What the second loop leaves of a call that the first has left. */
  lemma LastsCollected(s: Store, c: Ptr, now: int)
    requires Inv(s) && c in s.calls && !Breaks(s, c, CallOf(s, c).dialogs, now)
    ensures var s1 := CallsVisited(s, s.calls, now); var m := Collected(s, now);
      && c in s1.calls && (forall d: Ptr | d in CallOf(s1, c).dialogs :: d in CallOf(s, c).dialogs)
      && if CallOf(s1, c).dialogs == [] && !Awaited(s, c, now) then c !in m.calls else Spared(s1, m, c)
  {
    hide Inv, Held, Breaks, CallsVisited, AbandonedReleased, Spared, Abandoned, Awaited, Calm;
    assert NoDup(s.calls) by { InvNoDup(s); }
    CallsLast(s, s.calls, c, now);
    var s1 := CallsVisited(s, s.calls, now);
    assert NoDup(s1.calls) by { InvNoDup(s1); }
    InvShape(s1, c);
    assert OneSided(s1, c) by { InvSided(s1, c); }
    AbandonedIs(s1, c, now);
    AwaitedSame(s, s1, c, now);
    if Abandoned(s1, c, now) {
      AbandonedGoes(s1, s1.calls, c, now);
    } else {
      AbandonedSpares(s1, s1.calls, c, now);
    }
  }

  lemma InvSided(s: Store, c: Ptr)
    requires Inv(s) && c in s.calls
    ensures OneSided(s, c)
  {
    hide Linked, Owned, NamesOk, CallSorted;
    assert CallOk(s, c);
  }

  /**
   Exactly which dialogs the release pass unlinks, and what it leaves in the lists of the others. Let
   d be dialog k of call i. It goes with all of its call if the call's own INVITE is over and was
   refused or not answered (Refused), and one of its dialogs is idle: it waits for none of its six
   last transactions (Holds), has none that is over for 30 seconds behind another (Counts), and no
   BYE that is over (ByeOver). It goes alone, unless the call is forsaken and an earlier dialog of it
   is idle, if it has a BYE that is over and is idle otherwise; or if it is idle, and the call is
   forsaken or the dialog's id is -1. The ids are those of the store before the pass up to the first
   dialog that goes; from then on -1 is the id of those dialogs that are not established.
   */
  lemma DialogGoesExactly(s: Store, i: nat, k: nat, now: int)
    requires Inv(s) && i < |s.calls| && k < |CallOf(s, s.calls[i]).dialogs|
    ensures var c := s.calls[i]; var ds := CallOf(s, c).dialogs; var r := ReleasePass(s, now);
      if Breaks(s, c, ds, now) || Goes(s, c, ds, k, EarlierGoes(s, s.calls, i, now), now) then Unlinks(r, ds[k])
      else StaysLinked(r, c, ds[k]) && LeftIn(s, r, c, k, now)
  {
    hide Inv, Held, Breaks, Goes, EarlierGoes, Stopped, CallsVisited, AbandonedReleased, Spared, Trimming, Collected, Swept, StaysLinked, Awaited;
    var c := s.calls[i];
    var ds := CallOf(s, c).dialogs;
    assert NoDup(s.calls) by { InvNoDup(s); }
    CallsFate(s, s.calls, i, k, now);
    PassLinks(s, now);
    var m, r := Collected(s, now), ReleasePass(s, now);
    OneCall(s, c, ds[k], r);
    if Breaks(s, c, ds, now) {
      CallsLast(s, s.calls, c, now);
      CollectedUnlinked(s, c, now);
    } else {
      LastsCollected(s, c, now);
      SparedOrNot(s, c, now);
      if c in r.calls && ds[k] in CallOf(r, c).dialogs {
        LinkedStays(r, c, ds[k]);
        LeftInLists(s, r, c, k, now);
      }
    }
  }

  /** Which of the transactions of dialog k of call c are left in its lists. */
  ghost predicate LeftIn(s: Store, r: Store, c: Ptr, k: nat, now: int)
    requires k < |CallOf(s, c).dialogs|
  {
    var ds := CallOf(s, c).dialogs;
    var d := ds[k];
    && (forall t: Ptr :: t in DialogOf(r, d).incTrs <==>
          && t in DialogOf(s, d).incTrs
          && (Stopped(s, c, ds, k, now) || (!Dropped(s, c, d, t, now) && (Waits(s, c, d, now) || !IncFinished(s, c, d, t, now)))))
    && (forall t: Ptr :: t in DialogOf(r, d).outTrs <==>
          && t in DialogOf(s, d).outTrs
          && (Stopped(s, c, ds, k, now) || (!Dropped(s, c, d, t, now) && (Waits(s, c, d, now) || !OutFinished(s, c, d, t, now)))))
  }

  lemma LeftInLists(s: Store, r: Store, c: Ptr, k: nat, now: int)
    requires Inv(s) && c in s.calls && k < |CallOf(s, c).dialogs|
    requires var ds := CallOf(s, c).dialogs; SameLists(if Stopped(s, c, ds, k, now) then s else Trimming(s, c, ds[k], now), r, ds[k])
    ensures LeftIn(s, r, c, k, now)
  {
    hide Inv, Stopped, Dropped, Waits, IncFinished, OutFinished, Trimming;
    TrimmingExactly(s, c, CallOf(s, c).dialogs[k], now);
  }

  /** A call released by the first loop is not linked again. */
  lemma CollectedUnlinked(s: Store, c: Ptr, now: int)
    requires Inv(s) && c !in CallsVisited(s, s.calls, now).calls
    ensures c !in Collected(s, now).calls
  {
    hide Inv, Held, CallsVisited, AbandonedReleased;
    assert NoDup(s.calls) by { InvNoDup(s); }
    CallsVisitedKeeps(s, s.calls, now);
    var s1 := CallsVisited(s, s.calls, now);
    AbandonedUnlinked(s1, s1.calls, c, now);
  }

  /** Between the two loops and the end of the pass a call keeps its dialogs with their lists, or goes without one. */
  lemma SparedOrNot(s: Store, c: Ptr, now: int)
    requires var s1 := CallsVisited(s, s.calls, now); var m := Collected(s, now);
      c in s1.calls && (Spared(s1, m, c) || (CallOf(s1, c).dialogs == [] && c !in m.calls))
    ensures var s1 := CallsVisited(s, s.calls, now); var m := Collected(s, now);
      if c in m.calls then CallOf(m, c).dialogs == CallOf(s1, c).dialogs && forall d: Ptr | d in CallOf(s1, c).dialogs :: SameLists(s1, m, d)
      else CallOf(s1, c).dialogs == []
  {
    hide Collected, CallsVisited, Spared;
    var s1 := CallsVisited(s, s.calls, now);
    if Spared(s1, Collected(s, now), c) {
      SparedLists(s1, Collected(s, now), c);
    }
  }

  /**
   Exactly which calls the release pass releases: those that break, and those all of whose dialogs go
   and that are not awaited.
   */
  lemma CallGoesExactly(s: Store, i: nat, now: int)
    requires Inv(s) && i < |s.calls|
    ensures var c := s.calls[i]; var ds := CallOf(s, c).dialogs;
      c !in ReleasePass(s, now).calls <==>
        Breaks(s, c, ds, now) || (!Awaited(s, c, now) && forall k: nat | k < |ds| :: Goes(s, c, ds, k, EarlierGoes(s, s.calls, i, now), now))
  {
    hide Inv, Held, Breaks, Goes, EarlierGoes, Stopped, CallsVisited, AbandonedReleased, Spared, Trimming, Collected, Swept, Awaited, SameLists;
    var c := s.calls[i];
    var ds := CallOf(s, c).dialogs;
    assert NoDup(s.calls) by { InvNoDup(s); }
    PassLinks(s, now);
    CallsLast(s, s.calls, c, now);
    if Breaks(s, c, ds, now) {
      CollectedUnlinked(s, c, now);
    } else {
      LastsCollected(s, c, now);
      SparedOrNot(s, c, now);
      var s1 := CallsVisited(s, s.calls, now);
      forall k: nat | k < |ds| ensures ds[k] in CallOf(s1, c).dialogs <==> !Goes(s, c, ds, k, EarlierGoes(s, s.calls, i, now), now) {
        CallsFate(s, s.calls, i, k, now);
      }
      if CallOf(s1, c).dialogs != [] || Awaited(s, c, now) {
        SparedDialogs(s1, Collected(s, now), c);
      }
      if CallOf(s1, c).dialogs != [] {
        var d := CallOf(s1, c).dialogs[0];
        assert d in ds;
        var k :| 0 <= k < |ds| && ds[k] == d;
      }
    }
  }

  // ----- what is freed -----

  lemma {:induction false} DrainedKeys(s: Store, c: Ptr)
    ensures DialogsDrained(s, c).trAt.Keys == s.trAt.Keys
    decreases |CallOf(s, c).dialogs|
  {
    hide Updated, SameButIds, DrainedInto, InfoDeleted, Own;
    var ds := CallOf(s, c).dialogs;
    if ds != [] {
      assert Remove(ds, ds[0]) == ds[1..];
      var s1 := DialogFreed(Unlinked(s, c, ds[0]), ds[0]);
      SameIdsCalls(s1, Updated(s1));
      UpdatedTrAt(s1);
      assert CallOf(Updated(s1), c).dialogs == ds[1..];
      DrainedKeys(Updated(s1), c);
    }
  }

  lemma UpdatedTrAt(s: Store)
    ensures Updated(s).trAt == s.trAt
  {
    hide Updated;
  }

  lemma ReleasedKeys(s: Store, c: Ptr)
    ensures CallReleased(s, c).trAt.Keys == s.trAt.Keys
  {
    hide DialogsDrained, Remove, InfoDeleted, Fronted;
    DrainedKeys(s.(calls := Remove(s.calls, c)), c);
  }

  lemma VisitKeys(s: Store, c: Ptr, d: Ptr, now: int)
    requires Inv(s) && c in s.calls && d in CallOf(s, c).dialogs
    ensures DialogVisited(s, c, d, now).s.trAt.Keys == s.trAt.Keys
  {
    hide Inv, Refused, Forsaken, Idle, Ended, Trimming, DialogVisited, DialogRemoved, CallReleased;
    VisitExactly(s, c, d, now);
    var m := Trimming(s, c, d, now);
    RemovedKeys(m, c, d);
    ReleasedKeys(m, c);
  }

  lemma {:induction false} LoopKeys(s: Store, c: Ptr, ds: seq<Ptr>, now: int)
    requires ToVisit(s, c, ds)
    ensures DialogsVisited(s, c, ds, now).trAt.Keys == s.trAt.Keys
    decreases |ds|
  {
    hide Inv, Held, DialogVisited, Remove, NoDup;
    if ds != [] {
      var v := DialogVisited(s, c, ds[0], now);
      VisitKeys(s, c, ds[0], now);
      DialogVisitedKeeps(s, c, ds[0], now);
      if !v.yes {
        assert NoDup(ds);
        VisitLeft(s, v, c, ds);
        LoopKeys(v.s, c, ds[1..], now);
      }
    }
  }

  lemma {:induction false} CallsKeys(s: Store, cs: seq<Ptr>, now: int)
    requires ToVisitCalls(s, cs)
    ensures CallsVisited(s, cs, now).trAt.Keys == s.trAt.Keys
    decreases |cs|
  {
    hide Inv, Spared, Removes, AllRight, Untouched, DialogsVisited, ToVisit, NoDup;
    if cs != [] {
      CallToVisit(s, cs[0]);
      LoopKeys(s, cs[0], CallOf(s, cs[0]).dialogs, now);
      FirstCallFate(s, cs, now);
      CallsKeys(DialogsVisited(s, cs[0], CallOf(s, cs[0]).dialogs, now), cs[1..], now);
    }
  }

  lemma {:induction false} AbandonedKeys(s: Store, cs: seq<Ptr>, now: int)
    ensures AbandonedReleased(s, cs, now).trAt.Keys == s.trAt.Keys
    decreases |cs|
  {
    hide CallReleased, Abandoned;
    if cs != [] {
      ReleasedKeys(s, cs[0]);
      AbandonedKeys(if Abandoned(s, cs[0], now) then CallReleased(s, cs[0]) else s, cs[1..], now);
    }
  }

  lemma CollectedKeys(s: Store, now: int)
    requires Inv(s)
    ensures Collected(s, now).trAt.Keys == s.trAt.Keys
  {
    hide Inv, CallsVisited, AbandonedReleased;
    assert NoDup(s.calls) by { InvNoDup(s); }
    CallsKeys(s, s.calls, now);
    var s1 := CallsVisited(s, s.calls, now);
    AbandonedKeys(s1, s1.calls, now);
  }

  /** In none of the four final states, and not older than three minutes. */
  predicate Lingers(s: Store, t: Ptr, now: int) {
    && now <= TrOf(s, t).birth + 180
    && TrOf(s, t).state !in {ICT_TERMINATED, IST_TERMINATED, NICT_TERMINATED, NIST_TERMINATED}
  }

  /**
   Exactly what is in the garbage list after the pass: what was held, no call holds any more, and
   lingers. Everything else that no call holds any more is freed, and nothing more.
   */
  lemma GarbageExactly(s: Store, t: Ptr, now: int)
    requires Inv(s)
    ensures var r := ReleasePass(s, now); var dropped := t in Held(s) && t !in CallsHeld(r, r.calls);
      && (t in r.garbage <==> dropped && Lingers(s, t, now))
      && (t in r.trAt <==> t in s.trAt && (dropped ==> Lingers(s, t, now)))
  {
    hide Inv, Collected, CallsHeld, Swept, Calm;
    var m, r := Collected(s, now), ReleasePass(s, now);
    CollectedConserves(s, now);
    CollectedCalm(s, now);
    CollectedKeys(s, now);
    CalmTr(s, m, t);
    SweptHeld(m, now);
    SweptRecords(m, now);
    SweptGarbage(m, now);
    SweptFrees(m, t, now);
    KeptExactly(m, m.garbage, now);
    GarbageOnce(m, t);
    GarbageIn(m, t);
    assert t in r.garbage <==> multiset(r.garbage)[t] > 0;
    assert t in m.garbage <==> multiset(m.garbage)[t] > 0;
  }

  lemma SweptFrees(s: Store, t: Ptr, now: int)
    ensures t in Swept(s, now).trAt <==> t in s.trAt && !(t in s.garbage && Expendable(s, t, now))
  {
    hide Expendable, Kept;
  }

  lemma GarbageIn(s: Store, t: Ptr)
    ensures t in Held(s) <==> t in s.garbage || t in CallsHeld(s, s.calls)
  {
    hide CallsHeld;
    assert Held(s)[t] == CallsHeld(s, s.calls)[t] + multiset(s.garbage)[t];
    assert t in s.garbage <==> multiset(s.garbage)[t] > 0;
  }

  lemma CollectedCalm(s: Store, now: int)
    requires Inv(s)
    ensures Calm(s, Collected(s, now))
  {
    hide Inv, Held, Calm, Names, Expendable;
    CollectedGathers(s, now);
  }
}
