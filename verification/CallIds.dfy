/**
 The ids of calls and dialogs over runs. Every linked call and established dialog has one, and no two
 dialogs share one, until the counter of eXosip_update passes 100000 and starts again at 1.
 */
module CallIds {
  import opened Numerals
  import opened CallStore
  import opened CallOps
  import opened CallRelease
  import opened CallHandlers
  import opened CallGrowth
  import opened CallTimes
  import opened CallNumbers
  import opened CallFronts
  import opened CallRuns
  import opened CallProtocol
  import opened CallHistory
  import opened Lost200

  ghost predicate InUse(s: Store, d: Ptr) {
    exists c :: LiveDialog(s, c, d)
  }

  /** No two linked dialogs have the same id. */
  ghost predicate Different(s: Store) {
    forall d, e | InUse(s, d) && InUse(s, e) && DialogOf(s, d).id >= 1 && DialogOf(s, e).id == DialogOf(s, d).id :: e == d
  }

  /** The ids of linked dialogs are below the counter, and different. */
  ghost predicate Distinct(s: Store) {
    (forall d | InUse(s, d) :: DialogOf(s, d).id < s.nextId) && Different(s)
  }

  ghost predicate Numbered(s: Store) {
    Complete(s) && Distinct(s)
  }

  lemma NumberedTidy(s: Store)
    requires Linked(s) && Numbered(s)
    ensures Tidy(s)
  {
    forall c, d | LiveDialog(s, c, d) ensures InUse(s, d) {
    }
  }

  // ----- eXosip_update -----

  lemma SameInUse(s: Store, r: Store)
    requires SameButIds(s, r)
    ensures forall d :: InUse(r, d) <==> InUse(s, d)
  {
    SameIdsShape(s, r);
    forall d ensures InUse(r, d) <==> InUse(s, d) {
      assert forall c :: LiveDialog(r, c, d) <==> LiveDialog(s, c, d);
    }
  }

  lemma DialogNumberedDistinct(s: Store, d: Ptr)
    requires Distinct(s)
    ensures Distinct(DialogNumbered(s, d))
  {
    hide InUse;
    SameInUse(s, DialogNumbered(s, d));
  }

  lemma CallNumberedDistinct(s: Store, c: Ptr)
    requires Distinct(s)
    ensures Distinct(CallNumbered(s, c))
  {
    hide InUse;
    SameInUse(s, CallNumbered(s, c));
  }

  lemma {:induction false} DialogsNumberedDistinct(s: Store, ds: seq<Ptr>)
    requires Distinct(s)
    ensures Distinct(DialogsNumbered(s, ds))
    decreases |ds|
  {
    hide Distinct, SameButIds;
    if ds != [] {
      DialogNumberedDistinct(s, ds[0]);
      DialogsNumberedDistinct(DialogNumbered(s, ds[0]), ds[1..]);
    }
  }

  lemma {:induction false} CallsNumberedDistinct(s: Store, cs: seq<Ptr>)
    requires Distinct(s)
    ensures Distinct(CallsNumbered(s, cs))
    decreases |cs|
  {
    hide Distinct, SameButIds, DialogsNumbered;
    if cs != [] {
      var s1 := CallNumbered(s, cs[0]);
      CallNumberedDistinct(s, cs[0]);
      var ds := CallOf(s, cs[0]).dialogs;
      DialogsNumberedDistinct(s1, ds);
      CallsNumberedDistinct(DialogsNumbered(s1, ds), cs[1..]);
    }
  }

  lemma {:induction false} DialogsNumberedAll(s: Store, ds: seq<Ptr>, d: Ptr)
    requires d in ds && d in s.dialogAt && DialogOf(s, d).established
    ensures DialogOf(DialogsNumbered(s, ds), d).id >= 1
    decreases |ds|
  {
    hide SameButIds;
    var s1 := DialogNumbered(s, ds[0]);
    DialogsNumberedIds(s1, ds[1..], d);
    if d in ds[1..] {
      DialogsNumberedAll(s1, ds[1..], d);
    }
  }

  lemma {:induction false} DialogsNumberedGrows(s: Store, ds: seq<Ptr>)
    ensures DialogsNumbered(s, ds).nextId >= s.nextId
    decreases |ds|
  {
    hide SameButIds;
    if ds != [] {
      DialogsNumberedGrows(DialogNumbered(s, ds[0]), ds[1..]);
    }
  }

  lemma {:induction false} CallsNumberedAll(s: Store, cs: seq<Ptr>, c: Ptr)
    requires c in cs && c in s.callAt
    ensures CallOf(CallsNumbered(s, cs), c).id >= 1
    ensures forall d | d in CallOf(s, c).dialogs && d in s.dialogAt && DialogOf(s, d).established :: DialogOf(CallsNumbered(s, cs), d).id >= 1
    decreases |cs|
  {
    hide SameButIds, DialogsNumbered;
    var s1 := CallNumbered(s, cs[0]);
    var s2 := DialogsNumbered(s1, CallOf(s, cs[0]).dialogs);
    DialogsNumberedGrows(s1, CallOf(s, cs[0]).dialogs);
    DialogsNumberedCalls(s1, CallOf(s, cs[0]).dialogs);
    if c in cs[1..] {
      NumberedShape(s, cs[0]);
      CallsNumberedAll(s2, cs[1..], c);
    } else {
      CallsNumberedCallIds(s2, cs[1..], c);
      forall d | d in CallOf(s, c).dialogs && d in s.dialogAt && DialogOf(s, d).established
        ensures DialogOf(CallsNumbered(s, cs), d).id >= 1
      {
        DialogsNumberedAll(s1, CallOf(s, c).dialogs, d);
        assert SameButIds(s1, s2) && DialogOf(s1, d).established;
        SameButIdsDialog(s1, s2, d);
        CallsNumberedIds(s2, cs[1..], d);
      }
    }
  }

  /** Numbering one call keeps the dialogs, and which are established. */
  lemma NumberedShape(s: Store, c: Ptr)
    ensures var s2 := DialogsNumbered(CallNumbered(s, c), CallOf(s, c).dialogs);
      && s2.callAt.Keys == s.callAt.Keys && s2.dialogAt.Keys == s.dialogAt.Keys
      && (forall e :: CallOf(s2, e).dialogs == CallOf(s, e).dialogs)
      && (forall d :: DialogOf(s2, d).established == DialogOf(s, d).established)
  {
    hide DialogsNumbered;
    var s1 := CallNumbered(s, c);
    var s2 := DialogsNumbered(s1, CallOf(s, c).dialogs);
    SameButIdsJoin(s, s1, s2);
    SameIdsShape(s, s2);
    forall d ensures DialogOf(s2, d).established == DialogOf(s, d).established {
      assert DialogOf(s2, d).(id := 0) == DialogOf(s, d).(id := 0);
    }
  }

  /** eXosip_update numbers everything that is linked, as long as its counter does not start again. */
  lemma UpdatedNumbered(s: Store)
    requires Linked(s) && Distinct(s) && s.nextId <= 100000
    ensures Numbered(Updated(s))
  {
    hide InUse, Different, CallsNumbered, SameButIds;
    var r := Updated(s);
    assert r == CallsNumbered(s, s.calls);
    CallsNumberedDistinct(s, s.calls);
    SameIdsShape(s, r);
    UpdatedKeys(s);
    forall c | c in s.calls ensures c in r.callAt && CallOf(r, c).id >= 1 {
      CallsNumberedAll(s, s.calls, c);
    }
    forall c, d | c in s.calls && d in CallOf(r, c).dialogs && DialogOf(r, d).established ensures DialogOf(r, d).id >= 1 {
      CallsNumberedAll(s, s.calls, c);
      assert DialogOf(r, d).(id := 0) == DialogOf(s, d).(id := 0);
      assert d in s.callAt[c].dialogs;
    }
  }

  lemma UpdatedKeys(s: Store)
    ensures Updated(s).calls == s.calls && Updated(s).callAt.Keys == s.callAt.Keys
  {
    hide Updated;
  }

  // ----- one event -----

  lemma GentleNumbered(s: Store, r: Store, z: Scope)
    requires NoDup(s.calls) && Numbered(s) && s.nextId <= 100000 && Gentle(s, r, z) && z.linked
    ensures Numbered(r)
  {
    hide Complete;
    CompleteKept(s, r, z);
    assert r.nextId == s.nextId;
    forall d | InUse(r, d) ensures InUse(s, d) && (DialogOf(r, d).id >= 1 ==> DialogOf(r, d).id == DialogOf(s, d).id) {
      var c :| LiveDialog(r, c, d);
      assert CallLess(s, r, c);
      assert LiveDialog(s, c, d);
      assert IdKept(DialogOf(s, d), DialogOf(r, d));
      EstablishedNumbered(s, c, d);
    }
  }

  lemma EstablishedNumbered(s: Store, c: Ptr, d: Ptr)
    requires Complete(s) && LiveDialog(s, c, d)
    ensures DialogOf(s, d).established ==> DialogOf(s, d).id >= 1
  {
  }

  /** Call c, which may be new, has taken in some dialogs that have no id yet. */
  ghost predicate Opened(s: Store, r: Store, c: Ptr, made: set<Ptr>) {
    && r.nextId == s.nextId && (r.calls == s.calls || r.calls == [c] + s.calls)
    && (forall b | b != c :: CallOf(r, b) == CallOf(s, b))
    && (forall x | x in CallOf(r, c).dialogs :: x in made || LiveDialog(s, c, x))
    && (forall x | x !in made :: DialogOf(r, x) == DialogOf(s, x))
    && (forall x | x in made :: DialogOf(r, x).id == -1)
  }

  lemma OpenedDistinct(s: Store, r: Store, c: Ptr, made: set<Ptr>)
    requires Distinct(s) && Opened(s, r, c, made)
    ensures Distinct(r)
  {
    forall x | InUse(r, x) && x !in made ensures InUse(s, x) {
      var b :| LiveDialog(r, b, x);
      assert LiveDialog(s, b, x);
    }
  }

  lemma OpenedNumbered(s: Store, r: Store, c: Ptr, made: set<Ptr>)
    requires Numbered(s) && Opened(s, r, c, made) && Linked(r) && s.nextId <= 100000
    ensures Numbered(Updated(r))
  {
    hide Distinct, Linked, Updated, Complete;
    OpenedDistinct(s, r, c, made);
    UpdatedNumbered(r);
  }

  /** Stores with the same links. */
  lemma LinkedSame(s: Store, r: Store)
    requires Linked(s) && r.calls == s.calls && r.callAt.Keys == s.callAt.Keys && r.dialogAt == s.dialogAt
    requires forall c | c in s.callAt :: r.callAt[c].dialogs == s.callAt[c].dialogs
    ensures Linked(r)
  {
  }

  lemma StartedNumbered(s: Store, c: Ptr, t: Ptr, now: int)
    requires Linked(s) && Numbered(s) && s.nextId <= 100000 && c !in s.callAt
    ensures Numbered(InitialInvite(s, c, t, now))
  {
    hide Updated, Linked, Numbered;
    var s1 := WithTr(s, t, Born("INVITE", ICT_PRE_CALLING, now, Some(JInfo(c, None))));
    LinkedSame(s, s1);
    CallAddedLinked(s1, c);
    var s2 := CallAdded(s1, c);
    var s3 := SetCall(s2, c, CallOf(s2, c).(outTr := Some(t)));
    LinkedSame(s2, s3);
    OpenedNumbered(s, s3, c, {});
  }

  lemma NewInviteNumbered(s: Store, req: Request, t: Ptr, c: Ptr, d: Ptr, now: int)
    requires Linked(s) && Numbered(s) && s.nextId <= 100000 && c !in s.callAt && d !in s.dialogAt && !req.toTag
    ensures Numbered(NewInvite(s, req, t, c, d, now))
  {
    hide Updated, Linked, Numbered;
    var s1 := CallAdded(s, c);
    CallAddedLinked(s, c);
    var s2 := DialogAdded(s1, c, d, NewDialog(req.cseq, now));
    DialogAddedLinked(s1, c, d, NewDialog(req.cseq, now));
    var s3 := Reporting(s2, t, JInfo(c, Some(d)));
    LinkedSame(s2, s3);
    OpenedNumbered(s, s3, c, {d});
    var u := Updated(s3);
    SlotNumbered(u, c, CallOf(u, c).(incTr := Some(t)));
  }

  lemma SlotNumbered(s: Store, c: Ptr, call: Call)
    requires Numbered(s) && call.dialogs == CallOf(s, c).dialogs && call.id == CallOf(s, c).id
    ensures Numbered(SetCall(s, c, call))
  {
    hide Numbered;
    SameNumbered(s, SetCall(s, c, call));
  }

  lemma SameNumbered(s: Store, r: Store)
    requires Numbered(s) && r.calls == s.calls && r.nextId == s.nextId && r.dialogAt == s.dialogAt && s.callAt.Keys <= r.callAt.Keys
    requires forall c :: CallOf(r, c).dialogs == CallOf(s, c).dialogs && CallOf(r, c).id == CallOf(s, c).id
    ensures Numbered(r)
  {
    assert forall x :: DialogOf(r, x) == DialogOf(s, x);
    forall x ensures InUse(r, x) <==> InUse(s, x) {
      assert forall b :: LiveDialog(r, b, x) <==> LiveDialog(s, b, x);
    }
    hide InUse;
    assert Distinct(r);
    forall c | c in r.calls ensures c in r.callAt && CallOf(r, c).id >= 1 {
    }
  }

  lemma DialogMadeNumbered(s: Store, c: Ptr, d: Ptr, now: int)
    requires Linked(s) && Numbered(s) && s.nextId <= 100000 && c in s.calls && d !in s.dialogAt && OpensDialog(s, c)
    ensures Numbered(DialogMade(s, c, d, now))
  {
    hide Updated, Linked, Numbered;
    var s1 := DialogAdded(s, c, d, NewDialog(-1, now));
    DialogAddedLinked(s, c, d, NewDialog(-1, now));
    var t := CallOf(s, c).outTr.value;
    var s2 := Reporting(s1, t, JInfo(c, Some(d)));
    LinkedSame(s1, s2);
    OpenedNumbered(s, s2, c, {d});
  }

  lemma MovedNumbered(s: Store, r: Store)
    requires Numbered(s) && r == s.(trAt := r.trAt)
    ensures Numbered(r)
  {
    hide Numbered;
    SameNumbered(s, r);
  }

  lemma OpeningNumbered(w: World, e: Event)
    requires Linked(w.s) && Enabled(w, e) && Numbered(w.s) && w.s.nextId <= 100000 && e.RequestArrived? && OpensCall(w.s, e.req)
    ensures Numbered(Step(w, e).s)
  {
    hide Linked, Numbered, NewInvite, MatchingPlace;
    var tr := Born(e.req.cseqMethod, IST_PRE_PROCEEDING, w.now, None);
    var s1 := WithTr(w.s, e.t, tr);
    LinkedSame(w.s, s1);
    MovedNumbered(w.s, s1);
    NewInviteNumbered(s1, e.req, e.t, e.c, e.d, w.now);
  }

  /** Every event keeps the ids complete and different while the counter is at most 100000 before it. */
  lemma StepNumbered(w: World, e: Event)
    requires Linked(w.s) && Enabled(w, e) && Numbered(w.s) && w.s.nextId <= 100000
    ensures Numbered(Step(w, e).s)
  {
    hide Numbered, Gentle, InitialInvite, NewRequest, DialogMade, SendRequest, SendPrack, SendAnswer, Terminate, Retried,
      Closed, Resent, GivenUp, ReleasePass, OpensCall, OpensDialog, Starts200, Progressed;
    assert NoDup(w.s.calls);
    if e.TransactionMoved? {
      MovedDialogs(w, e);
      MovedNumbered(w.s, Step(w, e).s);
    } else if e.CallStarted? {
      StartedNumbered(w.s, e.c, e.t, w.now);
    } else if e.RequestArrived? && OpensCall(w.s, e.req) {
      OpeningNumbered(w, e);
    } else if e.FirstAnswerArrived? && OpensDialog(w.s, e.c) {
      DialogMadeNumbered(w.s, e.c, e.d, w.now);
    } else {
      StepGentle(w, e);
      GentleNumbered(w.s, Step(w, e).s, ScopeOf(w, e));
    }
  }

  // ----- runs -----

  /** The counter is at most 100000 before every event. */
  predicate BeforeWrap(w: World, es: seq<Event>)
    decreases |es|
  {
    es == [] || (w.s.nextId <= 100000 && BeforeWrap(Step(w, es[0]), es[1..]))
  }

  lemma {:induction false} RunsAreTidy(w: World, es: seq<Event>)
    requires Good(w) && AllEnabled(w, es) && Numbered(w.s) && BeforeWrap(w, es)
    ensures Numbered(Run(w, es).s) && Tidy(Run(w, es).s)
    decreases |es|
  {
    hide Sane, Headed, Step, Enabled, Held, Numbered, CallsOk, Owned, Linked, Tidy;
    if es == [] {
      NumberedTidy(w.s);
    } else {
      StepInv(w, es[0]);
      StepSane(w, es[0]);
      StepHeaded(w, es[0]);
      StepNumbered(w, es[0]);
      RunsAreTidy(Step(w, es[0]), es[1..]);
    }
  }

  /** So in every run from the start, until the counter has passed 100000. */
  lemma ReachedIsTidy(es: seq<Event>)
    requires AllEnabled(START, es) && BeforeWrap(START, es)
    ensures Tidy(Run(START, es).s)
  {
    hide Good, AllEnabled, BeforeWrap, Run;
    StartIsGood();
    assert Numbered(START.s);
    RunsAreTidy(START, es);
  }

  // ----- what shared ids break -----

  /** Looking up a dialog's id finds the dialog. */
  ghost predicate FindsItself(s: Store, d: Ptr) {
    var p := CallDialogFind(s, s.calls, DialogOf(s, d).id);
    p.Some? && p.value.d == Some(d)
  }

  /** Every linked dialog with an id is found by it exactly if no two share one. */
  lemma LookupsExactly(s: Store)
    ensures (forall d | InUse(s, d) && DialogOf(s, d).id >= 1 :: FindsItself(s, d)) <==> Different(s)
  {
    hide CallDialogFind;
    if Different(s) {
      forall d | InUse(s, d) && DialogOf(s, d).id >= 1 ensures FindsItself(s, d) {
        var c :| LiveDialog(s, c, d);
        CallDialogFindSome(s, s.calls, c, d);
        var p := CallDialogFind(s, s.calls, DialogOf(s, d).id).value;
        assert LiveDialog(s, p.c, p.d.value);
        assert InUse(s, p.d.value);
      }
    }
  }

  /**
   A dialog waiting for its ACK that is not found by its id: it is another one that is given up, if a BYE
   can be sent in it.
   */
  lemma GivesUpAnother(s: Store, c: Ptr, d: Ptr, b: Ptr, e: Ptr, t: Ptr, toTag: bool, now: int)
    requires Waiting(DialogOf(s, d)) && e != d && CallDialogFind(s, s.calls, DialogOf(s, d).id) == Some(Place(b, Some(e)))
    requires DialogOf(s, e).established && !Provisional(s, FindLastOutInvite(s, b, Some(e)))
    requires FindLastOutInvite(s, b, Some(e)).Some? || toTag || !Provisional(s, FindLastIncInvite(s, b, Some(e)))
    ensures var r := GivenUp(s, c, d, t, toTag, now);
      DialogOf(r, d).established && !DialogOf(r, e).established && FindLastOut(r, e, "BYE") == Some(t)
  {
    hide CallDialogFind, TerminatedAt, FirstWith;
    var s1 := Acknowledged(s, d);
    AckedFind(s, d, s.calls, DialogOf(s, d).id);
    FirstWithSame(s, s1, DialogOf(s, e).incTrs, "INVITE", true);
    FirstWithSame(s, s1, DialogOf(s, e).outTrs, "INVITE", true);
    TerminatedAtOnly(s1, b, e, t, toTag, now);
    TerminateCloses(s1, b, e, t, toTag, now);
    var r := TerminatedAt(s1, b, Some(e), t, toTag, now);
    assert r == GivenUp(s, c, d, t, toTag, now);
    assert NumberKept(s1, r, d);
  }

  lemma {:induction false} AckedFind(s: Store, d: Ptr, cs: seq<Ptr>, id: int)
    ensures CallDialogFind(Acknowledged(s, d), cs, id) == CallDialogFind(s, cs, id)
  {
    if cs != [] {
      AckedWithId(s, d, CallOf(s, cs[0]).dialogs, id);
      AckedFind(s, d, cs[1..], id);
    }
  }

  lemma {:induction false} AckedWithId(s: Store, d: Ptr, ds: seq<Ptr>, id: int)
    ensures DialogWithId(Acknowledged(s, d), ds, id) == DialogWithId(s, ds, id)
  {
    if ds != [] {
      AckedWithId(s, d, ds[1..], id);
    }
  }

  /** An answered call that waits for its ACK, in a store that is in order; the counter has passed 100000. */
  const WRAPPED := World(Store([1], [], map[1 := Call(1, Some(20), None, [10])], map[10 := Dialog(2, true, 1, [], [], 0, 5, true)],
                               map[20 := Transaction("INVITE", IST_TERMINATED, 0, 0, Some(200), Some(JInfo(1, Some(10))))], 100001), 9)

  /** An INVITE for a second call. */
  const SECOND := RequestArrived(Request("INVITE", "INVITE", 1, false, {}, {}), 21, 2, 11)

  ghost predicate WrappedShape(s: Store) {
    && s.calls == [1] && s.garbage == [] && s.callAt.Keys == {1} && s.dialogAt.Keys == {10} && s.trAt.Keys == {20}
    && CallOf(s, 1) == Call(1, Some(20), None, [10]) && DialogOf(s, 10) == Dialog(2, true, 1, [], [], 0, 5, true)
    && TrOf(s, 20) == Transaction("INVITE", IST_TERMINATED, 0, 0, Some(200), Some(JInfo(1, Some(10))))
  }

  lemma WrappedIs()
    ensures WrappedShape(WRAPPED.s)
  {
  }

  lemma WrappedHeld(s: Store)
    requires WrappedShape(s)
    ensures Held(s) == multiset{20}
  {
    assert [10][1..] == [] && [1][1..] == [];
    assert DialogsHeld(s, [10]) == Own(s, 10) + DialogsHeld(s, []);
    assert CallsHeld(s, [1]) == CallHeld(s, 1) + CallsHeld(s, []);
  }

  lemma WrappedGood(w: World)
    requires WrappedShape(w.s) && w.now == 9
    ensures Good(w) && Tidy(w.s)
  {
    hide Held;
    WrappedHeld(w.s);
    assert forall d :: DialogOf(w.s, d).incTrs == [] && DialogOf(w.s, d).outTrs == [];
    assert CallOk(w.s, 1);
  }

  /** The store of the second call before its dialog is numbered. */
  function Arrived(): Store {
    var s1 := WithTr(WRAPPED.s, 21, Born("INVITE", IST_PRE_PROCEEDING, 9, None));
    Reporting(DialogAdded(CallAdded(s1, 2), 2, 11, NewDialog(1, 9)), 21, JInfo(2, Some(11)))
  }

  /** A second call in front, without ids yet. */
  ghost predicate TwoCalls(s: Store) {
    && s.calls == [2, 1] && 1 in s.callAt && 2 in s.callAt && 10 in s.dialogAt && 11 in s.dialogAt
    && s.callAt[1] == Call(1, Some(20), None, [10]) && s.dialogAt[10] == Dialog(2, true, 1, [], [], 0, 5, true)
    && s.callAt[2].(id := 0) == Call(0, None, None, [11]) && s.dialogAt[11].(id := 0) == NewDialog(1, 9).(id := 0)
  }

  lemma ArrivedIs()
    ensures TwoCalls(Arrived()) && Arrived().nextId == 100001 && CallOf(Arrived(), 2).id == DialogOf(Arrived(), 11).id == -1
  {
  }

  lemma NumbersFrom1(s: Store)
    requires TwoCalls(s) && s.nextId == 100001 && CallOf(s, 2).id == DialogOf(s, 11).id == -1
    ensures var u := Updated(s); TwoCalls(u) && DialogOf(u, 11).id == 2
  {
    hide CallsNumbered, SameButIds;
    var s0 := s.(nextId := 1);
    assert TwoCalls(s0) && CallNumbered(s0, 2).nextId == 2;
    NumbersSecond(s0);
    assert Updated(s) == CallsNumbered(s0, [2, 1]);
  }

  lemma NumbersSecond(s: Store)
    requires TwoCalls(s) && s.nextId == 1 && CallOf(s, 2).id == DialogOf(s, 11).id == -1
    ensures var u := CallsNumbered(s, [2, 1]); TwoCalls(u) && DialogOf(u, 11).id == 2
  {
    hide SameButIds;
    assert [2, 1][1..] == [1] && [1][1..] == [] && [11][1..] == [] && [10][1..] == [];
    var s1 := CallNumbered(s, 2);
    assert TwoCalls(s1) && s1.nextId == 2;
    var s2 := DialogNumbered(s1, 11);
    assert TwoCalls(s2) && DialogOf(s2, 11).id == 2;
    assert DialogsNumbered(s1, [11]) == DialogsNumbered(s2, []) == s2;
    assert CallsNumbered(s, [2, 1]) == CallsNumbered(s2, [1]);
    assert CallNumbered(s2, 1) == s2 && DialogNumbered(s2, 10) == s2;
    assert DialogsNumbered(s2, [10]) == DialogsNumbered(s2, []) == s2;
    assert CallsNumbered(s2, [1]) == CallsNumbered(s2, []) == s2;
  }

  ghost predicate SharedId(s: Store) {
    && s.calls == [2, 1] && CallOf(s, 1) == Call(1, Some(20), None, [10]) && CallOf(s, 2).(id := 0) == Call(0, Some(21), None, [11])
    && DialogOf(s, 10) == Dialog(2, true, 1, [], [], 0, 5, true) && DialogOf(s, 11) == NewDialog(1, 9).(id := 2)
    && TrOf(s, 21).response == None && 22 !in s.trAt
  }

  lemma SecondArrives()
    ensures SharedId(Step(WRAPPED, SECOND).s) && Step(WRAPPED, SECOND).now == 9
  {
    hide Updated;
    var s1 := WithTr(WRAPPED.s, 21, Born("INVITE", IST_PRE_PROCEEDING, 9, None));
    NothingMatches(WRAPPED.s, WRAPPED.s.calls);
    assert Step(WRAPPED, SECOND).s == NewInvite(s1, SECOND.req, 21, 2, 11, 9);
    var u := Updated(Arrived());
    assert NewInvite(s1, SECOND.req, 21, 2, 11, 9) == SetCall(u, 2, CallOf(u, 2).(incTr := Some(21)));
    ArrivedIs();
    NumbersFrom1(Arrived());
    assert u.trAt == Arrived().trAt by { UpdatedTrs(Arrived()); }
  }

  lemma UpdatedTrs(s: Store)
    ensures Updated(s).trAt == s.trAt
  {
    hide Updated;
  }

  /** The second call's dialog gets an id that is taken, and is found in place of the first. */
  lemma WrapSharesId()
    ensures Good(WRAPPED) && Tidy(WRAPPED.s) && Enabled(WRAPPED, SECOND)
    ensures var r := Step(WRAPPED, SECOND).s;
      && DialogOf(r, 11).id == DialogOf(r, 10).id == 2 && LiveDialog(r, 1, 10) && LiveDialog(r, 2, 11)
      && CallDialogFind(r, r.calls, 2) == Some(Place(2, Some(11))) && !FindsItself(r, 10) && !Tidy(r)
  {
    hide Step, Good, Tidy;
    WrappedIs();
    WrappedGood(WRAPPED);
    SecondArrives();
    var r := Step(WRAPPED, SECOND).s;
    assert DialogWithId(r, [11], 2) == Some(11);
    NotTidy(r, 1, 10, 2, 11);
  }

  lemma {:induction false} NothingMatchesIn(s: Store, ds: seq<Ptr>)
    ensures MatchingDialog(s, ds, {}) == None
  {
    if ds != [] {
      NothingMatchesIn(s, ds[1..]);
    }
  }

  lemma {:induction false} NothingMatches(s: Store, cs: seq<Ptr>)
    ensures MatchingPlace(s, cs, {}) == None
  {
    if cs != [] {
      NothingMatchesIn(s, CallOf(s, cs[0]).dialogs);
      NothingMatches(s, cs[1..]);
    }
  }

  lemma NotTidy(s: Store, c: Ptr, d: Ptr, b: Ptr, e: Ptr)
    requires LiveDialog(s, c, d) && LiveDialog(s, b, e) && d != e && DialogOf(s, d).id >= 1 && DialogOf(s, e).id == DialogOf(s, d).id
    ensures !Tidy(s)
  {
  }

  /** And when no ACK comes for the first call, it is the second one that is ended. */
  lemma WrapEndsAnother()
    ensures var w := Step(WRAPPED, SECOND); var e := TimerRanOut(1, 10, 22, false);
      && Enabled(w, e) && DialogOf(Step(w, e).s, 10).established && !DialogOf(Step(w, e).s, 11).established
  {
    hide Good, Tidy, GivenUp, FirstWith, CallDialogFind, FindsItself, CallHandlers.NewRequest;
    SecondArrives();
    WrapSharesId();
    NoneIn(Step(WRAPPED, SECOND).s);
    GivesUpAnother(Step(WRAPPED, SECOND).s, 1, 10, 2, 11, 22, false, 9);
  }

  lemma NoneIn(s: Store)
    ensures FirstWith(s, [], "INVITE", true) == None
  {
  }

  // ----- when eXosip_update keeps ids different -----

  /** Dialog d is given an id. */
  ghost predicate GetsId(s: Store, d: Ptr) {
    InUse(s, d) && DialogOf(s, d).established && DialogOf(s, d).id < 1
  }

  /** What the numbering has done to the linked dialogs of s so far: new ids lie between the first one and the counter. */
  ghost predicate Numbering(s: Store, r: Store, first: int) {
    && 1 <= first <= r.nextId
    && (forall d | InUse(s, d) :: DialogOf(r, d).established == DialogOf(s, d).established)
    && (forall d | InUse(s, d) && !GetsId(s, d) ::
          DialogOf(r, d).id == DialogOf(s, d).id || (!DialogOf(s, d).established && DialogOf(r, d).id == -1))
    && (forall d | GetsId(s, d) :: DialogOf(r, d).id == DialogOf(s, d).id || first <= DialogOf(r, d).id < r.nextId)
    && (forall d, e | GetsId(s, d) && GetsId(s, e) && d != e && DialogOf(r, d).id >= 1 :: DialogOf(r, e).id != DialogOf(r, d).id)
  }

  lemma DialogNumbering(s: Store, r: Store, first: int, d: Ptr)
    requires Numbering(s, r, first)
    ensures Numbering(s, DialogNumbered(r, d), first)
  {
    hide InUse;
  }

  lemma CallNumbering(s: Store, r: Store, first: int, c: Ptr)
    requires Numbering(s, r, first)
    ensures Numbering(s, CallNumbered(r, c), first)
  {
    hide InUse;
  }

  lemma {:induction false} DialogsNumbering(s: Store, r: Store, first: int, ds: seq<Ptr>)
    requires Numbering(s, r, first)
    ensures Numbering(s, DialogsNumbered(r, ds), first)
    decreases |ds|
  {
    hide Numbering, SameButIds;
    if ds != [] {
      DialogNumbering(s, r, first, ds[0]);
      DialogsNumbering(s, DialogNumbered(r, ds[0]), first, ds[1..]);
    }
  }

  lemma {:induction false} CallsNumbering(s: Store, r: Store, first: int, cs: seq<Ptr>)
    requires Numbering(s, r, first)
    ensures Numbering(s, CallsNumbered(r, cs), first)
    decreases |cs|
  {
    hide Numbering, SameButIds, DialogsNumbered;
    if cs != [] {
      CallNumbering(s, r, first, cs[0]);
      var r1 := CallNumbered(r, cs[0]);
      DialogsNumbering(s, r1, first, CallOf(r, cs[0]).dialogs);
      CallsNumbering(s, DialogsNumbered(r1, CallOf(r, cs[0]).dialogs), first, cs[1..]);
    }
  }

  /** The id that eXosip_update gives to dialog d is not that of another linked dialog. */
  ghost predicate FreeId(s: Store, d: Ptr) {
    forall e | InUse(s, e) && DialogOf(s, e).established && DialogOf(s, e).id >= 1 ::
      DialogOf(s, e).id != DialogOf(Updated(s), d).id
  }

  /** Every id that is handed out comes from the counter, which starts again at 1 behind 100000. */
  lemma HandedOut(s: Store, d: Ptr)
    requires Linked(s) && GetsId(s, d)
    ensures var r := Updated(s); (if s.nextId > 100000 then 1 else s.nextId) <= DialogOf(r, d).id < r.nextId
  {
    hide CallsNumbered, SameButIds, Linked;
    UpdatedNumbering(s);
    var c :| LiveDialog(s, c, d);
    UpdatedAll(s, c, d);
  }

  lemma UpdatedNumbering(s: Store)
    ensures Numbering(s, Updated(s), if s.nextId > 100000 then 1 else s.nextId)
  {
    hide CallsNumbered, SameButIds, InUse;
    var first := if s.nextId > 100000 then 1 else s.nextId;
    CallsNumbering(s, if s.nextId > 100000 then s.(nextId := 1) else s, first, s.calls);
  }

  lemma UpdatedAll(s: Store, c: Ptr, d: Ptr)
    requires LiveDialog(s, c, d)
    ensures DialogOf(s, d).established ==> DialogOf(Updated(s), d).id >= 1
    ensures !DialogOf(s, d).established ==> DialogOf(Updated(s), d).id == -1
  {
    hide Updated;
    var r := Updated(s);
    SameIdsCalls(s, r);
    SameButIdsDialog(s, r, d);
    UpdatedRight(s);
    assert CallOf(r, c).(id := 0) == CallOf(s, c).(id := 0);
    assert Right(DialogOf(r, d));
  }

  /** eXosip_update keeps the ids of linked dialogs different exactly if no id it hands out is in use. */
  lemma UpdatedDifferentExactly(s: Store)
    requires Linked(s) && Different(s)
    ensures Different(Updated(s)) <==> forall d | GetsId(s, d) :: FreeId(s, d)
  {
    hide Updated, Linked, InUse;
    var r := Updated(s);
    UpdatedNumbering(s);
    UpdatedSame(s);
    SameInUse(s, r);
    forall d | InUse(s, d) ensures DialogOf(s, d).established <==> DialogOf(r, d).id >= 1 {
      InUseAll(s, d);
    }
    if forall d | GetsId(s, d) :: FreeId(s, d) {
      forall d, e | InUse(r, d) && InUse(r, e) && DialogOf(r, d).id >= 1 && DialogOf(r, e).id == DialogOf(r, d).id ensures e == d {
        assert GetsId(s, d) ==> FreeId(s, d);
        assert GetsId(s, e) ==> FreeId(s, e);
      }
    }
  }

  lemma UpdatedSame(s: Store)
    ensures SameButIds(s, Updated(s))
  {
    hide CallsNumbered, SameButIds;
  }

  lemma InUseAll(s: Store, d: Ptr)
    requires Linked(s) && InUse(s, d)
    ensures DialogOf(s, d).established <==> DialogOf(Updated(s), d).id >= 1
  {
    hide Updated, Linked;
    var c :| LiveDialog(s, c, d);
    UpdatedAll(s, c, d);
  }
}
