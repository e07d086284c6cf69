/**
 What every operation leaves of the dialogs and the transactions it does not work on. A timer is
 kept or cleared, an ended dialog stays ended, ids stay or are taken away, and a transaction loses
 at most its jinfo. All operations but those that make calls or dialogs only take links away.
 */
module CallTimes {
  import opened Numerals
  import opened CallStore
  import opened CallOps
  import opened CallInvariants
  import opened CallRelease
  import opened CallHandlers
  import opened CallSteps

  // ----- the relation -----

  predicate TimeKept(a: Dialog, b: Dialog) {
    (b.timer == a.timer && b.count == a.count && b.ok200 == a.ok200) || (!b.ok200 && b.count == 0)
  }

  predicate IdKept(a: Dialog, b: Dialog) {
    && (b.established ==> a.established)
    && (b.established && a.id >= 1 ==> b.id == a.id)
    && (a.id >= 1 || !a.established ==> b.id == a.id || b.id == -1)
  }

  /** Every linked call and every established dialog has its id. */
  ghost predicate Complete(s: Store) {
    && (forall c | c in s.calls :: c in s.callAt && CallOf(s, c).id >= 1)
    && (forall c, d | c in s.calls && d in CallOf(s, c).dialogs && DialogOf(s, d).established :: DialogOf(s, d).id >= 1)
  }

  ghost predicate CallLess(s: Store, r: Store, c: Ptr) {
    && c in s.calls && (c in s.callAt ==> c in r.callAt)
    && (forall d | d in CallOf(r, c).dialogs :: d in CallOf(s, c).dialogs)
    && (CallOf(s, c).id >= 1 ==> CallOf(r, c).id == CallOf(s, c).id)
  }

  /** Links go, ids stay, and no number is used where all have theirs. */
  ghost predicate LinksLess(s: Store, r: Store) {
    NoDup(s.calls) ==>
      && NoDup(r.calls) && (forall c | c in r.calls :: CallLess(s, r, c))
      && (Complete(s) && s.nextId <= 100000 ==> r.nextId == s.nextId)
  }

  /**
   What an operation works on: transactions it makes at `now`, dialogs whose timer it sets, dialogs
   it makes; `linked` if it links nothing.
   */
  datatype Scope = Scope(now: int, trs: set<Ptr>, timed: set<Ptr>, made: set<Ptr>, linked: bool)

  ghost predicate TrKept(s: Store, r: Store, z: Scope, t: Ptr)
    requires t in r.trAt
  {
    || (t in s.trAt && r.trAt[t].(info := None) == s.trAt[t].(info := None))
    || (t in z.trs && r.trAt[t].birth == z.now)
  }

  ghost predicate Gentle(s: Store, r: Store, z: Scope) {
    && (forall t | t in r.trAt :: TrKept(s, r, z, t))
    && (forall d | d !in z.timed :: TimeKept(DialogOf(s, d), DialogOf(r, d)))
    && (forall d | d !in z.made :: IdKept(DialogOf(s, d), DialogOf(r, d)))
    && (z.linked ==> z.made == {} && LinksLess(s, r))
  }

  lemma GentleSelf(s: Store, z: Scope)
    requires z.linked ==> z.made == {}
    ensures Gentle(s, s, z)
  {
  }

  lemma SetDialogGentle(a: Store, s: Store, d: Ptr, dialog: Dialog, z: Scope)
    requires Gentle(a, s, z)
    requires d in z.timed || TimeKept(DialogOf(s, d), dialog)
    requires d in z.made || IdKept(DialogOf(s, d), dialog)
    ensures Gentle(a, SetDialog(s, d, dialog), z)
  {
    var r := SetDialog(s, d, dialog);
    forall t | t in r.trAt ensures TrKept(a, r, z, t) {
      assert TrKept(a, s, z, t);
    }
    if z.linked && NoDup(a.calls) {
      forall c | c in r.calls ensures CallLess(a, r, c) {
        assert CallLess(a, s, c);
      }
    }
  }

  lemma SetCallGentle(a: Store, s: Store, c: Ptr, call: Call, z: Scope)
    requires Gentle(a, s, z)
    requires z.linked ==> (forall d | d in call.dialogs :: d in CallOf(s, c).dialogs) && (CallOf(s, c).id >= 1 ==> call.id == CallOf(s, c).id)
    ensures Gentle(a, SetCall(s, c, call), z)
  {
    var r := SetCall(s, c, call);
    forall t | t in r.trAt ensures TrKept(a, r, z, t) {
      assert TrKept(a, s, z, t);
    }
    if z.linked && NoDup(a.calls) {
      forall e | e in r.calls ensures CallLess(a, r, e) {
        assert CallLess(a, s, e);
      }
    }
  }

  lemma WithTrGentle(a: Store, s: Store, t: Ptr, tr: Transaction, z: Scope)
    requires Gentle(a, s, z)
    requires (t in z.trs && tr.birth == z.now) || (t in s.trAt && tr.(info := None) == s.trAt[t].(info := None))
    ensures Gentle(a, WithTr(s, t, tr), z)
  {
    var r := WithTr(s, t, tr);
    forall x | x in r.trAt ensures TrKept(a, r, z, x) {
      assert x in s.trAt ==> TrKept(a, s, z, x);
    }
    if z.linked && NoDup(a.calls) {
      forall c | c in r.calls ensures CallLess(a, r, c) {
        assert CallLess(a, s, c);
      }
    }
  }

  /** Transactions that lose their jinfo, or go. */
  ghost predicate OnlyTrs(s: Store, r: Store) {
    && r == s.(trAt := r.trAt, garbage := r.garbage)
    && forall t | t in r.trAt :: t in s.trAt && r.trAt[t].(info := None) == s.trAt[t].(info := None)
  }

  lemma OnlyTrsGentle(a: Store, s: Store, r: Store, z: Scope)
    requires Gentle(a, s, z) && OnlyTrs(s, r)
    ensures Gentle(a, r, z)
  {
    forall t | t in r.trAt ensures TrKept(a, r, z, t) {
      assert TrKept(a, s, z, t);
    }
    if z.linked && NoDup(a.calls) {
      forall c | c in r.calls ensures CallLess(a, r, c) {
        assert CallLess(a, s, c);
      }
    }
  }

  // ----- what eXosip_update does to ids -----

  ghost predicate NumberKept(s: Store, r: Store, e: Ptr) {
    && (DialogOf(s, e).established && DialogOf(s, e).id >= 1 ==> DialogOf(r, e) == DialogOf(s, e))
    && (!DialogOf(s, e).established ==> DialogOf(r, e) == DialogOf(s, e) || DialogOf(r, e) == DialogOf(s, e).(id := -1))
  }

  lemma {:induction false} DialogsNumberedIds(s: Store, ds: seq<Ptr>, e: Ptr)
    ensures NumberKept(s, DialogsNumbered(s, ds), e)
    decreases |ds|
  {
    if ds != [] {
      DialogsNumberedIds(DialogNumbered(s, ds[0]), ds[1..], e);
      assert NumberKept(s, DialogNumbered(s, ds[0]), e);
    }
  }

  lemma {:induction false} CallsNumberedIds(s: Store, cs: seq<Ptr>, e: Ptr)
    ensures NumberKept(s, CallsNumbered(s, cs), e)
    decreases |cs|
  {
    hide DialogsNumbered, SameButIds;
    if cs != [] {
      var s1 := CallNumbered(s, cs[0]);
      var s2 := DialogsNumbered(s1, CallOf(s, cs[0]).dialogs);
      assert DialogOf(s1, e) == DialogOf(s, e);
      DialogsNumberedIds(s1, CallOf(s, cs[0]).dialogs, e);
      CallsNumberedIds(s2, cs[1..], e);
    }
  }

  /** A call with an id keeps it. */
  ghost predicate CallIdKept(s: Store, r: Store, c: Ptr) {
    CallOf(s, c).id >= 1 ==> CallOf(r, c).id == CallOf(s, c).id
  }

  lemma {:induction false} DialogsNumberedCalls(s: Store, ds: seq<Ptr>)
    ensures DialogsNumbered(s, ds).callAt == s.callAt
    decreases |ds|
  {
    if ds != [] {
      DialogsNumberedCalls(DialogNumbered(s, ds[0]), ds[1..]);
    }
  }

  lemma {:induction false} CallsNumberedCallIds(s: Store, cs: seq<Ptr>, c: Ptr)
    ensures CallIdKept(s, CallsNumbered(s, cs), c)
    decreases |cs|
  {
    hide DialogsNumbered, SameButIds;
    if cs != [] {
      var s1 := CallNumbered(s, cs[0]);
      DialogsNumberedCalls(s1, CallOf(s, cs[0]).dialogs);
      CallsNumberedCallIds(DialogsNumbered(s1, CallOf(s, cs[0]).dialogs), cs[1..], c);
    }
  }

  lemma UpdatedCallIds(s: Store, c: Ptr)
    ensures CallIdKept(s, Updated(s), c)
  {
    hide CallsNumbered, SameButIds;
    var s1 := if s.nextId > 100000 then s.(nextId := 1) else s;
    CallsNumberedCallIds(s1, s.calls, c);
  }

  lemma UpdatedIds(s: Store, e: Ptr)
    ensures NumberKept(s, Updated(s), e)
  {
    hide CallsNumbered, SameButIds;
    var s1 := if s.nextId > 100000 then s.(nextId := 1) else s;
    assert DialogOf(s1, e) == DialogOf(s, e);
    CallsNumberedIds(s1, s.calls, e);
  }

  lemma {:induction false} DialogsNumberedNext(s: Store, ds: seq<Ptr>)
    requires forall d | d in ds && DialogOf(s, d).established :: DialogOf(s, d).id >= 1
    ensures DialogsNumbered(s, ds).nextId == s.nextId
    decreases |ds|
  {
    if ds != [] {
      var s1 := DialogNumbered(s, ds[0]);
      assert ds[0] in ds;
      forall d | d in ds[1..] && DialogOf(s1, d).established ensures DialogOf(s1, d).id >= 1 {
        assert d in ds;
        assert DialogOf(s, d).established;
      }
      DialogsNumberedNext(s1, ds[1..]);
    }
  }

  lemma {:induction false} CallsNumberedNext(s: Store, cs: seq<Ptr>)
    requires forall c | c in cs :: c in s.callAt && s.callAt[c].id >= 1
    requires forall c, d | c in cs && d in CallOf(s, c).dialogs && DialogOf(s, d).established :: DialogOf(s, d).id >= 1
    ensures CallsNumbered(s, cs).nextId == s.nextId
    decreases |cs|
  {
    hide DialogsNumbered, SameButIds;
    if cs != [] {
      assert CallNumbered(s, cs[0]) == s;
      var ds := CallOf(s, cs[0]).dialogs;
      var s2 := DialogsNumbered(s, ds);
      DialogsNumberedNext(s, ds);
      DialogsNumberedCalls(s, ds);
      forall c, d | c in cs[1..] && d in CallOf(s2, c).dialogs && DialogOf(s2, d).established ensures DialogOf(s2, d).id >= 1 {
        assert c in cs && CallOf(s2, c) == CallOf(s, c);
        DialogsNumberedIds(s, ds, d);
      }
      CallsNumberedNext(s2, cs[1..]);
    }
  }

  /** Where every id is given, eXosip_update uses no number. */
  lemma UpdatedNext(s: Store)
    requires Complete(s) && s.nextId <= 100000
    ensures Updated(s).nextId == s.nextId
  {
    hide CallsNumbered;
    CallsNumberedNext(s, s.calls);
  }

  /** Taking links away leaves the rest complete. */
  lemma CompleteKept(a: Store, s: Store, z: Scope)
    requires Gentle(a, s, z) && z.linked && NoDup(a.calls) && Complete(a)
    ensures Complete(s)
  {
    forall c | c in s.calls ensures c in s.callAt && CallOf(s, c).id >= 1 {
      assert CallLess(a, s, c);
    }
    forall c, d | c in s.calls && d in CallOf(s, c).dialogs && DialogOf(s, d).established ensures DialogOf(s, d).id >= 1 {
      assert CallLess(a, s, c) && IdKept(DialogOf(a, d), DialogOf(s, d));
    }
  }

  lemma UpdatedGentle(a: Store, s: Store, z: Scope)
    requires Gentle(a, s, z)
    ensures Gentle(a, Updated(s), z)
  {
    hide Updated, LinksLess;
    var r := Updated(s);
    forall d ensures IdKept(DialogOf(s, d), DialogOf(r, d)) && TimeKept(DialogOf(s, d), DialogOf(r, d)) {
      SameButIdsDialog(s, r, d);
      UpdatedIds(s, d);
    }
    forall t | t in r.trAt ensures TrKept(a, r, z, t) {
      assert TrKept(a, s, z, t);
    }
    if z.linked {
      UpdatedLinks(a, s, z);
    }
  }

  lemma UpdatedLinks(a: Store, s: Store, z: Scope)
    requires Gentle(a, s, z) && z.linked
    ensures LinksLess(a, Updated(s))
  {
    hide Updated, Gentle;
    var r := Updated(s);
    assert LinksLess(a, s) by { GentleLinks(a, s, z); }
    if NoDup(a.calls) {
      forall c | c in r.calls ensures CallLess(a, r, c) {
        assert CallLess(a, s, c);
        SameButIdsOutside(s, r, c);
        assert SameCall(s, r, c);
        UpdatedCallIds(s, c);
      }
      if Complete(a) && a.nextId <= 100000 {
        CompleteKept(a, s, z);
        UpdatedNext(s);
      }
    }
  }

  lemma GentleLinks(a: Store, s: Store, z: Scope)
    requires Gentle(a, s, z) && z.linked
    ensures LinksLess(a, s)
  {
  }

  // ----- sanity -----

  predicate CountOk(dialog: Dialog) {
    0 <= dialog.count <= 5 && (dialog.count > 0 ==> dialog.ok200)
  }

  ghost predicate CountsOk(s: Store) {
    forall d | d in s.dialogAt :: CountOk(s.dialogAt[d])
  }

  /** No transaction is from the future, and the lost-200 counts stay in 0..5. */
  ghost predicate Sane(s: Store, now: int) {
    0 <= now && Past(s, now) && CountsOk(s)
  }

  lemma GentleSane(s: Store, r: Store, z: Scope)
    requires Sane(s, z.now) && Gentle(s, r, z) && forall d | d in z.timed :: CountOk(DialogOf(r, d))
    ensures Sane(r, z.now)
  {
    forall t | t in r.trAt ensures r.trAt[t].birth <= z.now {
      assert TrKept(s, r, z, t);
    }
    forall d | d in r.dialogAt ensures CountOk(DialogOf(r, d)) {
      assert d !in z.timed ==> TimeKept(DialogOf(s, d), DialogOf(r, d));
    }
  }

  // ----- the operations, each after any gentle start -----

  lemma ClosedGentle(a: Store, s: Store, d: Ptr, z: Scope)
    requires Gentle(a, s, z)
    ensures Gentle(a, Closed(s, d), z)
  {
    hide Updated, Gentle;
    var s1 := SetDialog(s, d, DialogOf(s, d).(established := false));
    SetDialogGentle(a, s, d, DialogOf(s, d).(established := false), z);
    UpdatedGentle(a, s1, z);
  }

  // ----- the release pass -----

  lemma RemovedGentle(a: Store, s: Store, t: Ptr, c: Ptr, z: Scope)
    requires Gentle(a, s, z)
    ensures Gentle(a, RemovedFromCall(s, t, c), z)
  {
    hide Gentle, Remove;
    var call := CallOf(s, c);
    SetCallGentle(a, s, c, call.(incTr := None), z);
    SetCallGentle(a, s, c, call.(outTr := None), z);
    forall d, l ensures Gentle(a, SetDialog(s, d, DialogOf(s, d).(incTrs := l)), z) {
        SetDialogGentle(a, s, d, DialogOf(s, d).(incTrs := l), z);
    }
    forall d, l ensures Gentle(a, SetDialog(s, d, DialogOf(s, d).(outTrs := l)), z) {
        SetDialogGentle(a, s, d, DialogOf(s, d).(outTrs := l), z);
    }
  }

  lemma GarbageGentle(a: Store, s: Store, garbage: seq<Ptr>, z: Scope)
    requires Gentle(a, s, z)
    ensures Gentle(a, s.(garbage := garbage), z)
  {
  }

  lemma CheckGentle(a: Store, s: Store, t: Option<Ptr>, done: State, c: Ptr, z: Scope, expire: bool)
    requires Gentle(a, s, z)
    ensures Gentle(a, Check(s, t, done, c, z.now, expire).s, z)
  {
    hide Gentle, RemovedFromCall;
    if t.Some? {
      RemovedGentle(a, s, t.value, c, z);
      var r := RemovedFromCall(s, t.value, c);
      GarbageGentle(a, r, [t.value] + r.garbage, z);
    }
  }

  lemma PendingGentle(a: Store, s: Store, c: Ptr, d: Ptr, z: Scope)
    requires Gentle(a, s, z)
    ensures Gentle(a, Pending(s, c, d, z.now).s, z)
  {
    hide Gentle, Check, FindLastInc, FindLastOut, FindLastIncInvite, FindLastOutInvite;
    var r1 := Check(s, FindLastInc(s, d, "BYE"), NIST_TERMINATED, c, z.now, true);
    CheckGentle(a, s, FindLastInc(s, d, "BYE"), NIST_TERMINATED, c, z, true);
    var r2 := Check(r1.s, FindLastOut(r1.s, d, "BYE"), NICT_TERMINATED, c, z.now, true);
    CheckGentle(a, r1.s, FindLastOut(r1.s, d, "BYE"), NICT_TERMINATED, c, z, true);
    var r3 := Check(r2.s, FindLastIncInvite(r2.s, c, Some(d)), IST_TERMINATED, c, z.now, false);
    CheckGentle(a, r2.s, FindLastIncInvite(r2.s, c, Some(d)), IST_TERMINATED, c, z, false);
    var r4 := Check(r3.s, FindLastOutInvite(r3.s, c, Some(d)), ICT_TERMINATED, c, z.now, false);
    CheckGentle(a, r3.s, FindLastOutInvite(r3.s, c, Some(d)), ICT_TERMINATED, c, z, false);
    var r5 := Check(r4.s, FindLastInc(r4.s, d, "REFER"), IST_TERMINATED, c, z.now, true);
    CheckGentle(a, r4.s, FindLastInc(r4.s, d, "REFER"), IST_TERMINATED, c, z, true);
    CheckGentle(a, r5.s, FindLastOut(r5.s, d, "REFER"), NICT_TERMINATED, c, z, true);
  }

  lemma MovedGentle(a: Store, s: Store, d: Ptr, dialog: Dialog, t: Ptr, z: Scope)
    requires Gentle(a, s, z) && dialog.(incTrs := [], outTrs := []) == DialogOf(s, d).(incTrs := [], outTrs := [])
    ensures Gentle(a, Filed(SetDialog(s, d, dialog), t), z)
  {
    hide Gentle;
    SetDialogGentle(a, s, d, dialog, z);
    var r := SetDialog(s, d, dialog);
    GarbageGentle(a, r, [t] + r.garbage, z);
  }

  lemma IncReleasedGentle(a: Store, s: Store, c: Ptr, d: Ptr, z: Scope)
    requires Gentle(a, s, z)
    ensures Gentle(a, IncReleased(s, c, d, z.now).s, z)
  {
    hide Gentle, FindLastIncInvite, FirstReleasable;
    var l := DialogOf(s, d).incTrs;
    var k := FirstReleasable(s, l, 1, FindLastIncInvite(s, c, Some(d)), IST_TERMINATED, NIST_TERMINATED, z.now);
    if k < |l| {
      MovedGentle(a, s, d, DialogOf(s, d).(incTrs := Without(l, k)), l[k], z);
    }
  }

  lemma OutReleasedGentle(a: Store, s: Store, c: Ptr, d: Ptr, z: Scope)
    requires Gentle(a, s, z)
    ensures Gentle(a, OutReleased(s, c, d, z.now).s, z)
  {
    hide Gentle, FindLastOutInvite, FirstReleasable;
    var l := DialogOf(s, d).outTrs;
    var k := FirstReleasable(s, l, 1, FindLastOutInvite(s, c, Some(d)), ICT_TERMINATED, NICT_TERMINATED, z.now);
    if k < |l| {
      MovedGentle(a, s, d, DialogOf(s, d).(outTrs := Without(l, k)), l[k], z);
    }
  }

  /** A dialog that is freed. */
  lemma FreedGentle(a: Store, s: Store, d: Ptr, z: Scope)
    requires Gentle(a, s, z)
    ensures Gentle(a, s.(dialogAt := s.dialogAt - {d}), z)
  {
    var r := s.(dialogAt := s.dialogAt - {d});
    forall t | t in r.trAt ensures TrKept(a, r, z, t) {
      assert TrKept(a, s, z, t);
    }
    if z.linked && NoDup(a.calls) {
      forall e | e in r.calls ensures CallLess(a, r, e) {
        assert CallLess(a, s, e);
      }
    }
  }

  lemma DialogFreedGentle(a: Store, s: Store, c: Ptr, d: Ptr, z: Scope)
    requires Gentle(a, s, z)
    ensures Gentle(a, DialogFreed(Unlinked(s, c, d), d), z)
  {
    hide Gentle, Remove, Own, DrainedInto;
    var ds := CallOf(s, c).dialogs;
    RemoveContents(ds, d);
    SetCallGentle(a, s, c, CallOf(s, c).(dialogs := Remove(ds, d)), z);
    var u := Unlinked(s, c, d);
    FreedGentle(a, u, d, z);
    OnlyTrsGentle(a, u.(dialogAt := u.dialogAt - {d}), DialogFreed(u, d), z);
  }

  lemma RefsDroppedGentle(a: Store, s: Store, c: Ptr, d: Ptr, z: Scope)
    requires Gentle(a, s, z)
    ensures Gentle(a, RefsDropped(s, c, d), z)
  {
  }

  lemma DialogRemovedGentle(a: Store, s: Store, c: Ptr, d: Ptr, z: Scope)
    requires Gentle(a, s, z)
    ensures Gentle(a, DialogRemoved(s, c, d), z)
  {
    hide Gentle, Updated, DialogFreed, Unlinked, RefsDropped;
    RefsDroppedGentle(a, s, c, d, z);
    DialogFreedGentle(a, RefsDropped(s, c, d), c, d, z);
    UpdatedGentle(a, DialogFreed(Unlinked(RefsDropped(s, c, d), c, d), d), z);
  }

  lemma {:induction false} DialogsDrainedGentle(a: Store, s: Store, c: Ptr, z: Scope)
    requires Gentle(a, s, z)
    ensures Gentle(a, DialogsDrained(s, c), z) && DialogsDrained(s, c).calls == s.calls
    decreases |CallOf(s, c).dialogs|
  {
    hide Gentle, Updated;
    var ds := CallOf(s, c).dialogs;
    if ds != [] {
      var s1 := DialogFreed(Unlinked(s, c, ds[0]), ds[0]);
      DialogFreedGentle(a, s, c, ds[0], z);
      UpdatedGentle(a, s1, z);
      DrainedShorter(s, c);
      DialogsDrainedGentle(a, Updated(s1), c, z);
    }
  }

  lemma DrainedShorter(s: Store, c: Ptr)
    requires CallOf(s, c).dialogs != []
    ensures var d := CallOf(s, c).dialogs[0];
      CallOf(Updated(DialogFreed(Unlinked(s, c, d), d)), c).dialogs == CallOf(s, c).dialogs[1..]
  {
    hide Updated;
    var d := CallOf(s, c).dialogs[0];
    var s1 := DialogFreed(Unlinked(s, c, d), d);
    assert CallOf(s1, c).dialogs == Remove(CallOf(s, c).dialogs, d);
    assert SameButIds(s1, Updated(s1));
    assert Updated(s1).callAt[c].(id := 0) == s1.callAt[c].(id := 0);
  }

  /** A call that is freed is linked no longer. */
  lemma CallGoneGentle(a: Store, s: Store, c: Ptr, z: Scope)
    requires Gentle(a, s, z) && (z.linked && NoDup(a.calls) ==> c !in s.calls)
    ensures Gentle(a, s.(callAt := s.callAt - {c}), z)
  {
    var r := s.(callAt := s.callAt - {c});
    forall t | t in r.trAt ensures TrKept(a, r, z, t) {
      assert TrKept(a, s, z, t);
    }
    if z.linked && NoDup(a.calls) {
      forall e | e in r.calls ensures CallLess(a, r, e) {
        assert CallLess(a, s, e);
      }
    }
  }

  lemma SlotsFiledGentle(a: Store, s: Store, c: Ptr, z: Scope)
    requires Gentle(a, s, z) && (z.linked && NoDup(a.calls) ==> c !in s.calls)
    ensures Gentle(a, SlotsFiled(s, c), z)
  {
    hide Gentle, Slot, Fronted;
    CallGoneGentle(a, s, c, z);
    OnlyTrsGentle(a, s.(callAt := s.callAt - {c}), SlotsFiled(s, c), z);
  }

  lemma CallUnlinkedGentle(a: Store, s: Store, c: Ptr, z: Scope)
    requires Gentle(a, s, z)
    ensures var r := s.(calls := Remove(s.calls, c));
      Gentle(a, r, z) && (z.linked && NoDup(a.calls) ==> c !in r.calls)
  {
    hide Remove;
    var r := s.(calls := Remove(s.calls, c));
    RemoveContents(s.calls, c);
    forall t | t in r.trAt ensures TrKept(a, r, z, t) {
      assert TrKept(a, s, z, t);
    }
    if z.linked && NoDup(a.calls) {
      RemoveNoDup(s.calls, c);
      forall e | e in r.calls ensures CallLess(a, r, e) {
        assert CallLess(a, s, e);
      }
    }
  }

  lemma CallReleasedGentle(a: Store, s: Store, c: Ptr, z: Scope)
    requires Gentle(a, s, z)
    ensures Gentle(a, CallReleased(s, c), z)
  {
    hide Gentle, SlotsFiled, DialogsDrained, Remove, NoDup;
    var s0 := s.(calls := Remove(s.calls, c));
    CallUnlinkedGentle(a, s, c, z);
    DialogsDrainedGentle(a, s0, c, z);
    SlotsFiledGentle(a, DialogsDrained(s0, c), c, z);
  }

  lemma DialogVisitedGentle(a: Store, s: Store, c: Ptr, d: Ptr, z: Scope)
    requires Gentle(a, s, z)
    ensures Gentle(a, DialogVisited(s, c, d, z.now).s, z)
  {
    hide Gentle, Pending, IncReleased, OutReleased, DialogRemoved, CallReleased, FindLastInc, FindLastOut;
    var p := Pending(s, c, d, z.now).s;
    PendingGentle(a, s, c, d, z);
    IncReleasedGentle(a, p, c, d, z);
    var f := IncReleased(p, c, d, z.now).s;
    OutReleasedGentle(a, f, c, d, z);
    var o := OutReleased(f, c, d, z.now).s;
    DialogRemovedGentle(a, o, c, d, z);
    CallReleasedGentle(a, o, c, z);
    if FinishedCalls(o, c, d).s != o {
      DialogRemovedGentle(a, DialogRemoved(o, c, d), c, d, z);
      CallReleasedGentle(a, DialogRemoved(o, c, d), c, z);
    }
  }

  lemma {:induction false} DialogsVisitedGentle(a: Store, s: Store, c: Ptr, ds: seq<Ptr>, z: Scope)
    requires Gentle(a, s, z)
    ensures Gentle(a, DialogsVisited(s, c, ds, z.now), z)
    decreases |ds|
  {
    hide Gentle, DialogVisited;
    if ds != [] {
      DialogVisitedGentle(a, s, c, ds[0], z);
      DialogsVisitedGentle(a, DialogVisited(s, c, ds[0], z.now).s, c, ds[1..], z);
    }
  }

  lemma {:induction false} CallsVisitedGentle(a: Store, s: Store, cs: seq<Ptr>, z: Scope)
    requires Gentle(a, s, z)
    ensures Gentle(a, CallsVisited(s, cs, z.now), z)
    decreases |cs|
  {
    hide Gentle, DialogsVisited;
    if cs != [] {
      var ds := CallOf(s, cs[0]).dialogs;
      DialogsVisitedGentle(a, s, cs[0], ds, z);
      CallsVisitedGentle(a, DialogsVisited(s, cs[0], ds, z.now), cs[1..], z);
    }
  }

  lemma {:induction false} AbandonedReleasedGentle(a: Store, s: Store, cs: seq<Ptr>, z: Scope)
    requires Gentle(a, s, z)
    ensures Gentle(a, AbandonedReleased(s, cs, z.now), z)
    decreases |cs|
  {
    hide Gentle, CallReleased, Abandoned;
    if cs != [] {
      CallReleasedGentle(a, s, cs[0], z);
      AbandonedReleasedGentle(a, if Abandoned(s, cs[0], z.now) then CallReleased(s, cs[0]) else s, cs[1..], z);
    }
  }

  lemma SweptGentle(a: Store, s: Store, z: Scope)
    requires Gentle(a, s, z)
    ensures Gentle(a, Swept(s, z.now), z)
  {
    hide Kept, Expendable;
  }

  lemma ReleasePassGentle(a: Store, s: Store, z: Scope)
    requires Gentle(a, s, z)
    ensures Gentle(a, ReleasePass(s, z.now), z)
  {
    hide Gentle, CallsVisited, AbandonedReleased, Swept;
    CallsVisitedGentle(a, s, s.calls, z);
    var s1 := CallsVisited(s, s.calls, z.now);
    AbandonedReleasedGentle(a, s1, s1.calls, z);
    SweptGentle(a, Collected(s, z.now), z);
  }

  // ----- the call API -----

  lemma CallAddedGentle(a: Store, s: Store, c: Ptr, z: Scope)
    requires Gentle(a, s, z) && !z.linked
    ensures Gentle(a, CallAdded(s, c), z)
  {
  }

  lemma InitialInviteGentle(a: Store, s: Store, c: Ptr, t: Ptr, z: Scope)
    requires Gentle(a, s, z) && t in z.trs && !z.linked
    ensures Gentle(a, InitialInvite(s, c, t, z.now), z)
  {
    hide Gentle, Updated;
    var tr := Born("INVITE", ICT_PRE_CALLING, z.now, Some(JInfo(c, None)));
    WithTrGentle(a, s, t, tr, z);
    var s1 := CallAdded(WithTr(s, t, tr), c);
    CallAddedGentle(a, WithTr(s, t, tr), c, z);
    SetCallGentle(a, s1, c, CallOf(s1, c).(outTr := Some(t)), z);
    UpdatedGentle(a, SetCall(s1, c, CallOf(s1, c).(outTr := Some(t))), z);
  }

  lemma IncListedGentle(a: Store, s: Store, d: Ptr, t: Ptr, z: Scope)
    requires Gentle(a, s, z)
    ensures Gentle(a, IncListed(s, d, t), z)
  {
    hide Gentle;
    SetDialogGentle(a, s, d, DialogOf(s, d).(incTrs := [t] + DialogOf(s, d).incTrs), z);
  }

  lemma RequestSentGentle(a: Store, s: Store, c: Ptr, d: Ptr, t: Ptr, m: string, state: State, z: Scope)
    requires Gentle(a, s, z) && t in z.trs
    ensures Gentle(a, RequestSent(s, c, d, t, m, state, z.now), z)
  {
    hide Gentle;
    var tr := Born(m, state, z.now, Some(JInfo(c, Some(d))));
    WithTrGentle(a, s, t, tr, z);
    var s1 := WithTr(s, t, tr);
    SetDialogGentle(a, s1, d, DialogOf(s1, d).(outTrs := [t] + DialogOf(s1, d).outTrs), z);
  }

  lemma SendRequestGentle(a: Store, s: Store, did: int, t: Ptr, m: string, z: Scope)
    requires Gentle(a, s, z) && t in z.trs
    ensures Gentle(a, SendRequest(s, did, t, m, z.now), z)
  {
    hide Gentle, RequestSent, FindLastInvite, FindLast, CallDialogFind;
    forall c, d, state ensures Gentle(a, RequestSent(s, c, d, t, m, state, z.now), z) {
      RequestSentGentle(a, s, c, d, t, m, state, z);
    }
  }

  lemma SendPrackGentle(a: Store, s: Store, tid: Ptr, t: Ptr, z: Scope)
    requires Gentle(a, s, z) && t in z.trs
    ensures Gentle(a, SendPrack(s, tid, t, z.now), z)
  {
    hide Gentle, RequestSent, TransactionFind;
    forall c, d, state ensures Gentle(a, RequestSent(s, c, d, t, "PRACK", state, z.now), z) {
      RequestSentGentle(a, s, c, d, t, "PRACK", state, z);
    }
  }

  lemma TerminatedAtGentle(a: Store, s: Store, c: Ptr, d: Option<Ptr>, t: Ptr, toTag: bool, z: Scope)
    requires Gentle(a, s, z) && t in z.trs
    ensures Gentle(a, TerminatedAt(s, c, d, t, toTag, z.now), z)
  {
    hide Gentle, Closed, RequestSent, FindLastOutInvite, FindLastIncInvite, Provisional;
    var tr := Born("CANCEL", NICT_PRE_TRYING, z.now, None);
    WithTrGentle(a, s, t, tr, z);
    var s1 := Filed(WithTr(s, t, tr), t);
    GarbageGentle(a, WithTr(s, t, tr), [t] + s.garbage, z);
    if d.Some? {
      ClosedGentle(a, s1, d.value, z);
      RequestSentGentle(a, s, c, d.value, t, "BYE", NICT_PRE_TRYING, z);
      ClosedGentle(a, RequestSent(s, c, d.value, t, "BYE", NICT_PRE_TRYING, z.now), d.value, z);
    }
  }

  lemma TerminateGentle(a: Store, s: Store, cid: int, did: int, t: Ptr, toTag: bool, z: Scope)
    requires Gentle(a, s, z) && t in z.trs
    ensures Gentle(a, Terminate(s, cid, did, t, toTag, z.now), z)
  {
    hide Gentle, TerminatedAt;
    var p := if did > 0 then CallDialogFind(s, s.calls, did) else CallFind(s, s.calls, cid);
    if p.Some? {
      TerminatedAtGentle(a, s, p.value.c, p.value.d, t, toTag, z);
    }
  }

  /** The dialog whose timer an answer starts. */
  function Starts200(s: Store, tid: Ptr, status: int, answer: Option<int>): Option<Ptr> {
    var p := TransactionFind(s, s.calls, tid);
    if p.None? || p.value.d.None? || answer.None? then None
    else if TrOf(s, tid).state in {IST_COMPLETED, IST_CONFIRMED, IST_TERMINATED, NIST_COMPLETED, NIST_TERMINATED} then None
    else if EqualFold(TrOf(s, tid).cseqMethod, "INVITE") && 200 <= status <= 299 && 200 <= answer.value <= 299 then p.value.d else None
  }

  lemma SendAnswerGentle(a: Store, s: Store, tid: Ptr, status: int, answer: Option<int>, z: Scope)
    requires Gentle(a, s, z)
    requires Starts200(s, tid, status, answer).Some? ==> Starts200(s, tid, status, answer).value in z.timed
    ensures Gentle(a, SendAnswer(s, tid, status, answer, z.now), z)
  {
    hide Gentle, Updated, TransactionFind;
    UpdatedGentle(a, s, z);
    forall d | d in z.timed ensures Gentle(a, Updated(SetDialog(s, d, Set200Ok(DialogOf(s, d), z.now))), z) {
      SetDialogGentle(a, s, d, Set200Ok(DialogOf(s, d), z.now), z);
      UpdatedGentle(a, SetDialog(s, d, Set200Ok(DialogOf(s, d), z.now)), z);
    }
  }

  lemma RetriedGentle(a: Store, s: Store, c: Ptr, d: Option<Ptr>, former: Ptr, t: Ptr, z: Scope)
    requires Gentle(a, s, z) && t in z.trs
    ensures Gentle(a, Retried(s, c, d, former, t, z.now), z)
  {
    hide Gentle, Updated, RequestSent, DialogFreed, Unlinked;
    var m := TrOf(s, former).cseqMethod;
    var state := if EqualFold(m, "INVITE") then ICT_PRE_CALLING else NICT_PRE_TRYING;
    var tr := Born(m, state, z.now, Some(JInfo(c, None)));
    var s0 := WithTr(s, t, tr);
    WithTrGentle(a, s, t, tr, z);
    var s1 := Filed(s0, former);
    GarbageGentle(a, s0, [former] + s0.garbage, z);
    var s2 := SetCall(s1, c, CallOf(s1, c).(outTr := Some(t)));
    SetCallGentle(a, s1, c, CallOf(s1, c).(outTr := Some(t)), z);
    UpdatedGentle(a, s2, z);
    if d.Some? {
      DialogFreedGentle(a, s2, c, d.value, z);
      UpdatedGentle(a, DialogFreed(Unlinked(s2, c, d.value), d.value), z);
      UpdatedGentle(a, Updated(DialogFreed(Unlinked(s2, c, d.value), d.value)), z);
      RequestSentGentle(a, s, c, d.value, t, m, state, z);
      UpdatedGentle(a, RequestSent(s, c, d.value, t, m, state, z.now), z);
    }
  }

  // ----- incoming requests, callbacks, timers -----

  lemma AcknowledgedGentle(a: Store, s: Store, d: Ptr, z: Scope)
    requires Gentle(a, s, z)
    ensures Gentle(a, Acknowledged(s, d), z)
  {
    hide Gentle;
    SetDialogGentle(a, s, d, DialogOf(s, d).(count := 0, ok200 := false), z);
  }

  lemma ReportingGentle(a: Store, s: Store, t: Ptr, info: JInfo, z: Scope)
    requires Gentle(a, s, z) && t in s.trAt
    ensures Gentle(a, Reporting(s, t, info), z)
  {
    hide Gentle;
    WithTrGentle(a, s, t, TrOf(s, t).(info := Some(info)), z);
  }

  lemma ReportedGentle(a: Store, s: Store, t: Ptr, info: JInfo, d: Ptr, z: Scope)
    requires Gentle(a, s, z) && t in s.trAt
    ensures Gentle(a, IncListed(Reporting(s, t, info), d, t), z)
  {
    hide Gentle, IncListed, Reporting;
    ReportingGentle(a, s, t, info, z);
    IncListedGentle(a, Reporting(s, t, info), d, t, z);
  }

  lemma WithinDialogGentle(a: Store, s: Store, req: Request, t: Ptr, c: Ptr, d: Ptr, z: Scope)
    requires Gentle(a, s, z) && t in s.trAt
    ensures Gentle(a, WithinDialog(s, req, t, c, d), z)
  {
    hide Gentle, IncListed, Reporting, Closed, FindLastInc, FindLastOut, FindLastIncInvite, FindLastOutInvite, Unfinished;
    GarbageGentle(a, s, [t] + s.garbage, z);
    var s1 := SetDialog(s, d, DialogOf(s, d).(remoteCseq := req.cseq));
    SetDialogGentle(a, s, d, DialogOf(s, d).(remoteCseq := req.cseq), z);
    ReportedGentle(a, s1, t, JInfo(c, Some(d)), d, z);
    ReportedGentle(a, s, t, JInfo(c, Some(d)), d, z);
    ReportedGentle(a, s, t, JInfo(c, None), d, z);
    ClosedGentle(a, IncListed(Reporting(s, t, JInfo(c, None)), d, t), d, z);
  }

  lemma DialogAddedGentle(a: Store, s: Store, c: Ptr, d: Ptr, dialog: Dialog, z: Scope)
    requires Gentle(a, s, z) && !z.linked && d in z.made && !dialog.ok200 && dialog.count == 0
    ensures Gentle(a, DialogAdded(s, c, d, dialog), z)
  {
    hide Gentle;
    SetCallGentle(a, s, c, CallOf(s, c).(dialogs := [d] + CallOf(s, c).dialogs), z);
    SetDialogGentle(a, SetCall(s, c, CallOf(s, c).(dialogs := [d] + CallOf(s, c).dialogs)), d, dialog, z);
  }

  lemma NewInviteGentle(a: Store, s: Store, req: Request, t: Ptr, c: Ptr, d: Ptr, z: Scope)
    requires Gentle(a, s, z) && t in s.trAt && (req.toTag || (!z.linked && d in z.made))
    ensures Gentle(a, NewInvite(s, req, t, c, d, z.now), z)
  {
    hide Gentle, Updated, Reporting;
    UpdatedGentle(a, s, z);
    if req.toTag { return; }
    CallAddedGentle(a, s, c, z);
    var s1 := DialogAdded(CallAdded(s, c), c, d, NewDialog(req.cseq, z.now));
    DialogAddedGentle(a, CallAdded(s, c), c, d, NewDialog(req.cseq, z.now), z);
    ReportingGentle(a, s1, t, JInfo(c, Some(d)), z);
    UpdatedGentle(a, Reporting(s1, t, JInfo(c, Some(d))), z);
    var s2 := Updated(Reporting(s1, t, JInfo(c, Some(d))));
    SetCallGentle(a, s2, c, CallOf(s2, c).(incTr := Some(t)), z);
  }

  /** The requests that make a call and a dialog. */
  predicate OpensCall(s: Store, req: Request) {
    req.sipMethod == "INVITE" && !req.toTag && MatchingPlace(s, s.calls, req.matches).None?
  }

  lemma NewRequestGentle(a: Store, s: Store, req: Request, t: Ptr, c: Ptr, d: Ptr, z: Scope)
    requires Gentle(a, s, z) && t in z.trs && (OpensCall(s, req) ==> !z.linked && d in z.made)
    ensures Gentle(a, NewRequest(s, req, t, c, d, z.now), z)
  {
    hide Gentle, WithinDialog, NewInvite, IncListed, Acknowledged, MatchingPlace, CancelTarget;
    var tr := Born(req.cseqMethod, if req.sipMethod == "INVITE" then IST_PRE_PROCEEDING else NIST_PRE_TRYING, z.now, None);
    var s1 := WithTr(s, t, tr);
    WithTrGentle(a, s, t, tr, z);
    GarbageGentle(a, s1, [t] + s1.garbage, z);
    if req.toTag || OpensCall(s, req) {
      NewInviteGentle(a, s1, req, t, c, d, z);
    }
    var target := CancelTarget(s1, s1.calls, req.cancels, None);
    if target.d.Some? {
      IncListedGentle(a, s1, target.d.value, t, z);
    }
    var p := MatchingPlace(s, s.calls, req.matches);
    if p.Some? {
      AcknowledgedGentle(a, s, p.value.d.value, z);
      WithinDialogGentle(a, s1, req, t, p.value.c, p.value.d.value, z);
    }
  }

  /** The call's own INVITE has no dialog yet, so that its first answer makes one. */
  predicate OpensDialog(s: Store, c: Ptr) {
    var t := CallOf(s, c).outTr;
    t.Some? && t.value in s.trAt && TrOf(s, t.value).info == Some(JInfo(c, None))
  }

  lemma DialogMadeGentle(a: Store, s: Store, c: Ptr, d: Ptr, z: Scope)
    requires Gentle(a, s, z) && (OpensDialog(s, c) ==> !z.linked && d in z.made)
    ensures Gentle(a, DialogMade(s, c, d, z.now), z)
  {
    hide Gentle, Updated, Reporting;
    if OpensDialog(s, c) {
      var s1 := DialogAdded(s, c, d, NewDialog(-1, z.now));
      DialogAddedGentle(a, s, c, d, NewDialog(-1, z.now), z);
      var t := CallOf(s, c).outTr;
      ReportingGentle(a, s1, t.value, JInfo(c, Some(d)), z);
      UpdatedGentle(a, Reporting(s1, t.value, JInfo(c, Some(d))), z);
    }
  }

  lemma ResentGentle(a: Store, s: Store, d: Ptr, z: Scope)
    requires Gentle(a, s, z) && d in z.timed
    ensures Gentle(a, SetDialog(s, d, Resent(DialogOf(s, d), z.now)), z)
  {
    hide Gentle;
    SetDialogGentle(a, s, d, Resent(DialogOf(s, d), z.now), z);
  }

  lemma GivenUpGentle(a: Store, s: Store, c: Ptr, d: Ptr, t: Ptr, toTag: bool, z: Scope)
    requires Gentle(a, s, z) && t in z.trs
    ensures Gentle(a, GivenUp(s, c, d, t, toTag, z.now), z)
  {
    hide Gentle, Acknowledged, Terminate;
    AcknowledgedGentle(a, s, d, z);
    TerminateGentle(a, Acknowledged(s, d), CallOf(s, c).id, DialogOf(s, d).id, t, toTag, z);
  }
}
