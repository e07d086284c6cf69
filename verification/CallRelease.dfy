/**
 The release pass of eXosip (`eXosip_release_terminated_calls`): it moves transactions from the
 calls to the garbage list, frees dialogs and calls on the way, and then sweeps the garbage. It
 loses no transaction and holds none twice, it follows no pointer to a freed node, and no
 transaction that a call still holds names a dialog that is gone. Those in the garbage list may: the
 module CallGarbage says when.
 */
module CallRelease {
  import opened Numerals
  import opened CallStore
  import opened CallOps
  import opened CallInvariants

  /** The same calls with the same dialogs. */
  ghost predicate SameShape(s: Store, s': Store) {
    && s'.calls == s.calls && s'.callAt.Keys == s.callAt.Keys && s'.dialogAt.Keys == s.dialogAt.Keys
    && s'.trAt.Keys == s.trAt.Keys
    && forall c :: CallOf(s', c).dialogs == CallOf(s, c).dialogs
  }

  ghost predicate Conserves(s: Store, s': Store) {
    Inv(s') && Held(s') == Held(s) && SameShape(s, s')
  }

  // ----- eXosip_remove_transaction_from_call and a filing -----

  lemma {:induction false} HeldByDialog(s: Store, ds: seq<Ptr>, t: Ptr) returns (d: Ptr)
    requires t in DialogsHeld(s, ds)
    ensures d in ds && Listed(s, d, t)
  {
    if t in Own(s, ds[0]) {
      d := ds[0];
    } else {
      d := HeldByDialog(s, ds[1..], t);
    }
  }

  /** A transaction leaves its slot for the garbage list. */
  lemma SlotOut(s: Store, c: Ptr, call: Call, t: Ptr)
    requires Inv(s) && c in s.calls && call.dialogs == CallOf(s, c).dialogs
    requires SlotShrunk(CallOf(s, c).incTr, call.incTr) && SlotShrunk(CallOf(s, c).outTr, call.outTr)
    requires Slot(call.incTr) + Slot(call.outTr) + multiset{t} == Slot(CallOf(s, c).incTr) + Slot(CallOf(s, c).outTr)
    ensures var s' := Filed(SetCall(s, c, call), t); Inv(s') && Held(s') == Held(s)
  {
    hide NewestFirst, NamesOk, Owned, Held, Linked, CallHeld, CallSorted, Shrunk, Outside;
    var s' := Filed(SetCall(s, c, call), t);
    InvShape(s, c);
    SlotLinked(s, s', c);
    SlotShrunkOk(s, s', c);
    SlotBalance(s, c, call, t);
    LocalChange(s, s', c);
  }

  lemma SlotBalance(s: Store, c: Ptr, call: Call, t: Ptr)
    requires call.dialogs == CallOf(s, c).dialogs
    requires Slot(call.incTr) + Slot(call.outTr) + multiset{t} == Slot(CallOf(s, c).incTr) + Slot(CallOf(s, c).outTr)
    ensures var s' := Filed(SetCall(s, c, call), t);
      CallHeld(s', c) + multiset(s'.garbage) == CallHeld(s, c) + multiset(s.garbage)
  {
    hide Slot;
    var s' := Filed(SetCall(s, c, call), t);
    forall d ensures Own(s', d) == Own(s, d) { OwnOf(s, s', d); }
    DialogsHeldSame(s, s', call.dialogs);
  }

  /** Only the slots of call c and the garbage list differ. */
  ghost predicate OnlySlots(s: Store, s': Store, c: Ptr) {
    && c in s.callAt && s' == s.(callAt := s.callAt[c := CallOf(s', c)], garbage := s'.garbage)
    && CallOf(s', c).dialogs == CallOf(s, c).dialogs
  }

  lemma SlotLinked(s: Store, s': Store, c: Ptr)
    requires Linked(s) && c in s.calls && OnlySlots(s, s', c)
    ensures Linked(s') && Outside(s, s', c)
  {
  }

  lemma SlotShrunkOk(s: Store, s': Store, c: Ptr)
    requires OnlySlots(s, s', c) && CallSorted(s, c)
    requires SlotShrunk(CallOf(s, c).incTr, CallOf(s', c).incTr) && SlotShrunk(CallOf(s, c).outTr, CallOf(s', c).outTr)
    ensures Shrunk(s, s', c)
  {
    hide NewestFirst;
    forall d | d in CallOf(s, c).dialogs ensures DialogShrunk(s, s', d) {
      assert DialogSorted(s, d);
      assert DialogOf(s', d) == DialogOf(s, d);
    }
  }

  lemma RemovedShape(s: Store, c: Ptr, t: Ptr)
    requires c in s.callAt && forall d | d in CallOf(s, c).dialogs :: d in s.dialogAt
    ensures SameShape(s, Filed(RemovedFromCall(s, t, c), t))
  {
    hide Remove, SameShape;
    var ds := CallOf(s, c).dialogs;
    var r := RemovedFromCall(s, t, c);
    if OnlySlots(s, r, c) {
      SlotShape(s, Filed(r, t), c);
    } else {
      var d := if IncHolder(s, ds, t).Some? then IncHolder(s, ds, t).value else OutHolder(s, ds, t).value;
      DialogShape(s, Filed(r, t), d);
    }
  }

  lemma SlotShape(s: Store, s': Store, c: Ptr)
    requires OnlySlots(s, s', c)
    ensures SameShape(s, s')
  {
  }

  lemma DialogShape(s: Store, s': Store, d: Ptr)
    requires d in s.dialogAt && s' == s.(dialogAt := s.dialogAt[d := DialogOf(s', d)], garbage := s'.garbage)
    ensures SameShape(s, s')
  {
  }

  /** A transaction its call holds goes to the garbage list, wherever it is held. */
  lemma TakenOut(s: Store, c: Ptr, t: Ptr)
    requires Inv(s) && c in s.calls && t in CallHeld(s, c)
    ensures var s' := Filed(RemovedFromCall(s, t, c), t); Conserves(s, s')
  {
    hide NewestFirst, NamesOk, Owned, Held, Inv, Linked, DialogSorted, SameShape, CallOk, DialogsHeld;
    InvShape(s, c);
    RemovedShape(s, c, t);
    var call := CallOf(s, c);
    if call.incTr == Some(t) {
      SlotOut(s, c, call.(incTr := None), t);
    } else if IncHolder(s, call.dialogs, t).Some? {
      ListOut(s, c, IncHolder(s, call.dialogs, t).value, t, true);
    } else if call.outTr == Some(t) {
      SlotOut(s, c, call.(outTr := None), t);
    } else {
      HeldOutgoing(s, c, t);
      ListOut(s, c, OutHolder(s, call.dialogs, t).value, t, false);
    }
  }

  lemma HeldOutgoing(s: Store, c: Ptr, t: Ptr)
    requires t in CallHeld(s, c) && CallOf(s, c).incTr != Some(t) && CallOf(s, c).outTr != Some(t)
    requires IncHolder(s, CallOf(s, c).dialogs, t).None?
    ensures OutHolder(s, CallOf(s, c).dialogs, t).Some?
  {
    hide DialogsHeld;
    var d := HeldByDialog(s, CallOf(s, c).dialogs, t);
  }

  lemma InvShape(s: Store, c: Ptr)
    requires Inv(s) && c in s.calls
    ensures c in s.callAt && CallOk(s, c)
    ensures forall d | d in CallOf(s, c).dialogs :: d in s.dialogAt && DialogSorted(s, d)
  {
    assert CallOk(s, c);
    forall d | d in CallOf(s, c).dialogs ensures d in s.dialogAt && DialogSorted(s, d) {
      assert d in s.callAt[c].dialogs;
    }
  }

  lemma ListOut(s: Store, c: Ptr, d: Ptr, t: Ptr, inc: bool)
    requires Inv(s) && c in s.calls && d in CallOf(s, c).dialogs && DialogSorted(s, d)
    requires t in if inc then DialogOf(s, d).incTrs else DialogOf(s, d).outTrs
    ensures var dialog := if inc then DialogOf(s, d).(incTrs := Remove(DialogOf(s, d).incTrs, t))
                          else DialogOf(s, d).(outTrs := Remove(DialogOf(s, d).outTrs, t));
      var s' := Filed(SetDialog(s, d, dialog), t);
      Inv(s') && Held(s') == Held(s)
  {
    hide NewestFirst, NamesOk, Owned, Held, Inv, Linked;
    if inc {
      RemoveContents(DialogOf(s, d).incTrs, t);
      RemoveSorted(s, DialogOf(s, d).incTrs, t);
      MoveOut(s, c, d, DialogOf(s, d).(incTrs := Remove(DialogOf(s, d).incTrs, t)), t);
    } else {
      RemoveContents(DialogOf(s, d).outTrs, t);
      RemoveSorted(s, DialogOf(s, d).outTrs, t);
      MoveOut(s, c, d, DialogOf(s, d).(outTrs := Remove(DialogOf(s, d).outTrs, t)), t);
    }
  }

  // ----- the checks for pending and for finished transactions -----

  lemma ConservesJoin(a: Store, b: Store, s: Store)
    requires Conserves(a, b) && Conserves(b, s)
    ensures Conserves(a, s)
  {
  }

  lemma CheckKeeps(s: Store, t: Option<Ptr>, done: State, c: Ptr, now: int, expire: bool)
    requires Inv(s) && c in s.calls && (expire && t.Some? ==> t.value in CallHeld(s, c))
    ensures Conserves(s, Check(s, t, done, c, now, expire).s)
  {
    hide Inv, Held, CallHeld;
    if t.Some? && expire {
      TakenOut(s, c, t.value);
    }
  }

  /** eXosip_pendingosip_transaction_exist loses nothing. */
  lemma PendingKeeps(s: Store, c: Ptr, d: Ptr, now: int)
    requires Inv(s) && c in s.calls && d in CallOf(s, c).dialogs
    ensures Conserves(s, Pending(s, c, d, now).s)
  {
    hide Inv, Held, CallHeld, FirstWith, Check;
    var r1 := PendingStep(s, c, d, FindLastInc(s, d, "BYE"), NIST_TERMINATED, now, true);
    if r1.yes { return; }
    var r2 := PendingStep(r1.s, c, d, FindLastOut(r1.s, d, "BYE"), NICT_TERMINATED, now, true);
    ConservesJoin(s, r1.s, r2.s);
    if r2.yes { return; }
    var r3 := PendingStep(r2.s, c, d, FindLastIncInvite(r2.s, c, Some(d)), IST_TERMINATED, now, false);
    ConservesJoin(s, r2.s, r3.s);
    if r3.yes { return; }
    var r4 := PendingStep(r3.s, c, d, FindLastOutInvite(r3.s, c, Some(d)), ICT_TERMINATED, now, false);
    ConservesJoin(s, r3.s, r4.s);
    if r4.yes { return; }
    var r5 := PendingStep(r4.s, c, d, FindLastInc(r4.s, d, "REFER"), IST_TERMINATED, now, true);
    ConservesJoin(s, r4.s, r5.s);
    if r5.yes { return; }
    var r6 := PendingStep(r5.s, c, d, FindLastOut(r5.s, d, "REFER"), NICT_TERMINATED, now, true);
    ConservesJoin(s, r5.s, r6.s);
  }

  lemma PendingStep(s: Store, c: Ptr, d: Ptr, t: Option<Ptr>, done: State, now: int, expire: bool) returns (r: Checked)
    requires Inv(s) && c in s.calls && d in CallOf(s, c).dialogs
    requires expire && t.Some? ==> Listed(s, d, t.value)
    ensures r == Check(s, t, done, c, now, expire) && Conserves(s, r.s)
    ensures c in r.s.calls && d in CallOf(r.s, c).dialogs
  {
    hide Inv, Held, CallHeld;
    if t.Some? && expire {
      ListedHeld(s, c, d, t.value);
    }
    CheckKeeps(s, t, done, c, now, expire);
    r := Check(s, t, done, c, now, expire);
  }

  lemma IncReleasedKeeps(s: Store, c: Ptr, d: Ptr, now: int)
    requires Inv(s) && c in s.calls && d in CallOf(s, c).dialogs
    ensures Conserves(s, IncReleased(s, c, d, now).s)
  {
    hide Inv, Held, NewestFirst, FindLastIncInvite, Linked;
    InvShape(s, c);
    var l := DialogOf(s, d).incTrs;
    var k := FirstReleasable(s, l, 1, FindLastIncInvite(s, c, Some(d)), IST_TERMINATED, NIST_TERMINATED, now);
    if k < |l| {
      WithoutContents(l, k);
      WithoutSorted(s, l, k);
      MoveOut(s, c, d, DialogOf(s, d).(incTrs := Without(l, k)), l[k]);
    }
  }

  lemma OutReleasedKeeps(s: Store, c: Ptr, d: Ptr, now: int)
    requires Inv(s) && c in s.calls && d in CallOf(s, c).dialogs
    ensures Conserves(s, OutReleased(s, c, d, now).s)
  {
    hide Inv, Held, NewestFirst, FindLastOutInvite, Linked;
    InvShape(s, c);
    var l := DialogOf(s, d).outTrs;
    var k := FirstReleasable(s, l, 1, FindLastOutInvite(s, c, Some(d)), ICT_TERMINATED, NICT_TERMINATED, now);
    if k < |l| {
      WithoutContents(l, k);
      WithoutSorted(s, l, k);
      MoveOut(s, c, d, DialogOf(s, d).(outTrs := Without(l, k)), l[k]);
    }
  }

  /** eXosip_release_finished_transactions loses nothing. */
  lemma FinishedTransactionsKeeps(s: Store, c: Ptr, d: Ptr, now: int)
    requires Inv(s) && c in s.calls && d in CallOf(s, c).dialogs
    ensures Conserves(s, FinishedTransactions(s, c, d, now).s)
  {
    hide Inv, Held, IncReleased, OutReleased;
    var r1 := IncReleased(s, c, d, now);
    IncReleasedKeeps(s, c, d, now);
    OutReleasedKeeps(r1.s, c, d, now);
    ConservesJoin(s, r1.s, OutReleased(r1.s, c, d, now).s);
  }

  // ----- freeing a dialog -----

  /** No other linked call has a dialog of c. */
  ghost predicate Apart(s: Store, c: Ptr) {
    && c in s.callAt && NoDup(CallOf(s, c).dialogs)
    && forall e, d | e in s.calls && e != c && d in CallOf(s, c).dialogs :: d !in CallOf(s, e).dialogs
  }

  /** The effect of taking dialog d out of call c and freeing it. */
  ghost predicate Freed(s: Store, s': Store, c: Ptr, d: Ptr) {
    && Outside(s, s', c) && s'.calls == s.calls && s'.callAt.Keys == s.callAt.Keys
    && CallOf(s', c) == CallOf(s, c).(dialogs := Remove(CallOf(s, c).dialogs, d))
    && (forall e | e != d :: DialogOf(s', e) == DialogOf(s, e))
    && s'.dialogAt.Keys == s.dialogAt.Keys - {d}
    && multiset(s'.garbage) == multiset(s.garbage) + Own(s, d)
  }

  lemma InfoDeletedWeaker(s: Store, s': Store, ts: multiset<Ptr>)
    requires s'.trAt == InfoDeleted(s.trAt, ts)
    ensures TrsWeaker(s, s')
  {
  }

  lemma FreedRecords(s: Store, c: Ptr, d: Ptr)
    requires c in s.callAt
    ensures var s' := DialogFreed(Unlinked(s, c, d), d);
      && s'.calls == s.calls && s'.callAt.Keys == s.callAt.Keys && s'.dialogAt.Keys == s.dialogAt.Keys - {d}
      && (forall e | e != c :: CallOf(s', e) == CallOf(s, e))
      && CallOf(s', c) == CallOf(s, c).(dialogs := Remove(CallOf(s, c).dialogs, d))
      && (forall e | e != d :: DialogOf(s', e) == DialogOf(s, e))
  {
    hide Own, Remove, InfoDeleted;
    var u := Unlinked(s, c, d);
    var s' := DialogFreed(u, d);
    assert s'.dialogAt == s.dialogAt - {d} && s'.callAt == u.callAt && s'.calls == s.calls;
  }

  lemma FreedGarbage(s: Store, c: Ptr, d: Ptr)
    ensures var s' := DialogFreed(Unlinked(s, c, d), d);
      TrsWeaker(s, s') && multiset(s'.garbage) == multiset(s.garbage) + Own(s, d)
  {
    hide Remove, TrsWeaker, InfoDeleted;
    var u := Unlinked(s, c, d);
    var s' := DialogFreed(u, d);
    assert DialogOf(u, d) == DialogOf(s, d);
    assert s'.garbage == DrainedInto(DialogOf(s, d).outTrs, DrainedInto(DialogOf(s, d).incTrs, s.garbage));
    InfoDeletedWeaker(s, s', Own(u, d));
  }

  lemma FreedStep(s: Store, c: Ptr, d: Ptr)
    requires Apart(s, c) && d in CallOf(s, c).dialogs
    ensures Freed(s, DialogFreed(Unlinked(s, c, d), d), c, d)
  {
    hide Own, Remove, TrsWeaker, DialogFreed, Unlinked;
    var s' := DialogFreed(Unlinked(s, c, d), d);
    FreedRecords(s, c, d);
    FreedGarbage(s, c, d);
    forall e | e in s.calls && e != c ensures SameCall(s, s', e) {
      assert d !in CallOf(s, e).dialogs;
      forall x | x in CallOf(s, e).dialogs ensures SameDialog(s, s', x) {
        assert x != d;
      }
    }
  }

  lemma OwnOf(s: Store, s': Store, d: Ptr)
    requires DialogOf(s', d) == DialogOf(s, d)
    ensures Own(s', d) == Own(s, d)
  {
  }

  lemma FreedHeld(s: Store, s': Store, c: Ptr, d: Ptr)
    requires Apart(s, c) && d in CallOf(s, c).dialogs && Freed(s, s', c, d)
    ensures CallHeld(s', c) + multiset(s'.garbage) == CallHeld(s, c) + multiset(s.garbage)
  {
    hide Own, Outside, Remove;
    var ds := CallOf(s, c).dialogs;
    RemoveNoDup(ds, d);
    forall e | e in Remove(ds, d) ensures Own(s', e) == Own(s, e) {
      OwnOf(s, s', e);
    }
    DialogsHeldSame(s, s', Remove(ds, d));
    forall t ensures (CallHeld(s', c) + multiset(s'.garbage))[t] == (CallHeld(s, c) + multiset(s.garbage))[t] {
      DialogsHeldRemove(s, ds, d, t);
    }
  }

  lemma FreedLinked(s: Store, s': Store, c: Ptr, d: Ptr)
    requires Linked(s) && c in s.calls && d in CallOf(s, c).dialogs && Freed(s, s', c, d)
    ensures Linked(s')
  {
    var ds := CallOf(s, c).dialogs;
    RemoveNoDup(ds, d);
    RemoveContents(ds, d);
    forall e | e in s.calls && e != c ensures CallOf(s', e).dialogs == CallOf(s, e).dialogs && d !in CallOf(s, e).dialogs {
      assert SameCall(s, s', e);
    }
  }

  // ----- removing a dialog from a live call -----

  lemma RefsDroppedFacts(s: Store, c: Ptr, d: Ptr)
    ensures var r := RefsDropped(s, c, d);
      && r == s.(trAt := r.trAt) && TrsWeaker(s, r)
      && forall t | InSlot(r, c, t) :: Names(r, t) != Some(d)
  {
  }

  /** A store that differs only in what some transactions name. */
  lemma NamesOnly(s: Store, s': Store, c: Ptr)
    requires Inv(s) && c in s.calls && s' == s.(trAt := s'.trAt) && TrsWeaker(s, s')
    ensures Inv(s') && Held(s') == Held(s)
  {
    hide NewestFirst, NamesOk, Owned, Held, TrsWeaker, Shrunk, Outside, CallHeld;
    InvShape(s, c);
    NamesOnlySame(s, s', c);
    LocalChange(s, s', c);
  }

  lemma NamesOnlySame(s: Store, s': Store, c: Ptr)
    requires CallSorted(s, c) && s' == s.(trAt := s'.trAt) && TrsWeaker(s, s')
    ensures Shrunk(s, s', c) && Outside(s, s', c) && CallHeld(s', c) == CallHeld(s, c)
  {
    hide CallHeld, Weaker, CallSorted, Shrunk;
    forall e ensures SameCall(s, s', e) {
      forall d | d in CallOf(s, e).dialogs ensures SameDialog(s, s', d) {
      }
    }
    SameCallHeld(s, s', c);
    SameCallShrunk(s, s', c);
  }

  /** A dialog goes that no transaction of the call itself names. */
  lemma UnnamedGoes(s: Store, s': Store, c: Ptr, d: Ptr)
    requires Inv(s) && c in s.calls && d in CallOf(s, c).dialogs && Freed(s, s', c, d)
    requires forall t | InSlot(s, c, t) :: Names(s, t) != Some(d)
    ensures Inv(s') && Held(s') == Held(s)
  {
    hide NewestFirst, NamesOk, Owned, Held, TrsWeaker, CallHeld;
    InvShape(s, c);
    FreedLinked(s, s', c, d);
    FreedHeld(s, s', c, d);
    UnnamedShrunk(s, s', c, d);
    LocalChange(s, s', c);
  }

  lemma UnnamedShrunk(s: Store, s': Store, c: Ptr, d: Ptr)
    requires CallSorted(s, c) && d in CallOf(s, c).dialogs && NoDup(CallOf(s, c).dialogs) && Freed(s, s', c, d)
    requires forall t | InSlot(s, c, t) :: Names(s, t) != Some(d)
    ensures Shrunk(s, s', c)
  {
    hide NewestFirst, Own, SameCall;
    var ds := CallOf(s, c).dialogs;
    RemoveNoDup(ds, d);
    RemoveContents(ds, d);
    forall e | e in Remove(ds, d) ensures e in ds && DialogShrunk(s, s', e) {
      assert DialogSorted(s, e) && e != d;
    }
    forall t, x | InSlot(s', c, t) && Names(s', t) == Some(x) && x in ds ensures x in Remove(ds, d) {
      assert Weaker(s, s', t) && InSlot(s, c, t);
    }
  }

  /** What the removal of dialog d from call c leaves. */
  ghost predicate Cut(s: Store, r: Store, c: Ptr, d: Ptr) {
    && Inv(r) && Held(r) == Held(s) && r.calls == s.calls
    && CallOf(r, c).dialogs == Remove(CallOf(s, c).dialogs, d)
    && d !in r.dialogAt
  }

  /**
   First dropping the call's references, then the jinfo of the dialog's own transactions, leaves no
   name of it in any call.
   */
  lemma DialogRemovedKeeps(s: Store, c: Ptr, d: Ptr)
    requires Inv(s) && c in s.calls && d in CallOf(s, c).dialogs
    ensures Cut(s, DialogRemoved(s, c, d), c, d)
  {
    hide Inv, Held, RefsDropped, DialogFreed, Unlinked, TrsWeaker, Remove, NoDup;
    var s0 := RefsDropped(s, c, d);
    RefsDroppedFacts(s, c, d);
    NamesOnly(s, s0, c);
    InvShape(s0, c);
    InvApart(s0, c);
    var s1 := DialogFreed(Unlinked(s0, c, d), d);
    FreedStep(s0, c, d);
    UnnamedGoes(s0, s1, c, d);
    UpdatedKeeps(s1, Updated(s1));
    SameButIdsOutside(s1, Updated(s1), c);
    assert SameCall(s1, Updated(s1), c);
  }

  lemma InvApart(s: Store, c: Ptr)
    requires Inv(s) && c in s.calls
    ensures Apart(s, c)
  {
  }

  // ----- freeing a whole call -----

  /** A call taken out of the list of calls has lost the dialogs ds. */
  ghost predicate Drained(s: Store, r: Store, c: Ptr, ds: seq<Ptr>) {
    && Outside(s, r, c) && r.calls == s.calls && r.callAt.Keys == s.callAt.Keys
    && CallOf(r, c).dialogs == [] && CallOf(r, c).incTr == CallOf(s, c).incTr && CallOf(r, c).outTr == CallOf(s, c).outTr
    && (forall x | x in s.dialogAt && x !in ds :: x in r.dialogAt)
    && multiset(r.garbage) == multiset(s.garbage) + DialogsHeld(s, ds)
  }

  /** One turn of the draining loop: the first dialog freed, then the renumbering. */
  ghost predicate Turned(s: Store, s2: Store, c: Ptr, d: Ptr) {
    && Outside(s, s2, c) && s2.calls == s.calls && s2.callAt.Keys == s.callAt.Keys
    && CallOf(s2, c).(id := 0) == CallOf(s, c).(id := 0, dialogs := Remove(CallOf(s, c).dialogs, d))
    && (forall e | e != d :: SameDialog(s, s2, e))
    && s2.dialogAt.Keys == s.dialogAt.Keys - {d}
    && multiset(s2.garbage) == multiset(s.garbage) + Own(s, d)
  }

  lemma TurnTaken(s: Store, c: Ptr, d: Ptr)
    requires Apart(s, c) && d in CallOf(s, c).dialogs
    ensures Turned(s, Updated(DialogFreed(Unlinked(s, c, d), d)), c, d)
  {
    hide Own, Remove, TrsWeaker, DialogFreed, Unlinked, Apart;
    var s1 := DialogFreed(Unlinked(s, c, d), d);
    FreedStep(s, c, d);
    var s2 := Updated(s1);
    SameButIdsOutside(s1, s2, c);
    OutsideJoin(s, s1, s2, c);
    assert SameCall(s1, s2, c);
    forall e | e != d ensures SameDialog(s, s2, e) {
      SameButIdsDialog(s1, s2, e);
    }
  }

  lemma SameButIdsDialog(s: Store, s': Store, d: Ptr)
    requires SameButIds(s, s')
    ensures SameDialog(s, s', d)
  {
    assert d in s.dialogAt ==> s'.dialogAt[d].(id := 0) == s.dialogAt[d].(id := 0);
  }

  lemma TurnApart(s: Store, s2: Store, c: Ptr, d: Ptr)
    requires Apart(s, c) && c !in s.calls && d in CallOf(s, c).dialogs && Turned(s, s2, c, d)
    ensures Apart(s2, c) && s2.calls == s.calls && NoDup(CallOf(s, c).dialogs)
  {
    hide Own;
    var ds := CallOf(s, c).dialogs;
    RemoveNoDup(ds, d);
    RemoveContents(ds, d);
    forall e | e in s.calls ensures CallOf(s2, e).dialogs == CallOf(s, e).dialogs {
      assert SameCall(s, s2, e);
    }
  }

  lemma {:induction false} DialogsDrainedAll(s: Store, c: Ptr)
    requires Apart(s, c) && c !in s.calls
    ensures Drained(s, DialogsDrained(s, c), c, CallOf(s, c).dialogs)
    decreases |CallOf(s, c).dialogs|
  {
    hide Own, TrsWeaker, DialogFreed, Unlinked, Updated, Outside, Remove, Turned, Drained, Apart;
    var ds := CallOf(s, c).dialogs;
    if ds == [] {
      DrainedNothing(s, c);
    } else {
      var s2 := Updated(DialogFreed(Unlinked(s, c, ds[0]), ds[0]));
      TurnTaken(s, c, ds[0]);
      TurnApart(s, s2, c, ds[0]);
      TurnShorter(s, s2, c);
      DialogsDrainedAll(s2, c);
      DrainedMore(s, s2, DialogsDrained(s2, c), c);
    }
  }

  lemma TurnShorter(s: Store, s2: Store, c: Ptr)
    requires CallOf(s, c).dialogs != [] && Turned(s, s2, c, CallOf(s, c).dialogs[0])
    ensures CallOf(s2, c).dialogs == CallOf(s, c).dialogs[1..]
  {
  }

  lemma DrainedNothing(s: Store, c: Ptr)
    requires CallOf(s, c).dialogs == []
    ensures Drained(s, s, c, [])
  {
    forall e ensures SameCall(s, s, e) {
      forall d | d in CallOf(s, e).dialogs ensures SameDialog(s, s, d) {
      }
    }
  }

  lemma DrainedMore(s: Store, s2: Store, r: Store, c: Ptr)
    requires c !in s.calls && CallOf(s, c).dialogs != [] && NoDup(CallOf(s, c).dialogs)
    requires Turned(s, s2, c, CallOf(s, c).dialogs[0]) && Drained(s2, r, c, CallOf(s, c).dialogs[1..])
    ensures Drained(s, r, c, CallOf(s, c).dialogs)
  {
    hide Own, Outside;
    var ds := CallOf(s, c).dialogs;
    OutsideJoin(s, s2, r, c);
    forall e | e in ds[1..] ensures Own(s2, e) == Own(s, e) {
      assert SameDialog(s, s2, e);
      SameDialogOwn(s, s2, e);
    }
    DialogsHeldSame(s, s2, ds[1..]);
  }

  lemma SameDialogOwn(s: Store, s': Store, d: Ptr)
    requires SameDialog(s, s', d)
    ensures Own(s', d) == Own(s, d)
  {
  }

  /** What a released call leaves: its transactions in the garbage list, everyone else's in place. */
  ghost predicate Gone(s: Store, r: Store, c: Ptr) {
    && Inv(r) && Held(r) == Held(s) && r.calls == Remove(s.calls, c) && c !in r.callAt
  }

  /** Call c is freed; nothing else goes. */
  ghost predicate Erased(s: Store, r: Store, c: Ptr) {
    && TrsWeaker(s, r) && r == s.(callAt := s.callAt - {c}, trAt := r.trAt, garbage := r.garbage)
    && multiset(r.garbage) == multiset(s.garbage) + Slot(CallOf(s, c).incTr) + Slot(CallOf(s, c).outTr)
  }

  lemma SlotsFiledErases(s: Store, c: Ptr)
    ensures Erased(s, SlotsFiled(s, c), c)
  {
    hide InfoDeleted, TrsWeaker, Slot, Fronted;
    var r := SlotsFiled(s, c);
    InfoDeletedWeaker(s, r, Slot(CallOf(s, c).incTr) + Slot(CallOf(s, c).outTr));
  }

  lemma ErasedOutside(s: Store, r: Store, c: Ptr)
    requires c !in s.calls && Erased(s, r, c)
    ensures Outside(s, r, c)
  {
    hide TrsWeaker, Slot;
    forall e | e in s.calls ensures SameCall(s, r, e) {
      assert CallOf(r, e) == CallOf(s, e);
      forall d | d in CallOf(s, e).dialogs ensures SameDialog(s, r, d) {
        assert DialogOf(r, d) == DialogOf(s, d);
      }
    }
  }

  /** A whole call goes, and all it held goes to the garbage list. */
  ghost predicate Released(s: Store, r: Store, c: Ptr) {
    && Outside(s, r, c) && r.calls == Remove(s.calls, c) && r.callAt.Keys == s.callAt.Keys - {c}
    && (forall x | x in s.dialogAt && x !in CallOf(s, c).dialogs :: x in r.dialogAt)
    && multiset(r.garbage) == multiset(s.garbage) + CallHeld(s, c)
  }

  lemma CallReleasedFacts(s: Store, c: Ptr)
    requires Apart(s, c) && NoDup(s.calls) && c in s.calls
    ensures Released(s, CallReleased(s, c), c)
  {
    hide TrsWeaker, DialogsHeld, Slot, Remove, NoDup, SlotsFiled, DialogsDrained, SameCall;
    RemoveNoDup(s.calls, c);
    RemoveContents(s.calls, c);
    var s0 := s.(calls := Remove(s.calls, c));
    assert Apart(s0, c);
    var s1 := DialogsDrained(s0, c);
    DialogsDrainedAll(s0, c);
    SlotsFiledErases(s1, c);
    var r := SlotsFiled(s1, c);
    ErasedOutside(s1, r, c);
    DrainedErased(s, s0, s1, r, c);
  }

  lemma DrainedErased(s: Store, s0: Store, s1: Store, r: Store, c: Ptr)
    requires s0 == s.(calls := Remove(s.calls, c)) && c !in s0.calls && (forall e | e in s.calls && e != c :: e in s0.calls)
    requires Drained(s0, s1, c, CallOf(s, c).dialogs) && Erased(s1, r, c) && Outside(s1, r, c)
    ensures Released(s, r, c)
  {
    hide TrsWeaker, Slot, Remove, SameCall, Own;
    OutsideJoin(s0, s1, r, c);
    PlusOutside(s, s0, r, c);
    forall d ensures Own(s0, d) == Own(s, d) { OwnOf(s, s0, d); }
    DialogsHeldSame(s, s0, CallOf(s, c).dialogs);
  }

  /** Linking call c or not makes no difference outside it. */
  lemma PlusOutside(s: Store, s0: Store, r: Store, c: Ptr)
    requires s0 == s.(calls := s0.calls) && (forall e | e in s.calls && e != c :: e in s0.calls) && Outside(s0, r, c)
    ensures Outside(s, r, c)
  {
    forall t ensures Weaker(s, r, t) {
      assert Weaker(s0, r, t);
    }
    forall e | e in s.calls && e != c ensures SameCall(s, r, e) {
      assert SameCall(s0, r, e);
      forall d | d in CallOf(s, e).dialogs ensures SameDialog(s, r, d) {
        assert SameDialog(s0, r, d);
      }
    }
  }

  lemma ReleasedHeld(s: Store, r: Store, c: Ptr)
    requires NoDup(s.calls) && c in s.calls && Released(s, r, c)
    ensures Held(r) == Held(s)
  {
    hide CallHeld, TrsWeaker, SameCall;
    RemoveNoDup(s.calls, c);
    RemoveContents(s.calls, c);
    forall e | e in Remove(s.calls, c) ensures CallHeld(r, e) == CallHeld(s, e) {
      SameCallHeld(s, r, e);
    }
    CallsHeldSame(s, r, Remove(s.calls, c));
    forall t ensures Held(r)[t] == Held(s)[t] {
      CallsHeldRemove(s, s.calls, c, t);
    }
  }

  lemma ReleasedLinked(s: Store, r: Store, c: Ptr)
    requires Linked(s) && c in s.calls && Released(s, r, c)
    ensures Linked(r)
  {
    hide TrsWeaker, CallHeld;
    RemoveNoDup(s.calls, c);
    RemoveContents(s.calls, c);
    SubLinked(s, r, Remove(s.calls, c), c);
  }

  lemma SubLinked(s: Store, r: Store, cs: seq<Ptr>, c: Ptr)
    requires Linked(s) && c in s.calls && NoDup(cs) && (forall e | e in cs :: e in s.calls && e != c)
    requires r.calls == cs && (forall e | e in s.calls && e != c :: SameCall(s, r, e))
    requires r.callAt.Keys == s.callAt.Keys - {c}
    requires forall x | x in s.dialogAt && x !in CallOf(s, c).dialogs :: x in r.dialogAt
    ensures Linked(r)
  {
    forall e | e in cs ensures e in r.callAt && CallOf(r, e).dialogs == CallOf(s, e).dialogs {
      assert SameCall(s, r, e);
    }
    forall e, d | e in cs && d in CallOf(r, e).dialogs ensures d in r.dialogAt {
      assert d in s.callAt[e].dialogs && d !in s.callAt[c].dialogs;
    }
  }

  /** eXosip_call_free and the unlinking before it lose nothing. */
  lemma CallReleasedKeeps(s: Store, c: Ptr)
    requires Inv(s) && c in s.calls
    ensures Gone(s, CallReleased(s, c), c)
  {
    hide CallReleased, CallOk, Linked, Held, Owned, NoDup, Remove;
    InvApart(s, c);
    assert NoDup(s.calls) by { LinkedNoDup(s); }
    var r := CallReleased(s, c);
    CallReleasedFacts(s, c);
    ReleasedHeld(s, r, c);
    ReleasedLinked(s, r, c);
    OthersOk(s, r, c);
    OwnedSame(s, r);
    RemoveContents(s.calls, c);
    assert c !in r.calls by { LinkedNoDup(s); RemoveNoDup(s.calls, c); }
  }

  lemma LinkedNoDup(s: Store)
    requires Linked(s)
    ensures NoDup(s.calls)
  {
  }

  // ----- the two loops over the calls -----

  /** What a visit to dialog d of call c leaves: nothing lost, and only that dialog or that call unlinked. */
  ghost predicate Visited(s: Store, r: Checked, c: Ptr, d: Ptr) {
    && Inv(r.s) && Held(r.s) == Held(s)
    && (r.s.calls == s.calls || (r.yes && r.s.calls == Remove(s.calls, c)))
    && (!r.yes ==> CallOf(r.s, c).dialogs in {CallOf(s, c).dialogs, Remove(CallOf(s, c).dialogs, d)})
  }

  lemma FinishedCallsKeeps(s: Store, c: Ptr, d: Ptr)
    requires Inv(s) && c in s.calls && d in CallOf(s, c).dialogs
    ensures var r := FinishedCalls(s, c, d); if r.yes then Cut(s, r.s, c, d) else r.s == s
  {
    hide Inv, Held, FindLastInc, FindLastOut, Cut;
    DialogRemovedKeeps(s, c, d);
  }

  lemma AbortedCallsKeeps(s: Store, c: Ptr, d: Ptr, now: int)
    requires Inv(s) && c in s.calls && d in CallOf(s, c).dialogs
    ensures var r := AbortedCalls(s, c, d, now); if r.yes then Cut(s, r.s, c, d) || Gone(s, r.s, c) else r.s == s
  {
    hide Inv, Held, DialogRemoved, CallReleased, Cut, Gone;
    DialogRemovedKeeps(s, c, d);
    CallReleasedKeeps(s, c);
  }

  lemma DialogVisitedKeeps(s: Store, c: Ptr, d: Ptr, now: int)
    requires Inv(s) && c in s.calls && d in CallOf(s, c).dialogs
    ensures Visited(s, DialogVisited(s, c, d, now), c, d)
  {
    hide Inv, Held, Pending, FinishedTransactions, FinishedCalls, AbortedCalls, DialogRemoved, Remove;
    var p := Pending(s, c, d, now);
    PendingKeeps(s, c, d, now);
    if p.yes { return; }
    var f := FinishedTransactions(p.s, c, d, now);
    FinishedTransactionsKeeps(p.s, c, d, now);
    if f.yes { return; }
    FinishedCallsKeeps(f.s, c, d);
    var g := FinishedCalls(f.s, c, d);
    if g.yes { return; }
    AbortedCallsKeeps(f.s, c, d, now);
    DialogRemovedKeeps(f.s, c, d);
  }

  /** The dialogs still to visit are still the call's own: the saved next pointer is live. */
  lemma {:induction false} DialogsVisitedKeeps(s: Store, c: Ptr, ds: seq<Ptr>, now: int)
    requires Inv(s) && c in s.calls && NoDup(ds) && forall d | d in ds :: d in CallOf(s, c).dialogs
    ensures var r := DialogsVisited(s, c, ds, now);
      Inv(r) && Held(r) == Held(s) && (r.calls == s.calls || r.calls == Remove(s.calls, c))
    decreases |ds|
  {
    hide Inv, Held, DialogVisited, Remove;
    if ds != [] {
      var r := DialogVisited(s, c, ds[0], now);
      DialogVisitedKeeps(s, c, ds[0], now);
      if !r.yes {
        forall d | d in ds[1..] ensures d in CallOf(r.s, c).dialogs {
          RemoveContents(CallOf(s, c).dialogs, ds[0]);
        }
        DialogsVisitedKeeps(r.s, c, ds[1..], now);
      }
    }
  }

  lemma {:induction false} CallsVisitedKeeps(s: Store, cs: seq<Ptr>, now: int)
    requires Inv(s) && NoDup(cs) && forall c | c in cs :: c in s.calls
    ensures var r := CallsVisited(s, cs, now); Inv(r) && Held(r) == Held(s)
    decreases |cs|
  {
    hide Inv, Held, DialogsVisited, Remove;
    if cs != [] {
      var ds := CallOf(s, cs[0]).dialogs;
      InvApart(s, cs[0]);
      var r := DialogsVisited(s, cs[0], ds, now);
      DialogsVisitedKeeps(s, cs[0], ds, now);
      RemoveContents(s.calls, cs[0]);
      CallsVisitedKeeps(r, cs[1..], now);
    }
  }

  lemma {:induction false} AbandonedReleasedKeeps(s: Store, cs: seq<Ptr>, now: int)
    requires Inv(s) && NoDup(cs) && forall c | c in cs :: c in s.calls
    ensures var r := AbandonedReleased(s, cs, now); Inv(r) && Held(r) == Held(s)
    decreases |cs|
  {
    hide Inv, Held, CallReleased, Remove, Abandoned;
    if cs != [] {
      CallReleasedKeeps(s, cs[0]);
      RemoveContents(s.calls, cs[0]);
      AbandonedReleasedKeeps(if Abandoned(s, cs[0], now) then CallReleased(s, cs[0]) else s, cs[1..], now);
    }
  }

  /** The two call loops conserve transactions: every one held before is held exactly once after. */
  lemma CollectedConserves(s: Store, now: int)
    requires Inv(s)
    ensures Inv(Collected(s, now)) && Held(Collected(s, now)) == Held(s)
  {
    hide Inv, Held, CallsVisited, AbandonedReleased;
    assert NoDup(s.calls) by { InvNoDup(s); }
    CallsVisitedKeeps(s, s.calls, now);
    var s1 := CallsVisited(s, s.calls, now);
    assert NoDup(s1.calls) by { InvNoDup(s1); }
    AbandonedReleasedKeeps(s1, s1.calls, now);
  }

  lemma InvNoDup(s: Store)
    requires Inv(s)
    ensures NoDup(s.calls)
  {
  }

  // ----- the sweep -----

  /** a is b with some elements left out. */
  predicate Subsequence(a: seq<Ptr>, b: seq<Ptr>)
    decreases |b|
  {
    if a == [] then true
    else if b == [] then false
    else if a[0] == b[0] then Subsequence(a[1..], b[1..])
    else Subsequence(a, b[1..])
  }

  lemma {:induction false} SubsequenceSkip(a: seq<Ptr>, b: seq<Ptr>)
    requires b != [] && Subsequence(a, b[1..])
    ensures Subsequence(a, b)
    decreases |b|, 0
  {
    if a != [] && a[0] == b[0] {
      SubsequenceTail(a, b[1..]);
    }
  }

  lemma {:induction false} SubsequenceTail(a: seq<Ptr>, b: seq<Ptr>)
    requires a != [] && Subsequence(a, b)
    ensures Subsequence(a[1..], b)
    decreases |b|, 1
  {
    if a[0] == b[0] {
      SubsequenceSkip(a[1..], b);
    } else {
      SubsequenceTail(a, b[1..]);
      SubsequenceSkip(a[1..], b);
    }
  }

  /** The last loop takes out exactly what is terminated or older than 180 seconds, and keeps the order of the rest. */
  lemma {:induction false} KeptExactly(s: Store, l: seq<Ptr>, now: int)
    ensures Subsequence(Kept(s, l, now), l)
    ensures forall t :: multiset(Kept(s, l, now))[t] == if Expendable(s, t, now) then 0 else multiset(l)[t]
  {
    hide Expendable;
    if l != [] {
      KeptExactly(s, l[1..], now);
      assert l == [l[0]] + l[1..];
      if Expendable(s, l[0], now) {
        SubsequenceSkip(Kept(s, l, now), l);
      }
    }
  }

  lemma HeldTwice(s: Store, c: Ptr, t: Ptr)
    requires Owned(s) && c in s.calls && t in CallHeld(s, c)
    ensures t !in s.garbage && t in s.trAt
  {
    hide CallHeld;
    CallHeldAmong(s, s.calls, c);
    assert Held(s)[t] <= 1;
    assert t in Held(s);
    assert t in s.garbage ==> multiset(s.garbage)[t] > 0;
  }

  /** A held transaction is not swept away under its call. */
  lemma SweptTr(s: Store, c: Ptr, t: Ptr, now: int)
    requires Owned(s) && c in s.calls && t in CallHeld(s, c)
    ensures TrOf(Swept(s, now), t) == TrOf(s, t)
  {
    hide CallHeld, Owned, Expendable, Kept;
    HeldTwice(s, c, t);
  }

  lemma SweptRecords(s: Store, now: int)
    ensures var r := Swept(s, now);
      && r.calls == s.calls && r.callAt == s.callAt && r.dialogAt == s.dialogAt
      && (forall c :: CallOf(r, c) == CallOf(s, c)) && (forall d :: DialogOf(r, d) == DialogOf(s, d))
  {
  }

  lemma SweptHeld(s: Store, now: int)
    ensures CallsHeld(Swept(s, now), s.calls) == CallsHeld(s, s.calls)
    ensures forall t :: Held(Swept(s, now))[t]
                     == CallsHeld(s, s.calls)[t] + if Expendable(s, t, now) then 0 else multiset(s.garbage)[t]
  {
    hide Expendable;
    var r := Swept(s, now);
    SweptRecords(s, now);
    forall c ensures CallHeld(r, c) == CallHeld(s, c) {
      assert SameCall(s, r, c);
      SameCallHeld(s, r, c);
    }
    CallsHeldSame(s, r, s.calls);
    KeptExactly(s, s.garbage, now);
  }

  lemma SweptOwned(s: Store, now: int)
    requires Owned(s)
    ensures Owned(Swept(s, now))
  {
    hide CallsHeld, Expendable, Kept;
    var r := Swept(s, now);
    SweptHeld(s, now);
    forall t | t in Held(r) ensures t in r.trAt {
      assert Held(r)[t] > 0;
      assert Held(s)[t] == CallsHeld(s, s.calls)[t] + multiset(s.garbage)[t];
      assert t in Held(s);
      assert t in s.garbage ==> multiset(s.garbage)[t] > 0;
    }
    forall t ensures Held(r)[t] <= 1 {
      assert Held(s)[t] == CallsHeld(s, s.calls)[t] + multiset(s.garbage)[t];
    }
  }

  lemma SweptInv(s: Store, now: int)
    requires Inv(s)
    ensures Inv(Swept(s, now))
  {
    hide Owned, Swept, CallOk, CallHeld;
    SweptOwned(s, now);
    SweptRecords(s, now);
    var r := Swept(s, now);
    forall c | c in s.calls ensures CallOk(r, c) {
      assert CallOk(s, c);
      assert SameCall(s, r, c);
      forall t | t in CallHeld(s, c) ensures Weaker(s, r, t) {
        SweptTr(s, c, t, now);
      }
      SameCallOk(s, r, c);
    }
  }

  /**
   eXosip_release_terminated_calls: the invariant is kept, and the transactions that are no longer
   held are exactly those in the garbage list that are terminated or were born more than 180
   seconds ago.
   */
  lemma ReleasePassExactly(s: Store, now: int)
    requires Inv(s)
    ensures var m := Collected(s, now); var r := ReleasePass(s, now);
      && Inv(r) && Held(m) == Held(s)
      && Subsequence(r.garbage, m.garbage)
      && forall t :: Held(r)[t] == if t in m.garbage && Expendable(m, t, now) then 0 else Held(s)[t]
  {
    hide Inv, Collected, Expendable, CallsHeld, Swept;
    var m := Collected(s, now);
    CollectedConserves(s, now);
    SweptInv(m, now);
    SweptHeld(m, now);
    SweptGarbage(m, now);
    KeptExactly(m, m.garbage, now);
    forall t ensures Held(ReleasePass(s, now))[t] == if t in m.garbage && Expendable(m, t, now) then 0 else Held(s)[t] {
      GarbageOnce(m, t);
      assert t in m.garbage <==> multiset(m.garbage)[t] > 0;
    }
  }

  /** So no more is held after the pass than before. */
  lemma ReleasePassLess(s: Store, now: int)
    requires Inv(s)
    ensures Inv(ReleasePass(s, now)) && Held(ReleasePass(s, now)) <= Held(s)
  {
    hide Inv, Held, ReleasePass, Collected, Expendable;
    ReleasePassExactly(s, now);
  }

  lemma SweptGarbage(s: Store, now: int)
    ensures Swept(s, now).garbage == Kept(s, s.garbage, now)
  {
  }

  lemma GarbageOnce(s: Store, t: Ptr)
    requires Inv(s)
    ensures t in s.garbage ==> CallsHeld(s, s.calls)[t] == 0
  {
    hide CallsHeld;
    assert Held(s)[t] == CallsHeld(s, s.calls)[t] + multiset(s.garbage)[t];
    assert Held(s)[t] <= 1;
    assert t in s.garbage ==> multiset(s.garbage)[t] > 0;
  }
}
