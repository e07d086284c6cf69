/** The call API and the handlers of requests keep the invariants, and a new transaction gets one place or none. */
module CallGrowth {
  import opened Numerals
  import opened CallStore
  import opened CallOps
  import opened CallInvariants
  import opened CallRelease
  import opened CallHandlers

  // ----- transactions -----

  lemma HeldByCalls(s: Store, c: Ptr, t: Ptr)
    requires c in s.calls && t in CallHeld(s, c)
    ensures t in CallsHeld(s, s.calls)
  {
    CallHeldAmong(s, s.calls, c);
  }

  lemma WithTrHeld(s: Store, t: Ptr, tr: Transaction, cs: seq<Ptr>)
    ensures var r := WithTr(s, t, tr);
      && (forall c :: SameCall(s, r, c)) && CallsHeld(r, cs) == CallsHeld(s, cs)
  {
    var r := WithTr(s, t, tr);
    forall c ensures SameCall(s, r, c) && CallHeld(r, c) == CallHeld(s, c) {
      forall d | d in CallOf(s, c).dialogs ensures SameDialog(s, r, d) {
      }
      SameCallHeld(s, r, c);
    }
    CallsHeldSame(s, r, cs);
  }

  /** Writing a transaction no call holds, or whose age and names are kept, keeps everything. */
  lemma WithTrKeeps(s: Store, t: Ptr, tr: Transaction)
    requires Inv(s) && (t !in CallsHeld(s, s.calls) || Weaker(s, WithTr(s, t, tr), t))
    ensures var r := WithTr(s, t, tr); Inv(r) && Held(r) == Held(s)
  {
    hide CallHeld, CallOk, SameCall;
    var r := WithTr(s, t, tr);
    WithTrHeld(s, t, tr, s.calls);
    forall c | c in s.calls ensures CallOk(r, c) {
      assert CallOk(s, c);
      forall x | x in CallHeld(s, c) ensures Weaker(s, r, x) {
        HeldByCalls(s, c, x);
      }
      SameCallOk(s, r, c);
    }
  }

  /** A transaction that is allocated and held nowhere. */
  ghost predicate Loose(s: Store, t: Ptr) {
    t in s.trAt && t !in Held(s)
  }

  /** A new transaction: nothing else changes, and it is held nowhere yet. */
  lemma BornKeeps(s: Store, t: Ptr, tr: Transaction)
    requires Inv(s) && t !in s.trAt
    ensures var r := WithTr(s, t, tr); Inv(r) && Held(r) == Held(s) && Loose(r, t)
  {
    hide CallsHeld, CallsOk, Linked;
    assert t in CallsHeld(s, s.calls) ==> t in Held(s);
    WithTrKeeps(s, t, tr);
  }

  lemma ReportingKeeps(s: Store, t: Ptr, info: JInfo)
    requires Inv(s) && Loose(s, t)
    ensures var r := Reporting(s, t, info); Inv(r) && Held(r) == Held(s) && Loose(r, t)
  {
    hide CallsHeld, CallsOk, Linked, Owned;
    assert t in CallsHeld(s, s.calls) ==> t in Held(s);
    WithTrKeeps(s, t, TrOf(s, t).(info := Some(info)));
  }

  /** The state in which t has been given its one place. */
  ghost predicate Placed(s: Store, r: Store, t: Ptr) {
    Inv(r) && Held(r) == Held(s) + multiset{t}
  }

  lemma OwnedMore(s: Store, r: Store, t: Ptr)
    requires Owned(s) && Loose(s, t) && Held(r) == Held(s) + multiset{t} && r.trAt.Keys == s.trAt.Keys
    ensures Owned(r)
  {
    forall x ensures Held(r)[x] <= 1 {
      assert (Held(s) + multiset{t})[x] == Held(s)[x] + multiset{t}[x];
    }
  }

  lemma FiledPlaced(s: Store, t: Ptr)
    requires Inv(s) && Loose(s, t)
    ensures Placed(s, Filed(s, t), t)
  {
    hide CallHeld, CallOk, Held, Owned;
    var r := Filed(s, t);
    FiledHeld(s, t);
    OwnedMore(s, r, t);
    forall c | c in s.calls ensures CallOk(r, c) {
      assert CallOk(s, c);
      FiledSame(s, t, c);
      SameCallOk(s, r, c);
    }
    GarbageLinked(s, r);
  }

  lemma GarbageLinked(s: Store, r: Store)
    requires SameButGarbage(s, r) && Linked(s)
    ensures Linked(r)
  {
  }

  lemma FiledSame(s: Store, t: Ptr, c: Ptr)
    ensures SameCall(s, Filed(s, t), c) && HeldWeaker(s, Filed(s, t), c)
  {
    hide CallHeld;
    forall d | d in CallOf(s, c).dialogs ensures SameDialog(s, Filed(s, t), d) {
    }
  }

  lemma FiledHeld(s: Store, t: Ptr)
    ensures Held(Filed(s, t)) == Held(s) + multiset{t}
  {
    hide CallHeld;
    var r := Filed(s, t);
    forall c ensures CallHeld(r, c) == CallHeld(s, c) {
      GarbageHeld(s, r, c);
    }
    CallsHeldSame(s, r, s.calls);
  }

  // ----- one call that changes -----

  /** Call c takes t in. */
  lemma LocalGrowth(s: Store, r: Store, c: Ptr, t: Ptr)
    requires Inv(s) && Loose(s, t) && c in s.calls && r.calls == s.calls && Linked(r) && Outside(s, r, c) && CallOk(r, c)
    requires CallHeld(r, c) + multiset(r.garbage) == CallHeld(s, c) + multiset(s.garbage) + multiset{t}
    ensures Placed(s, r, t)
  {
    hide CallHeld, CallOk, Held, Owned;
    GrowthBalance(s, r, c, t);
    OwnedMore(s, r, t);
    OthersOk(s, r, c);
  }

  lemma GrowthBalance(s: Store, r: Store, c: Ptr, t: Ptr)
    requires NoDup(s.calls) && r.calls == s.calls && c in s.calls && Outside(s, r, c)
    requires CallHeld(r, c) + multiset(r.garbage) == CallHeld(s, c) + multiset(s.garbage) + multiset{t}
    ensures Held(r) == Held(s) + multiset{t}
  {
    hide CallHeld, TrsWeaker, SameCall;
    forall e | e in s.calls && e != c ensures CallHeld(r, e) == CallHeld(s, e) {
      SameCallHeld(s, r, e);
    }
    forall x ensures Held(r)[x] == (Held(s) + multiset{t})[x] {
      CallsHeldChange(s, r, s.calls, c, x);
      assert (CallHeld(r, c) + multiset(r.garbage))[x] == (CallHeld(s, c) + multiset(s.garbage) + multiset{t})[x];
    }
  }

  // ----- a transaction at the front of a dialog's list -----

  /** The dialog with t in front of one of its lists. */
  ghost predicate Fronts(a: Dialog, b: Dialog, t: Ptr) {
    || (b.incTrs == [t] + a.incTrs && b.outTrs == a.outTrs)
    || (b.outTrs == [t] + a.outTrs && b.incTrs == a.incTrs)
  }

  /** No transaction of the dialog is younger than t. */
  ghost predicate Youngest(s: Store, d: Ptr, t: Ptr) {
    forall x | Listed(s, d, x) :: TrOf(s, x).birth <= TrOf(s, t).birth
  }

  lemma FrontsNames(s: Store, c: Ptr, d: Ptr, dialog: Dialog, t: Ptr)
    requires NamesOk(s, c) && d in CallOf(s, c).dialogs && Fronts(DialogOf(s, d), dialog, t) && ReportsTo(s, t, c)
    requires Names(s, t) == None || Names(s, t) == Some(d)
    ensures NamesOk(SetDialog(s, d, dialog), c)
  {
    var r := SetDialog(s, d, dialog);
    forall x, e | InSlot(r, c, x) && Names(r, x) == Some(e) ensures e in CallOf(s, c).dialogs {
      assert InSlot(s, c, x) && Names(s, x) == Some(e);
    }
    forall e, x | e in CallOf(s, c).dialogs && Listed(r, e, x)
      ensures (Names(r, x) == None || Names(r, x) == Some(e)) && ReportsTo(r, x, c)
    {
      assert x != t || e != d ==> Listed(s, e, x);
      assert Names(r, x) == Names(s, x) && (ReportsTo(s, x, c) ==> ReportsTo(r, x, c));
    }
    forall x | InSlot(r, c, x) ensures ReportsTo(r, x, c) {
      assert InSlot(s, c, x);
    }
  }

  lemma FrontsSorted(s: Store, c: Ptr, d: Ptr, dialog: Dialog, t: Ptr)
    requires CallSorted(s, c) && d in CallOf(s, c).dialogs && Fronts(DialogOf(s, d), dialog, t) && Youngest(s, d, t)
    ensures CallSorted(SetDialog(s, d, dialog), c)
  {
    hide NewestFirst;
    var r := SetDialog(s, d, dialog);
    forall e | e in CallOf(s, c).dialogs ensures DialogSorted(r, e) {
      assert DialogSorted(s, e);
      if e == d {
        FrontSorted(s, DialogOf(s, d).incTrs, t, d);
        FrontSorted(s, DialogOf(s, d).outTrs, t, d);
        SameTrsSorted(s, r, dialog.incTrs);
        SameTrsSorted(s, r, dialog.outTrs);
      } else {
        assert DialogOf(r, e) == DialogOf(s, e);
        SameTrsSorted(s, r, DialogOf(s, e).incTrs);
        SameTrsSorted(s, r, DialogOf(s, e).outTrs);
      }
    }
  }

  lemma FrontSorted(s: Store, l: seq<Ptr>, t: Ptr, d: Ptr)
    requires NewestFirst(s, l) && Youngest(s, d, t) && forall x | x in l :: Listed(s, d, x)
    ensures NewestFirst(s, [t] + l)
  {
  }

  lemma SameTrsSorted(s: Store, r: Store, l: seq<Ptr>)
    requires r.trAt == s.trAt && NewestFirst(s, l)
    ensures NewestFirst(r, l)
  {
  }

  lemma FrontsPlaced(s: Store, c: Ptr, d: Ptr, dialog: Dialog, t: Ptr)
    requires Inv(s) && Loose(s, t) && c in s.calls && d in CallOf(s, c).dialogs
    requires Fronts(DialogOf(s, d), dialog, t) && Youngest(s, d, t) && ReportsTo(s, t, c)
    requires Names(s, t) == None || Names(s, t) == Some(d)
    ensures Placed(s, SetDialog(s, d, dialog), t)
  {
    hide NamesOk, CallSorted, Held, CallHeld, Owned, Fronts;
    var r := SetDialog(s, d, dialog);
    assert CallOk(s, c);
    SetDialogOutside(s, c, d, dialog);
    FrontsNames(s, c, d, dialog, t);
    FrontsSorted(s, c, d, dialog, t);
    FrontsBalance(s, c, d, dialog, t);
    LocalGrowth(s, r, c, t);
  }

  lemma FrontsBalance(s: Store, c: Ptr, d: Ptr, dialog: Dialog, t: Ptr)
    requires Linked(s) && c in s.calls && d in CallOf(s, c).dialogs && Fronts(DialogOf(s, d), dialog, t)
    ensures var r := SetDialog(s, d, dialog);
      CallHeld(r, c) + multiset(r.garbage) == CallHeld(s, c) + multiset(s.garbage) + multiset{t}
  {
    hide CallHeld, Linked;
    var r := SetDialog(s, d, dialog);
    assert multiset(dialog.incTrs) + multiset(dialog.outTrs) == Own(s, d) + multiset{t};
    forall x ensures (CallHeld(r, c) + multiset(r.garbage))[x] == (CallHeld(s, c) + multiset(s.garbage) + multiset{t})[x] {
      SetDialogHeld(s, c, d, dialog, x);
      assert (multiset(dialog.incTrs) + multiset(dialog.outTrs))[x] == (Own(s, d) + multiset{t})[x];
    }
  }

  // ----- a dialog whose lists stay -----

  lemma SameListsKeeps(s: Store, c: Ptr, d: Ptr, dialog: Dialog)
    requires Inv(s) && c in s.calls && d in CallOf(s, c).dialogs
    requires dialog.incTrs == DialogOf(s, d).incTrs && dialog.outTrs == DialogOf(s, d).outTrs
    ensures var r := SetDialog(s, d, dialog); Inv(r) && Held(r) == Held(s)
  {
    hide NewestFirst, NamesOk, Owned, Held, CallHeld;
    var r := SetDialog(s, d, dialog);
    InvShape(s, c);
    SetDialogOutside(s, c, d, dialog);
    SetDialogShrunk(s, c, d, dialog);
    forall x ensures CallHeld(r, c)[x] == CallHeld(s, c)[x] {
      SetDialogHeld(s, c, d, dialog, x);
    }
    LocalChange(s, r, c);
  }

  // ----- new calls and new dialogs -----

  lemma CallAddedKeeps(s: Store, c: Ptr)
    requires Inv(s) && c !in s.callAt
    ensures var r := CallAdded(s, c); Inv(r) && Held(r) == Held(s)
  {
    hide CallHeld, CallOk, Linked, Owned, CallsHeld, SameCall, HeldWeaker;
    var r := CallAdded(s, c);
    CallAddedLinked(s, c);
    CallAddedHeld(s, c);
    forall e | e in r.calls ensures CallOk(r, e) {
      if e == c {
        EmptyCallOk(r, c);
      } else {
        assert CallOk(s, e);
        CallAddedSame(s, c, e);
        SameCallOk(s, r, e);
      }
    }
    OwnedSame(s, r);
  }

  lemma CallAddedLinked(s: Store, c: Ptr)
    requires Linked(s) && c !in s.callAt
    ensures Linked(CallAdded(s, c)) && c !in s.calls
  {
    var r := CallAdded(s, c);
    assert c !in s.calls;
    assert CallOf(r, c).dialogs == [];
  }

  lemma CallAddedHeld(s: Store, c: Ptr)
    requires c !in s.calls
    ensures Held(CallAdded(s, c)) == Held(s)
  {
    hide CallHeld, SameCall, HeldWeaker;
    var r := CallAdded(s, c);
    forall e | e in s.calls ensures CallHeld(r, e) == CallHeld(s, e) {
      CallAddedSame(s, c, e);
    }
    CallsHeldSame(s, r, s.calls);
    assert r.calls[1..] == s.calls;
    EmptyCallOk(r, c);
  }

  lemma CallAddedSame(s: Store, c: Ptr, e: Ptr)
    requires e != c
    ensures var r := CallAdded(s, c); SameCall(s, r, e) && CallHeld(r, e) == CallHeld(s, e) && HeldWeaker(s, r, e)
  {
    hide CallHeld;
    var r := CallAdded(s, c);
    forall d | d in CallOf(s, e).dialogs ensures SameDialog(s, r, d) {
    }
    SameCallHeld(s, r, e);
  }

  lemma EmptyCallOk(s: Store, c: Ptr)
    requires CallOf(s, c).incTr == None && CallOf(s, c).outTr == None && CallOf(s, c).dialogs == []
    ensures CallOk(s, c) && CallHeld(s, c) == multiset{}
  {
  }

  lemma DialogAddedLinked(s: Store, c: Ptr, d: Ptr, dialog: Dialog)
    requires Linked(s) && c in s.calls && d !in s.dialogAt
    ensures Linked(DialogAdded(s, c, d, dialog))
    ensures Outside(s, DialogAdded(s, c, d, dialog), c)
  {
    var r := DialogAdded(s, c, d, dialog);
    forall e | e in s.calls ensures d !in CallOf(s, e).dialogs {
      assert d in s.callAt[e].dialogs ==> d in s.dialogAt;
    }
    forall e | e in s.calls && e != c ensures SameCall(s, r, e) {
      forall x | x in CallOf(s, e).dialogs ensures SameDialog(s, r, x) {
      }
    }
    assert NoDup(CallOf(r, c).dialogs);
  }

  lemma DialogAddedHeld(s: Store, c: Ptr, d: Ptr, dialog: Dialog)
    requires d !in CallOf(s, c).dialogs && dialog.incTrs == [] && dialog.outTrs == []
    ensures CallHeld(DialogAdded(s, c, d, dialog), c) == CallHeld(s, c)
  {
    var r := DialogAdded(s, c, d, dialog);
    forall x | x in CallOf(s, c).dialogs ensures Own(r, x) == Own(s, x) {
    }
    DialogsHeldSame(s, r, CallOf(s, c).dialogs);
    assert CallOf(r, c).dialogs[1..] == CallOf(s, c).dialogs;
  }

  lemma DialogAddedOk(s: Store, c: Ptr, d: Ptr, dialog: Dialog)
    requires CallOk(s, c) && d !in CallOf(s, c).dialogs && dialog.incTrs == [] && dialog.outTrs == []
    ensures CallOk(DialogAdded(s, c, d, dialog), c)
  {
    hide NewestFirst;
    var r := DialogAdded(s, c, d, dialog);
    forall e | e in CallOf(s, c).dialogs ensures DialogSorted(r, e) {
      assert DialogSorted(s, e) && DialogOf(r, e) == DialogOf(s, e);
      SameTrsSorted(s, r, DialogOf(s, e).incTrs);
      SameTrsSorted(s, r, DialogOf(s, e).outTrs);
    }
    EmptySorted(r);
    forall x, e | InSlot(r, c, x) && Names(r, x) == Some(e) ensures e in CallOf(r, c).dialogs {
      assert InSlot(s, c, x) && Names(s, x) == Some(e);
    }
    forall e, x | e in CallOf(r, c).dialogs && Listed(r, e, x)
      ensures (Names(r, x) == None || Names(r, x) == Some(e)) && ReportsTo(r, x, c)
    {
      assert Listed(s, e, x) && Names(r, x) == Names(s, x);
    }
    forall x | InSlot(r, c, x) ensures ReportsTo(r, x, c) {
      assert InSlot(s, c, x);
    }
  }

  lemma EmptySorted(s: Store)
    ensures NewestFirst(s, [])
  {
  }

  lemma DialogAddedKeeps(s: Store, c: Ptr, d: Ptr, dialog: Dialog)
    requires Inv(s) && c in s.calls && d !in s.dialogAt && dialog.incTrs == [] && dialog.outTrs == []
    ensures var r := DialogAdded(s, c, d, dialog); Inv(r) && Held(r) == Held(s)
  {
    hide CallOk, CallHeld, Held, Owned, Linked;
    var r := DialogAdded(s, c, d, dialog);
    InvShape(s, c);
    DialogAddedLinked(s, c, d, dialog);
    DialogAddedOk(s, c, d, dialog);
    DialogAddedHeld(s, c, d, dialog);
    assert NoDup(s.calls) by { LinkedNoDup(s); }
    HeldBalance(s, r, c);
    OwnedSame(s, r);
    OthersOk(s, r, c);
  }

  // ----- a transaction into an empty slot -----

  /** A call without a transaction of its own gets one. */
  ghost predicate Fills(a: Call, b: Call, t: Ptr) {
    && a.incTr == None && a.outTr == None && b.dialogs == a.dialogs
    && ((b.incTr == Some(t) && b.outTr == None) || (b.outTr == Some(t) && b.incTr == None))
  }

  lemma FillsOk(s: Store, c: Ptr, call: Call, t: Ptr)
    requires CallOk(s, c) && Fills(CallOf(s, c), call, t) && ReportsTo(s, t, c)
    requires Names(s, t).Some? ==> Names(s, t).value in call.dialogs
    ensures CallOk(SetCall(s, c, call), c)
  {
    hide NewestFirst;
    var r := SetCall(s, c, call);
    forall e | e in call.dialogs ensures DialogSorted(r, e) {
      assert DialogSorted(s, e) && DialogOf(r, e) == DialogOf(s, e);
      SameTrsSorted(s, r, DialogOf(s, e).incTrs);
      SameTrsSorted(s, r, DialogOf(s, e).outTrs);
    }
    forall x, e | InSlot(r, c, x) && Names(r, x) == Some(e) ensures e in CallOf(r, c).dialogs {
      assert x == t && Names(s, x) == Some(e);
    }
    forall e, x | e in CallOf(r, c).dialogs && Listed(r, e, x)
      ensures (Names(r, x) == None || Names(r, x) == Some(e)) && ReportsTo(r, x, c)
    {
      assert Listed(s, e, x) && Names(r, x) == Names(s, x);
    }
    forall x | InSlot(r, c, x) ensures ReportsTo(r, x, c) {
      assert x == t;
    }
  }

  lemma FillsBalance(s: Store, c: Ptr, call: Call, t: Ptr)
    requires Fills(CallOf(s, c), call, t)
    ensures CallHeld(SetCall(s, c, call), c) == CallHeld(s, c) + multiset{t}
  {
    hide Own, DialogsHeld;
    var r := SetCall(s, c, call);
    forall d ensures Own(r, d) == Own(s, d) { OwnOf(s, r, d); }
    DialogsHeldSame(s, r, call.dialogs);
    assert Slot(call.incTr) + Slot(call.outTr) == multiset{t};
    assert CallHeld(s, c) == DialogsHeld(s, call.dialogs);
  }

  lemma FillsPlaced(s: Store, c: Ptr, call: Call, t: Ptr)
    requires Inv(s) && Loose(s, t) && c in s.calls && Fills(CallOf(s, c), call, t) && ReportsTo(s, t, c)
    requires Names(s, t).Some? ==> Names(s, t).value in call.dialogs
    ensures Placed(s, SetCall(s, c, call), t)
  {
    hide CallOk, CallHeld, Held, Owned, Linked;
    var r := SetCall(s, c, call);
    InvShape(s, c);
    SlotLinked(s, r, c);
    FillsOk(s, c, call, t);
    FillsBalance(s, c, call, t);
    LocalGrowth(s, r, c, t);
  }

  // ----- what names what -----

  /** A call's own transaction is held nowhere else. */
  lemma SlotOnly(s: Store, c: Ptr, t: Ptr)
    requires Inv(s) && c in s.calls && InSlot(s, c, t)
    ensures forall e | e in s.calls && e != c :: t !in CallHeld(s, e)
    ensures forall d | d in CallOf(s, c).dialogs :: !Listed(s, d, t)
    ensures t in s.trAt && t !in s.garbage
  {
    hide CallsOk, Linked, Own;
    InSlotHeld(s, c, t);
    HeldTwice(s, c, t);
    CallHeldAmong(s, s.calls, c);
    CallsHeldRemove(s, s.calls, c, t);
    assert Held(s)[t] <= 1;
    forall e | e in s.calls && e != c ensures t !in CallHeld(s, e) {
      RemoveContents(s.calls, c);
      CallHeldAmong(s, Remove(s.calls, c), e);
    }
    forall d | d in CallOf(s, c).dialogs ensures !Listed(s, d, t) {
      DialogHeldAmong(s, CallOf(s, c).dialogs, d);
      ListedOwn(s, d, t);
    }
  }

  lemma ListedOwn(s: Store, d: Ptr, t: Ptr)
    ensures Listed(s, d, t) <==> t in Own(s, d)
  {
  }

  lemma RenamedOk(s: Store, c: Ptr, t: Ptr, d: Ptr)
    requires CallOk(s, c) && InSlot(s, c, t) && d in CallOf(s, c).dialogs
    requires forall e | e in CallOf(s, c).dialogs :: !Listed(s, e, t)
    ensures CallOk(Reporting(s, t, JInfo(c, Some(d))), c)
  {
    hide NewestFirst;
    var r := Reporting(s, t, JInfo(c, Some(d)));
    forall e | e in CallOf(s, c).dialogs ensures DialogSorted(r, e) {
      assert DialogSorted(s, e) && DialogOf(r, e) == DialogOf(s, e);
      SameBirthsSorted(s, r, DialogOf(s, e).incTrs);
      SameBirthsSorted(s, r, DialogOf(s, e).outTrs);
    }
    forall x, e | InSlot(r, c, x) && Names(r, x) == Some(e) ensures e in CallOf(r, c).dialogs {
      assert x != t ==> InSlot(s, c, x) && Names(s, x) == Some(e);
    }
    forall e, x | e in CallOf(r, c).dialogs && Listed(r, e, x)
      ensures (Names(r, x) == None || Names(r, x) == Some(e)) && ReportsTo(r, x, c)
    {
      assert Listed(s, e, x) && x != t && Names(r, x) == Names(s, x);
    }
    forall x | InSlot(r, c, x) ensures ReportsTo(r, x, c) {
      assert x != t ==> InSlot(s, c, x) && ReportsTo(s, x, c);
    }
  }

  lemma SameBirthsSorted(s: Store, r: Store, l: seq<Ptr>)
    requires (forall x :: TrOf(r, x).birth == TrOf(s, x).birth) && NewestFirst(s, l)
    ensures NewestFirst(r, l)
  {
  }

  /** A call's own transaction comes to name a dialog of the call. */
  lemma RenamedKeeps(s: Store, c: Ptr, t: Ptr, d: Ptr)
    requires Inv(s) && c in s.calls && InSlot(s, c, t) && d in CallOf(s, c).dialogs
    ensures var r := Reporting(s, t, JInfo(c, Some(d))); Inv(r) && Held(r) == Held(s)
  {
    hide CallHeld, CallOk, SameCall, CallsHeld;
    var r := Reporting(s, t, JInfo(c, Some(d)));
    SlotOnly(s, c, t);
    WithTrHeld(s, t, TrOf(s, t).(info := Some(JInfo(c, Some(d)))), s.calls);
    forall e | e in s.calls ensures CallOk(r, e) {
      assert CallOk(s, e);
      if e == c {
        RenamedOk(s, c, t, d);
      } else {
        assert HeldWeaker(s, r, e);
        SameCallOk(s, r, e);
      }
    }
  }
}
