/** The invariants of the call store are kept by everything the release pass is made of. */
module CallInvariants {
  import opened Numerals
  import opened CallStore
  import opened CallOps

  // ----- frames -----

  /** A transaction keeps its age, and may at most stop naming a dialog. */
  ghost predicate Weaker(s: Store, s': Store, t: Ptr) {
    && TrOf(s', t).birth == TrOf(s, t).birth
    && (Names(s', t) == None || Names(s', t) == Names(s, t))
    && forall c :: ReportsTo(s, t, c) ==> ReportsTo(s', t, c)
  }

  ghost predicate TrsWeaker(s: Store, s': Store) {
    s'.trAt.Keys == s.trAt.Keys && forall t :: Weaker(s, s', t)
  }

  ghost predicate HeldWeaker(s: Store, s': Store, e: Ptr) {
    forall t | t in CallHeld(s, e) :: Weaker(s, s', t)
  }

  lemma ListedHeld(s: Store, c: Ptr, d: Ptr, t: Ptr)
    requires d in CallOf(s, c).dialogs && Listed(s, d, t)
    ensures t in CallHeld(s, c)
  {
    DialogHeldAmong(s, CallOf(s, c).dialogs, d);
    assert t in Own(s, d);
  }

  lemma InSlotHeld(s: Store, c: Ptr, t: Ptr)
    requires InSlot(s, c, t)
    ensures t in CallHeld(s, c)
  {
    hide DialogsHeld;
  }

  ghost predicate SameDialog(s: Store, s': Store, d: Ptr) {
    DialogOf(s', d).(id := 0) == DialogOf(s, d).(id := 0)
  }

  ghost predicate SameCall(s: Store, s': Store, e: Ptr) {
    && CallOf(s', e).(id := 0) == CallOf(s, e).(id := 0)
    && forall d | d in CallOf(s, e).dialogs :: SameDialog(s, s', d)
  }

  /** Outside call c nothing changed but ids and jinfo being dropped. */
  ghost predicate Outside(s: Store, s': Store, c: Ptr) {
    && TrsWeaker(s, s')
    && forall e | e in s.calls && e != c :: SameCall(s, s', e)
  }

  lemma OutsideJoin(a: Store, b: Store, s: Store, c: Ptr)
    requires Outside(a, b, c) && Outside(b, s, c)
    requires forall e | e in a.calls && e != c :: e in b.calls
    ensures Outside(a, s, c)
  {
    forall t ensures Weaker(a, s, t) {
      assert Weaker(a, b, t) && Weaker(b, s, t);
    }
    forall e | e in a.calls && e != c ensures SameCall(a, s, e) {
      assert SameCall(a, b, e) && SameCall(b, s, e);
      forall d | d in CallOf(a, e).dialogs ensures SameDialog(a, s, d) {
        assert SameDialog(a, b, d) && SameDialog(b, s, d);
      }
    }
  }

  lemma SameCallHeld(s: Store, s': Store, e: Ptr)
    requires SameCall(s, s', e)
    ensures CallHeld(s', e) == CallHeld(s, e)
  {
    forall d | d in CallOf(s, e).dialogs ensures Own(s', d) == Own(s, d) {
      assert SameDialog(s, s', d);
    }
    DialogsHeldSame(s, s', CallOf(s, e).dialogs);
  }

  lemma SortedSame(s: Store, s': Store, l: seq<Ptr>)
    requires NewestFirst(s, l) && forall t | t in l :: Weaker(s, s', t)
    ensures NewestFirst(s', l)
  {
    forall t | t in l ensures TrOf(s', t).birth == TrOf(s, t).birth {
      assert Weaker(s, s', t);
    }
  }

  /** A dialog may lose transactions, but not their order. */
  ghost predicate DialogShrunk(s: Store, s': Store, d: Ptr) {
    && (forall t | Listed(s', d, t) :: Listed(s, d, t))
    && NewestFirst(s, DialogOf(s', d).incTrs) && NewestFirst(s, DialogOf(s', d).outTrs)
  }

  ghost predicate SlotShrunk(a: Option<Ptr>, b: Option<Ptr>) {
    b == a || b == None
  }

  /** A call may lose transactions and dialogs, if no transaction of its own names a lost one. */
  ghost predicate Shrunk(s: Store, s': Store, c: Ptr) {
    && HeldWeaker(s, s', c)
    && SlotShrunk(CallOf(s, c).incTr, CallOf(s', c).incTr) && SlotShrunk(CallOf(s, c).outTr, CallOf(s', c).outTr)
    && (forall d | d in CallOf(s', c).dialogs :: d in CallOf(s, c).dialogs && DialogShrunk(s, s', d))
    && (forall t, d | InSlot(s', c, t) && Names(s', t) == Some(d) && d in CallOf(s, c).dialogs :: d in CallOf(s', c).dialogs)
  }

  lemma ShrunkNames(s: Store, s': Store, c: Ptr)
    requires Shrunk(s, s', c) && NamesOk(s, c)
    ensures NamesOk(s', c)
  {
    hide NewestFirst, Listed, Names, CallHeld, ReportsTo;
    forall t | InSlot(s', c, t) ensures ReportsTo(s', t, c) {
      assert InSlot(s, c, t);
      InSlotHeld(s, c, t);
      assert Weaker(s, s', t);
    }
    forall d, t | d in CallOf(s', c).dialogs && Listed(s', d, t) ensures ReportsTo(s', t, c) {
      assert DialogShrunk(s, s', d);
      ListedHeld(s, c, d, t);
      assert Weaker(s, s', t);
    }
    forall t, d | InSlot(s', c, t) && Names(s', t) == Some(d) ensures d in CallOf(s', c).dialogs {
      assert InSlot(s, c, t);
      InSlotHeld(s, c, t);
      assert Weaker(s, s', t);
    }
    forall d, t | d in CallOf(s', c).dialogs && Listed(s', d, t) ensures Names(s', t) == None || Names(s', t) == Some(d) {
      assert DialogShrunk(s, s', d);
      ListedHeld(s, c, d, t);
      assert Weaker(s, s', t);
    }
  }

  lemma ShrunkSorted(s: Store, s': Store, c: Ptr, d: Ptr, l: seq<Ptr>)
    requires HeldWeaker(s, s', c) && d in CallOf(s, c).dialogs
    requires NewestFirst(s, l) && forall t | t in l :: Listed(s, d, t)
    ensures NewestFirst(s', l)
  {
    hide Listed, CallHeld, NewestFirst, Weaker;
    forall t | t in l ensures Weaker(s, s', t) {
      ListedHeld(s, c, d, t);
    }
    SortedSame(s, s', l);
  }

  lemma ShrunkOk(s: Store, s': Store, c: Ptr)
    requires Shrunk(s, s', c) && CallOk(s, c)
    ensures CallOk(s', c)
  {
    hide NewestFirst, NamesOk, HeldWeaker;
    ShrunkNames(s, s', c);
    forall d | d in CallOf(s', c).dialogs ensures DialogSorted(s', d) {
      assert DialogShrunk(s, s', d);
      forall t | t in DialogOf(s', d).incTrs || t in DialogOf(s', d).outTrs ensures Listed(s, d, t) {
        assert Listed(s', d, t);
      }
      ShrunkSorted(s, s', c, d, DialogOf(s', d).incTrs);
      ShrunkSorted(s, s', c, d, DialogOf(s', d).outTrs);
    }
  }

  lemma SameCallShrunk(s: Store, s': Store, e: Ptr)
    requires CallSorted(s, e) && SameCall(s, s', e) && HeldWeaker(s, s', e)
    ensures Shrunk(s, s', e)
  {
    hide HeldWeaker, NewestFirst;
    forall d | d in CallOf(s', e).dialogs ensures DialogShrunk(s, s', d) {
      assert SameDialog(s, s', d) && DialogSorted(s, d);
    }
  }

  /** A call nothing happened to stays in order. */
  lemma SameCallOk(s: Store, s': Store, e: Ptr)
    requires CallOk(s, e) && SameCall(s, s', e) && HeldWeaker(s, s', e)
    ensures CallOk(s', e)
  {
    hide NamesOk, CallSorted, HeldWeaker, SameCall, Shrunk;
    SameCallShrunk(s, s', e);
    ShrunkOk(s, s', e);
  }

  // ----- putting one call's change into the whole store -----

  /** What is held does not change when one call and the garbage list together hold as much as before. */
  lemma HeldBalance(s: Store, s': Store, c: Ptr)
    requires NoDup(s.calls) && s'.calls == s.calls && c in s.calls && Outside(s, s', c)
    requires CallHeld(s', c) + multiset(s'.garbage) == CallHeld(s, c) + multiset(s.garbage)
    ensures Held(s') == Held(s)
  {
    hide CallHeld, TrsWeaker, SameCall;
    forall e | e in s.calls && e != c ensures CallHeld(s', e) == CallHeld(s, e) {
      SameCallHeld(s, s', e);
    }
    forall t ensures Held(s')[t] == Held(s)[t] {
      CallsHeldChange(s, s', s.calls, c, t);
      assert (CallHeld(s', c) + multiset(s'.garbage))[t] == (CallHeld(s, c) + multiset(s.garbage))[t];
    }
  }

  lemma OwnedSame(s: Store, s': Store)
    requires Owned(s) && Held(s') == Held(s) && s'.trAt.Keys == s.trAt.Keys
    ensures Owned(s')
  {
  }

  lemma OthersOk(s: Store, s': Store, c: Ptr)
    requires CallsOk(s) && Outside(s, s', c)
    ensures forall e | e in s.calls && e != c :: CallOk(s', e)
  {
    hide CallOk, SameCall, CallHeld, Weaker;
    forall e | e in s.calls && e != c ensures CallOk(s', e) {
      assert HeldWeaker(s, s', e);
      SameCallOk(s, s', e);
    }
  }

  /** A change inside one call that hands transactions over to the garbage list. */
  lemma LocalChange(s: Store, s': Store, c: Ptr)
    requires Inv(s) && c in s.calls && s'.calls == s.calls && Linked(s') && Outside(s, s', c) && Shrunk(s, s', c)
    requires CallHeld(s', c) + multiset(s'.garbage) == CallHeld(s, c) + multiset(s.garbage)
    ensures Inv(s') && Held(s') == Held(s)
  {
    hide CallHeld, CallOk, Held, Owned, Shrunk;
    HeldBalance(s, s', c);
    OwnedSame(s, s');
    OthersOk(s, s', c);
    ShrunkOk(s, s', c);
  }

  // ----- renumbering -----

  lemma SameButIdsOutside(s: Store, s': Store, c: Ptr)
    requires SameButIds(s, s')
    ensures Outside(s, s', c)
    ensures forall e :: SameCall(s, s', e) && HeldWeaker(s, s', e)
  {
    forall e ensures SameCall(s, s', e) {
      if e in s.callAt {
        assert s'.callAt[e].(id := 0) == s.callAt[e].(id := 0);
      }
      forall d | d in CallOf(s, e).dialogs ensures SameDialog(s, s', d) {
        if d in s.dialogAt {
          assert s'.dialogAt[d].(id := 0) == s.dialogAt[d].(id := 0);
        }
      }
    }
  }

  /** Renumbering keeps everything. */
  lemma UpdatedKeeps(s: Store, s': Store)
    requires SameButIds(s, s')
    ensures Held(s') == Held(s)
    ensures Inv(s) ==> Inv(s')
  {
    SameButIdsOutside(s, s', 0);
    forall e | e in s.calls ensures CallHeld(s', e) == CallHeld(s, e) {
      SameCallHeld(s, s', e);
    }
    CallsHeldSame(s, s', s.calls);
    if Inv(s) {
      UpdatedInv(s, s');
    }
  }

  lemma UpdatedInv(s: Store, s': Store)
    requires SameButIds(s, s') && Inv(s) && Held(s') == Held(s)
    ensures Inv(s')
  {
    hide Held, CallOk;
    SameButIdsOutside(s, s', 0);
    forall e | e in s.calls ensures CallOf(s', e).dialogs == CallOf(s, e).dialogs && CallOk(s', e) {
      assert SameCall(s, s', e);
      SameCallOk(s, s', e);
    }
  }

  // ----- one transaction from a call to the garbage list -----

  lemma {:induction false} RemoveSorted(s: Store, l: seq<Ptr>, x: Ptr)
    requires NewestFirst(s, l)
    ensures NewestFirst(s, Remove(l, x))
  {
    if l != [] {
      RemoveSorted(s, l[1..], x);
      RemoveContents(l[1..], x);
      var r := Remove(l, x);
      forall i, j | 0 <= i < j < |r| ensures TrOf(s, r[i]).birth >= TrOf(s, r[j]).birth {
        if l[0] != x && i == 0 {
          assert r[j] in l[1..];
        }
      }
    }
  }

  lemma WithoutSorted(s: Store, l: seq<Ptr>, k: nat)
    requires k < |l| && NewestFirst(s, l)
    ensures NewestFirst(s, Without(l, k))
  {
  }

  /** Changing one dialog's lists leaves the other calls alone. */
  lemma SetDialogOutside(s: Store, c: Ptr, d: Ptr, dialog: Dialog)
    requires Linked(s) && c in s.calls && d in CallOf(s, c).dialogs
    ensures Outside(s, SetDialog(s, d, dialog), c)
    ensures Linked(SetDialog(s, d, dialog))
  {
    var s' := SetDialog(s, d, dialog);
    forall e | e in s.calls && e != c ensures SameCall(s, s', e) {
      assert d !in CallOf(s, e).dialogs;
    }
  }

  /** The call holds what it held, with the new lists in place of the old. */
  lemma SetDialogHeld(s: Store, c: Ptr, d: Ptr, dialog: Dialog, x: Ptr)
    requires Linked(s) && c in s.calls && d in CallOf(s, c).dialogs
    ensures CallHeld(SetDialog(s, d, dialog), c)[x] + Own(s, d)[x]
         == CallHeld(s, c)[x] + (multiset(dialog.incTrs) + multiset(dialog.outTrs))[x]
  {
    DialogsHeldChange(s, SetDialog(s, d, dialog), CallOf(s, c).dialogs, d, x);
  }

  lemma SetDialogShrunk(s: Store, c: Ptr, d: Ptr, dialog: Dialog)
    requires CallSorted(s, c)
    requires forall t | t in dialog.incTrs || t in dialog.outTrs :: Listed(s, d, t)
    requires NewestFirst(s, dialog.incTrs) && NewestFirst(s, dialog.outTrs)
    ensures Shrunk(s, SetDialog(s, d, dialog), c)
  {
    hide NewestFirst;
    var s' := SetDialog(s, d, dialog);
    forall e | e in CallOf(s, c).dialogs ensures DialogShrunk(s, s', e) {
      assert DialogSorted(s, e);
      assert e != d ==> DialogOf(s', e) == DialogOf(s, e);
    }
  }

  /** The dialog's lists give up t, in order; the garbage list gains it. */
  lemma MoveOut(s: Store, c: Ptr, d: Ptr, dialog: Dialog, t: Ptr)
    requires Inv(s) && c in s.calls && d in CallOf(s, c).dialogs
    requires multiset(dialog.incTrs) + multiset(dialog.outTrs) + multiset{t} == Own(s, d)
    requires NewestFirst(s, dialog.incTrs) && NewestFirst(s, dialog.outTrs)
    ensures var s' := Filed(SetDialog(s, d, dialog), t); Inv(s') && Held(s') == Held(s)
  {
    hide NewestFirst, NamesOk, Owned, Held, CallHeld;
    var s1 := SetDialog(s, d, dialog);
    var s' := Filed(s1, t);
    SetDialogOutside(s, c, d, dialog);
    MoveOutBalance(s, c, d, dialog, t);
    forall x | x in dialog.incTrs || x in dialog.outTrs ensures Listed(s, d, x) {
      assert x in multiset(dialog.incTrs) + multiset(dialog.outTrs) + multiset{t};
    }
    assert CallOk(s, c);
    SetDialogShrunk(s, c, d, dialog);
    GarbageHeld(s1, s', c);
    GarbageOutside(s, s1, s', c);
    GarbageShrunk(s, s1, s', c);
    LocalChange(s, s', c);
  }

  lemma MoveOutBalance(s: Store, c: Ptr, d: Ptr, dialog: Dialog, t: Ptr)
    requires Linked(s) && c in s.calls && d in CallOf(s, c).dialogs
    requires multiset(dialog.incTrs) + multiset(dialog.outTrs) + multiset{t} == Own(s, d)
    ensures CallHeld(SetDialog(s, d, dialog), c) + multiset([t] + s.garbage) == CallHeld(s, c) + multiset(s.garbage)
  {
    hide CallHeld, Own, Linked;
    var s1 := SetDialog(s, d, dialog);
    var rest := multiset(dialog.incTrs) + multiset(dialog.outTrs);
    forall x ensures (CallHeld(s1, c) + multiset([t] + s.garbage))[x] == (CallHeld(s, c) + multiset(s.garbage))[x] {
      SetDialogHeld(s, c, d, dialog, x);
      assert (rest + multiset{t})[x] == Own(s, d)[x];
    }
  }

  /** A store that differs from s1 only in the garbage list. */
  ghost predicate SameButGarbage(s1: Store, s': Store) {
    s' == s1.(garbage := s'.garbage)
  }

  lemma GarbageTrs(s: Store, s1: Store, s': Store)
    requires SameButGarbage(s1, s') && TrsWeaker(s, s1)
    ensures TrsWeaker(s, s')
  {
    forall x ensures Weaker(s, s', x) {
      assert Weaker(s, s1, x);
    }
  }

  lemma GarbageOutside(s: Store, s1: Store, s': Store, c: Ptr)
    requires SameButGarbage(s1, s') && Outside(s, s1, c)
    ensures Outside(s, s', c)
  {
    hide TrsWeaker;
    GarbageTrs(s, s1, s');
    forall e | e in s.calls && e != c ensures SameCall(s, s', e) {
      assert SameCall(s, s1, e);
      forall d | d in CallOf(s, e).dialogs ensures SameDialog(s, s', d) {
        assert SameDialog(s, s1, d);
      }
    }
  }

  lemma GarbageShrunk(s: Store, s1: Store, s': Store, c: Ptr)
    requires SameButGarbage(s1, s') && Shrunk(s, s1, c)
    ensures Shrunk(s, s', c)
  {
    hide CallHeld, NewestFirst;
    forall t | t in CallHeld(s, c) ensures Weaker(s, s', t) {
      assert Weaker(s, s1, t);
    }
    forall d | d in CallOf(s', c).dialogs ensures d in CallOf(s, c).dialogs && DialogShrunk(s, s', d) {
      assert DialogShrunk(s, s1, d);
      forall t | Listed(s', d, t) ensures Listed(s, d, t) {
        assert Listed(s1, d, t);
      }
    }
    forall t, d | InSlot(s', c, t) && Names(s', t) == Some(d) && d in CallOf(s, c).dialogs ensures d in CallOf(s', c).dialogs {
      assert InSlot(s1, c, t) && Names(s1, t) == Some(d);
    }
  }

  lemma GarbageHeld(s1: Store, s': Store, c: Ptr)
    requires SameButGarbage(s1, s')
    ensures CallHeld(s', c) == CallHeld(s1, c)
  {
    assert SameCall(s1, s', c);
    SameCallHeld(s1, s', c);
  }
}
