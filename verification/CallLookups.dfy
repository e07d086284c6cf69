/** What the searches through the calls find, and what the names kept by transactions are good for. */
module CallLookups {
  import opened Numerals
  import opened CallStore
  import opened CallOps
  import opened CallInvariants
  import opened CallRelease
  import opened CallHandlers
  import opened CallGrowth

  // ----- _eXosip_call_transaction_find -----

  lemma {:induction false} ListedByDialogs(s: Store, ds: seq<Ptr>, d: Ptr, t: Ptr)
    requires d in ds && Listed(s, d, t)
    ensures t in DialogsHeld(s, ds)
  {
    DialogHeldAmong(s, ds, d);
    assert t in Own(s, d);
  }

  lemma {:induction false} FindsAmong(s: Store, cs: seq<Ptr>, t: Ptr)
    ensures TransactionFind(s, cs, t).Some? <==> t in CallsHeld(s, cs)
    ensures var r := TransactionFind(s, cs, t);
      r.Some? ==> if InSlot(s, r.value.c, t) then r.value.d == First(CallOf(s, r.value.c).dialogs)
                  else r.value.d.Some? && Listed(s, r.value.d.value, t)
  {
    hide DialogsHeld;
    if cs != [] {
      var ds := CallOf(s, cs[0]).dialogs;
      if InSlot(s, cs[0], t) {
        InSlotHeld(s, cs[0], t);
      } else {
        FindsAmong(s, cs[1..], t);
        var d := DialogListing(s, ds, t);
        if d.Some? {
          ListedByDialogs(s, ds, d.value, t);
        } else if t in DialogsHeld(s, ds) {
          var e := HeldByDialog(s, ds, t);
        }
      }
    }
  }

  /**
   _eXosip_call_transaction_find finds exactly the transactions calls hold; and as each has one
   holder, the call it finds is the only one that holds it.
   */
  lemma TransactionFindExactly(s: Store, t: Ptr)
    requires Linked(s) && Owned(s)
    ensures TransactionFind(s, s.calls, t).Some? <==> t in CallsHeld(s, s.calls)
    ensures var r := TransactionFind(s, s.calls, t);
      r.Some? ==> && t in CallHeld(s, r.value.c)
                  && (forall e | e in s.calls && e != r.value.c :: t !in CallHeld(s, e))
                  && (if InSlot(s, r.value.c, t) then r.value.d == First(CallOf(s, r.value.c).dialogs)
                      else r.value.d.Some? && Listed(s, r.value.d.value, t))
  {
    hide CallHeld, TransactionFind, CallsHeld, Linked, Owned;
    FindsAmong(s, s.calls, t);
    var r := TransactionFind(s, s.calls, t);
    if r.Some? {
      if InSlot(s, r.value.c, t) {
        InSlotHeld(s, r.value.c, t);
      } else {
        ListedHeld(s, r.value.c, r.value.d.value, t);
      }
      HeldByOne(s, r.value.c, t);
    }
  }

  lemma HeldByOne(s: Store, c: Ptr, t: Ptr)
    requires Linked(s) && Owned(s) && c in s.calls && t in CallHeld(s, c)
    ensures forall e | e in s.calls && e != c :: t !in CallHeld(s, e)
  {
    hide CallHeld;
    CallsHeldRemove(s, s.calls, c, t);
    assert Held(s)[t] <= 1;
    forall e | e in s.calls && e != c ensures t !in CallHeld(s, e) {
      RemoveContents(s.calls, c);
      CallHeldAmong(s, Remove(s.calls, c), e);
    }
  }

  // ----- names -----

  /** The transactions a call holds name no dialog, or some dialog of the call. */
  ghost predicate WeakNames(s: Store, c: Ptr) {
    && (forall t, d | InSlot(s, c, t) && Names(s, t) == Some(d) :: d in CallOf(s, c).dialogs)
    && (forall e, t, d | e in CallOf(s, c).dialogs && Listed(s, e, t) && Names(s, t) == Some(d) :: d in CallOf(s, c).dialogs)
  }

  /** No transaction of another dialog of the call names d. */
  ghost predicate NamedByItselfOnly(s: Store, c: Ptr, d: Ptr) {
    forall e, t | e in CallOf(s, c).dialogs && e != d && Listed(s, e, t) :: Names(s, t) != Some(d)
  }

  lemma ListedOnce(s: Store, c: Ptr, d: Ptr, e: Ptr, t: Ptr)
    requires Linked(s) && Owned(s) && c in s.calls && d in CallOf(s, c).dialogs && e in CallOf(s, c).dialogs && d != e
    requires Listed(s, e, t)
    ensures t !in Own(s, d) && !InSlot(s, c, t)
  {
    hide Own, Linked;
    var ds := CallOf(s, c).dialogs;
    CallHeldAmong(s, s.calls, c);
    assert Held(s)[t] <= 1;
    DialogsHeldRemove(s, ds, d, t);
    RemoveContents(ds, d);
    ListedByDialogs(s, Remove(ds, d), e, t);
  }

  lemma RemovedNames(s: Store, c: Ptr, d: Ptr, t: Ptr)
    ensures var r := DialogRemoved(s, c, d);
      && (t !in Own(s, d) && !InSlot(s, c, t) ==> Names(r, t) == Names(s, t))
      && (InSlot(s, c, t) ==> Names(r, t) != Some(d))
      && (Names(r, t) == None || Names(r, t) == Names(s, t))
  {
    hide Updated, Remove, DrainedInto;
    var s0 := RefsDropped(s, c, d);
    RefsDroppedFacts(s, c, d);
    var s1 := Unlinked(s0, c, d);
    OwnOf(s, s1, d);
    var s2 := DialogFreed(s1, d);
    assert SameButIds(s2, Updated(s2));
    assert Weaker(s, s0, t);
  }

  lemma RemovedDialogs(s: Store, c: Ptr, d: Ptr)
    requires Linked(s) && Owned(s) && c in s.calls && d in CallOf(s, c).dialogs
    ensures var r := DialogRemoved(s, c, d);
      && CallOf(r, c).(id := 0) == CallOf(s, c).(id := 0, dialogs := Remove(CallOf(s, c).dialogs, d))
      && forall e, t | e in CallOf(s, c).dialogs && e != d :: Listed(r, e, t) <==> Listed(s, e, t)
  {
    hide Updated, Remove, RefsDropped, DialogFreed, Unlinked, Owned;
    var s0 := RefsDropped(s, c, d);
    RefsDroppedFacts(s, c, d);
    assert Apart(s0, c);
    var s1 := DialogFreed(Unlinked(s0, c, d), d);
    FreedStep(s0, c, d);
    SameButIdsOutside(s1, Updated(s1), c);
    assert SameCall(s1, Updated(s1), c);
    forall e, t | e in CallOf(s, c).dialogs && e != d ensures Listed(Updated(s1), e, t) <==> Listed(s, e, t) {
      SameButIdsDialog(s1, Updated(s1), e);
    }
  }

  /**
   That every name is a name of some dialog of the call survives the removal of dialog d exactly
   if no transaction of another dialog names d: the call's own references and the dialog's own
   transactions are the only ones that are cleaned. This is about one removal; the passes and the runs
   are covered by the stronger NamesOk, under which no other dialog's transaction ever names d.
   */
  lemma WeakNamesExactly(s: Store, c: Ptr, d: Ptr)
    requires Linked(s) && Owned(s) && c in s.calls && d in CallOf(s, c).dialogs && WeakNames(s, c)
    ensures WeakNames(DialogRemoved(s, c, d), c) <==> NamedByItselfOnly(s, c, d)
  {
    hide Linked, Owned, DialogRemoved, Listed, Names;
    var r := DialogRemoved(s, c, d);
    var ds := CallOf(s, c).dialogs;
    RemovedDialogs(s, c, d);
    assert NoDup(ds) by { LinkedCall(s, c); }
    RemoveNoDup(ds, d);
    RemoveContents(ds, d);
    forall e, t | e in ds && e != d && Listed(s, e, t) ensures Names(r, t) == Names(s, t) {
      ListedOnce(s, c, d, e, t);
      RemovedNames(s, c, d, t);
    }
    if NamedByItselfOnly(s, c, d) {
      forall t, x | InSlot(r, c, t) && Names(r, t) == Some(x) ensures x in CallOf(r, c).dialogs {
        assert InSlot(s, c, t);
        RemovedNames(s, c, d, t);
      }
      forall e, t, x | e in CallOf(r, c).dialogs && Listed(r, e, t) && Names(r, t) == Some(x) ensures x in CallOf(r, c).dialogs {
        assert e in ds && e != d && Listed(s, e, t);
      }
    }
    if WeakNames(r, c) {
      forall e, t | e in ds && e != d && Listed(s, e, t) ensures Names(s, t) != Some(d) {
        assert e in CallOf(r, c).dialogs && Listed(r, e, t);
      }
    }
  }

  lemma LinkedCall(s: Store, c: Ptr)
    requires Linked(s) && c in s.calls
    ensures NoDup(CallOf(s, c).dialogs)
  {
  }

  /** A call with two dialogs, and a request in the second that reports to the first; NamesOk rules it out. */
  const CROSSED := Store([1], [], map[1 := Call(5, None, None, [10, 11])],
                         map[10 := Dialog(6, true, 0, [], [], 0, 0, false), 11 := Dialog(7, true, 0, [20], [], 0, 0, false)],
                         map[20 := Transaction("INFO", NIST_TRYING, 0, 0, None, Some(JInfo(1, Some(10))))], 8)

  /** The store is that call, those dialogs and that request. */
  ghost predicate Crossed(s: Store) {
    && s.calls == [1] && s.garbage == [] && s.callAt.Keys == {1} && s.dialogAt.Keys == {10, 11} && 20 in s.trAt
    && CallOf(s, 1) == Call(5, None, None, [10, 11])
    && DialogOf(s, 10) == Dialog(6, true, 0, [], [], 0, 0, false) && DialogOf(s, 11) == Dialog(7, true, 0, [20], [], 0, 0, false)
    && Names(s, 20) == Some(10)
  }

  lemma CrossedIs()
    ensures Crossed(CROSSED)
  {
  }

  lemma CrossedHeld(s: Store)
    requires Crossed(s)
    ensures Held(s) == multiset{20}
  {
    assert [10, 11][1..] == [11] && [11][1..] == [] && [1][1..] == [];
    assert DialogsHeld(s, [11]) == Own(s, 11) + DialogsHeld(s, []);
    assert DialogsHeld(s, [10, 11]) == Own(s, 10) + DialogsHeld(s, [11]);
    assert CallsHeld(s, [1]) == CallHeld(s, 1) + CallsHeld(s, []);
  }

  lemma CrossedOwned(s: Store)
    requires Crossed(s)
    ensures Linked(s) && Owned(s)
  {
    hide Held;
    CrossedHeld(s);
  }

  lemma CrossedNames(s: Store)
    requires Crossed(s)
    ensures WeakNames(s, 1) && !NamedByItselfOnly(s, 1, 10)
  {
    assert Listed(s, 11, 20);
  }

  /**
   There, removing the first dialog leaves a name that no dialog of the call has. The store breaks
   NamesOk, which every run keeps: it shows what the weaker condition would not be enough for, and no
   run reaches it.
   */
  lemma NameLeftBehind()
    ensures WeakNames(CROSSED, 1) && !WeakNames(DialogRemoved(CROSSED, 1, 10), 1)
  {
    hide DialogRemoved, WeakNames, Linked, Owned, NamedByItselfOnly, Names;
    CrossedIs();
    CrossedOwned(CROSSED);
    CrossedNames(CROSSED);
    WeakNamesExactly(CROSSED, 1, 10);
  }

  lemma CrossedUnreached()
    ensures !Inv(CROSSED)
  {
    hide Linked, Owned;
    CrossedIs();
    assert 1 in CROSSED.calls && Listed(CROSSED, 11, 20);
    assert !NamesOk(CROSSED, 1);
  }

  // ----- CANCEL -----

  lemma {:induction false} ScannedOnly(s: Store, ds: seq<Ptr>, u: Ptr, tr: Option<Ptr>)
    requires forall e | e in ds :: u !in DialogOf(s, e).incTrs
    ensures LastScanned(s, ds, {u}, tr) == Some(u) <==> tr == Some(u) && forall e | e in ds :: DialogOf(s, e).incTrs == []
    decreases |ds|
  {
    if ds != [] {
      var l := DialogOf(s, ds[0]).incTrs;
      ScannedOnly(s, ds[1..], u, if l == [] then tr else FirstIn(l, {u}));
    }
  }

  lemma {:induction false} ScannedExactly(s: Store, ds: seq<Ptr>, i: nat, u: Ptr, tr: Option<Ptr>)
    requires i < |ds| && u in DialogOf(s, ds[i]).incTrs && forall j | 0 <= j < |ds| && j != i :: u !in DialogOf(s, ds[j]).incTrs
    ensures LastScanned(s, ds, {u}, tr) == Some(u) <==> forall j | i < j < |ds| :: DialogOf(s, ds[j]).incTrs == []
    decreases |ds|
  {
    var l := DialogOf(s, ds[0]).incTrs;
    var next := if l == [] then tr else FirstIn(l, {u});
    if i == 0 {
      forall e | e in ds[1..] ensures u !in DialogOf(s, e).incTrs {
        var j :| 0 <= j < |ds[1..]| && ds[1..][j] == e;
        assert ds[j + 1] == e;
      }
      ScannedOnly(s, ds[1..], u, next);
      assert (forall e | e in ds[1..] :: DialogOf(s, e).incTrs == []) <==> forall j | 0 < j < |ds| :: DialogOf(s, ds[j]).incTrs == [] by {
        forall j | 0 < j < |ds| ensures ds[j] in ds[1..] { assert ds[1..][j - 1] == ds[j]; }
      }
    } else {
      ScannedExactly(s, ds[1..], i - 1, u, next);
      assert (forall j | i - 1 < j < |ds[1..]| :: DialogOf(s, ds[1..][j]).incTrs == [])
        <==> forall j | i < j < |ds| :: DialogOf(s, ds[j]).incTrs == [] by {
        forall j | i < j < |ds| ensures ds[1..][j - 1] == ds[j] {}
      }
    }
  }

  /** Call c receives INVITE u neither as its own nor in a dialog. */
  ghost predicate Foreign(s: Store, c: Ptr, u: Ptr) {
    && CallOf(s, c).incTr != Some(u)
    && forall e | e in CallOf(s, c).dialogs :: u !in DialogOf(s, e).incTrs
  }

  lemma {:induction false} CancelMisses(s: Store, cs: seq<Ptr>, u: Ptr, tr: Option<Ptr>)
    requires forall c | c in cs :: Foreign(s, c, u)
    ensures CancelTarget(s, cs, {u}, tr).d == None
    ensures CancelTarget(s, cs, {u}, tr).tr == Some(u) <==> cs == [] && tr == Some(u)
    decreases |cs|
  {
    if cs != [] {
      assert Foreign(s, cs[0], u);
      ScannedOnly(s, CallOf(s, cs[0]).dialogs, u, None);
      CancelMisses(s, cs[1..], u, LastScanned(s, CallOf(s, cs[0]).dialogs, {u}, None));
    }
  }

  lemma {:induction false} CancelAmong(s: Store, cs: seq<Ptr>, k: nat, i: nat, u: Ptr, tr: Option<Ptr>)
    requires k < |cs| && i < |CallOf(s, cs[k]).dialogs|
    requires var ds := CallOf(s, cs[k]).dialogs;
      && CallOf(s, cs[k]).incTr != Some(u) && u in DialogOf(s, ds[i]).incTrs
      && forall j | 0 <= j < |ds| && j != i :: u !in DialogOf(s, ds[j]).incTrs
    requires forall j | 0 <= j < |cs| && j != k :: Foreign(s, cs[j], u)
    ensures var target := CancelTarget(s, cs, {u}, tr); var ds := CallOf(s, cs[k]).dialogs;
      && target.d == None
      && (target.tr == Some(u) <==> k == |cs| - 1 && forall j | i < j < |ds| :: DialogOf(s, ds[j]).incTrs == [])
    decreases |cs|
  {
    var ds := CallOf(s, cs[0]).dialogs;
    var next := LastScanned(s, ds, {u}, None);
    if k == 0 {
      ScannedExactly(s, ds, i, u, None);
      forall c | c in cs[1..] ensures Foreign(s, c, u) {
        var j :| 0 <= j < |cs[1..]| && cs[1..][j] == c;
        assert cs[j + 1] == c;
      }
      CancelMisses(s, cs[1..], u, next);
    } else {
      assert Foreign(s, cs[0], u);
      forall j | 0 <= j < |cs[1..]| && j != k - 1 ensures Foreign(s, cs[1..][j], u) {
        assert cs[1..][j] == cs[j + 1];
      }
      CancelAmong(s, cs[1..], k - 1, i, u, next);
    }
  }

  /**
   The search for a re-INVITE u, received in dialog number i of call number k: the CANCEL is never
   listed in u's dialog, and u is found exactly if its call is the last one and no later dialog of
   the call has an incoming transaction. (The inner loop does not stop at a match, and the outer
   one takes `jd` being NULL for "not found".)
   */
  lemma CancelledReinvite(s: Store, k: nat, i: nat, u: Ptr)
    requires Linked(s) && Owned(s) && k < |s.calls| && i < |CallOf(s, s.calls[k]).dialogs|
    requires u in DialogOf(s, CallOf(s, s.calls[k]).dialogs[i]).incTrs
    ensures var target := CancelTarget(s, s.calls, {u}, None); var ds := CallOf(s, s.calls[k]).dialogs;
      && target.d == None
      && (target.tr == Some(u) <==> k == |s.calls| - 1 && forall j | i < j < |ds| :: DialogOf(s, ds[j]).incTrs == [])
  {
    hide CallHeld, Owned, Own, CancelTarget;
    var c := s.calls[k];
    var ds := CallOf(s, c).dialogs;
    ListedHeld(s, c, ds[i], u);
    HeldByOne(s, c, u);
    forall j | 0 <= j < |s.calls| && j != k ensures Foreign(s, s.calls[j], u) {
      HeldAnywhere(s, s.calls[j], u);
    }
    forall j | 0 <= j < |ds| && j != i ensures u !in DialogOf(s, ds[j]).incTrs {
      if Listed(s, ds[j], u) {
        ListedOnce(s, c, ds[i], ds[j], u);
        ListedOwn(s, ds[i], u);
        assert false;
      }
    }
    assert !InSlot(s, c, u) by { SlotApart(s, c, ds[i], u); }
    CancelAmong(s, s.calls, k, i, u, None);
  }

  /** A re-INVITE in a call that is not the last one, and its CANCEL: nothing is found to cancel. */
  lemma ReinviteMissed(s: Store)
    requires s.calls == [1, 2] && CallOf(s, 1) == Call(5, Some(30), None, [10]) && CallOf(s, 2) == Call(6, None, Some(40), [])
    requires DialogOf(s, 10).incTrs == [20]
    ensures CancelTarget(s, s.calls, {20}, None) == Target(None, None)
  {
    assert [1, 2][1..] == [2] && [2][1..] == [];
    assert CancelTarget(s, [1, 2], {20}, None) == CancelTarget(s, [2], {20}, LastScanned(s, [10], {20}, None));
    assert CancelTarget(s, [2], {20}, LastScanned(s, [10], {20}, None)) == CancelTarget(s, [], {20}, LastScanned(s, [], {20}, None));
  }

  lemma SlotApart(s: Store, c: Ptr, d: Ptr, t: Ptr)
    requires Owned(s) && c in s.calls && d in CallOf(s, c).dialogs && Listed(s, d, t)
    ensures !InSlot(s, c, t)
  {
    hide Own;
    CallHeldAmong(s, s.calls, c);
    assert Held(s)[t] <= 1;
    ListedByDialogs(s, CallOf(s, c).dialogs, d, t);
  }

  lemma HeldAnywhere(s: Store, c: Ptr, u: Ptr)
    requires u !in CallHeld(s, c)
    ensures Foreign(s, c, u)
  {
    hide CallHeld;
    if CallOf(s, c).incTr == Some(u) {
      InSlotHeld(s, c, u);
    }
    forall e | e in CallOf(s, c).dialogs ensures u !in DialogOf(s, e).incTrs {
      if u in DialogOf(s, e).incTrs {
        ListedHeld(s, c, e, u);
      }
    }
  }

  /** A first INVITE is always found, and its CANCEL listed in the first dialog of its call. */
  lemma {:induction false} CancelledInvite(s: Store, cs: seq<Ptr>, k: nat, ts: set<Ptr>, tr: Option<Ptr>)
    requires k < |cs| && CallOf(s, cs[k]).incTr.Some? && CallOf(s, cs[k]).incTr.value in ts
    requires forall j | 0 <= j < k :: CallOf(s, cs[j]).incTr.Some? ==> CallOf(s, cs[j]).incTr.value !in ts
    ensures CancelTarget(s, cs, ts, tr) == Target(CallOf(s, cs[k]).incTr, First(CallOf(s, cs[k]).dialogs))
    decreases |cs|
  {
    if k > 0 {
      assert !(CallOf(s, cs[0]).incTr.Some? && CallOf(s, cs[0]).incTr.value in ts);
      forall j | 0 <= j < k - 1 ensures CallOf(s, cs[1..][j]).incTr.Some? ==> CallOf(s, cs[1..][j]).incTr.value !in ts {
        assert cs[1..][j] == cs[j + 1];
      }
      CancelledInvite(s, cs[1..], k - 1, ts, LastScanned(s, CallOf(s, cs[0]).dialogs, ts, None));
    }
  }
}
