/**
 The names that transactions in the garbage list keep. A transaction filed there may go on reporting
 to its dialog, and freeing the dialog later does not look into the list: these lemmas say exactly
 when an operation leaves one that reports to a dialog that is gone.
 */
module CallGarbage {
  import opened Numerals
  import opened CallStore
  import opened CallOps
  import opened CallInvariants
  import opened CallRelease
  import opened CallHandlers
  import opened CallGrowth

  /** No transaction in the garbage list names a dialog that has been freed. */
  ghost predicate Clean(s: Store) {
    forall t | t in s.garbage && Names(s, t).Some? :: Names(s, t).value in s.dialogAt
  }

  /** Some transaction in the garbage list names dialog d. */
  ghost predicate NamedInGarbage(s: Store, d: Ptr) {
    exists t | t in s.garbage :: Names(s, t) == Some(d)
  }

  /** Some dialogs are freed; the transactions ts lose what they name and are filed, all others keep it. */
  ghost predicate Dropped(s: Store, r: Store, ts: multiset<Ptr>, ds: set<Ptr>) {
    && r.dialogAt.Keys == s.dialogAt.Keys - ds
    && multiset(r.garbage) == multiset(s.garbage) + ts
    && (forall t | t in ts :: Names(r, t) == None)
    && (forall t | t !in ts :: Names(r, t) == Names(s, t))
  }

  lemma InGarbage(s: Store, r: Store, ts: multiset<Ptr>, t: Ptr)
    requires multiset(r.garbage) == multiset(s.garbage) + ts
    ensures t in r.garbage <==> t in s.garbage || t in ts
  {
    assert t in r.garbage <==> t in multiset(r.garbage);
    assert t in s.garbage <==> t in multiset(s.garbage);
  }

  lemma DroppedClean(s: Store, r: Store, ts: multiset<Ptr>, ds: set<Ptr>)
    requires Clean(s) && Dropped(s, r, ts, ds) && forall t | t in s.garbage :: t !in ts
    ensures Clean(r) <==> forall d | d in ds :: !NamedInGarbage(s, d) || d !in s.dialogAt
  {
    hide Names;
    forall t ensures t in r.garbage <==> t in s.garbage || t in ts {
      InGarbage(s, r, ts, t);
    }
    if d :| d in ds && d in s.dialogAt && NamedInGarbage(s, d) {
      var t :| t in s.garbage && Names(s, t) == Some(d);
      assert t in r.garbage && Names(r, t) == Some(d);
    } else {
      forall t | t in r.garbage && Names(r, t).Some? ensures Names(r, t).value in r.dialogAt {
        assert t in s.garbage && Names(s, t) == Names(r, t);
        assert NamedInGarbage(s, Names(s, t).value);
      }
    }
  }

  // ----- one dialog -----

  lemma HeldNotGarbage(s: Store, c: Ptr)
    requires Inv(s) && c in s.calls
    ensures forall t | t in CallHeld(s, c) :: t !in s.garbage && t in s.trAt
    ensures forall d, t | d in CallOf(s, c).dialogs && t in Own(s, d) :: t !in s.garbage && t in s.trAt
    ensures forall t | InSlot(s, c, t) :: t !in s.garbage && t in s.trAt
  {
    hide CallHeld, Own, CallsOk, Linked, Owned;
    forall t | t in CallHeld(s, c) ensures t !in s.garbage && t in s.trAt {
      HeldTwice(s, c, t);
    }
    forall d, t | d in CallOf(s, c).dialogs && t in Own(s, d) ensures t in CallHeld(s, c) {
      ListedOwn(s, d, t);
      ListedHeld(s, c, d, t);
    }
    forall t | InSlot(s, c, t) ensures t in CallHeld(s, c) {
      InSlotHeld(s, c, t);
    }
  }

  lemma FreedNames(s: Store, d: Ptr, t: Ptr)
    ensures Names(DialogFreed(s, d), t) == if t in Own(s, d) then None else Names(s, t)
  {
    hide Own, DrainedInto;
  }

  lemma RefsNames(s: Store, c: Ptr, d: Ptr, t: Ptr)
    ensures Names(RefsDropped(s, c, d), t) == if InSlot(s, c, t) && Names(s, t) == Some(d) then None else Names(s, t)
  {
  }

  lemma UpdatedNames(s: Store, t: Ptr)
    ensures var r := Updated(s); Names(r, t) == Names(s, t) && r.garbage == s.garbage && r.dialogAt.Keys == s.dialogAt.Keys
  {
    hide Updated;
  }

  /** First the call's references are dropped, then the dialog goes. */
  lemma RemovedDropped(s: Store, c: Ptr, d: Ptr)
    requires Inv(s) && c in s.calls && d in CallOf(s, c).dialogs
    ensures Dropped(RefsDropped(s, c, d), DialogRemoved(s, c, d), Own(s, d), {d})
  {
    hide Inv, Own, Updated, RefsDropped, DialogFreed, Unlinked, Names, TrsWeaker, CallHeld, Dropped;
    HeldNotGarbage(s, c);
    var s0 := RefsDropped(s, c, d);
    RefsDroppedFacts(s, c, d);
    InvApart(s, c);
    assert Apart(s0, c);
    OwnOf(s, s0, d);
    TurnDropped(s0, c, d);
  }

  /** The garbage list does not notice that references are dropped. */
  lemma RefsGarbage(s: Store, c: Ptr, d: Ptr)
    requires Inv(s) && c in s.calls
    ensures var s0 := RefsDropped(s, c, d);
      && s0.garbage == s.garbage && s0.dialogAt == s.dialogAt && (forall t | t in s.garbage :: Names(s0, t) == Names(s, t))
      && Clean(s0) == Clean(s) && (forall e :: NamedInGarbage(s0, e) == NamedInGarbage(s, e))
  {
    hide Inv, RefsDropped, Names, CallHeld, Own, InSlot;
    HeldNotGarbage(s, c);
    RefsDroppedFacts(s, c, d);
    forall t | t in s.garbage ensures Names(RefsDropped(s, c, d), t) == Names(s, t) {
      RefsNames(s, c, d, t);
    }
  }

  lemma UnlinkedOnly(s: Store, c: Ptr, d: Ptr)
    ensures DialogOf(Unlinked(s, c, d), d) == DialogOf(s, d)
  {
  }

  lemma UnlinkedNames(s: Store, c: Ptr, d: Ptr, t: Ptr)
    ensures Names(Unlinked(s, c, d), t) == Names(s, t)
  {
  }

  /** Removing dialog d leaves a dangling name in the garbage list exactly if one was filed there naming d. */
  lemma RemovedClean(s: Store, c: Ptr, d: Ptr)
    requires Inv(s) && Clean(s) && c in s.calls && d in CallOf(s, c).dialogs
    ensures Clean(DialogRemoved(s, c, d)) <==> !NamedInGarbage(s, d)
  {
    hide Inv, Own, DialogRemoved, RefsDropped, Clean, Dropped, CallHeld, NamedInGarbage;
    HeldNotGarbage(s, c);
    RemovedDropped(s, c, d);
    RefsGarbage(s, c, d);
    assert d in s.dialogAt by { InvShape(s, c); }
    DroppedClean(RefsDropped(s, c, d), DialogRemoved(s, c, d), Own(s, d), {d});
  }

  // ----- a whole call -----

  lemma DroppedJoin(s: Store, m: Store, r: Store, ts: multiset<Ptr>, us: multiset<Ptr>, ds: set<Ptr>, es: set<Ptr>)
    requires Dropped(s, m, ts, ds) && Dropped(m, r, us, es)
    ensures Dropped(s, r, ts + us, ds + es)
  {
    hide Names;
    assert s.dialogAt.Keys - ds - es == s.dialogAt.Keys - (ds + es);
  }

  lemma TurnDropped(s: Store, c: Ptr, d: Ptr)
    requires Apart(s, c) && d in CallOf(s, c).dialogs && forall t | t in Own(s, d) :: t in s.trAt
    ensures Dropped(s, Updated(DialogFreed(Unlinked(s, c, d), d)), Own(s, d), {d})
  {
    hide Own, Updated, DialogFreed, Unlinked, Names, TrsWeaker, Remove, SameCall, Apart;
    TurnTaken(s, c, d);
    var u := Unlinked(s, c, d);
    UnlinkedOnly(s, c, d);
    OwnOf(s, u, d);
    var s1 := DialogFreed(u, d);
    forall t ensures Names(Updated(s1), t) == if t in Own(s, d) then None else Names(s, t) {
      UpdatedNames(s1, t);
      FreedNames(u, d, t);
      UnlinkedNames(s, c, d, t);
    }
  }

  /** All transactions of these dialogs are allocated. */
  ghost predicate AllAllocated(s: Store, ds: seq<Ptr>) {
    forall d, t | d in ds && t in Own(s, d) :: t in s.trAt
  }

  lemma FirstAllocated(s: Store, ds: seq<Ptr>)
    requires AllAllocated(s, ds) && ds != []
    ensures forall t | t in Own(s, ds[0]) :: t in s.trAt
  {
  }

  function Members(ds: seq<Ptr>): set<Ptr> {
    set d | d in ds
  }

  lemma MembersNone()
    ensures Members([]) == {}
  {
  }

  lemma MembersSplit(ds: seq<Ptr>)
    requires ds != []
    ensures Members(ds) == {ds[0]} + Members(ds[1..])
  {
    assert ds == [ds[0]] + ds[1..];
  }

  lemma {:induction false} DrainedDropped(s: Store, c: Ptr)
    requires Apart(s, c) && c !in s.calls && AllAllocated(s, CallOf(s, c).dialogs)
    ensures var ds := CallOf(s, c).dialogs;
      Dropped(s, DialogsDrained(s, c), DialogsHeld(s, ds), Members(ds))
    decreases |CallOf(s, c).dialogs|
  {
    hide Own, TrsWeaker, DialogFreed, Unlinked, Updated, Outside, Remove, Turned, Apart, Dropped, Members, AllAllocated;
    var ds := CallOf(s, c).dialogs;
    if ds == [] {
      DroppedNothing(s);
      MembersNone();
    } else {
      var s2 := Updated(DialogFreed(Unlinked(s, c, ds[0]), ds[0]));
      TurnTaken(s, c, ds[0]);
      FirstAllocated(s, ds);
      TurnDropped(s, c, ds[0]);
      TurnApart(s, s2, c, ds[0]);
      TurnShorter(s, s2, c);
      TurnOwn(s, s2, c);
      DrainedDropped(s2, c);
      DroppedJoin(s, s2, DialogsDrained(s2, c), Own(s, ds[0]), DialogsHeld(s, ds[1..]), {ds[0]}, Members(ds[1..]));
      MembersSplit(ds);
    }
  }

  lemma DroppedNothing(s: Store)
    ensures Dropped(s, s, multiset{}, {})
  {
  }

  lemma TurnOwn(s: Store, s2: Store, c: Ptr)
    requires CallOf(s, c).dialogs != [] && NoDup(CallOf(s, c).dialogs) && Turned(s, s2, c, CallOf(s, c).dialogs[0])
    requires AllAllocated(s, CallOf(s, c).dialogs)
    ensures var rest := CallOf(s, c).dialogs[1..]; DialogsHeld(s2, rest) == DialogsHeld(s, rest) && AllAllocated(s2, rest)
  {
    hide Own, SameCall, DialogsHeld;
    var rest := CallOf(s, c).dialogs[1..];
    forall e | e in rest ensures Own(s2, e) == Own(s, e) {
      assert SameDialog(s, s2, e);
      SameDialogOwn(s, s2, e);
    }
    DialogsHeldSame(s, s2, rest);
  }

  lemma SlotsDropped(s: Store, c: Ptr)
    ensures var call := CallOf(s, c);
      Dropped(s, SlotsFiled(s, c), Slot(call.incTr) + Slot(call.outTr), {})
  {
    hide Slot, Fronted;
  }

  lemma ReleasedDropped(s: Store, c: Ptr)
    requires Inv(s) && c in s.calls
    ensures Dropped(s, CallReleased(s, c), CallHeld(s, c), Members(CallOf(s, c).dialogs))
  {
    hide Inv, Own, SlotsFiled, DialogsDrained, Dropped, Remove, NoDup, TrsWeaker, Slot, SameCall, DialogsHeld, Members;
    var s0 := s.(calls := Remove(s.calls, c));
    var ds := CallOf(s, c).dialogs;
    InvApart(s, c);
    HeldNotGarbage(s, c);
    assert NoDup(s.calls) by { InvNoDup(s); }
    RemoveNoDup(s.calls, c);
    RemoveContents(s.calls, c);
    forall d ensures Own(s0, d) == Own(s, d) { OwnOf(s, s0, d); }
    DialogsHeldSame(s, s0, ds);
    assert Apart(s0, c);
    DrainedDropped(s0, c);
    DialogsDrainedAll(s0, c);
    var s1 := DialogsDrained(s0, c);
    SlotsDropped(s1, c);
    DroppedJoin(s0, s1, SlotsFiled(s1, c), DialogsHeld(s, ds), Slot(CallOf(s, c).incTr) + Slot(CallOf(s, c).outTr), Members(ds), {});
    assert CallHeld(s, c) == DialogsHeld(s, ds) + (Slot(CallOf(s, c).incTr) + Slot(CallOf(s, c).outTr));
    assert Members(ds) + {} == Members(ds);
    UnlinkedDropped(s, s0, SlotsFiled(s1, c), CallHeld(s, c), Members(ds));
  }

  lemma UnlinkedDropped(s: Store, s0: Store, r: Store, ts: multiset<Ptr>, ds: set<Ptr>)
    requires s0 == s.(calls := s0.calls)
    ensures Dropped(s0, r, ts, ds) == Dropped(s, r, ts, ds)
  {
    assert forall t :: Names(s0, t) == Names(s, t);
  }

  /** Releasing a call leaves a dangling name exactly if one was filed that names one of its dialogs. */
  lemma ReleasedClean(s: Store, c: Ptr)
    requires Inv(s) && Clean(s) && c in s.calls
    ensures Clean(CallReleased(s, c)) <==> forall d | d in CallOf(s, c).dialogs :: !NamedInGarbage(s, d)
  {
    hide Inv, CallReleased, Clean, Dropped, CallHeld, NamedInGarbage, Own;
    HeldNotGarbage(s, c);
    ReleasedDropped(s, c);
    InvShape(s, c);
    DroppedClean(s, CallReleased(s, c), CallHeld(s, c), Members(CallOf(s, c).dialogs));
  }

  // ----- the retry -----

  /**
   A retry in the place of the call's own request frees the dialog without looking at what the old
   request names: if it gets that far, it leaves a dangling name exactly if the old request, or one in
   the garbage list before, names the dialog.
   */
  lemma RetriedClean(s: Store, c: Ptr, d: Ptr, former: Ptr, t: Ptr, now: int)
    requires Inv(s) && Clean(s) && t !in s.trAt && c in s.calls && d in CallOf(s, c).dialogs && CallOf(s, c).outTr == Some(former)
    ensures Clean(Retried(s, c, Some(d), former, t, now)) <==>
      TrOf(s, former).response.None? || (Names(s, former) != Some(d) && !NamedInGarbage(s, d))
  {
    hide Inv, Clean, Dropped, Updated, DialogFreed, Unlinked, NamedInGarbage, CallHeld, Own, Names;
    var s2 := Swapped(s, c, former, t, Again(s, c, former, now));
    SwapFacts(s, c, d, former, t, now);
    var s3 := Updated(DialogFreed(Unlinked(s2, c, d), d));
    TurnDropped(s2, c, d);
    DroppedClean(s2, s3, Own(s2, d), {d});
    UpdatedClean(s3);
    assert TrOf(s, former).response.Some? ==> Retried(s, c, Some(d), former, t, now) == Updated(s3);
  }

  /** The transaction a retry makes. */
  function Again(s: Store, c: Ptr, former: Ptr, now: int): Transaction {
    var m := TrOf(s, former).cseqMethod;
    Born(m, if EqualFold(m, "INVITE") then ICT_PRE_CALLING else NICT_PRE_TRYING, now, Some(JInfo(c, None)))
  }

  lemma SwapFacts(s: Store, c: Ptr, d: Ptr, former: Ptr, t: Ptr, now: int)
    requires Inv(s) && t !in s.trAt && c in s.calls && d in CallOf(s, c).dialogs && CallOf(s, c).outTr == Some(former)
    ensures var r := Swapped(s, c, former, t, Again(s, c, former, now));
      && Apart(r, c) && d in CallOf(r, c).dialogs && Own(r, d) == Own(s, d) && d in r.dialogAt
      && (forall x | x in Own(r, d) :: x in r.trAt && x !in r.garbage)
      && (Clean(s) ==> Clean(r)) && (NamedInGarbage(r, d) <==> Names(s, former) == Some(d) || NamedInGarbage(s, d))
      && r.garbage == [former] + s.garbage && Names(r, former) == Names(s, former)
  {
    hide Inv, Clean, NamedInGarbage, CallHeld, Own, Names, EqualFold;
    var r := Swapped(s, c, former, t, Again(s, c, former, now));
    HeldNotGarbage(s, c);
    InvShape(s, c);
    InvApart(s, c);
    SlotNotOwn(s, c, d, former);
    OwnOf(s, r, d);
    forall x: Ptr | x != t ensures Names(r, x) == Names(s, x) {
      SwapNames(s, r, t, x);
    }
    assert t !in s.garbage by { GarbageAllocated(s, t); }
    FormerNamed(s, c, former);
    if Clean(s) {
      SwappedClean(s, r, former, t);
    }
    SwappedNamed(s, r, former, t, d);
  }

  lemma GarbageAllocated(s: Store, t: Ptr)
    requires Inv(s) && t !in s.trAt
    ensures t !in s.garbage
  {
    hide CallsHeld, CallsOk;
    assert t in s.garbage ==> multiset(s.garbage)[t] > 0;
    assert t in s.garbage ==> t in Held(s);
  }

  /** What a call's own request names is one of its dialogs. */
  lemma FormerNamed(s: Store, c: Ptr, former: Ptr)
    requires Inv(s) && c in s.calls && InSlot(s, c, former)
    ensures Names(s, former).Some? ==> Names(s, former).value in s.dialogAt
  {
    hide Names, CallSorted, Owned;
    InvShape(s, c);
    assert CallOk(s, c);
  }

  lemma UpdatedClean(s: Store)
    ensures Clean(Updated(s)) == Clean(s)
  {
    hide Updated, Names;
    var r := Updated(s);
    forall t ensures Names(r, t) == Names(s, t) { UpdatedNames(s, t); }
    UpdatedNames(s, 0);
  }

  /** The old request is filed with what it names, which is a dialog of the call. */
  lemma SwappedClean(s: Store, r: Store, former: Ptr, t: Ptr)
    requires Clean(s) && r.garbage == [former] + s.garbage && r.dialogAt == s.dialogAt
    requires t != former && t !in s.garbage && (forall x: Ptr | x != t :: Names(r, x) == Names(s, x))
    requires Names(s, former).Some? ==> Names(s, former).value in s.dialogAt
    ensures Clean(r)
  {
    hide Names;
  }

  lemma SwappedNamed(s: Store, r: Store, former: Ptr, t: Ptr, d: Ptr)
    requires r.garbage == [former] + s.garbage
    requires t != former && t !in s.garbage && (forall x: Ptr | x != t :: Names(r, x) == Names(s, x))
    ensures NamedInGarbage(r, d) <==> Names(s, former) == Some(d) || NamedInGarbage(s, d)
  {
    hide Names;
    if Names(s, former) == Some(d) {
      assert former in r.garbage && Names(r, former) == Some(d);
    } else if NamedInGarbage(s, d) {
      var x :| x in s.garbage && Names(s, x) == Some(d);
      assert x in r.garbage && Names(r, x) == Some(d);
    }
  }

  /** So every retry of a call's own request that reports to the dialog leaves it naming the freed dialog. */
  lemma RetryLeavesName(s: Store, c: Ptr, d: Ptr, former: Ptr, t: Ptr, now: int)
    requires Inv(s) && t !in s.trAt && c in s.calls && d in CallOf(s, c).dialogs
    requires CallOf(s, c).outTr == Some(former) && TrOf(s, former).response.Some? && Names(s, former) == Some(d)
    ensures var r := Retried(s, c, Some(d), former, t, now);
      former in r.garbage && Names(r, former) == Some(d) && d !in r.dialogAt && !Clean(r)
  {
    hide Inv, Updated, DialogFreed, Unlinked, CallHeld, Own, Names, Dropped, NamedInGarbage;
    var s2 := Swapped(s, c, former, t, Again(s, c, former, now));
    SwapFacts(s, c, d, former, t, now);
    TurnDropped(s2, c, d);
    var s3 := Updated(DialogFreed(Unlinked(s2, c, d), d));
    DroppedName(s2, s3, Own(s2, d), d, former);
    UpdatedNames(s3, former);
    assert Retried(s, c, Some(d), former, t, now) == Updated(s3);
  }

  lemma SwapNames(s: Store, r: Store, t: Ptr, x: Ptr)
    requires r.trAt.Keys == s.trAt.Keys + {t} && x != t && (x in s.trAt ==> r.trAt[x] == s.trAt[x])
    ensures Names(r, x) == Names(s, x)
  {
  }

  lemma DroppedName(s: Store, r: Store, ts: multiset<Ptr>, d: Ptr, x: Ptr)
    requires Dropped(s, r, ts, {d}) && x in s.garbage && x !in ts && Names(s, x) == Some(d)
    ensures x in r.garbage && Names(r, x) == Some(d) && d !in r.dialogAt
  {
    InGarbage(s, r, ts, x);
  }

  lemma SlotNotOwn(s: Store, c: Ptr, d: Ptr, t: Ptr)
    requires Inv(s) && c in s.calls && d in CallOf(s, c).dialogs && InSlot(s, c, t)
    ensures t !in Own(s, d)
  {
    SlotOnly(s, c, t);
    ListedOwn(s, d, t);
  }

  // ----- the order of the garbage list -----

  /** The list from back to front. */
  function BackToFront(l: seq<Ptr>): (r: seq<Ptr>)
    ensures |r| == |l| && forall i | 0 <= i < |l| :: r[i] == l[|l| - 1 - i]
  {
    seq(|l|, i requires 0 <= i < |l| => l[|l| - 1 - i])
  }

  lemma BackToFrontNext(l: seq<Ptr>)
    requires l != []
    ensures BackToFront(l) == BackToFront(l[1..]) + [l[0]]
  {
  }

  lemma {:induction false} DrainedOrder(l: seq<Ptr>, garbage: seq<Ptr>)
    ensures DrainedInto(l, garbage) == BackToFront(l) + garbage
    decreases |l|
  {
    if l == [] {
      assert BackToFront(l) + garbage == garbage;
    } else {
      hide BackToFront;
      DrainedOrder(l[1..], [l[0]] + garbage);
      BackToFrontNext(l);
      Regrouped(BackToFront(l[1..]), [l[0]], garbage);
    }
  }

  lemma Regrouped(a: seq<Ptr>, b: seq<Ptr>, c: seq<Ptr>)
    ensures a + (b + c) == a + b + c
  {
  }

  /** What a dialog leaves: its oldest outgoing transaction comes first, its newest incoming one last. */
  function LeftBy(dialog: Dialog): seq<Ptr> {
    BackToFront(dialog.outTrs) + BackToFront(dialog.incTrs)
  }

  /** Freeing a dialog puts its transactions in front of the garbage list, in this order. */
  lemma FreedOrder(s: Store, d: Ptr)
    ensures DialogFreed(s, d).garbage == LeftBy(DialogOf(s, d)) + s.garbage
  {
    hide DrainedInto, BackToFront, InfoDeleted, Own;
    var x := DialogOf(s, d);
    DrainedOrder(x.incTrs, s.garbage);
    DrainedOrder(x.outTrs, DrainedInto(x.incTrs, s.garbage));
    Regrouped(BackToFront(x.outTrs), BackToFront(x.incTrs), s.garbage);
  }

  /** What the dialogs of a call leave: those of the last dialog come first. */
  function LeftByAll(s: Store, ds: seq<Ptr>): seq<Ptr> {
    if ds == [] then [] else LeftByAll(s, ds[1..]) + LeftBy(DialogOf(s, ds[0]))
  }

  lemma {:induction false} LeftBySame(s: Store, r: Store, ds: seq<Ptr>)
    requires forall d | d in ds :: SameDialog(s, r, d)
    ensures LeftByAll(r, ds) == LeftByAll(s, ds)
  {
    if ds != [] {
      assert SameDialog(s, r, ds[0]);
      LeftBySame(s, r, ds[1..]);
    }
  }

  lemma {:induction false} DrainedCallOrder(s: Store, c: Ptr)
    requires Apart(s, c) && c !in s.calls
    ensures DialogsDrained(s, c).garbage == LeftByAll(s, CallOf(s, c).dialogs) + s.garbage
    decreases |CallOf(s, c).dialogs|
  {
    hide Own, TrsWeaker, DialogFreed, Unlinked, Updated, Outside, Remove, Turned, Apart, LeftBy;
    var ds := CallOf(s, c).dialogs;
    if ds == [] {
      assert LeftByAll(s, ds) + s.garbage == s.garbage;
    } else {
      var u := Unlinked(s, c, ds[0]);
      var s2 := Updated(DialogFreed(u, ds[0]));
      TurnTaken(s, c, ds[0]);
      TurnApart(s, s2, c, ds[0]);
      TurnShorter(s, s2, c);
      UnlinkedOnly(s, c, ds[0]);
      FreedOrder(u, ds[0]);
      DrainedCallOrder(s2, c);
      TurnedSame(s, s2, c, ds);
      LeftBySame(s, s2, ds[1..]);
      assert s2.garbage == LeftBy(DialogOf(s, ds[0])) + s.garbage by { UnlinkedGarbage(s, c, ds[0]); UpdatedGarbage(DialogFreed(u, ds[0])); }
      Regrouped(LeftByAll(s, ds[1..]), LeftBy(DialogOf(s, ds[0])), s.garbage);
    }
  }

  lemma TurnedSame(s: Store, s2: Store, c: Ptr, ds: seq<Ptr>)
    requires ds != [] && NoDup(ds) && Turned(s, s2, c, ds[0])
    ensures forall d | d in ds[1..] :: SameDialog(s, s2, d)
  {
    hide Own, SameDialog;
    assert ds == [ds[0]] + ds[1..];
  }

  lemma UnlinkedGarbage(s: Store, c: Ptr, d: Ptr)
    ensures Unlinked(s, c, d).garbage == s.garbage
  {
    hide Remove;
  }

  lemma UpdatedGarbage(s: Store)
    ensures Updated(s).garbage == s.garbage
  {
    hide Updated;
  }

  /** Releasing a call puts its outgoing request in front, then its incoming one, then what its dialogs leave. */
  lemma ReleasedOrder(s: Store, c: Ptr)
    requires Inv(s) && c in s.calls
    ensures var call := CallOf(s, c);
      CallReleased(s, c).garbage == Fronted(call.outTr, Fronted(call.incTr, LeftByAll(s, call.dialogs) + s.garbage))
  {
    hide Inv, DialogsDrained, Remove, LeftBy, Fronted, Outside, Apart;
    var s0 := s.(calls := Remove(s.calls, c));
    InvApart(s, c);
    assert NoDup(s.calls) by { InvNoDup(s); }
    RemoveNoDup(s.calls, c);
    RemovedApart(s, s0, c);
    DialogsDrainedAll(s0, c);
    DrainedCallOrder(s0, c);
    assert forall d :: SameDialog(s, s0, d);
    LeftBySame(s, s0, CallOf(s, c).dialogs);
  }

  lemma RemovedApart(s: Store, s0: Store, c: Ptr)
    requires Apart(s, c) && s0 == s.(calls := Remove(s.calls, c))
    ensures Apart(s0, c)
  {
    RemoveContents(s.calls, c);
  }
}
