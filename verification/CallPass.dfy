/**
 What the release pass leaves of a call: a dialog in which something is pending, and an answered call,
 stay linked through the visits to every other dialog and call; the first with one exception.
 */
module CallPass {
  import opened Numerals
  import opened CallStore
  import opened CallOps
  import opened CallInvariants
  import opened CallRelease
  import opened CallGrowth
  import opened CallLookups
  import opened CallTimes
  import opened CallProtocol

  // ----- stores that look the same to a dialog -----

  /** Transactions differ in their jinfo at most. */
  ghost predicate Calm(s: Store, r: Store) {
    forall t :: TrOf(r, t).(info := None) == TrOf(s, t).(info := None)
  }

  predicate SameSlots(s: Store, r: Store, c: Ptr) {
    CallOf(r, c).incTr == CallOf(s, c).incTr && CallOf(r, c).outTr == CallOf(s, c).outTr
  }

  /** Call c has the same transactions of its own, and its dialog d the same lists. */
  ghost predicate Alike(s: Store, r: Store, c: Ptr, d: Ptr) {
    Calm(s, r) && SameSlots(s, r, c) && SameDialog(s, r, d)
  }

  lemma {:induction false} FirstWithCalm(s: Store, r: Store, l: seq<Ptr>, m: string, exact: bool)
    requires Calm(s, r)
    ensures FirstWith(r, l, m, exact) == FirstWith(s, l, m, exact)
  {
    if l != [] {
      assert HasMethod(r, l[0], m, exact) == HasMethod(s, l[0], m, exact) by {
        assert TrOf(r, l[0]).(info := None) == TrOf(s, l[0]).(info := None);
      }
      FirstWithCalm(s, r, l[1..], m, exact);
    }
  }

  lemma FindsAlike(s: Store, r: Store, c: Ptr, d: Ptr, m: string)
    requires Alike(s, r, c, d)
    ensures FindLastInc(r, d, m) == FindLastInc(s, d, m) && FindLastOut(r, d, m) == FindLastOut(s, d, m)
    ensures FindLastIncInvite(r, c, Some(d)) == FindLastIncInvite(s, c, Some(d))
    ensures FindLastOutInvite(r, c, Some(d)) == FindLastOutInvite(s, c, Some(d))
  {
    hide FirstWith, Calm;
    var x := DialogOf(s, d);
    assert DialogOf(r, d).incTrs == x.incTrs && DialogOf(r, d).outTrs == x.outTrs;
    FirstWithCalm(s, r, x.incTrs, m, false);
    FirstWithCalm(s, r, x.outTrs, m, false);
    FirstWithCalm(s, r, x.incTrs, "INVITE", true);
    FirstWithCalm(s, r, x.outTrs, "INVITE", true);
  }

  lemma CalmTr(s: Store, r: Store, t: Ptr)
    requires Calm(s, r)
    ensures TrOf(r, t).state == TrOf(s, t).state && TrOf(r, t).response == TrOf(s, t).response && TrOf(r, t).cseqMethod == TrOf(s, t).cseqMethod
    ensures forall seconds, now :: Older(r, t, seconds, now) == Older(s, t, seconds, now)
  {
    assert TrOf(r, t).(info := None) == TrOf(s, t).(info := None);
  }

  lemma CalmJoin(a: Store, b: Store, s: Store)
    requires Calm(a, b) && Calm(b, s)
    ensures Calm(a, s)
  {
    forall t ensures TrOf(s, t).(info := None) == TrOf(a, t).(info := None) {
      assert TrOf(b, t).(info := None) == TrOf(a, t).(info := None);
    }
  }

  // ----- a dialog's lists give something up -----

  /** Dialog d's lists have lost something to the garbage list; nothing else has changed. */
  ghost predicate Trimmed(s: Store, r: Store, d: Ptr) {
    && r == s.(dialogAt := r.dialogAt, garbage := r.garbage)
    && (forall e | e != d :: DialogOf(r, e) == DialogOf(s, e))
    && DialogOf(r, d).(incTrs := [], outTrs := []) == DialogOf(s, d).(incTrs := [], outTrs := [])
    && (forall t | Listed(r, d, t) :: Listed(s, d, t))
  }

  lemma TrimmedSelf(s: Store, d: Ptr)
    ensures Trimmed(s, s, d)
  {
  }

  lemma TrimmedJoin(a: Store, b: Store, s: Store, d: Ptr)
    requires Trimmed(a, b, d) && Trimmed(b, s, d)
    ensures Trimmed(a, s, d)
  {
    hide Listed;
    forall e | e != d ensures DialogOf(s, e) == DialogOf(a, e) {
      assert DialogOf(b, e) == DialogOf(a, e);
    }
  }

  /** Dialog d without one of its transactions. */
  function DialogWithout(dialog: Dialog, t: Ptr): Dialog {
    if t in dialog.incTrs then dialog.(incTrs := Remove(dialog.incTrs, t))
    else dialog.(outTrs := Remove(dialog.outTrs, t))
  }

  /** A transaction of dialog d is found there, as it is held nowhere else. */
  lemma TakenFromDialog(s: Store, c: Ptr, d: Ptr, t: Ptr)
    requires Inv(s) && c in s.calls && d in CallOf(s, c).dialogs && Listed(s, d, t)
    ensures RemovedFromCall(s, t, c) == SetDialog(s, d, DialogWithout(DialogOf(s, d), t))
  {
    hide Inv, Remove, Own;
    var ds := CallOf(s, c).dialogs;
    assert Linked(s) && Owned(s) by { InvLinkedOwned(s); }
    SlotApart(s, c, d, t);
    var h := if IncHolder(s, ds, t).Some? then IncHolder(s, ds, t) else OutHolder(s, ds, t);
    if h.Some? && h.value != d {
      ListedOnce(s, c, d, h.value, t);
      ListedOwn(s, d, t);
      assert false;
    }
  }

  lemma InvLinkedOwned(s: Store)
    requires Inv(s)
    ensures Linked(s) && Owned(s)
  {
  }

  lemma WithoutTrimmed(s: Store, d: Ptr, t: Ptr)
    ensures Trimmed(s, Filed(SetDialog(s, d, DialogWithout(DialogOf(s, d), t)), t), d)
  {
    hide Remove;
    var x := DialogOf(s, d);
    RemoveContents(x.incTrs, t);
    RemoveContents(x.outTrs, t);
  }

  /** The same check in stores that look the same gives the same answer, and trims the dialog alone. */
  ghost predicate Twin(s: Store, a: Checked, r: Store, b: Checked, c: Ptr, d: Ptr) {
    && a.yes == b.yes && Trimmed(s, a.s, d) && Trimmed(r, b.s, d) && Alike(a.s, b.s, c, d)
    && Inv(a.s) && Inv(b.s) && c in a.s.calls && c in b.s.calls && d in CallOf(a.s, c).dialogs && d in CallOf(b.s, c).dialogs
  }

  /** Where two twins may start. */
  ghost predicate Ready(s: Store, r: Store, c: Ptr, d: Ptr) {
    && Inv(s) && Inv(r) && Alike(s, r, c, d)
    && c in s.calls && c in r.calls && d in CallOf(s, c).dialogs && d in CallOf(r, c).dialogs
  }

  lemma TwinJoin(s: Store, s1: Store, a: Checked, r: Store, r1: Store, b: Checked, c: Ptr, d: Ptr)
    requires Trimmed(s, s1, d) && Trimmed(r, r1, d) && Twin(s1, a, r1, b, c, d)
    ensures Twin(s, a, r, b, c, d)
  {
    hide Trimmed, Inv, Alike;
    TrimmedJoin(s, s1, a.s, d);
    TrimmedJoin(r, r1, b.s, d);
  }

  lemma CheckTwin(s: Store, r: Store, t: Option<Ptr>, done: State, c: Ptr, d: Ptr, now: int, expire: bool)
    requires Ready(s, r, c, d) && (expire && t.Some? ==> Listed(s, d, t.value))
    ensures Twin(s, Check(s, t, done, c, now, expire), r, Check(r, t, done, c, now, expire), c, d)
  {
    hide Inv, Trimmed, RemovedFromCall, Remove, Calm;
    TrimmedSelf(s, d);
    TrimmedSelf(r, d);
    if t.Some? {
      CalmTr(s, r, t.value);
      if expire {
        assert Listed(r, d, t.value);
        TakenTwin(s, c, d, t.value);
        TakenTwin(r, c, d, t.value);
        SetAlike(s, r, c, d, DialogWithout(DialogOf(s, d), t.value), DialogWithout(DialogOf(r, d), t.value), t.value);
      }
    }
  }

  lemma TakenTwin(s: Store, c: Ptr, d: Ptr, t: Ptr)
    requires Inv(s) && c in s.calls && d in CallOf(s, c).dialogs && Listed(s, d, t)
    ensures var r := Filed(RemovedFromCall(s, t, c), t);
      && r == Filed(SetDialog(s, d, DialogWithout(DialogOf(s, d), t)), t)
      && Trimmed(s, r, d) && Inv(r) && c in r.calls && d in CallOf(r, c).dialogs
  {
    hide Inv, Trimmed, Held, RemovedFromCall, DialogWithout, CallHeld;
    ListedHeld(s, c, d, t);
    TakenOut(s, c, t);
    TakenFromDialog(s, c, d, t);
    WithoutTrimmed(s, d, t);
  }

  lemma PendingTwin(s: Store, r: Store, c: Ptr, d: Ptr, now: int)
    requires Ready(s, r, c, d)
    ensures Twin(s, Pending(s, c, d, now), r, Pending(r, c, d, now), c, d)
  {
    hide Inv, Trimmed, Check, FirstWith, Alike;
    FindsAlike(s, r, c, d, "BYE");
    var a1, b1 := CheckStep(s, s, r, r, FindLastInc(s, d, "BYE"), NIST_TERMINATED, c, d, now, true);
    if a1.yes { return; }
    FindsAlike(a1.s, b1.s, c, d, "BYE");
    var a2, b2 := CheckStep(s, a1.s, r, b1.s, FindLastOut(a1.s, d, "BYE"), NICT_TERMINATED, c, d, now, true);
    if a2.yes { return; }
    FindsAlike(a2.s, b2.s, c, d, "BYE");
    var a3, b3 := CheckStep(s, a2.s, r, b2.s, FindLastIncInvite(a2.s, c, Some(d)), IST_TERMINATED, c, d, now, false);
    if a3.yes { return; }
    FindsAlike(a3.s, b3.s, c, d, "BYE");
    var a4, b4 := CheckStep(s, a3.s, r, b3.s, FindLastOutInvite(a3.s, c, Some(d)), ICT_TERMINATED, c, d, now, false);
    if a4.yes { return; }
    FindsAlike(a4.s, b4.s, c, d, "REFER");
    var a5, b5 := CheckStep(s, a4.s, r, b4.s, FindLastInc(a4.s, d, "REFER"), IST_TERMINATED, c, d, now, true);
    if a5.yes { return; }
    FindsAlike(a5.s, b5.s, c, d, "REFER");
    var a6, b6 := CheckStep(s, a5.s, r, b5.s, FindLastOut(a5.s, d, "REFER"), NICT_TERMINATED, c, d, now, true);
  }

  lemma CheckStep(s: Store, s1: Store, r: Store, r1: Store, t: Option<Ptr>, done: State, c: Ptr, d: Ptr, now: int, expire: bool)
    returns (a: Checked, b: Checked)
    requires Ready(s1, r1, c, d) && (s1 == s || Trimmed(s, s1, d)) && (r1 == r || Trimmed(r, r1, d))
    requires expire && t.Some? ==> Listed(s1, d, t.value)
    ensures a == Check(s1, t, done, c, now, expire) && b == Check(r1, t, done, c, now, expire) && Twin(s, a, r, b, c, d)
  {
    hide Inv, Trimmed, Check, Alike;
    a, b := Check(s1, t, done, c, now, expire), Check(r1, t, done, c, now, expire);
    TrimmedSelf(s, d);
    TrimmedSelf(r, d);
    CheckTwin(s1, r1, t, done, c, d, now, expire);
    TwinJoin(s, s1, a, r, r1, b, c, d);
  }

  lemma {:induction false} FirstReleasableCalm(s: Store, r: Store, l: seq<Ptr>, pos: nat, keep: Option<Ptr>, inviteDone: State, otherDone: State, now: int)
    requires Calm(s, r)
    ensures FirstReleasable(r, l, pos, keep, inviteDone, otherDone, now) == FirstReleasable(s, l, pos, keep, inviteDone, otherDone, now)
    decreases |l| - pos
  {
    hide Calm, EqualFold;
    if pos < |l| {
      CalmTr(s, r, l[pos]);
      FirstReleasableCalm(s, r, l, pos + 1, keep, inviteDone, otherDone, now);
    }
  }

  lemma MovedTrimmed(s: Store, c: Ptr, d: Ptr, dialog: Dialog, t: Ptr)
    requires dialog.(incTrs := [], outTrs := []) == DialogOf(s, d).(incTrs := [], outTrs := [])
    requires forall x | x in dialog.incTrs || x in dialog.outTrs :: Listed(s, d, x)
    ensures Trimmed(s, Filed(SetDialog(s, d, dialog), t), d)
  {
  }

  lemma ConservedReady(s: Store, r: Store, c: Ptr, d: Ptr)
    requires Conserves(s, r) && c in s.calls && d in CallOf(s, c).dialogs
    ensures Inv(r) && c in r.calls && d in CallOf(r, c).dialogs
  {
  }

  lemma IncTwin(s: Store, r: Store, c: Ptr, d: Ptr, now: int)
    requires Ready(s, r, c, d)
    ensures Twin(s, IncReleased(s, c, d, now), r, IncReleased(r, c, d, now), c, d)
  {
    hide Inv, Held, FirstReleasable, FirstWith, Calm, Trimmed;
    FindsAlike(s, r, c, d, "BYE");
    IncReleasedKeeps(s, c, d, now);
    IncReleasedKeeps(r, c, d, now);
    ConservedReady(s, IncReleased(s, c, d, now).s, c, d);
    ConservedReady(r, IncReleased(r, c, d, now).s, c, d);
    TrimmedSelf(s, d);
    TrimmedSelf(r, d);
    var l := DialogOf(s, d).incTrs;
    var keep := FindLastIncInvite(s, c, Some(d));
    FirstReleasableCalm(s, r, l, 1, keep, IST_TERMINATED, NIST_TERMINATED, now);
    var k := FirstReleasable(s, l, 1, keep, IST_TERMINATED, NIST_TERMINATED, now);
    if k < |l| {
      MovedTrimmed(s, c, d, DialogOf(s, d).(incTrs := Without(l, k)), l[k]);
      MovedTrimmed(r, c, d, DialogOf(r, d).(incTrs := Without(l, k)), l[k]);
      SetAlike(s, r, c, d, DialogOf(s, d).(incTrs := Without(l, k)), DialogOf(r, d).(incTrs := Without(l, k)), l[k]);
    }
  }

  lemma OutTwin(s: Store, r: Store, c: Ptr, d: Ptr, now: int)
    requires Ready(s, r, c, d)
    ensures Twin(s, OutReleased(s, c, d, now), r, OutReleased(r, c, d, now), c, d)
  {
    hide Inv, Held, FirstReleasable, FirstWith, Calm, Trimmed;
    FindsAlike(s, r, c, d, "BYE");
    OutReleasedKeeps(s, c, d, now);
    OutReleasedKeeps(r, c, d, now);
    ConservedReady(s, OutReleased(s, c, d, now).s, c, d);
    ConservedReady(r, OutReleased(r, c, d, now).s, c, d);
    TrimmedSelf(s, d);
    TrimmedSelf(r, d);
    var l := DialogOf(s, d).outTrs;
    var keep := FindLastOutInvite(s, c, Some(d));
    FirstReleasableCalm(s, r, l, 1, keep, ICT_TERMINATED, NICT_TERMINATED, now);
    var k := FirstReleasable(s, l, 1, keep, ICT_TERMINATED, NICT_TERMINATED, now);
    if k < |l| {
      MovedTrimmed(s, c, d, DialogOf(s, d).(outTrs := Without(l, k)), l[k]);
      MovedTrimmed(r, c, d, DialogOf(r, d).(outTrs := Without(l, k)), l[k]);
      SetAlike(s, r, c, d, DialogOf(s, d).(outTrs := Without(l, k)), DialogOf(r, d).(outTrs := Without(l, k)), l[k]);
    }
  }

  lemma SetAlike(s: Store, r: Store, c: Ptr, d: Ptr, x: Dialog, y: Dialog, t: Ptr)
    requires Alike(s, r, c, d) && x.(id := 0) == y.(id := 0)
    ensures Alike(Filed(SetDialog(s, d, x), t), Filed(SetDialog(r, d, y), t), c, d)
  {
    var a, b := Filed(SetDialog(s, d, x), t), Filed(SetDialog(r, d, y), t);
    forall u ensures TrOf(b, u).(info := None) == TrOf(a, u).(info := None) {
      assert TrOf(r, u).(info := None) == TrOf(s, u).(info := None);
    }
  }

  lemma FinishedTwin(s: Store, r: Store, c: Ptr, d: Ptr, now: int)
    requires Ready(s, r, c, d)
    ensures Twin(s, FinishedTransactions(s, c, d, now), r, FinishedTransactions(r, c, d, now), c, d)
  {
    hide Inv, IncReleased, OutReleased, Trimmed, Alike;
    var a, b := IncReleased(s, c, d, now), IncReleased(r, c, d, now);
    IncTwin(s, r, c, d, now);
    OutTwin(a.s, b.s, c, d, now);
    TwinJoin(s, a.s, OutReleased(a.s, c, d, now), r, b.s, OutReleased(b.s, c, d, now), c, d);
  }

  // ----- what is pending -----

  /** Not over, and younger than three minutes. */
  predicate GoesOn(s: Store, t: Option<Ptr>, done: State, now: int) {
    t.Some? && TrOf(s, t.value).state != done && !Older(s, t.value, 180, now)
  }

  predicate Stuck(s: Store, t: Option<Ptr>, done: State, now: int) {
    t.Some? && TrOf(s, t.value).state != done && Older(s, t.value, 180, now)
  }

  lemma {:induction false} FirstWithRemove(s: Store, l: seq<Ptr>, t: Ptr, m: string, exact: bool)
    requires !HasMethod(s, t, m, exact)
    ensures FirstWith(s, Remove(l, t), m, exact) == FirstWith(s, l, m, exact)
  {
    if l != [] {
      FirstWithRemove(s, l[1..], t, m, exact);
    }
  }

  /** A search for another method does not notice that t is gone. */
  lemma OthersFound(s: Store, c: Ptr, d: Ptr, t: Ptr, m: string)
    requires !HasMethod(s, t, m, false)
    ensures var r := Filed(SetDialog(s, d, DialogWithout(DialogOf(s, d), t)), t);
      FindLastInc(r, d, m) == FindLastInc(s, d, m) && FindLastOut(r, d, m) == FindLastOut(s, d, m)
  {
    hide Remove, HasMethod;
    var x := DialogOf(s, d);
    var r := Filed(SetDialog(s, d, DialogWithout(x, t)), t);
    FirstWithRemove(s, x.incTrs, t, m, false);
    FirstWithRemove(s, x.outTrs, t, m, false);
    FirstWithSame(s, r, DialogOf(r, d).incTrs, m, false);
    FirstWithSame(s, r, DialogOf(r, d).outTrs, m, false);
  }

  lemma InvitesFound(s: Store, c: Ptr, d: Ptr, t: Ptr)
    requires !HasMethod(s, t, "INVITE", true)
    ensures var r := Filed(SetDialog(s, d, DialogWithout(DialogOf(s, d), t)), t);
      && FindLastIncInvite(r, c, Some(d)) == FindLastIncInvite(s, c, Some(d))
      && FindLastOutInvite(r, c, Some(d)) == FindLastOutInvite(s, c, Some(d))
  {
    hide Remove, HasMethod;
    var x := DialogOf(s, d);
    var r := Filed(SetDialog(s, d, DialogWithout(x, t)), t);
    FirstWithRemove(s, x.incTrs, t, "INVITE", true);
    FirstWithRemove(s, x.outTrs, t, "INVITE", true);
    FirstWithSame(s, r, DialogOf(r, d).incTrs, "INVITE", true);
    FirstWithSame(s, r, DialogOf(r, d).outTrs, "INVITE", true);
  }

  /** The other list keeps its first match. */
  lemma OutStillFound(s: Store, d: Ptr, t: Ptr, m: string)
    requires t in DialogOf(s, d).incTrs
    ensures FindLastOut(Filed(SetDialog(s, d, DialogWithout(DialogOf(s, d), t)), t), d, m) == FindLastOut(s, d, m)
  {
    FirstWithSame(s, Filed(SetDialog(s, d, DialogWithout(DialogOf(s, d), t)), t), DialogOf(s, d).outTrs, m, false);
  }

  /** The searches for INVITEs and for REFERs find the same in both stores. */
  ghost predicate SameFinds(s: Store, r: Store, c: Ptr, d: Ptr) {
    && r.trAt == s.trAt && r.callAt == s.callAt && Inv(r) && c in r.calls && d in CallOf(r, c).dialogs
    && FindLastIncInvite(r, c, Some(d)) == FindLastIncInvite(s, c, Some(d))
    && FindLastOutInvite(r, c, Some(d)) == FindLastOutInvite(s, c, Some(d))
    && FindLastInc(r, d, "REFER") == FindLastInc(s, d, "REFER") && FindLastOut(r, d, "REFER") == FindLastOut(s, d, "REFER")
  }

  lemma NotTwoMethods(s: Store, t: Ptr)
    ensures HasMethod(s, t, "BYE", false) ==> !HasMethod(s, t, "INVITE", true) && !HasMethod(s, t, "REFER", false)
  {
  }

  /** Taking a stuck BYE out hides nothing but that BYE. */
  lemma ByeChecked(s: Store, t: Option<Ptr>, done: State, c: Ptr, d: Ptr, now: int)
    requires Inv(s) && c in s.calls && d in CallOf(s, c).dialogs
    requires t.Some? ==> Listed(s, d, t.value) && HasMethod(s, t.value, "BYE", false)
    ensures var r := Check(s, t, done, c, now, true);
      && r.yes == GoesOn(s, t, done, now) && SameFinds(s, r.s, c, d)
      && (t.Some? && t.value in DialogOf(s, d).incTrs ==> FindLastOut(r.s, d, "BYE") == FindLastOut(s, d, "BYE"))
      && (t.None? ==> r.s == s)
  {
    hide Inv, RemovedFromCall, DialogWithout, FirstWith, HasMethod, Trimmed;
    if Stuck(s, t, done, now) {
      TakenTwin(s, c, d, t.value);
      NotTwoMethods(s, t.value);
      OthersFound(s, c, d, t.value, "REFER");
      InvitesFound(s, c, d, t.value);
      if t.value in DialogOf(s, d).incTrs {
        OutStillFound(s, d, t.value, "BYE");
      }
    }
  }

  lemma ReferChecked(s: Store, t: Option<Ptr>, done: State, c: Ptr, d: Ptr, now: int)
    requires Inv(s) && c in s.calls && d in CallOf(s, c).dialogs
    requires t.Some? ==> t.value in DialogOf(s, d).incTrs
    ensures var r := Check(s, t, done, c, now, true);
      && r.yes == GoesOn(s, t, done, now) && r.s.trAt == s.trAt
      && FindLastOut(r.s, d, "REFER") == FindLastOut(s, d, "REFER")
  {
    hide Inv, RemovedFromCall, DialogWithout, FirstWith, HasMethod, Trimmed;
    if Stuck(s, t, done, now) {
      TakenTwin(s, c, d, t.value);
      OutStillFound(s, d, t.value, "REFER");
    }
  }

  lemma GoesOnSame(s: Store, r: Store, t: Option<Ptr>, done: State, now: int)
    requires r.trAt == s.trAt
    ensures GoesOn(r, t, done, now) == GoesOn(s, t, done, now)
  {
  }

  lemma ByesChecked(s: Store, c: Ptr, d: Ptr, now: int) returns (r1: Checked, r2: Checked)
    requires Inv(s) && c in s.calls && d in CallOf(s, c).dialogs
    ensures r1 == Check(s, FindLastInc(s, d, "BYE"), NIST_TERMINATED, c, now, true)
    ensures r2 == Check(r1.s, FindLastOut(r1.s, d, "BYE"), NICT_TERMINATED, c, now, true)
    ensures r1.yes == GoesOn(s, FindLastInc(s, d, "BYE"), NIST_TERMINATED, now)
    ensures r2.yes == GoesOn(s, FindLastOut(s, d, "BYE"), NICT_TERMINATED, now)
    ensures SameFinds(s, r2.s, c, d)
  {
    hide Inv, Check, FirstWith, HasMethod, GoesOn, FindLastIncInvite, FindLastOutInvite;
    var inc := FindLastInc(s, d, "BYE");
    r1 := Check(s, inc, NIST_TERMINATED, c, now, true);
    ByeChecked(s, inc, NIST_TERMINATED, c, d, now);
    var out := FindLastOut(r1.s, d, "BYE");
    assert out == FindLastOut(s, d, "BYE");
    r2 := Check(r1.s, out, NICT_TERMINATED, c, now, true);
    ByeChecked(r1.s, out, NICT_TERMINATED, c, d, now);
    GoesOnSame(s, r1.s, out, NICT_TERMINATED, now);
  }

  /** Something is pending in a dialog exactly if one of its last six transactions of these kinds goes on. */
  lemma PendingExactly(s: Store, c: Ptr, d: Ptr, now: int)
    requires Inv(s) && c in s.calls && d in CallOf(s, c).dialogs
    ensures Pending(s, c, d, now).yes <==>
      || GoesOn(s, FindLastInc(s, d, "BYE"), NIST_TERMINATED, now) || GoesOn(s, FindLastOut(s, d, "BYE"), NICT_TERMINATED, now)
      || GoesOn(s, FindLastIncInvite(s, c, Some(d)), IST_TERMINATED, now) || GoesOn(s, FindLastOutInvite(s, c, Some(d)), ICT_TERMINATED, now)
      || GoesOn(s, FindLastInc(s, d, "REFER"), IST_TERMINATED, now) || GoesOn(s, FindLastOut(s, d, "REFER"), NICT_TERMINATED, now)
  {
    hide Inv, Check, FindLastInc, FindLastOut, FindLastIncInvite, FindLastOutInvite, GoesOn;
    var r1, r2 := ByesChecked(s, c, d, now);
    var s2 := r2.s;
    var incInvite, outInvite := FindLastIncInvite(s, c, Some(d)), FindLastOutInvite(s, c, Some(d));
    var incRefer, outRefer := FindLastInc(s, d, "REFER"), FindLastOut(s, d, "REFER");
    InviteChecked(s2, incInvite, IST_TERMINATED, c, now);
    InviteChecked(s2, outInvite, ICT_TERMINATED, c, now);
    var r5 := Check(s2, incRefer, IST_TERMINATED, c, now, true);
    FoundInc(s2, d, "REFER");
    ReferChecked(s2, incRefer, IST_TERMINATED, c, d, now);
    LastChecked(r5.s, outRefer, NICT_TERMINATED, c, now);
    GoesOnSame(s, s2, incInvite, IST_TERMINATED, now);
    GoesOnSame(s, s2, outInvite, ICT_TERMINATED, now);
    GoesOnSame(s, s2, incRefer, IST_TERMINATED, now);
    GoesOnSame(s, r5.s, outRefer, NICT_TERMINATED, now);
  }

  lemma FoundInc(s: Store, d: Ptr, m: string)
    ensures FindLastInc(s, d, m).Some? ==> FindLastInc(s, d, m).value in DialogOf(s, d).incTrs
  {
  }

  lemma InviteChecked(s: Store, t: Option<Ptr>, done: State, c: Ptr, now: int)
    ensures Check(s, t, done, c, now, false) == Checked(s, GoesOn(s, t, done, now))
  {
  }

  lemma LastChecked(s: Store, t: Option<Ptr>, done: State, c: Ptr, now: int)
    ensures Check(s, t, done, c, now, true).yes == GoesOn(s, t, done, now)
  {
  }

  // ----- how far a visit gets -----

  /** The visit of dialog d gets to the check of the call: nothing is pending or finished, and no BYE is over. */
  predicate Reaches(s: Store, c: Ptr, d: Ptr, now: int) {
    var p := Pending(s, c, d, now);
    var f := FinishedTransactions(p.s, c, d, now);
    !p.yes && !f.yes && !FinishedCalls(f.s, c, d).yes
  }

  /** The call's own INVITE is over and has failed. */
  predicate Fails(s: Store, c: Ptr) {
    var call := CallOf(s, c);
    var t := if call.incTr.Some? then call.incTr else call.outTr;
    t.Some? && TrOf(s, t.value).state in {IST_TERMINATED, ICT_TERMINATED} && InviteFailed(s, c, t.value)
  }

  lemma FailsSame(s: Store, r: Store, c: Ptr)
    requires Calm(s, r) && SameSlots(s, r, c)
    ensures Fails(r, c) == Fails(s, c)
  {
    hide Calm;
    var call := CallOf(s, c);
    var t := if call.incTr.Some? then call.incTr else call.outTr;
    if t.Some? {
      CalmTr(s, r, t.value);
    }
  }

  lemma FinishedCallsAlike(s: Store, r: Store, c: Ptr, d: Ptr)
    requires Alike(s, r, c, d)
    ensures FinishedCalls(r, c, d).yes == FinishedCalls(s, c, d).yes
  {
    hide Calm, FirstWith, DialogRemoved;
    FindsAlike(s, r, c, d, "BYE");
    var t := if FindLastInc(s, d, "BYE").None? then FindLastOut(s, d, "BYE") else FindLastInc(s, d, "BYE");
    if t.Some? {
      CalmTr(s, r, t.value);
    }
  }

  lemma ReachesAlike(s: Store, r: Store, c: Ptr, d: Ptr, now: int)
    requires Ready(s, r, c, d)
    ensures Reaches(r, c, d, now) == Reaches(s, c, d, now)
  {
    hide Inv, Pending, FinishedTransactions, FinishedCalls, Trimmed, Alike;
    var p, q := Pending(s, c, d, now), Pending(r, c, d, now);
    PendingTwin(s, r, c, d, now);
    var f, g := FinishedTransactions(p.s, c, d, now), FinishedTransactions(q.s, c, d, now);
    FinishedTwin(p.s, q.s, c, d, now);
    FinishedCallsAlike(f.s, g.s, c, d);
  }

  lemma AlikeSelf(s: Store, c: Ptr, d: Ptr)
    ensures Alike(s, s, c, d)
  {
  }

  lemma TrimmedCalm(s: Store, r: Store, c: Ptr, d: Ptr)
    requires Trimmed(s, r, d)
    ensures Calm(s, r) && SameSlots(s, r, c) && r.calls == s.calls && CallOf(r, c) == CallOf(s, c)
  {
  }

  /**
   What a visit comes to: the dialog's lists may be trimmed, and then nothing more happens, or the
   dialog is removed, or, exactly if the call has failed and the visit gets that far, the call is
   released.
   */
  lemma VisitKind(s: Store, c: Ptr, d: Ptr, now: int) returns (m: Store)
    requires Inv(s) && c in s.calls && d in CallOf(s, c).dialogs
    ensures Trimmed(s, m, d) && Inv(m)
    ensures m == Pending(s, c, d, now).s || m == FinishedTransactions(Pending(s, c, d, now).s, c, d, now).s
    ensures (!FinishedCalls(m, c, d).yes && !AbortedCalls(m, c, d, now).yes && DialogOf(m, d).id != -1)
            ==> DialogVisited(s, c, d, now) == Checked(m, false)
    ensures var r := DialogVisited(s, c, d, now);
      if Fails(s, c) && Reaches(s, c, d, now) then r == Checked(CallReleased(m, c), true)
      else (r.s == m || r.s == DialogRemoved(m, c, d)) && (Fails(s, c) ==> !r.yes)
  {
    hide Inv, Pending, IncReleased, OutReleased, FinishedCalls, Trimmed, Alike, AbortedCalls, Fails, DialogRemoved, CallReleased;
    AlikeSelf(s, c, d);
    PendingTwin(s, s, c, d, now);
    var p := Pending(s, c, d, now);
    m := p.s;
    if p.yes { return; }
    FinishedTwin(p.s, p.s, c, d, now);
    TwinJoin(s, p.s, FinishedTransactions(p.s, c, d, now), s, p.s, FinishedTransactions(p.s, c, d, now), c, d);
    m := FinishedTransactions(p.s, c, d, now).s;
    TrimmedCalm(s, m, c, d);
    FailsSame(s, m, c);
    FinishedCallsKind(m, c, d);
    AbortedKind(m, c, d, now);
  }

  lemma FinishedCallsKind(s: Store, c: Ptr, d: Ptr)
    ensures var r := FinishedCalls(s, c, d); r.s == if r.yes then DialogRemoved(s, c, d) else s
  {
    hide DialogRemoved, FindLastInc, FindLastOut;
  }

  lemma AbortedKind(s: Store, c: Ptr, d: Ptr, now: int)
    ensures var r := AbortedCalls(s, c, d, now);
      if Fails(s, c) then r == Checked(CallReleased(s, c), true)
      else r.s == if r.yes then DialogRemoved(s, c, d) else s
  {
    hide DialogRemoved, CallReleased;
  }

  // ----- what a visit leaves alone -----

  /** Beside dialog d of call c only ids and jinfos have changed. */
  ghost predicate Aside(s: Store, r: Store, c: Ptr, d: Ptr) {
    && Calm(s, r) && r.calls == s.calls && SameSlots(s, r, c)
    && CallOf(r, c).dialogs in {CallOf(s, c).dialogs, Remove(CallOf(s, c).dialogs, d)}
    && (forall e | e in CallOf(s, c).dialogs && e != d :: SameDialog(s, r, e))
    && (forall b | b in s.calls && b != c :: SameCall(s, r, b))
  }

  lemma GentleCalm(s: Store, r: Store, z: Scope)
    requires Gentle(s, r, z) && z.trs == {} && r.trAt.Keys == s.trAt.Keys
    ensures Calm(s, r)
  {
    forall t ensures TrOf(r, t).(info := None) == TrOf(s, t).(info := None) {
      if t in r.trAt {
        assert TrKept(s, r, z, t);
      }
    }
  }

  lemma TrimmedAside(s: Store, m: Store, c: Ptr, d: Ptr)
    requires Linked(s) && c in s.calls && d in CallOf(s, c).dialogs && Trimmed(s, m, d)
    ensures Aside(s, m, c, d)
  {
    hide Remove;
    forall b | b in s.calls && b != c ensures SameCall(s, m, b) {
      assert d !in CallOf(s, b).dialogs;
    }
  }

  const UNCHANGING := Scope(0, {}, {}, {}, true)

  lemma RemovedAside(s: Store, c: Ptr, d: Ptr)
    requires Inv(s) && c in s.calls && d in CallOf(s, c).dialogs
    ensures Aside(s, DialogRemoved(s, c, d), c, d)
  {
    hide Inv, Updated, DialogFreed, Unlinked, TrsWeaker, Remove, Gentle, Calm, SameDialog, RefsDropped;
    InvApart(s, c);
    GentleSelf(s, UNCHANGING);
    DialogRemovedGentle(s, s, c, d, UNCHANGING);
    var s0 := RefsDropped(s, c, d);
    RefsDroppedFacts(s, c, d);
    assert Apart(s0, c);
    var s1 := DialogFreed(Unlinked(s0, c, d), d);
    FreedStep(s0, c, d);
    RemovedCalls(s, s0, s1, c, d);
    RemovedKeys(s, c, d);
    GentleCalm(s, DialogRemoved(s, c, d), UNCHANGING);
  }

  lemma RemovedKeys(s: Store, c: Ptr, d: Ptr)
    ensures DialogRemoved(s, c, d).trAt.Keys == s.trAt.Keys
  {
    hide Updated, Remove, Own, DrainedInto, InfoDeleted, RefDropped;
  }

  lemma RemovedCalls(s: Store, s0: Store, s1: Store, c: Ptr, d: Ptr)
    requires s0 == s.(trAt := s0.trAt) && Freed(s0, s1, c, d)
    ensures var r := Updated(s1);
      && r.calls == s.calls && SameSlots(s, r, c) && CallOf(r, c).dialogs == Remove(CallOf(s, c).dialogs, d)
      && (forall e | e != d :: SameDialog(s, r, e)) && (forall b | b in s.calls && b != c :: SameCall(s, r, b))
  {
    hide Updated, Remove, TrsWeaker, SameButIds;
    var r := Updated(s1);
    SameButIdsOutside(s1, r, c);
    assert r.calls == s1.calls by { UpdatedKept(s1); }
    assert SameCall(s1, r, c);
    forall e | e != d ensures SameDialog(s, r, e) {
      SameButIdsDialog(s1, r, e);
      assert DialogOf(s1, e) == DialogOf(s0, e) == DialogOf(s, e);
    }
    forall b | b in s.calls && b != c ensures SameCall(s, r, b) {
      assert SameCall(s0, s1, b) && SameCall(s1, r, b);
      forall e | e in CallOf(s, b).dialogs ensures SameDialog(s, r, e) {
        assert SameDialog(s0, s1, e) && SameDialog(s1, r, e);
      }
    }
  }

  lemma UpdatedKept(s: Store)
    ensures Updated(s).calls == s.calls
  {
    hide Updated;
  }

  lemma AsideJoin(s: Store, m: Store, r: Store, c: Ptr, d: Ptr)
    requires Trimmed(s, m, d) && Aside(s, m, c, d) && Aside(m, r, c, d)
    ensures Aside(s, r, c, d)
  {
    hide Calm, Remove;
    CalmJoin(s, m, r);
    TrimmedCalm(s, m, c, d);
    forall e | e in CallOf(s, c).dialogs && e != d ensures SameDialog(s, r, e) {
      assert SameDialog(s, m, e) && SameDialog(m, r, e);
    }
    forall b | b in s.calls && b != c ensures SameCall(s, r, b) {
      SameCallJoin(s, m, r, b);
    }
  }

  lemma SameCallJoin(a: Store, b: Store, s: Store, c: Ptr)
    requires SameCall(a, b, c) && SameCall(b, s, c)
    ensures SameCall(a, s, c)
  {
    forall d | d in CallOf(a, c).dialogs ensures SameDialog(a, s, d) {
      assert SameDialog(a, b, d) && SameDialog(b, s, d);
    }
  }

  /** Call b is linked as before, with the same transactions and dialogs. */
  ghost predicate Spared(s: Store, r: Store, b: Ptr) {
    Calm(s, r) && Inv(r) && b in r.calls && SameCall(s, r, b)
  }

  lemma SparedJoin(a: Store, b: Store, s: Store, c: Ptr)
    requires Spared(a, b, c) && Spared(b, s, c)
    ensures Spared(a, s, c)
  {
    hide Calm, Inv, SameCall;
    CalmJoin(a, b, s);
    SameCallJoin(a, b, s, c);
  }

  lemma ReleasedSpares(s: Store, c: Ptr)
    requires Inv(s) && c in s.calls
    ensures var r := CallReleased(s, c);
      Inv(r) && Calm(s, r) && r.calls == Remove(s.calls, c) && forall b | b in s.calls && b != c :: Spared(s, r, b)
  {
    hide Inv, CallReleased, Calm, Gentle, Remove, SameCall, CallHeld, Weaker;
    var r := CallReleased(s, c);
    CallReleasedKeeps(s, c);
    InvApart(s, c);
    assert NoDup(s.calls) by { InvNoDup(s); }
    CallReleasedFacts(s, c);
    GentleSelf(s, UNCHANGING);
    CallReleasedGentle(s, s, c, UNCHANGING);
    GentleCalm(s, r, UNCHANGING);
    RemoveContents(s.calls, c);
  }

  /** A visit releases the call, or leaves everything alone beside its dialog. */
  lemma VisitFrame(s: Store, c: Ptr, d: Ptr, now: int)
    requires Inv(s) && c in s.calls && d in CallOf(s, c).dialogs
    ensures var r := DialogVisited(s, c, d, now);
      && Inv(r.s) && Calm(s, r.s)
      && (forall b | b in s.calls && b != c :: Spared(s, r.s, b))
      && (if Fails(s, c) && Reaches(s, c, d, now) then r.yes && r.s.calls == Remove(s.calls, c)
          else Aside(s, r.s, c, d) && (Fails(s, c) ==> !r.yes))
  {
    hide Inv, Held, Calm, Trimmed, Fails, Reaches, DialogVisited, DialogRemoved, CallReleased, SameCall, Remove, SameSlots, SameDialog;
    var r := DialogVisited(s, c, d, now);
    DialogVisitedKeeps(s, c, d, now);
    var m := VisitKind(s, c, d, now);
    TrimmedCalm(s, m, c, d);
    assert Linked(s) by { InvLinkedOwned(s); }
    TrimmedAside(s, m, c, d);
    if Fails(s, c) && Reaches(s, c, d, now) {
      ReleasedSpares(m, c);
      CalmJoin(s, m, r.s);
      forall b | b in s.calls && b != c ensures Spared(s, r.s, b) {
        SameCallJoin(s, m, r.s, b);
      }
    } else {
      RemovedAside(m, c, d);
      AsideJoin(s, m, DialogRemoved(m, c, d), c, d);
    }
  }

  /** So do all visits to the dialogs of a call, for the other calls. */
  lemma {:induction false} DialogsVisitedSpares(s: Store, c: Ptr, ds: seq<Ptr>, now: int)
    requires Inv(s) && c in s.calls && NoDup(ds) && forall d | d in ds :: d in CallOf(s, c).dialogs
    ensures var r := DialogsVisited(s, c, ds, now);
      Inv(r) && Calm(s, r) && forall b | b in s.calls && b != c :: Spared(s, r, b)
    decreases |ds|
  {
    hide Inv, Held, Calm, Fails, Reaches, DialogVisited, SameCall, SameSlots, SameDialog, Remove;
    if ds == [] {
      CalmSelf(s);
    } else {
      var v := DialogVisited(s, c, ds[0], now);
      VisitFrame(s, c, ds[0], now);
      DialogVisitedKeeps(s, c, ds[0], now);
      if !v.yes {
        VisitLeft(s, v, c, ds);
        DialogsVisitedSpares(v.s, c, ds[1..], now);
        var r := DialogsVisited(v.s, c, ds[1..], now);
        CalmJoin(s, v.s, r);
        forall b | b in s.calls && b != c ensures Spared(s, r, b) {
          SparedJoin(s, v.s, r, b);
        }
      }
    }
  }

  lemma CalmSelf(s: Store)
    ensures Calm(s, s) && forall b :: SameCall(s, s, b)
  {
    forall b ensures SameCall(s, s, b) {
      forall d | d in CallOf(s, b).dialogs ensures SameDialog(s, s, d) {
      }
    }
  }

  /** The dialogs still to visit are still there. */
  lemma VisitLeft(s: Store, v: Checked, c: Ptr, ds: seq<Ptr>)
    requires ds != [] && NoDup(ds) && (forall d | d in ds :: d in CallOf(s, c).dialogs)
    requires !v.yes && Visited(s, v, c, ds[0]) && c in s.calls
    ensures v.s.calls == s.calls && NoDup(ds[1..]) && forall d | d in ds[1..] :: d != ds[0] && d in CallOf(v.s, c).dialogs
  {
    hide Inv, Held;
    RemoveContents(CallOf(s, c).dialogs, ds[0]);
    assert ds == [ds[0]] + ds[1..];
  }

  // ----- a dialog with something pending -----

  predicate HasPending(s: Store, c: Ptr, d: Ptr, now: int) {
    Pending(s, c, d, now).yes
  }

  /** Its own visit may trim its lists, and does no more to it. */
  lemma PendingVisit(s: Store, c: Ptr, d: Ptr, now: int)
    requires Inv(s) && c in s.calls && d in CallOf(s, c).dialogs && HasPending(s, c, d, now)
    ensures var v := DialogVisited(s, c, d, now);
      !v.yes && CallOf(v.s, c) == CallOf(s, c) && v.s.calls == s.calls && !Reaches(s, c, d, now)
  {
    hide Inv, Pending, FinishedTransactions, FinishedCalls, AbortedCalls, Trimmed, Alike;
    AlikeSelf(s, c, d);
    PendingTwin(s, s, c, d, now);
    TrimmedCalm(s, Pending(s, c, d, now).s, c, d);
  }

  lemma AsideReady(s: Store, r: Store, c: Ptr, d: Ptr, e: Ptr)
    requires Inv(s) && Inv(r) && c in s.calls && Aside(s, r, c, d) && e in CallOf(s, c).dialogs && e != d
    ensures Ready(s, r, c, e)
  {
    hide Inv, Calm, SameCall;
    RemoveContents(CallOf(s, c).dialogs, d);
  }

  lemma SparedReady(s: Store, r: Store, c: Ptr, e: Ptr)
    requires Inv(s) && c in s.calls && Spared(s, r, c) && e in CallOf(s, c).dialogs
    ensures Ready(s, r, c, e)
  {
    hide Inv, Calm;
  }

  /** The visit of one of the dialogs releases the call. */
  ghost predicate Falls(s: Store, c: Ptr, ds: seq<Ptr>, now: int) {
    Fails(s, c) && exists e | e in ds :: Reaches(s, c, e, now)
  }

  lemma FallsReady(s: Store, r: Store, c: Ptr, ds: seq<Ptr>, now: int)
    requires Calm(s, r) && SameSlots(s, r, c) && forall e | e in ds :: Ready(s, r, c, e)
    ensures Falls(r, c, ds, now) == Falls(s, c, ds, now)
  {
    hide Calm, Ready, Reaches, Fails, SameSlots;
    FailsSame(s, r, c);
    forall e | e in ds ensures Reaches(r, c, e, now) == Reaches(s, c, e, now) {
      ReachesAlike(s, r, c, e, now);
    }
  }

  /** The visits of the dialog's call keep the dialog exactly if none of them releases the call. */
  lemma {:induction false} PendingLoop(s: Store, c: Ptr, ds: seq<Ptr>, d: Ptr, now: int)
    requires Inv(s) && c in s.calls && NoDup(ds) && d in CallOf(s, c).dialogs && (d in ds ==> HasPending(s, c, d, now))
    requires forall e | e in ds :: e in CallOf(s, c).dialogs
    ensures var r := DialogsVisited(s, c, ds, now);
      if Falls(s, c, ds, now) then r.calls == Remove(s.calls, c) else c in r.calls && d in CallOf(r, c).dialogs
    decreases |ds|
  {
    hide Inv, Held, Calm, Fails, Reaches, HasPending, DialogVisited, Aside, Ready, Spared, Remove;
    if ds != [] {
      var v := DialogVisited(s, c, ds[0], now);
      VisitFrame(s, c, ds[0], now);
      DialogVisitedKeeps(s, c, ds[0], now);
      assert ds == [ds[0]] + ds[1..];
      if !(Fails(s, c) && Reaches(s, c, ds[0], now)) {
        PendingStays(s, v, c, ds[0], d, now);
        assert Falls(s, c, ds, now) == Falls(s, c, ds[1..], now);
        if !v.yes {
          VisitLeft(s, v, c, ds);
          forall e | e in ds[1..] ensures Ready(s, v.s, c, e) {
            AsideReady(s, v.s, c, ds[0], e);
          }
          assert SameSlots(s, v.s, c) && Calm(s, v.s) by { AsideSlots(s, v.s, c, ds[0]); }
          FallsReady(s, v.s, c, ds[1..], now);
          PendingLoop(v.s, c, ds[1..], d, now);
        }
      }
    }
  }

  lemma AsideSlots(s: Store, r: Store, c: Ptr, d: Ptr)
    requires Aside(s, r, c, d)
    ensures SameSlots(s, r, c) && Calm(s, r) && r.calls == s.calls
  {
  }

  /** One visit that does not release the call. */
  lemma PendingStays(s: Store, v: Checked, c: Ptr, e: Ptr, d: Ptr, now: int)
    requires Inv(s) && Inv(v.s) && c in s.calls && d in CallOf(s, c).dialogs && e in CallOf(s, c).dialogs
    requires v == DialogVisited(s, c, e, now) && Aside(s, v.s, c, e) && (e == d ==> HasPending(s, c, d, now))
    ensures c in v.s.calls && d in CallOf(v.s, c).dialogs
    ensures e != d ==> HasPending(v.s, c, d, now) == HasPending(s, c, d, now)
  {
    hide Inv, Calm, Pending, DialogVisited, SameCall, Trimmed, Alike;
    if e == d {
      PendingVisit(s, c, d, now);
    } else {
      AsideReady(s, v.s, c, e, d);
      PendingTwin(s, v.s, c, d, now);
    }
  }

  // ----- the other calls -----

  lemma {:induction false} CallsVisitedSpares(s: Store, cs: seq<Ptr>, c: Ptr, now: int)
    requires Inv(s) && NoDup(cs) && (forall b | b in cs :: b in s.calls) && c in s.calls && c !in cs
    ensures Spared(s, CallsVisited(s, cs, now), c)
    decreases |cs|
  {
    hide Inv, Held, Calm, SameCall, DialogsVisited, Remove;
    CalmSelf(s);
    if cs != [] {
      var s1 := DialogsVisited(s, cs[0], CallOf(s, cs[0]).dialogs, now);
      FirstCall(s, cs, now);
      CallsVisitedSpares(s1, cs[1..], c, now);
      SparedJoin(s, s1, CallsVisited(s1, cs[1..], now), c);
    }
  }

  /** The visits to one call, and where they leave the loop over the rest. */
  lemma FirstCall(s: Store, cs: seq<Ptr>, now: int)
    requires Inv(s) && NoDup(cs) && cs != [] && (forall b | b in cs :: b in s.calls)
    ensures var r := DialogsVisited(s, cs[0], CallOf(s, cs[0]).dialogs, now);
      && Inv(r) && (forall b | b in s.calls && b != cs[0] :: Spared(s, r, b))
      && NoDup(cs[1..]) && (forall b | b in cs[1..] :: b != cs[0] && b in r.calls)
  {
    hide Inv, Calm, SameCall, DialogsVisited;
    assert NoDup(CallOf(s, cs[0]).dialogs) by { InvApart(s, cs[0]); }
    DialogsVisitedSpares(s, cs[0], CallOf(s, cs[0]).dialogs, now);
    assert cs == [cs[0]] + cs[1..];
    forall b | b in cs[1..] ensures b != cs[0] && b in s.calls {
    }
  }

  /** A released call is not linked again. */
  lemma UnlinkedStays(s: Store, cs: seq<Ptr>, c: Ptr, now: int)
    requires Inv(s) && c !in s.calls
    ensures c !in CallsVisited(s, cs, now).calls
  {
    hide Inv, CallsVisited, Gentle;
    var z := Scope(now, {}, {}, {}, true);
    GentleSelf(s, z);
    CallsVisitedGentle(s, s, cs, z);
    GentleLinks(s, CallsVisited(s, cs, now), z);
    assert NoDup(s.calls) by { InvNoDup(s); }
    assert forall b | b in CallsVisited(s, cs, now).calls :: CallLess(s, CallsVisited(s, cs, now), b);
  }

  lemma {:induction false} PendingCalls(s: Store, cs: seq<Ptr>, c: Ptr, d: Ptr, now: int)
    requires Inv(s) && NoDup(cs) && (forall b | b in cs :: b in s.calls) && c in cs
    requires d in CallOf(s, c).dialogs && HasPending(s, c, d, now)
    ensures var r := CallsVisited(s, cs, now);
      if Falls(s, c, CallOf(s, c).dialogs, now) then c !in r.calls else c in r.calls && d in CallOf(r, c).dialogs
    decreases |cs|
  {
    hide Inv, Calm, Fails, Falls, HasPending, DialogsVisited, SameCall, SameSlots, Ready, Remove, Spared;
    var ds := CallOf(s, cs[0]).dialogs;
    var s1 := DialogsVisited(s, cs[0], ds, now);
    FirstCall(s, cs, now);
    if cs[0] == c {
      assert NoDup(ds) by { InvApart(s, c); }
      PendingLoop(s, c, ds, d, now);
      if Falls(s, c, ds, now) {
        assert NoDup(s.calls) by { InvNoDup(s); }
        RemoveNoDup(s.calls, c);
        UnlinkedStays(s1, cs[1..], c, now);
      } else {
        CallsVisitedSpares(s1, cs[1..], c, now);
        SparedDialogs(s1, CallsVisited(s1, cs[1..], now), c);
      }
    } else {
      SparedDialogs(s, s1, c);
      forall e | e in CallOf(s, c).dialogs ensures Ready(s, s1, c, e) {
        SparedReady(s, s1, c, e);
      }
      assert Ready(s, s1, c, d);
      PendingReady(s, s1, c, d, now);
      FallsReady(s, s1, c, CallOf(s, c).dialogs, now);
      PendingCalls(s1, cs[1..], c, d, now);
    }
  }

  lemma PendingReady(s: Store, r: Store, c: Ptr, d: Ptr, now: int)
    requires Ready(s, r, c, d)
    ensures HasPending(r, c, d, now) == HasPending(s, c, d, now)
  {
    hide Inv, Pending, Trimmed, Alike;
    PendingTwin(s, r, c, d, now);
  }

  lemma SparedDialogs(s: Store, r: Store, c: Ptr)
    requires Spared(s, r, c)
    ensures c in r.calls && CallOf(r, c).dialogs == CallOf(s, c).dialogs && Calm(s, r) && SameSlots(s, r, c)
  {
  }

  // ----- the second loop -----

  lemma AbandonedCalm(s: Store, r: Store, c: Ptr, now: int)
    requires Spared(s, r, c)
    ensures Abandoned(r, c, now) == Abandoned(s, c, now)
  {
    hide Calm, Inv;
    var call := CallOf(s, c);
    if call.incTr.Some? {
      CalmWhole(s, r, call.incTr.value);
    }
    if call.outTr.Some? {
      CalmWhole(s, r, call.outTr.value);
    }
  }

  lemma CalmWhole(s: Store, r: Store, t: Ptr)
    requires Calm(s, r)
    ensures TrOf(r, t).(info := None) == TrOf(s, t).(info := None)
  {
  }

  /** A call that is not abandoned is left alone. */
  lemma {:induction false} AbandonedSpares(s: Store, cs: seq<Ptr>, c: Ptr, now: int)
    requires Inv(s) && NoDup(cs) && (forall b | b in cs :: b in s.calls) && c in s.calls && (c in cs ==> !Abandoned(s, c, now))
    ensures Spared(s, AbandonedReleased(s, cs, now), c)
    decreases |cs|
  {
    hide Inv, Calm, SameCall, CallReleased, Remove, Spared, Abandoned;
    assert Spared(s, s, c) by { SparedSelf(s, c); }
    if cs != [] {
      if Abandoned(s, cs[0], now) {
        var s1 := CallReleased(s, cs[0]);
        ReleasedSpares(s, cs[0]);
        RemoveContents(s.calls, cs[0]);
        SparedDialogs(s, s1, c);
        AbandonedCalm(s, s1, c, now);
        assert cs == [cs[0]] + cs[1..];
        AbandonedSpares(s1, cs[1..], c, now);
        SparedJoin(s, s1, AbandonedReleased(s1, cs[1..], now), c);
      } else {
        AbandonedSpares(s, cs[1..], c, now);
      }
    }
  }

  /** And one that is abandoned goes. */
  lemma {:induction false} AbandonedGoes(s: Store, cs: seq<Ptr>, c: Ptr, now: int)
    requires Inv(s) && NoDup(cs) && (forall b | b in cs :: b in s.calls) && c in cs && Abandoned(s, c, now)
    ensures c !in AbandonedReleased(s, cs, now).calls
    decreases |cs|
  {
    hide Inv, Calm, SameCall, CallReleased, Remove, Spared, Abandoned;
    assert cs == [cs[0]] + cs[1..];
    if Abandoned(s, cs[0], now) {
      var s1 := CallReleased(s, cs[0]);
      ReleasedSpares(s, cs[0]);
      RemoveContents(s.calls, cs[0]);
      if cs[0] == c {
        assert NoDup(s.calls) by { InvNoDup(s); }
        RemoveNoDup(s.calls, c);
        AbandonedUnlinked(s1, cs[1..], c, now);
      } else {
        AbandonedCalm(s, s1, c, now);
        AbandonedGoes(s1, cs[1..], c, now);
      }
    } else {
      AbandonedGoes(s, cs[1..], c, now);
    }
  }

  lemma SparedSelf(s: Store, c: Ptr)
    requires Inv(s) && c in s.calls
    ensures Spared(s, s, c)
  {
    hide Inv;
    CalmSelf(s);
  }

  lemma {:induction false} AbandonedUnlinked(s: Store, cs: seq<Ptr>, c: Ptr, now: int)
    requires Inv(s) && c !in s.calls
    ensures c !in AbandonedReleased(s, cs, now).calls
  {
    hide Inv, AbandonedReleased, Gentle;
    var z := Scope(now, {}, {}, {}, true);
    GentleSelf(s, z);
    AbandonedReleasedGentle(s, s, cs, z);
    GentleLinks(s, AbandonedReleased(s, cs, now), z);
    assert NoDup(s.calls) by { InvNoDup(s); }
    assert forall b | b in AbandonedReleased(s, cs, now).calls :: CallLess(s, AbandonedReleased(s, cs, now), b);
  }

  // ----- the whole pass -----

  /** After the pass, dialog d is linked to call c, and both are allocated. */
  ghost predicate StaysLinked(r: Store, c: Ptr, d: Ptr) {
    c in r.calls && c in r.callAt && d in CallOf(r, c).dialogs && d in r.dialogAt
  }

  lemma LinkedStays(r: Store, c: Ptr, d: Ptr)
    requires Inv(r) && c in r.calls && d in CallOf(r, c).dialogs
    ensures StaysLinked(r, c, d)
  {
  }

  /**
   While something is pending in a dialog (PendingExactly), the release pass keeps the dialog linked
   exactly if the visits to its call do not release the call: they do if the call's own INVITE is over
   and has failed, and in some other dialog of the call nothing is pending, nothing finished and no BYE
   over.
   */
  lemma UnfinishedProtects(s: Store, c: Ptr, d: Ptr, now: int)
    requires Inv(s) && c in s.calls && d in CallOf(s, c).dialogs && HasPending(s, c, d, now)
    ensures var r := ReleasePass(s, now);
      if Falls(s, c, CallOf(s, c).dialogs, now) then c !in r.calls else StaysLinked(r, c, d)
  {
    hide Inv, Held, Calm, Falls, HasPending, CallsVisited, AbandonedReleased, Swept, Expendable, SameCall, StaysLinked, Spared;
    assert NoDup(s.calls) by { InvNoDup(s); }
    PendingCalls(s, s.calls, c, d, now);
    CallsVisitedKeeps(s, s.calls, now);
    var s1 := CallsVisited(s, s.calls, now);
    assert NoDup(s1.calls) by { InvNoDup(s1); }
    var m := Collected(s, now);
    SweptRecords(m, now);
    if Falls(s, c, CallOf(s, c).dialogs, now) {
      AbandonedUnlinked(s1, s1.calls, c, now);
    } else {
      AbandonedSpares(s1, s1.calls, c, now);
      SparedDialogs(s1, m, c);
      ReleasePassExactly(s, now);
      LinkedStays(ReleasePass(s, now), c, d);
    }
  }

  // ----- an answered call -----

  /** The call's INVITE was answered with a success, and no dialog of the call has been ended. */
  ghost predicate Answered(s: Store, c: Ptr) {
    var call := CallOf(s, c);
    var t := if call.incTr.Some? then call.incTr else call.outTr;
    && t.Some? && TrOf(s, t.value).state == (if call.incTr.Some? then IST_TERMINATED else ICT_TERMINATED)
    && !InviteFailed(s, c, t.value)
    && forall d | d in call.dialogs :: NotEnded(s, d)
  }

  ghost predicate NotEnded(s: Store, d: Ptr) {
    DialogOf(s, d).established && DialogOf(s, d).id >= 1 && forall t | Listed(s, d, t) :: !HasMethod(s, t, "BYE", false)
  }

  lemma TrimmedAnswered(s: Store, r: Store, c: Ptr, d: Ptr)
    requires Answered(s, c) && Trimmed(s, r, d)
    ensures Answered(r, c)
  {
    assert CallOf(r, c) == CallOf(s, c);
    forall e | e in CallOf(r, c).dialogs ensures NotEnded(r, e) {
      assert NotEnded(s, e);
      forall t | Listed(r, e, t) ensures !HasMethod(r, t, "BYE", false) {
        assert Listed(s, e, t);
      }
    }
  }

  lemma AnsweredStays(s: Store, c: Ptr, d: Ptr, now: int)
    requires Answered(s, c) && d in CallOf(s, c).dialogs
    ensures !FinishedCalls(s, c, d).yes && !AbortedCalls(s, c, d, now).yes && DialogOf(s, d).id != -1
  {
    hide DialogRemoved, CallReleased;
    assert NotEnded(s, d);
    assert FindLastInc(s, d, "BYE").None? && FindLastOut(s, d, "BYE").None?;
  }

  /** The visits to an answered call trim lists, and no more. */
  lemma {:induction false} AnsweredLoop(s: Store, c: Ptr, ds: seq<Ptr>, now: int)
    requires Inv(s) && c in s.calls && Answered(s, c) && forall d | d in ds :: d in CallOf(s, c).dialogs
    ensures var r := DialogsVisited(s, c, ds, now);
      Inv(r) && r.calls == s.calls && CallOf(r, c) == CallOf(s, c) && Answered(r, c)
    decreases |ds|
  {
    hide Inv, Answered, DialogVisited, Trimmed, FinishedCalls, AbortedCalls, Fails, Reaches;
    if ds != [] {
      var m := VisitKind(s, c, ds[0], now);
      TrimmedCalm(s, m, c, ds[0]);
      TrimmedAnswered(s, m, c, ds[0]);
      AnsweredStays(m, c, ds[0], now);
      AnsweredLoop(m, c, ds[1..], now);
    }
  }

  /** Renumbering does not reach established dialogs with an id. */
  lemma SparedAnswered(s: Store, r: Store, c: Ptr, z: Scope)
    requires Answered(s, c) && Spared(s, r, c) && Gentle(s, r, z) && z.made == {}
    ensures Answered(r, c)
  {
    hide Calm, Inv, EqualFold, LinksLess;
    var call := CallOf(s, c);
    var t := if call.incTr.Some? then call.incTr else call.outTr;
    CalmTr(s, r, t.value);
    forall d | d in call.dialogs ensures NotEnded(r, d) {
      assert NotEnded(s, d) && SameDialog(s, r, d) && IdKept(DialogOf(s, d), DialogOf(r, d));
      forall x | Listed(r, d, x) ensures !HasMethod(r, x, "BYE", false) {
        assert Listed(s, d, x);
        CalmTr(s, r, x);
      }
    }
  }

  lemma {:induction false} AnsweredCalls(s: Store, cs: seq<Ptr>, c: Ptr, now: int)
    requires Inv(s) && NoDup(cs) && (forall b | b in cs :: b in s.calls) && c in s.calls && Answered(s, c)
    ensures var r := CallsVisited(s, cs, now);
      Answered(r, c) && c in r.calls && CallOf(r, c).(id := 0) == CallOf(s, c).(id := 0) && Abandoned(r, c, now) == Abandoned(s, c, now)
    decreases |cs|
  {
    hide Inv, Calm, Answered, DialogsVisited, SameCall, Spared, Gentle, Abandoned;
    var z := Scope(now, {}, {}, {}, true);
    GentleSelf(s, z);
    if cs != [] {
      var ds := CallOf(s, cs[0]).dialogs;
      var s1 := DialogsVisited(s, cs[0], ds, now);
      FirstCall(s, cs, now);
      if cs[0] == c {
        AnsweredLoop(s, c, ds, now);
        assert NoDup(ds) by { InvApart(s, c); }
        DialogsVisitedSpares(s, c, ds, now);
        AbandonedSame(s, s1, c, now);
      } else {
        DialogsVisitedGentle(s, s, cs[0], ds, z);
        SparedAnswered(s, s1, c, z);
        SparedCall(s, s1, c);
        AbandonedCalm(s, s1, c, now);
      }
      AnsweredCalls(s1, cs[1..], c, now);
    }
  }

  lemma SparedCall(s: Store, r: Store, c: Ptr)
    requires Spared(s, r, c)
    ensures c in r.calls && CallOf(r, c).(id := 0) == CallOf(s, c).(id := 0)
  {
  }

  lemma AbandonedSame(s: Store, r: Store, c: Ptr, now: int)
    requires Calm(s, r) && CallOf(r, c) == CallOf(s, c)
    ensures Abandoned(r, c, now) == Abandoned(s, c, now)
  {
    hide Calm;
    var call := CallOf(s, c);
    if call.incTr.Some? {
      CalmWhole(s, r, call.incTr.value);
    }
    if call.outTr.Some? {
      CalmWhole(s, r, call.outTr.value);
    }
  }

  lemma SweptAnswered(s: Store, c: Ptr, now: int)
    requires Inv(s) && c in s.calls && Answered(s, c)
    ensures Answered(Swept(s, now), c)
  {
    hide Inv, CallHeld, Swept, EqualFold;
    var r := Swept(s, now);
    SweptRecords(s, now);
    assert Owned(s) by { InvLinkedOwned(s); }
    var call := CallOf(s, c);
    var t := if call.incTr.Some? then call.incTr else call.outTr;
    InSlotHeld(s, c, t.value);
    SweptTr(s, c, t.value, now);
    forall d | d in call.dialogs ensures NotEnded(r, d) {
      assert NotEnded(s, d);
      forall x | Listed(r, d, x) ensures !HasMethod(r, x, "BYE", false) {
        assert Listed(s, d, x);
        ListedHeld(s, c, d, x);
        SweptTr(s, c, x, now);
      }
    }
  }

  /**
   An answered call stays linked with all its dialogs through the release pass, and is as good as
   before, exactly if it has a dialog, or sent an INVITE that completed less than ten seconds ago.
   */
  lemma AnsweredCallStays(s: Store, c: Ptr, now: int)
    requires Inv(s) && c in s.calls && Answered(s, c)
    ensures var r := ReleasePass(s, now); var call := CallOf(s, c);
      && (c in r.calls <==> call.dialogs != [] || (call.outTr.Some? && TrOf(s, call.outTr.value).completed + 10 > now))
      && (c in r.calls ==> CallOf(r, c).(id := 0) == call.(id := 0) && Answered(r, c) && forall d | d in call.dialogs :: StaysLinked(r, c, d))
  {
    hide Inv, Held, Calm, Answered, CallsVisited, AbandonedReleased, Swept, Expendable, SameCall, StaysLinked, Spared, Gentle, Abandoned;
    assert NoDup(s.calls) by { InvNoDup(s); }
    AnsweredCalls(s, s.calls, c, now);
    CallsVisitedKeeps(s, s.calls, now);
    var s1 := CallsVisited(s, s.calls, now);
    assert NoDup(s1.calls) by { InvNoDup(s1); }
    var m := Collected(s, now);
    SweptRecords(m, now);
    AnsweredAbandoned(s, c, now);
    if Abandoned(s, c, now) {
      AbandonedGoes(s1, s1.calls, c, now);
    } else {
      AbandonedSpares(s1, s1.calls, c, now);
      var z := Scope(now, {}, {}, {}, true);
      GentleSelf(s1, z);
      AbandonedReleasedGentle(s1, s1, s1.calls, z);
      SparedAnswered(s1, m, c, z);
      SparedCall(s1, m, c);
      CollectedConserves(s, now);
      SweptAnswered(m, c, now);
      ReleasePassExactly(s, now);
      forall d | d in CallOf(s, c).dialogs ensures StaysLinked(ReleasePass(s, now), c, d) {
        LinkedStays(ReleasePass(s, now), c, d);
      }
    }
  }

  lemma AnsweredAbandoned(s: Store, c: Ptr, now: int)
    requires Inv(s) && c in s.calls && Answered(s, c)
    ensures var call := CallOf(s, c);
      Abandoned(s, c, now) <==> call.dialogs == [] && !(call.outTr.Some? && TrOf(s, call.outTr.value).completed + 10 > now)
  {
    hide Linked, Owned, NamesOk, CallSorted;
    assert OneSided(s, c) by { assert CallOk(s, c); }
  }
}
