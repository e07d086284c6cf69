/**
 What the book-keeping functions of eXosip do to the store: `misc.c`, `jdialog.c`, `jcall.c`,
 eXosip_update, and the release helpers of `udp.c`. Each is written as a function of the store;
 the module EXosip runs them on the fields, pointer by pointer.
 */
module CallOps {
  import opened Numerals
  import opened CallStore

  // ----- searching (misc.c) -----

  predicate HasMethod(s: Store, t: Ptr, m: string, exact: bool) {
    if exact then TrOf(s, t).cseqMethod == m else EqualFold(TrOf(s, t).cseqMethod, m)
  }

  /** The first transaction of a list with the method. */
  function FirstWith(s: Store, l: seq<Ptr>, m: string, exact: bool): (r: Option<Ptr>)
    ensures r.Some? ==> r.value in l && HasMethod(s, r.value, m, exact)
    ensures r.None? ==> forall t | t in l :: !HasMethod(s, t, m, exact)
  {
    if l == [] then None
    else if HasMethod(s, l[0], m, exact) then Some(l[0])
    else FirstWith(s, l[1..], m, exact)
  }

  function FindLastInc(s: Store, d: Ptr, m: string): Option<Ptr> {
    if m == "" then None else FirstWith(s, DialogOf(s, d).incTrs, m, false)
  }

  function FindLastOut(s: Store, d: Ptr, m: string): Option<Ptr> {
    if m == "" then None else FirstWith(s, DialogOf(s, d).outTrs, m, false)
  }

  /** The INVITE searches compare exactly and fall back on the call's own transaction. */
  function FindLastIncInvite(s: Store, c: Ptr, d: Option<Ptr>): Option<Ptr> {
    var r := if d.Some? then FirstWith(s, DialogOf(s, d.value).incTrs, "INVITE", true) else None;
    if r.None? then CallOf(s, c).incTr else r
  }

  function FindLastOutInvite(s: Store, c: Ptr, d: Option<Ptr>): Option<Ptr> {
    var r := if d.Some? then FirstWith(s, DialogOf(s, d.value).outTrs, "INVITE", true) else None;
    if r.None? then CallOf(s, c).outTr else r
  }

  /** The newer of an incoming and an outgoing transaction; the outgoing one wins a tie. */
  function Newer(s: Store, inc: Option<Ptr>, out: Option<Ptr>): Option<Ptr> {
    if inc.None? then out
    else if out.None? then inc
    else if TrOf(s, inc.value).birth > TrOf(s, out.value).birth then inc
    else out
  }

  function FindLast(s: Store, d: Ptr, m: string): Option<Ptr> {
    Newer(s, FindLastInc(s, d, m), FindLastOut(s, d, m))
  }

  function FindLastInvite(s: Store, c: Ptr, d: Ptr): Option<Ptr> {
    Newer(s, FindLastIncInvite(s, c, Some(d)), FindLastOutInvite(s, c, Some(d)))
  }

  /** In a list kept newest first, the first match is a newest match. */
  lemma {:induction false} FirstIsNewest(s: Store, l: seq<Ptr>, m: string, exact: bool, t: Ptr)
    requires NewestFirst(s, l) && t in l && HasMethod(s, t, m, exact)
    ensures var r := FirstWith(s, l, m, exact); r.Some? && TrOf(s, r.value).birth >= TrOf(s, t).birth
  {
    if !HasMethod(s, l[0], m, exact) {
      assert l == [l[0]] + l[1..];
      FirstIsNewest(s, l[1..], m, exact, t);
    } else {
      var i :| 0 <= i < |l| && l[i] == t;
    }
  }

  /** So eXosip_find_last_transaction finds a newest transaction of the method in the dialog, if there is any. */
  lemma FindLastIsNewest(s: Store, d: Ptr, m: string)
    requires DialogSorted(s, d) && m != ""
    ensures var r := FindLast(s, d, m);
      && (r.Some? ==> r.value in Own(s, d) && HasMethod(s, r.value, m, false))
      && forall t | t in Own(s, d) && HasMethod(s, t, m, false) :: r.Some? && TrOf(s, r.value).birth >= TrOf(s, t).birth
  {
    forall t | t in Own(s, d) && HasMethod(s, t, m, false)
      ensures var r := FindLast(s, d, m); r.Some? && TrOf(s, r.value).birth >= TrOf(s, t).birth
    {
      if t in DialogOf(s, d).incTrs {
        FirstIsNewest(s, DialogOf(s, d).incTrs, m, false, t);
      } else {
        FirstIsNewest(s, DialogOf(s, d).outTrs, m, false, t);
      }
    }
  }

  // ----- single updates -----

  function SetCall(s: Store, c: Ptr, call: Call): Store {
    s.(callAt := s.callAt[c := call])
  }

  function SetDialog(s: Store, d: Ptr, dialog: Dialog): Store {
    s.(dialogAt := s.dialogAt[d := dialog])
  }

  /** osip_list_add (eXosip.j_transactions, t, 0) */
  function Filed(s: Store, t: Ptr): Store {
    s.(garbage := [t] + s.garbage)
  }

  // ----- eXosip_update -----

  function CallNumbered(s: Store, c: Ptr): (r: Store)
    ensures SameButIds(s, r)
  {
    if c in s.callAt && s.callAt[c].id < 1 then
      SetCall(s, c, s.callAt[c].(id := s.nextId)).(nextId := s.nextId + 1)
    else s
  }

  function DialogNumbered(s: Store, d: Ptr): (r: Store)
    ensures SameButIds(s, r)
  {
    if d !in s.dialogAt then s
    else if !s.dialogAt[d].established then SetDialog(s, d, s.dialogAt[d].(id := -1))
    else if s.dialogAt[d].id < 1 then
      SetDialog(s, d, s.dialogAt[d].(id := s.nextId)).(nextId := s.nextId + 1)
    else s
  }

  function DialogsNumbered(s: Store, ds: seq<Ptr>): (r: Store)
    ensures SameButIds(s, r)
    decreases |ds|
  {
    if ds == [] then s
    else
      var r := DialogsNumbered(DialogNumbered(s, ds[0]), ds[1..]);
      SameButIdsJoin(s, DialogNumbered(s, ds[0]), r);
      r
  }

  function CallsNumbered(s: Store, cs: seq<Ptr>): (r: Store)
    ensures SameButIds(s, r)
    decreases |cs|
  {
    if cs == [] then s
    else
      var s1 := CallNumbered(s, cs[0]);
      var s2 := DialogsNumbered(s1, CallOf(s, cs[0]).dialogs);
      var r := CallsNumbered(s2, cs[1..]);
      SameButIdsJoin(s, s1, s2);
      SameButIdsJoin(s, s2, r);
      r
  }

  /** Numbers new calls and dialogs, and takes the number of finished dialogs away. */
  function Updated(s: Store): (r: Store)
    ensures SameButIds(s, r)
  {
    CallsNumbered(if s.nextId > 100000 then s.(nextId := 1) else s, s.calls)
  }

  /** Nothing but ids differs. */
  ghost predicate SameButIds(s: Store, s': Store) {
    && s'.calls == s.calls && s'.garbage == s.garbage && s'.trAt == s.trAt
    && s'.callAt.Keys == s.callAt.Keys && s'.dialogAt.Keys == s.dialogAt.Keys
    && (forall c | c in s.callAt :: s'.callAt[c].(id := 0) == s.callAt[c].(id := 0))
    && (forall d | d in s.dialogAt :: s'.dialogAt[d].(id := 0) == s.dialogAt[d].(id := 0))
  }

  lemma SameButIdsJoin(a: Store, b: Store, c: Store)
    requires SameButIds(a, b) && SameButIds(b, c)
    ensures SameButIds(a, c)
  {
    forall x | x in a.callAt ensures c.callAt[x].(id := 0) == a.callAt[x].(id := 0) {
      assert b.callAt[x].(id := 0) == a.callAt[x].(id := 0);
    }
    forall x | x in a.dialogAt ensures c.dialogAt[x].(id := 0) == a.dialogAt[x].(id := 0) {
      assert b.dialogAt[x].(id := 0) == a.dialogAt[x].(id := 0);
    }
  }

  // ----- removing a transaction from its call -----

  function IncHolder(s: Store, ds: seq<Ptr>, t: Ptr): (r: Option<Ptr>)
    ensures r.Some? ==> r.value in ds && t in DialogOf(s, r.value).incTrs
    ensures r.None? ==> forall d | d in ds :: t !in DialogOf(s, d).incTrs
  {
    if ds == [] then None
    else if t in DialogOf(s, ds[0]).incTrs then Some(ds[0])
    else IncHolder(s, ds[1..], t)
  }

  function OutHolder(s: Store, ds: seq<Ptr>, t: Ptr): (r: Option<Ptr>)
    ensures r.Some? ==> r.value in ds && t in DialogOf(s, r.value).outTrs
    ensures r.None? ==> forall d | d in ds :: t !in DialogOf(s, d).outTrs
  {
    if ds == [] then None
    else if t in DialogOf(s, ds[0]).outTrs then Some(ds[0])
    else OutHolder(s, ds[1..], t)
  }

  /** eXosip_remove_transaction_from_call: slots and lists in this order, one occurrence. */
  function RemovedFromCall(s: Store, t: Ptr, c: Ptr): Store {
    var call := CallOf(s, c);
    if call.incTr == Some(t) then SetCall(s, c, call.(incTr := None))
    else match IncHolder(s, call.dialogs, t)
      case Some(d) => SetDialog(s, d, DialogOf(s, d).(incTrs := Remove(DialogOf(s, d).incTrs, t)))
      case None =>
        if call.outTr == Some(t) then SetCall(s, c, call.(outTr := None))
        else match OutHolder(s, call.dialogs, t)
          case Some(d) => SetDialog(s, d, DialogOf(s, d).(outTrs := Remove(DialogOf(s, d).outTrs, t)))
          case None => s
  }

  // ----- freeing dialogs and calls -----

  /** Draining a list into the garbage list, one front element after the other. */
  function DrainedInto(l: seq<Ptr>, garbage: seq<Ptr>): (r: seq<Ptr>)
    ensures multiset(r) == multiset(l) + multiset(garbage)
  {
    if l == [] then garbage
    else
      assert l == [l[0]] + l[1..];
      DrainedInto(l[1..], [l[0]] + garbage)
  }

  /** __eXosip_delete_jinfo on some transactions. */
  function InfoDeleted(m: map<Ptr, Transaction>, ts: multiset<Ptr>): (r: map<Ptr, Transaction>)
    ensures r.Keys == m.Keys
  {
    map t | t in m :: if t in ts then m[t].(info := None) else m[t]
  }

  /** eXosip_dialog_free without the renumbering at its end. */
  function DialogFreed(s: Store, d: Ptr): Store {
    s.(garbage := DrainedInto(DialogOf(s, d).outTrs, DrainedInto(DialogOf(s, d).incTrs, s.garbage)),
       trAt := InfoDeleted(s.trAt, Own(s, d)),
       dialogAt := s.dialogAt - {d})
  }

  /** The jinfo of one of the call's own transactions, if it names d. */
  function RefDropped(m: map<Ptr, Transaction>, t: Option<Ptr>, d: Ptr): (r: map<Ptr, Transaction>)
    ensures r.Keys == m.Keys
  {
    if t.Some? && t.value in m && m[t.value].info.Some? && m[t.value].info.value.jd == Some(d) then
      m[t.value := m[t.value].(info := Some(m[t.value].info.value.(jd := None)))]
    else m
  }

  /** __eXosip_call_remove_dialog_reference_in_call */
  function RefsDropped(s: Store, c: Ptr, d: Ptr): Store {
    s.(trAt := RefDropped(RefDropped(s.trAt, CallOf(s, c).incTr, d), CallOf(s, c).outTr, d))
  }

  /** REMOVE_ELEMENT (jc->c_dialogs, jd) */
  function Unlinked(s: Store, c: Ptr, d: Ptr): Store {
    SetCall(s, c, CallOf(s, c).(dialogs := Remove(CallOf(s, c).dialogs, d)))
  }

  /** The three steps every dialog of a live call is removed by. */
  function DialogRemoved(s: Store, c: Ptr, d: Ptr): Store {
    Updated(DialogFreed(Unlinked(RefsDropped(s, c, d), c, d), d))
  }

  /** The loop of eXosip_call_free over the call's dialogs. */
  function DialogsDrained(s: Store, c: Ptr): (r: Store)
    decreases |CallOf(s, c).dialogs|
  {
    var ds := CallOf(s, c).dialogs;
    if ds == [] then s
    else
      assert Remove(ds, ds[0]) == ds[1..];
      DialogsDrained(Updated(DialogFreed(Unlinked(s, c, ds[0]), ds[0])), c)
  }

  function Fronted(t: Option<Ptr>, l: seq<Ptr>): (r: seq<Ptr>)
    ensures multiset(r) == Slot(t) + multiset(l)
  {
    if t.Some? then [t.value] + l else l
  }

  /** The end of eXosip_call_free: the two slots are filed without their jinfo, and the call is freed. */
  function SlotsFiled(s: Store, c: Ptr): Store {
    var call := CallOf(s, c);
    s.(garbage := Fronted(call.outTr, Fronted(call.incTr, s.garbage)),
       trAt := InfoDeleted(s.trAt, Slot(call.incTr) + Slot(call.outTr)),
       callAt := s.callAt - {c})
  }

  /** eXosip_call_free */
  function CallFreed(s: Store, c: Ptr): Store {
    SlotsFiled(DialogsDrained(s, c), c)
  }

  /** __eXosip_release_call */
  function CallReleased(s: Store, c: Ptr): Store {
    CallFreed(s.(calls := Remove(s.calls, c)), c)
  }

  // ----- the release helpers -----

  datatype Checked = Checked(s: Store, yes: bool)

  predicate Older(s: Store, t: Ptr, seconds: int, now: int) {
    TrOf(s, t).birth + seconds < now
  }

  /** One of the six checks: unfinished and young is pending; unfinished and old may be moved to the garbage. */
  function Check(s: Store, t: Option<Ptr>, done: State, c: Ptr, now: int, expire: bool): Checked {
    if t.Some? && TrOf(s, t.value).state != done then
      if Older(s, t.value, 180, now) then Checked(if expire then Filed(RemovedFromCall(s, t.value, c), t.value) else s, false)
      else Checked(s, true)
    else Checked(s, false)
  }

  /** eXosip_pendingosip_transaction_exist */
  function Pending(s: Store, c: Ptr, d: Ptr, now: int): Checked {
    var r1 := Check(s, FindLastInc(s, d, "BYE"), NIST_TERMINATED, c, now, true);
    if r1.yes then r1 else
    var r2 := Check(r1.s, FindLastOut(r1.s, d, "BYE"), NICT_TERMINATED, c, now, true);
    if r2.yes then r2 else
    var r3 := Check(r2.s, FindLastIncInvite(r2.s, c, Some(d)), IST_TERMINATED, c, now, false);
    if r3.yes then r3 else
    var r4 := Check(r3.s, FindLastOutInvite(r3.s, c, Some(d)), ICT_TERMINATED, c, now, false);
    if r4.yes then r4 else
    var r5 := Check(r4.s, FindLastInc(r4.s, d, "REFER"), IST_TERMINATED, c, now, true);
    if r5.yes then r5 else
    Check(r5.s, FindLastOut(r5.s, d, "REFER"), NICT_TERMINATED, c, now, true)
  }

  /** Finished for 30 seconds, and not the INVITE to keep. */
  predicate Releasable(s: Store, t: Ptr, keep: Option<Ptr>, inviteDone: State, otherDone: State, now: int) {
    && Older(s, t, 30, now)
    && if EqualFold(TrOf(s, t).cseqMethod, "INVITE") then keep != Some(t) && TrOf(s, t).state == inviteDone
       else TrOf(s, t).state == otherDone
  }

  /** The first releasable position from pos on; |l| if there is none. */
  function FirstReleasable(s: Store, l: seq<Ptr>, pos: nat, keep: Option<Ptr>, inviteDone: State, otherDone: State, now: int): (k: nat)
    ensures k < |l| ==> pos <= k
    decreases |l| - pos
  {
    if pos >= |l| then |l|
    else if Releasable(s, l[pos], keep, inviteDone, otherDone, now) then pos
    else FirstReleasable(s, l, pos + 1, keep, inviteDone, otherDone, now)
  }

  function IncReleased(s: Store, c: Ptr, d: Ptr, now: int): Checked {
    var l := DialogOf(s, d).incTrs;
    var k := FirstReleasable(s, l, 1, FindLastIncInvite(s, c, Some(d)), IST_TERMINATED, NIST_TERMINATED, now);
    if k < |l| then Checked(Filed(SetDialog(s, d, DialogOf(s, d).(incTrs := Without(l, k))), l[k]), true)
    else Checked(s, false)
  }

  function OutReleased(s: Store, c: Ptr, d: Ptr, now: int): Checked {
    var l := DialogOf(s, d).outTrs;
    var k := FirstReleasable(s, l, 1, FindLastOutInvite(s, c, Some(d)), ICT_TERMINATED, NICT_TERMINATED, now);
    if k < |l| then Checked(Filed(SetDialog(s, d, DialogOf(s, d).(outTrs := Without(l, k))), l[k]), true)
    else Checked(s, false)
  }

  /** eXosip_release_finished_transactions: at most one incoming and one outgoing transaction a pass. */
  function FinishedTransactions(s: Store, c: Ptr, d: Ptr, now: int): Checked {
    var r1 := IncReleased(s, c, d, now);
    var r2 := OutReleased(r1.s, c, d, now);
    Checked(r2.s, r1.yes || r2.yes)
  }

  /** eXosip_release_finished_calls: a terminated BYE ends its dialog. */
  function FinishedCalls(s: Store, c: Ptr, d: Ptr): Checked {
    var inc := FindLastInc(s, d, "BYE");
    var t := if inc.None? then FindLastOut(s, d, "BYE") else inc;
    if t.Some? && (TrOf(s, t.value).state == NIST_TERMINATED || TrOf(s, t.value).state == NICT_TERMINATED) then
      Checked(DialogRemoved(s, c, d), true)
    else Checked(s, false)
  }

  predicate Failed(response: Option<int>) {
    response.Some? && 300 <= response.value <= 699
  }

  /** Whether a finished initial INVITE ends its call: a failure answer, or for our own one no answer at all. */
  predicate InviteFailed(s: Store, c: Ptr, t: Ptr) {
    Failed(TrOf(s, t).response) || (CallOf(s, c).incTr != Some(t) && TrOf(s, t).response.None?)
  }

  /** eXosip_release_aborted_calls */
  function AbortedCalls(s: Store, c: Ptr, d: Ptr, now: int): Checked {
    var call := CallOf(s, c);
    var t := if call.incTr.Some? then call.incTr else call.outTr;
    if t.None? then Checked(DialogRemoved(s, c, d), true)
    else
      var state := TrOf(s, t.value).state;
      if state != IST_TERMINATED && state != ICT_TERMINATED then
        if Older(s, t.value, 180, now) then Checked(DialogRemoved(s, c, d), true) else Checked(s, false)
      else if InviteFailed(s, c, t.value) then Checked(CallReleased(s, c), true)
      else Checked(s, false)
  }

  /** What the first loop does with one dialog; `yes` tells it to leave the call. */
  function DialogVisited(s: Store, c: Ptr, d: Ptr, now: int): Checked {
    var p := Pending(s, c, d, now);
    if p.yes then Checked(p.s, false) else
    var f := FinishedTransactions(p.s, c, d, now);
    if f.yes then Checked(f.s, false) else
    var g := FinishedCalls(f.s, c, d);
    if g.yes then Checked(g.s, false) else
    var a := AbortedCalls(g.s, c, d, now);
    if a.yes then a
    else if DialogOf(a.s, d).id == -1 then Checked(DialogRemoved(a.s, c, d), false)
    else Checked(a.s, false)
  }

  function DialogsVisited(s: Store, c: Ptr, ds: seq<Ptr>, now: int): Store
    decreases |ds|
  {
    if ds == [] then s
    else
      var r := DialogVisited(s, c, ds[0], now);
      if r.yes then r.s else DialogsVisited(r.s, c, ds[1..], now)
  }

  function CallsVisited(s: Store, cs: seq<Ptr>, now: int): Store
    decreases |cs|
  {
    if cs == [] then s else CallsVisited(DialogsVisited(s, cs[0], CallOf(s, cs[0]).dialogs, now), cs[1..], now)
  }

  /** Whether the second loop releases a call: it has no dialog, and nothing it should wait for. */
  predicate Abandoned(s: Store, c: Ptr, now: int) {
    var call := CallOf(s, c);
    && call.dialogs == []
    && if call.incTr.Some? && TrOf(s, call.incTr.value).state != IST_TERMINATED && Older(s, call.incTr.value, 180, now) then true
       else if call.outTr.Some? && TrOf(s, call.outTr.value).state != ICT_TERMINATED && Older(s, call.outTr.value, 180, now) then true
       else if call.incTr.Some? && TrOf(s, call.incTr.value).state != IST_TERMINATED then false
       else if call.outTr.Some? && TrOf(s, call.outTr.value).state != ICT_TERMINATED then false
       else !(call.outTr.Some? && TrOf(s, call.outTr.value).completed + 10 > now)
  }

  function AbandonedReleased(s: Store, cs: seq<Ptr>, now: int): Store
    decreases |cs|
  {
    if cs == [] then s
    else AbandonedReleased(if Abandoned(s, cs[0], now) then CallReleased(s, cs[0]) else s, cs[1..], now)
  }

  /** What the last loop frees: anything terminated, and anything older than 180 seconds. */
  predicate Expendable(s: Store, t: Ptr, now: int) {
    || TrOf(s, t).state in {IST_TERMINATED, ICT_TERMINATED, NICT_TERMINATED, NIST_TERMINATED}
    || Older(s, t, 180, now)
  }

  function Kept(s: Store, l: seq<Ptr>, now: int): seq<Ptr> {
    if l == [] then []
    else if Expendable(s, l[0], now) then Kept(s, l[1..], now)
    else [l[0]] + Kept(s, l[1..], now)
  }

  function Swept(s: Store, now: int): Store {
    s.(garbage := Kept(s, s.garbage, now),
       trAt := map t | t in s.trAt && !(t in s.garbage && Expendable(s, t, now)) :: s.trAt[t])
  }

  /** The store after the two loops over the calls. */
  function Collected(s: Store, now: int): Store {
    var s1 := CallsVisited(s, s.calls, now);
    AbandonedReleased(s1, s1.calls, now)
  }

  /** eXosip_release_terminated_calls */
  function ReleasePass(s: Store, now: int): Store {
    Swept(Collected(s, now), now)
  }
}
