/**
 What the call API and the handlers of requests do, said without their branches: which request goes
 out, into which list, in which state, and what becomes of the dialog.
 */
module CallRequests {
  import opened Numerals
  import opened CallStore
  import opened CallOps
  import opened CallInvariants
  import opened CallRelease
  import opened CallHandlers
  import opened CallGrowth
  import opened CallLookups

  // ----- which dialog, and which transaction -----

  /** Dialog number k of call number i is the first one with the id. */
  ghost predicate FirstWithId(s: Store, id: int, i: nat, k: nat) {
    && i < |s.calls| && k < |CallOf(s, s.calls[i]).dialogs| && DialogOf(s, CallOf(s, s.calls[i]).dialogs[k]).id == id
    && (forall j | 0 <= j < k :: DialogOf(s, CallOf(s, s.calls[i]).dialogs[j]).id != id)
    && (forall h, d | 0 <= h < i && d in CallOf(s, s.calls[h]).dialogs :: DialogOf(s, d).id != id)
  }

  lemma {:induction false} WithIdFound(s: Store, ds: seq<Ptr>, id: int, k: nat)
    requires k < |ds| && DialogOf(s, ds[k]).id == id && forall j | 0 <= j < k :: DialogOf(s, ds[j]).id != id
    ensures DialogWithId(s, ds, id) == Some(ds[k])
  {
    if k > 0 {
      assert DialogOf(s, ds[0]).id != id;
      forall j | 0 <= j < k - 1 ensures DialogOf(s, ds[1..][j]).id != id {
        assert ds[1..][j] == ds[j + 1];
      }
      WithIdFound(s, ds[1..], id, k - 1);
    }
  }

  lemma {:induction false} WithIdMissed(s: Store, ds: seq<Ptr>, id: int)
    requires forall d | d in ds :: DialogOf(s, d).id != id
    ensures DialogWithId(s, ds, id) == None
  {
  }

  lemma {:induction false} DialogFound(s: Store, cs: seq<Ptr>, id: int, i: nat, k: nat)
    requires i < |cs| && k < |CallOf(s, cs[i]).dialogs| && DialogOf(s, CallOf(s, cs[i]).dialogs[k]).id == id
    requires forall j | 0 <= j < k :: DialogOf(s, CallOf(s, cs[i]).dialogs[j]).id != id
    requires forall h, d | 0 <= h < i && d in CallOf(s, cs[h]).dialogs :: DialogOf(s, d).id != id
    ensures CallDialogFind(s, cs, id) == Some(Place(cs[i], Some(CallOf(s, cs[i]).dialogs[k])))
  {
    if i == 0 {
      WithIdFound(s, CallOf(s, cs[0]).dialogs, id, k);
    } else {
      WithIdMissed(s, CallOf(s, cs[0]).dialogs, id);
      forall h, d | 0 <= h < i - 1 && d in CallOf(s, cs[1..][h]).dialogs ensures DialogOf(s, d).id != id {
        assert cs[1..][h] == cs[h + 1];
      }
      DialogFound(s, cs[1..], id, i - 1, k);
    }
  }

  lemma {:induction false} DialogMissed(s: Store, cs: seq<Ptr>, id: int)
    requires forall c, d | c in cs && d in CallOf(s, c).dialogs :: DialogOf(s, d).id != id
    ensures CallDialogFind(s, cs, id) == None
  {
    if cs != [] {
      WithIdMissed(s, CallOf(s, cs[0]).dialogs, id);
      DialogMissed(s, cs[1..], id);
    }
  }

  /** Methods are compared exactly where INVITEs are looked for, and without their case elsewhere. */
  predicate Is(s: Store, t: Ptr, m: string, exact: bool) {
    if exact then TrOf(s, t).cseqMethod == m else EqualFold(TrOf(s, t).cseqMethod, m)
  }

  /** x is the frontmost transaction of the list with the method. */
  ghost predicate Front(s: Store, l: seq<Ptr>, m: string, exact: bool, x: Ptr) {
    exists i :: 0 <= i < |l| && l[i] == x && Is(s, x, m, exact) && forall j | 0 <= j < i :: !Is(s, l[j], m, exact)
  }

  lemma {:induction false} FrontFound(s: Store, l: seq<Ptr>, m: string, exact: bool, x: Ptr)
    ensures FirstWith(s, l, m, exact) == Some(x) <==> Front(s, l, m, exact, x)
  {
    hide EqualFold;
    if l != [] {
      FrontFound(s, l[1..], m, exact, x);
      if Is(s, l[0], m, exact) {
        assert Front(s, l, m, exact, l[0]) by { assert l[0] == l[0]; }
      } else {
        FrontRest(s, l, m, exact, x);
      }
    }
  }

  lemma FrontRest(s: Store, l: seq<Ptr>, m: string, exact: bool, x: Ptr)
    requires l != [] && !Is(s, l[0], m, exact)
    ensures Front(s, l, m, exact, x) <==> Front(s, l[1..], m, exact, x)
  {
    hide Is;
    if Front(s, l, m, exact, x) {
      var i :| 0 <= i < |l| && l[i] == x && Is(s, x, m, exact) && forall j | 0 <= j < i :: !Is(s, l[j], m, exact);
      assert l[1..][i - 1] == x;
      assert Front(s, l[1..], m, exact, x);
    }
    if Front(s, l[1..], m, exact, x) {
      var i :| 0 <= i < |l[1..]| && l[1..][i] == x && Is(s, x, m, exact) && forall j | 0 <= j < i :: !Is(s, l[1..][j], m, exact);
      forall j | 0 <= j < i + 1 ensures !Is(s, l[j], m, exact) {
        assert j > 0 ==> l[j] == l[1..][j - 1];
      }
      assert l[i + 1] == x;
    }
  }

  lemma NoneFound(s: Store, l: seq<Ptr>, m: string, exact: bool)
    ensures FirstWith(s, l, m, exact) == None <==> forall t | t in l :: !Is(s, t, m, exact)
    ensures (forall t | t in l :: !Is(s, t, m, exact)) ==> forall x: Ptr :: !Front(s, l, m, exact, x)
  {
    hide EqualFold;
  }

  /** The last INVITE that came in, in the dialog, or else the call's own; and the last that went out. */
  ghost predicate LastIncInvite(s: Store, c: Ptr, d: Ptr, x: Ptr) {
    var l := DialogOf(s, d).incTrs;
    Front(s, l, "INVITE", true, x) || ((forall t | t in l :: !Is(s, t, "INVITE", true)) && CallOf(s, c).incTr == Some(x))
  }

  ghost predicate LastOutInvite(s: Store, c: Ptr, d: Ptr, x: Ptr) {
    var l := DialogOf(s, d).outTrs;
    Front(s, l, "INVITE", true, x) || ((forall t | t in l :: !Is(s, t, "INVITE", true)) && CallOf(s, c).outTr == Some(x))
  }

  lemma LastInvitesFound(s: Store, c: Ptr, d: Ptr, x: Ptr)
    ensures FindLastIncInvite(s, c, Some(d)) == Some(x) <==> LastIncInvite(s, c, d, x)
    ensures FindLastOutInvite(s, c, Some(d)) == Some(x) <==> LastOutInvite(s, c, d, x)
  {
    hide Front, Is;
    FrontFound(s, DialogOf(s, d).incTrs, "INVITE", true, x);
    FrontFound(s, DialogOf(s, d).outTrs, "INVITE", true, x);
    NoneFound(s, DialogOf(s, d).incTrs, "INVITE", true);
    NoneFound(s, DialogOf(s, d).outTrs, "INVITE", true);
  }

  // ----- eXosip_call_send_request -----

  /** x is the newest of the INVITEs of the dialog in either direction; of two from the same second, the outgoing one. */
  ghost predicate NewestInvite(s: Store, c: Ptr, d: Ptr, x: Ptr) {
    || (LastOutInvite(s, c, d, x) && forall y | LastIncInvite(s, c, d, y) :: TrOf(s, y).birth <= TrOf(s, x).birth)
    || (LastIncInvite(s, c, d, x) && forall y | LastOutInvite(s, c, d, y) :: TrOf(s, y).birth < TrOf(s, x).birth)
  }

  /**
   x is the newest transaction of the method in dialog d; of those from the same second, the one that
   went out, and the one that stands in front.
   */
  ghost predicate Newest(s: Store, d: Ptr, m: string, x: Ptr) {
    var inc, out := DialogOf(s, d).incTrs, DialogOf(s, d).outTrs;
    && (forall y | (y in inc || y in out) && Is(s, y, m, false) :: TrOf(s, y).birth <= TrOf(s, x).birth)
    && (|| Front(s, out, m, false, x)
        || (Front(s, inc, m, false, x) && forall y | y in out && Is(s, y, m, false) :: TrOf(s, y).birth < TrOf(s, x).birth))
  }

  /** The last request of the method in the dialog, whichever side sent it, is over; or there is none. */
  ghost predicate MaySend(s: Store, c: Ptr, d: Ptr, m: string) {
    if EqualFold(m, "INVITE") then
      forall x | NewestInvite(s, c, d, x) :: TrOf(s, x).state in {ICT_COMPLETED, ICT_TERMINATED, IST_CONFIRMED, IST_TERMINATED}
    else
      m == "" || forall x | Newest(s, d, m, x) :: TrOf(s, x).state in {NICT_COMPLETED, NICT_TERMINATED, NIST_COMPLETED, NIST_TERMINATED}
  }

  /** Transaction t has gone out in dialog d: it is new, in front of the others, and reports to the dialog. */
  ghost predicate GoesOut(s: Store, r: Store, c: Ptr, d: Ptr, t: Ptr, m: string, state: State, now: int) {
    && r.calls == s.calls && r.garbage == s.garbage && r.callAt == s.callAt && r.nextId == s.nextId
    && r.trAt == s.trAt[t := Transaction(m, state, now, 0, None, Some(JInfo(c, Some(d))))]
    && r.dialogAt == s.dialogAt[d := DialogOf(s, d).(outTrs := [t] + DialogOf(s, d).outTrs)]
  }

  lemma NewestInviteFound(s: Store, c: Ptr, d: Ptr, x: Ptr)
    ensures FindLastInvite(s, c, d) == Some(x) <==> NewestInvite(s, c, d, x)
  {
    hide LastIncInvite, LastOutInvite, FindLastIncInvite, FindLastOutInvite;
    forall y: Ptr ensures (FindLastIncInvite(s, c, Some(d)) == Some(y) <==> LastIncInvite(s, c, d, y))
      ensures FindLastOutInvite(s, c, Some(d)) == Some(y) <==> LastOutInvite(s, c, d, y)
    {
      LastInvitesFound(s, c, d, y);
    }
    var inc, out := FindLastIncInvite(s, c, Some(d)), FindLastOutInvite(s, c, Some(d));
    assert inc.Some? ==> LastIncInvite(s, c, d, inc.value);
    assert out.Some? ==> LastOutInvite(s, c, d, out.value);
  }

  /** In a sorted list the frontmost transaction of a method is a newest one. */
  lemma FrontIsNewest(s: Store, l: seq<Ptr>, m: string, x: Ptr)
    requires NewestFirst(s, l) && Front(s, l, m, false, x)
    ensures forall y | y in l && Is(s, y, m, false) :: TrOf(s, y).birth <= TrOf(s, x).birth
  {
    hide EqualFold;
    var i :| 0 <= i < |l| && l[i] == x && Is(s, x, m, false) && forall j | 0 <= j < i :: !Is(s, l[j], m, false);
    forall y | y in l && Is(s, y, m, false) ensures TrOf(s, y).birth <= TrOf(s, x).birth {
      var k :| 0 <= k < |l| && l[k] == y;
    }
  }

  lemma NewestFound(s: Store, d: Ptr, m: string, x: Ptr)
    requires DialogSorted(s, d) && m != ""
    ensures FindLast(s, d, m) == Some(x) <==> Newest(s, d, m, x)
  {
    hide Front, Is, NewestFirst, FirstWith;
    var a, b := DialogOf(s, d).incTrs, DialogOf(s, d).outTrs;
    var inc, out := FirstWith(s, a, m, false), FirstWith(s, b, m, false);
    forall y: Ptr ensures (inc == Some(y) <==> Front(s, a, m, false, y)) && (out == Some(y) <==> Front(s, b, m, false, y)) {
      FrontFound(s, a, m, false, y);
      FrontFound(s, b, m, false, y);
    }
    NoneFound(s, a, m, false);
    NoneFound(s, b, m, false);
    FoundNewest(s, a, m, inc);
    FoundNewest(s, b, m, out);
  }

  lemma FoundNewest(s: Store, l: seq<Ptr>, m: string, x: Option<Ptr>)
    requires NewestFirst(s, l) && (x.Some? ==> Front(s, l, m, false, x.value))
    ensures x.Some? ==> x.value in l && Is(s, x.value, m, false)
                        && forall y | y in l && Is(s, y, m, false) :: TrOf(s, y).birth <= TrOf(s, x.value).birth
  {
    hide Is;
    if x.Some? {
      FrontIsNewest(s, l, m, x.value);
    }
  }

  /**
   A request of method m goes out in the first dialog with the id exactly if the last one of the method
   there is over, or there is none; without such a dialog, or while the last one goes on, nothing at
   all changes.
   */
  lemma SendRequestExactly(s: Store, did: int, t: Ptr, m: string, now: int, i: nat, k: nat)
    requires Inv(s) && did > 0 && FirstWithId(s, did, i, k)
    ensures var c := s.calls[i]; var d := CallOf(s, c).dialogs[k]; var r := SendRequest(s, did, t, m, now);
      if MaySend(s, c, d, m) then GoesOut(s, r, c, d, t, m, if EqualFold(m, "INVITE") then ICT_PRE_CALLING else NICT_PRE_TRYING, now)
      else r == s
  {
    hide Inv, EqualFold, FindLast, FindLastInvite, CallDialogFind, Newest, NewestInvite, FirstWithId;
    var j := FirstIndex(s, did, i, k);
    var c := s.calls[j];
    var d := CallOf(s, c).dialogs[k];
    InvShape(s, c);
    forall x: Ptr ensures FindLastInvite(s, c, d) == Some(x) <==> NewestInvite(s, c, d, x) {
      NewestInviteFound(s, c, d, x);
    }
    if m != "" {
      forall x: Ptr ensures FindLast(s, d, m) == Some(x) <==> Newest(s, d, m, x) {
        NewestFound(s, d, m, x);
      }
    } else {
      NoMethod(s, d);
    }
  }

  lemma FirstIndex(s: Store, id: int, i: nat, k: nat) returns (j: nat)
    requires FirstWithId(s, id, i, k)
    ensures j == i < |s.calls| && k < |CallOf(s, s.calls[i]).dialogs|
    ensures CallDialogFind(s, s.calls, id) == Some(Place(s.calls[i], Some(CallOf(s, s.calls[i]).dialogs[k])))
  {
    DialogFound(s, s.calls, id, i, k);
    j := i;
  }

  lemma NoMethod(s: Store, d: Ptr)
    ensures FindLast(s, d, "") == None && !EqualFold("", "INVITE")
  {
  }

  lemma SendRequestNowhere(s: Store, did: int, t: Ptr, m: string, now: int)
    requires did <= 0 || forall c, d | c in s.calls && d in CallOf(s, c).dialogs :: DialogOf(s, d).id != did
    ensures SendRequest(s, did, t, m, now) == s
  {
    if did > 0 {
      DialogMissed(s, s.calls, did);
    }
  }

  // ----- PRACK, answers and the end of a call -----

  /** Call c holds t: in dialog d, or as its own, which stands for its first dialog. */
  ghost predicate HeldIn(s: Store, c: Ptr, d: Ptr, t: Ptr) {
    && c in s.calls
    && if InSlot(s, c, t) then CallOf(s, c).dialogs != [] && d == CallOf(s, c).dialogs[0]
       else d in CallOf(s, c).dialogs && Listed(s, d, t)
  }

  lemma HolderFound(s: Store, c: Ptr, d: Ptr, t: Ptr)
    requires Inv(s)
    ensures HeldIn(s, c, d, t) <==> TransactionFind(s, s.calls, t) == Some(Place(c, Some(d)))
  {
    hide CallHeld, CallsHeld, TransactionFind, Listed, InSlot, NamesOk, CallOk, Held, CallsOk;
    TransactionFindExactly(s, t);
    if HeldIn(s, c, d, t) {
      if InSlot(s, c, t) {
        InSlotHeld(s, c, t);
      } else {
        ListedHeld(s, c, d, t);
        var r := TransactionFind(s, s.calls, t);
        HeldByCalls(s, c, t);
        if r.value.d.value != d {
          ListedOnce(s, c, d, r.value.d.value, t);
          ListedOwn(s, d, t);
        }
      }
      HeldByCalls(s, c, t);
    }
  }

  /** A PRACK goes out exactly for an INVITE that is proceeding, within an established dialog. */
  lemma SendPrackExactly(s: Store, c: Ptr, d: Ptr, tid: Ptr, t: Ptr, now: int)
    requires Inv(s) && HeldIn(s, c, d, tid)
    ensures var r := SendPrack(s, tid, t, now);
      if DialogOf(s, d).established && EqualFold(TrOf(s, tid).cseqMethod, "INVITE") && TrOf(s, tid).state == ICT_PROCEEDING
      then GoesOut(s, r, c, d, t, "PRACK", NICT_PRE_TRYING, now) else r == s
  {
    hide Inv, TransactionFind, EqualFold, HeldIn;
    HolderFound(s, c, d, tid);
  }

  /** Nothing goes out, and no timer is set, for a transaction that no dialog stands for. */
  lemma NoHolder(s: Store, tid: Ptr, t: Ptr, status: int, answer: Option<int>, now: int)
    requires Inv(s) && forall c: Ptr, d: Ptr :: !HeldIn(s, c, d, tid)
    ensures SendPrack(s, tid, t, now) == s && SendAnswer(s, tid, status, answer, now) == s
  {
    hide Inv, TransactionFind, HeldIn;
    var p := TransactionFind(s, s.calls, tid);
    if p.Some? && p.value.d.Some? {
      HolderFound(s, p.value.c, p.value.d.value, tid);
    }
  }

  /** The dialog's 200 OK waits for its ACK. */
  function Awaiting(s: Store, d: Ptr, now: int): Store {
    s.(dialogAt := s.dialogAt[d := DialogOf(s, d).(timer := now + 2, count := 0, ok200 := true)])
  }

  /**
   An answer sets the timer of its dialog exactly if it is a 2xx, given as such and in its message, to
   an INVITE that has not been answered; and it changes nothing else but ids.
   */
  lemma SendAnswerExactly(s: Store, c: Ptr, d: Ptr, tid: Ptr, status: int, answer: Option<int>, now: int)
    requires Inv(s) && HeldIn(s, c, d, tid)
    ensures var r := SendAnswer(s, tid, status, answer, now);
      var succeeds := 200 <= status <= 299 && answer.Some? && 200 <= answer.value <= 299;
      var open := TrOf(s, tid).state !in {IST_COMPLETED, IST_CONFIRMED, IST_TERMINATED, NIST_COMPLETED, NIST_TERMINATED};
      && SameButIds(if succeeds && open && EqualFold(TrOf(s, tid).cseqMethod, "INVITE") then Awaiting(s, d, now) else s, r)
      && (answer.None? || !open ==> r == s)
  {
    hide Inv, TransactionFind, EqualFold, HeldIn, Updated;
    HolderFound(s, c, d, tid);
  }

  /** Its last answer was a 1xx. */
  predicate Rings(s: Store, t: Ptr) {
    TrOf(s, t).response.Some? && 100 <= TrOf(s, t).response.value <= 199
  }

  /** The last INVITE that went out in the dialog, or else the call's own, is still ringing. */
  ghost predicate OutRings(s: Store, c: Ptr, d: Ptr) {
    exists x: Ptr :: LastOutInvite(s, c, d, x) && Rings(s, x)
  }

  /** The dialog can be ended by a BYE: it is established, and is not one of a call that came in and has not been answered. */
  ghost predicate EndsByBye(s: Store, c: Ptr, d: Ptr, toTag: bool) {
    && DialogOf(s, d).established
    && (toTag || (exists x: Ptr :: LastOutInvite(s, c, d, x)) || forall x: Ptr | LastIncInvite(s, c, d, x) :: !Rings(s, x))
  }

  function CancelSent(s: Store, t: Ptr, now: int): Store {
    s.(garbage := [t] + s.garbage, trAt := s.trAt[t := Transaction("CANCEL", NICT_PRE_TRYING, now, 0, None, None)])
  }

  /** Dialog d is over, and has sent t if that is given. */
  function EndedBy(s: Store, d: Ptr, sent: seq<Ptr>): map<Ptr, Dialog> {
    s.dialogAt[d := DialogOf(s, d).(established := false, outTrs := sent + DialogOf(s, d).outTrs)]
  }

  function ByeSent(s: Store, c: Ptr, d: Ptr, t: Ptr, now: int): Store {
    s.(trAt := s.trAt[t := Transaction("BYE", NICT_PRE_TRYING, now, 0, None, Some(JInfo(c, Some(d))))],
       dialogAt := EndedBy(s, d, [t]))
  }

  lemma TerminatedIn(s: Store, c: Ptr, d: Ptr, t: Ptr, toTag: bool, now: int)
    ensures var r := TerminatedAt(s, c, Some(d), t, toTag, now);
      if OutRings(s, c, d) then SameButIds(CancelSent(s, t, now).(dialogAt := EndedBy(s, d, [])), r)
      else if EndsByBye(s, c, d, toTag) then
        SameButIds(ByeSent(s, c, d, t, now), r)
      else r == s
  {
    hide Updated, FindLastOutInvite, FindLastIncInvite, LastOutInvite, LastIncInvite, SameButIds;
    var out, inc := FindLastOutInvite(s, c, Some(d)), FindLastIncInvite(s, c, Some(d));
    forall x: Ptr ensures (out == Some(x) <==> LastOutInvite(s, c, d, x)) && (inc == Some(x) <==> LastIncInvite(s, c, d, x)) {
      LastInvitesFound(s, c, d, x);
    }
    ProvisionalIs(s, c, d, out, inc);
    assert [] + DialogOf(s, d).outTrs == DialogOf(s, d).outTrs;
    var s1 := RequestSent(s, c, d, t, "BYE", NICT_PRE_TRYING, now);
    assert SetDialog(s1, d, DialogOf(s1, d).(established := false)).dialogAt == EndedBy(s, d, [t]);
  }

  lemma ProvisionalIs(s: Store, c: Ptr, d: Ptr, out: Option<Ptr>, inc: Option<Ptr>)
    requires forall x: Ptr :: (out == Some(x) <==> LastOutInvite(s, c, d, x)) && (inc == Some(x) <==> LastIncInvite(s, c, d, x))
    ensures Provisional(s, out) == OutRings(s, c, d)
    ensures out.None? == (forall x: Ptr :: !LastOutInvite(s, c, d, x))
    ensures Provisional(s, inc) == !(forall x: Ptr | LastIncInvite(s, c, d, x) :: !Rings(s, x))
  {
    hide LastOutInvite, LastIncInvite;
    if out.Some? {
      assert LastOutInvite(s, c, d, out.value);
    }
    if inc.Some? {
      assert LastIncInvite(s, c, d, inc.value);
    }
  }

  /**
   Terminating by the id of a dialog: a CANCEL is sent while the INVITE that went out last rings, and
   a BYE if the dialog can be ended by one, and either ends the dialog; else nothing changes.
   */
  lemma TerminateExactly(s: Store, cid: int, did: int, t: Ptr, toTag: bool, now: int, i: nat, k: nat)
    requires did > 0 && FirstWithId(s, did, i, k)
    ensures var c := s.calls[i]; var d := CallOf(s, c).dialogs[k]; var r := Terminate(s, cid, did, t, toTag, now);
      if OutRings(s, c, d) then SameButIds(CancelSent(s, t, now).(dialogAt := EndedBy(s, d, [])), r)
      else if EndsByBye(s, c, d, toTag) then
        SameButIds(ByeSent(s, c, d, t, now), r)
      else r == s
  {
    hide TerminatedAt, OutRings, EndsByBye, FirstWithId, SameButIds, CallDialogFind;
    var j := FirstIndex(s, did, i, k);
    TerminatedIn(s, s.calls[j], CallOf(s, s.calls[j]).dialogs[k], t, toTag, now);
  }

  lemma {:induction false} CallFound(s: Store, cs: seq<Ptr>, id: int, i: nat)
    requires i < |cs| && CallOf(s, cs[i]).id == id && forall j | 0 <= j < i :: CallOf(s, cs[j]).id != id
    ensures CallFind(s, cs, id) == Some(Place(cs[i], None))
  {
    if i > 0 {
      assert forall j | 0 <= j < i - 1 :: cs[1..][j] == cs[j + 1];
      CallFound(s, cs[1..], id, i - 1);
    }
  }

  /** Terminating by the id of a call sends a CANCEL for its own INVITE exactly if that rings, and does nothing else. */
  lemma TerminateCallExactly(s: Store, cid: int, did: int, t: Ptr, toTag: bool, now: int, i: nat)
    requires did <= 0 && i < |s.calls| && CallOf(s, s.calls[i]).id == cid && forall j | 0 <= j < i :: CallOf(s, s.calls[j]).id != cid
    ensures var out := CallOf(s, s.calls[i]).outTr;
      Terminate(s, cid, did, t, toTag, now) == if out.Some? && Rings(s, out.value) then CancelSent(s, t, now) else s
  {
    CallFound(s, s.calls, cid, i);
  }

  // ----- new calls, new dialogs, retries -----

  /** A new call with its INVITE, in front of the others. */
  lemma InitialInviteExactly(s: Store, c: Ptr, t: Ptr, now: int)
    ensures SameButIds(s.(calls := [c] + s.calls, callAt := s.callAt[c := Call(0, None, Some(t), [])],
                          trAt := s.trAt[t := Transaction("INVITE", ICT_PRE_CALLING, now, 0, None, Some(JInfo(c, None)))]),
                       InitialInvite(s, c, t, now))
  {
    hide Updated;
    var s1 := CallAdded(WithTr(s, t, Born("INVITE", ICT_PRE_CALLING, now, Some(JInfo(c, None)))), c);
    var s2 := SetCall(s1, c, CallOf(s1, c).(outTr := Some(t)));
    assert SameButIds(s2, Updated(s2));
  }

  /** The first answer to the call's own INVITE puts a dialog in front of the others, and the INVITE names it from then on. */
  lemma DialogMadeExactly(s: Store, c: Ptr, d: Ptr, t: Ptr, now: int)
    requires CallOf(s, c).outTr == Some(t) && t in s.trAt
    ensures var r := DialogMade(s, c, d, now);
      if s.trAt[t].info == Some(JInfo(c, None)) then
        SameButIds(s.(callAt := s.callAt[c := CallOf(s, c).(dialogs := [d] + CallOf(s, c).dialogs)],
                      dialogAt := s.dialogAt[d := Dialog(0, true, -1, [], [], now, 0, false)],
                      trAt := s.trAt[t := s.trAt[t].(info := Some(JInfo(c, Some(d))))]), r)
      else r == s
  {
    hide Updated;
    var s1 := DialogAdded(s, c, d, NewDialog(-1, now));
    var s2 := Reporting(s1, t, JInfo(c, Some(d)));
    assert SameButIds(s2, Updated(s2));
  }

  /** Its answer sends it elsewhere, or asks for credentials. */
  predicate SentBack(s: Store, t: Ptr) {
    TrOf(s, t).response.Some? && (TrOf(s, t).response.value in {401, 407} || 300 <= TrOf(s, t).response.value < 400)
  }

  /** It has been answered, and is not two minutes old. */
  predicate Recent(s: Store, t: Ptr, now: int) {
    now < TrOf(s, t).birth + 120 && TrOf(s, t).state in {ICT_COMPLETED, ICT_TERMINATED, NICT_COMPLETED, NICT_TERMINATED}
  }

  /**
   A request is retried for dialog d exactly if it was sent back, and either the dialog stands for it, or
   it is recent and the dialog, which is established, has it in front of its own, or has none and it is
   the call's.
   */
  lemma RetriesExactly(s: Store, c: Ptr, d: Ptr, former: Ptr, now: int)
    requires Inv(s)
    ensures Retries(s, c, Some(d), former, now) <==>
      && SentBack(s, former)
      && (|| HeldIn(s, c, d, former)
          || (&& c in s.calls && d in CallOf(s, c).dialogs && DialogOf(s, d).established && Recent(s, former, now)
              && if DialogOf(s, d).outTrs == [] then CallOf(s, c).outTr == Some(former) else DialogOf(s, d).outTrs[0] == former))
  {
    hide Inv, TransactionFind, HeldIn;
    HolderFound(s, c, d, former);
  }

  /** Without a dialog: its call has none and holds it, or has no established one in front and sent it recently. */
  lemma RetriesAloneExactly(s: Store, c: Ptr, former: Ptr, now: int)
    requires Inv(s)
    ensures Retries(s, c, None, former, now) <==>
      && SentBack(s, former) && c in s.calls
      && (|| (CallOf(s, c).dialogs == [] && InSlot(s, c, former))
          || (&& (CallOf(s, c).dialogs == [] || !DialogOf(s, CallOf(s, c).dialogs[0]).established)
              && CallOf(s, c).outTr == Some(former) && Recent(s, former, now)))
  {
    hide Inv, TransactionFind;
    AloneFound(s, c, former);
  }

  lemma AloneFound(s: Store, c: Ptr, t: Ptr)
    requires Inv(s)
    ensures TransactionFind(s, s.calls, t) == Some(Place(c, None)) <==> c in s.calls && CallOf(s, c).dialogs == [] && InSlot(s, c, t)
  {
    hide CallHeld, CallsHeld, TransactionFind, Listed, NamesOk, CallOk, Held, CallsOk;
    TransactionFindExactly(s, t);
    if c in s.calls && InSlot(s, c, t) {
      InSlotHeld(s, c, t);
      HeldByCalls(s, c, t);
    }
  }

  /** The request that is sent again: new, of the same method, and reporting to the call, or to the dialog too. */
  function Again(s: Store, former: Ptr, now: int, info: JInfo): Transaction {
    var m := TrOf(s, former).cseqMethod;
    Transaction(m, if EqualFold(m, "INVITE") then ICT_PRE_CALLING else NICT_PRE_TRYING, now, 0, None, Some(info))
  }

  /**
   A retry of a request without an answer does nothing. One of the call's own puts the new request in
   its slot and the old one into the garbage list, and frees the dialog; one of another request puts
   the new one in front of the dialog's.
   */
  lemma RetriedExactly(s: Store, c: Ptr, d: Ptr, former: Ptr, t: Ptr, now: int)
    ensures var r := Retried(s, c, Some(d), former, t, now);
      if TrOf(s, former).response.None? then r == s
      else if CallOf(s, c).outTr == Some(former) then
        SameButIds(DialogFreed(Unlinked(TakenOver(s, c, former, t, now), c, d), d), r)
      else
        SameButIds(s.(trAt := s.trAt[t := Again(s, former, now, JInfo(c, Some(d)))],
                      dialogAt := s.dialogAt[d := DialogOf(s, d).(outTrs := [t] + DialogOf(s, d).outTrs)]), r)
  {
    hide Updated, DialogFreed, Unlinked, EqualFold, SameButIds;
    var s1 := DialogFreed(Unlinked(TakenOver(s, c, former, t, now), c, d), d);
    SameButIdsJoin(s1, Updated(s1), Updated(Updated(s1)));
  }

  /** Of a call without a dialog, its own request is replaced, and nothing else changes. */
  lemma RetriedAlone(s: Store, c: Ptr, former: Ptr, t: Ptr, now: int)
    ensures var r := Retried(s, c, None, former, t, now);
      if TrOf(s, former).response.Some? && CallOf(s, c).outTr == Some(former) then SameButIds(TakenOver(s, c, former, t, now), r) else r == s
  {
    hide Updated, EqualFold, SameButIds;
  }

  /** The new request has taken the place of the call's own. */
  function TakenOver(s: Store, c: Ptr, former: Ptr, t: Ptr, now: int): Store {
    s.(garbage := [former] + s.garbage, trAt := s.trAt[t := Again(s, former, now, JInfo(c, None))],
       callAt := s.callAt[c := CallOf(s, c).(outTr := Some(t))])
  }
}
