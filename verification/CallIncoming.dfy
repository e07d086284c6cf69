/**
 What becomes of an incoming request (eXosip_process_newrequest), said without the branches of its
 handlers: the dialog it is for, the list it comes into, and what it changes there.
 */
module CallIncoming {
  import opened Numerals
  import opened CallStore
  import opened CallOps
  import opened CallHandlers
  import opened CallLookups
  import opened CallRequests

  // ----- the dialog a request is for -----

  /** Dialog d is established, and the request matches it. */
  predicate Matched(s: Store, req: Request, d: Ptr) {
    DialogOf(s, d).established && d in req.matches
  }

  /** Dialog number k of call number i is the first that matches. */
  ghost predicate FirstMatched(s: Store, req: Request, i: nat, k: nat) {
    && i < |s.calls| && k < |CallOf(s, s.calls[i]).dialogs| && Matched(s, req, CallOf(s, s.calls[i]).dialogs[k])
    && (forall j | 0 <= j < k :: !Matched(s, req, CallOf(s, s.calls[i]).dialogs[j]))
    && (forall h, e | 0 <= h < i && e in CallOf(s, s.calls[h]).dialogs :: !Matched(s, req, e))
  }

  ghost predicate NoneMatched(s: Store, req: Request) {
    forall b, e | b in s.calls && e in CallOf(s, b).dialogs :: !Matched(s, req, e)
  }

  lemma {:induction false} MatchFound(s: Store, req: Request, ds: seq<Ptr>, k: nat)
    requires k < |ds| && Matched(s, req, ds[k]) && forall j | 0 <= j < k :: !Matched(s, req, ds[j])
    ensures MatchingDialog(s, ds, req.matches) == Some(ds[k])
  {
    if k > 0 {
      assert !Matched(s, req, ds[0]);
      assert forall j | 0 <= j < k - 1 :: ds[1..][j] == ds[j + 1];
      MatchFound(s, req, ds[1..], k - 1);
    }
  }

  lemma {:induction false} MatchMissed(s: Store, req: Request, ds: seq<Ptr>)
    requires forall e | e in ds :: !Matched(s, req, e)
    ensures MatchingDialog(s, ds, req.matches) == None
  {
    if ds != [] {
      assert !Matched(s, req, ds[0]);
      MatchMissed(s, req, ds[1..]);
    }
  }

  lemma {:induction false} PlaceFound(s: Store, req: Request, cs: seq<Ptr>, i: nat, k: nat)
    requires i < |cs| && k < |CallOf(s, cs[i]).dialogs| && Matched(s, req, CallOf(s, cs[i]).dialogs[k])
    requires forall j | 0 <= j < k :: !Matched(s, req, CallOf(s, cs[i]).dialogs[j])
    requires forall h, e | 0 <= h < i && e in CallOf(s, cs[h]).dialogs :: !Matched(s, req, e)
    ensures MatchingPlace(s, cs, req.matches) == Some(Place(cs[i], Some(CallOf(s, cs[i]).dialogs[k])))
  {
    hide Matched;
    if i == 0 {
      MatchFound(s, req, CallOf(s, cs[0]).dialogs, k);
    } else {
      MatchMissed(s, req, CallOf(s, cs[0]).dialogs);
      assert forall h | 0 <= h < i - 1 :: cs[1..][h] == cs[h + 1];
      PlaceFound(s, req, cs[1..], i - 1, k);
    }
  }

  lemma {:induction false} PlaceMissed(s: Store, req: Request, cs: seq<Ptr>)
    requires forall b, e | b in cs && e in CallOf(s, b).dialogs :: !Matched(s, req, e)
    ensures MatchingPlace(s, cs, req.matches) == None
  {
    hide Matched;
    if cs != [] {
      MatchMissed(s, req, CallOf(s, cs[0]).dialogs);
      PlaceMissed(s, req, cs[1..]);
    }
  }

  // ----- what a request makes -----

  /** The transaction of a request. */
  function Arriving(req: Request, now: int, info: Option<JInfo>): Transaction {
    Transaction(req.cseqMethod, if req.sipMethod == "INVITE" then IST_PRE_PROCEEDING else NIST_PRE_TRYING, now, 0, None, info)
  }

  function Made(s: Store, req: Request, t: Ptr, now: int): Store {
    s.(trAt := s.trAt[t := Arriving(req, now, None)])
  }

  function FiledIn(s: Store, req: Request, t: Ptr, now: int): Store {
    Made(s, req, t, now).(garbage := [t] + s.garbage)
  }

  /** In front of the dialog's incoming transactions, and reporting to it. */
  function ListedIn(s: Store, req: Request, t: Ptr, c: Ptr, d: Ptr, now: int): Store {
    s.(trAt := s.trAt[t := Arriving(req, now, Some(JInfo(c, Some(d))))],
       dialogAt := s.dialogAt[d := DialogOf(s, d).(incTrs := [t] + DialogOf(s, d).incTrs)])
  }

  /** A transaction of the method in the list. */
  ghost predicate OnRecord(s: Store, l: seq<Ptr>, m: string) {
    exists x: Ptr :: x in l && EqualFold(TrOf(s, x).cseqMethod, m)
  }

  /** The last INVITEs of the dialog, or else the call's own, are over in both directions. */
  ghost predicate InvitesOver(s: Store, c: Ptr, d: Ptr) {
    && (forall x: Ptr | LastIncInvite(s, c, d, x) :: TrOf(s, x).state in {IST_COMPLETED, IST_TERMINATED})
    && (forall x: Ptr | LastOutInvite(s, c, d, x) :: TrOf(s, x).state in {ICT_COMPLETED, ICT_TERMINATED})
  }

  /** Is its CSeq number one that the dialog has seen already? */
  predicate Seen(s: Store, req: Request, d: Ptr) {
    DialogOf(s, d).remoteCseq > 0 && req.cseq <= DialogOf(s, d).remoteCseq
  }

  // ----- requests within a dialog -----

  lemma RecordFound(s: Store, s1: Store, l: seq<Ptr>, t: Ptr, tr: Transaction)
    requires s1.trAt == s.trAt[t := tr] && t !in l
    ensures FirstWith(s1, l, "BYE", false).Some? <==> OnRecord(s, l, "BYE")
  {
    hide EqualFold;
    var r := FirstWith(s1, l, "BYE", false);
    forall x: Ptr | x in l ensures TrOf(s1, x) == TrOf(s, x) && HasMethod(s1, x, "BYE", false) == EqualFold(TrOf(s, x).cseqMethod, "BYE") {
    }
    if r.Some? {
      assert EqualFold(TrOf(s, r.value).cseqMethod, "BYE");
    }
  }

  lemma {:induction false} FirstWithBorn(s: Store, s1: Store, l: seq<Ptr>, m: string, exact: bool, t: Ptr, tr: Transaction)
    requires s1.trAt == s.trAt[t := tr] && t !in l
    ensures FirstWith(s1, l, m, exact) == FirstWith(s, l, m, exact)
  {
    if l != [] {
      assert l == [l[0]] + l[1..];
      assert TrOf(s1, l[0]) == TrOf(s, l[0]);
      FirstWithBorn(s, s1, l[1..], m, exact, t, tr);
    }
  }

  /** t is new to the dialog, and to its call. */
  predicate Unknown(s: Store, c: Ptr, d: Ptr, t: Ptr) {
    !Listed(s, d, t) && !InSlot(s, c, t)
  }

  lemma InvitesOverIs(s: Store, s1: Store, c: Ptr, d: Ptr, t: Ptr, tr: Transaction)
    requires s1 == s.(trAt := s.trAt[t := tr]) && Unknown(s, c, d, t)
    ensures InvitesOver(s, c, d) ==
      (!Unfinished(s1, FindLastIncInvite(s1, c, Some(d)), {IST_COMPLETED, IST_TERMINATED})
       && !Unfinished(s1, FindLastOutInvite(s1, c, Some(d)), {ICT_COMPLETED, ICT_TERMINATED}))
  {
    hide LastIncInvite, LastOutInvite;
    FirstWithBorn(s, s1, DialogOf(s, d).incTrs, "INVITE", true, t, tr);
    FirstWithBorn(s, s1, DialogOf(s, d).outTrs, "INVITE", true, t, tr);
    var inc, out := FindLastIncInvite(s, c, Some(d)), FindLastOutInvite(s, c, Some(d));
    assert FindLastIncInvite(s1, c, Some(d)) == inc && FindLastOutInvite(s1, c, Some(d)) == out;
    assert inc.Some? ==> inc.value != t;
    assert out.Some? ==> out.value != t;
    hide FindLastIncInvite, FindLastOutInvite;
    forall x: Ptr ensures (inc == Some(x) <==> LastIncInvite(s, c, d, x)) && (out == Some(x) <==> LastOutInvite(s, c, d, x)) {
      LastInvitesFound(s, c, d, x);
    }
    assert inc.Some? ==> LastIncInvite(s, c, d, inc.value) && TrOf(s1, inc.value) == TrOf(s, inc.value);
    assert out.Some? ==> LastOutInvite(s, c, d, out.value) && TrOf(s1, out.value) == TrOf(s, out.value);
  }

  /** What a request within dialog d of call c does. */
  ghost predicate ComesIn(s: Store, r: Store, req: Request, t: Ptr, c: Ptr, d: Ptr, now: int) {
    var D := DialogOf(s, d);
    if req.sipMethod == "ACK" then
      r == s.(dialogAt := s.dialogAt[d := D.(count := 0, ok200 := false)])
    else if Seen(s, req, d) then
      r == if req.cseq == D.remoteCseq then s else Made(s, req, t, now)
    else if req.sipMethod == "BYE" then
      if OnRecord(s, D.incTrs, "BYE") then r == FiledIn(s, req, t, now)
      else
        SameButIds(s.(trAt := s.trAt[t := Arriving(req, now, Some(JInfo(c, None)))],
                      dialogAt := s.dialogAt[d := D.(incTrs := [t] + D.incTrs, established := false)]), r)
    else if OnRecord(s, D.incTrs, "BYE") || OnRecord(s, D.outTrs, "BYE") || req.sipMethod == "SUBSCRIBE" then r == FiledIn(s, req, t, now)
    else if req.sipMethod == "INVITE" then
      if InvitesOver(s, c, d) then
        r == s.(trAt := s.trAt[t := Arriving(req, now, Some(JInfo(c, Some(d))))],
                dialogAt := s.dialogAt[d := D.(incTrs := [t] + D.incTrs, remoteCseq := req.cseq)])
      else r == FiledIn(s, req, t, now)
    else r == ListedIn(s, req, t, c, d, now)
  }

  lemma WithinExactly(s: Store, req: Request, t: Ptr, c: Ptr, d: Ptr, now: int)
    requires Unknown(s, c, d, t) && req.sipMethod != "ACK" && !Seen(s, req, d)
    ensures ComesIn(s, WithinDialog(Made(s, req, t, now), req, t, c, d), req, t, c, d, now)
  {
    hide OnRecord, InvitesOver, Closed, IncListed, Reporting, FindLastIncInvite, FindLastOutInvite, SameButIds, Unfinished, FirstWith, FiledIn;
    FiledInIs(s, req, t, now);
    var s1 := Made(s, req, t, now);
    var tr := Arriving(req, now, None);
    RecordFound(s, s1, DialogOf(s, d).incTrs, t, tr);
    RecordFound(s, s1, DialogOf(s, d).outTrs, t, tr);
    InvitesOverIs(s, s1, c, d, t, tr);
    WithinBye(s, req, t, c, d, now);
    WithinInvite(s, req, t, c, d, now);
    WithinOther(s, req, t, c, d, now);
  }

  lemma FiledInIs(s: Store, req: Request, t: Ptr, now: int)
    ensures FiledIn(s, req, t, now) == Filed(Made(s, req, t, now), t)
  {
  }

  lemma WithinBye(s: Store, req: Request, t: Ptr, c: Ptr, d: Ptr, now: int)
    ensures SameButIds(s.(trAt := s.trAt[t := Arriving(req, now, Some(JInfo(c, None)))],
                          dialogAt := s.dialogAt[d := DialogOf(s, d).(incTrs := [t] + DialogOf(s, d).incTrs, established := false)]),
                       Closed(IncListed(Reporting(Made(s, req, t, now), t, JInfo(c, None)), d, t), d))
  {
    hide Updated, SameButIds;
    var s2 := IncListed(Reporting(Made(s, req, t, now), t, JInfo(c, None)), d, t);
    var s3 := SetDialog(s2, d, DialogOf(s2, d).(established := false));
    assert s3.dialogAt == s.dialogAt[d := DialogOf(s, d).(incTrs := [t] + DialogOf(s, d).incTrs, established := false)];
    assert s3.trAt == s.trAt[t := Arriving(req, now, Some(JInfo(c, None)))];
  }

  lemma WithinInvite(s: Store, req: Request, t: Ptr, c: Ptr, d: Ptr, now: int)
    ensures IncListed(Reporting(SetDialog(Made(s, req, t, now), d, DialogOf(s, d).(remoteCseq := req.cseq)), t, JInfo(c, Some(d))), d, t)
         == s.(trAt := s.trAt[t := Arriving(req, now, Some(JInfo(c, Some(d))))],
               dialogAt := s.dialogAt[d := DialogOf(s, d).(incTrs := [t] + DialogOf(s, d).incTrs, remoteCseq := req.cseq)])
  {
  }

  lemma WithinOther(s: Store, req: Request, t: Ptr, c: Ptr, d: Ptr, now: int)
    ensures IncListed(Reporting(Made(s, req, t, now), t, JInfo(c, Some(d))), d, t) == ListedIn(s, req, t, c, d, now)
  {
  }

  /**
   A request that matches an established dialog goes to the first one it matches. An ACK clears that
   one's timer. One with a number seen before is dropped, or answered with 500 without being listed. A
   BYE is listed unless one came in before, and ends the dialog. After a BYE in either direction all
   others are filed, like a SUBSCRIBE always. An INVITE is listed, and brings its number, if the last
   ones in both directions are over; all others are listed.
   */
  lemma RequestWithinExactly(s: Store, req: Request, t: Ptr, c: Ptr, d: Ptr, now: int, i: nat, k: nat)
    requires req.sipMethod != "CANCEL" && FirstMatched(s, req, i, k) && Unknown(s, s.calls[i], CallOf(s, s.calls[i]).dialogs[k], t)
    ensures ComesIn(s, NewRequest(s, req, t, c, d, now), req, t, s.calls[i], CallOf(s, s.calls[i]).dialogs[k], now)
  {
    hide WithinDialog, OutsideDialogs, Cancelled, OnRecord, InvitesOver, Unknown, SameButIds, MatchingPlace, Matched;
    var b := s.calls[i];
    var e := CallOf(s, b).dialogs[k];
    PlaceFound(s, req, s.calls, i, k);
    if req.sipMethod != "ACK" && !Seen(s, req, e) {
      WithinExactly(s, req, t, b, e, now);
    }
  }

  // ----- requests outside every dialog -----

  /**
   Of the requests that match no established dialog, an INVITE without a To tag makes a call with a
   dialog that has its CSeq number; a SUBSCRIBE and an INVITE with a To tag are listed nowhere; an ACK
   makes nothing; all others are filed.
   */
  lemma RequestOutsideExactly(s: Store, req: Request, t: Ptr, c: Ptr, d: Ptr, now: int)
    requires req.sipMethod != "CANCEL" && NoneMatched(s, req)
    ensures var r := NewRequest(s, req, t, c, d, now);
      if req.sipMethod == "ACK" then r == s
      else if req.sipMethod == "SUBSCRIBE" then r == Made(s, req, t, now)
      else if req.sipMethod != "INVITE" then r == FiledIn(s, req, t, now)
      else if req.toTag then SameButIds(Made(s, req, t, now), r)
      else
        SameButIds(s.(calls := [c] + s.calls, callAt := s.callAt[c := Call(0, Some(t), None, [d])],
                      dialogAt := s.dialogAt[d := Dialog(0, true, req.cseq, [], [], now, 0, false)],
                      trAt := s.trAt[t := Arriving(req, now, Some(JInfo(c, Some(d))))]), r)
  {
    hide Updated, MatchingPlace, Matched;
    PlaceMissed(s, req, s.calls);
    if req.sipMethod == "INVITE" && !req.toTag {
      NewInviteExactly(s, req, t, c, d, now);
    }
  }

  lemma NewInviteExactly(s: Store, req: Request, t: Ptr, c: Ptr, d: Ptr, now: int)
    requires req.sipMethod == "INVITE" && !req.toTag
    ensures SameButIds(s.(calls := [c] + s.calls, callAt := s.callAt[c := Call(0, Some(t), None, [d])],
                          dialogAt := s.dialogAt[d := Dialog(0, true, req.cseq, [], [], now, 0, false)],
                          trAt := s.trAt[t := Arriving(req, now, Some(JInfo(c, Some(d))))]),
                       NewInvite(Made(s, req, t, now), req, t, c, d, now))
  {
    hide Updated;
    var s1 := DialogAdded(CallAdded(Made(s, req, t, now), c), c, d, NewDialog(req.cseq, now));
    var s2 := Reporting(s1, t, JInfo(c, Some(d)));
    var s3 := Updated(s2);
    assert SameButIds(s2, s3);
    assert CallOf(s2, c) == Call(-1, None, None, [d]);
    assert s3.callAt[c].(id := 0) == Call(0, None, None, [d]);
  }

  // ----- CANCEL -----

  /** Call number i is the first whose own INVITE came in and is one the CANCEL matches. */
  predicate FirstCancelled(s: Store, req: Request, i: nat) {
    && i < |s.calls| && CancelsOwn(s, req, s.calls[i])
    && forall h | 0 <= h < i :: !CancelsOwn(s, req, s.calls[h])
  }

  predicate CancelsOwn(s: Store, req: Request, b: Ptr) {
    CallOf(s, b).incTr.Some? && CallOf(s, b).incTr.value in req.cancels
  }

  lemma {:induction false} TargetMissed(s: Store, req: Request, cs: seq<Ptr>, tr: Option<Ptr>)
    requires forall b | b in cs :: !CancelsOwn(s, req, b)
    ensures CancelTarget(s, cs, req.cancels, tr).d == None
    decreases |cs|
  {
    if cs != [] {
      assert !CancelsOwn(s, req, cs[0]);
      TargetMissed(s, req, cs[1..], LastScanned(s, CallOf(s, cs[0]).dialogs, req.cancels, None));
    }
  }

  /**
   A CANCEL is listed, reporting to nothing, in the first dialog of the first call whose own INVITE it
   matches, if that has one; otherwise it is filed, even if it matches a re-INVITE.
   */
  lemma CancelExactly(s: Store, req: Request, t: Ptr, c: Ptr, d: Ptr, now: int, i: nat)
    requires req.sipMethod == "CANCEL" && i <= |s.calls|
    requires if i < |s.calls| then FirstCancelled(s, req, i) else forall b | b in s.calls :: !CancelsOwn(s, req, b)
    ensures NewRequest(s, req, t, c, d, now) ==
      if i < |s.calls| && CallOf(s, s.calls[i]).dialogs != [] then
        var e := CallOf(s, s.calls[i]).dialogs[0];
        Made(s, req, t, now).(dialogAt := s.dialogAt[e := DialogOf(s, e).(incTrs := [t] + DialogOf(s, e).incTrs)])
      else FiledIn(s, req, t, now)
  {
    hide CancelTarget;
    var s1 := Made(s, req, t, now);
    assert forall b :: CancelsOwn(s1, req, b) == CancelsOwn(s, req, b);
    if i < |s.calls| {
      assert forall h | 0 <= h < i :: !CancelsOwn(s1, req, s1.calls[h]);
      CancelledInvite(s1, s1.calls, i, req.cancels, None);
    } else {
      TargetMissed(s1, req, s1.calls, None);
    }
  }
}
