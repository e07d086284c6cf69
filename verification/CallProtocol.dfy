/** What the handlers mean for the protocol: CSeq order, ended dialogs, re-INVITEs, and what is released as finished. */
module CallProtocol {
  import opened Numerals
  import opened CallStore
  import opened CallOps
  import opened CallRelease
  import opened CallHandlers

  // ----- CSeq -----

  /** A dialog's remote CSeq is kept, or grows from what it was. */
  ghost predicate CseqKept(s: Store, r: Store, e: Ptr) {
    var was, became := DialogOf(s, e).remoteCseq, DialogOf(r, e).remoteCseq;
    became == was || was <= 0 || became > was
  }

  ghost predicate SameCseq(s: Store, r: Store, e: Ptr) {
    DialogOf(r, e).remoteCseq == DialogOf(s, e).remoteCseq
  }

  lemma UpdatedCseq(s: Store, e: Ptr)
    ensures SameCseq(s, Updated(s), e)
  {
    hide Updated;
    SameButIdsDialog(s, Updated(s), e);
  }

  lemma ClosedCseq(s: Store, d: Ptr, e: Ptr)
    ensures SameCseq(s, Closed(s, d), e)
  {
    hide Updated;
    UpdatedCseq(SetDialog(s, d, DialogOf(s, d).(established := false)), e);
  }

  lemma NewInviteCseq(s: Store, req: Request, t: Ptr, c: Ptr, d: Ptr, now: int, e: Ptr)
    requires e != d
    ensures SameCseq(s, NewInvite(s, req, t, c, d, now), e)
  {
    hide Updated;
    UpdatedCseq(s, e);
    var s1 := Reporting(DialogAdded(CallAdded(s, c), c, d, NewDialog(req.cseq, now)), t, JInfo(c, Some(d)));
    UpdatedCseq(s1, e);
  }

  lemma WithinDialogCseq(s: Store, req: Request, t: Ptr, c: Ptr, d: Ptr, e: Ptr)
    requires DialogOf(s, d).remoteCseq <= 0 || req.cseq > DialogOf(s, d).remoteCseq
    ensures CseqKept(s, WithinDialog(s, req, t, c, d), e)
  {
    hide Closed, FindLastInc, FindLastOut, FindLastIncInvite, FindLastOutInvite, Unfinished;
    ClosedCseq(IncListed(Reporting(s, t, JInfo(c, None)), d, t), d, e);
  }

  lemma OutsideCseq(s: Store, req: Request, t: Ptr, c: Ptr, d: Ptr, now: int, e: Ptr)
    requires e != d
    ensures SameCseq(s, OutsideDialogs(s, req, t, c, d, now), e)
  {
    hide NewInvite;
    NewInviteCseq(s, req, t, c, d, now, e);
  }

  lemma CancelledCseq(s: Store, req: Request, t: Ptr, e: Ptr)
    ensures SameCseq(s, Cancelled(s, req, t), e)
  {
    hide CancelTarget;
  }

  /** No request lowers the remote CSeq of a dialog, whatever numbers arrive in which order. */
  lemma RemoteCseqGrows(s: Store, req: Request, t: Ptr, c: Ptr, d: Ptr, now: int, e: Ptr)
    requires e != d
    ensures CseqKept(s, NewRequest(s, req, t, c, d, now), e)
  {
    hide WithinDialog, OutsideDialogs, Cancelled, MatchingPlace;
    var tr := Born(req.cseqMethod, if req.sipMethod == "INVITE" then IST_PRE_PROCEEDING else NIST_PRE_TRYING, now, None);
    var s1 := WithTr(s, t, tr);
    assert forall x :: DialogOf(s1, x) == DialogOf(s, x);
    CancelledCseq(s1, req, t, e);
    OutsideCseq(s1, req, t, c, d, now, e);
    var p := MatchingPlace(s, s.calls, req.matches);
    if p.Some? {
      var x := p.value.d.value;
      if DialogOf(s, x).remoteCseq <= 0 || req.cseq > DialogOf(s, x).remoteCseq {
        WithinDialogCseq(s1, req, t, p.value.c, x, e);
      }
    }
  }

  // ----- BYE and re-INVITE -----

  lemma {:induction false} ClosedNotMatching(s: Store, cs: seq<Ptr>, matches: set<Ptr>, d: Ptr)
    requires !DialogOf(s, d).established
    ensures MatchingPlace(s, cs, matches).Some? ==> MatchingPlace(s, cs, matches).value.d != Some(d)
  {
  }

  /** The first BYE of a dialog that is received is on record as the dialog's last, and closes it. */
  lemma ByeCloses(s: Store, req: Request, t: Ptr, c: Ptr, d: Ptr)
    requires req.sipMethod == "BYE" && FindLastInc(s, d, "BYE").None? && t in s.trAt && EqualFold(s.trAt[t].cseqMethod, "BYE")
    ensures var r := WithinDialog(s, req, t, c, d);
      FindLastInc(r, d, "BYE") == Some(t) && !DialogOf(r, d).established
  {
    hide Updated;
    var s1 := IncListed(Reporting(s, t, JInfo(c, None)), d, t);
    var s2 := SetDialog(s1, d, DialogOf(s1, d).(established := false));
    var r := Updated(s2);
    SameButIdsDialog(s2, r, d);
    assert r.trAt == s2.trAt;
    assert DialogOf(r, d).incTrs == [t] + DialogOf(s, d).incTrs;
  }

  /** Terminating an established call closes its dialog, and the BYE is the last one sent. */
  lemma TerminateCloses(s: Store, c: Ptr, d: Ptr, t: Ptr, toTag: bool, now: int)
    requires DialogOf(s, d).established && !Provisional(s, FindLastOutInvite(s, c, Some(d)))
    requires FindLastOutInvite(s, c, Some(d)).Some? || toTag || !Provisional(s, FindLastIncInvite(s, c, Some(d)))
    ensures var r := TerminatedAt(s, c, Some(d), t, toTag, now);
      FindLastOut(r, d, "BYE") == Some(t) && !DialogOf(r, d).established
  {
    hide Updated, FindLastOutInvite, FindLastIncInvite, Provisional;
    var s1 := RequestSent(s, c, d, t, "BYE", NICT_PRE_TRYING, now);
    var s2 := SetDialog(s1, d, DialogOf(s1, d).(established := false));
    var r := Updated(s2);
    SameButIdsDialog(s2, r, d);
    assert r.trAt == s2.trAt;
    assert DialogOf(r, d).outTrs == [t] + DialogOf(s, d).outTrs;
    assert EqualFold("BYE", "BYE");
  }

  /** No BYE was sent or received in the dialog, and its last INVITE in either direction is over. */
  predicate OpenForInvite(s: Store, c: Ptr, d: Ptr) {
    && FindLastInc(s, d, "BYE").None? && FindLastOut(s, d, "BYE").None?
    && !Unfinished(s, FindLastIncInvite(s, c, Some(d)), {IST_COMPLETED, IST_TERMINATED})
    && !Unfinished(s, FindLastOutInvite(s, c, Some(d)), {ICT_COMPLETED, ICT_TERMINATED})
  }

  /**
   A re-INVITE becomes the dialog's last incoming INVITE exactly if the dialog is open for one;
   otherwise it goes to the garbage list and the dialog keeps its CSeq.
   */
  lemma ReinviteIsLast(s: Store, req: Request, t: Ptr, c: Ptr, d: Ptr)
    requires req.sipMethod == "INVITE" && t in s.trAt && s.trAt[t].cseqMethod == "INVITE"
    requires t !in s.garbage && !Listed(s, d, t) && CallOf(s, c).incTr != Some(t)
    ensures var r := WithinDialog(s, req, t, c, d);
      && (OpenForInvite(s, c, d) <==> FindLastIncInvite(r, c, Some(d)) == Some(t))
      && (OpenForInvite(s, c, d) <==> t !in r.garbage)
      && DialogOf(r, d).remoteCseq == if OpenForInvite(s, c, d) then req.cseq else DialogOf(s, d).remoteCseq
  {
    hide FindLastInc, FindLastOut, FindLastOutInvite, Unfinished;
    var r := WithinDialog(s, req, t, c, d);
    assert t in Filed(s, t).garbage;
    FirstWithSame(s, Filed(s, t), DialogOf(s, d).incTrs, "INVITE", true);
    if OpenForInvite(s, c, d) {
      assert DialogOf(r, d).incTrs[0] == t;
    }
  }

  // ----- finished transactions -----

  lemma {:induction false} FirstWithWithout(s: Store, l: seq<Ptr>, k: nat, m: string, exact: bool)
    requires k < |l| && FirstWith(s, l, m, exact) != Some(l[k])
    ensures FirstWith(s, Without(l, k), m, exact) == FirstWith(s, l, m, exact)
  {
    if k == 0 {
      assert Without(l, 0) == l[1..];
    } else {
      assert Without(l, k)[0] == l[0] && Without(l, k)[1..] == Without(l[1..], k - 1);
      if !HasMethod(s, l[0], m, exact) {
        FirstWithWithout(s, l[1..], k - 1, m, exact);
      }
    }
  }

  lemma {:induction false} FirstWithSame(s: Store, r: Store, l: seq<Ptr>, m: string, exact: bool)
    requires r.trAt == s.trAt
    ensures FirstWith(r, l, m, exact) == FirstWith(s, l, m, exact)
  {
    if l != [] {
      FirstWithSame(s, r, l[1..], m, exact);
    }
  }

  /** Releasing finished transactions never takes the last INVITE of a dialog away, in either direction. */
  lemma LastInvitesKept(s: Store, c: Ptr, d: Ptr, now: int)
    ensures var r := FinishedTransactions(s, c, d, now).s;
      && FindLastIncInvite(r, c, Some(d)) == FindLastIncInvite(s, c, Some(d))
      && FindLastOutInvite(r, c, Some(d)) == FindLastOutInvite(s, c, Some(d))
  {
    hide IncReleased, OutReleased;
    IncReleaseKeeps(s, c, d, now);
    OutReleaseKeeps(IncReleased(s, c, d, now).s, c, d, now);
  }

  lemma FoldsInvite()
    ensures EqualFold("INVITE", "INVITE")
  {
  }

  lemma IncReleaseKeeps(s: Store, c: Ptr, d: Ptr, now: int)
    ensures var r := IncReleased(s, c, d, now).s;
      && FindLastIncInvite(r, c, Some(d)) == FindLastIncInvite(s, c, Some(d))
      && FindLastOutInvite(r, c, Some(d)) == FindLastOutInvite(s, c, Some(d))
  {
    hide FirstReleasable, EqualFold, Older;
    var l := DialogOf(s, d).incTrs;
    var keep := FindLastIncInvite(s, c, Some(d));
    var k := FirstReleasable(s, l, 1, keep, IST_TERMINATED, NIST_TERMINATED, now);
    if k < |l| {
      FoundReleasable(s, l, 1, keep, IST_TERMINATED, NIST_TERMINATED, now);
      FoldsInvite();
      var r := IncReleased(s, c, d, now).s;
      FirstWithWithout(s, l, k, "INVITE", true);
      FirstWithSame(s, r, Without(l, k), "INVITE", true);
      FirstWithSame(s, r, DialogOf(s, d).outTrs, "INVITE", true);
    }
  }

  lemma OutReleaseKeeps(s: Store, c: Ptr, d: Ptr, now: int)
    ensures var r := OutReleased(s, c, d, now).s;
      && FindLastIncInvite(r, c, Some(d)) == FindLastIncInvite(s, c, Some(d))
      && FindLastOutInvite(r, c, Some(d)) == FindLastOutInvite(s, c, Some(d))
  {
    hide FirstReleasable, EqualFold, Older;
    var l := DialogOf(s, d).outTrs;
    var keep := FindLastOutInvite(s, c, Some(d));
    var k := FirstReleasable(s, l, 1, keep, ICT_TERMINATED, NICT_TERMINATED, now);
    if k < |l| {
      FoundReleasable(s, l, 1, keep, ICT_TERMINATED, NICT_TERMINATED, now);
      FoldsInvite();
      var r := OutReleased(s, c, d, now).s;
      FirstWithWithout(s, l, k, "INVITE", true);
      FirstWithSame(s, r, Without(l, k), "INVITE", true);
      FirstWithSame(s, r, DialogOf(s, d).incTrs, "INVITE", true);
    }
  }

  lemma {:induction false} FoundReleasable(s: Store, l: seq<Ptr>, pos: nat, keep: Option<Ptr>, inviteDone: State, otherDone: State, now: int)
    ensures var k := FirstReleasable(s, l, pos, keep, inviteDone, otherDone, now);
      k < |l| ==> Releasable(s, l[k], keep, inviteDone, otherDone, now)
    decreases |l| - pos
  {
    hide Releasable;
    if pos < |l| && !Releasable(s, l[pos], keep, inviteDone, otherDone, now) {
      FoundReleasable(s, l, pos + 1, keep, inviteDone, otherDone, now);
    }
  }

  /** What leaves a dialog as finished is terminated and older than 30 seconds. */
  lemma LeavesOnlyWhenDone(s: Store, c: Ptr, d: Ptr, now: int, t: Ptr)
    requires Listed(s, d, t) && !Listed(FinishedTransactions(s, c, d, now).s, d, t)
    ensures Older(s, t, 30, now) && TrOf(s, t).state in {IST_TERMINATED, NIST_TERMINATED, ICT_TERMINATED, NICT_TERMINATED}
  {
    hide FirstReleasable, FindLastIncInvite, FindLastOutInvite, EqualFold, Older;
    var m := IncReleased(s, c, d, now).s;
    var l := DialogOf(s, d).incTrs;
    var keep := FindLastIncInvite(s, c, Some(d));
    var k := FirstReleasable(s, l, 1, keep, IST_TERMINATED, NIST_TERMINATED, now);
    FoundReleasable(s, l, 1, keep, IST_TERMINATED, NIST_TERMINATED, now);
    if k < |l| {
      WithoutKeeps(l, k, t);
    }
    var l' := DialogOf(m, d).outTrs;
    var keep' := FindLastOutInvite(m, c, Some(d));
    var k' := FirstReleasable(m, l', 1, keep', ICT_TERMINATED, NICT_TERMINATED, now);
    FoundReleasable(m, l', 1, keep', ICT_TERMINATED, NICT_TERMINATED, now);
    if k' < |l'| {
      WithoutKeeps(l', k', t);
      OlderSame(s, m, t, now);
    }
  }

  lemma WithoutKeeps(l: seq<Ptr>, k: nat, t: Ptr)
    requires k < |l|
    ensures t in l && t != l[k] ==> t in Without(l, k)
  {
    WithoutContents(l, k);
    assert t in l ==> t in multiset(Without(l, k)) + multiset{l[k]};
  }

  lemma OlderSame(s: Store, r: Store, t: Ptr, now: int)
    requires r.trAt == s.trAt
    ensures Older(r, t, 30, now) == Older(s, t, 30, now) && TrOf(r, t) == TrOf(s, t)
  {
  }
}
