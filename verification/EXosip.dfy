/**
 The global `eXosip` and its functions as they run: lists are walked by next pointers and by
 positions, fields are assigned one after the other, and structures are freed on the way. Every
 function is proved to do to the store what its specification function says, and every pointer that
 is followed to be allocated, but for three that the source follows unchecked: the INVITE of an ACK
 and the dialog of a retry, for which the methods say when they are NULL, and the 200 OK that is
 repeated, which is proved never to be.
 */
module EXosip {
  import opened Numerals
  import opened CallStore
  import opened CallOps
  import opened CallRelease
  import opened CallHandlers
  import opened CallTimes
  import opened CallRuns
  import opened CallFaults
  import opened Lost200
  import opened EXosipSteps

  class Exosip {
    var calls: seq<Ptr>
    var garbage: seq<Ptr>
    var callAt: map<Ptr, Call>
    var dialogAt: map<Ptr, Dialog>
    var trAt: map<Ptr, Transaction>
    var nextId: Counter

    function View(): Store
      reads this
    {
      Store(calls, garbage, callAt, dialogAt, trAt, nextId)
    }

    constructor ()
      ensures View() == Store([], [], map[], map[], map[], 1)
    {
      calls, garbage, callAt, dialogAt, trAt, nextId := [], [], map[], map[], map[], 1;
    }

    // ----- misc.c -----

    /** The position loop of the four searches. */
    method FindWith(l: seq<Ptr>, m: string, exact: bool) returns (r: Option<Ptr>)
      requires forall t | t in l :: t in trAt
      ensures r == FirstWith(View(), l, m, exact)
    {
      var pos := 0;
      while pos < |l|
        invariant 0 <= pos <= |l|
        invariant FirstWith(View(), l[pos..], m, exact) == FirstWith(View(), l, m, exact)
      {
        var found := if exact then trAt[l[pos]].cseqMethod == m else EqualFold(trAt[l[pos]].cseqMethod, m);
        if found {
          return Some(l[pos]);
        }
        pos := pos + 1;
      }
      return None;
    }

    method FindLastIncTransaction(jd: Ptr, m: string) returns (r: Option<Ptr>)
      requires Live(View(), jd)
      ensures r == FindLastInc(View(), jd, m)
    {
      if m == "" {
        return None;
      }
      r := FindWith(dialogAt[jd].incTrs, m, false);
    }

    method FindLastOutTransaction(jd: Ptr, m: string) returns (r: Option<Ptr>)
      requires Live(View(), jd)
      ensures r == FindLastOut(View(), jd, m)
    {
      if m == "" {
        return None;
      }
      r := FindWith(dialogAt[jd].outTrs, m, false);
    }

    method FindLastTransaction(jd: Ptr, m: string) returns (r: Option<Ptr>)
      requires Live(View(), jd)
      ensures r == FindLast(View(), jd, m)
    {
      var inc := FindLastIncTransaction(jd, m);
      var out := FindLastOutTransaction(jd, m);
      if inc.None? {
        return out;
      }
      if out.None? {
        return inc;
      }
      r := if trAt[inc.value].birth > trAt[out.value].birth then inc else out;
    }

    method FindLastIncomingInvite(jc: Ptr, jd: Option<Ptr>) returns (r: Option<Ptr>)
      requires jc in callAt && (jd.Some? ==> Live(View(), jd.value))
      ensures r == FindLastIncInvite(View(), jc, jd)
    {
      r := None;
      if jd.Some? {
        r := FindWith(dialogAt[jd.value].incTrs, "INVITE", true);
      }
      if r.None? {
        r := callAt[jc].incTr;
      }
    }

    method FindLastOutgoingInvite(jc: Ptr, jd: Option<Ptr>) returns (r: Option<Ptr>)
      requires jc in callAt && (jd.Some? ==> Live(View(), jd.value))
      ensures r == FindLastOutInvite(View(), jc, jd)
    {
      r := None;
      if jd.Some? {
        r := FindWith(dialogAt[jd.value].outTrs, "INVITE", true);
      }
      if r.None? {
        r := callAt[jc].outTr;
      }
    }

    /** The inner loop of eXosip_remove_transaction_from_call: the list without the first t, if it has one. */
    method Scan(l: seq<Ptr>, t: Ptr) returns (found: bool, rest: seq<Ptr>)
      ensures found <==> t in l
      ensures rest == Remove(l, t)
    {
      var pos := 0;
      while pos < |l|
        invariant 0 <= pos <= |l| && t !in l[..pos]
      {
        if l[pos] == t {
          RemoveAt(l, t, pos);
          return true, l[..pos] + l[pos + 1..];
        }
        pos := pos + 1;
      }
      RemoveContents(l, t);
      return false, l;
    }

    method RemoveTransactionFromCall(t: Ptr, jc: Ptr)
      requires jc in callAt && NoDup(callAt[jc].dialogs) && forall d | d in callAt[jc].dialogs :: d in dialogAt
      modifies this`callAt, this`dialogAt
      ensures View() == RemovedFromCall(old(View()), t, jc)
    {
      if callAt[jc].incTr == Some(t) {
        callAt := callAt[jc := callAt[jc].(incTr := None)];
        return;
      }
      var ds := callAt[jc].dialogs;
      var jd := First(ds);
      ghost var i := 0;
      while jd.Some?
        invariant i <= |ds| && jd == At(ds, i) && View() == old(View())
        invariant IncHolder(View(), ds[i..], t) == IncHolder(View(), ds, t)
        decreases |ds| - i
      {
        var found, rest := Scan(dialogAt[jd.value].incTrs, t);
        if found {
          dialogAt := dialogAt[jd.value := dialogAt[jd.value].(incTrs := rest)];
          return;
        }
        AfterAt(ds, i);
        jd := After(ds, jd.value);
        i := i + 1;
      }
      if callAt[jc].outTr == Some(t) {
        callAt := callAt[jc := callAt[jc].(outTr := None)];
        return;
      }
      jd := First(ds);
      i := 0;
      while jd.Some?
        invariant i <= |ds| && jd == At(ds, i) && View() == old(View())
        invariant OutHolder(View(), ds[i..], t) == OutHolder(View(), ds, t)
        decreases |ds| - i
      {
        var found, rest := Scan(dialogAt[jd.value].outTrs, t);
        if found {
          dialogAt := dialogAt[jd.value := dialogAt[jd.value].(outTrs := rest)];
          return;
        }
        AfterAt(ds, i);
        jd := After(ds, jd.value);
        i := i + 1;
      }
    }

    // ----- eXosip_update (eXosip.c) -----

    method NumberCall(jc: Ptr)
      requires jc in callAt
      modifies this`callAt, this`nextId
      ensures View() == CallNumbered(old(View()), jc)
    {
      if callAt[jc].id < 1 {
        callAt := callAt[jc := callAt[jc].(id := nextId)];
        nextId := nextId + 1;
      }
    }

    method NumberDialog(jd: Ptr)
      requires jd in dialogAt
      modifies this`dialogAt, this`nextId
      ensures View() == DialogNumbered(old(View()), jd)
    {
      if dialogAt[jd].established {
        if dialogAt[jd].id < 1 {
          dialogAt := dialogAt[jd := dialogAt[jd].(id := nextId)];
          nextId := nextId + 1;
        }
      } else {
        dialogAt := dialogAt[jd := dialogAt[jd].(id := -1)];
      }
    }

    /** The inner loop. */
    method NumberDialogs(ds: seq<Ptr>)
      requires NoDup(ds) && forall d | d in ds :: d in dialogAt
      modifies this`dialogAt, this`nextId
      ensures View() == DialogsNumbered(old(View()), ds)
    {
      hide DialogNumbered, SameButIds;
      var jd := First(ds);
      ghost var i := 0;
      while jd.Some?
        invariant i <= |ds| && jd == At(ds, i) && forall d | d in ds :: d in dialogAt
        invariant DialogsNumbered(View(), ds[i..]) == DialogsNumbered(old(View()), ds)
        decreases |ds| - i
      {
        ghost var before := View();
        NumberDialog(jd.value);
        NumberedKeys(before, jd.value);
        assert ds[i..][1..] == ds[i + 1..];
        AfterAt(ds, i);
        jd := After(ds, jd.value);
        i := i + 1;
      }
    }

    method Update()
      requires Linked(View())
      modifies this`callAt, this`dialogAt, this`nextId
      ensures View() == Updated(old(View()))
    {
      hide CallNumbered, DialogsNumbered, SameButIds, Linked, NoDup;
      if nextId > 100000 {
        nextId := 1;
      }
      ghost var start := View();
      RenumberedLinked(old(View()), start);
      var jc := First(calls);
      ghost var i := 0;
      while jc.Some?
        invariant i <= |calls| && jc == At(calls, i) && Linked(View()) && calls == old(calls)
        invariant CallsNumbered(View(), calls[i..]) == CallsNumbered(start, calls)
        decreases |calls| - i
      {
        ghost var before := View();
        LinkedAt(before, jc.value);
        NumberCall(jc.value);
        ghost var between := View();
        UpdatedLinked(before, between, jc.value);
        NumberDialogs(callAt[jc.value].dialogs);
        UpdatedLinked(between, View(), jc.value);
        assert calls[i..][1..] == calls[i + 1..];
        AfterAt(calls, i);
        jc := After(calls, jc.value);
        i := i + 1;
      }
    }

    // ----- jdialog.c and jcall.c: freeing -----

    /** The first loop of eXosip_dialog_free. */
    method DrainIncoming(jd: Ptr)
      requires Live(View(), jd)
      modifies this`garbage, this`trAt, this`dialogAt
      ensures View() == Draining(old(View()), jd, true, old(dialogAt[jd].incTrs), [])
    {
      hide Draining, Discarded, Listed;
      ghost var gone, rest: seq<Ptr> := [], dialogAt[jd].incTrs;
      LiveLists(View(), jd);
      DrainingStart(View(), jd, true);
      DrainingRest(View(), jd, true, gone, rest);
      while dialogAt[jd].incTrs != []
        invariant View() == Draining(old(View()), jd, true, gone, rest) && gone + rest == old(dialogAt[jd].incTrs)
        invariant jd in dialogAt && dialogAt[jd].incTrs == rest && trAt.Keys == old(trAt).Keys
        decreases |rest|
      {
        assert rest[0] in gone + rest;
        DrainingStep(old(View()), jd, true, gone, rest);
        DiscardIncoming(jd);
        gone, rest := gone + [rest[0]], rest[1..];
        DrainingRest(old(View()), jd, true, gone, rest);
      }
      assert gone == old(dialogAt[jd].incTrs);
    }

    /** One turn of the first loop: the first transaction leaves the list, and its jinfo is deleted. */
    method DiscardIncoming(jd: Ptr)
      requires jd in dialogAt && dialogAt[jd].incTrs != [] && dialogAt[jd].incTrs[0] in trAt
      modifies this`garbage, this`trAt, this`dialogAt
      ensures View() == Discarded(old(View()), jd, true)
    {
      var t := dialogAt[jd].incTrs[0];
      dialogAt := dialogAt[jd := dialogAt[jd].(incTrs := dialogAt[jd].incTrs[1..])];
      trAt := trAt[t := trAt[t].(info := None)];
      garbage := [t] + garbage;
    }

    /** The second loop of eXosip_dialog_free. */
    method DrainOutgoing(jd: Ptr)
      requires Live(View(), jd)
      modifies this`garbage, this`trAt, this`dialogAt
      ensures View() == Draining(old(View()), jd, false, old(dialogAt[jd].outTrs), [])
    {
      hide Draining, Discarded, Listed;
      ghost var gone, rest: seq<Ptr> := [], dialogAt[jd].outTrs;
      LiveLists(View(), jd);
      DrainingStart(View(), jd, false);
      DrainingRest(View(), jd, false, gone, rest);
      while dialogAt[jd].outTrs != []
        invariant View() == Draining(old(View()), jd, false, gone, rest) && gone + rest == old(dialogAt[jd].outTrs)
        invariant jd in dialogAt && dialogAt[jd].outTrs == rest && trAt.Keys == old(trAt).Keys
        decreases |rest|
      {
        assert rest[0] in gone + rest;
        DrainingStep(old(View()), jd, false, gone, rest);
        DiscardOutgoing(jd);
        gone, rest := gone + [rest[0]], rest[1..];
        DrainingRest(old(View()), jd, false, gone, rest);
      }
      assert gone == old(dialogAt[jd].outTrs);
    }

    /** One turn of the second loop: the first transaction leaves the list, and its jinfo is deleted. */
    method DiscardOutgoing(jd: Ptr)
      requires jd in dialogAt && dialogAt[jd].outTrs != [] && dialogAt[jd].outTrs[0] in trAt
      modifies this`garbage, this`trAt, this`dialogAt
      ensures View() == Discarded(old(View()), jd, false)
    {
      var t := dialogAt[jd].outTrs[0];
      dialogAt := dialogAt[jd := dialogAt[jd].(outTrs := dialogAt[jd].outTrs[1..])];
      trAt := trAt[t := trAt[t].(info := None)];
      garbage := [t] + garbage;
    }

    /** eXosip_dialog_free, of a dialog that no linked call has. */
    method DialogFree(jd: Ptr)
      requires Live(View(), jd) && Linked(View()) && forall c | c in calls :: jd !in callAt[c].dialogs
      modifies this
      ensures View() == Updated(DialogFreed(old(View()), jd))
    {
      hide Draining, DialogFreed, Linked, Updated, Listed;
      DrainedLive(View(), jd);
      DrainingRest(View(), jd, true, dialogAt[jd].incTrs, []);
      DrainIncoming(jd);
      DrainOutgoing(jd);
      DrainedFrees(old(View()), jd);
      dialogAt := dialogAt - {jd};
      FreedUnlinked(old(View()), jd);
      Update();
    }

    /** __eXosip_call_remove_dialog_reference_in_call */
    method RemoveDialogReference(jc: Ptr, jd: Ptr)
      requires jc in callAt && forall t | InSlot(View(), jc, t) :: t in trAt
      modifies this`trAt
      ensures View() == RefsDropped(old(View()), jc, jd)
    {
      var inc, out := callAt[jc].incTr, callAt[jc].outTr;
      if inc.Some? {
        assert InSlot(View(), jc, inc.value);
        var ji := trAt[inc.value].info;
        if ji.Some? && ji.value.jd == Some(jd) {
          trAt := trAt[inc.value := trAt[inc.value].(info := Some(ji.value.(jd := None)))];
        }
      }
      if out.Some? {
        assert InSlot(old(View()), jc, out.value);
        var ji := trAt[out.value].info;
        if ji.Some? && ji.value.jd == Some(jd) {
          trAt := trAt[out.value := trAt[out.value].(info := Some(ji.value.(jd := None)))];
        }
      }
    }

    /** The end of eXosip_call_free. */
    method FileSlots(jc: Ptr)
      requires jc in callAt && forall t | InSlot(View(), jc, t) :: t in trAt
      modifies this`trAt, this`garbage, this`callAt
      ensures View() == SlotsFiled(old(View()), jc)
    {
      var inc, out := callAt[jc].incTr, callAt[jc].outTr;
      ghost var gone := multiset{};
      InfoDeletedNone(trAt);
      if inc.Some? {
        assert InSlot(View(), jc, inc.value);
        InfoDeletedMore(old(trAt), gone, inc.value);
        trAt := trAt[inc.value := trAt[inc.value].(info := None)];
        gone := gone + multiset{inc.value};
      }
      if out.Some? {
        assert InSlot(old(View()), jc, out.value);
        InfoDeletedMore(old(trAt), gone, out.value);
        trAt := trAt[out.value := trAt[out.value].(info := None)];
        gone := gone + multiset{out.value};
      }
      assert gone == Slot(inc) + Slot(out);
      if inc.Some? {
        garbage := [inc.value] + garbage;
      }
      if out.Some? {
        garbage := [out.value] + garbage;
      }
      callAt := callAt - {jc};
    }

    /** eXosip_call_free, of a call taken out of the list of calls. */
    method CallFree(jc: Ptr)
      requires Detached(View(), jc)
      modifies this
      ensures View() == CallFreed(old(View()), jc)
    {
      hide Detached, DialogFreed, Updated, SlotsFiled, Live, Linked;
      DetachedCall(View(), jc);
      var jd := First(callAt[jc].dialogs);
      while jd.Some?
        invariant Detached(View(), jc) && jc in callAt && jd == First(callAt[jc].dialogs)
        invariant DialogsDrained(View(), jc) == DialogsDrained(old(View()), jc)
        decreases |CallOf(View(), jc).dialogs|
      {
        ghost var before := View();
        DetachedTurn(before, jc, jd.value);
        callAt := callAt[jc := callAt[jc].(dialogs := Remove(callAt[jc].dialogs, jd.value))];
        assert View() == Unlinked(before, jc, jd.value);
        assert Live(View(), jd.value) by { DetachedLive(before, jc, jd.value); }
        DialogFree(jd.value);
        DetachedCall(View(), jc);
        jd := First(callAt[jc].dialogs);
      }
      DetachedCall(View(), jc);
      FileSlots(jc);
    }

    // ----- the release pass (udp.c) -----

    /** One of the six checks of eXosip_pendingosip_transaction_exist. */
    method StillPending(tr: Option<Ptr>, done: State, jc: Ptr, now: int, expire: bool) returns (yes: bool)
      requires jc in callAt && NoDup(callAt[jc].dialogs) && forall d | d in callAt[jc].dialogs :: d in dialogAt
      requires tr.Some? ==> tr.value in trAt
      modifies this`callAt, this`dialogAt, this`garbage
      ensures Checked(View(), yes) == Check(old(View()), tr, done, jc, now, expire)
    {
      if tr.Some? && trAt[tr.value].state != done {
        if trAt[tr.value].birth + 180 < now {
          if expire {
            RemoveTransactionFromCall(tr.value, jc);
            garbage := [tr.value] + garbage;
          }
        } else {
          return true;
        }
      }
      return false;
    }

    method PendingIncoming(jc: Ptr, jd: Ptr, m: string, done: State, now: int) returns (yes: bool)
      requires Inv(View()) && jc in calls && jd in CallOf(View(), jc).dialogs
      modifies this`callAt, this`dialogAt, this`garbage
      ensures Checked(View(), yes) == Check(old(View()), FindLastInc(old(View()), jd, m), done, jc, now, true)
      ensures Inv(View()) && jc in calls && jd in CallOf(View(), jc).dialogs
    {
      hide Inv, Check, Live, Held, FindLastInc, Listed;
      InvLive(View(), jc, jd);
      FoundInLists(View(), jd, m);
      var tr := FindLastIncTransaction(jd, m);
      PendingLemma(View(), jc, jd, tr, done, now, true);
      yes := StillPending(tr, done, jc, now, true);
    }

    method PendingOutgoing(jc: Ptr, jd: Ptr, m: string, done: State, now: int) returns (yes: bool)
      requires Inv(View()) && jc in calls && jd in CallOf(View(), jc).dialogs
      modifies this`callAt, this`dialogAt, this`garbage
      ensures Checked(View(), yes) == Check(old(View()), FindLastOut(old(View()), jd, m), done, jc, now, true)
      ensures Inv(View()) && jc in calls && jd in CallOf(View(), jc).dialogs
    {
      hide Inv, Check, Live, Held, FindLastOut, Listed;
      InvLive(View(), jc, jd);
      FoundInLists(View(), jd, m);
      var tr := FindLastOutTransaction(jd, m);
      PendingLemma(View(), jc, jd, tr, done, now, true);
      yes := StillPending(tr, done, jc, now, true);
    }

    method PendingIncomingInvite(jc: Ptr, jd: Ptr, done: State, now: int) returns (yes: bool)
      requires Inv(View()) && jc in calls && jd in CallOf(View(), jc).dialogs
      modifies this`callAt, this`dialogAt, this`garbage
      ensures Checked(View(), yes) == Check(old(View()), FindLastIncInvite(old(View()), jc, Some(jd)), done, jc, now, false)
      ensures Inv(View()) && jc in calls && jd in CallOf(View(), jc).dialogs
    {
      hide Inv, Check, Live, Held, FindLastIncInvite, Listed;
      InvLive(View(), jc, jd);
      FoundInvite(View(), jc, jd);
      var tr := FindLastIncomingInvite(jc, Some(jd));
      PendingLemma(View(), jc, jd, tr, done, now, false);
      yes := StillPending(tr, done, jc, now, false);
    }

    method PendingOutgoingInvite(jc: Ptr, jd: Ptr, done: State, now: int) returns (yes: bool)
      requires Inv(View()) && jc in calls && jd in CallOf(View(), jc).dialogs
      modifies this`callAt, this`dialogAt, this`garbage
      ensures Checked(View(), yes) == Check(old(View()), FindLastOutInvite(old(View()), jc, Some(jd)), done, jc, now, false)
      ensures Inv(View()) && jc in calls && jd in CallOf(View(), jc).dialogs
    {
      hide Inv, Check, Live, Held, FindLastOutInvite, Listed;
      InvLive(View(), jc, jd);
      FoundInvite(View(), jc, jd);
      var tr := FindLastOutgoingInvite(jc, Some(jd));
      PendingLemma(View(), jc, jd, tr, done, now, false);
      yes := StillPending(tr, done, jc, now, false);
    }

    /** eXosip_pendingosip_transaction_exist */
    method PendingTransactionExist(jc: Ptr, jd: Ptr, now: int) returns (yes: bool)
      requires Inv(View()) && jc in calls && jd in CallOf(View(), jc).dialogs
      modifies this`callAt, this`dialogAt, this`garbage
      ensures Checked(View(), yes) == Pending(old(View()), jc, jd, now)
    {
      hide Inv, Check, Held, FindLastInc, FindLastOut, FindLastIncInvite, FindLastOutInvite;
      yes := PendingIncoming(jc, jd, "BYE", NIST_TERMINATED, now);
      if yes { return; }
      yes := PendingOutgoing(jc, jd, "BYE", NICT_TERMINATED, now);
      if yes { return; }
      yes := PendingIncomingInvite(jc, jd, IST_TERMINATED, now);
      if yes { return; }
      yes := PendingOutgoingInvite(jc, jd, ICT_TERMINATED, now);
      if yes { return; }
      yes := PendingIncoming(jc, jd, "REFER", IST_TERMINATED, now);
      if yes { return; }
      yes := PendingOutgoing(jc, jd, "REFER", NICT_TERMINATED, now);
    }

    /** The first half of eXosip_release_finished_transactions. */
    method ReleaseIncoming(jc: Ptr, jd: Ptr, now: int) returns (yes: bool)
      requires jc in callAt && Live(View(), jd)
      modifies this`dialogAt, this`garbage
      ensures Checked(View(), yes) == IncReleased(old(View()), jc, jd, now)
    {
      hide FindLastIncInvite, Listed;
      LiveLists(View(), jd);
      var lastInvite := FindLastIncomingInvite(jc, Some(jd));
      var pos := 1;
      while pos < |dialogAt[jd].incTrs|
        invariant 1 <= pos && View() == old(View())
        invariant var l := DialogOf(View(), jd).incTrs;
          FirstReleasable(View(), l, pos, lastInvite, IST_TERMINATED, NIST_TERMINATED, now)
          == FirstReleasable(View(), l, 1, lastInvite, IST_TERMINATED, NIST_TERMINATED, now)
      {
        var t := dialogAt[jd].incTrs[pos];
        var done := if EqualFold(trAt[t].cseqMethod, "INVITE") then lastInvite != Some(t) && trAt[t].state == IST_TERMINATED
                    else trAt[t].state == NIST_TERMINATED;
        if done && trAt[t].birth + 30 < now {
          var l := dialogAt[jd].incTrs;
          dialogAt := dialogAt[jd := dialogAt[jd].(incTrs := l[..pos] + l[pos + 1..])];
          garbage := [t] + garbage;
          return true;
        }
        pos := pos + 1;
      }
      return false;
    }

    /** The second half. */
    method ReleaseOutgoing(jc: Ptr, jd: Ptr, now: int) returns (yes: bool)
      requires jc in callAt && Live(View(), jd)
      modifies this`dialogAt, this`garbage
      ensures Checked(View(), yes) == OutReleased(old(View()), jc, jd, now)
    {
      hide FindLastOutInvite, Listed;
      LiveLists(View(), jd);
      var lastInvite := FindLastOutgoingInvite(jc, Some(jd));
      var pos := 1;
      while pos < |dialogAt[jd].outTrs|
        invariant 1 <= pos && View() == old(View())
        invariant var l := DialogOf(View(), jd).outTrs;
          FirstReleasable(View(), l, pos, lastInvite, ICT_TERMINATED, NICT_TERMINATED, now)
          == FirstReleasable(View(), l, 1, lastInvite, ICT_TERMINATED, NICT_TERMINATED, now)
      {
        var t := dialogAt[jd].outTrs[pos];
        var done := if EqualFold(trAt[t].cseqMethod, "INVITE") then lastInvite != Some(t) && trAt[t].state == ICT_TERMINATED
                    else trAt[t].state == NICT_TERMINATED;
        if done && trAt[t].birth + 30 < now {
          var l := dialogAt[jd].outTrs;
          dialogAt := dialogAt[jd := dialogAt[jd].(outTrs := l[..pos] + l[pos + 1..])];
          garbage := [t] + garbage;
          return true;
        }
        pos := pos + 1;
      }
      return false;
    }

    method ReleaseFinishedTransactions(jc: Ptr, jd: Ptr, now: int) returns (yes: bool)
      requires Inv(View()) && jc in calls && jd in CallOf(View(), jc).dialogs
      modifies this`dialogAt, this`garbage
      ensures Checked(View(), yes) == FinishedTransactions(old(View()), jc, jd, now)
    {
      hide Inv, Held, Live, IncReleased, OutReleased;
      InvLive(View(), jc, jd);
      IncReleasedKeeps(View(), jc, jd, now);
      yes := ReleaseIncoming(jc, jd, now);
      InvLive(View(), jc, jd);
      var also := ReleaseOutgoing(jc, jd, now);
      yes := yes || also;
    }

    /** The three statements that remove a dialog from a call. */
    method RemoveDialog(jc: Ptr, jd: Ptr)
      requires Inv(View()) && jc in calls && jd in CallOf(View(), jc).dialogs
      modifies this
      ensures View() == DialogRemoved(old(View()), jc, jd)
    {
      hide Inv, RefsDropped, Unlinked, DialogFreed, Updated, Live, Linked;
      InvSlots(View(), jc);
      RemoveDialogReference(jc, jd);
      RefsDroppedInv(old(View()), jc, jd);
      callAt := callAt[jc := callAt[jc].(dialogs := Remove(callAt[jc].dialogs, jd))];
      UnlinkedIs(RefsDropped(old(View()), jc, jd), View(), jc, jd);
      UnlinkedReady(RefsDropped(old(View()), jc, jd), jc, jd);
      DialogFree(jd);
    }

    /** eXosip_release_finished_calls */
    method ReleaseFinishedCalls(jc: Ptr, jd: Ptr) returns (yes: bool)
      requires Inv(View()) && jc in calls && jd in CallOf(View(), jc).dialogs
      modifies this
      ensures Checked(View(), yes) == FinishedCalls(old(View()), jc, jd)
    {
      hide Inv, Live, DialogRemoved, FindLastInc, FindLastOut;
      InvLive(View(), jc, jd);
      FoundListed(View(), jd, "BYE");
      var tr := FindLastIncTransaction(jd, "BYE");
      if tr.None? {
        tr := FindLastOutTransaction(jd, "BYE");
      }
      if tr.Some? && (trAt[tr.value].state == NIST_TERMINATED || trAt[tr.value].state == NICT_TERMINATED) {
        RemoveDialog(jc, jd);
        return true;
      }
      return false;
    }

    /** __eXosip_release_call */
    method ReleaseCall(jc: Ptr)
      requires Inv(View()) && jc in calls
      modifies this
      ensures View() == CallReleased(old(View()), jc)
    {
      hide Inv, CallFreed, Detached;
      InvDetached(View(), jc);
      calls := Remove(calls, jc);
      CallFree(jc);
    }

    /** eXosip_release_aborted_calls */
    method ReleaseAbortedCalls(jc: Ptr, jd: Ptr, now: int) returns (yes: bool)
      requires Inv(View()) && jc in calls && jd in CallOf(View(), jc).dialogs
      modifies this
      ensures Checked(View(), yes) == AbortedCalls(old(View()), jc, jd, now)
    {
      hide Inv, DialogRemoved, CallReleased;
      InvSlots(View(), jc);
      var tr := callAt[jc].incTr;
      if tr.None? {
        tr := callAt[jc].outTr;
      }
      if tr.None? {
        RemoveDialog(jc, jd);
        return true;
      }
      assert InSlot(View(), jc, tr.value);
      var state := trAt[tr.value].state;
      if state != IST_TERMINATED && state != ICT_TERMINATED && trAt[tr.value].birth + 180 < now {
        RemoveDialog(jc, jd);
        return true;
      }
      if state == IST_TERMINATED || state == ICT_TERMINATED {
        var response := trAt[tr.value].response;
        if tr == callAt[jc].incTr {
          if response.Some? && 300 <= response.value <= 699 {
            ReleaseCall(jc);
            return true;
          }
        } else if response.None? || 300 <= response.value <= 699 {
          ReleaseCall(jc);
          return true;
        }
      }
      return false;
    }

    /** What eXosip_release_terminated_calls does with one dialog; `stop` sets the next pointer to NULL. */
    method VisitDialog(jc: Ptr, jd: Ptr, now: int) returns (stop: bool)
      requires Inv(View()) && jc in calls && jd in CallOf(View(), jc).dialogs
      modifies this
      ensures Checked(View(), stop) == DialogVisited(old(View()), jc, jd, now)
    {
      hide Inv, Held, Pending, FinishedTransactions, FinishedCalls, AbortedCalls, DialogRemoved, Live;
      PendingKeeps(View(), jc, jd, now);
      var yes := PendingTransactionExist(jc, jd, now);
      if yes { return false; }
      FinishedTransactionsKeeps(View(), jc, jd, now);
      yes := ReleaseFinishedTransactions(jc, jd, now);
      if yes { return false; }
      FinishedCallsKeeps(View(), jc, jd);
      yes := ReleaseFinishedCalls(jc, jd);
      if yes { return false; }
      AbortedCallsKeeps(View(), jc, jd, now);
      yes := ReleaseAbortedCalls(jc, jd, now);
      if yes { return true; }
      InvLive(View(), jc, jd);
      LiveIn(View(), jd);
      if dialogAt[jd].id == -1 {
        RemoveDialog(jc, jd);
      }
      return false;
    }

    /** The loop over the dialogs of a call, by next pointers read before each visit. */
    method VisitDialogs(jc: Ptr, now: int)
      requires Inv(View()) && jc in calls
      modifies this
      ensures View() == DialogsVisited(old(View()), jc, CallOf(old(View()), jc).dialogs, now)
    {
      hide Inv, DialogVisited, Held, Visited, After, NoDup;
      InvCall(View(), jc);
      ghost var start, rest, kept: seq<Ptr> := View(), callAt[jc].dialogs, [];
      var jd := First(callAt[jc].dialogs);
      while jd.Some?
        invariant jd == First(rest) && (rest != [] ==> Inv(View()) && jc in calls && CallOf(View(), jc).dialogs == kept + rest)
        invariant DialogsVisited(View(), jc, rest, now) == DialogsVisited(start, jc, CallOf(start, jc).dialogs, now)
        decreases |rest|
      {
        ghost var before := View();
        InvCall(before, jc);
        NextInSuffix(kept, rest);
        var jdnext := After(callAt[jc].dialogs, jd.value);
        DialogVisitedKeeps(before, jc, jd.value, now);
        var stop := VisitDialog(jc, jd.value, now);
        VisitedSuffix(before, Checked(View(), stop), jc, kept, rest);
        if stop {
          jdnext := None;
          rest := [];
        } else {
          kept, rest := kept + Stayed(before, View(), jc, rest[0]), rest[1..];
        }
        jd := jdnext;
      }
    }

    /** The first loop of eXosip_release_terminated_calls. */
    method VisitCalls(now: int)
      requires Inv(View())
      modifies this
      ensures View() == CallsVisited(old(View()), old(calls), now)
    {
      hide Inv, DialogsVisited, Held, After, NoDup, Remove, StillLinked;
      ghost var start, rest, kept: seq<Ptr> := View(), calls, [];
      var jc := First(calls);
      while jc.Some?
        invariant jc == First(rest) && Inv(View()) && calls == kept + rest
        invariant CallsVisited(View(), rest, now) == CallsVisited(start, start.calls, now)
        decreases |rest|
      {
        ghost var before := View();
        InvCall(before, jc.value);
        NextInSuffix(kept, rest);
        var jcnext := After(calls, jc.value);
        DialogsVisitedKeeps(before, jc.value, CallOf(before, jc.value).dialogs, now);
        VisitDialogs(jc.value, now);
        CallsSuffix(before, View(), kept, rest);
        kept, rest := kept + StillLinked(before, View(), rest[0]), rest[1..];
        jc := jcnext;
      }
    }

    /** The second loop: calls without a dialog, and with nothing to wait for. */
    method ReleaseAbandonedCalls(now: int)
      requires Inv(View())
      modifies this
      ensures View() == AbandonedReleased(old(View()), old(calls), now)
    {
      hide Inv, CallReleased, Held, After, NoDup, Remove, StillLinked, Abandoned;
      ghost var start, rest, kept: seq<Ptr> := View(), calls, [];
      var jc := First(calls);
      while jc.Some?
        invariant jc == First(rest) && Inv(View()) && calls == kept + rest
        invariant AbandonedReleased(View(), rest, now) == AbandonedReleased(start, start.calls, now)
        decreases |rest|
      {
        ghost var before := View();
        InvCall(before, jc.value);
        NextInSuffix(kept, rest);
        var jcnext := After(calls, jc.value);
        var abandoned := IsAbandoned(jc.value, now);
        CallReleasedKeeps(before, jc.value);
        if abandoned {
          ReleaseCall(jc.value);
        }
        CallsSuffix(before, View(), kept, rest);
        kept, rest := kept + StillLinked(before, View(), rest[0]), rest[1..];
        jc := jcnext;
      }
    }

    method IsAbandoned(jc: Ptr, now: int) returns (yes: bool)
      requires Inv(View()) && jc in calls
      ensures yes == Abandoned(View(), jc, now)
    {
      hide Inv;
      InvSlots(View(), jc);
      var inc, out := callAt[jc].incTr, callAt[jc].outTr;
      assert inc.Some? ==> InSlot(View(), jc, inc.value);
      assert out.Some? ==> InSlot(View(), jc, out.value);
      if callAt[jc].dialogs != [] {
        return false;
      }
      if inc.Some? && trAt[inc.value].state != IST_TERMINATED && trAt[inc.value].birth + 180 < now {
        return true;
      } else if out.Some? && trAt[out.value].state != ICT_TERMINATED && trAt[out.value].birth + 180 < now {
        return true;
      } else if inc.Some? && trAt[inc.value].state != IST_TERMINATED {
        return false;
      } else if out.Some? && trAt[out.value].state != ICT_TERMINATED {
        return false;
      } else if out.Some? && trAt[out.value].state == ICT_TERMINATED && trAt[out.value].completed + 10 > now {
        return false;
      }
      return true;
    }

    /** The last loop, over the positions of the garbage list. */
    method Sweep(now: int)
      requires Inv(View())
      modifies this`garbage, this`trAt
      ensures View() == Swept(old(View()), now)
    {
      hide Inv, Held, Expendable, Kept, Sweeping, NoDup;
      ghost var s, seen, rest: seq<Ptr> := View(), [], garbage;
      InvGarbage(s);
      SweepingStart(s, now);
      var pos := 0;
      while pos < |garbage|
        invariant seen + rest == s.garbage && pos == |Kept(s, seen, now)|
        invariant View() == Sweeping(s, seen, rest, now) && garbage == Kept(s, seen, now) + rest
        decreases |rest|
      {
        assert garbage[pos] == rest[0];
        SweepingStep(s, seen, rest, now);
        SweepingTr(s, seen, rest, now);
        var t := garbage[pos];
        if trAt[t].state in {IST_TERMINATED, ICT_TERMINATED, NICT_TERMINATED, NIST_TERMINATED} || trAt[t].birth + 180 < now {
          garbage := garbage[..pos] + garbage[pos + 1..];
          trAt := trAt - {t};
        } else {
          pos := pos + 1;
        }
        seen, rest := seen + [rest[0]], rest[1..];
      }
      assert seen == s.garbage;
      SweepingEnd(s, now);
    }

    method ReleaseTerminatedCalls(now: int)
      requires Inv(View())
      modifies this
      ensures View() == ReleasePass(old(View()), now)
      ensures Inv(View()) && Held(View()) <= Held(old(View()))
    {
      hide Inv, Held, CallsVisited, AbandonedReleased, Swept;
      assert NoDup(calls) by { InvNoDup(View()); }
      ReleasePassLess(View(), now);
      CallsVisitedKeeps(View(), calls, now);
      VisitCalls(now);
      assert NoDup(calls) by { InvNoDup(View()); }
      AbandonedReleasedKeeps(View(), calls, now);
      ReleaseAbandonedCalls(now);
      Sweep(now);
    }

    // ----- finding (jcall.c, jdialog.c, eXcall_api.c) -----

    method CallFind(id: int) returns (p: Option<Place>)
      requires Linked(View())
      ensures p == CallHandlers.CallFind(View(), calls, id)
    {
      hide After, NoDup, Linked;
      assert NoDup(calls) by { LinkedAt(View(), 0); }
      var jc := First(calls);
      ghost var i := 0;
      while jc.Some?
        invariant i <= |calls| && jc == At(calls, i)
        invariant CallHandlers.CallFind(View(), calls[i..], id) == CallHandlers.CallFind(View(), calls, id)
        decreases |calls| - i
      {
        LinkedAt(View(), jc.value);
        if callAt[jc.value].id == id {
          return Some(Place(jc.value, None));
        }
        AfterAt(calls, i);
        assert calls[i..][1..] == calls[i + 1..];
        jc := After(calls, jc.value);
        i := i + 1;
      }
      return None;
    }

    /** The inner loop of eXosip_call_dialog_find. */
    method FindDialogIn(jc: Ptr, id: int) returns (jd: Option<Ptr>)
      requires Linked(View()) && jc in calls
      ensures jd == DialogWithId(View(), CallOf(View(), jc).dialogs, id)
    {
      hide After, NoDup, Linked;
      LinkedAt(View(), jc);
      var ds := callAt[jc].dialogs;
      ghost var i := 0;
      jd := First(ds);
      while jd.Some?
        invariant i <= |ds| && jd == At(ds, i)
        invariant DialogWithId(View(), ds[i..], id) == DialogWithId(View(), ds, id)
        decreases |ds| - i
      {
        if dialogAt[jd.value].id == id {
          return jd;
        }
        AfterAt(ds, i);
        assert ds[i..][1..] == ds[i + 1..];
        jd := After(ds, jd.value);
        i := i + 1;
      }
    }

    method CallDialogFind(id: int) returns (p: Option<Place>)
      requires Linked(View())
      ensures p == CallHandlers.CallDialogFind(View(), calls, id)
    {
      hide DialogWithId, After, NoDup, Linked;
      assert NoDup(calls) by { LinkedAt(View(), 0); }
      var jc := First(calls);
      ghost var i := 0;
      while jc.Some?
        invariant i <= |calls| && jc == At(calls, i)
        invariant CallHandlers.CallDialogFind(View(), calls[i..], id) == CallHandlers.CallDialogFind(View(), calls, id)
        decreases |calls| - i
      {
        var jd := FindDialogIn(jc.value, id);
        if jd.Some? {
          return Some(Place(jc.value, jd));
        }
        AfterAt(calls, i);
        assert calls[i..][1..] == calls[i + 1..];
        jc := After(calls, jc.value);
        i := i + 1;
      }
      return None;
    }

    /** The inner loops of _eXosip_call_transaction_find, over dialogs and positions. */
    method FindListing(jc: Ptr, tid: Ptr) returns (jd: Option<Ptr>)
      requires Linked(View()) && jc in calls
      ensures jd == DialogListing(View(), CallOf(View(), jc).dialogs, tid)
    {
      hide After, NoDup, Linked;
      LinkedAt(View(), jc);
      var ds := callAt[jc].dialogs;
      ghost var i := 0;
      jd := First(ds);
      while jd.Some?
        invariant i <= |ds| && jd == At(ds, i)
        invariant DialogListing(View(), ds[i..], tid) == DialogListing(View(), ds, tid)
        decreases |ds| - i
      {
        var inc, _ := Scan(dialogAt[jd.value].incTrs, tid);
        if inc {
          return jd;
        }
        var out, _ := Scan(dialogAt[jd.value].outTrs, tid);
        if out {
          return jd;
        }
        AfterAt(ds, i);
        assert ds[i..][1..] == ds[i + 1..];
        jd := After(ds, jd.value);
        i := i + 1;
      }
    }

    method TransactionFind(tid: Ptr) returns (p: Option<Place>)
      requires Linked(View())
      ensures p == CallHandlers.TransactionFind(View(), calls, tid)
    {
      hide DialogListing, After, NoDup, Linked;
      assert NoDup(calls) by { LinkedAt(View(), 0); }
      var jc := First(calls);
      ghost var i := 0;
      while jc.Some?
        invariant i <= |calls| && jc == At(calls, i)
        invariant CallHandlers.TransactionFind(View(), calls[i..], tid) == CallHandlers.TransactionFind(View(), calls, tid)
        decreases |calls| - i
      {
        LinkedAt(View(), jc.value);
        if callAt[jc.value].incTr == Some(tid) {
          return Some(Place(jc.value, First(callAt[jc.value].dialogs)));
        }
        if callAt[jc.value].outTr == Some(tid) {
          return Some(Place(jc.value, First(callAt[jc.value].dialogs)));
        }
        var jd := FindListing(jc.value, tid);
        if jd.Some? {
          return Some(Place(jc.value, jd));
        }
        AfterAt(calls, i);
        assert calls[i..][1..] == calls[i + 1..];
        jc := After(calls, jc.value);
        i := i + 1;
      }
      return None;
    }

    // ----- the call API (eXcall_api.c) -----

    /** osip_dialog_free (jd->d_dialog); jd->d_dialog = NULL; eXosip_update () */
    method Close(jd: Ptr)
      requires Linked(View()) && jd in dialogAt
      modifies this`callAt, this`dialogAt, this`nextId
      ensures View() == Closed(old(View()), jd)
    {
      hide Linked, Updated;
      SetDialogLinked(View(), jd, dialogAt[jd].(established := false));
      dialogAt := dialogAt[jd := dialogAt[jd].(established := false)];
      Update();
    }

    method SendInitialInvite(jc: Ptr, t: Ptr, now: int) returns (id: int)
      requires Inv(View()) && jc !in callAt && t !in trAt
      modifies this
      ensures View() == InitialInvite(old(View()), jc, t, now) && id == CallOf(View(), jc).id
    {
      hide Inv, Linked, Updated, SameButIds;
      NewCallLinked(View(), jc, t, now);
      callAt := callAt[jc := Call(-1, None, None, [])];
      trAt := trAt[t := Born("INVITE", ICT_PRE_CALLING, now, Some(JInfo(jc, None)))];
      calls := [jc] + calls;
      callAt := callAt[jc := callAt[jc].(outTr := Some(t))];
      ghost var before := View();
      Update();
      UpdatedCalls(before, jc);
      id := callAt[jc].id;
    }

    /** eXosip_create_transaction within a dialog: the list first, then the jinfo. */
    method CreateTransaction(jc: Ptr, jd: Ptr, t: Ptr, m: string, state: State, now: int)
      requires jd in dialogAt
      modifies this`trAt, this`dialogAt
      ensures View() == RequestSent(old(View()), jc, jd, t, m, state, now)
    {
      trAt := trAt[t := Born(m, state, now, None)];
      dialogAt := dialogAt[jd := dialogAt[jd].(outTrs := [t] + dialogAt[jd].outTrs)];
      trAt := trAt[t := trAt[t].(info := Some(JInfo(jc, Some(jd))))];
      assert trAt == old(trAt)[t := Born(m, state, now, Some(JInfo(jc, Some(jd))))];
    }

    method FindLastInvite(jc: Ptr, jd: Ptr) returns (r: Option<Ptr>)
      requires Inv(View()) && jc in calls && jd in CallOf(View(), jc).dialogs
      ensures r == CallOps.FindLastInvite(View(), jc, jd) && (r.Some? ==> r.value in trAt)
    {
      hide Inv, Live, FindLastIncInvite, FindLastOutInvite;
      InvLive(View(), jc, jd);
      FoundInvite(View(), jc, jd);
      var inc := FindLastIncomingInvite(jc, Some(jd));
      var out := FindLastOutgoingInvite(jc, Some(jd));
      if inc.None? {
        return out;
      }
      if out.None? {
        return inc;
      }
      r := if trAt[inc.value].birth > trAt[out.value].birth then inc else out;
    }

    method SendRequest(did: int, t: Ptr, m: string, now: int)
      requires Inv(View())
      modifies this`trAt, this`dialogAt
      ensures View() == CallHandlers.SendRequest(old(View()), did, t, m, now)
    {
      hide Inv, Live, RequestSent, CallOps.FindLastInvite, FindLast, Linked, CallHandlers.CallDialogFind;
      assert Linked(View()) by { InvLinked(View()); }
      var p: Option<Place> := None;
      if did > 0 {
        p := CallDialogFind(did);
      }
      if p.None? {
        return;
      }
      var jc, jd := p.value.c, p.value.d.value;
      InvLive(View(), jc, jd);
      LiveIn(View(), jd);
      FoundLast(View(), jd, m);
      var last;
      if EqualFold(m, "INVITE") {
        last := FindLastInvite(jc, jd);
      } else {
        last := FindLastTransaction(jd, m);
      }
      if last.Some? && Busy(trAt[last.value].state, EqualFold(m, "INVITE")) {
        return;
      }
      CreateTransaction(jc, jd, t, m, if EqualFold(m, "INVITE") then ICT_PRE_CALLING else NICT_PRE_TRYING, now);
    }

    method SendPrack(tid: Ptr, t: Ptr, now: int)
      requires Inv(View())
      modifies this`trAt, this`dialogAt
      ensures View() == CallHandlers.SendPrack(old(View()), tid, t, now)
    {
      hide Inv, Live, RequestSent, Linked, CallHandlers.TransactionFind;
      assert Linked(View()) by { InvLinked(View()); }
      var p := TransactionFind(tid);
      if p.None? || p.value.d.None? {
        return;
      }
      var jc, jd := p.value.c, p.value.d.value;
      FoundPlace(View(), tid);
      if !dialogAt[jd].established {
        return;
      }
      if !EqualFold(trAt[tid].cseqMethod, "INVITE") || trAt[tid].state != ICT_PROCEEDING {
        return;
      }
      CreateTransaction(jc, jd, t, "PRACK", NICT_PRE_TRYING, now);
    }

    /** Without an answer message a default one is built for the INVITE and sent; the store stays as it is. */
    method SendAnswer(tid: Ptr, status: int, answer: Option<int>, now: int)
      requires Inv(View())
      modifies this`callAt, this`dialogAt, this`nextId
      ensures View() == CallHandlers.SendAnswer(old(View()), tid, status, answer, now)
    {
      hide Inv, Live, Updated, Linked, CallHandlers.TransactionFind;
      assert Linked(View()) by { InvLinked(View()); }
      var p := TransactionFind(tid);
      if p.None? || p.value.d.None? {
        return;
      }
      var jd := p.value.d.value;
      FoundPlace(View(), tid);
      if answer.None? && EqualFold(trAt[tid].cseqMethod, "INVITE") && 200 <= status <= 299 {
        return;
      }
      if trAt[tid].state in {IST_COMPLETED, IST_CONFIRMED, IST_TERMINATED, NIST_COMPLETED, NIST_TERMINATED} {
        return;
      }
      if answer.None? {
        return;
      }
      if EqualFold(trAt[tid].cseqMethod, "INVITE") && 200 <= answer.value <= 299 && 200 <= status < 300 {
        SetDialogLinked(View(), jd, Set200Ok(dialogAt[jd], now));
        dialogAt := dialogAt[jd := dialogAt[jd].(timer := now + 2, count := 0, ok200 := true)];
      }
      Update();
    }

    /** 1xx answered so far. */
    method IsProvisional(tr: Option<Ptr>) returns (yes: bool)
      requires tr.Some? ==> tr.value in trAt
      ensures yes == Provisional(View(), tr)
    {
      yes := tr.Some? && trAt[tr.value].response.Some? && 100 <= trAt[tr.value].response.value <= 199;
    }

    method Terminate(cid: int, did: int, t: Ptr, toTag: bool, now: int)
      requires Inv(View())
      modifies this
      ensures View() == CallHandlers.Terminate(old(View()), cid, did, t, toTag, now)
    {
      hide Inv, Linked, TerminatedAt, CallHandlers.CallFind, CallHandlers.CallDialogFind;
      assert Linked(View()) by { InvLinked(View()); }
      var p;
      if did > 0 {
        p := CallDialogFind(did);
      } else {
        p := CallFind(cid);
      }
      if p.Some? {
        TerminateAt(p.value.c, p.value.d, t, toTag, now);
      }
    }

    method TerminateAt(jc: Ptr, jd: Option<Ptr>, t: Ptr, toTag: bool, now: int)
      requires Inv(View()) && jc in calls && (jd.Some? ==> jd.value in CallOf(View(), jc).dialogs)
      modifies this
      ensures View() == TerminatedAt(old(View()), jc, jd, t, toTag, now)
    {
      hide Inv, Live, Linked, Closed, RequestSent, FindLastOutInvite, FindLastIncInvite, Provisional;
      assert Linked(View()) by { InvLinked(View()); }
      FoundInviteOf(View(), jc, jd);
      var out := FindLastOutgoingInvite(jc, jd);
      var provisional := IsProvisional(out);
      if provisional {
        trAt := trAt[t := Born("CANCEL", NICT_PRE_TRYING, now, None)];
        garbage := [t] + garbage;
        FiledLinked(old(View()), View());
        if jd.Some? {
          Close(jd.value);
        }
        return;
      }
      if jd.None? || !dialogAt[jd.value].established {
        return;
      }
      if out.None? {
        var inc := FindLastIncomingInvite(jc, jd);
        provisional := IsProvisional(inc);
        if provisional && !toTag {
          return;
        }
      }
      CreateTransaction(jc, jd.value, t, "BYE", NICT_PRE_TRYING, now);
      SentLinked(old(View()), jc, jd.value, t, "BYE", NICT_PRE_TRYING, now);
      Close(jd.value);
    }

    /** REMOVE_ELEMENT and eXosip_dialog_free, without the call's references being dropped. */
    method DropDialog(jc: Ptr, jd: Ptr)
      requires Inv(View()) && jc in calls && jd in CallOf(View(), jc).dialogs
      modifies this
      ensures View() == Updated(DialogFreed(Unlinked(old(View()), jc, jd), jd)) && Linked(View())
    {
      hide Inv, Live, Linked, Updated, DialogFreed, Unlinked;
      InvSlots(View(), jc);
      callAt := callAt[jc := callAt[jc].(dialogs := Remove(callAt[jc].dialogs, jd))];
      UnlinkedIs(old(View()), View(), jc, jd);
      UnlinkedReady(old(View()), jc, jd);
      DialogFree(jd);
      DroppedLinked(old(View()), jc, jd);
    }

    /** The new transaction takes the slot of the old one, which goes to the garbage list. */
    method SwapOutgoing(jc: Ptr, former: Ptr, t: Ptr, m: string, state: State, now: int)
      requires Inv(View()) && t !in trAt && jc in calls && CallOf(View(), jc).outTr == Some(former)
      modifies this`trAt, this`garbage, this`callAt
      ensures View() == Swapped(old(View()), jc, former, t, Born(m, state, now, Some(JInfo(jc, None))))
      ensures Inv(View()) && Linked(View()) && CallOf(View(), jc).dialogs == CallOf(old(View()), jc).dialogs
    {
      hide Inv, Linked;
      InvSlots(View(), jc);
      SwapReady(View(), jc, former, t, Born(m, state, now, Some(JInfo(jc, None))));
      trAt := trAt[t := Born(m, state, now, Some(JInfo(jc, None)))];
      garbage := [former] + garbage;
      callAt := callAt[jc := callAt[jc].(outTr := Some(t))];
    }

    /** _eXosip_call_retry_request. `faulted` says that the source lists the new transaction in a NULL dialog. */
    method RetryRequest(jc: Ptr, jd: Option<Ptr>, former: Ptr, t: Ptr, now: int) returns (faulted: bool)
      requires Inv(View()) && t !in trAt && jc in calls && (jd.Some? ==> jd.value in CallOf(View(), jc).dialogs) && former in trAt
      modifies this
      ensures View() == Retried(old(View()), jc, jd, former, t, now)
      ensures faulted == RetryFaults(old(View()), jc, jd, former)
    {
      hide Inv, Live, Linked, Updated, RequestSent, DialogFreed, Unlinked;
      assert Linked(View()) by { InvLinked(View()); }
      InvSlots(View(), jc);
      var m := trAt[former].cseqMethod;
      var state := if EqualFold(m, "INVITE") then ICT_PRE_CALLING else NICT_PRE_TRYING;
      faulted := false;
      if trAt[former].response.None? {
        return;
      }
      faulted := callAt[jc].outTr != Some(former) && jd.None?;
      if callAt[jc].outTr == Some(former) {
        SwapOutgoing(jc, former, t, m, state, now);
        if jd.Some? {
          DropDialog(jc, jd.value);
        }
        Update();
      } else if jd.Some? {
        InvLive(View(), jc, jd.value);
        LiveIn(View(), jd.value);
        CreateTransaction(jc, jd.value, t, m, state, now);
        SentLinked(old(View()), jc, jd.value, t, m, state, now);
        Update();
      }
    }

    // ----- incoming requests (udp.c) -----

    /** The inner loop of the search for a matching dialog. */
    method MatchDialogIn(jc: Ptr, matches: set<Ptr>) returns (jd: Option<Ptr>)
      requires Linked(View()) && jc in calls
      ensures jd == MatchingDialog(View(), CallOf(View(), jc).dialogs, matches)
    {
      hide After, NoDup, Linked;
      LinkedAt(View(), jc);
      var ds := callAt[jc].dialogs;
      ghost var i := 0;
      jd := First(ds);
      while jd.Some?
        invariant i <= |ds| && jd == At(ds, i)
        invariant MatchingDialog(View(), ds[i..], matches) == MatchingDialog(View(), ds, matches)
        decreases |ds| - i
      {
        if dialogAt[jd.value].established && jd.value in matches {
          return jd;
        }
        AfterAt(ds, i);
        assert ds[i..][1..] == ds[i + 1..];
        jd := After(ds, jd.value);
        i := i + 1;
      }
    }

    method MatchDialog(matches: set<Ptr>) returns (p: Option<Place>)
      requires Linked(View())
      ensures p == MatchingPlace(View(), calls, matches)
    {
      hide MatchingDialog, After, NoDup, Linked;
      assert NoDup(calls) by { LinkedAt(View(), 0); }
      var jc := First(calls);
      ghost var i := 0;
      while jc.Some?
        invariant i <= |calls| && jc == At(calls, i)
        invariant MatchingPlace(View(), calls[i..], matches) == MatchingPlace(View(), calls, matches)
        decreases |calls| - i
      {
        var jd := MatchDialogIn(jc.value, matches);
        if jd.Some? {
          return Some(Place(jc.value, jd));
        }
        AfterAt(calls, i);
        assert calls[i..][1..] == calls[i + 1..];
        jc := After(calls, jc.value);
        i := i + 1;
      }
      return None;
    }

    /**
     eXosip_process_ack. The event carries the request and the response of `invite`, which is read
     even where the search has found none.
     */
    method ProcessAck(jc: Ptr, jd: Ptr) returns (invite: Option<Ptr>)
      requires jc in callAt && Live(View(), jd)
      modifies this`dialogAt
      ensures View() == Acknowledged(old(View()), jd)
      ensures invite == FindLastIncInvite(old(View()), jc, Some(jd))
    {
      hide FindLastIncInvite, Listed;
      LiveLists(View(), jd);
      invite := FindLastIncomingInvite(jc, Some(jd));
      dialogAt := dialogAt[jd := dialogAt[jd].(count := 0, ok200 := false)];
    }

    /** The ends of eXosip_process_reinvite, eXosip_process_prack and eXosip_process_message_within_dialog. */
    method ListIncoming(jd: Ptr, t: Ptr, info: JInfo)
      requires jd in dialogAt && t in trAt
      modifies this`dialogAt, this`trAt
      ensures View() == IncListed(Reporting(old(View()), t, info), jd, t)
    {
      trAt := trAt[t := trAt[t].(info := Some(info))];
      dialogAt := dialogAt[jd := dialogAt[jd].(incTrs := [t] + dialogAt[jd].incTrs)];
    }

    /** eXosip_process_bye */
    method ProcessBye(jc: Ptr, jd: Ptr, t: Ptr)
      requires Linked(View()) && jd in dialogAt && t in trAt
      modifies this
      ensures View() == Closed(IncListed(Reporting(old(View()), t, JInfo(jc, None)), jd, t), jd)
    {
      hide Linked, Closed;
      ListIncoming(jd, t, JInfo(jc, None));
      ListedLinked(old(View()), jd, t, JInfo(jc, None));
      Close(jd);
    }

    /** Whether a BYE has been received or sent in the dialog. */
    method HasBye(jd: Ptr) returns (yes: bool)
      requires Live(View(), jd)
      ensures yes == (FindLastInc(View(), jd, "BYE").Some? || FindLastOut(View(), jd, "BYE").Some?)
    {
      hide Live, FindLastInc, FindLastOut;
      var oldTrn := FindLastIncTransaction(jd, "BYE");
      if oldTrn.None? {
        oldTrn := FindLastOutTransaction(jd, "BYE");
      }
      yes := oldTrn.Some?;
    }

    /** Whether an INVITE of the dialog is still going on, in either direction. */
    method InviteGoesOn(jc: Ptr, jd: Ptr) returns (yes: bool)
      requires Inv(View()) && jc in calls && jd in CallOf(View(), jc).dialogs
      ensures yes == (Unfinished(View(), FindLastIncInvite(View(), jc, Some(jd)), {IST_COMPLETED, IST_TERMINATED})
                      || Unfinished(View(), FindLastOutInvite(View(), jc, Some(jd)), {ICT_COMPLETED, ICT_TERMINATED}))
    {
      hide Inv, Live, FindLastIncInvite, FindLastOutInvite;
      FoundInviteOf(View(), jc, Some(jd));
      var oldTrn := FindLastIncomingInvite(jc, Some(jd));
      if oldTrn.Some? && trAt[oldTrn.value].state != IST_COMPLETED && trAt[oldTrn.value].state != IST_TERMINATED {
        return true;
      }
      oldTrn := FindLastOutgoingInvite(jc, Some(jd));
      yes := oldTrn.Some? && trAt[oldTrn.value].state != ICT_COMPLETED && trAt[oldTrn.value].state != ICT_TERMINATED;
    }

    /** The part of eXosip_process_newrequest for a dialog that was found. */
    method ProcessWithinDialog(req: Request, t: Ptr, jc: Ptr, jd: Ptr)
      requires Inv(View()) && t in trAt && jc in calls && jd in CallOf(View(), jc).dialogs
      modifies this
      ensures View() == WithinDialog(old(View()), req, t, jc, jd)
    {
      hide Inv, Live, Linked, Closed, IncListed, Reporting, FindLastInc, FindLastOut, FindLastIncInvite, FindLastOutInvite, Unfinished;
      assert Linked(View()) by { InvLinked(View()); }
      FoundInviteOf(View(), jc, Some(jd));
      if req.sipMethod != "BYE" {
        var ended := HasBye(jd);
        if ended {
          garbage := [t] + garbage;
          return;
        }
      }
      if req.sipMethod == "INVITE" {
        var busy := InviteGoesOn(jc, jd);
        if busy {
          garbage := [t] + garbage;
          return;
        }
        dialogAt := dialogAt[jd := dialogAt[jd].(remoteCseq := req.cseq)];
        ListIncoming(jd, t, JInfo(jc, Some(jd)));
      } else if req.sipMethod == "BYE" {
        var oldTrn := FindLastIncTransaction(jd, "BYE");
        if oldTrn.Some? {
          garbage := [t] + garbage;
          return;
        }
        ProcessBye(jc, jd, t);
      } else if req.sipMethod == "SUBSCRIBE" {
        garbage := [t] + garbage;
      } else {
        ListIncoming(jd, t, JInfo(jc, Some(jd)));
      }
    }

    /** eXosip_process_new_invite */
    method ProcessNewInvite(req: Request, t: Ptr, jc: Ptr, jd: Ptr, now: int)
      requires Inv(View()) && t in trAt && jc !in callAt && jd !in dialogAt
      modifies this
      ensures View() == NewInvite(old(View()), req, t, jc, jd, now)
    {
      hide Inv, Linked, Updated, SameButIds;
      assert Linked(View()) by { InvLinked(View()); }
      if req.toTag {
        Update();
        return;
      }
      NewDialogLinked(View(), jc, jd, NewDialog(req.cseq, now));
      calls, callAt := [jc] + calls, callAt[jc := Call(-1, None, None, [])];
      callAt := callAt[jc := callAt[jc].(dialogs := [jd] + callAt[jc].dialogs)];
      dialogAt := dialogAt[jd := NewDialog(req.cseq, now)];
      trAt := trAt[t := trAt[t].(info := Some(JInfo(jc, Some(jd))))];
      ghost var before := View();
      FiledLinked(DialogAdded(CallAdded(old(View()), jc), jc, jd, NewDialog(req.cseq, now)), before);
      Update();
      UpdatedCalls(before, jc);
      callAt := callAt[jc := callAt[jc].(incTr := Some(t))];
    }

    /** The scan of one list of incoming transactions for the INVITE to cancel. */
    method ScanFor(l: seq<Ptr>, ts: set<Ptr>) returns (tr: Option<Ptr>)
      ensures tr == FirstIn(l, ts)
    {
      var pos := 0;
      while pos < |l|
        invariant 0 <= pos <= |l| && FirstIn(l[pos..], ts) == FirstIn(l, ts)
      {
        if l[pos] in ts {
          return Some(l[pos]);
        }
        pos := pos + 1;
      }
      return None;
    }

    /** The loop over the dialogs of a call, which always runs to its end. */
    method ScanDialogs(jc: Ptr, ts: set<Ptr>) returns (tr: Option<Ptr>)
      requires Linked(View()) && jc in calls
      ensures tr == LastScanned(View(), CallOf(View(), jc).dialogs, ts, None)
    {
      hide After, NoDup, Linked, FirstIn;
      LinkedAt(View(), jc);
      tr := None;
      var ds := callAt[jc].dialogs;
      ghost var i := 0;
      var jd := First(ds);
      while jd.Some?
        invariant i <= |ds| && jd == At(ds, i)
        invariant LastScanned(View(), ds[i..], ts, tr) == LastScanned(View(), ds, ts, None)
        decreases |ds| - i
      {
        if dialogAt[jd.value].incTrs != [] {
          tr := ScanFor(dialogAt[jd.value].incTrs, ts);
        }
        AfterAt(ds, i);
        assert ds[i..][1..] == ds[i + 1..];
        jd := After(ds, jd.value);
        i := i + 1;
      }
    }

    /** The search of eXosip_process_cancel. */
    method FindTarget(ts: set<Ptr>) returns (target: Target)
      requires Linked(View())
      ensures target == CancelTarget(View(), calls, ts, None)
    {
      hide After, NoDup, Linked, LastScanned;
      assert NoDup(calls) by { LinkedAt(View(), 0); }
      var tr: Option<Ptr> := None;
      var jc := First(calls);
      ghost var i := 0;
      while jc.Some?
        invariant i <= |calls| && jc == At(calls, i)
        invariant CancelTarget(View(), calls[i..], ts, tr) == CancelTarget(View(), calls, ts, None)
        decreases |calls| - i
      {
        LinkedAt(View(), jc.value);
        var inc := callAt[jc.value].incTr;
        if inc.Some? && inc.value in ts {
          return Target(inc, First(callAt[jc.value].dialogs));
        }
        tr := ScanDialogs(jc.value, ts);
        AfterAt(calls, i);
        assert calls[i..][1..] == calls[i + 1..];
        jc := After(calls, jc.value);
        i := i + 1;
      }
      return Target(tr, None);
    }

    method ProcessCancel(req: Request, t: Ptr)
      requires Inv(View()) && t in trAt
      modifies this`dialogAt, this`garbage
      ensures View() == Cancelled(old(View()), req, t)
    {
      hide Inv, Linked, CancelTarget;
      assert Linked(View()) by { InvLinked(View()); }
      var target := FindTarget(req.cancels);
      if target.tr.Some? && target.d.Some? {
        TargetLive(View(), req.cancels);
        dialogAt := dialogAt[target.d.value := dialogAt[target.d.value].(incTrs := [t] + dialogAt[target.d.value].incTrs)];
      } else {
        garbage := [t] + garbage;
      }
    }

    /** `faulted` says that the source reads through a NULL pointer on the way. */
    method ProcessNewRequest(req: Request, t: Ptr, jc: Ptr, jd: Ptr, now: int) returns (faulted: bool)
      requires Inv(View()) && t !in trAt && jc !in callAt && jd !in dialogAt
      modifies this
      ensures View() == NewRequest(old(View()), req, t, jc, jd, now)
      ensures faulted == AckFaults(old(View()), req)
    {
      hide Inv, Live, Linked, WithinDialog, NewInvite, Cancelled, MatchingPlace, Acknowledged, FindLastIncInvite;
      faulted := false;
      assert Linked(View()) by { InvLinked(View()); }
      if req.sipMethod != "ACK" {
        var state := if req.sipMethod == "INVITE" then IST_PRE_PROCEEDING else NIST_PRE_TRYING;
        BornInv(View(), t, Born(req.cseqMethod, state, now, None));
        trAt := trAt[t := Born(req.cseqMethod, state, now, None)];
      }
      if req.sipMethod == "CANCEL" {
        ProcessCancel(req, t);
        return;
      }
      MatchingIn(old(View()), View(), req.matches);
      var p := MatchDialog(req.matches);
      if p.Some? && req.sipMethod != "ACK" {
        var remote := dialogAt[p.value.d.value].remoteCseq;
        if remote > 0 {
          if req.cseq == remote {
            trAt := trAt - {t};
            return;
          }
          if req.cseq <= remote {
            return;
          }
        }
      }
      if p.Some? {
        if req.sipMethod == "ACK" {
          InvLive(View(), p.value.c, p.value.d.value);
          var invite := ProcessAck(p.value.c, p.value.d.value);
          faulted := invite.None?;
        } else {
          ProcessWithinDialog(req, t, p.value.c, p.value.d.value);
        }
        return;
      }
      if req.sipMethod == "ACK" {
        return;
      }
      if req.sipMethod == "INVITE" {
        ProcessNewInvite(req, t, jc, jd, now);
      } else if req.sipMethod != "SUBSCRIBE" {
        garbage := [t] + garbage;
      }
    }

    /** The first answer to the call's own INVITE (cb_rcv1xx, cb_rcv2xx_4invite). */
    method ReceiveFirstAnswer(jc: Ptr, jd: Ptr, now: int)
      requires Inv(View()) && jc in calls && jd !in dialogAt
      modifies this
      ensures View() == DialogMade(old(View()), jc, jd, now)
    {
      hide Inv, Linked, Updated;
      InvSlots(View(), jc);
      var tr := callAt[jc].outTr;
      if tr.None? || tr.value !in trAt || trAt[tr.value].info != Some(JInfo(jc, None)) {
        return;
      }
      MadeLinked(View(), jc, jd, NewDialog(-1, now));
      callAt := callAt[jc := callAt[jc].(dialogs := [jd] + callAt[jc].dialogs)];
      dialogAt := dialogAt[jd := NewDialog(-1, now)];
      trAt := trAt[tr.value := trAt[tr.value].(info := Some(JInfo(jc, Some(jd))))];
      FiledLinked(DialogAdded(old(View()), jc, jd, NewDialog(-1, now)), View());
      Update();
    }

    // ----- eXosip_retransmit_lost200ok (eXosip.c) -----

    /** The address of a new transaction. */
    method Malloc() returns (t: Ptr)
      ensures t !in trAt
    {
      t := 0;
      while t in trAt
        invariant Below(t) <= trAt.Keys
        decreases trAt.Keys - Below(t)
      {
        assert t in trAt.Keys - Below(t);
        t := t + 1;
      }
    }

    /** No ACK in time: the 200 OK is dropped and the call terminated. */
    method GiveUp(jc: Ptr, jd: Ptr, toTag: bool, now: int) returns (ghost e: Event)
      requires Good(World(View(), now)) && LiveDialog(View(), jc, jd) && jc in callAt && jd in dialogAt && dialogAt[jd].count == 5
      modifies this
      ensures Happens(old(View()), View(), e, now) && SameLinks(old(View()), View()) && e.TimerRanOut?
      ensures forall d :: DialogOf(View(), d).timer == DialogOf(old(View()), d).timer
      ensures Tidy(old(View())) && Waiting(DialogOf(old(View()), jd)) ==>
        && Tidy(View()) && TimingAt(View(), jd) == Dropped(TimingAt(old(View()), jd))
        && forall b, d | LiveDialog(old(View()), b, d) && d != jd :: TimingAt(View(), d) == TimingAt(old(View()), d)
    {
      hide Inv, Sane, CallHandlers.Terminate, Tidy, Waiting;
      ghost var s := View();
      var t := Malloc();
      GiveUpReady(s, jc, jd, t, toTag, now);
      var cid, did := callAt[jc].id, dialogAt[jd].id;
      dialogAt := dialogAt[jd := dialogAt[jd].(count := 0, ok200 := false)];
      Terminate(cid, did, t, toTag, now);
      e := TimerRanOut(jc, jd, t, toTag);
    }

    /** The timer of one dialog fires. */
    method Fire(jc: Ptr, jd: Ptr, now: int) returns (ghost e: Event)
      requires Good(World(View(), now)) && LiveDialog(View(), jc, jd) && jd in dialogAt && Due(dialogAt[jd], now)
      modifies this`dialogAt
      ensures Happens(old(View()), View(), e, now) && SameLinks(old(View()), View()) && e == TimerFired(jc, jd)
      ensures View() == SetDialog(old(View()), jd, Resent(DialogOf(old(View()), jd), now))
      ensures Tidy(old(View())) ==> Tidy(View())
    {
      hide Inv, Sane;
      e := TimerFired(jc, jd);
      FireReady(View(), jc, jd, now);
      dialogAt := dialogAt[jd := dialogAt[jd].(timer := now + 4, count := dialogAt[jd].count + 1)];
    }

    /**
     The loop over the dialogs of one call. `jd` goes back to the first dialog whenever a timer
     fires, and it is the first dialog's 200 OK that is sent: the dialog's own, as only the first one
     can wait for an ACK.
     */
    method RetransmitCall(jc: Ptr, tagged: set<Ptr>, now: int) returns (sent: seq<Sending>, ghost es: seq<Event>)
      requires Good(World(View(), now)) && jc in calls
      modifies this
      ensures Happened(old(View()), View(), es, now) && SameLinks(old(View()), View())
      ensures sent == Sendings(World(old(View()), now), es) && OwnOnly(sent)
      ensures var ds := CallOf(View(), jc).dialogs;
        Tidy(old(View())) ==> Tidy(View()) && Progress(old(View()), View(), ds, |ds|, now)
    {
      hide Inv, Sane, Good, Tidy, Progress, Late, After, NoDup, Happens, Happened, SameLinks, Sendings, SendingOf, OwnOnly;
      ghost var s0 := View();
      sent, es := [], [];
      GoodCall(s0, jc, now);
      ghost var ds := callAt[jc].dialogs;
      var jd := First(callAt[jc].dialogs);
      ghost var i := 0;
      ProgressStart(s0, ds, now);
      NothingYet(s0, now);
      HappenedNothing(s0, now);
      while jd.Some?
        invariant i <= |ds| && jd == At(ds, i)
        invariant Happened(s0, View(), es, now) && SameLinks(s0, View())
        invariant sent == Sendings(World(s0, now), es)
        invariant Tidy(s0) ==> Tidy(View()) && Progress(s0, View(), ds, i, now)
        decreases Late(View(), ds, now), |ds| - i
      {
        ghost var before := View();
        HappenedGood(s0, before, es, jc, ds, now);
        var dialog := dialogAt[jd.value];
        if dialog.id >= 1 && dialog.established && dialog.ok200 && dialog.count == 5 {
          ghost var e := GiveUp(jc, jd.value, jd.value in tagged, now);
          SendingsMore(s0, before, es, e, now);
          GivenUpSending(World(before, now), e);
          HappenedMore(s0, before, View(), es, e, now);
          LateSame(before, View(), ds, now);
          if Tidy(s0) {
            DropStep(s0, before, View(), jc, ds, i, now);
          }
          es := es + [e];
        } else if dialog.id >= 1 && dialog.established && dialog.ok200 && dialog.timer < now {
          ghost var e := Fire(jc, jd.value, now);
          SendingsMore(s0, before, es, e, now);
          FiredSending(before, View(), jc, jd.value, now);
          var fired := jd.value;
          HappenedMore(s0, before, View(), es, e, now);
          LateLess(before, ds, jd.value, now);
          if Tidy(s0) {
            ProgressFire(s0, before, ds, i, now);
          }
          es := es + [e];
          HappenedGood(s0, View(), es, jc, ds, now);
          jd := First(callAt[jc].dialogs);
          i := 0;
          sent := sent + [Sending(fired, jd.value, !dialogAt[jd.value].ok200)];
        } else if Tidy(s0) {
          ProgressSkip(s0, before, ds, i, now);
        }
        HappenedGood(s0, View(), es, jc, ds, now);
        AfterAt(ds, i);
        jd := After(callAt[jc].dialogs, jd.value);
        i := i + 1;
      }
      HappenedGood(s0, View(), es, jc, ds, now);
      HappenedSends(s0, View(), es, now);
    }

    /**
     The loop over the calls. Where ids are tidy, every dialog goes through `Finish` exactly once.
     (`tagged` are the dialogs whose INVITE carried a To tag.)
     */
    method RetransmitLost200Ok(tagged: set<Ptr>, now: int) returns (sent: seq<Sending>, ghost es: seq<Event>)
      requires Good(World(View(), now))
      modifies this
      ensures Happened(old(View()), View(), es, now) && SameLinks(old(View()), View())
      ensures sent == Sendings(World(old(View()), now), es) && OwnOnly(sent)
      ensures Tidy(old(View())) ==> forall c | c in calls :: Passed(old(View()), View(), c, now)
    {
      hide Inv, Sane, Good, Tidy, Progress, After, NoDup, Linked, Happened, SameLinks, PassTo, Sendings, OwnOnly;
      ghost var s0 := View();
      sent, es := [], [];
      HappenedNothing(s0, now);
      NothingYet(s0, now);
      GoodCalls(s0, now);
      var jc := First(calls);
      ghost var i := 0;
      PassStart(s0);
      while jc.Some?
        invariant i <= |calls| && jc == At(calls, i) && calls == s0.calls
        invariant Happened(s0, View(), es, now) && SameLinks(s0, View()) && sent == Sendings(World(s0, now), es)
        invariant Tidy(s0) ==> Tidy(View()) && PassTo(s0, View(), i, now)
        decreases |calls| - i
      {
        ghost var before := View();
        HappenedGood(s0, before, es, jc.value, CallOf(s0, jc.value).dialogs, now);
        if callAt[jc.value].id >= 1 && callAt[jc.value].dialogs != [] {
          var more, fs := RetransmitCall(jc.value, tagged, now);
          HappenedJoin(s0, before, View(), es, fs, now);
          SendingsAfter(s0, before, es, fs, now);
          sent, es := sent + more, es + fs;
          SameCalls(s0, View());
        }
        if Tidy(s0) {
          TidyCall(before, jc.value);
          PassStep(s0, before, View(), i, now);
        }
        AfterAt(calls, i);
        jc := After(calls, jc.value);
        i := i + 1;
      }
      PassEnd(s0, View(), now);
      HappenedSends(s0, View(), es, now);
    }
  }
}
