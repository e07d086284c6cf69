/**
 The steps between the fields of the class Exosip and the specification functions: next pointers,
 lists that are being drained or swept, and what the invariants say about the pointers followed.
 */
module EXosipSteps {
  import opened Numerals
  import opened CallStore
  import opened CallOps
  import opened CallInvariants
  import opened CallRelease
  import opened CallHandlers
  import opened CallGrowth
  import opened CallSteps
  import opened CallTimes
  import opened CallRuns
  import opened CallFaults
  import opened CallLookups
  import opened Lost200

  // ----- next pointers -----

  /** The next pointer of element x of a linked list. */
  function After(l: seq<Ptr>, x: Ptr): Option<Ptr> {
    if l == [] then None else if l[0] == x then First(l[1..]) else After(l[1..], x)
  }

  function At(l: seq<Ptr>, i: nat): Option<Ptr> {
    if i < |l| then Some(l[i]) else None
  }

  lemma {:induction false} AfterAt(l: seq<Ptr>, i: nat)
    requires NoDup(l) && i < |l|
    ensures After(l, l[i]) == At(l, i + 1)
  {
    if i > 0 {
      AfterAt(l[1..], i - 1);
    }
  }

  /** Dialog d and its transactions are allocated. */
  ghost predicate Live(s: Store, d: Ptr) {
    d in s.dialogAt && forall t | Listed(s, d, t) :: t in s.trAt
  }

  lemma NumberedKeys(s: Store, d: Ptr)
    ensures DialogNumbered(s, d).dialogAt.Keys == s.dialogAt.Keys
  {
  }

  lemma RenumberedLinked(s: Store, s': Store)
    requires s' == s.(nextId := s'.nextId) && Linked(s)
    ensures Linked(s')
  {
  }

  lemma LinkedAt(s: Store, c: Ptr)
    requires Linked(s)
    ensures NoDup(s.calls)
    ensures c in s.calls ==> c in s.callAt && NoDup(s.callAt[c].dialogs) && forall d | d in s.callAt[c].dialogs :: d in s.dialogAt
  {
  }

  lemma UpdatedLinked(s: Store, s': Store, c: Ptr)
    requires SameButIds(s, s') && Linked(s) && c in s.calls
    ensures Linked(s') && s'.calls == s.calls && CallOf(s', c).dialogs == CallOf(s, c).dialogs
    ensures c in s'.callAt && NoDup(s'.callAt[c].dialogs) && forall d | d in s'.callAt[c].dialogs :: d in s'.dialogAt
  {
    forall e | e in s.calls ensures CallOf(s', e).dialogs == CallOf(s, e).dialogs {
      assert s'.callAt[e].(id := 0) == s.callAt[e].(id := 0);
    }
  }

  // ----- freeing, step by step -----

  function Lists(dialog: Dialog, inc: bool): seq<Ptr> {
    if inc then dialog.incTrs else dialog.outTrs
  }

  function WithList(dialog: Dialog, inc: bool, l: seq<Ptr>): Dialog {
    if inc then dialog.(incTrs := l) else dialog.(outTrs := l)
  }

  /** The store when the transactions `gone` have left a list of dialog d, and `rest` is still in it. */
  function Draining(s: Store, d: Ptr, inc: bool, gone: seq<Ptr>, rest: seq<Ptr>): Store {
    s.(garbage := DrainedInto(gone, s.garbage), trAt := InfoDeleted(s.trAt, multiset(gone)),
       dialogAt := s.dialogAt[d := WithList(DialogOf(s, d), inc, rest)])
  }

  function Discarded(s: Store, d: Ptr, inc: bool): Store
    requires Lists(DialogOf(s, d), inc) != [] && Lists(DialogOf(s, d), inc)[0] in s.trAt
  {
    var l := Lists(DialogOf(s, d), inc);
    s.(garbage := [l[0]] + s.garbage, trAt := s.trAt[l[0] := s.trAt[l[0]].(info := None)],
       dialogAt := s.dialogAt[d := WithList(DialogOf(s, d), inc, l[1..])])
  }

  lemma DrainingRest(s: Store, d: Ptr, inc: bool, gone: seq<Ptr>, rest: seq<Ptr>)
    ensures var r := Draining(s, d, inc, gone, rest);
      d in r.dialogAt && r.dialogAt[d] == WithList(DialogOf(s, d), inc, rest) && r.trAt.Keys == s.trAt.Keys
  {
  }

  lemma DrainingStart(s: Store, d: Ptr, inc: bool)
    requires d in s.dialogAt
    ensures Draining(s, d, inc, [], Lists(s.dialogAt[d], inc)) == s
  {
    InfoDeletedNone(s.trAt);
    assert s.dialogAt[d := s.dialogAt[d]] == s.dialogAt;
  }

  lemma {:induction false} DrainedLast(l: seq<Ptr>, t: Ptr, garbage: seq<Ptr>)
    ensures DrainedInto(l + [t], garbage) == [t] + DrainedInto(l, garbage)
    decreases |l|
  {
    if l == [] {
      assert [] + [t] == [t] + [];
      assert DrainedInto([], [t] + garbage) == [t] + garbage;
    } else {
      assert (l + [t])[1..] == l[1..] + [t];
      DrainedLast(l[1..], t, [l[0]] + garbage);
    }
  }

  lemma DrainingStep(s: Store, d: Ptr, inc: bool, gone: seq<Ptr>, rest: seq<Ptr>)
    requires rest != [] && rest[0] in s.trAt
    ensures var m := Draining(s, d, inc, gone, rest);
      && Lists(DialogOf(m, d), inc) == rest && rest[0] in m.trAt
      && Discarded(m, d, inc) == Draining(s, d, inc, gone + [rest[0]], rest[1..])
  {
    hide InfoDeleted, DrainedInto;
    var m := Draining(s, d, inc, gone, rest);
    DrainedLast(gone, rest[0], s.garbage);
    InfoDeletedMore(s.trAt, multiset(gone), rest[0]);
    assert m.dialogAt[d := WithList(DialogOf(m, d), inc, rest[1..])] == s.dialogAt[d := WithList(DialogOf(s, d), inc, rest[1..])];
  }

  lemma LiveLists(s: Store, d: Ptr)
    requires Live(s, d)
    ensures d in s.dialogAt
    ensures forall t | t in s.dialogAt[d].incTrs || t in s.dialogAt[d].outTrs :: t in s.trAt
  {
    forall t | t in s.dialogAt[d].incTrs || t in s.dialogAt[d].outTrs ensures t in s.trAt {
      assert Listed(s, d, t);
    }
  }

  lemma InfoDeletedNone(m: map<Ptr, Transaction>)
    ensures InfoDeleted(m, multiset{}) == m
  {
  }

  lemma InfoDeletedMore(m: map<Ptr, Transaction>, ts: multiset<Ptr>, t: Ptr)
    requires t in m
    ensures var r := InfoDeleted(m, ts); r[t := r[t].(info := None)] == InfoDeleted(m, ts + multiset{t})
  {
  }

  lemma InfoDeletedTwice(m: map<Ptr, Transaction>, a: multiset<Ptr>, b: multiset<Ptr>)
    ensures InfoDeleted(InfoDeleted(m, a), b) == InfoDeleted(m, a + b)
  {
  }

  lemma DrainedLive(s: Store, d: Ptr)
    requires d in s.dialogAt && forall t | Listed(s, d, t) :: t in s.trAt
    ensures var r := Draining(s, d, true, s.dialogAt[d].incTrs, []);
      d in r.dialogAt && forall t | Listed(r, d, t) :: t in r.trAt
  {
    var r := Draining(s, d, true, s.dialogAt[d].incTrs, []);
    forall t | Listed(r, d, t) ensures t in r.trAt {
      assert Listed(s, d, t);
    }
  }

  lemma DrainedFrees(s: Store, d: Ptr)
    requires d in s.dialogAt
    ensures var m := Draining(s, d, true, s.dialogAt[d].incTrs, []);
      var r := Draining(m, d, false, s.dialogAt[d].outTrs, []);
      r.(dialogAt := r.dialogAt - {d}) == DialogFreed(s, d)
  {
    hide DrainedInto;
    var m := Draining(s, d, true, s.dialogAt[d].incTrs, []);
    InfoDeletedTwice(s.trAt, multiset(DialogOf(s, d).incTrs), multiset(DialogOf(s, d).outTrs));
    var r := Draining(m, d, false, s.dialogAt[d].outTrs, []);
    assert r.dialogAt - {d} == s.dialogAt - {d};
  }

  lemma FreedUnlinked(s: Store, d: Ptr)
    requires Linked(s) && forall c | c in s.calls :: d !in s.callAt[c].dialogs
    ensures Linked(DialogFreed(s, d))
  {
    hide DrainedInto, InfoDeleted;
  }

  /** Call c is no longer linked, but all it holds is still there. */
  ghost predicate Detached(s: Store, c: Ptr) {
    && Linked(s) && Apart(s, c) && c !in s.calls
    && (forall d | d in CallOf(s, c).dialogs :: d in s.dialogAt)
    && (forall d, t | d in CallOf(s, c).dialogs && Listed(s, d, t) :: t in s.trAt)
    && (forall t | InSlot(s, c, t) :: t in s.trAt)
  }

  lemma DetachedCall(s: Store, c: Ptr)
    requires Detached(s, c)
    ensures c in s.callAt && forall t | InSlot(s, c, t) :: t in s.trAt
  {
  }

  lemma DetachedLive(s: Store, c: Ptr, d: Ptr)
    requires Detached(s, c) && d in CallOf(s, c).dialogs
    ensures Live(Unlinked(s, c, d), d)
  {
    var u := Unlinked(s, c, d);
    forall t | Listed(u, d, t) ensures t in u.trAt {
      assert Listed(s, d, t);
    }
  }

  lemma TurnLinked(s: Store, r: Store, c: Ptr, d: Ptr)
    requires Linked(s) && Apart(s, c) && c !in s.calls && d in CallOf(s, c).dialogs && Turned(s, r, c, d)
    ensures Linked(r)
  {
    forall e | e in s.calls ensures CallOf(r, e).dialogs == CallOf(s, e).dialogs && d !in CallOf(s, e).dialogs {
      assert SameCall(s, r, e);
    }
  }

  lemma TurnAllocated(s: Store, r: Store, c: Ptr, d: Ptr)
    requires Detached(s, c) && d in CallOf(s, c).dialogs && Turned(s, r, c, d)
    ensures forall e | e in CallOf(r, c).dialogs :: e in r.dialogAt
    ensures forall e, t | e in CallOf(r, c).dialogs && Listed(r, e, t) :: t in r.trAt
    ensures forall t | InSlot(r, c, t) :: t in r.trAt
  {
    hide Linked;
    var ds := CallOf(s, c).dialogs;
    RemoveNoDup(ds, d);
    RemoveContents(ds, d);
    forall e, t | e in CallOf(r, c).dialogs && Listed(r, e, t) ensures t in r.trAt {
      assert SameDialog(s, r, e);
      assert Listed(s, e, t);
    }
    forall t | InSlot(r, c, t) ensures t in r.trAt {
      assert InSlot(s, c, t);
    }
  }

  lemma DetachedTurn(s: Store, c: Ptr, d: Ptr)
    requires Detached(s, c) && CallOf(s, c).dialogs != [] && d == CallOf(s, c).dialogs[0]
    ensures var u := Unlinked(s, c, d); var r := Updated(DialogFreed(u, d));
      && Detached(r, c) && |CallOf(r, c).dialogs| < |CallOf(s, c).dialogs|
      && DialogsDrained(s, c) == DialogsDrained(r, c)
      && Linked(u) && (forall e | e in u.calls :: d !in u.callAt[e].dialogs)
  {
    hide Linked, Updated, DialogFreed, Turned;
    var u := Unlinked(s, c, d);
    var r := Updated(DialogFreed(u, d));
    TurnTaken(s, c, d);
    TurnApart(s, r, c, d);
    TurnLinked(s, r, c, d);
    TurnAllocated(s, r, c, d);
    TurnShorter(s, r, c);
    UnlinkedLinked(s, c, d);
  }

  lemma UnlinkedLinked(s: Store, c: Ptr, d: Ptr)
    requires Linked(s) && Apart(s, c) && c !in s.calls && d in CallOf(s, c).dialogs
    ensures var u := Unlinked(s, c, d); Linked(u) && forall e | e in u.calls :: d !in u.callAt[e].dialogs
  {
    hide Remove;
    var u := Unlinked(s, c, d);
    forall e | e in s.calls ensures u.callAt[e] == s.callAt[e] && d !in s.callAt[e].dialogs {
      assert CallOf(s, e) == s.callAt[e];
    }
  }

  // ----- what the invariant gives the release pass -----

  lemma InvAllocated(s: Store, c: Ptr, d: Ptr)
    requires Inv(s) && c in s.calls && d in CallOf(s, c).dialogs
    ensures d in s.dialogAt && forall t | Listed(s, d, t) :: t in s.trAt && t in CallHeld(s, c)
  {
    hide CallHeld, CallsOk, Linked, Owned, Held;
    InvShape(s, c);
    forall t | Listed(s, d, t) ensures t in s.trAt && t in CallHeld(s, c) {
      ListedHeld(s, c, d, t);
      HeldTwice(s, c, t);
    }
  }

  lemma InvSlots(s: Store, c: Ptr)
    requires Inv(s) && c in s.calls
    ensures c in s.callAt && forall t | InSlot(s, c, t) :: t in s.trAt
  {
    hide CallHeld, CallsOk, Owned, Held;
    forall t | InSlot(s, c, t) ensures t in s.trAt {
      InSlotHeld(s, c, t);
      HeldTwice(s, c, t);
    }
  }

  lemma InvLive(s: Store, c: Ptr, d: Ptr)
    requires Inv(s) && c in s.calls && d in CallOf(s, c).dialogs
    ensures Live(s, d) && c in s.callAt && NoDup(s.callAt[c].dialogs) && forall e | e in s.callAt[c].dialogs :: e in s.dialogAt
  {
    hide CallsOk, Owned, Listed;
    InvAllocated(s, c, d);
    LinkedAt(s, c);
  }

  lemma FoundListed(s: Store, d: Ptr, m: string)
    requires Live(s, d)
    ensures FindLastInc(s, d, m).Some? ==> FindLastInc(s, d, m).value in s.trAt
    ensures FindLastOut(s, d, m).Some? ==> FindLastOut(s, d, m).value in s.trAt
  {
    LiveLists(s, d);
  }

  lemma FoundInvite(s: Store, c: Ptr, d: Ptr)
    requires Inv(s) && c in s.calls && d in CallOf(s, c).dialogs
    ensures FindLastIncInvite(s, c, Some(d)).Some? ==> FindLastIncInvite(s, c, Some(d)).value in s.trAt
    ensures FindLastOutInvite(s, c, Some(d)).Some? ==> FindLastOutInvite(s, c, Some(d)).value in s.trAt
  {
    hide Inv, Live;
    InvLive(s, c, d);
    LiveLists(s, d);
    InvSlots(s, c);
    assert forall t | InSlot(s, c, t) :: t in s.trAt;
  }

  lemma FoundInLists(s: Store, d: Ptr, m: string)
    ensures FindLastInc(s, d, m).Some? ==> Listed(s, d, FindLastInc(s, d, m).value)
    ensures FindLastOut(s, d, m).Some? ==> Listed(s, d, FindLastOut(s, d, m).value)
  {
  }

  lemma PendingLemma(s: Store, c: Ptr, d: Ptr, t: Option<Ptr>, done: State, now: int, expire: bool)
    requires Inv(s) && c in s.calls && d in CallOf(s, c).dialogs
    requires expire && t.Some? ==> Listed(s, d, t.value)
    ensures var r := Check(s, t, done, c, now, expire).s;
      Inv(r) && r.calls == s.calls && d in CallOf(r, c).dialogs
    ensures expire && t.Some? ==> t.value in s.trAt
  {
    hide Inv, Held, Check, Listed;
    var r := PendingStep(s, c, d, t, done, now, expire);
    InvAllocated(s, c, d);
  }

  lemma UnlinkedIs(s: Store, r: Store, c: Ptr, d: Ptr)
    requires r == s.(callAt := s.callAt[c := CallOf(s, c).(dialogs := Remove(CallOf(s, c).dialogs, d))])
    ensures r == Unlinked(s, c, d)
  {
  }

  lemma RefsDroppedInv(s: Store, c: Ptr, d: Ptr)
    requires Inv(s) && c in s.calls && d in CallOf(s, c).dialogs
    ensures var r := RefsDropped(s, c, d); Inv(r) && r.calls == s.calls && c in r.callAt && CallOf(r, c) == CallOf(s, c)
  {
    hide Inv, Held, RefsDropped;
    InvSlots(s, c);
    RefsDroppedFacts(s, c, d);
    NamesOnly(s, RefsDropped(s, c, d), c);
  }

  /** A dialog taken out of its call is still allocated, and no call has it. */
  lemma UnlinkedReady(s: Store, c: Ptr, d: Ptr)
    requires Inv(s) && c in s.calls && d in CallOf(s, c).dialogs
    ensures var u := Unlinked(s, c, d); Live(u, d) && Linked(u) && forall e | e in u.calls :: d !in u.callAt[e].dialogs
  {
    hide CallsOk, Owned;
    InvAllocated(s, c, d);
    var ds := CallOf(s, c).dialogs;
    LinkedAt(s, c);
    RemoveNoDup(ds, d);
    RemoveContents(ds, d);
    var u := Unlinked(s, c, d);
    forall t | Listed(u, d, t) ensures t in u.trAt {
      assert Listed(s, d, t);
    }
    forall e | e in s.calls && e != c ensures u.callAt[e] == s.callAt[e] && d !in s.callAt[e].dialogs {
      assert d in s.callAt[c].dialogs;
    }
  }

  lemma InvDetached(s: Store, c: Ptr)
    requires Inv(s) && c in s.calls
    ensures Detached(s.(calls := Remove(s.calls, c)), c)
  {
    hide CallsOk, Owned;
    var r := s.(calls := Remove(s.calls, c));
    RemoveNoDup(s.calls, c);
    RemoveContents(s.calls, c);
    InvSlots(s, c);
    forall d | d in CallOf(s, c).dialogs ensures d in s.dialogAt && forall t | Listed(r, d, t) :: t in s.trAt {
      InvAllocated(s, c, d);
      forall t | Listed(r, d, t) ensures t in s.trAt {
        assert Listed(s, d, t);
      }
    }
    forall t | InSlot(r, c, t) ensures t in s.trAt {
      assert InSlot(s, c, t);
    }
  }

  lemma LiveIn(s: Store, d: Ptr)
    requires Live(s, d)
    ensures d in s.dialogAt
  {
  }

  lemma InvCall(s: Store, c: Ptr)
    requires Inv(s) && c in s.calls
    ensures c in s.callAt && NoDup(s.callAt[c].dialogs) && NoDup(s.calls)
  {
    hide CallsOk, Owned;
    LinkedAt(s, c);
  }

  /** In a list that ends with the part not yet visited, the next pointer is the next of that part. */
  lemma NextInSuffix(kept: seq<Ptr>, rest: seq<Ptr>)
    requires NoDup(kept + rest) && rest != []
    ensures rest[0] in kept + rest && After(kept + rest, rest[0]) == First(rest[1..])
  {
    var l := kept + rest;
    assert l[|kept|] == rest[0];
    AfterAt(l, |kept|);
    assert |rest| > 1 ==> l[|kept| + 1] == rest[1] == rest[1..][0];
  }

  lemma RemoveMiddle(kept: seq<Ptr>, rest: seq<Ptr>)
    requires rest != [] && NoDup(kept + rest)
    ensures Remove(kept + rest, rest[0]) == kept + rest[1..]
  {
    var l := kept + rest;
    forall j | 0 <= j < |kept| ensures kept[j] != rest[0] {
      assert l[j] == kept[j] && l[|kept|] == rest[0];
    }
    assert l[..|kept|] == kept;
    RemoveAt(l, rest[0], |kept|);
    assert Without(l, |kept|) == kept + rest[1..];
  }

  /** Dialog d, if call c still has it. */
  function Stayed(s: Store, r: Store, c: Ptr, d: Ptr): seq<Ptr> {
    if CallOf(r, c).dialogs == CallOf(s, c).dialogs then [d] else []
  }

  lemma VisitedSuffix(s: Store, r: Checked, c: Ptr, kept: seq<Ptr>, rest: seq<Ptr>)
    requires c in s.calls && rest != [] && CallOf(s, c).dialogs == kept + rest && NoDup(kept + rest) && Visited(s, r, c, rest[0])
    ensures Inv(r.s)
    ensures !r.yes ==> c in r.s.calls
    ensures !r.yes ==> CallOf(r.s, c).dialogs == (kept + Stayed(s, r.s, c, rest[0])) + rest[1..]
  {
    hide Inv, Held;
    RemoveMiddle(kept, rest);
    assert rest == [rest[0]] + rest[1..];
  }

  /** Call c, if it is still linked. */
  function StillLinked(s: Store, r: Store, c: Ptr): seq<Ptr> {
    if r.calls == s.calls then [c] else []
  }

  lemma CallsSuffix(s: Store, r: Store, kept: seq<Ptr>, rest: seq<Ptr>)
    requires rest != [] && NoDup(s.calls) && s.calls == kept + rest && (r.calls == s.calls || r.calls == Remove(s.calls, rest[0]))
    ensures r.calls == (kept + StillLinked(s, r, rest[0])) + rest[1..]
  {
    RemoveMiddle(kept, rest);
    assert kept + rest == (kept + [rest[0]]) + rest[1..];
  }

  // ----- the sweep, step by step -----

  /** The store when the transactions `seen` of the garbage list have been looked at. */
  function Sweeping(s: Store, seen: seq<Ptr>, rest: seq<Ptr>, now: int): Store {
    s.(garbage := Kept(s, seen, now) + rest,
       trAt := map t | t in s.trAt && !(t in seen && Expendable(s, t, now)) :: s.trAt[t])
  }

  lemma InvGarbage(s: Store)
    requires Inv(s)
    ensures NoDup(s.garbage) && forall t | t in s.garbage :: t in s.trAt
  {
    hide CallsHeld, CallsOk, Linked;
    forall t | t in s.garbage ensures t in s.trAt {
      assert t in Held(s);
    }
    forall t ensures multiset(s.garbage)[t] <= 1 {
      assert Held(s)[t] <= 1;
    }
    OnceNoDup(s.garbage);
  }

  lemma {:induction false} OnceNoDup(l: seq<Ptr>)
    requires forall t :: multiset(l)[t] <= 1
    ensures NoDup(l)
  {
    if l != [] {
      assert l == [l[0]] + l[1..];
      forall t ensures multiset(l[1..])[t] <= 1 {
        assert multiset(l)[t] <= 1;
      }
      OnceNoDup(l[1..]);
      assert multiset(l)[l[0]] <= 1;
      assert l[0] !in l[1..];
    }
  }

  lemma SweepingStart(s: Store, now: int)
    ensures Sweeping(s, [], s.garbage, now) == s && Kept(s, [], now) == []
  {
    hide Expendable;
    assert Kept(s, [], now) + s.garbage == s.garbage;
  }

  lemma SweepingEnd(s: Store, now: int)
    ensures Sweeping(s, s.garbage, [], now) == Swept(s, now)
  {
    hide Expendable, Kept;
    assert Kept(s, s.garbage, now) + [] == Kept(s, s.garbage, now);
  }

  lemma {:induction false} KeptLast(s: Store, l: seq<Ptr>, t: Ptr, now: int)
    ensures Kept(s, l + [t], now) == Kept(s, l, now) + if Expendable(s, t, now) then [] else [t]
  {
    hide Expendable;
    if l == [] {
      assert [] + [t] == [t] && [t][1..] == [];
    } else {
      assert (l + [t])[1..] == l[1..] + [t];
      KeptLast(s, l[1..], t, now);
    }
  }

  lemma SweepingTr(s: Store, seen: seq<Ptr>, rest: seq<Ptr>, now: int)
    requires rest != [] && NoDup(seen + rest) && forall t | t in seen + rest :: t in s.trAt
    ensures rest[0] in Sweeping(s, seen, rest, now).trAt && Sweeping(s, seen, rest, now).trAt[rest[0]] == s.trAt[rest[0]]
    ensures Expendable(s, rest[0], now) <==>
      (s.trAt[rest[0]].state in {IST_TERMINATED, ICT_TERMINATED, NICT_TERMINATED, NIST_TERMINATED} || s.trAt[rest[0]].birth + 180 < now)
  {
    hide Kept;
    var l := seen + rest;
    assert rest[0] in l;
    forall i | 0 <= i < |seen| ensures seen[i] != rest[0] {
      assert l[i] == seen[i] && l[|seen|] == rest[0];
    }
  }

  lemma SweepingStep(s: Store, seen: seq<Ptr>, rest: seq<Ptr>, now: int)
    requires rest != [] && NoDup(seen + rest)
    ensures var m := Sweeping(s, seen, rest, now); var r := Sweeping(s, seen + [rest[0]], rest[1..], now);
      var k := Kept(s, seen, now);
      && (seen + [rest[0]]) + rest[1..] == seen + rest
      && r.garbage == Kept(s, seen + [rest[0]], now) + rest[1..]
      && if Expendable(s, rest[0], now) then
           r == m.(garbage := m.garbage[..|k|] + m.garbage[|k| + 1..], trAt := m.trAt - {rest[0]}) && Kept(s, seen + [rest[0]], now) == k
         else r == m && |Kept(s, seen + [rest[0]], now)| == |k| + 1
  {
    hide Expendable, Kept, NoDup;
    KeptLast(s, seen, rest[0], now);
    SplitAt(Kept(s, seen, now), rest);
    SplitAt(seen, rest);
    SweepingTrs(s, seen, rest, now);
    SweepingGarbage(s, seen, rest, now);
  }

  lemma SplitAt(k: seq<Ptr>, rest: seq<Ptr>)
    requires rest != []
    ensures k + rest == (k + [rest[0]]) + rest[1..] && (k + rest)[..|k|] == k && (k + rest)[|k| + 1..] == rest[1..]
  {
  }

  lemma SweepingGarbage(s: Store, seen: seq<Ptr>, rest: seq<Ptr>, now: int)
    ensures var m := Sweeping(s, seen, rest, now); m.garbage == Kept(s, seen, now) + rest && m == s.(garbage := m.garbage, trAt := m.trAt)
  {
    hide Kept, Expendable;
  }

  lemma SweepingTrs(s: Store, seen: seq<Ptr>, rest: seq<Ptr>, now: int)
    requires rest != []
    ensures var m := Sweeping(s, seen, rest, now); var r := Sweeping(s, seen + [rest[0]], rest[1..], now);
      r.trAt == if Expendable(s, rest[0], now) then m.trAt - {rest[0]} else m.trAt
  {
    hide Expendable, Kept;
    var m := Sweeping(s, seen, rest, now);
    var r := Sweeping(s, seen + [rest[0]], rest[1..], now);
    forall t ensures t in r.trAt <==> t in m.trAt && !(t == rest[0] && Expendable(s, rest[0], now)) {
    }
  }

  // ----- what the invariant gives the call API -----

  lemma InvLinked(s: Store)
    requires Inv(s)
    ensures Linked(s)
  {
  }

  lemma SetDialogLinked(s: Store, d: Ptr, dialog: Dialog)
    requires Linked(s) && d in s.dialogAt
    ensures Linked(SetDialog(s, d, dialog))
  {
  }

  lemma FiledLinked(s: Store, r: Store)
    requires Linked(s) && r == s.(trAt := r.trAt, garbage := r.garbage)
    ensures Linked(r)
  {
  }

  lemma SentLinked(s: Store, c: Ptr, d: Ptr, t: Ptr, m: string, state: State, now: int)
    requires Linked(s) && d in s.dialogAt
    ensures var r := RequestSent(s, c, d, t, m, state, now); Linked(r) && d in r.dialogAt
  {
  }

  lemma NewCallLinked(s: Store, c: Ptr, t: Ptr, now: int)
    requires Inv(s) && c !in s.callAt
    ensures Linked(SetCall(CallAdded(WithTr(s, t, Born("INVITE", ICT_PRE_CALLING, now, Some(JInfo(c, None)))), c), c, Call(-1, None, Some(t), [])))
  {
    hide CallsOk, Owned;
    assert c !in s.calls;
  }

  lemma UpdatedCalls(s: Store, c: Ptr)
    requires c in s.callAt
    ensures c in Updated(s).callAt
  {
  }

  lemma FoundLast(s: Store, d: Ptr, m: string)
    requires Live(s, d)
    ensures FindLast(s, d, m).Some? ==> FindLast(s, d, m).value in s.trAt
  {
    FoundListed(s, d, m);
  }

  lemma FoundPlace(s: Store, t: Ptr)
    requires Inv(s)
    ensures var p := TransactionFind(s, s.calls, t);
      p.Some? ==> t in s.trAt && (p.value.d.Some? ==> p.value.d.value in s.dialogAt)
  {
    hide CallsOk, Linked, Held, CallHeld, TransactionFind, CallsHeld;
    var p := TransactionFind(s, s.calls, t);
    if p.Some? {
      TransactionFindExactly(s, t);
      HeldTwice(s, p.value.c, t);
      if p.value.d.Some? {
        InvAllocated(s, p.value.c, p.value.d.value);
      }
    }
  }

  lemma FoundInviteOf(s: Store, c: Ptr, d: Option<Ptr>)
    requires Inv(s) && c in s.calls && (d.Some? ==> d.value in CallOf(s, c).dialogs)
    ensures c in s.callAt && (d.Some? ==> Live(s, d.value) && d.value in s.dialogAt)
    ensures FindLastIncInvite(s, c, d).Some? ==> FindLastIncInvite(s, c, d).value in s.trAt
    ensures FindLastOutInvite(s, c, d).Some? ==> FindLastOutInvite(s, c, d).value in s.trAt
  {
    hide Inv;
    InvSlots(s, c);
    if d.Some? {
      InvLive(s, c, d.value);
      FoundInvite(s, c, d.value);
    } else {
      assert forall t | InSlot(s, c, t) :: t in s.trAt;
    }
  }

  lemma SwapReady(s: Store, c: Ptr, former: Ptr, t: Ptr, tr: Transaction)
    requires Inv(s) && t !in s.trAt && c in s.calls && CallOf(s, c).outTr == Some(former) && tr.info == Some(JInfo(c, None))
    ensures var r := Swapped(s, c, former, t, tr); Inv(r) && Linked(r)
  {
    hide Inv, Linked, Held, Placed;
    BornKeeps(s, t, tr);
    SwapPlaced(WithTr(s, t, tr), c, former, t);
    PlacedInv(WithTr(s, t, tr), Swapped(s, c, former, t, tr), t);
  }

  lemma PlacedInv(s: Store, r: Store, t: Ptr)
    requires Placed(s, r, t)
    ensures Inv(r) && Linked(r)
  {
  }

  lemma DroppedLinked(s: Store, c: Ptr, d: Ptr)
    requires Inv(s) && c in s.calls && d in CallOf(s, c).dialogs
    ensures Linked(Updated(DialogFreed(Unlinked(s, c, d), d)))
  {
    hide Linked, Updated, DialogFreed, Unlinked, CallsOk, Owned;
    InvApart(s, c);
    FreedStep(s, c, d);
    FreedLinked(s, DialogFreed(Unlinked(s, c, d), d), c, d);
    RenumberedKeeps(DialogFreed(Unlinked(s, c, d), d));
  }

  lemma RenumberedKeeps(s: Store)
    requires Linked(s)
    ensures Linked(Updated(s))
  {
    hide Updated;
    var r := Updated(s);
    forall c | c in s.calls ensures r.callAt[c].dialogs == s.callAt[c].dialogs {
      assert r.callAt[c].(id := 0) == s.callAt[c].(id := 0);
    }
  }

  lemma ListedLinked(s: Store, d: Ptr, t: Ptr, info: JInfo)
    requires Linked(s) && d in s.dialogAt
    ensures var r := IncListed(Reporting(s, t, info), d, t); Linked(r) && d in r.dialogAt
  {
  }

  lemma NewDialogLinked(s: Store, c: Ptr, d: Ptr, dialog: Dialog)
    requires Inv(s) && c !in s.callAt && d !in s.dialogAt
    ensures Linked(DialogAdded(CallAdded(s, c), c, d, dialog))
  {
    hide Inv, Held, Linked;
    CallAddedKeeps(s, c);
    InvLinked(CallAdded(s, c));
    DialogAddedLinked(CallAdded(s, c), c, d, dialog);
  }

  lemma MadeLinked(s: Store, c: Ptr, d: Ptr, dialog: Dialog)
    requires Inv(s) && c in s.calls && d !in s.dialogAt
    ensures Linked(DialogAdded(s, c, d, dialog))
  {
    hide Inv, Held, Linked;
    InvLinked(s);
    DialogAddedLinked(s, c, d, dialog);
  }

  lemma TargetLive(s: Store, ts: set<Ptr>)
    requires Inv(s)
    ensures var target := CancelTarget(s, s.calls, ts, None); target.d.Some? ==> target.d.value in s.dialogAt
  {
    hide Inv, CancelTarget, Listed;
    if CancelTarget(s, s.calls, ts, None).d.Some? {
      var c := CancelTargetPlace(s, s.calls, ts, None);
      InvAllocated(s, c, CancelTarget(s, s.calls, ts, None).d.value);
    }
  }

  lemma BornInv(s: Store, t: Ptr, tr: Transaction)
    requires Inv(s) && t !in s.trAt
    ensures Inv(WithTr(s, t, tr)) && Linked(WithTr(s, t, tr))
  {
    hide Inv, Held, Linked;
    BornKeeps(s, t, tr);
    InvLinked(WithTr(s, t, tr));
  }

  lemma MatchingIn(s: Store, s1: Store, matches: set<Ptr>)
    requires s1 == s.(trAt := s1.trAt) && Inv(s)
    ensures var p := MatchingPlace(s1, s1.calls, matches);
      p == MatchingPlace(s, s.calls, matches) && (p.Some? ==> p.value.d.value in s.dialogAt)
  {
    hide Inv, MatchingPlace, Listed;
    MatchingSame(s, s1, s.calls, matches);
    var p := MatchingPlace(s, s.calls, matches);
    if p.Some? {
      InvAllocated(s, p.value.c, p.value.d.value);
    }
  }

  // ----- the lost-200 timer -----

  function Below(t: Ptr): (r: set<Ptr>)
    ensures forall k | k in r :: k < t
  {
    if t == 0 then {} else Below(t - 1) + {t - 1}
  }

  /** One event of a run. */
  ghost predicate Happens(s: Store, r: Store, e: Event, now: int) {
    Enabled(World(s, now), e) && Step(World(s, now), e) == World(r, now)
  }

  /** A run of events, at one moment. */
  ghost predicate Happened(s: Store, r: Store, es: seq<Event>, now: int) {
    Good(World(s, now)) && AllEnabled(World(s, now), es) && Run(World(s, now), es) == World(r, now)
  }

  ghost predicate SameLinks(s: Store, r: Store) {
    r.calls == s.calls && forall c :: CallOf(r, c).dialogs == CallOf(s, c).dialogs
  }

  lemma {:induction false} RunJoin(w: World, es: seq<Event>, fs: seq<Event>)
    requires AllEnabled(w, es) && AllEnabled(Run(w, es), fs)
    ensures AllEnabled(w, es + fs) && Run(w, es + fs) == Run(Run(w, es), fs)
    decreases |es|
  {
    hide Enabled, Step;
    if es == [] {
      assert es + fs == fs;
    } else {
      assert (es + fs)[1..] == es[1..] + fs && (es + fs)[0] == es[0];
      RunJoin(Step(w, es[0]), es[1..], fs);
    }
  }

  lemma RunOne(w: World, e: Event)
    requires Enabled(w, e)
    ensures AllEnabled(w, [e]) && Run(w, [e]) == Step(w, e)
  {
    hide Enabled, Step;
    assert [e][1..] == [];
    assert Run(Step(w, e), []) == Step(w, e);
    assert AllEnabled(Step(w, e), []);
  }

  lemma HappenedNothing(s: Store, now: int)
    requires Good(World(s, now))
    ensures Happened(s, s, [], now) && SameLinks(s, s)
  {
    hide Good, Enabled, Step;
  }

  lemma HappenedMore(s0: Store, s: Store, r: Store, es: seq<Event>, e: Event, now: int)
    requires Happened(s0, s, es, now) && SameLinks(s0, s) && Happens(s, r, e, now) && SameLinks(s, r)
    ensures Happened(s0, r, es + [e], now) && SameLinks(s0, r)
  {
    hide Good, Enabled, Step, AllEnabled, Run;
    RunOne(World(s, now), e);
    RunJoin(World(s0, now), es, [e]);
  }

  lemma SendingsAfter(s0: Store, s: Store, es: seq<Event>, fs: seq<Event>, now: int)
    requires Happened(s0, s, es, now)
    ensures Sendings(World(s0, now), es + fs) == Sendings(World(s0, now), es) + Sendings(World(s, now), fs)
  {
    hide Good, AllEnabled, Run, Sendings;
    SendingsJoin(World(s0, now), es, fs);
  }

  lemma HappenedSends(s0: Store, s: Store, es: seq<Event>, now: int)
    requires Happened(s0, s, es, now)
    ensures OwnOnly(Sendings(World(s0, now), es))
  {
    hide Good, AllEnabled, Run, Sendings, OwnOnly;
    RunsSendOwn(World(s0, now), es);
  }

  lemma FiredSending(s: Store, r: Store, c: Ptr, d: Ptr, now: int)
    requires CallOf(s, c).dialogs != [] && r == SetDialog(s, d, Resent(DialogOf(s, d), now))
    ensures var first := CallOf(s, c).dialogs[0];
      SendingOf(World(s, now), TimerFired(c, d)) == [Sending(d, first, !DialogOf(r, first).ok200)]
  {
  }

  lemma NothingYet(s: Store, now: int)
    ensures Sendings(World(s, now), []) == []
  {
  }

  lemma GivenUpSending(w: World, e: Event)
    requires e.TimerRanOut?
    ensures SendingOf(w, e) == []
  {
  }

  lemma SendingsMore(s0: Store, s: Store, es: seq<Event>, e: Event, now: int)
    requires Happened(s0, s, es, now)
    ensures Sendings(World(s0, now), es + [e]) == Sendings(World(s0, now), es) + SendingOf(World(s, now), e)
  {
    hide Good, AllEnabled, Run, Sendings, SendingOf, Happened;
    SendingsAfter(s0, s, es, [e], now);
    SendingsOne(World(s, now), e);
  }

  lemma GoodCall(s: Store, c: Ptr, now: int)
    requires Good(World(s, now)) && c in s.calls
    ensures c in s.callAt && NoDup(s.callAt[c].dialogs)
  {
    hide Inv, Sane;
    InvCall(s, c);
  }

  /** In the middle of the loop everything is still in order. */
  lemma HappenedGood(s0: Store, s: Store, es: seq<Event>, c: Ptr, ds: seq<Ptr>, now: int)
    requires Happened(s0, s, es, now) && SameLinks(s0, s) && c in s0.calls && ds == CallOf(s0, c).dialogs
    ensures Good(World(s, now)) && c in s.callAt && c in s.calls && s.callAt[c].dialogs == ds && CallOf(s, c).dialogs == ds && NoDup(ds)
    ensures forall d | d in ds :: d in s.dialogAt && LiveDialog(s, c, d)
  {
    hide Inv, Sane, Enabled, Step, Listed;
    RunsAreGood(World(s0, now), es);
    assert Inv(s);
    InvCall(s, c);
    forall d | d in ds ensures d in s.dialogAt {
      InvAllocated(s, c, d);
    }
  }

  lemma GiveUpReady(s: Store, c: Ptr, d: Ptr, t: Ptr, toTag: bool, now: int)
    requires Good(World(s, now)) && LiveDialog(s, c, d) && DialogOf(s, d).count == 5 && t !in s.trAt
    ensures Happens(s, GivenUp(s, c, d, t, toTag, now), TimerRanOut(c, d, t, toTag), now)
    ensures SameLinks(s, GivenUp(s, c, d, t, toTag, now)) && Inv(Acknowledged(s, d))
    ensures forall e :: DialogOf(GivenUp(s, c, d, t, toTag, now), e).timer == DialogOf(s, e).timer
    ensures Tidy(s) && Waiting(DialogOf(s, d)) ==> var r := GivenUp(s, c, d, t, toTag, now);
      && Tidy(r) && TimingAt(r, d) == Dropped(TimingAt(s, d))
      && forall b, e | LiveDialog(s, b, e) && e != d :: TimingAt(r, e) == TimingAt(s, e)
  {
    hide Inv, Sane, GivenUp, Tidy, Waiting, Acknowledged, Held;
    AcknowledgedKeeps(s, c, d);
    GivenUpTimers(s, c, d, t, toTag, now);
    if Tidy(s) && Waiting(DialogOf(s, d)) {
      GivenUpOnly(s, c, d, t, toTag, now);
    }
  }

  lemma FireReady(s: Store, c: Ptr, d: Ptr, now: int)
    requires Good(World(s, now)) && LiveDialog(s, c, d) && Due(DialogOf(s, d), now)
    ensures var r := SetDialog(s, d, Resent(DialogOf(s, d), now));
      Happens(s, r, TimerFired(c, d), now) && SameLinks(s, r) && (Tidy(s) ==> Tidy(r))
  {
    hide Inv, Sane;
    var r := SetDialog(s, d, Resent(DialogOf(s, d), now));
    if Tidy(s) {
      FiredTidy(s, r, d, now);
    }
  }

  lemma FiredTidy(s: Store, r: Store, d: Ptr, now: int)
    requires Tidy(s) && r == SetDialog(s, d, Resent(DialogOf(s, d), now))
    ensures Tidy(r)
  {
    forall e ensures DialogOf(r, e).id == DialogOf(s, e).id && DialogOf(r, e).established == DialogOf(s, e).established {
    }
    forall b, e | LiveDialog(r, b, e) ensures LiveDialog(s, b, e) {
    }
  }

  lemma DropStep(s0: Store, s: Store, r: Store, c: Ptr, ds: seq<Ptr>, i: nat, now: int)
    requires Progress(s0, s, ds, i, now) && i < |ds| && NoDup(ds) && SameLinks(s0, s)
    requires TimingAt(s, ds[i]).waiting && TimingAt(s, ds[i]).count == 5 && TimingAt(r, ds[i]) == Dropped(TimingAt(s, ds[i]))
    requires forall d | d in ds :: LiveDialog(s, c, d)
    requires forall b, d | LiveDialog(s, b, d) && d != ds[i] :: TimingAt(r, d) == TimingAt(s, d)
    ensures Progress(s0, r, ds, i + 1, now)
  {
    hide Progress;
    forall b, d | LiveDialog(s0, b, d) && d !in ds ensures TimingAt(r, d) == TimingAt(s, d) {
      assert LiveDialog(s, b, d);
    }
    forall k | 0 <= k < |ds| && k != i ensures TimingAt(r, ds[k]) == TimingAt(s, ds[k]) {
      assert LiveDialog(s, c, ds[k]);
    }
    ProgressDrop(s0, s, r, ds, i, now);
  }

  lemma GoodCalls(s: Store, now: int)
    requires Good(World(s, now))
    ensures NoDup(s.calls) && Linked(s)
  {
    hide Inv, Sane, Linked;
    InvNoDup(s);
    InvLinked(s);
  }

  lemma SameCalls(s: Store, r: Store)
    requires SameLinks(s, r)
    ensures r.calls == s.calls && forall c :: CallOf(r, c).dialogs == CallOf(s, c).dialogs
  {
  }

  lemma HappenedJoin(s0: Store, s: Store, r: Store, es: seq<Event>, fs: seq<Event>, now: int)
    requires Happened(s0, s, es, now) && SameLinks(s0, s) && Happened(s, r, fs, now) && SameLinks(s, r)
    ensures Happened(s0, r, es + fs, now) && SameLinks(s0, r)
  {
    hide Good, Enabled, Step, AllEnabled, Run;
    RunJoin(World(s0, now), es, fs);
  }

  /** The calls before position i have been passed, the others not touched. */
  ghost predicate PassTo(s0: Store, s: Store, i: nat, now: int) {
    && (forall k | 0 <= k < |s0.calls| && k < i :: Passed(s0, s, s0.calls[k], now))
    && (forall k | i <= k < |s0.calls| :: Untouched(s0, s, s0.calls[k]))
  }

  lemma PassStart(s: Store)
    ensures forall now :: PassTo(s, s, 0, now)
  {
  }

  lemma PassEnd(s0: Store, s: Store, now: int)
    ensures PassTo(s0, s, |s0.calls|, now) ==> forall c | c in s0.calls :: Passed(s0, s, c, now)
  {
    hide Passed;
  }

  lemma TidyCall(s: Store, c: Ptr)
    requires Tidy(s) && c in s.calls
    ensures CallOf(s, c).id >= 1
  {
  }

  lemma PassStep(s0: Store, s: Store, r: Store, i: nat, now: int)
    requires i < |s0.calls| && Linked(s0) && PassTo(s0, s, i, now) && SameLinks(s0, s)
    requires var ds := CallOf(s0, s0.calls[i]).dialogs; (ds == [] && r == s) || Progress(s, r, ds, |ds|, now)
    ensures PassTo(s0, r, i + 1, now)
  {
    var ds := CallOf(s0, s0.calls[i]).dialogs;
    if ds != [] || r != s {
      assert Untouched(s0, s, s0.calls[i]);
      forall k, d | 0 <= k < |s0.calls| && k != i && d in CallOf(s0, s0.calls[k]).dialogs ensures TimingAt(r, d) == TimingAt(s, d) {
        assert LiveDialog(s, s0.calls[k], d);
        assert d !in ds;
      }
      forall k | 0 <= k < |s0.calls| && k < i ensures Passed(s0, r, s0.calls[k], now) {
        assert Passed(s0, s, s0.calls[k], now);
      }
      forall k | i + 1 <= k < |s0.calls| ensures Untouched(s0, r, s0.calls[k]) {
        assert Untouched(s0, s, s0.calls[k]);
      }
    }
  }
}
