/** What eXosip_update makes of the ids: which calls and dialogs get one, in which order, and which lose theirs. */
module CallNumbers {
  import opened CallStore
  import opened CallOps
  import opened CallTimes

  // ----- who has an id afterwards -----

  /** A dialog as eXosip_update leaves it. */
  predicate Right(dialog: Dialog) {
    if dialog.established then dialog.id >= 1 else dialog.id == -1
  }

  ghost predicate AllRight(s: Store) {
    forall b: Ptr, e: Ptr | b in s.calls && e in CallOf(s, b).dialogs :: Right(DialogOf(s, e))
  }

  lemma {:induction false} DialogsNumberedRight(s: Store, ds: seq<Ptr>, e: Ptr)
    requires e in ds || Right(DialogOf(s, e))
    ensures Right(DialogOf(DialogsNumbered(s, ds), e))
    decreases |ds|
  {
    hide SameButIds;
    if ds != [] {
      DialogsNumberedRight(DialogNumbered(s, ds[0]), ds[1..], e);
    }
  }

  lemma {:induction false} CallsNumberedRight(s: Store, cs: seq<Ptr>, b: Ptr, e: Ptr)
    requires (b in cs && e in CallOf(s, b).dialogs) || Right(DialogOf(s, e))
    ensures Right(DialogOf(CallsNumbered(s, cs), e))
    decreases |cs|
  {
    hide SameButIds, DialogsNumbered, Right;
    if cs != [] {
      var ds := CallOf(s, cs[0]).dialogs;
      var s1 := CallNumbered(s, cs[0]);
      var s2 := DialogsNumbered(s1, ds);
      assert DialogOf(s1, e) == DialogOf(s, e);
      if e in ds || Right(DialogOf(s1, e)) {
        DialogsNumberedRight(s1, ds, e);
      }
      DialogsNumberedCalls(s1, ds);
      assert CallOf(s2, b).dialogs == CallOf(s, b).dialogs;
      CallsNumberedRight(s2, cs[1..], b, e);
    }
  }

  lemma UpdatedRight(s: Store)
    ensures AllRight(Updated(s))
  {
    hide CallsNumbered, SameButIds, Right;
    var s1 := if s.nextId > 100000 then s.(nextId := 1) else s;
    var r := Updated(s);
    SameIdsCalls(s, r);
    forall b: Ptr, e: Ptr | b in r.calls && e in CallOf(r, b).dialogs ensures Right(DialogOf(r, e)) {
      assert CallOf(r, b).(id := 0) == CallOf(s, b).(id := 0);
      CallsNumberedRight(s1, s.calls, b, e);
    }
  }

  lemma SameIdsCalls(s: Store, r: Store)
    requires SameButIds(s, r)
    ensures r.calls == s.calls && forall b: Ptr :: CallOf(r, b).(id := 0) == CallOf(s, b).(id := 0)
  {
    forall b: Ptr ensures CallOf(r, b).(id := 0) == CallOf(s, b).(id := 0) {
      if b in s.callAt {
        assert r.callAt[b].(id := 0) == s.callAt[b].(id := 0);
      }
    }
  }

  // ----- which id -----

  /** An established dialog without an id. */
  predicate Wanting(dialog: Dialog) {
    dialog.established && dialog.id < 1
  }

  /** How many of the dialogs want an id. */
  function Wanted(s: Store, ds: seq<Ptr>): nat {
    if ds == [] then 0 else (if Wanting(DialogOf(s, ds[0])) then 1 else 0) + Wanted(s, ds[1..])
  }

  /** How many of the calls and their dialogs do. */
  function AllWanted(s: Store, cs: seq<Ptr>): nat {
    if cs == [] then 0
    else (if CallOf(s, cs[0]).id < 1 then 1 else 0) + Wanted(s, CallOf(s, cs[0]).dialogs) + AllWanted(s, cs[1..])
  }

  lemma {:induction false} WantedSame(s: Store, r: Store, ds: seq<Ptr>)
    requires forall d | d in ds :: DialogOf(r, d) == DialogOf(s, d)
    ensures Wanted(r, ds) == Wanted(s, ds)
  {
    if ds != [] {
      WantedSame(s, r, ds[1..]);
    }
  }

  lemma {:induction false} AllWantedSame(s: Store, r: Store, cs: seq<Ptr>)
    requires forall c | c in cs :: CallOf(r, c) == CallOf(s, c) && forall d | d in CallOf(s, c).dialogs :: DialogOf(r, d) == DialogOf(s, d)
    ensures AllWanted(r, cs) == AllWanted(s, cs)
  {
    if cs != [] {
      WantedSame(s, r, CallOf(s, cs[0]).dialogs);
      AllWantedSame(s, r, cs[1..]);
    }
  }

  lemma {:induction false} DialogsElse(s: Store, ds: seq<Ptr>, d: Ptr)
    requires d !in ds
    ensures DialogOf(DialogsNumbered(s, ds), d) == DialogOf(s, d)
    decreases |ds|
  {
    hide SameButIds;
    if ds != [] {
      DialogsElse(DialogNumbered(s, ds[0]), ds[1..], d);
    }
  }

  /** The counter goes up by one for each of them. */
  lemma {:induction false} DialogsCounted(s: Store, ds: seq<Ptr>)
    requires NoDup(ds) && forall d | d in ds :: d in s.dialogAt
    ensures DialogsNumbered(s, ds).nextId == s.nextId + Wanted(s, ds)
    decreases |ds|
  {
    hide SameButIds;
    if ds != [] {
      assert ds[0] !in ds[1..];
      var s1 := DialogNumbered(s, ds[0]);
      WantedSame(s, s1, ds[1..]);
      DialogsCounted(s1, ds[1..]);
    }
  }

  /** The id that dialog k of the list gets. */
  lemma {:induction false} DialogGets(s: Store, ds: seq<Ptr>, k: nat)
    requires NoDup(ds) && k < |ds| && forall d | d in ds :: d in s.dialogAt
    ensures var x := DialogOf(s, ds[k]);
      DialogOf(DialogsNumbered(s, ds), ds[k]) == x.(id := if !x.established then -1 else if x.id >= 1 then x.id else s.nextId + Wanted(s, ds[..k]))
    decreases |ds|
  {
    hide SameButIds;
    assert ds[0] !in ds[1..];
    var s1 := DialogNumbered(s, ds[0]);
    if k == 0 {
      DialogsElse(s1, ds[1..], ds[0]);
    } else {
      assert ds[k] == ds[1..][k - 1] && ds[..k][1..] == ds[1..][..k - 1];
      DialogGets(s1, ds[1..], k - 1);
      WantedSame(s, s1, ds[1..][..k - 1]);
    }
  }

  /** Calls to number: linked, with dialogs of their own. */
  ghost predicate Numberable(s: Store, cs: seq<Ptr>) {
    && NoDup(cs) && (forall c | c in cs :: c in s.callAt && NoDup(CallOf(s, c).dialogs))
    && (forall c, d | c in cs && d in CallOf(s, c).dialogs :: d in s.dialogAt)
    && (forall c, e, d | c in cs && e in cs && c != e && d in CallOf(s, c).dialogs :: d !in CallOf(s, e).dialogs)
  }

  /** After the first call and its dialogs, the others are as before. */
  lemma FirstNumbered(s: Store, cs: seq<Ptr>)
    requires Numberable(s, cs) && cs != []
    ensures var c := cs[0]; var ds := CallOf(s, c).dialogs; var s1 := CallNumbered(s, c); var s2 := DialogsNumbered(s1, ds);
      && Numberable(s2, cs[1..]) && s2.nextId == s.nextId + (if CallOf(s, c).id < 1 then 1 else 0) + Wanted(s, ds)
      && (forall b | b in cs[1..] :: b != c && CallOf(s2, b) == CallOf(s, b)
            && forall d | d in CallOf(s, b).dialogs :: d !in ds && DialogOf(s2, d) == DialogOf(s, d))
      && CallOf(s2, c) == CallOf(s, c).(id := if CallOf(s, c).id < 1 then s.nextId else CallOf(s, c).id)
      && (forall d :: DialogOf(s1, d) == DialogOf(s, d)) && s1.dialogAt == s.dialogAt
      && s1.nextId == s.nextId + (if CallOf(s, c).id < 1 then 1 else 0)
  {
    hide SameButIds, DialogsNumbered, Wanted;
    var c := cs[0];
    var ds := CallOf(s, c).dialogs;
    var s1 := CallNumbered(s, c);
    var s2 := DialogsNumbered(s1, ds);
    DialogsNumberedCalls(s1, ds);
    assert c in cs && c !in cs[1..];
    WantedSame(s, s1, ds);
    DialogsCounted(s1, ds);
    NumberedKeys(s1, ds);
    forall b | b in cs[1..] ensures b != c && b in cs && CallOf(s2, b) == CallOf(s, b) {
    }
    forall b, d | b in cs[1..] && d in CallOf(s, b).dialogs ensures d !in ds && DialogOf(s2, d) == DialogOf(s, d) {
      assert b in cs && b != c;
      DialogsElse(s1, ds, d);
    }
  }

  lemma NumberedKeys(s: Store, ds: seq<Ptr>)
    ensures DialogsNumbered(s, ds).dialogAt.Keys == s.dialogAt.Keys
  {
    hide DialogsNumbered;
    assert SameButIds(s, DialogsNumbered(s, ds));
  }

  lemma {:induction false} CallsElse(s: Store, cs: seq<Ptr>, c: Ptr, d: Ptr)
    requires c !in cs && forall b | b in cs :: d !in CallOf(s, b).dialogs
    ensures var r := CallsNumbered(s, cs); CallOf(r, c) == CallOf(s, c) && DialogOf(r, d) == DialogOf(s, d)
    decreases |cs|
  {
    hide SameButIds, DialogsNumbered;
    if cs != [] {
      var s1 := CallNumbered(s, cs[0]);
      var s2 := DialogsNumbered(s1, CallOf(s, cs[0]).dialogs);
      DialogsNumberedCalls(s1, CallOf(s, cs[0]).dialogs);
      assert cs[0] in cs;
      DialogsElse(s1, CallOf(s, cs[0]).dialogs, d);
      assert forall b | b in cs[1..] :: b in cs && CallOf(s2, b).dialogs == CallOf(s, b).dialogs;
      CallsElse(s2, cs[1..], c, d);
    }
  }

  /** What call c and its dialog k are numbered, where the counter is at n before the call. */
  ghost predicate NumberedFrom(s: Store, r: Store, c: Ptr, k: nat, n: int)
    requires k < |CallOf(s, c).dialogs|
  {
    var call, d := CallOf(s, c), CallOf(s, c).dialogs[k];
    var x := DialogOf(s, d);
    var m := if call.id < 1 then n + 1 else n;
    && CallOf(r, c) == call.(id := if call.id < 1 then n else call.id)
    && DialogOf(r, d) == x.(id := if !x.established then -1 else if x.id >= 1 then x.id else m + Wanted(s, call.dialogs[..k]))
  }

  lemma {:induction false} CallsNumberedExactly(s: Store, cs: seq<Ptr>, i: nat, k: nat)
    requires Numberable(s, cs) && i < |cs| && k < |CallOf(s, cs[i]).dialogs|
    ensures NumberedFrom(s, CallsNumbered(s, cs), cs[i], k, s.nextId + AllWanted(s, cs[..i]))
    decreases |cs|
  {
    hide SameButIds, DialogsNumbered, CallNumbered, Wanted, Numberable;
    FirstNumbered(s, cs);
    var c := cs[0];
    var ds := CallOf(s, c).dialogs;
    var s1 := CallNumbered(s, c);
    var s2 := DialogsNumbered(s1, ds);
    if i == 0 {
      FirstAlloc(s, cs);
      DialogGets(s1, ds, k);
      WantedSame(s, s1, ds[..k]);
      CallsElse(s2, cs[1..], c, ds[k]);
    } else {
      assert cs[1..][i - 1] == cs[i] && cs[..i][1..] == cs[1..][..i - 1] && cs[i] in cs[1..];
      CallsNumberedExactly(s2, cs[1..], i - 1, k);
      assert forall b | b in cs[1..][..i - 1] :: b in cs[1..];
      AllWantedSame(s, s2, cs[1..][..i - 1]);
      WantedSame(s, s2, CallOf(s, cs[i]).dialogs[..k]);
    }
  }

  lemma FirstAlloc(s: Store, cs: seq<Ptr>)
    requires Numberable(s, cs) && cs != []
    ensures var ds := CallOf(s, cs[0]).dialogs;
      NoDup(ds) && (forall d | d in ds :: d in s.dialogAt) && cs[0] !in cs[1..] && forall b, d | b in cs[1..] && d in ds :: d !in CallOf(s, b).dialogs
  {
    assert cs[0] in cs;
    forall b, d | b in cs[1..] && d in CallOf(s, cs[0]).dialogs ensures d !in CallOf(s, b).dialogs {
      assert b in cs && b != cs[0];
    }
  }

  lemma NumberableSame(s: Store, r: Store)
    requires Numberable(s, s.calls) && r == s.(nextId := r.nextId)
    ensures Numberable(r, r.calls)
  {
  }

  lemma LinkedNumberable(s: Store)
    requires Linked(s)
    ensures Numberable(s, s.calls)
  {
  }

  /**
   Ids are handed out from the counter, which starts again at 1 once it is past 100000, to the calls in
   the order of their list, each followed by its dialogs in theirs: to calls, and to established
   dialogs, that have none. Ended dialogs get -1, and all others keep theirs.
   */
  lemma UpdatedExactly(s: Store, i: nat, k: nat)
    requires Linked(s) && i < |s.calls| && k < |CallOf(s, s.calls[i]).dialogs|
    ensures NumberedFrom(s, Updated(s), s.calls[i], k, (if s.nextId > 100000 then 1 else s.nextId) + AllWanted(s, s.calls[..i]))
  {
    hide SameButIds, CallsNumbered, Wanted, AllWanted, Linked, Numberable;
    var s1 := if s.nextId > 100000 then s.(nextId := 1) else s;
    LinkedNumberable(s);
    assert Numberable(s1, s1.calls) by { NumberableSame(s, s1); }
    AllWantedSame(s, s1, s.calls[..i]);
    CallsNumberedExactly(s1, s.calls, i, k);
    WantedSame(s, s1, CallOf(s, s.calls[i]).dialogs[..k]);
  }
}
