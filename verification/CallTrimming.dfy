/**
 What a visit of the release pass does to the transactions of a dialog, and how far it gets, said in
 states, ages, methods and positions, without the functions the visit is made of.
 */
module CallTrimming {
  import opened Numerals
  import opened CallStore
  import opened CallOps
  import opened CallRelease
  import opened CallLookups
  import opened CallProtocol
  import opened CallPass
  import opened CallRequests

  // ----- the six transactions a dialog may wait for -----

  /**
   Six transactions of a dialog: the last BYE that came in and the last that went out, the last INVITE
   that came in and the last that went out, the last REFER that came in and the last that went out.
   */
  ghost predicate Nth(s: Store, c: Ptr, d: Ptr, n: nat, t: Ptr) {
    var inc, out := DialogOf(s, d).incTrs, DialogOf(s, d).outTrs;
    || (n == 0 && Front(s, inc, "BYE", false, t)) || (n == 1 && Front(s, out, "BYE", false, t))
    || (n == 2 && LastIncInvite(s, c, d, t)) || (n == 3 && LastOutInvite(s, c, d, t))
    || (n == 4 && Front(s, inc, "REFER", false, t)) || (n == 5 && Front(s, out, "REFER", false, t))
  }

  /** The state in which each of them is taken to be over. */
  function FinalState(n: nat): State {
    if n == 0 then NIST_TERMINATED
    else if n == 2 || n == 4 then IST_TERMINATED
    else if n == 3 then ICT_TERMINATED
    else NICT_TERMINATED
  }

  /** It is not over, and not older than three minutes: the dialog waits for it. */
  ghost predicate Holds(s: Store, c: Ptr, d: Ptr, n: nat, t: Ptr, now: int) {
    Nth(s, c, d, n, t) && TrOf(s, t).state != FinalState(n) && now <= TrOf(s, t).birth + 180
  }

  /** A BYE or REFER that is not over, and older: it leaves its list, unless one before it is waited for. */
  ghost predicate Drops(s: Store, c: Ptr, d: Ptr, n: nat, t: Ptr, now: int) {
    && n != 2 && n != 3 && Nth(s, c, d, n, t) && TrOf(s, t).state != FinalState(n) && TrOf(s, t).birth + 180 < now
    && forall k: nat, x: Ptr | k < n :: !Holds(s, c, d, k, x, now)
  }

  ghost predicate Dropped(s: Store, c: Ptr, d: Ptr, t: Ptr, now: int) {
    exists n: nat :: Drops(s, c, d, n, t, now)
  }

  // ----- lists without some of their elements -----

  ghost function Sieved(l: seq<Ptr>, gone: iset<Ptr>): (r: seq<Ptr>)
    ensures forall x :: x in r <==> x in l && x !in gone
  {
    if l == [] then []
    else if l[0] in gone then Sieved(l[1..], gone)
    else [l[0]] + Sieved(l[1..], gone)
  }

  lemma {:induction false} SievedTwice(l: seq<Ptr>, a: iset<Ptr>, b: iset<Ptr>)
    ensures Sieved(Sieved(l, a), b) == Sieved(l, a + b)
  {
    if l != [] {
      SievedTwice(l[1..], a, b);
      if l[0] !in a {
        assert Sieved(l, a)[1..] == Sieved(l[1..], a);
      }
    }
  }

  lemma {:induction false} SievedSame(l: seq<Ptr>, a: iset<Ptr>, b: iset<Ptr>)
    requires forall x | x in l :: x in a <==> x in b
    ensures Sieved(l, a) == Sieved(l, b)
  {
    if l != [] {
      SievedSame(l[1..], a, b);
    }
  }

  lemma {:induction false} SievedNothing(l: seq<Ptr>, a: iset<Ptr>)
    requires forall x | x in l :: x !in a
    ensures Sieved(l, a) == l
  {
    if l != [] {
      SievedNothing(l[1..], a);
    }
  }

  lemma {:induction false} RemoveSieves(l: seq<Ptr>, t: Ptr)
    requires NoDup(l)
    ensures Remove(l, t) == Sieved(l, iset{t})
  {
    if l != [] {
      assert l[0] !in l[1..];
      if l[0] == t {
        SievedNothing(l[1..], iset{t});
      } else {
        RemoveSieves(l[1..], t);
      }
    }
  }

  lemma {:induction false} SievedNoDup(l: seq<Ptr>, a: iset<Ptr>)
    requires NoDup(l)
    ensures NoDup(Sieved(l, a))
  {
    if l != [] {
      assert l[0] !in l[1..];
      SievedNoDup(l[1..], a);
    }
  }

  /** x has something in front of it that is left. */
  ghost predicate Behind(l: seq<Ptr>, gone: iset<Ptr>, x: Ptr) {
    x !in gone && exists i, j :: 0 <= j < i < |l| && l[i] == x && l[j] !in gone
  }

  lemma {:induction false} BehindSieved(l: seq<Ptr>, gone: iset<Ptr>, x: Ptr)
    ensures Behind(l, gone, x) <==> exists i :: 1 <= i < |Sieved(l, gone)| && Sieved(l, gone)[i] == x
  {
    if l != [] {
      var r := Sieved(l, gone);
      if l[0] in gone {
        BehindSieved(l[1..], gone, x);
        BehindShift(l, gone, x);
      } else {
        assert r == [l[0]] + Sieved(l[1..], gone);
        BehindHead(l, gone, x);
        assert x in Sieved(l[1..], gone) <==> x in r[1..];
        if x in r[1..] {
          var k :| 0 <= k < |r[1..]| && r[1..][k] == x;
          assert r[k + 1] == x;
        }
        if i :| 1 <= i < |r| && r[i] == x {
          assert r[1..][i - 1] == x;
        }
      }
    }
  }

  lemma BehindHead(l: seq<Ptr>, gone: iset<Ptr>, x: Ptr)
    requires l != [] && l[0] !in gone
    ensures Behind(l, gone, x) <==> x in l[1..] && x !in gone
  {
    if Behind(l, gone, x) {
      var i, j :| 0 <= j < i < |l| && l[i] == x && l[j] !in gone;
      assert l[1..][i - 1] == x;
    }
    if x in l[1..] {
      var k :| 0 <= k < |l[1..]| && l[1..][k] == x;
      assert l[k + 1] == x;
    }
  }

  lemma BehindShift(l: seq<Ptr>, gone: iset<Ptr>, x: Ptr)
    requires l != [] && l[0] in gone
    ensures Behind(l, gone, x) <==> Behind(l[1..], gone, x)
  {
    if Behind(l, gone, x) {
      var i, j :| 0 <= j < i < |l| && l[i] == x && l[j] !in gone;
      assert l[1..][i - 1] == x && l[1..][j - 1] == l[j];
    }
    if Behind(l[1..], gone, x) {
      var i, j :| 0 <= j < i < |l[1..]| && l[1..][i] == x && l[1..][j] !in gone;
      assert l[i + 1] == x && l[j + 1] == l[1..][j];
    }
  }

  /** x stands before y. */
  ghost predicate Before(l: seq<Ptr>, x: Ptr, y: Ptr) {
    exists i, j :: 0 <= i < j < |l| && l[i] == x && l[j] == y
  }

  lemma {:induction false} BeforeSieved(l: seq<Ptr>, gone: iset<Ptr>, x: Ptr, y: Ptr)
    requires Before(l, x, y) && x !in gone && y !in gone
    ensures Before(Sieved(l, gone), x, y)
  {
    var i, j :| 0 <= i < j < |l| && l[i] == x && l[j] == y;
    var r := Sieved(l[1..], gone);
    assert l[1..][j - 1] == y;
    if i == 0 {
      assert y in r;
      var k :| 0 <= k < |r| && r[k] == y;
      assert Sieved(l, gone)[0] == x && Sieved(l, gone)[k + 1] == y;
    } else {
      assert l[1..][i - 1] == x;
      BeforeSieved(l[1..], gone, x, y);
      var a, b :| 0 <= a < b < |r| && r[a] == x && r[b] == y;
      if l[0] !in gone {
        assert Sieved(l, gone) == [l[0]] + r;
        assert Sieved(l, gone)[a + 1] == x && Sieved(l, gone)[b + 1] == y;
      }
    }
  }

  /** The frontmost of a method that is left. */
  ghost predicate FrontLeft(s: Store, l: seq<Ptr>, m: string, gone: iset<Ptr>, x: Ptr) {
    x !in gone && exists i :: 0 <= i < |l| && l[i] == x && Is(s, x, m, false) && forall j | 0 <= j < i && Is(s, l[j], m, false) :: l[j] in gone
  }

  lemma {:induction false} FrontLeftFound(s: Store, l: seq<Ptr>, m: string, gone: iset<Ptr>, x: Ptr)
    ensures FrontLeft(s, l, m, gone, x) <==> FirstWith(s, Sieved(l, gone), m, false) == Some(x)
  {
    hide EqualFold;
    if l != [] {
      FrontLeftFound(s, l[1..], m, gone, x);
      if l[0] in gone || !Is(s, l[0], m, false) {
        FrontLeftShift(s, l, m, gone, x);
        if l[0] !in gone {
          assert Sieved(l, gone)[1..] == Sieved(l[1..], gone);
        }
      } else {
        assert FirstWith(s, Sieved(l, gone), m, false) == Some(l[0]);
        assert l[0] == x ==> FrontLeft(s, l, m, gone, x);
      }
    }
  }

  lemma FrontLeftShift(s: Store, l: seq<Ptr>, m: string, gone: iset<Ptr>, x: Ptr)
    requires l != [] && (l[0] in gone || !Is(s, l[0], m, false))
    ensures FrontLeft(s, l, m, gone, x) <==> FrontLeft(s, l[1..], m, gone, x)
  {
    hide Is;
    if FrontLeft(s, l, m, gone, x) {
      var i :| 0 <= i < |l| && l[i] == x && Is(s, x, m, false) && forall j | 0 <= j < i && Is(s, l[j], m, false) :: l[j] in gone;
      assert l[1..][i - 1] == x;
      assert forall j | 0 <= j < i - 1 :: l[1..][j] == l[j + 1];
    }
    if FrontLeft(s, l[1..], m, gone, x) {
      var i :| 0 <= i < |l[1..]| && l[1..][i] == x && Is(s, x, m, false) && forall j | 0 <= j < i && Is(s, l[1..][j], m, false) :: l[1..][j] in gone;
      assert l[i + 1] == x;
      forall j | 0 <= j < i + 1 && Is(s, l[j], m, false) ensures l[j] in gone {
        if j > 0 {
          assert l[1..][j - 1] == l[j];
        }
      }
    }
  }

  // ----- what the checks for something pending do -----

  ghost function Found(s: Store, c: Ptr, d: Ptr, n: nat): Option<Ptr> {
    if n == 0 then FindLastInc(s, d, "BYE")
    else if n == 1 then FindLastOut(s, d, "BYE")
    else if n == 2 then FindLastIncInvite(s, c, Some(d))
    else if n == 3 then FindLastOutInvite(s, c, Some(d))
    else if n == 4 then FindLastInc(s, d, "REFER")
    else if n == 5 then FindLastOut(s, d, "REFER")
    else None
  }

  ghost predicate GoesNth(s: Store, c: Ptr, d: Ptr, n: nat, now: int) {
    GoesOn(s, Found(s, c, d, n), FinalState(n), now)
  }

  /** What one of the checks takes out. */
  ghost function TakenOf(s: Store, t: Option<Ptr>, done: State, now: int): iset<Ptr> {
    if Stuck(s, t, done, now) then iset{t.value} else iset{}
  }

  /** The n-th of the six, if it is stuck. */
  ghost function StuckNth(s: Store, c: Ptr, d: Ptr, n: nat, now: int): iset<Ptr> {
    TakenOf(s, Found(s, c, d, n), FinalState(n), now)
  }

  lemma NthFound(s: Store, c: Ptr, d: Ptr, n: nat, t: Ptr)
    ensures Nth(s, c, d, n, t) <==> Found(s, c, d, n) == Some(t)
  {
    hide Front, LastIncInvite, LastOutInvite, FirstWith, FindLastIncInvite, FindLastOutInvite;
    var inc, out := DialogOf(s, d).incTrs, DialogOf(s, d).outTrs;
    FrontFound(s, inc, "BYE", false, t);
    FrontFound(s, out, "BYE", false, t);
    FrontFound(s, inc, "REFER", false, t);
    FrontFound(s, out, "REFER", false, t);
    LastInvitesFound(s, c, d, t);
  }

  lemma HoldsFound(s: Store, c: Ptr, d: Ptr, n: nat, now: int)
    ensures GoesNth(s, c, d, n, now) <==> exists t: Ptr :: Holds(s, c, d, n, t, now)
  {
    hide Nth, Found, FinalState;
    forall t: Ptr ensures Nth(s, c, d, n, t) <==> Found(s, c, d, n) == Some(t) {
      NthFound(s, c, d, n, t);
    }
    if GoesNth(s, c, d, n, now) {
      assert Holds(s, c, d, n, Found(s, c, d, n).value, now);
    }
  }

  lemma DropsFound(s: Store, c: Ptr, d: Ptr, n: nat, x: Ptr, now: int)
    ensures Drops(s, c, d, n, x, now) <==>
      n != 2 && n != 3 && x in StuckNth(s, c, d, n, now) && forall k: nat | k < n :: !GoesNth(s, c, d, k, now)
  {
    hide Nth, Found, FinalState, Holds, GoesNth;
    NthFound(s, c, d, n, x);
    forall k: nat, t: Ptr ensures Holds(s, c, d, k, t, now) ==> GoesNth(s, c, d, k, now) {
      HoldsFound(s, c, d, k, now);
    }
    forall k: nat ensures GoesNth(s, c, d, k, now) ==> exists t: Ptr :: Holds(s, c, d, k, t, now) {
      HoldsFound(s, c, d, k, now);
    }
  }

  /** What is dropped, check by check. */
  ghost function Steps(s: Store, c: Ptr, d: Ptr, now: int): iset<Ptr> {
    var g0, g1 := GoesNth(s, c, d, 0, now), GoesNth(s, c, d, 1, now);
    var g3 := g0 || g1 || GoesNth(s, c, d, 2, now) || GoesNth(s, c, d, 3, now);
    (if g0 then iset{} else StuckNth(s, c, d, 0, now)) + (if g0 || g1 then iset{} else StuckNth(s, c, d, 1, now))
    + (if g3 || GoesNth(s, c, d, 4, now) then iset{} else StuckNth(s, c, d, 4, now) + StuckNth(s, c, d, 5, now))
  }

  lemma StepsExactly(s: Store, c: Ptr, d: Ptr, x: Ptr, now: int)
    ensures x in Steps(s, c, d, now) <==> Dropped(s, c, d, x, now)
  {
    hide Drops, GoesOn, Found, FinalState;
    forall n: nat ensures Drops(s, c, d, n, x, now) <==>
      n != 2 && n != 3 && x in StuckNth(s, c, d, n, now) && forall k: nat | k < n :: !GoesNth(s, c, d, k, now)
    {
      DropsFound(s, c, d, n, x, now);
    }
    StuckApart(s, c, d, 0, now);
    StuckApart(s, c, d, 1, now);
    StuckApart(s, c, d, 4, now);
    StuckApart(s, c, d, 5, now);
    FoundSix(s, c, d, x, now);
    hide StuckNth, GoesNth;
    if x in Steps(s, c, d, now) {
      assert Drops(s, c, d, 0, x, now) || Drops(s, c, d, 1, x, now) || Drops(s, c, d, 4, x, now) || Drops(s, c, d, 5, x, now);
    }
    if Dropped(s, c, d, x, now) {
      var n: nat :| Drops(s, c, d, n, x, now);
    }
  }

  lemma StuckApart(s: Store, c: Ptr, d: Ptr, n: nat, now: int)
    ensures GoesNth(s, c, d, n, now) ==> StuckNth(s, c, d, n, now) == iset{}
  {
    hide Found, FinalState;
  }

  lemma FoundSix(s: Store, c: Ptr, d: Ptr, x: Ptr, now: int)
    ensures forall n: nat | n > 5 :: x !in StuckNth(s, c, d, n, now)
  {
  }

  lemma OwnOnce(s: Store, c: Ptr, d: Ptr, t: Ptr)
    requires Inv(s) && c in s.calls && d in CallOf(s, c).dialogs
    ensures multiset(DialogOf(s, d).incTrs)[t] + multiset(DialogOf(s, d).outTrs)[t] <= 1
  {
    hide Linked, CallsOk, DialogsHeld, CallsHeld;
    CallHeldAmong(s, s.calls, c);
    DialogHeldAmong(s, CallOf(s, c).dialogs, d);
    assert Held(s)[t] <= 1;
  }

  /** A dialog's lists share nothing, and repeat nothing. */
  lemma ListsApart(s: Store, c: Ptr, d: Ptr)
    requires Inv(s) && c in s.calls && d in CallOf(s, c).dialogs
    ensures NoDup(DialogOf(s, d).incTrs) && NoDup(DialogOf(s, d).outTrs)
    ensures forall t | t in DialogOf(s, d).incTrs :: t !in DialogOf(s, d).outTrs
  {
    hide Inv, NoDup;
    var inc, out := DialogOf(s, d).incTrs, DialogOf(s, d).outTrs;
    forall t ensures multiset(inc)[t] + multiset(out)[t] <= 1 {
      OwnOnce(s, c, d, t);
    }
    OnceNoDup(inc);
    OnceNoDup(out);
    forall t | t in inc ensures t !in out {
      assert multiset(inc)[t] + multiset(out)[t] <= 1;
    }
  }

  lemma OnceNoDup(l: seq<Ptr>)
    requires forall t :: multiset(l)[t] <= 1
    ensures NoDup(l)
  {
    forall i, j | 0 <= i < j < |l| ensures l[i] != l[j] {
      assert l == l[..j] + l[j..];
      assert l[i] in l[..j] && l[j] in l[j..];
      assert multiset(l) == multiset(l[..j]) + multiset(l[j..]);
      assert multiset(l)[l[j]] <= 1;
    }
  }

  ghost predicate SievedLists(s: Store, r: Store, d: Ptr, a: iset<Ptr>) {
    DialogOf(r, d).incTrs == Sieved(DialogOf(s, d).incTrs, a) && DialogOf(r, d).outTrs == Sieved(DialogOf(s, d).outTrs, a)
  }

  lemma SievedJoin(s: Store, m: Store, r: Store, d: Ptr, a: iset<Ptr>, b: iset<Ptr>)
    requires SievedLists(s, m, d, a) && SievedLists(m, r, d, b)
    ensures SievedLists(s, r, d, a + b)
  {
    SievedTwice(DialogOf(s, d).incTrs, a, b);
    SievedTwice(DialogOf(s, d).outTrs, a, b);
  }

  lemma SievedSelf(s: Store, r: Store, d: Ptr)
    requires DialogOf(r, d) == DialogOf(s, d)
    ensures SievedLists(s, r, d, iset{})
  {
    SievedNothing(DialogOf(s, d).incTrs, iset{});
    SievedNothing(DialogOf(s, d).outTrs, iset{});
  }

  lemma CheckSieves(s: Store, t: Option<Ptr>, done: State, c: Ptr, d: Ptr, now: int)
    requires Inv(s) && c in s.calls && d in CallOf(s, c).dialogs && (t.Some? ==> Listed(s, d, t.value))
    ensures var r := Check(s, t, done, c, now, true);
      SievedLists(s, r.s, d, TakenOf(s, t, done, now)) && r.yes == GoesOn(s, t, done, now)
  {
    hide Inv, RemovedFromCall, Trimmed, Remove, Sieved;
    if Stuck(s, t, done, now) {
      TakenTwin(s, c, d, t.value);
      ListsApart(s, c, d);
      WithoutSieves(DialogOf(s, d), t.value);
    } else {
      SievedSelf(s, s, d);
    }
  }

  lemma WithoutSieves(dialog: Dialog, t: Ptr)
    requires NoDup(dialog.incTrs) && NoDup(dialog.outTrs) && forall x | x in dialog.incTrs :: x !in dialog.outTrs
    ensures DialogWithout(dialog, t).incTrs == Sieved(dialog.incTrs, iset{t})
    ensures DialogWithout(dialog, t).outTrs == Sieved(dialog.outTrs, iset{t})
  {
    hide Remove, Sieved;
    if t in dialog.incTrs {
      RemoveSieves(dialog.incTrs, t);
      SievedNothing(dialog.outTrs, iset{t});
    } else {
      RemoveSieves(dialog.outTrs, t);
      SievedNothing(dialog.incTrs, iset{t});
    }
  }

  lemma TakenSame(s: Store, r: Store, t: Option<Ptr>, done: State, now: int)
    requires r.trAt == s.trAt
    ensures TakenOf(r, t, done, now) == TakenOf(s, t, done, now)
  {
  }

  /** The first two checks. */
  lemma ByesSieve(s: Store, c: Ptr, d: Ptr, now: int) returns (r1: Checked, r2: Checked)
    requires Inv(s) && c in s.calls && d in CallOf(s, c).dialogs
    ensures r1 == Check(s, FindLastInc(s, d, "BYE"), NIST_TERMINATED, c, now, true)
    ensures r2 == Check(r1.s, FindLastOut(r1.s, d, "BYE"), NICT_TERMINATED, c, now, true)
    ensures r1.yes == GoesNth(s, c, d, 0, now) && r2.yes == GoesNth(s, c, d, 1, now)
    ensures SievedLists(s, r1.s, d, StuckNth(s, c, d, 0, now))
    ensures SievedLists(s, r2.s, d, StuckNth(s, c, d, 0, now) + StuckNth(s, c, d, 1, now))
    ensures SameFinds(s, r1.s, c, d) && SameFinds(s, r2.s, c, d)
  {
    hide Inv, Check, FirstWith, HasMethod, GoesOn, FindLastIncInvite, FindLastOutInvite, SievedLists, TakenOf;
    r1, r2 := ByesChecked(s, c, d, now);
    var inc := FindLastInc(s, d, "BYE");
    ByeChecked(s, inc, NIST_TERMINATED, c, d, now);
    var out := FindLastOut(r1.s, d, "BYE");
    assert out == FindLastOut(s, d, "BYE");
    CheckSieves(s, inc, NIST_TERMINATED, c, d, now);
    CheckSieves(r1.s, out, NICT_TERMINATED, c, d, now);
    TakenSame(s, r1.s, out, NICT_TERMINATED, now);
    SievedJoin(s, r1.s, r2.s, d, TakenOf(s, inc, NIST_TERMINATED, now), TakenOf(s, out, NICT_TERMINATED, now));
  }

  ghost predicate SameInvites(s: Store, r: Store, c: Ptr, d: Ptr) {
    && r.trAt == s.trAt && Inv(r) && c in r.calls && d in CallOf(r, c).dialogs
    && FindLastIncInvite(r, c, Some(d)) == FindLastIncInvite(s, c, Some(d))
    && FindLastOutInvite(r, c, Some(d)) == FindLastOutInvite(s, c, Some(d))
  }

  lemma ReferSieves(s: Store, t: Option<Ptr>, done: State, c: Ptr, d: Ptr, now: int)
    requires Inv(s) && c in s.calls && d in CallOf(s, c).dialogs
    requires t.Some? ==> Listed(s, d, t.value) && HasMethod(s, t.value, "REFER", false)
    ensures var r := Check(s, t, done, c, now, true);
      && SievedLists(s, r.s, d, TakenOf(s, t, done, now)) && r.yes == GoesOn(s, t, done, now) && SameInvites(s, r.s, c, d)
      && (t.Some? && t.value in DialogOf(s, d).incTrs ==> FindLastOut(r.s, d, "REFER") == FindLastOut(s, d, "REFER"))
      && (t.None? ==> r.s == s)
  {
    hide Inv, RemovedFromCall, DialogWithout, FirstWith, HasMethod, Trimmed, SievedLists;
    CheckSieves(s, t, done, c, d, now);
    if Stuck(s, t, done, now) {
      TakenTwin(s, c, d, t.value);
      ReferNoInvite(s, t.value);
      CallPass.InvitesFound(s, c, d, t.value);
      if t.value in DialogOf(s, d).incTrs {
        OutStillFound(s, d, t.value, "REFER");
      }
    }
  }

  lemma ReferNoInvite(s: Store, t: Ptr)
    ensures HasMethod(s, t, "REFER", false) ==> !HasMethod(s, t, "INVITE", true)
  {
  }

  /** The last two checks. */
  lemma RefersSieve(s: Store, m: Store, c: Ptr, d: Ptr, now: int) returns (r5: Checked, r6: Checked)
    requires SameFinds(s, m, c, d)
    ensures r5 == Check(m, FindLastInc(m, d, "REFER"), IST_TERMINATED, c, now, true)
    ensures r6 == Check(r5.s, FindLastOut(r5.s, d, "REFER"), NICT_TERMINATED, c, now, true)
    ensures r5.yes == GoesNth(s, c, d, 4, now) && r6.yes == GoesNth(s, c, d, 5, now)
    ensures SievedLists(m, r5.s, d, StuckNth(s, c, d, 4, now))
    ensures SievedLists(m, r6.s, d, StuckNth(s, c, d, 4, now) + StuckNth(s, c, d, 5, now))
    ensures SameInvites(m, r5.s, c, d) && SameInvites(m, r6.s, c, d)
  {
    hide Inv, Check, FirstWith, HasMethod, GoesOn, FindLastIncInvite, FindLastOutInvite, SievedLists, TakenOf;
    var inc, out := FindLastInc(m, d, "REFER"), FindLastOut(m, d, "REFER");
    r5 := Check(m, inc, IST_TERMINATED, c, now, true);
    ReferSieves(m, inc, IST_TERMINATED, c, d, now);
    assert FindLastOut(r5.s, d, "REFER") == out;
    r6 := Check(r5.s, out, NICT_TERMINATED, c, now, true);
    ReferSieves(r5.s, out, NICT_TERMINATED, c, d, now);
    TakenSame(s, m, inc, IST_TERMINATED, now);
    TakenSame(s, r5.s, out, NICT_TERMINATED, now);
    GoesOnSame(s, m, inc, IST_TERMINATED, now);
    GoesOnSame(s, r5.s, out, NICT_TERMINATED, now);
    SievedJoin(m, r5.s, r6.s, d, TakenOf(s, inc, IST_TERMINATED, now), TakenOf(s, out, NICT_TERMINATED, now));
  }

  /** All six: the dialog's lists lose what is dropped, and the checks go on unless one of the six holds them. */
  lemma PendingSieves(s: Store, c: Ptr, d: Ptr, now: int)
    requires Inv(s) && c in s.calls && d in CallOf(s, c).dialogs
    ensures var p := Pending(s, c, d, now);
      && SievedLists(s, p.s, d, Steps(s, c, d, now)) && SameInvites(s, p.s, c, d)
      && p.yes == (exists n: nat :: n < 6 && GoesNth(s, c, d, n, now))
  {
    hide Inv, Check, FirstWith, HasMethod, GoesOn, FindLastIncInvite, FindLastOutInvite, SievedLists, StuckNth, GoesNth, FindLastInc, FindLastOut;
    forall n: nat ensures GoesNth(s, c, d, n, now) ==> StuckNth(s, c, d, n, now) == iset{} {
      StuckApart(s, c, d, n, now);
    }
    var r1, r2 := ByesSieve(s, c, d, now);
    var g0, g1, g2, g3 := GoesNth(s, c, d, 0, now), GoesNth(s, c, d, 1, now), GoesNth(s, c, d, 2, now), GoesNth(s, c, d, 3, now);
    var m := r2.s;
    var r5, r6 := RefersSieve(s, m, c, d, now);
    InvitesHold(s, m, c, d, now);
    var b0, b1, b4, b5 := StuckNth(s, c, d, 0, now), StuckNth(s, c, d, 1, now), StuckNth(s, c, d, 4, now), StuckNth(s, c, d, 5, now);
    SievedJoin(s, m, r5.s, d, b0 + b1, b4);
    SievedJoin(s, m, r6.s, d, b0 + b1, b4 + b5);
    if g0 {
      assert Steps(s, c, d, now) == b0;
    } else if g1 {
      assert Steps(s, c, d, now) == b0 + b1;
    } else if g2 || g3 {
      assert Steps(s, c, d, now) == b0 + b1;
    } else if GoesNth(s, c, d, 4, now) {
      assert Steps(s, c, d, now) == b0 + b1 + b4;
    } else {
      assert Steps(s, c, d, now) == b0 + b1 + (b4 + b5);
      assert (exists n: nat :: n < 6 && GoesNth(s, c, d, n, now)) ==> GoesNth(s, c, d, 5, now);
    }
  }

  lemma InvitesHold(s: Store, m: Store, c: Ptr, d: Ptr, now: int)
    requires SameFinds(s, m, c, d)
    ensures Check(m, FindLastIncInvite(m, c, Some(d)), IST_TERMINATED, c, now, false) == Checked(m, GoesNth(s, c, d, 2, now))
    ensures Check(m, FindLastOutInvite(m, c, Some(d)), ICT_TERMINATED, c, now, false) == Checked(m, GoesNth(s, c, d, 3, now))
  {
    hide Inv, FindLastIncInvite, FindLastOutInvite, FindLastInc, FindLastOut;
  }

  // ----- finished transactions -----

  /** The dialog waits while one of the six holds it. */
  ghost predicate Waits(s: Store, c: Ptr, d: Ptr, now: int) {
    exists n: nat, t: Ptr :: Holds(s, c, d, n, t, now)
  }

  ghost function Cleared(s: Store, c: Ptr, d: Ptr, now: int): iset<Ptr> {
    iset t: Ptr | Dropped(s, c, d, t, now)
  }

  /** Over for 30 seconds: an INVITE in its state, unless it is the last of its list, and others in theirs. */
  ghost predicate Done(s: Store, l: seq<Ptr>, t: Ptr, inviteDone: State, otherDone: State, now: int) {
    && TrOf(s, t).birth + 30 < now
    && if EqualFold(TrOf(s, t).cseqMethod, "INVITE") then TrOf(s, t).state == inviteDone && !Front(s, l, "INVITE", true, t)
       else TrOf(s, t).state == otherDone
  }

  lemma {:induction false} FirstReleasableExactly(s: Store, l: seq<Ptr>, pos: nat, keep: Option<Ptr>, inviteDone: State, otherDone: State, now: int)
    ensures var k := FirstReleasable(s, l, pos, keep, inviteDone, otherDone, now);
      && (k < |l| ==> Releasable(s, l[k], keep, inviteDone, otherDone, now))
      && forall i | pos <= i < k && i < |l| :: !Releasable(s, l[i], keep, inviteDone, otherDone, now)
    decreases |l| - pos
  {
    hide Releasable;
    if pos < |l| && !Releasable(s, l[pos], keep, inviteDone, otherDone, now) {
      FirstReleasableExactly(s, l, pos + 1, keep, inviteDone, otherDone, now);
    }
  }

  /** It is also behind another that is left in its list. */
  ghost predicate Counts(s: Store, l: seq<Ptr>, gone: iset<Ptr>, t: Ptr, inviteDone: State, otherDone: State, now: int) {
    Behind(l, gone, t) && Done(s, l, t, inviteDone, otherDone, now)
  }

  /** The first of a list that counts. */
  ghost predicate CountsFirst(s: Store, l: seq<Ptr>, gone: iset<Ptr>, t: Ptr, inviteDone: State, otherDone: State, now: int) {
    && Counts(s, l, gone, t, inviteDone, otherDone, now)
    && forall x: Ptr | Before(l, x, t) :: !Counts(s, l, gone, x, inviteDone, otherDone, now)
  }

  lemma CountsOnce(s: Store, l: seq<Ptr>, gone: iset<Ptr>, x: Ptr, y: Ptr, inviteDone: State, otherDone: State, now: int)
    requires CountsFirst(s, l, gone, x, inviteDone, otherDone, now) && CountsFirst(s, l, gone, y, inviteDone, otherDone, now)
    ensures x == y
  {
    hide Done, Before, Behind;
    BehindIn(l, gone, x);
    BehindIn(l, gone, y);
    if x != y {
      BeforeEither(l, x, y);
    }
  }

  /** A releasable position is at or behind the one that FirstReleasable finds. */
  lemma CountsAt(m: Store, l: seq<Ptr>, gone: iset<Ptr>, x: Ptr, keep: Option<Ptr>, inviteDone: State, otherDone: State, now: int) returns (i: nat)
    requires Behind(l, gone, x) && Releasable(m, x, keep, inviteDone, otherDone, now)
    ensures var r := Sieved(l, gone); FirstReleasable(m, r, 1, keep, inviteDone, otherDone, now) <= i < |r| && r[i] == x
  {
    hide Releasable, FirstReleasable, Sieved, Behind;
    BehindSieved(l, gone, x);
    var r := Sieved(l, gone);
    i :| 1 <= i < |r| && r[i] == x;
    FirstReleasableExactly(m, r, 1, keep, inviteDone, otherDone, now);
  }

  lemma NoneBefore(s: Store, m: Store, l: seq<Ptr>, gone: iset<Ptr>, x: Ptr, keep: Option<Ptr>, inviteDone: State, otherDone: State, now: int)
    requires NoDup(l) && Releasable(m, x, keep, inviteDone, otherDone, now) == Done(s, l, x, inviteDone, otherDone, now)
    requires Counts(s, l, gone, x, inviteDone, otherDone, now)
    ensures var r := Sieved(l, gone); var k := FirstReleasable(m, r, 1, keep, inviteDone, otherDone, now);
      k < |r| && !Before(l, x, r[k])
  {
    hide Releasable, Done, FirstReleasable, Sieved, Before, Behind, NoDup;
    var r := Sieved(l, gone);
    var k := FirstReleasable(m, r, 1, keep, inviteDone, otherDone, now);
    BehindIn(l, gone, x);
    var i := CountsAt(m, l, gone, x, keep, inviteDone, otherDone, now);
    if Before(l, x, r[k]) {
      EarlierSieved(l, gone, x, k);
    }
  }

  lemma FirstCounts(s: Store, m: Store, l: seq<Ptr>, gone: iset<Ptr>, keep: Option<Ptr>, inviteDone: State, otherDone: State, now: int)
    requires forall x | x in l :: Releasable(m, x, keep, inviteDone, otherDone, now) == Done(s, l, x, inviteDone, otherDone, now)
    ensures var r := Sieved(l, gone); var k := FirstReleasable(m, r, 1, keep, inviteDone, otherDone, now);
      k < |r| ==> Counts(s, l, gone, r[k], inviteDone, otherDone, now)
  {
    hide Releasable, Done, FirstReleasable, Sieved, Behind;
    var r := Sieved(l, gone);
    var k := FirstReleasable(m, r, 1, keep, inviteDone, otherDone, now);
    FirstReleasableExactly(m, r, 1, keep, inviteDone, otherDone, now);
    if k < |r| {
      BehindSieved(l, gone, r[k]);
      BehindIn(l, gone, r[k]);
    }
  }

  /** What FirstReleasable finds among what is left of a list is the first that is over. */
  lemma FirstOver(s: Store, m: Store, l: seq<Ptr>, gone: iset<Ptr>, keep: Option<Ptr>, inviteDone: State, otherDone: State, now: int)
    requires NoDup(l)
    requires forall x | x in l :: Releasable(m, x, keep, inviteDone, otherDone, now) == Done(s, l, x, inviteDone, otherDone, now)
    ensures var r := Sieved(l, gone); var k := FirstReleasable(m, r, 1, keep, inviteDone, otherDone, now);
      && (k < |r| <==> exists x: Ptr :: Counts(s, l, gone, x, inviteDone, otherDone, now))
      && (k < |r| ==> CountsFirst(s, l, gone, r[k], inviteDone, otherDone, now))
  {
    hide Releasable, FirstReleasable, Sieved, Before, Counts, NoDup;
    FirstCounts(s, m, l, gone, keep, inviteDone, otherDone, now);
    forall x: Ptr | Counts(s, l, gone, x, inviteDone, otherDone, now)
      ensures var r := Sieved(l, gone); var k := FirstReleasable(m, r, 1, keep, inviteDone, otherDone, now);
        k < |r| && !Before(l, x, r[k])
    {
      CountsIn(s, l, gone, x, inviteDone, otherDone, now);
      NoneBefore(s, m, l, gone, x, keep, inviteDone, otherDone, now);
    }
  }

  lemma CountsIn(s: Store, l: seq<Ptr>, gone: iset<Ptr>, x: Ptr, inviteDone: State, otherDone: State, now: int)
    requires Counts(s, l, gone, x, inviteDone, otherDone, now)
    ensures x in l && x !in gone
  {
    hide Done;
  }

  lemma BehindIn(l: seq<Ptr>, gone: iset<Ptr>, x: Ptr)
    ensures Behind(l, gone, x) ==> x in l && x !in gone
  {
  }

  /** What stands before r[k] in the list stands before it among what is left. */
  lemma EarlierSieved(l: seq<Ptr>, gone: iset<Ptr>, x: Ptr, k: nat)
    requires NoDup(l) && k < |Sieved(l, gone)| && Before(l, x, Sieved(l, gone)[k]) && x !in gone
    ensures forall i | k <= i < |Sieved(l, gone)| :: Sieved(l, gone)[i] != x
  {
    hide Sieved;
    var r := Sieved(l, gone);
    assert r[k] in r;
    BeforeSieved(l, gone, x, r[k]);
    SievedNoDup(l, gone);
    var i, j :| 0 <= i < j < |r| && r[i] == x && r[j] == r[k];
  }

  lemma BeforeEither(l: seq<Ptr>, x: Ptr, y: Ptr)
    requires x in l && y in l && x != y
    ensures Before(l, x, y) || Before(l, y, x)
  {
    var i :| 0 <= i < |l| && l[i] == x;
    var j :| 0 <= j < |l| && l[j] == y;
  }

  /** What an incoming transaction of the dialog leaves it for as finished: it is the first to count. */
  ghost predicate IncFinished(s: Store, c: Ptr, d: Ptr, t: Ptr, now: int) {
    CountsFirst(s, DialogOf(s, d).incTrs, Cleared(s, c, d, now), t, IST_TERMINATED, NIST_TERMINATED, now)
  }

  ghost predicate OutFinished(s: Store, c: Ptr, d: Ptr, t: Ptr, now: int) {
    CountsFirst(s, DialogOf(s, d).outTrs, Cleared(s, c, d, now), t, ICT_TERMINATED, NICT_TERMINATED, now)
  }

  /** The dialog waits for nothing, and nothing in it is finished. */
  ghost predicate Quiet(s: Store, c: Ptr, d: Ptr, now: int) {
    !Waits(s, c, d, now) && forall t: Ptr :: !IncFinished(s, c, d, t, now) && !OutFinished(s, c, d, t, now)
  }

  lemma ReleasableDone(s: Store, m: Store, l: seq<Ptr>, x: Ptr, keep: Option<Ptr>, inviteDone: State, otherDone: State, now: int)
    requires m.trAt == s.trAt && (keep == Some(x) <==> Front(s, l, "INVITE", true, x))
    ensures Releasable(m, x, keep, inviteDone, otherDone, now) == Done(s, l, x, inviteDone, otherDone, now)
  {
    hide EqualFold, Front;
  }

  /** An INVITE that is kept is the last in the dialog, as the call's own is not in its lists. */
  lemma KeptIsFront(s: Store, c: Ptr, d: Ptr, x: Ptr)
    requires Inv(s) && c in s.calls && d in CallOf(s, c).dialogs && Listed(s, d, x)
    ensures FindLastIncInvite(s, c, Some(d)) == Some(x) <==> Front(s, DialogOf(s, d).incTrs, "INVITE", true, x)
    ensures FindLastOutInvite(s, c, Some(d)) == Some(x) <==> Front(s, DialogOf(s, d).outTrs, "INVITE", true, x)
  {
    hide Front, FindLastIncInvite, FindLastOutInvite, Linked, CallsOk, Own, Held;
    LastInvitesFound(s, c, d, x);
    SlotApart(s, c, d, x);
  }

  /** Some CountsFirst exactly if some Counts: the first of them. */
  lemma {:induction false} CountsSome(s: Store, l: seq<Ptr>, gone: iset<Ptr>, i: nat, inviteDone: State, otherDone: State, now: int)
    requires NoDup(l) && i < |l| && Counts(s, l, gone, l[i], inviteDone, otherDone, now)
    ensures exists x: Ptr :: CountsFirst(s, l, gone, x, inviteDone, otherDone, now)
    decreases i
  {
    hide Counts;
    if j :| 0 <= j < i && Counts(s, l, gone, l[j], inviteDone, otherDone, now) {
      CountsSome(s, l, gone, j, inviteDone, otherDone, now);
    } else {
      assert CountsFirst(s, l, gone, l[i], inviteDone, otherDone, now);
    }
  }

  lemma WithoutIn(l: seq<Ptr>, k: nat)
    requires NoDup(l) && k < |l|
    ensures forall t :: t in Without(l, k) <==> t in l && t != l[k]
  {
    WithoutContents(l, k);
    forall t ensures t in Without(l, k) <==> t in l && t != l[k] {
      if t in Without(l, k) {
        assert t in l;
      }
      if t in l && t != l[k] {
        WithoutKeeps(l, k, t);
      }
    }
  }

  /** At most one counts first, and one does if any counts. */
  lemma CountsApply(s: Store, l: seq<Ptr>, gone: iset<Ptr>, inviteDone: State, otherDone: State, now: int)
    requires NoDup(l)
    ensures (exists x: Ptr :: Counts(s, l, gone, x, inviteDone, otherDone, now))
         <==> exists x: Ptr :: CountsFirst(s, l, gone, x, inviteDone, otherDone, now)
    ensures forall x: Ptr, y: Ptr | CountsFirst(s, l, gone, x, inviteDone, otherDone, now)
                                    && CountsFirst(s, l, gone, y, inviteDone, otherDone, now) :: x == y
  {
    hide Counts, NoDup;
    if x: Ptr :| Counts(s, l, gone, x, inviteDone, otherDone, now) {
      CountsIn(s, l, gone, x, inviteDone, otherDone, now);
      var i :| 0 <= i < |l| && l[i] == x;
      CountsSome(s, l, gone, i, inviteDone, otherDone, now);
    }
    forall x: Ptr, y: Ptr | CountsFirst(s, l, gone, x, inviteDone, otherDone, now) && CountsFirst(s, l, gone, y, inviteDone, otherDone, now)
      ensures x == y
    {
      CountsOnce(s, l, gone, x, y, inviteDone, otherDone, now);
    }
  }

  ghost predicate Sifted(s: Store, m: Store, c: Ptr, d: Ptr, now: int) {
    && Inv(s) && c in s.calls && d in CallOf(s, c).dialogs
    && SievedLists(s, m, d, Cleared(s, c, d, now)) && SameInvites(s, m, c, d)
  }

  /** Position k of list r is the only one that is finished, if it is one. */
  ghost predicate Finds(s: Store, l: seq<Ptr>, gone: iset<Ptr>, r: seq<Ptr>, k: nat, inviteDone: State, otherDone: State, now: int) {
    && NoDup(r)
    && (k < |r| <==> exists x: Ptr :: CountsFirst(s, l, gone, x, inviteDone, otherDone, now))
    && (k < |r| ==> forall x: Ptr :: CountsFirst(s, l, gone, x, inviteDone, otherDone, now) <==> x == r[k])
  }

  lemma FindsApply(s: Store, m: Store, l: seq<Ptr>, gone: iset<Ptr>, keep: Option<Ptr>, inviteDone: State, otherDone: State, now: int)
    requires NoDup(l)
    requires forall x | x in l :: Releasable(m, x, keep, inviteDone, otherDone, now) == Done(s, l, x, inviteDone, otherDone, now)
    ensures var r := Sieved(l, gone);
      Finds(s, l, gone, r, FirstReleasable(m, r, 1, keep, inviteDone, otherDone, now), inviteDone, otherDone, now)
  {
    hide Releasable, Done, FirstReleasable, Sieved, Counts, CountsFirst, NoDup;
    FirstOver(s, m, l, gone, keep, inviteDone, otherDone, now);
    CountsApply(s, l, gone, inviteDone, otherDone, now);
    SievedNoDup(l, gone);
  }

  lemma IncFinds(s: Store, m: Store, c: Ptr, d: Ptr, now: int)
    requires Sifted(s, m, c, d, now)
    ensures var r := DialogOf(m, d).incTrs;
      Finds(s, DialogOf(s, d).incTrs, Cleared(s, c, d, now), r,
            FirstReleasable(m, r, 1, FindLastIncInvite(m, c, Some(d)), IST_TERMINATED, NIST_TERMINATED, now), IST_TERMINATED, NIST_TERMINATED, now)
  {
    hide Inv, Releasable, FirstReleasable, Sieved, FindLastIncInvite, FindLastOutInvite, Cleared, NoDup, Done, Finds, Front;
    var l, keep := DialogOf(s, d).incTrs, FindLastIncInvite(m, c, Some(d));
    ListsApart(s, c, d);
    forall x | x in l ensures Releasable(m, x, keep, IST_TERMINATED, NIST_TERMINATED, now) == Done(s, l, x, IST_TERMINATED, NIST_TERMINATED, now) {
      KeptIsFront(s, c, d, x);
      ReleasableDone(s, m, l, x, keep, IST_TERMINATED, NIST_TERMINATED, now);
    }
    FindsApply(s, m, l, Cleared(s, c, d, now), keep, IST_TERMINATED, NIST_TERMINATED, now);
  }

  lemma OutFinds(s: Store, m: Store, c: Ptr, d: Ptr, now: int)
    requires Inv(s) && c in s.calls && d in CallOf(s, c).dialogs && SameInvites(s, m, c, d)
    requires DialogOf(m, d).outTrs == Sieved(DialogOf(s, d).outTrs, Cleared(s, c, d, now))
    ensures var r := DialogOf(m, d).outTrs;
      Finds(s, DialogOf(s, d).outTrs, Cleared(s, c, d, now), r,
            FirstReleasable(m, r, 1, FindLastOutInvite(m, c, Some(d)), ICT_TERMINATED, NICT_TERMINATED, now), ICT_TERMINATED, NICT_TERMINATED, now)
  {
    hide Inv, Releasable, FirstReleasable, Sieved, FindLastIncInvite, FindLastOutInvite, Cleared, NoDup, Done, Finds, Front;
    var l, keep := DialogOf(s, d).outTrs, FindLastOutInvite(m, c, Some(d));
    ListsApart(s, c, d);
    forall x | x in l ensures Releasable(m, x, keep, ICT_TERMINATED, NICT_TERMINATED, now) == Done(s, l, x, ICT_TERMINATED, NICT_TERMINATED, now) {
      KeptIsFront(s, c, d, x);
      ReleasableDone(s, m, l, x, keep, ICT_TERMINATED, NICT_TERMINATED, now);
    }
    FindsApply(s, m, l, Cleared(s, c, d, now), keep, ICT_TERMINATED, NICT_TERMINATED, now);
  }

  lemma IncExactly(s: Store, m: Store, c: Ptr, d: Ptr, now: int)
    requires Sifted(s, m, c, d, now)
    ensures var r := IncReleased(m, c, d, now);
      && r.yes == (exists x: Ptr :: IncFinished(s, c, d, x, now)) && (!r.yes ==> r.s == m)
    ensures var r := IncReleased(m, c, d, now); DialogOf(r.s, d).outTrs == DialogOf(m, d).outTrs && SameInvites(s, r.s, c, d)
    ensures var r := IncReleased(m, c, d, now);
      forall t: Ptr :: t in DialogOf(r.s, d).incTrs <==> t in DialogOf(m, d).incTrs && !IncFinished(s, c, d, t, now)
  {
    hide Inv, Held, FirstReleasable, Sieved, FindLastIncInvite, FindLastOutInvite, CountsFirst, Without, Cleared, NoDup, SievedLists;
    IncFinds(s, m, c, d, now);
    IncReleaseKeeps(m, c, d, now);
    IncReleasedKeeps(m, c, d, now);
    ConservedReady(m, IncReleased(m, c, d, now).s, c, d);
    var r := DialogOf(m, d).incTrs;
    var k := FirstReleasable(m, r, 1, FindLastIncInvite(m, c, Some(d)), IST_TERMINATED, NIST_TERMINATED, now);
    if k < |r| {
      assert IncFinished(s, c, d, r[k], now);
      WithoutIn(r, k);
    }
  }

  lemma OutExactly(s: Store, m: Store, c: Ptr, d: Ptr, now: int)
    requires Inv(s) && c in s.calls && d in CallOf(s, c).dialogs && SameInvites(s, m, c, d)
    requires DialogOf(m, d).outTrs == Sieved(DialogOf(s, d).outTrs, Cleared(s, c, d, now))
    ensures var r := OutReleased(m, c, d, now);
      && r.yes == (exists x: Ptr :: OutFinished(s, c, d, x, now)) && (!r.yes ==> r.s == m)
    ensures var r := OutReleased(m, c, d, now); DialogOf(r.s, d).incTrs == DialogOf(m, d).incTrs && SameInvites(s, r.s, c, d)
    ensures var r := OutReleased(m, c, d, now);
      forall t: Ptr :: t in DialogOf(r.s, d).outTrs <==> t in DialogOf(m, d).outTrs && !OutFinished(s, c, d, t, now)
  {
    hide Inv, Held, FirstReleasable, Sieved, FindLastIncInvite, FindLastOutInvite, CountsFirst, Without, Cleared, NoDup, SievedLists;
    OutFinds(s, m, c, d, now);
    OutReleaseKeeps(m, c, d, now);
    OutReleasedKeeps(m, c, d, now);
    ConservedReady(m, OutReleased(m, c, d, now).s, c, d);
    var r := DialogOf(m, d).outTrs;
    var k := FirstReleasable(m, r, 1, FindLastOutInvite(m, c, Some(d)), ICT_TERMINATED, NICT_TERMINATED, now);
    if k < |r| {
      assert OutFinished(s, c, d, r[k], now);
      WithoutIn(r, k);
    }
  }

  lemma FinishedExactly(s: Store, m: Store, c: Ptr, d: Ptr, now: int)
    requires Sifted(s, m, c, d, now)
    ensures var r := FinishedTransactions(m, c, d, now);
      && r.yes == (exists x: Ptr :: IncFinished(s, c, d, x, now) || OutFinished(s, c, d, x, now)) && (!r.yes ==> r.s == m)
    ensures var r := FinishedTransactions(m, c, d, now);
      && (forall t: Ptr :: t in DialogOf(r.s, d).incTrs <==> t in DialogOf(m, d).incTrs && !IncFinished(s, c, d, t, now))
      && (forall t: Ptr :: t in DialogOf(r.s, d).outTrs <==> t in DialogOf(m, d).outTrs && !OutFinished(s, c, d, t, now))
  {
    hide Inv, IncReleased, OutReleased, IncFinished, OutFinished, Sieved, Cleared, FindLastIncInvite, FindLastOutInvite;
    IncExactly(s, m, c, d, now);
    OutExactly(s, IncReleased(m, c, d, now).s, c, d, now);
  }

  // ----- how a visit ends -----

  /** The store after the transactions of the dialog were looked at. */
  ghost function Trimming(s: Store, c: Ptr, d: Ptr, now: int): Store {
    var p := Pending(s, c, d, now);
    if p.yes then p.s else FinishedTransactions(p.s, c, d, now).s
  }

  lemma ClearedSteps(s: Store, c: Ptr, d: Ptr, now: int)
    ensures Steps(s, c, d, now) == Cleared(s, c, d, now)
  {
    hide Steps, Dropped;
    forall x: Ptr ensures x in Steps(s, c, d, now) <==> x in Cleared(s, c, d, now) {
      StepsExactly(s, c, d, x, now);
    }
  }

  lemma WaitsExactly(s: Store, c: Ptr, d: Ptr, now: int)
    ensures Waits(s, c, d, now) == (exists n: nat :: n < 6 && GoesNth(s, c, d, n, now))
  {
    hide Holds, GoesNth;
    forall n: nat ensures GoesNth(s, c, d, n, now) <==> exists t: Ptr :: Holds(s, c, d, n, t, now) {
      HoldsFound(s, c, d, n, now);
    }
    GoesSix(s, c, d, now);
    if n: nat, t: Ptr :| Holds(s, c, d, n, t, now) {
      HoldsFound(s, c, d, n, now);
      assert GoesNth(s, c, d, n, now);
    }
  }

  lemma GoesSix(s: Store, c: Ptr, d: Ptr, now: int)
    ensures forall n: nat | GoesNth(s, c, d, n, now) :: n < 6
  {
  }

  /** After the checks for something pending, the dialog's lists have lost what is dropped. */
  lemma PendingSifts(s: Store, c: Ptr, d: Ptr, now: int)
    requires Inv(s) && c in s.calls && d in CallOf(s, c).dialogs
    ensures var p := Pending(s, c, d, now); p.yes == Waits(s, c, d, now) && Sifted(s, p.s, c, d, now)
  {
    hide Inv, Pending, Waits, Steps, Cleared, SievedLists, SameInvites, GoesNth;
    PendingSieves(s, c, d, now);
    ClearedSteps(s, c, d, now);
    WaitsExactly(s, c, d, now);
  }

  /** What a visit leaves of the dialog's lists. */
  lemma TrimmingExactly(s: Store, c: Ptr, d: Ptr, now: int)
    requires Inv(s) && c in s.calls && d in CallOf(s, c).dialogs
    ensures var r := Trimming(s, c, d, now);
      && (forall t: Ptr :: t in DialogOf(r, d).incTrs <==>
            t in DialogOf(s, d).incTrs && !Dropped(s, c, d, t, now) && (Waits(s, c, d, now) || !IncFinished(s, c, d, t, now)))
      && (forall t: Ptr :: t in DialogOf(r, d).outTrs <==>
            t in DialogOf(s, d).outTrs && !Dropped(s, c, d, t, now) && (Waits(s, c, d, now) || !OutFinished(s, c, d, t, now)))
  {
    hide Inv, Pending, FinishedTransactions, Waits, SameInvites, IncFinished, OutFinished, Dropped;
    PendingSifts(s, c, d, now);
    var m := Pending(s, c, d, now).s;
    if !Waits(s, c, d, now) {
      FinishedExactly(s, m, c, d, now);
    }
  }

  /** The last BYE that is left in the dialog: of those that came in, or else of those that went out. */
  ghost predicate LastBye(s: Store, c: Ptr, d: Ptr, t: Ptr, now: int) {
    var inc, out, gone := DialogOf(s, d).incTrs, DialogOf(s, d).outTrs, Cleared(s, c, d, now);
    || FrontLeft(s, inc, "BYE", gone, t)
    || (FrontLeft(s, out, "BYE", gone, t) && forall x: Ptr :: !FrontLeft(s, inc, "BYE", gone, x))
  }

  ghost predicate ByeOver(s: Store, c: Ptr, d: Ptr, now: int) {
    exists t: Ptr :: LastBye(s, c, d, t, now) && TrOf(s, t).state in {NIST_TERMINATED, NICT_TERMINATED}
  }

  lemma ByeExactly(s: Store, m: Store, c: Ptr, d: Ptr, now: int)
    requires Sifted(s, m, c, d, now)
    ensures FinishedCalls(m, c, d).yes == ByeOver(s, c, d, now)
  {
    hide Inv, FrontLeft, Sieved, Cleared, FirstWith, DialogRemoved, FindLastIncInvite, FindLastOutInvite;
    var inc, out, gone := DialogOf(s, d).incTrs, DialogOf(s, d).outTrs, Cleared(s, c, d, now);
    FirstWithSame(s, m, Sieved(inc, gone), "BYE", false);
    FirstWithSame(s, m, Sieved(out, gone), "BYE", false);
    forall x: Ptr ensures FrontLeft(s, inc, "BYE", gone, x) <==> FindLastInc(m, d, "BYE") == Some(x) {
      FrontLeftFound(s, inc, "BYE", gone, x);
    }
    forall x: Ptr ensures FrontLeft(s, out, "BYE", gone, x) <==> FindLastOut(m, d, "BYE") == Some(x) {
      FrontLeftFound(s, out, "BYE", gone, x);
    }
    LastByeFound(s, m, c, d, now);
  }

  lemma LastByeFound(s: Store, m: Store, c: Ptr, d: Ptr, now: int)
    requires m.trAt == s.trAt
    requires forall x: Ptr :: FrontLeft(s, DialogOf(s, d).incTrs, "BYE", Cleared(s, c, d, now), x) <==> FindLastInc(m, d, "BYE") == Some(x)
    requires forall x: Ptr :: FrontLeft(s, DialogOf(s, d).outTrs, "BYE", Cleared(s, c, d, now), x) <==> FindLastOut(m, d, "BYE") == Some(x)
    ensures FinishedCalls(m, c, d).yes == ByeOver(s, c, d, now)
  {
    hide FrontLeft, FindLastInc, FindLastOut, DialogRemoved, Cleared;
    var t := if FindLastInc(m, d, "BYE").None? then FindLastOut(m, d, "BYE") else FindLastInc(m, d, "BYE");
    forall x: Ptr ensures LastBye(s, c, d, x, now) <==> t == Some(x) {
      if FindLastInc(m, d, "BYE").Some? {
        assert FrontLeft(s, DialogOf(s, d).incTrs, "BYE", Cleared(s, c, d, now), FindLastInc(m, d, "BYE").value);
      }
    }
    hide LastBye;
    if t.Some? {
      assert LastBye(s, c, d, t.value, now);
    }
  }

  /** The dialog waits for nothing, nothing in it is finished, and no BYE is over. */
  ghost predicate Idle(s: Store, c: Ptr, d: Ptr, now: int) {
    Quiet(s, c, d, now) && !ByeOver(s, c, d, now)
  }

  /** Its BYE is over. */
  ghost predicate Ended(s: Store, c: Ptr, d: Ptr, now: int) {
    Quiet(s, c, d, now) && ByeOver(s, c, d, now)
  }

  /** The code-side reading of Ended. */
  ghost predicate Ends(s: Store, c: Ptr, d: Ptr, now: int) {
    var p := Pending(s, c, d, now);
    var f := FinishedTransactions(p.s, c, d, now);
    !p.yes && !f.yes && FinishedCalls(f.s, c, d).yes
  }

  lemma VisitsExactly(s: Store, c: Ptr, d: Ptr, now: int)
    requires Inv(s) && c in s.calls && d in CallOf(s, c).dialogs
    ensures Reaches(s, c, d, now) == Idle(s, c, d, now) && Ends(s, c, d, now) == Ended(s, c, d, now)
  {
    hide Inv, Pending, FinishedTransactions, FinishedCalls, Waits, SameInvites, IncFinished, OutFinished, SievedLists, ByeOver;
    PendingSifts(s, c, d, now);
    var m := Pending(s, c, d, now).s;
    FinishedExactly(s, m, c, d, now);
    ByeExactly(s, m, c, d, now);
  }
}
