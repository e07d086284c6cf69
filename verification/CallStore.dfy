/**
 The memory behind eXosip's calls: the structures `eXosip_call_t`, `eXosip_dialog_t` and
 `osip_transaction_t` live in maps from pointers, and freeing one removes it from its map. The
 linked lists of calls and dialogs, and the osip lists of transactions, are sequences.
 */
module CallStore {
  import opened Numerals

  type Ptr = nat

  /** The states of the four transaction machines. */
  datatype State =
    | ICT_PRE_CALLING | ICT_CALLING | ICT_PROCEEDING | ICT_COMPLETED | ICT_TERMINATED
    | IST_PRE_PROCEEDING | IST_PROCEEDING | IST_COMPLETED | IST_CONFIRMED | IST_TERMINATED
    | NICT_PRE_TRYING | NICT_TRYING | NICT_PROCEEDING | NICT_COMPLETED | NICT_TERMINATED
    | NIST_PRE_TRYING | NIST_TRYING | NIST_PROCEEDING | NIST_COMPLETED | NIST_TERMINATED

  /** jinfo_t: the call and dialog a transaction reports to. */
  datatype JInfo = JInfo(jc: Ptr, jd: Option<Ptr>)

  datatype Transaction = Transaction(cseqMethod: string, state: State, birth: int, completed: int,
                                     response: Option<int>, info: Option<JInfo>)

  /** `established` stands for d_dialog != NULL, `ok200` for d_200Ok != NULL. */
  datatype Dialog = Dialog(id: int, established: bool, remoteCseq: int, incTrs: seq<Ptr>, outTrs: seq<Ptr>,
                           timer: int, count: int, ok200: bool)

  datatype Call = Call(id: int, incTr: Option<Ptr>, outTr: Option<Ptr>, dialogs: seq<Ptr>)

  /** The static counter of eXosip_update, which starts at 1 and is only ever raised or set to 1. */
  type Counter = n: int | 1 <= n witness 1

  /** `garbage` is j_transactions. */
  datatype Store = Store(calls: seq<Ptr>, garbage: seq<Ptr>, callAt: map<Ptr, Call>, dialogAt: map<Ptr, Dialog>,
                         trAt: map<Ptr, Transaction>, nextId: Counter)

  const NO_CALL := Call(-1, None, None, [])
  const NO_TRANSACTION := Transaction("", ICT_PRE_CALLING, 0, 0, None, None)
  const NO_DIALOG := Dialog(-1, false, 0, [], [], 0, 0, false)

  function CallOf(s: Store, c: Ptr): Call {
    if c in s.callAt then s.callAt[c] else NO_CALL
  }

  function DialogOf(s: Store, d: Ptr): Dialog {
    if d in s.dialogAt then s.dialogAt[d] else NO_DIALOG
  }

  function TrOf(s: Store, t: Ptr): Transaction {
    if t in s.trAt then s.trAt[t] else NO_TRANSACTION
  }

  // ----- which transactions are held where -----

  function Slot(t: Option<Ptr>): multiset<Ptr> {
    if t.Some? then multiset{t.value} else multiset{}
  }

  /** The transactions in a dialog's two lists. */
  function Own(s: Store, d: Ptr): multiset<Ptr> {
    multiset(DialogOf(s, d).incTrs) + multiset(DialogOf(s, d).outTrs)
  }

  function DialogsHeld(s: Store, ds: seq<Ptr>): multiset<Ptr> {
    if ds == [] then multiset{} else Own(s, ds[0]) + DialogsHeld(s, ds[1..])
  }

  function CallHeld(s: Store, c: Ptr): multiset<Ptr> {
    Slot(CallOf(s, c).incTr) + Slot(CallOf(s, c).outTr) + DialogsHeld(s, CallOf(s, c).dialogs)
  }

  function CallsHeld(s: Store, cs: seq<Ptr>): multiset<Ptr> {
    if cs == [] then multiset{} else CallHeld(s, cs[0]) + CallsHeld(s, cs[1..])
  }

  /** Every place a transaction can be held in, with multiplicity. */
  function Held(s: Store): multiset<Ptr> {
    CallsHeld(s, s.calls) + multiset(s.garbage)
  }

  predicate NoDup(l: seq<Ptr>) {
    forall i, j | 0 <= i < j < |l| :: l[i] != l[j]
  }

  /** Without the element at k. */
  function Without(l: seq<Ptr>, k: nat): seq<Ptr>
    requires k < |l|
  {
    l[..k] + l[k + 1..]
  }

  /** REMOVE_ELEMENT, and the removal of one transaction from an osip list: the first occurrence goes. */
  function Remove(l: seq<Ptr>, x: Ptr): seq<Ptr> {
    if l == [] then []
    else if l[0] == x then l[1..]
    else [l[0]] + Remove(l[1..], x)
  }

  lemma {:induction false} RemoveContents(l: seq<Ptr>, x: Ptr)
    ensures x in l ==> multiset(Remove(l, x)) + multiset{x} == multiset(l) && |Remove(l, x)| == |l| - 1
    ensures x !in l ==> Remove(l, x) == l
    ensures forall y | y != x :: y in Remove(l, x) <==> y in l
    ensures forall y | y in Remove(l, x) :: y in l
  {
    if l != [] {
      assert l == [l[0]] + l[1..];
      RemoveContents(l[1..], x);
    }
  }

  lemma {:induction false} RemoveNoDup(l: seq<Ptr>, x: Ptr)
    requires NoDup(l)
    ensures NoDup(Remove(l, x)) && x !in Remove(l, x)
  {
    if l != [] {
      assert l[0] !in l[1..];
      RemoveNoDup(l[1..], x);
      RemoveContents(l[1..], x);
      forall i, j | 0 <= i < j < |Remove(l, x)| ensures Remove(l, x)[i] != Remove(l, x)[j] {
        if l[0] != x && i == 0 {
          assert Remove(l, x)[j] in Remove(l[1..], x);
        }
      }
    }
  }

  /** Removing by value and by position agree at the first occurrence. */
  lemma {:induction false} RemoveAt(l: seq<Ptr>, x: Ptr, k: nat)
    requires k < |l| && l[k] == x && x !in l[..k]
    ensures Remove(l, x) == Without(l, k)
  {
    if k == 0 {
      assert Without(l, 0) == l[1..];
    } else {
      assert l[0] == l[..k][0];
      assert l[1..][..k - 1] == l[..k][1..];
      RemoveAt(l[1..], x, k - 1);
      assert Without(l, k) == [l[0]] + Without(l[1..], k - 1);
    }
  }

  lemma WithoutContents(l: seq<Ptr>, k: nat)
    requires k < |l|
    ensures multiset(Without(l, k)) + multiset{l[k]} == multiset(l)
  {
    assert l == l[..k] + [l[k]] + l[k + 1..];
  }

  // ----- how a change in one place changes what is held -----

  lemma {:induction false} DialogsHeldSame(s: Store, s': Store, ds: seq<Ptr>)
    requires forall d | d in ds :: Own(s', d) == Own(s, d)
    ensures DialogsHeld(s', ds) == DialogsHeld(s, ds)
  {
    if ds != [] {
      DialogsHeldSame(s, s', ds[1..]);
    }
  }

  lemma {:induction false} DialogsHeldChange(s: Store, s': Store, ds: seq<Ptr>, d: Ptr, t: Ptr)
    requires NoDup(ds) && d in ds
    requires forall e | e in ds && e != d :: Own(s', e) == Own(s, e)
    ensures DialogsHeld(s', ds)[t] + Own(s, d)[t] == DialogsHeld(s, ds)[t] + Own(s', d)[t]
  {
    hide Own;
    if ds[0] == d {
      DialogsHeldSame(s, s', ds[1..]);
    } else {
      assert ds == [ds[0]] + ds[1..];
      DialogsHeldChange(s, s', ds[1..], d, t);
    }
  }

  lemma {:induction false} DialogsHeldRemove(s: Store, ds: seq<Ptr>, d: Ptr, t: Ptr)
    requires d in ds
    ensures DialogsHeld(s, Remove(ds, d))[t] + Own(s, d)[t] == DialogsHeld(s, ds)[t]
  {
    hide Own;
    if ds[0] == d {
      assert Remove(ds, d) == ds[1..];
    } else {
      assert ds == [ds[0]] + ds[1..];
      DialogsHeldRemove(s, ds[1..], d, t);
      assert Remove(ds, d)[1..] == Remove(ds[1..], d);
    }
  }

  lemma {:induction false} DialogHeldAmong(s: Store, ds: seq<Ptr>, d: Ptr)
    requires d in ds
    ensures Own(s, d) <= DialogsHeld(s, ds)
  {
    if ds[0] != d {
      assert ds == [ds[0]] + ds[1..];
      DialogHeldAmong(s, ds[1..], d);
    }
  }

  lemma {:induction false} CallsHeldSame(s: Store, s': Store, cs: seq<Ptr>)
    requires forall c | c in cs :: CallHeld(s', c) == CallHeld(s, c)
    ensures CallsHeld(s', cs) == CallsHeld(s, cs)
  {
    if cs != [] {
      CallsHeldSame(s, s', cs[1..]);
    }
  }

  lemma {:induction false} CallsHeldChange(s: Store, s': Store, cs: seq<Ptr>, c: Ptr, t: Ptr)
    requires NoDup(cs) && c in cs
    requires forall e | e in cs && e != c :: CallHeld(s', e) == CallHeld(s, e)
    ensures CallsHeld(s', cs)[t] + CallHeld(s, c)[t] == CallsHeld(s, cs)[t] + CallHeld(s', c)[t]
  {
    hide CallHeld;
    if cs[0] == c {
      CallsHeldSame(s, s', cs[1..]);
    } else {
      assert cs == [cs[0]] + cs[1..];
      CallsHeldChange(s, s', cs[1..], c, t);
    }
  }

  lemma {:induction false} CallsHeldRemove(s: Store, cs: seq<Ptr>, c: Ptr, t: Ptr)
    requires c in cs
    ensures CallsHeld(s, Remove(cs, c))[t] + CallHeld(s, c)[t] == CallsHeld(s, cs)[t]
  {
    hide CallHeld;
    if cs[0] == c {
      assert Remove(cs, c) == cs[1..];
    } else {
      assert cs == [cs[0]] + cs[1..];
      CallsHeldRemove(s, cs[1..], c, t);
      assert Remove(cs, c)[1..] == Remove(cs[1..], c);
    }
  }

  lemma {:induction false} CallHeldAmong(s: Store, cs: seq<Ptr>, c: Ptr)
    requires c in cs
    ensures CallHeld(s, c) <= CallsHeld(s, cs)
  {
    if cs[0] != c {
      assert cs == [cs[0]] + cs[1..];
      CallHeldAmong(s, cs[1..], c);
    }
  }

  // ----- the invariants -----

  /** Calls and dialogs are allocated, and no dialog is linked twice. */
  ghost predicate Linked(s: Store) {
    && NoDup(s.calls)
    && (forall c | c in s.calls :: c in s.callAt && NoDup(s.callAt[c].dialogs))
    && (forall c, d | c in s.calls && d in s.callAt[c].dialogs :: d in s.dialogAt)
    && (forall c, e, d | c in s.calls && e in s.calls && c != e && d in s.callAt[c].dialogs :: d !in s.callAt[e].dialogs)
  }

  /** No transaction is held in two places, and every held one is allocated. */
  ghost predicate Owned(s: Store) {
    && (forall t :: Held(s)[t] <= 1)
    && (forall t | t in Held(s) :: t in s.trAt)
  }

  /** The dialog a transaction reports to, if any. */
  function Names(s: Store, t: Ptr): Option<Ptr> {
    if TrOf(s, t).info.Some? then TrOf(s, t).info.value.jd else None
  }

  predicate InSlot(s: Store, c: Ptr, t: Ptr) {
    CallOf(s, c).incTr == Some(t) || CallOf(s, c).outTr == Some(t)
  }

  predicate Listed(s: Store, d: Ptr, t: Ptr) {
    t in DialogOf(s, d).incTrs || t in DialogOf(s, d).outTrs
  }

  /** A transaction with a jinfo reports to call c. */
  predicate ReportsTo(s: Store, t: Ptr, c: Ptr) {
    TrOf(s, t).info.Some? ==> TrOf(s, t).info.value.jc == c
  }

  /**
   A call's transactions report to the call. Its own name no dialog or one of the call; a dialog's
   name none or their own.
   */
  ghost predicate NamesOk(s: Store, c: Ptr) {
    && (forall t | InSlot(s, c, t) :: ReportsTo(s, t, c))
    && (forall d, t | d in CallOf(s, c).dialogs && Listed(s, d, t) :: ReportsTo(s, t, c))
    && (forall t, d | InSlot(s, c, t) && Names(s, t) == Some(d) :: d in CallOf(s, c).dialogs)
    && (forall d, t | d in CallOf(s, c).dialogs && Listed(s, d, t) :: Names(s, t) == None || Names(s, t) == Some(d))
  }

  /** A call is either incoming or outgoing. */
  predicate OneSided(s: Store, c: Ptr) {
    CallOf(s, c).incTr.None? || CallOf(s, c).outTr.None?
  }

  /** Newest transactions first. */
  ghost predicate NewestFirst(s: Store, l: seq<Ptr>) {
    forall i, j | 0 <= i < j < |l| :: TrOf(s, l[i]).birth >= TrOf(s, l[j]).birth
  }

  ghost predicate DialogSorted(s: Store, d: Ptr) {
    NewestFirst(s, DialogOf(s, d).incTrs) && NewestFirst(s, DialogOf(s, d).outTrs)
  }

  ghost predicate CallSorted(s: Store, c: Ptr) {
    forall d | d in CallOf(s, c).dialogs :: DialogSorted(s, d)
  }

  ghost predicate CallOk(s: Store, c: Ptr) {
    NamesOk(s, c) && OneSided(s, c) && CallSorted(s, c)
  }

  ghost predicate CallsOk(s: Store) {
    forall c | c in s.calls :: CallOk(s, c)
  }

  /** What every step of a run keeps. */
  ghost predicate Inv(s: Store) {
    Linked(s) && Owned(s) && CallsOk(s)
  }
}
