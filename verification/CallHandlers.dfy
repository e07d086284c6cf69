/**
 The operations that put transactions into calls: the call API (`eXcall_api.c`), the handlers of
 incoming requests (`udp.c`), the callbacks that create and close dialogs (`jcallback.c`), and the
 steps of the lost-200 timer. New structures get their pointers from outside, as malloc gives them.
 */
module CallHandlers {
  import opened Numerals
  import opened CallStore
  import opened CallOps

  // ----- finding a call, a dialog, a transaction -----

  datatype Place = Place(c: Ptr, d: Option<Ptr>)

  function DialogWithId(s: Store, ds: seq<Ptr>, id: int): (r: Option<Ptr>)
    ensures r.Some? ==> r.value in ds && DialogOf(s, r.value).id == id
  {
    if ds == [] then None
    else if DialogOf(s, ds[0]).id == id then Some(ds[0])
    else DialogWithId(s, ds[1..], id)
  }

  /** eXosip_call_dialog_find */
  function CallDialogFind(s: Store, cs: seq<Ptr>, id: int): (r: Option<Place>)
    ensures r.Some? ==> r.value.c in cs && r.value.d.Some? && r.value.d.value in CallOf(s, r.value.c).dialogs
                        && DialogOf(s, r.value.d.value).id == id
  {
    if cs == [] then None
    else
      var d := DialogWithId(s, CallOf(s, cs[0]).dialogs, id);
      if d.Some? then Some(Place(cs[0], d)) else CallDialogFind(s, cs[1..], id)
  }

  /** eXosip_call_find */
  function CallFind(s: Store, cs: seq<Ptr>, id: int): (r: Option<Place>)
    ensures r.Some? ==> r.value.c in cs && r.value.d == None
  {
    if cs == [] then None
    else if CallOf(s, cs[0]).id == id then Some(Place(cs[0], None))
    else CallFind(s, cs[1..], id)
  }

  function DialogListing(s: Store, ds: seq<Ptr>, t: Ptr): (r: Option<Ptr>)
    ensures r.Some? ==> r.value in ds && Listed(s, r.value, t)
    ensures r.None? ==> forall d | d in ds :: !Listed(s, d, t)
  {
    if ds == [] then None
    else if Listed(s, ds[0], t) then Some(ds[0])
    else DialogListing(s, ds[1..], t)
  }

  function First(ds: seq<Ptr>): Option<Ptr> {
    if ds == [] then None else Some(ds[0])
  }

  /** _eXosip_call_transaction_find: the place of a transaction; for a call's own one, the first dialog. */
  function TransactionFind(s: Store, cs: seq<Ptr>, t: Ptr): (r: Option<Place>)
    ensures r.Some? ==> r.value.c in cs && (r.value.d.Some? ==> r.value.d.value in CallOf(s, r.value.c).dialogs)
  {
    if cs == [] then None
    else if InSlot(s, cs[0], t) then Some(Place(cs[0], First(CallOf(s, cs[0]).dialogs)))
    else
      var d := DialogListing(s, CallOf(s, cs[0]).dialogs, t);
      if d.Some? then Some(Place(cs[0], d)) else TransactionFind(s, cs[1..], t)
  }

  // ----- building blocks -----

  function WithTr(s: Store, t: Ptr, tr: Transaction): Store {
    s.(trAt := s.trAt[t := tr])
  }

  /** osip_transaction_init */
  function Born(cseqMethod: string, state: State, now: int, info: Option<JInfo>): Transaction {
    Transaction(cseqMethod, state, now, 0, None, info)
  }

  /** osip_list_add (jd->d_inc_trs, t, 0) */
  function IncListed(s: Store, d: Ptr, t: Ptr): Store {
    SetDialog(s, d, DialogOf(s, d).(incTrs := [t] + DialogOf(s, d).incTrs))
  }

  /** osip_list_add (jd->d_out_trs, t, 0) */
  function OutListed(s: Store, d: Ptr, t: Ptr): Store {
    SetDialog(s, d, DialogOf(s, d).(outTrs := [t] + DialogOf(s, d).outTrs))
  }

  /** osip_dialog_free (jd->d_dialog); jd->d_dialog = NULL; eXosip_update () */
  function Closed(s: Store, d: Ptr): Store {
    Updated(SetDialog(s, d, DialogOf(s, d).(established := false)))
  }

  /** eXosip_call_init and ADD_ELEMENT (eXosip.j_calls, jc) */
  function CallAdded(s: Store, c: Ptr): Store {
    s.(callAt := s.callAt[c := Call(-1, None, None, [])], calls := [c] + s.calls)
  }

  /** ADD_ELEMENT (jc->c_dialogs, jd) of a new dialog */
  function DialogAdded(s: Store, c: Ptr, d: Ptr, dialog: Dialog): Store {
    SetDialog(SetCall(s, c, CallOf(s, c).(dialogs := [d] + CallOf(s, c).dialogs)), d, dialog)
  }

  function NewDialog(remoteCseq: int, now: int): Dialog {
    Dialog(-1, true, remoteCseq, [], [], now, 0, false)
  }

  // ----- the call API -----

  /** eXosip_call_send_initial_invite */
  function InitialInvite(s: Store, c: Ptr, t: Ptr, now: int): Store {
    var s1 := CallAdded(WithTr(s, t, Born("INVITE", ICT_PRE_CALLING, now, Some(JInfo(c, None)))), c);
    Updated(SetCall(s1, c, CallOf(s1, c).(outTr := Some(t))))
  }

  /** eXosip_create_transaction and the ends of eXosip_call_send_request and eXosip_call_send_prack. */
  function RequestSent(s: Store, c: Ptr, d: Ptr, t: Ptr, m: string, state: State, now: int): Store {
    OutListed(WithTr(s, t, Born(m, state, now, Some(JInfo(c, Some(d))))), d, t)
  }

  predicate Busy(state: State, invite: bool) {
    if invite then state !in {ICT_TERMINATED, IST_TERMINATED, IST_CONFIRMED, ICT_COMPLETED}
    else state !in {NICT_TERMINATED, NIST_TERMINATED, NICT_COMPLETED, NIST_COMPLETED}
  }

  /** eXosip_call_send_request: refused when the dialog is not there or its last request is not over. */
  function SendRequest(s: Store, did: int, t: Ptr, m: string, now: int): Store {
    var p := if did > 0 then CallDialogFind(s, s.calls, did) else None;
    if p.None? then s
    else
      var c, d := p.value.c, p.value.d.value;
      var invite := EqualFold(m, "INVITE");
      var last := if invite then FindLastInvite(s, c, d) else FindLast(s, d, m);
      if last.Some? && Busy(TrOf(s, last.value).state, invite) then s
      else RequestSent(s, c, d, t, m, if invite then ICT_PRE_CALLING else NICT_PRE_TRYING, now)
  }

  /** eXosip_call_send_prack: only for an INVITE in the proceeding state, within a dialog. */
  function SendPrack(s: Store, tid: Ptr, t: Ptr, now: int): Store {
    var p := TransactionFind(s, s.calls, tid);
    if p.None? || p.value.d.None? || !DialogOf(s, p.value.d.value).established then s
    else if !EqualFold(TrOf(s, tid).cseqMethod, "INVITE") || TrOf(s, tid).state != ICT_PROCEEDING then s
    else RequestSent(s, p.value.c, p.value.d.value, t, "PRACK", NICT_PRE_TRYING, now)
  }

  predicate Provisional(s: Store, t: Option<Ptr>) {
    t.Some? && TrOf(s, t.value).response.Some? && 100 <= TrOf(s, t.value).response.value <= 199
  }

  /**
   eXosip_call_terminate: a call that is still ringing is cancelled, an established one ended with
   a BYE, and an incoming one that has not been answered is refused, `toTag` telling whether the
   INVITE being refused came from within the dialog.
   */
  function Terminate(s: Store, cid: int, did: int, t: Ptr, toTag: bool, now: int): Store {
    var p := if did > 0 then CallDialogFind(s, s.calls, did) else CallFind(s, s.calls, cid);
    if p.None? then s else TerminatedAt(s, p.value.c, p.value.d, t, toTag, now)
  }

  function TerminatedAt(s: Store, c: Ptr, d: Option<Ptr>, t: Ptr, toTag: bool, now: int): Store {
    var out := FindLastOutInvite(s, c, d);
    if Provisional(s, out) then
      var s1 := Filed(WithTr(s, t, Born("CANCEL", NICT_PRE_TRYING, now, None)), t);
      if d.Some? then Closed(s1, d.value) else s1
    else if d.None? || !DialogOf(s, d.value).established then s
    else if out.None? && Provisional(s, FindLastIncInvite(s, c, d)) && !toTag then s
    else Closed(RequestSent(s, c, d.value, t, "BYE", NICT_PRE_TRYING, now), d.value)
  }

  /** eXosip_dialog_set_200ok */
  function Set200Ok(dialog: Dialog, now: int): Dialog {
    dialog.(timer := now + 2, count := 0, ok200 := true)
  }

  /**
   eXosip_call_send_answer: a 2xx to an INVITE starts the timer for its ACK. Without an answer message
   a default one is built and sent, never a 2xx to an INVITE.
   */
  function SendAnswer(s: Store, tid: Ptr, status: int, answer: Option<int>, now: int): Store {
    var p := TransactionFind(s, s.calls, tid);
    if p.None? || p.value.d.None? || answer.None? then s
    else if TrOf(s, tid).state in {IST_COMPLETED, IST_CONFIRMED, IST_TERMINATED, NIST_COMPLETED, NIST_TERMINATED} then s
    else
      var d := p.value.d.value;
      Updated(if EqualFold(TrOf(s, tid).cseqMethod, "INVITE") && 200 <= status <= 299 && 200 <= answer.value <= 299
              then SetDialog(s, d, Set200Ok(DialogOf(s, d), now)) else s)
  }

  /** Transaction t takes the place of the call's own request, which goes to the garbage list. */
  function Swapped(s: Store, c: Ptr, former: Ptr, t: Ptr, tr: Transaction): Store {
    var s1 := Filed(WithTr(s, t, tr), former);
    SetCall(s1, c, CallOf(s1, c).(outTr := Some(t)))
  }

  /** _eXosip_call_retry_request, for a request with an answer: a new one in its place, or beside it. */
  function Retried(s: Store, c: Ptr, d: Option<Ptr>, former: Ptr, t: Ptr, now: int): Store {
    var m := TrOf(s, former).cseqMethod;
    var state := if EqualFold(m, "INVITE") then ICT_PRE_CALLING else NICT_PRE_TRYING;
    if TrOf(s, former).response.None? then s
    else if CallOf(s, c).outTr == Some(former) then
      var s2 := Swapped(s, c, former, t, Born(m, state, now, Some(JInfo(c, None))));
      Updated(if d.Some? then Updated(DialogFreed(Unlinked(s2, c, d.value), d.value)) else s2)
    else if d.Some? then Updated(RequestSent(s, c, d.value, t, m, state, now))
    else s
  }

  /** Answered with 401, 407 or a 3xx. */
  predicate Rejected(s: Store, t: Ptr) {
    var response := TrOf(s, t).response;
    response.Some? && (response.value == 401 || response.value == 407 || 300 <= response.value <= 399)
  }

  /** What eXosip_automatic_action asks of a request it retries. */
  predicate ToRepeat(s: Store, t: Ptr, now: int) {
    && Rejected(s, t) && now - TrOf(s, t).birth < 120
    && TrOf(s, t).state in {ICT_TERMINATED, NICT_TERMINATED, ICT_COMPLETED, NICT_COMPLETED}
  }

  /** The request it looks at for an established dialog: its newest, or else the call's own. */
  function ToRetry(s: Store, c: Ptr, d: Ptr): Option<Ptr> {
    var out := DialogOf(s, d).outTrs;
    if out != [] then Some(out[0]) else CallOf(s, c).outTr
  }

  /**
   The places _eXosip_call_retry_request is called from: eXosip_default_action, for any transaction of
   a call; and eXosip_automatic_action, for a call without an established first dialog, and for an
   established dialog. (The limits on the number of retries are left out.)
   */
  predicate Retries(s: Store, c: Ptr, d: Option<Ptr>, former: Ptr, now: int) {
    || (TransactionFind(s, s.calls, former) == Some(Place(c, d)) && Rejected(s, former))
    || (c in s.calls && d == None && (CallOf(s, c).dialogs == [] || !DialogOf(s, CallOf(s, c).dialogs[0]).established)
        && CallOf(s, c).outTr == Some(former) && ToRepeat(s, former, now))
    || (c in s.calls && d.Some? && d.value in CallOf(s, c).dialogs && DialogOf(s, d.value).established
        && ToRetry(s, c, d.value) == Some(former) && ToRepeat(s, former, now))
  }

  // ----- incoming requests -----

  /** A request: the dialogs it matches as a server, and for a CANCEL the INVITEs it matches. */
  datatype Request = Request(sipMethod: string, cseqMethod: string, cseq: int, toTag: bool,
                             matches: set<Ptr>, cancels: set<Ptr>)

  function MatchingDialog(s: Store, ds: seq<Ptr>, matches: set<Ptr>): (r: Option<Ptr>)
    ensures r.Some? ==> r.value in ds && DialogOf(s, r.value).established
  {
    if ds == [] then None
    else if DialogOf(s, ds[0]).established && ds[0] in matches then Some(ds[0])
    else MatchingDialog(s, ds[1..], matches)
  }

  function MatchingPlace(s: Store, cs: seq<Ptr>, matches: set<Ptr>): (r: Option<Place>)
    ensures r.Some? ==> r.value.c in cs && r.value.d.Some? && r.value.d.value in CallOf(s, r.value.c).dialogs
                        && DialogOf(s, r.value.d.value).established
  {
    if cs == [] then None
    else
      var d := MatchingDialog(s, CallOf(s, cs[0]).dialogs, matches);
      if d.Some? then Some(Place(cs[0], d)) else MatchingPlace(s, cs[1..], matches)
  }

  /** eXosip_process_newrequest; c and d are the call and the dialog a new INVITE allocates. */
  function NewRequest(s: Store, req: Request, t: Ptr, c: Ptr, d: Ptr, now: int): Store {
    if req.sipMethod == "ACK" then
      var p := MatchingPlace(s, s.calls, req.matches);
      if p.Some? then Acknowledged(s, p.value.d.value) else s
    else
      var s1 := WithTr(s, t, Born(req.cseqMethod, if req.sipMethod == "INVITE" then IST_PRE_PROCEEDING else NIST_PRE_TRYING, now, None));
      if req.sipMethod == "CANCEL" then Cancelled(s1, req, t)
      else
        var p := MatchingPlace(s, s.calls, req.matches);
        if p.None? then OutsideDialogs(s1, req, t, c, d, now)
        else
          var remote := DialogOf(s, p.value.d.value).remoteCseq;
          if remote > 0 && req.cseq == remote then s // the new transaction is freed again
          else if remote > 0 && req.cseq < remote then s1 // answered with 500, and listed nowhere
          else WithinDialog(s1, req, t, p.value.c, p.value.d.value)
  }

  /** eXosip_process_ack */
  function Acknowledged(s: Store, d: Ptr): Store {
    SetDialog(s, d, DialogOf(s, d).(count := 0, ok200 := false))
  }

  function Reporting(s: Store, t: Ptr, info: JInfo): Store {
    WithTr(s, t, TrOf(s, t).(info := Some(info)))
  }

  function WithinDialog(s: Store, req: Request, t: Ptr, c: Ptr, d: Ptr): Store {
    if req.sipMethod != "BYE" && (FindLastInc(s, d, "BYE").Some? || FindLastOut(s, d, "BYE").Some?) then Filed(s, t)
    else if req.sipMethod == "INVITE" then
      if Unfinished(s, FindLastIncInvite(s, c, Some(d)), {IST_COMPLETED, IST_TERMINATED}) then Filed(s, t)
      else if Unfinished(s, FindLastOutInvite(s, c, Some(d)), {ICT_COMPLETED, ICT_TERMINATED}) then Filed(s, t)
      else IncListed(Reporting(SetDialog(s, d, DialogOf(s, d).(remoteCseq := req.cseq)), t, JInfo(c, Some(d))), d, t)
    else if req.sipMethod == "BYE" then
      if FindLastInc(s, d, "BYE").Some? then Filed(s, t)
      else Closed(IncListed(Reporting(s, t, JInfo(c, None)), d, t), d)
    else if req.sipMethod == "SUBSCRIBE" then Filed(s, t)
    else IncListed(Reporting(s, t, JInfo(c, Some(d))), d, t)
  }

  predicate Unfinished(s: Store, t: Option<Ptr>, done: set<State>) {
    t.Some? && TrOf(s, t.value).state !in done
  }

  /** A SUBSCRIBE outside every dialog starts a subscription, which is not part of this model. */
  function OutsideDialogs(s: Store, req: Request, t: Ptr, c: Ptr, d: Ptr, now: int): Store {
    if req.sipMethod == "INVITE" then NewInvite(s, req, t, c, d, now)
    else if req.sipMethod == "SUBSCRIBE" then s
    else Filed(s, t)
  }

  /** eXosip_process_new_invite: one with a To tag is answered with 400, and its transaction listed nowhere. */
  function NewInvite(s: Store, req: Request, t: Ptr, c: Ptr, d: Ptr, now: int): Store {
    if req.toTag then Updated(s)
    else
      var s1 := DialogAdded(CallAdded(s, c), c, d, NewDialog(req.cseq, now));
      var s2 := Updated(Reporting(s1, t, JInfo(c, Some(d))));
      SetCall(s2, c, CallOf(s2, c).(incTr := Some(t)))
  }

  // ----- CANCEL -----

  /** What the search for the INVITE to cancel ends with: the INVITE, and the dialog to list the CANCEL in. */
  datatype Target = Target(tr: Option<Ptr>, d: Option<Ptr>)

  function FirstIn(l: seq<Ptr>, ts: set<Ptr>): (r: Option<Ptr>)
    ensures r.Some? ==> r.value in l && r.value in ts
    ensures r.None? ==> forall t | t in l :: t !in ts
  {
    if l == [] then None else if l[0] in ts then Some(l[0]) else FirstIn(l[1..], ts)
  }

  /** The inner loop goes on to the end of the dialogs, whatever it finds; an empty list leaves `tr` as it is. */
  function LastScanned(s: Store, ds: seq<Ptr>, ts: set<Ptr>, tr: Option<Ptr>): Option<Ptr>
    decreases |ds|
  {
    if ds == [] then tr
    else LastScanned(s, ds[1..], ts, if DialogOf(s, ds[0]).incTrs == [] then tr else FirstIn(DialogOf(s, ds[0]).incTrs, ts))
  }

  function CancelTarget(s: Store, cs: seq<Ptr>, ts: set<Ptr>, tr: Option<Ptr>): Target
    decreases |cs|
  {
    if cs == [] then Target(tr, None)
    else
      var call := CallOf(s, cs[0]);
      if call.incTr.Some? && call.incTr.value in ts then Target(call.incTr, First(call.dialogs))
      else CancelTarget(s, cs[1..], ts, LastScanned(s, call.dialogs, ts, None))
  }

  /** eXosip_process_cancel, as long as its answers can be built. */
  function Cancelled(s: Store, req: Request, t: Ptr): Store {
    var target := CancelTarget(s, s.calls, req.cancels, None);
    if target.tr.Some? && target.d.Some? then IncListed(s, target.d.value, t) else Filed(s, t)
  }

  // ----- callbacks of the transaction layer -----

  /** cb_rcv1xx and cb_rcv2xx_4invite on the call's own INVITE: the first answer makes a dialog. */
  function DialogMade(s: Store, c: Ptr, d: Ptr, now: int): Store {
    var t := CallOf(s, c).outTr;
    if t.Some? && t.value in s.trAt && TrOf(s, t.value).info == Some(JInfo(c, None)) then
      var s1 := DialogAdded(s, c, d, NewDialog(-1, now));
      Updated(Reporting(s1, t.value, JInfo(c, Some(d))))
    else s
  }

  /** A step of a transaction machine. */
  function Progressed(s: Store, t: Ptr, state: State, completed: int, response: Option<int>): Store {
    if t in s.trAt then WithTr(s, t, s.trAt[t].(state := state, completed := completed, response := response)) else s
  }

  // ----- the lost-200 timer -----

  predicate Waiting(dialog: Dialog) {
    dialog.id >= 1 && dialog.established && dialog.ok200
  }

  predicate Due(dialog: Dialog, now: int) {
    Waiting(dialog) && dialog.count != 5 && dialog.timer < now
  }

  function Resent(dialog: Dialog, now: int): Dialog {
    dialog.(timer := now + 4, count := dialog.count + 1)
  }

  /** After five times without an ACK, the timer is cleared and the call terminated. */
  function GivenUp(s: Store, c: Ptr, d: Ptr, t: Ptr, toTag: bool, now: int): Store {
    Terminate(Acknowledged(s, d), CallOf(s, c).id, DialogOf(s, d).id, t, toTag, now)
  }
}
