/**
 The digest nonce table: ten fixed slots in `eXosip.http_auths`, written by
 `libeXosip2-3.0.3-3/src/jauth.c` and counted up by eXosip_add_authentication_information in
 `libeXosip2-3.0.3-3/src/eXosip.c` (nonce counts: section 3.2.2 of RFC 2617).

 A slot is free when its call-id is empty. Cloning a challenge, finding credentials and building a
 header may fail; whether they do is a parameter.
 */
module NonceTable {
  import opened Numerals

  const MAX_HTTP_AUTH := 10

  /** The call-id buffer holds 63 characters and a terminator. */
  const CALL_ID_ROOM := 63

  datatype Challenge = Challenge(realm: string, nonce: string, qop: bool)

  datatype Slot = Slot(callId: string, wa: Option<Challenge>, nonceCount: nat)

  const EMPTY := Slot("", None, 0)

  type Slots = seq<Slot>

  predicate Occupied(s: Slot) {
    s.callId != ""
  }

  /** Occupied slots carry a challenge and a call-id that fits the buffer. */
  ghost predicate WellFormed(t: Slots) {
    forall i | 0 <= i < |t| && Occupied(t[i]) :: t[i].wa.Some? && |t[i].callId| <= CALL_ID_ROOM
  }

  predicate OfCall(s: Slot, callId: string) {
    Occupied(s) && EqualFold(s.callId, callId)
  }

  predicate Holds(s: Slot, callId: string, realm: string) {
    OfCall(s, callId) && s.wa.Some? && EqualFold(s.wa.value.realm, realm)
  }

  /** No two occupied slots share call-id and realm under case folding. */
  ghost predicate Unique(t: Slots) {
    forall i, j | 0 <= i < j < |t| && Occupied(t[i]) && Occupied(t[j]) && t[i].wa.Some? && t[j].wa.Some? ::
      !(EqualFold(t[i].callId, t[j].callId) && EqualFold(t[i].wa.value.realm, t[j].wa.value.realm))
  }

  // ----- storing -----

  function Truncated(callId: string): (r: string)
    ensures |r| <= CALL_ID_ROOM && (|callId| <= CALL_ID_ROOM ==> r == callId)
  {
    if |callId| <= CALL_ID_ROOM then callId else callId[..CALL_ID_ROOM]
  }

  /** The first slot holding call-id and realm, from `pos` on; |t| if none. */
  function FindKey(t: Slots, callId: string, realm: string, pos: nat): (r: nat)
    requires pos <= |t|
    ensures pos <= r <= |t|
    ensures r < |t| ==> Holds(t[r], callId, realm)
    ensures forall i | pos <= i < r :: !Holds(t[i], callId, realm)
    decreases |t| - pos
  {
    if pos == |t| || Holds(t[pos], callId, realm) then pos else FindKey(t, callId, realm, pos + 1)
  }

  function FindFree(t: Slots, pos: nat): (r: nat)
    requires pos <= |t|
    ensures pos <= r <= |t|
    ensures r < |t| ==> !Occupied(t[r])
    ensures forall i | pos <= i < r :: Occupied(t[i])
    decreases |t| - pos
  {
    if pos == |t| || !Occupied(t[pos]) then pos else FindFree(t, pos + 1)
  }

  /** _eXosip_store_nonce: refresh the slot of the key, else take the first free one. */
  function Stored(t: Slots, callId: string, wa: Challenge, cloned: bool): Slots {
    var k := FindKey(t, callId, wa.realm, 0);
    var f := FindFree(t, 0);
    if k < |t| then t[k := if cloned then t[k].(wa := Some(wa), nonceCount := 1) else EMPTY]
    else if f < |t| then t[f := if cloned then Slot(Truncated(callId), Some(wa), 1) else EMPTY]
    else t
  }

  /** _eXosip_delete_nonce: clears the first slot of the call, whatever its realm. */
  function FindCall(t: Slots, callId: string, pos: nat): (r: nat)
    requires pos <= |t|
    ensures pos <= r <= |t|
    ensures r < |t| ==> OfCall(t[r], callId)
    ensures forall i | pos <= i < r :: !OfCall(t[i], callId)
    decreases |t| - pos
  {
    if pos == |t| || OfCall(t[pos], callId) then pos else FindCall(t, callId, pos + 1)
  }

  function Deleted(t: Slots, callId: string): Slots {
    var k := FindCall(t, callId, 0);
    if k < |t| then t[k := EMPTY] else t
  }

  // ----- using -----

  /** What a request's surroundings decide: known realms, a printable URI, headers that can be built. */
  datatype Env = Env(known: string -> bool, uriOk: bool, headerOk: Challenge -> bool)

  datatype Header = Header(slot: nat, challenge: Challenge, nonceCount: nat)

  datatype Outcome = Outcome(table: Slots, headers: seq<Header>, ok: bool)

  /** The loop over the table for a request of this call, from `pos` on. */
  function Used(t: Slots, callId: string, env: Env, pos: nat): Outcome
    requires pos <= |t|
    decreases |t| - pos
  {
    if pos == |t| then Outcome(t, [], true)
    else if !OfCall(t[pos], callId) || t[pos].wa.None? then Used(t, callId, env, pos + 1)
    else
      var wa := t[pos].wa.value;
      if !env.known(wa.realm) || !env.uriOk then Outcome(t, [], false)
      else
        var n := t[pos].nonceCount + 1;
        var t' := t[pos := t[pos].(nonceCount := n)];
        if env.headerOk(wa) then
          var o := Used(t', callId, env, pos + 1);
          o.(headers := [Header(pos, wa, n)] + o.headers)
        else Outcome(t', [], false)
  }

  /** A credential sent in answer to a challenge, with its nonce count. */
  datatype Answer = Answer(challenge: Challenge, nonceCount: nat)

  datatype AnswerOutcome = AnswerOutcome(table: Slots, answers: seq<Answer>, ok: bool)

  /**
   The loop over the challenges of a 401 or 407 response: each is answered with count 1, and
   remembered when it offers a qop and the request starts or belongs to a dialog.
   */
  function Answered(t: Slots, callId: string, ws: seq<Challenge>, pos: nat, env: Env, remember: bool, cloned: bool): AnswerOutcome
    requires pos <= |ws|
    decreases |ws| - pos
  {
    if pos == |ws| then AnswerOutcome(t, [], true)
    else if !env.known(ws[pos].realm) || !env.uriOk || !env.headerOk(ws[pos]) then AnswerOutcome(t, [], false)
    else
      var t' := if ws[pos].qop && remember then Stored(t, callId, ws[pos], cloned) else t;
      var o := Answered(t', callId, ws, pos + 1, env, remember, cloned);
      o.(answers := [Answer(ws[pos], 1)] + o.answers)
  }

  /** The challenges of a response: those for WWW-Authenticate, then those for Proxy-Authenticate; -1 without any. */
  function AnsweredBoth(t: Slots, callId: string, www: seq<Challenge>, proxy: seq<Challenge>, env: Env, remember: bool, cloned: bool): AnswerOutcome {
    if www == [] && proxy == [] then AnswerOutcome(t, [], false)
    else
      var o := Answered(t, callId, www, 0, env, remember, cloned);
      if !o.ok then o
      else
        var p := Answered(o.table, callId, proxy, 0, env, remember, cloned);
        p.(answers := o.answers + p.answers)
  }

  /** The table after one challenge has been answered. */
  function Remembered(t: Slots, callId: string, wa: Challenge, remember: bool, cloned: bool): Slots {
    if wa.qop && remember then Stored(t, callId, wa, cloned) else t
  }

  lemma AnsweredNext(t: Slots, callId: string, ws: seq<Challenge>, pos: nat, env: Env, remember: bool, cloned: bool)
    requires pos < |ws|
    ensures var o := Answered(t, callId, ws, pos, env, remember, cloned);
      if !env.known(ws[pos].realm) || !env.uriOk || !env.headerOk(ws[pos]) then o == AnswerOutcome(t, [], false)
      else
        var p := Answered(Remembered(t, callId, ws[pos], remember, cloned), callId, ws, pos + 1, env, remember, cloned);
        o == p.(answers := [Answer(ws[pos], 1)] + p.answers)
  {
  }

  lemma AnsweredEnd(t: Slots, callId: string, ws: seq<Challenge>, env: Env, remember: bool, cloned: bool)
    ensures Answered(t, callId, ws, |ws|, env, remember, cloned) == AnswerOutcome(t, [], true)
  {
  }

  // ----- what using the table comes to -----

  /** A slot of the call. */
  predicate Mine(s: Slot, callId: string) {
    s.callId != "" && s.wa.Some? && EqualFold(s.callId, callId)
  }

  /** There are credentials and a URI for the slot's challenge. */
  predicate Usable(s: Slot, env: Env) {
    s.wa.Some? && env.known(s.wa.value.realm) && env.uriOk
  }

  /** The first slot of the call for which no header comes about; |t| if there is none. */
  ghost predicate StopsAt(t: Slots, callId: string, env: Env, stop: nat) {
    && stop <= |t|
    && (forall p | 0 <= p < stop && Mine(t[p], callId) :: Usable(t[p], env) && env.headerOk(t[p].wa.value))
    && (stop < |t| ==> Mine(t[stop], callId) && !(Usable(t[stop], env) && env.headerOk(t[stop].wa.value)))
  }

  /** The counts of the call's slots before `stop` are raised; that at `stop` too, if only the header failed. */
  ghost predicate Raised(t: Slots, callId: string, env: Env, pos: nat, stop: nat, after: Slots) {
    && |after| == |t|
    && (forall p | 0 <= p < |t| && pos <= p && Mine(t[p], callId) && (p < stop || (p == stop && Usable(t[p], env))) ::
          after[p] == t[p].(nonceCount := t[p].nonceCount + 1))
    && (forall p | 0 <= p < |t| && !(pos <= p && Mine(t[p], callId) && (p < stop || (p == stop && Usable(t[p], env)))) :: after[p] == t[p])
  }

  predicate InSlotOrder(headers: seq<Header>) {
    forall i, j | 0 <= i < j < |headers| :: headers[i].slot < headers[j].slot
  }

  /** The header of slot p carries its challenge, and the count after its own. */
  predicate IsHeaderOf(t: Slots, h: Header, p: nat) {
    p < |t| && t[p].wa.Some? && h == Header(p, t[p].wa.value, t[p].nonceCount + 1)
  }

  /** One header for each slot of the call from `pos` to before `stop`, in slot order, and no other. */
  ghost predicate OneEach(t: Slots, callId: string, pos: nat, stop: nat, headers: seq<Header>) {
    && InSlotOrder(headers)
    && (forall h | h in headers :: pos <= h.slot < stop && IsHeaderOf(t, h, h.slot) && Mine(t[h.slot], callId))
    && (forall p | pos <= p < stop && p < |t| && Mine(t[p], callId) :: exists h :: h in headers && h.slot == p)
  }

  lemma {:induction false} RaisedFrom(t: Slots, callId: string, env: Env, pos: nat, stop: nat)
    requires WellFormed(t) && StopsAt(t, callId, env, stop) && pos <= stop
    ensures var o := Used(t, callId, env, pos); Raised(t, callId, env, pos, stop, o.table) && (o.ok <==> stop == |t|)
    decreases |t| - pos
  {
    hide EqualFold;
    if pos < |t| {
      if !Mine(t[pos], callId) {
        RaisedFrom(t, callId, env, pos + 1, stop);
      } else if pos < stop {
        RaisedFrom(t[pos := t[pos].(nonceCount := t[pos].nonceCount + 1)], callId, env, pos + 1, stop);
      }
    }
  }

  lemma {:induction false} OneEachFrom(t: Slots, callId: string, env: Env, pos: nat, stop: nat)
    requires WellFormed(t) && StopsAt(t, callId, env, stop) && pos <= stop
    ensures OneEach(t, callId, pos, stop, Used(t, callId, env, pos).headers)
    decreases |t| - pos
  {
    hide EqualFold, OneEach;
    if pos == |t| || (pos == stop && Mine(t[pos], callId)) {
      NoHeaders(t, callId, pos, stop);
    } else if !Mine(t[pos], callId) {
      OneEachFrom(t, callId, env, pos + 1, stop);
      SkippedSlot(t, callId, pos, stop, Used(t, callId, env, pos + 1).headers);
    } else {
      var n := t[pos].nonceCount + 1;
      var t' := t[pos := t[pos].(nonceCount := n)];
      OneEachFrom(t', callId, env, pos + 1, stop);
      OneMoreHeader(t, t', callId, pos, stop, Used(t', callId, env, pos + 1).headers, Header(pos, t[pos].wa.value, n));
    }
  }

  lemma NoHeaders(t: Slots, callId: string, pos: nat, stop: nat)
    requires pos == |t| || pos == stop
    ensures OneEach(t, callId, pos, stop, [])
  {
  }

  lemma SkippedSlot(t: Slots, callId: string, pos: nat, stop: nat, headers: seq<Header>)
    requires pos < |t| && !Mine(t[pos], callId) && OneEach(t, callId, pos + 1, stop, headers)
    ensures OneEach(t, callId, pos, stop, headers)
  {
    hide EqualFold, Mine, InSlotOrder;
  }

  lemma OneMoreHeader(t: Slots, t': Slots, callId: string, pos: nat, stop: nat, headers: seq<Header>, first: Header)
    requires pos < stop && pos < |t| && Mine(t[pos], callId) && IsHeaderOf(t, first, pos)
    requires |t'| == |t| && t' == t[pos := t'[pos]] && OneEach(t', callId, pos + 1, stop, headers)
    ensures OneEach(t, callId, pos, stop, [first] + headers)
  {
    hide EqualFold, Mine;
    var all := [first] + headers;
    assert InSlotOrder(all) by {
      forall i, j | 0 <= i < j < |all| ensures all[i].slot < all[j].slot {
        assert all[j] == headers[j - 1] && headers[j - 1] in headers;
        assert i > 0 ==> all[i] == headers[i - 1];
      }
    }
    forall p | pos <= p < stop && p < |t| && Mine(t[p], callId) ensures exists h :: h in all && h.slot == p {
      if p == pos {
        assert first in all;
      } else {
        assert t'[p] == t[p];
        var h :| h in headers && h.slot == p;
        assert h in all;
      }
    }
    forall h | h in all ensures pos <= h.slot < stop && IsHeaderOf(t, h, h.slot) && Mine(t[h.slot], callId) {
      assert h == first || h in headers;
    }
  }

  /** Wherever the loop stops, at the end of the table or before, this is what it has done. */
  lemma UsedExactly(t: Slots, callId: string, env: Env, stop: nat)
    requires WellFormed(t) && StopsAt(t, callId, env, stop)
    ensures var o := Used(t, callId, env, 0);
      Raised(t, callId, env, 0, stop, o.table) && OneEach(t, callId, 0, stop, o.headers) && (o.ok <==> stop == |t|)
  {
    hide EqualFold;
    RaisedFrom(t, callId, env, 0, stop);
    OneEachFrom(t, callId, env, 0, stop);
  }

  lemma {:induction false} StopsSomewhere(t: Slots, callId: string, env: Env, pos: nat) returns (stop: nat)
    requires pos <= |t| && forall p | 0 <= p < pos && Mine(t[p], callId) :: Usable(t[p], env) && env.headerOk(t[p].wa.value)
    ensures StopsAt(t, callId, env, stop)
    decreases |t| - pos
  {
    hide EqualFold;
    if pos == |t| || (Mine(t[pos], callId) && !(Usable(t[pos], env) && env.headerOk(t[pos].wa.value))) {
      stop := pos;
    } else {
      stop := StopsSomewhere(t, callId, env, pos + 1);
    }
  }

  // ----- what answering challenges comes to -----

  predicate Answerable(w: Challenge, env: Env) {
    env.known(w.realm) && env.uriOk && env.headerOk(w)
  }

  /** The first challenge that cannot be answered is number `stop`; |ws| if all can. */
  ghost predicate AnswersUpTo(ws: seq<Challenge>, env: Env, stop: nat) {
    stop <= |ws| && (forall i | 0 <= i < stop :: Answerable(ws[i], env)) && (stop < |ws| ==> !Answerable(ws[stop], env))
  }

  /** One answer to each challenge, with count 1. */
  function Replies(ws: seq<Challenge>): (r: seq<Answer>)
    ensures |r| == |ws| && forall i | 0 <= i < |r| :: r[i] == Answer(ws[i], 1)
  {
    seq(|ws|, i requires 0 <= i < |ws| => Answer(ws[i], 1))
  }

  function WithQop(ws: seq<Challenge>): seq<Challenge> {
    if ws == [] then [] else (if ws[0].qop then [ws[0]] else []) + WithQop(ws[1..])
  }

  function StoredAll(t: Slots, callId: string, ws: seq<Challenge>, cloned: bool): Slots
    decreases |ws|
  {
    if ws == [] then t else StoredAll(Stored(t, callId, ws[0], cloned), callId, ws[1..], cloned)
  }

  /** Those before the first that fails are answered in order, and those that offer a qop remembered in order. */
  ghost predicate AnsweredAs(t: Slots, callId: string, ws: seq<Challenge>, remember: bool, cloned: bool, o: AnswerOutcome) {
    o.answers == Replies(ws) && o.table == if remember then StoredAll(t, callId, WithQop(ws), cloned) else t
  }

  lemma {:induction false} AnsweredFrom(t: Slots, callId: string, ws: seq<Challenge>, pos: nat, env: Env, remember: bool, cloned: bool, stop: nat)
    requires AnswersUpTo(ws, env, stop) && pos <= stop
    ensures var o := Answered(t, callId, ws, pos, env, remember, cloned);
      AnsweredAs(t, callId, ws[pos..stop], remember, cloned, o) && (o.ok <==> stop == |ws|)
    decreases |ws| - pos
  {
    hide Stored;
    if pos < stop {
      var w := ws[pos];
      var t' := Remembered(t, callId, w, remember, cloned);
      AnsweredFrom(t', callId, ws, pos + 1, env, remember, cloned, stop);
      var left := ws[pos..stop];
      assert left[0] == w && left[1..] == ws[pos + 1..stop];
      assert Replies(left) == [Answer(w, 1)] + Replies(left[1..]);
      if w.qop {
        assert WithQop(left)[0] == w && WithQop(left)[1..] == WithQop(left[1..]);
      } else {
        assert WithQop(left) == WithQop(left[1..]);
      }
    }
  }

  /**
   Both loops: with a challenge that cannot be answered among those for WWW-Authenticate, the ones
   before it are answered and no other; else all of them are, and then those for Proxy-Authenticate up
   to the first that cannot be.
   */
  lemma BothAnswered(t: Slots, callId: string, www: seq<Challenge>, proxy: seq<Challenge>, env: Env, remember: bool, cloned: bool, i: nat, j: nat)
    requires AnswersUpTo(www, env, i) && AnswersUpTo(proxy, env, j)
    ensures var o := AnsweredBoth(t, callId, www, proxy, env, remember, cloned);
      var first := www[..i]; var second := if i == |www| then proxy[..j] else [];
      && o.answers == Replies(first) + Replies(second)
      && o.table == (if remember then StoredAll(StoredAll(t, callId, WithQop(first), cloned), callId, WithQop(second), cloned) else t)
      && (o.ok <==> i == |www| && j == |proxy| && www + proxy != [])
  {
    hide Stored;
    AnsweredFrom(t, callId, www, 0, env, remember, cloned, i);
    assert www[0..i] == www[..i];
    var o := Answered(t, callId, www, 0, env, remember, cloned);
    AnsweredFrom(o.table, callId, proxy, 0, env, remember, cloned, j);
    assert proxy[0..j] == proxy[..j];
    assert Replies([]) == [];
  }

  // ----- the class -----

  class HttpAuths {
    const slots: array<Slot>

    ghost predicate Valid()
      reads slots
    {
      slots.Length == MAX_HTTP_AUTH && WellFormed(slots[..])
    }

    constructor ()
      ensures Valid() && fresh(slots) && forall i | 0 <= i < MAX_HTTP_AUTH :: slots[i] == EMPTY
    {
      slots := new Slot[MAX_HTTP_AUTH](_ => EMPTY);
    }

    method StoreNonce(callId: string, wa: Challenge, cloned: bool) returns (r: int)
      requires Valid()
      modifies slots
      ensures Valid()
      ensures slots[..] == Stored(old(slots[..]), callId, wa, cloned)
      ensures r == if FindKey(old(slots[..]), callId, wa.realm, 0) == FindFree(old(slots[..]), 0) == MAX_HTTP_AUTH then -1 else 0
    {
      ghost var t := slots[..];
      // update the entry with the same key
      for pos := 0 to MAX_HTTP_AUTH
        invariant slots[..] == t
        invariant FindKey(t, callId, wa.realm, pos) == FindKey(t, callId, wa.realm, 0)
      {
        var auth := slots[pos];
        assert auth == t[pos];
        if Occupied(auth) {
          if EqualFold(auth.callId, callId) && EqualFold(auth.wa.value.realm, wa.realm) {
            assert FindKey(t, callId, wa.realm, 0) == pos;
            slots[pos] := if cloned then auth.(wa := Some(wa), nonceCount := 1) else EMPTY;
            assert slots[..] == Stored(t, callId, wa, cloned);
            StoredWellFormed(t, callId, wa, cloned);
            return 0;
          }
        }
      }
      // not found
      for pos := 0 to MAX_HTTP_AUTH
        invariant slots[..] == t
        invariant FindFree(t, pos) == FindFree(t, 0)
      {
        var auth := slots[pos];
        assert auth == t[pos];
        if !Occupied(auth) {
          assert FindFree(t, 0) == pos;
          slots[pos] := if cloned then Slot(Truncated(callId), Some(wa), 1) else EMPTY;
          assert slots[..] == Stored(t, callId, wa, cloned);
          StoredWellFormed(t, callId, wa, cloned);
          return 0;
        }
      }
      r := -1;
    }

    method DeleteNonce(callId: string) returns (r: int)
      requires Valid()
      modifies slots
      ensures Valid()
      ensures slots[..] == Deleted(old(slots[..]), callId)
      ensures r == if FindCall(old(slots[..]), callId, 0) < MAX_HTTP_AUTH then 0 else -1
    {
      ghost var t := slots[..];
      for pos := 0 to MAX_HTTP_AUTH
        invariant slots[..] == t
        invariant FindCall(t, callId, pos) == FindCall(t, callId, 0)
      {
        var auth := slots[pos];
        assert auth == t[pos];
        if Occupied(auth) {
          if EqualFold(auth.callId, callId) {
            assert FindCall(t, callId, 0) == pos;
            slots[pos] := EMPTY;
            assert slots[..] == Deleted(t, callId);
            return 0;
          }
        }
      }
      r := -1;
    }

    /** The branch of eXosip_add_authentication_information that answers the challenges of a response. */
    method AnswerChallenges(callId: string, ws: seq<Challenge>, env: Env, remember: bool, cloned: bool)
      returns (answers: seq<Answer>, r: int)
      requires Valid()
      modifies slots
      ensures Valid()
      ensures var o := Answered(old(slots[..]), callId, ws, 0, env, remember, cloned);
              slots[..] == o.table && answers == o.answers && r == if o.ok then 0 else -1
    {
      hide Stored, WellFormed, Answered, FindKey, FindFree;
      ghost var o := Answered(slots[..], callId, ws, 0, env, remember, cloned);
      answers := [];
      var pos := 0;
      while pos < |ws|
        invariant 0 <= pos <= |ws| && Valid()
        invariant var rest := Answered(slots[..], callId, ws, pos, env, remember, cloned);
                  rest.(answers := answers + rest.answers) == o
      {
        var wa := ws[pos];
        AnsweredNext(slots[..], callId, ws, pos, env, remember, cloned);
        if !env.known(wa.realm) {
          return answers, -1;
        }
        if !env.uriOk {
          return answers, -1;
        }
        if !env.headerOk(wa) {
          return answers, -1;
        }
        answers := answers + [Answer(wa, 1)];
        if wa.qop && remember {
          var stored := StoreNonce(callId, wa, cloned);
        }
        pos := pos + 1;
      }
      AnsweredEnd(slots[..], callId, ws, env, remember, cloned);
      r := 0;
    }

    /** The branch with a response in hand: one loop after the other. */
    method AnswerResponse(callId: string, www: seq<Challenge>, proxy: seq<Challenge>, env: Env, remember: bool, cloned: bool)
      returns (answers: seq<Answer>, r: int)
      requires Valid()
      modifies slots
      ensures Valid()
      ensures var o := AnsweredBoth(old(slots[..]), callId, www, proxy, env, remember, cloned);
              slots[..] == o.table && answers == o.answers && r == if o.ok then 0 else -1
    {
      hide Answered, WellFormed;
      if www == [] && proxy == [] {
        return [], -1;
      }
      answers, r := AnswerChallenges(callId, www, env, remember, cloned);
      if r != 0 {
        return;
      }
      var more;
      more, r := AnswerChallenges(callId, proxy, env, remember, cloned);
      answers := answers + more;
    }

    /** The branch of eXosip_add_authentication_information without a challenge in hand. */
    method AddAuthentication(callId: string, env: Env) returns (headers: seq<Header>, r: int)
      requires Valid()
      modifies slots
      ensures Valid()
      ensures var o := Used(old(slots[..]), callId, env, 0);
              slots[..] == o.table && headers == o.headers && r == if o.ok then 0 else -1
      ensures exists stop ::
        && StopsAt(old(slots[..]), callId, env, stop) && r == (if stop == slots.Length then 0 else -1)
        && Raised(old(slots[..]), callId, env, 0, stop, slots[..]) && OneEach(old(slots[..]), callId, 0, stop, headers)
    {
      hide StopsAt, Raised, OneEach;
      ghost var o := Used(slots[..], callId, env, 0);
      ghost var stop := StopsSomewhere(slots[..], callId, env, 0);
      UsedExactly(slots[..], callId, env, stop);
      headers := [];
      for pos := 0 to MAX_HTTP_AUTH
        invariant Valid()
        invariant var rest := Used(slots[..], callId, env, pos); rest.(headers := headers + rest.headers) == o
      {
        ghost var t := slots[..];
        var auth := slots[pos];
        assert auth == t[pos];
        if Occupied(auth) {
          if EqualFold(auth.callId, callId) {
            var wa := auth.wa.value;
            if !env.known(wa.realm) {
              return headers, -1;
            }
            if !env.uriOk {
              return headers, -1;
            }
            auth := auth.(nonceCount := auth.nonceCount + 1);
            slots[pos] := auth;
            assert slots[..] == t[pos := auth];
            if !env.headerOk(wa) {
              return headers, -1;
            }
            headers := headers + [Header(pos, wa, auth.nonceCount)];
          }
        }
      }
      r := 0;
    }
  }

  lemma StoredWellFormed(t: Slots, callId: string, wa: Challenge, cloned: bool)
    requires WellFormed(t)
    ensures WellFormed(Stored(t, callId, wa, cloned))
  {
  }

  // ----- the table as a map -----

  /** Case folding is an equivalence. */
  lemma FoldTransitive(a: string, b: string, c: string)
    requires EqualFold(a, b) && EqualFold(b, c)
    ensures EqualFold(a, c) && EqualFold(b, a)
  {
  }

  /** What a lookup by call-id and realm finds: the slot's contents, if any slot holds the key. */
  function Lookup(t: Slots, callId: string, realm: string): Option<(Challenge, nat)> {
    var k := FindKey(t, callId, realm, 0);
    if k < |t| then Some((t[k].wa.value, t[k].nonceCount)) else None
  }

  predicate SameKey(c1: string, r1: string, c2: string, r2: string) {
    EqualFold(c1, c2) && EqualFold(r1, r2)
  }

  /** A slot holds two keys exactly when they are the same key. */
  lemma HoldsKey(s: Slot, c1: string, r1: string, c2: string, r2: string)
    ensures Holds(s, c1, r1) && Holds(s, c2, r2) ==> SameKey(c1, r1, c2, r2)
    ensures Holds(s, c1, r1) && SameKey(c1, r1, c2, r2) ==> Holds(s, c2, r2)
    ensures SameKey(c1, r1, c2, r2) ==> SameKey(c2, r2, c1, r1)
  {
  }

  /** In a unique table the key's slot is found wherever it is. */
  lemma LookupAt(t: Slots, callId: string, realm: string, i: nat)
    requires Unique(t) && i < |t| && Holds(t[i], callId, realm)
    ensures FindKey(t, callId, realm, 0) == i
  {
    var k := FindKey(t, callId, realm, 0);
    if k < i {
      FoldTransitive(t[k].callId, callId, t[i].callId);
      FoldTransitive(t[k].wa.value.realm, realm, t[i].wa.value.realm);
    }
  }

  /** Clearing a slot keeps a table unique. */
  lemma ClearedUnique(t: Slots, k: nat)
    requires Unique(t) && k < |t|
    ensures Unique(t[k := EMPTY])
  {
  }

  /** A slot that was free or held the key, now holding the key or cleared: a map update at the key. */
  lemma UpdateSlot(t: Slots, k: nat, s: Slot, callId: string, realm: string, c: string, r: string)
    requires Unique(t) && k < |t| && Unique(t[k := s])
    requires s == EMPTY || Holds(s, callId, realm)
    requires Holds(t[k], callId, realm) || (!Occupied(t[k]) && FindKey(t, callId, realm, 0) == |t|)
    ensures Lookup(t[k := s], c, r) == if SameKey(callId, realm, c, r)
                                       then (if s == EMPTY then None else Some((s.wa.value, s.nonceCount)))
                                       else Lookup(t, c, r)
  {
    hide EqualFold, Holds, SameKey, Unique;
    var t' := t[k := s];
    var i, i' := FindKey(t, c, r, 0), FindKey(t', c, r, 0);
    HoldsKey(t[k], callId, realm, c, r);
    HoldsKey(t[k], c, r, callId, realm);
    HoldsKey(s, callId, realm, c, r);
    HoldsKey(s, c, r, callId, realm);
    FreeHoldsNothing(EMPTY, c, r);
    FreeHoldsNothing(t[k], c, r);
    if SameKey(callId, realm, c, r) {
      if s != EMPTY {
        LookupAt(t', c, r, k);
      } else {
        KeyOnlyThere(t, callId, realm, k, c, r);
      }
    } else if i < |t| && i != k {
      assert t'[i] == t[i];
      LookupAt(t', c, r, i);
    }
  }

  lemma FreeHoldsNothing(s: Slot, c: string, r: string)
    ensures !Occupied(s) ==> !Holds(s, c, r)
  {
  }

  lemma KeyOnlyThere(t: Slots, callId: string, realm: string, k: nat, c: string, r: string)
    requires Unique(t) && k < |t| && SameKey(callId, realm, c, r)
    requires Holds(t[k], callId, realm) || FindKey(t, callId, realm, 0) == |t|
    ensures forall i | 0 <= i < |t| && i != k :: !Holds(t[i], c, r)
  {
    hide EqualFold, Holds, SameKey, Unique;
    forall i | 0 <= i < |t| && i != k ensures !Holds(t[i], c, r) {
      HoldsKey(t[k], callId, realm, c, r);
      HoldsKey(t[i], c, r, callId, realm);
      KeyOnlyAt(t, callId, realm, k, i);
    }
  }

  lemma KeyOnlyAt(t: Slots, callId: string, realm: string, k: nat, i: nat)
    requires Unique(t) && k < |t| && i < |t|
    requires Holds(t[k], callId, realm) || FindKey(t, callId, realm, 0) == |t|
    ensures Holds(t[i], callId, realm) ==> i == k
  {
    if Holds(t[i], callId, realm) {
      LookupAt(t, callId, realm, i);
      if Holds(t[k], callId, realm) {
        LookupAt(t, callId, realm, k);
      }
    }
  }

  /** Whether storing can take effect: the key is there already, or a slot is free. */
  predicate Room(t: Slots, callId: string, realm: string) {
    FindKey(t, callId, realm, 0) < |t| || FindFree(t, 0) < |t|
  }

  /** Where a store with an ordinary call-id writes, and what. */
  lemma StoredSlot(t: Slots, callId: string, wa: Challenge, cloned: bool) returns (k: nat, s: Slot)
    requires WellFormed(t) && Unique(t) && 1 <= |callId| <= CALL_ID_ROOM && Room(t, callId, wa.realm)
    ensures k < |t| && Stored(t, callId, wa, cloned) == t[k := s]
    ensures s == EMPTY || (Holds(s, callId, wa.realm) && s.wa == Some(wa) && s.nonceCount == 1)
    ensures s == EMPTY <==> !cloned
    ensures Holds(t[k], callId, wa.realm) || (!Occupied(t[k]) && FindKey(t, callId, wa.realm, 0) == |t|)
  {
    k := FindKey(t, callId, wa.realm, 0);
    if k < |t| {
      s := if cloned then t[k].(wa := Some(wa), nonceCount := 1) else EMPTY;
    } else {
      k := FindFree(t, 0);
      s := if cloned then Slot(Truncated(callId), Some(wa), 1) else EMPTY;
    }
  }

  /** Storing under an ordinary call-id keeps the table unique. */
  lemma StoredUnique(t: Slots, callId: string, wa: Challenge, cloned: bool)
    requires WellFormed(t) && Unique(t) && |callId| <= CALL_ID_ROOM
    ensures Unique(Stored(t, callId, wa, cloned))
  {
    if 1 <= |callId| && Room(t, callId, wa.realm) {
      var k, s := StoredSlot(t, callId, wa, cloned);
      var t' := t[k := s];
      forall i | 0 <= i < |t| && i != k && Occupied(t[i]) && Occupied(s) && t[i].wa.Some?
        ensures !SameKey(t[i].callId, t[i].wa.value.realm, s.callId, s.wa.value.realm)
      {
        HoldsKey(s, callId, wa.realm, t[i].callId, t[i].wa.value.realm);
        if SameKey(t[i].callId, t[i].wa.value.realm, s.callId, s.wa.value.realm) {
          FoldTransitive(t[i].callId, s.callId, callId);
          FoldTransitive(t[i].wa.value.realm, s.wa.value.realm, wa.realm);
          KeyOnlyAt(t, callId, wa.realm, k, i);
        }
      }
      forall i, j | 0 <= i < j < |t'| && Occupied(t'[i]) && Occupied(t'[j]) && t'[i].wa.Some? && t'[j].wa.Some?
        ensures !(EqualFold(t'[i].callId, t'[j].callId) && EqualFold(t'[i].wa.value.realm, t'[j].wa.value.realm))
      {
        if i == k {
          assert !SameKey(t[j].callId, t[j].wa.value.realm, s.callId, s.wa.value.realm);
        } else if j == k {
          assert !SameKey(t[i].callId, t[i].wa.value.realm, s.callId, s.wa.value.realm);
        }
      }
    }
  }

  /** _eXosip_store_nonce is a map update: the key gets the challenge with count 1, or nothing if cloning fails. */
  lemma StoreIsMapUpdate(t: Slots, callId: string, wa: Challenge, cloned: bool, c: string, r: string)
    requires WellFormed(t) && Unique(t) && 1 <= |callId| <= CALL_ID_ROOM && Room(t, callId, wa.realm)
    ensures Lookup(Stored(t, callId, wa, cloned), c, r)
         == if SameKey(callId, wa.realm, c, r) then (if cloned then Some((wa, 1)) else None) else Lookup(t, c, r)
  {
    var k, s := StoredSlot(t, callId, wa, cloned);
    StoredUnique(t, callId, wa, cloned);
    UpdateSlot(t, k, s, callId, wa.realm, c, r);
  }

  /**
   Exactly when a store may break uniqueness: the call-id is longer than its buffer, a slot is free,
   and the call-id's first 63 characters are already stored for the realm. (The truncated entry is
   never found again, so every further store takes another slot.)
   */
  lemma StoredUniqueExactly(t: Slots, callId: string, wa: Challenge)
    requires WellFormed(t) && Unique(t)
    ensures Unique(Stored(t, callId, wa, true)) <==>
            !(|callId| > CALL_ID_ROOM && FindFree(t, 0) < |t| && FindKey(t, Truncated(callId), wa.realm, 0) < |t|)
  {
    if |callId| <= CALL_ID_ROOM {
      StoredUnique(t, callId, wa, true);
    } else {
      var f, k := FindFree(t, 0), FindKey(t, Truncated(callId), wa.realm, 0);
      var t' := Stored(t, callId, wa, true);
      assert FindKey(t, callId, wa.realm, 0) == |t|;
      if f < |t| {
        assert t' == t[f := Slot(Truncated(callId), Some(wa), 1)];
        if k < |t| {
          FoldTransitive(t[k].callId, Truncated(callId), t[k].callId);
          FoldTransitive(t[k].wa.value.realm, wa.realm, t[k].wa.value.realm);
          assert t'[k] == t[k] && t'[f].wa == Some(wa);
          assert Occupied(t'[f]);
          assert !Unique(t');
        } else {
          assert t' == Stored(t, Truncated(callId), wa, true);
          StoredUnique(t, Truncated(callId), wa, true);
        }
      }
    }
  }

  /** The call-id of 64 characters is an input: stored twice for one realm, it fills two slots. */
  lemma LongCallIdStoredTwice(wa: Challenge)
    ensures var t := [EMPTY, EMPTY]; var id := "0123456789012345678901234567890123456789012345678901234567890123";
      && |id| == CALL_ID_ROOM + 1
      && Unique(Stored(t, id, wa, true)) && !Unique(Stored(Stored(t, id, wa, true), id, wa, true))
  {
    hide EqualFold;
    var t := [EMPTY, EMPTY];
    var id := "0123456789012345678901234567890123456789012345678901234567890123";
    var short := Truncated(id);
    FoldReflexive(short);
    FoldReflexive(wa.realm);
    LengthDiffers(short, id);
    var t1 := Stored(t, id, wa, true);
    assert t1 == [Slot(short, Some(wa), 1), EMPTY];
    assert t1[0].wa == Some(wa) && Occupied(t1[0]) && !Occupied(t1[1]);
    assert Holds(t1[0], short, wa.realm) && FindKey(t1, short, wa.realm, 0) == 0;
    assert FindFree(t1, 1) == 1 && FindFree(t1, 0) == 1;
    StoredUniqueExactly(t1, id, wa);
  }

  lemma FoldReflexive(a: string)
    ensures EqualFold(a, a)
  {
  }

  lemma LengthDiffers(a: string, b: string)
    requires |a| != |b|
    ensures !EqualFold(a, b)
  {
  }

  // ----- deleting -----

  /** Deleting ends one entry of the call; no entry of any other call changes. */
  lemma DeleteIsMapRemoval(t: Slots, callId: string, c: string, r: string)
    requires WellFormed(t) && Unique(t)
    ensures var k := FindCall(t, callId, 0);
            Lookup(Deleted(t, callId), c, r)
            == if k < |t| && SameKey(t[k].callId, t[k].wa.value.realm, c, r) then None else Lookup(t, c, r)
  {
    var k := FindCall(t, callId, 0);
    if k < |t| {
      ClearedUnique(t, k);
      UpdateSlot(t, k, EMPTY, t[k].callId, t[k].wa.value.realm, c, r);
    }
  }

  /**
   A call that was challenged for several realms keeps all its entries but the first: nothing of the
   call is left exactly when it had at most one.
   */
  lemma DeleteLeavesNothingExactly(t: Slots, callId: string)
    ensures (forall i | 0 <= i < |t| :: !OfCall(Deleted(t, callId)[i], callId))
       <==> (forall i, j | 0 <= i < j < |t| :: !(OfCall(t[i], callId) && OfCall(t[j], callId)))
  {
    var k := FindCall(t, callId, 0);
    var t' := Deleted(t, callId);
    if forall i, j | 0 <= i < j < |t| :: !(OfCall(t[i], callId) && OfCall(t[j], callId)) {
      forall i | 0 <= i < |t| ensures !OfCall(t'[i], callId) {
        assert i > k ==> !(OfCall(t[k], callId) && OfCall(t[i], callId));
      }
    }
    if forall i | 0 <= i < |t| :: !OfCall(t'[i], callId) {
      forall i, j | 0 <= i < j < |t| ensures !(OfCall(t[i], callId) && OfCall(t[j], callId)) {
        assert !OfCall(t'[i], callId) && !OfCall(t'[j], callId);
      }
    }
  }

  /** A call challenged for two realms is an input: deleted once, it still has an entry. */
  lemma TwoRealmsDeletedOnce(id: string, a: Challenge, b: Challenge)
    requires 1 <= |id| <= CALL_ID_ROOM && !EqualFold(a.realm, b.realm)
    ensures var t := Stored(Stored([EMPTY, EMPTY], id, a, true), id, b, true);
      && OfCall(t[0], id) && OfCall(t[1], id) && Deleted(t, id) == [EMPTY, t[1]]
  {
    hide EqualFold;
    FoldReflexive(id);
    var t1 := Stored([EMPTY, EMPTY], id, a, true);
    assert t1 == [Slot(id, Some(a), 1), EMPTY];
    assert FindKey(t1, id, b.realm, 1) == 2 && FindKey(t1, id, b.realm, 0) == 2;
    assert FindFree(t1, 1) == 1 && FindFree(t1, 0) == 1;
    assert Stored(t1, id, b, true) == [Slot(id, Some(a), 1), Slot(id, Some(b), 1)];
  }

  // ----- uniqueness over whole runs -----

  lemma CountedUnique(t: Slots, k: nat, n: nat)
    requires k < |t|
    ensures Unique(t) ==> Unique(t[k := t[k].(nonceCount := n)])
    ensures WellFormed(t) ==> WellFormed(t[k := t[k].(nonceCount := n)])
  {
    var r := t[k := t[k].(nonceCount := n)];
    forall i | 0 <= i < |t| ensures r[i].callId == t[i].callId && r[i].wa == t[i].wa {
    }
    if Unique(t) {
      forall i, j | 0 <= i < j < |r| && Occupied(r[i]) && Occupied(r[j]) && r[i].wa.Some? && r[j].wa.Some?
        ensures !(EqualFold(r[i].callId, r[j].callId) && EqualFold(r[i].wa.value.realm, r[j].wa.value.realm))
      {
        assert Occupied(t[i]) && Occupied(t[j]);
      }
    }
  }

  /** Using the table only counts. */
  lemma {:induction false} UsedUnique(t: Slots, callId: string, env: Env, pos: nat)
    requires pos <= |t|
    ensures Unique(t) ==> Unique(Used(t, callId, env, pos).table)
    ensures WellFormed(t) ==> WellFormed(Used(t, callId, env, pos).table)
    decreases |t| - pos
  {
    hide EqualFold, Unique, WellFormed;
    if pos < |t| {
      if OfCall(t[pos], callId) && t[pos].wa.Some? {
        CountedUnique(t, pos, t[pos].nonceCount + 1);
        UsedUnique(t[pos := t[pos].(nonceCount := t[pos].nonceCount + 1)], callId, env, pos + 1);
      } else {
        UsedUnique(t, callId, env, pos + 1);
      }
    }
  }

  /** Every call-id of the run fits its field. */
  predicate AllFit(ops: seq<Op>) {
    forall i | 0 <= i < |ops| && ops[i].Store? :: |ops[i].callId| <= CALL_ID_ROOM
  }

  /** Over any run of stores, deletions and uses, no two slots ever share call-id and realm. */
  lemma {:induction false} RunUnique(t: Slots, ops: seq<Op>)
    requires WellFormed(t) && Unique(t) && AllFit(ops)
    ensures WellFormed(Run(t, ops).table) && Unique(Run(t, ops).table)
    decreases |ops|
  {
    hide Unique, WellFormed, EqualFold, Stored, Used;
    if ops != [] {
      var t1 := Applied(t, ops[0]).table;
      match ops[0] {
        case Store(c, wa, ok) =>
          StoredUnique(t, c, wa, ok);
          StoredWellFormed(t, c, wa, ok);
        case Delete(c) => DeletedUnique(t, c);
        case Use(c, env) => UsedUnique(t, c, env, 0);
      }
      assert AllFit(ops[1..]) by {
        forall i | 0 <= i < |ops[1..]| ensures ops[1..][i] == ops[i + 1] {
        }
      }
      RunUnique(t1, ops[1..]);
    }
  }

  lemma DeletedUnique(t: Slots, callId: string)
    requires WellFormed(t) && Unique(t)
    ensures WellFormed(Deleted(t, callId)) && Unique(Deleted(t, callId))
  {
    var k := FindCall(t, callId, 0);
    if k < |t| {
      ClearedUnique(t, k);
    }
  }

  // ----- nonce counts over whole runs -----

  /** Answering a response that carries one remembered challenge sends count 1 and leaves count 1 behind. */
  lemma AnsweredOnce(t: Slots, callId: string, wa: Challenge, env: Env)
    requires WellFormed(t) && Unique(t) && 1 <= |callId| <= CALL_ID_ROOM && Room(t, callId, wa.realm)
    requires wa.qop
    ensures var o := Answered(t, callId, [wa], 0, env, true, true);
            if o.ok then o.answers == [Answer(wa, 1)] && Lookup(o.table, callId, wa.realm) == Some((wa, 1))
            else o.answers == [] && o.table == t
  {
    StoreIsMapUpdate(t, callId, wa, true, callId, wa.realm);
  }

  /** The loop attempts slot p at most once, with the next count. */
  lemma {:induction false} UsedSlot(t: Slots, callId: string, env: Env, pos: nat, p: nat)
    requires pos <= |t| && p < |t| && t[p].wa.Some?
    ensures var o := Used(t, callId, env, pos);
      && |o.table| == |t|
      && o.table[p].(nonceCount := 0) == t[p].(nonceCount := 0)
      && (o.table[p].nonceCount == t[p].nonceCount || (p >= pos && o.table[p].nonceCount == t[p].nonceCount + 1))
      && Counts(o.headers, p)
         == (if o.table[p].nonceCount == t[p].nonceCount || !env.headerOk(t[p].wa.value) then [] else [o.table[p].nonceCount])
      && (forall i | 0 <= i < |o.headers| && o.headers[i].slot == p :: o.headers[i].challenge == t[p].wa.value)
    decreases |t| - pos
  {
    hide EqualFold;
    if pos < |t| {
      if OfCall(t[pos], callId) && t[pos].wa.Some? {
        UsedSlot(t[pos := t[pos].(nonceCount := t[pos].nonceCount + 1)], callId, env, pos + 1, p);
      } else {
        UsedSlot(t, callId, env, pos + 1, p);
      }
    }
  }

  /** The nonce counts a sequence of headers carries for slot p. */
  function Counts(headers: seq<Header>, p: nat): seq<nat> {
    if headers == [] then []
    else (if headers[0].slot == p then [headers[0].nonceCount] else []) + Counts(headers[1..], p)
  }

  lemma {:induction false} CountsJoin(a: seq<Header>, b: seq<Header>, p: nat)
    ensures Counts(a + b, p) == Counts(a, p) + Counts(b, p)
  {
    if a == [] {
      assert a + b == b;
    } else {
      CountsJoin(a[1..], b, p);
      assert (a + b)[1..] == a[1..] + b && (a + b)[0] == a[0];
    }
  }

  /** Anything the stack does with the table. */
  datatype Op =
    | Store(callId: string, wa: Challenge, cloned: bool)
    | Delete(callId: string)
    | Use(callId: string, env: Env)

  function Applied(t: Slots, op: Op): Outcome {
    match op
    case Store(c, wa, ok) => Outcome(Stored(t, c, wa, ok), [], true)
    case Delete(c) => Outcome(Deleted(t, c), [], true)
    case Use(c, env) => Used(t, c, env, 0)
  }

  /** Neither a replacement nor a deletion of the challenge in slot p. */
  predicate LeavesAlone(t: Slots, op: Op, p: nat)
    requires p < |t|
  {
    match op
    case Store(c, wa, ok) => FindKey(t, c, wa.realm, 0) != p
    case Delete(c) => FindCall(t, c, 0) != p
    case Use(_, _) => true
  }

  /** The table and all headers sent after a run of operations. */
  function Run(t: Slots, ops: seq<Op>): Outcome
    decreases |ops|
  {
    if ops == [] then Outcome(t, [], true)
    else
      var o := Applied(t, ops[0]);
      var r := Run(o.table, ops[1..]);
      Outcome(r.table, o.headers + r.headers, o.ok && r.ok)
  }

  ghost predicate AllLeaveAlone(t: Slots, ops: seq<Op>, p: nat)
    requires p < |t|
    decreases |ops|
  {
    ops != [] ==>
      && LeavesAlone(t, ops[0], p)
      && (var t' := Applied(t, ops[0]).table; |t'| == |t| && AllLeaveAlone(t', ops[1..], p))
  }

  /** Every header attempted for slot p could be built. */
  ghost predicate AllBuilt(ops: seq<Op>, wa: Challenge) {
    forall i | 0 <= i < |ops| && ops[i].Use? :: ops[i].env.headerOk(wa)
  }

  ghost predicate Consecutive(counts: seq<nat>, from: nat) {
    forall i | 0 <= i < |counts| :: counts[i] == from + 1 + i
  }

  /** Strictly increasing, above `low` and at most `high`. */
  ghost predicate Rising(counts: seq<nat>, low: nat, high: nat) {
    && (forall i | 0 <= i < |counts| :: low < counts[i] <= high)
    && (forall i, j | 0 <= i < j < |counts| :: counts[i] < counts[j])
  }

  lemma AppliedSlot(t: Slots, op: Op, p: nat)
    requires p < |t| && Occupied(t[p]) && t[p].wa.Some? && LeavesAlone(t, op, p)
    ensures var o := Applied(t, op);
      && |o.table| == |t|
      && o.table[p].(nonceCount := 0) == t[p].(nonceCount := 0)
      && (Counts(o.headers, p) == [] || (Counts(o.headers, p) == [o.table[p].nonceCount] && o.table[p].nonceCount == t[p].nonceCount + 1))
      && t[p].nonceCount <= o.table[p].nonceCount
      && ((op.Use? && !op.env.headerOk(t[p].wa.value)) || o.table[p].nonceCount == t[p].nonceCount + |Counts(o.headers, p)|)
  {
    if op.Use? {
      UsedSlot(t, op.callId, op.env, 0, p);
    }
  }

  /**
   Between storing a challenge and its replacement or deletion, whatever else happens to the table,
   the counts sent for it strictly increase past the stored one; and if no header failed to be built
   they grow by exactly one from header to header.
   */
  lemma {:induction false} CountsRise(t: Slots, ops: seq<Op>, p: nat)
    requires p < |t| && Occupied(t[p]) && t[p].wa.Some? && AllLeaveAlone(t, ops, p)
    ensures var o := Run(t, ops);
      && |o.table| == |t|
      && o.table[p].(nonceCount := 0) == t[p].(nonceCount := 0)
      && t[p].nonceCount <= o.table[p].nonceCount
      && Rising(Counts(o.headers, p), t[p].nonceCount, o.table[p].nonceCount)
      && (AllBuilt(ops, t[p].wa.value) ==>
            Consecutive(Counts(o.headers, p), t[p].nonceCount)
            && o.table[p].nonceCount == t[p].nonceCount + |Counts(o.headers, p)|)
    decreases |ops|
  {
    hide Applied, LeavesAlone, Counts, Rising, Consecutive, AllBuilt;
    if ops == [] {
      NoCounts(p, t[p].nonceCount);
    } else {
      AppliedSlot(t, ops[0], p);
      var o := Applied(t, ops[0]);
      var r := Run(o.table, ops[1..]);
      CountsRise(o.table, ops[1..], p);
      CountsJoin(o.headers, r.headers, p);
      AllBuiltRest(ops, t[p].wa.value);
      RisingJoin(Counts(o.headers, p), Counts(r.headers, p), t[p].nonceCount, o.table[p].nonceCount, r.table[p].nonceCount);
    }
  }

  lemma NoCounts(p: nat, low: nat)
    ensures Counts([], p) == [] && Rising([], low, low) && Consecutive([], low)
  {
  }

  lemma AllBuiltRest(ops: seq<Op>, wa: Challenge)
    requires ops != []
    ensures AllBuilt(ops, wa) ==> AllBuilt(ops[1..], wa) && !(ops[0].Use? && !ops[0].env.headerOk(wa))
  {
    assert forall i | 0 <= i < |ops[1..]| && ops[1..][i].Use? :: ops[1..][i] == ops[i + 1];
  }

  /** At most one count, then counts above it. */
  lemma RisingJoin(a: seq<nat>, b: seq<nat>, low: nat, mid: nat, high: nat)
    requires a == [] || (a == [mid] && mid == low + 1)
    requires low <= mid <= high && Rising(b, mid, high)
    ensures Rising(a + b, low, high)
    ensures Consecutive(b, mid) && mid == low + |a| ==> Consecutive(a + b, low)
  {
    var c := a + b;
    forall i | 0 <= i < |c| ensures low < c[i] <= high {
      assert i >= |a| ==> c[i] == b[i - |a|];
    }
    forall i, j | 0 <= i < j < |c| ensures c[i] < c[j] {
      assert i >= |a| ==> c[i] == b[i - |a|];
      assert j >= |a| ==> c[j] == b[j - |a|];
    }
  }

  /** After a fresh challenge the first count sent from the table is 2: count 1 went out with the answer to it. */
  lemma CountsStartAtTwo(t: Slots, callId: string, wa: Challenge, ops: seq<Op>, p: nat)
    requires WellFormed(t) && Unique(t) && 1 <= |callId| <= CALL_ID_ROOM && Room(t, callId, wa.realm)
    requires p < |t| == |Stored(t, callId, wa, true)| && FindKey(Stored(t, callId, wa, true), callId, wa.realm, 0) == p
    requires AllLeaveAlone(Stored(t, callId, wa, true), ops, p) && AllBuilt(ops, wa)
    ensures Consecutive(Counts(Run(Stored(t, callId, wa, true), ops).headers, p), 1)
  {
    var k, s := StoredSlot(t, callId, wa, true);
    StoredUnique(t, callId, wa, true);
    LookupAt(Stored(t, callId, wa, true), callId, wa.realm, k);
    CountsRise(Stored(t, callId, wa, true), ops, p);
  }

  // ----- the text of a nonce count -----

  const COUNT_WIDTH := 8

  function Zeros(n: nat): string {
    if n == 0 then "" else "0" + Zeros(n - 1)
  }

  /** snprintf (s, 9, "%.8i", n): eight decimal digits, zeros in front. */
  function CountText(n: nat): string {
    var d := Digits(n, Decimal);
    if |d| >= COUNT_WIDTH then d[..COUNT_WIDTH] else Zeros(COUNT_WIDTH - |d|) + d
  }

  /** Decimal digits read in base 16, as section 3.2.2 of RFC 2617 has the count. */
  function ReadAsHex(n: nat): nat {
    if n < 10 then n else 16 * ReadAsHex(n / 10) + n % 10
  }

  lemma {:induction false} DecimalReadAsHex(n: nat)
    ensures AllDigits(Digits(n, Decimal), Hexadecimal)
    ensures Value(Digits(n, Decimal), Hexadecimal) == ReadAsHex(n)
  {
    var s := Digits(n, Decimal);
    if n < 10 {
      assert s[..0] == [] && DigitValue(DIGITS[n]) == n;
    } else {
      DecimalReadAsHex(n / 10);
      assert s[..|s| - 1] == Digits(n / 10, Decimal) && DigitValue(DIGITS[n % 10]) == n % 10;
    }
  }

  /** Zeros in front do not count. */
  lemma {:induction false} LeadingZeros(k: nat, s: string)
    requires AllDigits(s, Hexadecimal)
    ensures AllDigits(Zeros(k) + s, Hexadecimal) && Value(Zeros(k) + s, Hexadecimal) == Value(s, Hexadecimal)
    decreases k, |s|
  {
    var z := Zeros(k) + s;
    if k == 0 {
      assert z == s;
    } else if s == [] {
      assert z == Zeros(k - 1) + "0" by { ZerosLast(k); }
      LeadingZeros(k - 1, "0");
      assert "0"[..0] == [] && Value("0", Hexadecimal) == 0;
    } else {
      LeadingZeros(k, s[..|s| - 1]);
      assert z[..|z| - 1] == Zeros(k) + s[..|s| - 1] && z[|z| - 1] == s[|s| - 1];
    }
  }

  lemma {:induction false} ZerosLast(k: nat)
    requires k > 0
    ensures Zeros(k) == Zeros(k - 1) + "0"
  {
    if k > 1 {
      ZerosLast(k - 1);
    }
  }

  /** The first eight digits of a count, which is what the buffer of nine characters keeps. */
  function Eight(n: nat): (r: nat)
    ensures r <= n && r < 100_000_000
  {
    if n < 100_000_000 then n else Eight(n / 10)
  }

  /** The text of a count under 10^8 is its digits with zeros in front. */
  lemma ShortText(n: nat)
    requires n < 100_000_000
    ensures |Digits(n, Decimal)| <= COUNT_WIDTH && CountText(n) == Zeros(COUNT_WIDTH - |Digits(n, Decimal)|) + Digits(n, Decimal)
  {
    hide Digits;
    assert n < Power(Decimal, 8) by { EightDigits(); }
    DigitsLength(n, Decimal, 8);
    assert Zeros(0) + Digits(n, Decimal) == Digits(n, Decimal);
    assert |Digits(n, Decimal)| == 8 ==> Digits(n, Decimal)[..8] == Digits(n, Decimal);
  }

  lemma {:induction false} DigitsAtLeast(n: nat, k: nat)
    requires n >= Power(Decimal, k)
    ensures |Digits(n, Decimal)| >= k + 1
  {
    if k > 0 {
      assert n / 10 >= Power(Decimal, k - 1);
      DigitsAtLeast(n / 10, k - 1);
    }
  }

  lemma {:induction false} EightFirst(n: nat)
    requires n >= 10_000_000
    ensures Eight(n) >= 10_000_000
    ensures |Digits(n, Decimal)| >= COUNT_WIDTH && Digits(n, Decimal)[..COUNT_WIDTH] == Digits(Eight(n), Decimal)
  {
    if n < 100_000_000 {
      EightDigits();
      DigitsLength(n, Decimal, 8);
      DigitsAtLeast(n, 7);
      assert Digits(n, Decimal)[..8] == Digits(n, Decimal);
    } else {
      EightFirst(n / 10);
      assert Digits(n, Decimal) == Digits(n / 10, Decimal) + [DIGITS[n % 10]];
    }
  }

  /** A count of nine digits and more is cut, and has the text of its first eight. */
  lemma CountTextCut(n: nat)
    ensures CountText(n) == CountText(Eight(n))
  {
    hide Digits;
    if n >= 100_000_000 {
      EightFirst(n);
      ShortText(Eight(n));
      assert Digits(Eight(n), Decimal) == Digits(n, Decimal)[..COUNT_WIDTH];
    }
  }

  /** So the text does not rise for ever: these two counts print alike. */
  lemma CountTextRepeats()
    ensures CountText(100_000_000) == CountText(10_000_000)
  {
    hide CountText;
    CountTextCut(100_000_000);
  }

  /** Read as the standard has it, the text of a count gives the count back exactly below 10. */
  lemma CountTextExactly(n: nat)
    ensures |CountText(n)| == COUNT_WIDTH && AllDigits(CountText(n), Hexadecimal)
    ensures Value(CountText(n), Hexadecimal) == ReadAsHex(Eight(n))
    ensures Value(CountText(n), Hexadecimal) == n <==> n < 10
  {
    hide Digits, Value, CountText;
    var m := Eight(n);
    CountTextCut(n);
    ShortText(m);
    DecimalReadAsHex(m);
    LeadingZeros(COUNT_WIDTH - |Digits(m, Decimal)|, Digits(m, Decimal));
    ZerosLength(COUNT_WIDTH - |Digits(m, Decimal)|);
    if n < 100_000_000 {
      ReadAsHexAbove(n);
    } else {
      CutDiffers(n);
    }
  }

  /** A count that is cut never reads back: with nine digits the text says more, with ten and more it says less. */
  lemma CutDiffers(n: nat)
    requires n >= 100_000_000
    ensures ReadAsHex(Eight(n)) != n
  {
    var m := Eight(n);
    EightFirst(n);
    if n < 1_000_000_000 {
      assert m == n / 10;
      NineDigits(m);
    } else {
      EightOfMore(n);
      assert Power16(7) == 268435456 by { assert Power16(3) == 4096; }
      assert Power10(7) == 10_000_000 by { assert Power10(3) == 1000; }
      assert Power10(8) == 100_000_000;
      ReadAsHexBelow(m, 7);
      assert ReadAsHex(m) * 10_000_000 <= m * 268435456;
      assert ReadAsHex(m) < 100 * m;
    }
  }

  lemma {:induction false} EightOfMore(n: nat)
    requires n >= 1_000_000_000
    ensures n >= 100 * Eight(n)
  {
    if n < 10_000_000_000 {
      assert Eight(n) == Eight(n / 10) == Eight(n / 10 / 10) == n / 10 / 10;
    } else {
      EightOfMore(n / 10);
    }
  }

  lemma NineDigits(m: nat)
    requires 10_000_000 <= m < 100_000_000
    ensures ReadAsHex(m) > 10 * m + 9
  {
    var q := m / 100_000;
    assert m / 10 / 10 / 10 / 10 / 10 == q;
    ReadAsHexAbove(q);
    assert ReadAsHex(m / 10 / 10 / 10 / 10) >= 16 * ReadAsHex(q);
    assert ReadAsHex(m / 10 / 10 / 10) >= 16 * ReadAsHex(m / 10 / 10 / 10 / 10);
    assert ReadAsHex(m / 10 / 10) >= 16 * ReadAsHex(m / 10 / 10 / 10);
    assert ReadAsHex(m / 10) >= 16 * ReadAsHex(m / 10 / 10);
    assert ReadAsHex(m) >= 16 * ReadAsHex(m / 10);
  }

  function Power10(k: nat): nat {
    if k == 0 then 1 else 10 * Power10(k - 1)
  }

  function Power16(k: nat): nat {
    if k == 0 then 1 else 16 * Power16(k - 1)
  }

  lemma {:induction false} ReadAsHexBelow(m: nat, k: nat)
    requires m < Power10(k + 1)
    ensures ReadAsHex(m) * Power10(k) <= m * Power16(k)
  {
    if m < 10 {
      PowerGrows(k);
      Scaled(m, Power10(k), Power16(k));
    } else {
      assert k > 0;
      ReadAsHexBelow(m / 10, k - 1);
      PowerGrows(k - 1);
      Regroup(ReadAsHex(m / 10), m / 10, m % 10, Power10(k - 1), Power16(k - 1));
    }
  }

  lemma Regroup(h: nat, q: nat, r: nat, a: nat, b: nat)
    requires h * a <= q * b && a <= b
    ensures (16 * h + r) * (10 * a) <= (10 * q + r) * (16 * b)
  {
    Scaled(r, a, b);
    assert (16 * h + r) * (10 * a) == 160 * (h * a) + 10 * (r * a);
    assert (10 * q + r) * (16 * b) == 160 * (q * b) + 16 * (r * b);
  }

  lemma Scaled(r: nat, a: nat, b: nat)
    requires a <= b
    ensures r * a <= r * b
  {
  }

  lemma {:induction false} PowerGrows(k: nat)
    ensures Power10(k) <= Power16(k)
  {
    if k > 0 {
      PowerGrows(k - 1);
    }
  }

  lemma EightDigits()
    ensures Power(Decimal, 8) == 100_000_000
  {
    assert Power(Decimal, 2) == 100 && Power(Decimal, 4) == 10_000 && Power(Decimal, 6) == 1_000_000;
  }

  lemma {:induction false} ZerosLength(k: nat)
    ensures |Zeros(k)| == k
  {
    if k > 0 {
      ZerosLength(k - 1);
    }
  }

  lemma {:induction false} ReadAsHexAbove(n: nat)
    ensures ReadAsHex(n) >= n && (ReadAsHex(n) == n <==> n < 10)
  {
    if n >= 10 {
      ReadAsHexAbove(n / 10);
    }
  }

  /** The number the other side reads still rises with the count, below 10^8, so it is not taken for a replay. */
  lemma CountTextRises(m: nat, n: nat)
    requires m < n < 100_000_000
    ensures AllDigits(CountText(m), Hexadecimal) && AllDigits(CountText(n), Hexadecimal)
    ensures Value(CountText(m), Hexadecimal) < Value(CountText(n), Hexadecimal)
  {
    hide CountText, Value, ReadAsHex;
    CountTextExactly(m);
    CountTextExactly(n);
    ReadAsHexRises(m, n);
  }

  lemma {:induction false} ReadAsHexRises(m: nat, n: nat)
    requires m < n
    ensures ReadAsHex(m) < ReadAsHex(n)
  {
    if m / 10 < n / 10 {
      if m >= 10 {
        ReadAsHexRises(m / 10, n / 10);
      } else {
        ReadAsHexAbove(n / 10);
      }
    }
  }
}