/**
 How a REX session answers: which steps accept a request, which refuse it, which end the
 session, and how connection attempts follow one another.
 */
module RexAnswers {
  import opened PowersOfTwo
  import opened RexSession
  import opened RexInvariants
  import RexTheorems

  // ----- What a step is expected to do, by what is known before it

  /** A connection attempt failed, and the proxy was not heard of meanwhile. */
  predicate Unreached(s: Session, a: Step) {
    a.Connected? && !a.ok && !(!a.force && s.sess && a.heard)
  }

  /** The session can go on after a failed attempt: it exists, a request waits for it, and it
      may resume. If clients were refused, that is for those left to say. */
  predicate Retries(s: Session) {
    && s.sess && Blocking(s.reqs, true) != []
    && if HasRex(Blocking(s.reqs, false)) || HasRex(Blocking(s.afreqs, false))
       then Rexes(Blocking(s.reqs, true), true) + Rexes(Blocking(s.afreqs, true), true) + |ResumableIds(s.book.answered)| > 0
       else s.resumable
  }

  /** The session ends by itself. */
  predicate Ends(s: Session, a: Step) {
    match a
    case Connected(_, _, _, _, _) => Unreached(s, a) && !Retries(s)
    case ConnectedCrypt(_, _, ok, _, _) => !ok
    case Spawned(ok) => !ok
    case Attached(ok, started) => !ok || (s.sess && !(s.resumable && started))
    case Resumed(ok) => !ok
    case Probed(ok) => !ok && !s.resumepending && !s.resumable
    case ProxyFail => !s.resumepending && !s.resumable
    case _ => false
  }

  /** The proxy is there. */
  predicate InTouch(s: Session, a: Step) {
    match a
    case Connected(force, heard, _, _, _) => !force && s.sess && heard
    case ConnectedCrypt(force, heard, ok, _, _) => ok && !force && s.sess && heard
    case Attached(ok, _) => ok && !s.sess
    case Resumed(ok) => ok
    case Probed(ok) => ok && !s.resumepending
    case _ => false
  }

  /** A request that need not wait: for the agent, a connection, or a sign of life. */
  predicate AtOnce(s: Session, a: Step) {
    match a
    case RexRequest(forward, block, _, heard) =>
      (forward ==> s.agentforwarded) && !s.Connecting() && (block ==> s.sess && heard)
    case Keepalive(heard) => !s.Connecting() && s.sess && heard
    case _ => false
  }

  /** A new connection is attached to. */
  predicate Attaches(s: Session, a: Step) {
    match a
    case Connected(_, _, ok, same, _) => ok && !InTouch(s, a) && !same && s.sess
    case ConnectedCrypt(_, _, ok, same, _) => ok && !InTouch(s, a) && !same && s.sess
    case Spawned(ok) => ok
    case _ => false
  }

  predicate Asks(a: Step) {
    a.RexRequest? || a.Keepalive?
  }

  function NewReq(s: Session, a: Step): Req
    requires Asks(a)
  {
    if a.RexRequest? then Req(s.book.taken, true, a.res, a.block) else Req(s.book.taken, false, false, true)
  }

  /** The requests a step accepts, in order ... */
  function Accepts(s: Session, a: Step): seq<Req> {
    if InTouch(s, a) then s.reqs
    else if a.AfInitDone? then s.afreqs
    else if AtOnce(s, a) then [NewReq(s, a)]
    else []
  }

  /** ... and those it refuses: all of them if the session ends, or those that do not wait. */
  function Refuses(s: Session, a: Step): seq<Req> {
    if Unreached(s, a) then
      var hasty := Blocking(s.reqs, false) + Blocking(s.afreqs, false);
      if Retries(s) then hasty else hasty + Blocking(s.reqs, true) + Blocking(s.afreqs, true)
    else if Ends(s, a) then s.reqs + s.afreqs
    else []
  }

  // ----- What answering does to the books

  function IdsOf(q: seq<Req>): seq<nat> {
    seq(|q|, i requires 0 <= i < |q| => q[i].id)
  }

  /** The clients of a queue get the next sequence numbers, in order. */
  function Grants(q: seq<Req>, n: nat): seq<Grant> {
    if q == [] then []
    else if q[0].rex then [ToClient(n, q[0].id)] + Grants(q[1..], n + 1)
    else Grants(q[1..], n)
  }

  /** Book `t` is `b` after `acc` were accepted and `ref` refused. */
  ghost predicate Answered(b: Book, t: Book, acc: seq<Req>, ref: seq<Req>) {
    && t.done == b.done + IdsOf(acc) + IdsOf(ref)
    && t.refused == b.refused + IdsOf(ref)
    && t.issued == b.issued + Grants(acc, b.seqno)
    && (forall r :: r in acc && r.rex ==> r.id in t.answered)
  }

  lemma {:induction false} FinishEffect(b: Book, q: seq<Req>, error: bool)
    ensures var t := b.FinishAll(q, error);
      && t.done == b.done + IdsOf(q) && t.refused == b.refused + (if error then IdsOf(q) else [])
      && t.issued == b.issued + (if error then [] else Grants(q, b.seqno))
      && (forall id :: id in b.answered ==> id in t.answered)
      && (!error ==> forall r :: r in q && r.rex ==> r.id in t.answered)
    decreases |q|
  {
    if q == [] {
      assert IdsOf(q) == [];
    } else {
      var c := b.Finish(q[0], error);
      FinishEffect(c, q[1..], error);
      assert IdsOf(q) == [q[0].id] + IdsOf(q[1..]);
      assert b.done + IdsOf(q) == (b.done + [q[0].id]) + IdsOf(q[1..]);
      assert error ==> b.refused + IdsOf(q) == (b.refused + [q[0].id]) + IdsOf(q[1..]);
      assert forall r :: r in q <==> r == q[0] || r in q[1..];
    }
  }

  lemma AcceptedAll(b: Book, q: seq<Req>)
    ensures Answered(b, b.FinishAll(q, false), q, [])
  {
    FinishEffect(b, q, false);
    assert IdsOf([]) == [];
  }

  lemma IdsJoin(p: seq<Req>, q: seq<Req>)
    ensures IdsOf(p + q) == IdsOf(p) + IdsOf(q)
  {
  }

  lemma NoIds()
    ensures IdsOf([]) == []
  {
  }

  lemma RefusedBoth(b: Book, p: seq<Req>, q: seq<Req>)
    ensures Answered(b, b.FinishAll(p, true).FinishAll(q, true), [], p + q)
  {
    FinishEffect(b, p, true);
    FinishEffect(b.FinishAll(p, true), q, true);
    hide Book.FinishAll, IdsOf;
    IdsJoin(p, q);
    NoIds();
    var c := b.FinishAll(p, true);
    assert c.done + IdsOf(q) == b.done + [] + IdsOf(p + q);
    assert c.refused + IdsOf(q) == b.refused + IdsOf(p + q);
  }

  lemma AnsweredNone(b: Book)
    ensures Answered(b, b, [], [])
  {
    assert IdsOf([]) == [];
  }

  lemma RefusedThen(b: Book, t: Book, u: Book, p: seq<Req>, q: seq<Req>)
    requires Answered(b, t, [], p) && Answered(t, u, [], q)
    ensures Answered(b, u, [], p + q)
  {
    IdsJoin(p, q);
  }

  // ----- A failed attempt

  /** Refusing requests of no client leaves the resumable ones as they are. */
  lemma {:induction false} NoRexRefused(b: Book, q: seq<Req>)
    requires !HasRex(q)
    ensures b.FinishAll(q, true).resumableClients == b.resumableClients
    decreases |q|
  {
    if q != [] {
      assert !q[0].rex;
      assert forall i :: 0 <= i < |q[1..]| ==> q[1..][i] == q[i + 1];
      NoRexRefused(b.Finish(q[0], true), q[1..]);
    }
  }

  lemma BadConnectFlag(s: Session)
    requires Books(s.book, s.reqs, s.afreqs) && s.sess && !s.Connecting()
    ensures (s.AlertBadConnect().resumable && Blocking(s.reqs, true) != []) <==> Retries(s)
  {
    BadConnectBooks(s);
    hide Books, Blocking, Rexes;
    var p, q := Blocking(s.reqs, false), Blocking(s.afreqs, false);
    var t := s.AlertBadConnect();
    LeftOver(t.book, t.reqs, t.afreqs);
    if !HasRex(q) {
      NoRexRefused(s.book.FinishAll(p, true), q);
    }
  }

  lemma LeftOver(b: Book, p: seq<Req>, q: seq<Req>)
    requires Books(b, p, q)
    ensures b.resumableClients == Rexes(p, true) + Rexes(q, true) + |ResumableIds(b.answered)|
  {
  }

  lemma BadConnectAnswers(s: Session)
    ensures var t := s.AlertBadConnect();
      && Answered(s.book, t.book, [], Blocking(s.reqs, false) + Blocking(s.afreqs, false))
      && t.reqs == Blocking(s.reqs, true) && t.afreqs == Blocking(s.afreqs, true)
      && t.live == s.live && t.sess == s.sess
  {
    RefusedBoth(s.book, Blocking(s.reqs, false), Blocking(s.afreqs, false));
  }

  lemma FailAnswers(s: Session)
    ensures Answered(s.book, s.Fail().book, [], s.reqs + s.afreqs) && !s.Fail().live
    ensures s.Fail().reqs == s.Fail().afreqs == []
  {
    RefusedBoth(s.book, s.reqs, s.afreqs);
  }

  // ----- Every step

  predicate ForAgent(s: Session, a: Step) {
    a.RexRequest? && a.forward && !s.agentforwarded
  }

  /** The requests that wait after a step for the proxy ... */
  function Waits(s: Session, a: Step): seq<Req> {
    if Ends(s, a) || InTouch(s, a) then []
    else if Unreached(s, a) then Blocking(s.reqs, true)
    else if Asks(a) && !AtOnce(s, a) && !ForAgent(s, a) then s.reqs + [NewReq(s, a)]
    else s.reqs
  }

  /** ... and for the agent to be forwarded. */
  function AgentWaits(s: Session, a: Step): seq<Req> {
    if Ends(s, a) || a.AfInitDone? then []
    else if Unreached(s, a) then Blocking(s.afreqs, true)
    else if ForAgent(s, a) then s.afreqs + [NewReq(s, a)]
    else s.afreqs
  }

  /** Step `a` from `s` to `t` ends the session, accepts, refuses and keeps waiting exactly as
      expected. */
  ghost predicate AsExpected(s: Session, a: Step, t: Session) {
    && (t.live <==> !Ends(s, a) && !a.Reaped? && !a.Killed?)
    && Answered(if Attaches(s, a) then s.book.Issue(ToAttach(s.book.seqno)) else s.book, t.book, Accepts(s, a), Refuses(s, a))
    && t.reqs == Waits(s, a) && t.afreqs == AgentWaits(s, a)
  }

  /** Back in touch, only the books and the agent's channel change. */
  lemma ActiveIs(s: Session)
    ensures s.AlertActive() == s.(book := s.book.FinishAll(s.reqs, false), reqs := [],
                                  afpending := s.afpending || (s.afreqs != [] && !s.agentforwarded))
  {
    var t := s.(reqs := []).FinishAll(s.reqs, false);
    if t.afreqs != [] && !t.agentforwarded && !t.afpending {
      assert s.AlertActive() == t.AfInit();
    } else {
      assert s.AlertActive() == t;
    }
  }

  lemma ActiveAnswers(s: Session)
    ensures var t := s.AlertActive();
      Answered(s.book, t.book, s.reqs, []) && t.reqs == [] && t.afreqs == s.afreqs && t.live == s.live
  {
    hide Answered, Book.FinishAll, Session.AlertActive;
    ActiveIs(s);
    AcceptedAll(s.book, s.reqs);
  }

  /** What a failed attempt leads to. */
  lemma UnreachedIs(s: Session, a: Step, u: Session)
    requires Inv(s) && Enabled(s, a) && Unreached(s, a) && u == s.(rcpending := false, conpending := false).AlertBadConnect()
    ensures Next(s, a) == if Retries(s) then u.Backoff() else u.Fail()
  {
    hide Books, Blocking, Rexes, Session.AlertBadConnect, Session.Fail, Session.Backoff;
    var t := s.(rcpending := false, conpending := false);
    BadConnectAnswers(t);
    if s.sess {
      BadConnectFlag(t);
    }
  }

  lemma UnreachedExpected(s: Session, a: Step)
    requires Inv(s) && Enabled(s, a) && Unreached(s, a)
    ensures AsExpected(s, a, Next(s, a))
  {
    hide Inv, Next, Retries, Blocking, Answered, Session.AlertBadConnect, Session.Fail;
    var t := s.(rcpending := false, conpending := false);
    var u := t.AlertBadConnect();
    UnreachedIs(s, a, u);
    BadConnectAnswers(t);
    if !Retries(s) {
      FailAnswers(u);
      var hasty := Blocking(s.reqs, false) + Blocking(s.afreqs, false);
      RefusedThen(s.book, u.book, u.Fail().book, hasty, u.reqs + u.afreqs);
      assert hasty + (u.reqs + u.afreqs) == hasty + u.reqs + u.afreqs;
    }
  }

  /** The session goes on from `u`, with nothing answered, or with all that waits for the proxy. */
  lemma NothingAnswered(s: Session, a: Step, t: Session)
    requires t.live && t.book == s.book && t.reqs == s.reqs && t.afreqs == s.afreqs
    requires !Ends(s, a) && !InTouch(s, a) && !Unreached(s, a) && !Asks(a) && !Attaches(s, a)
    requires !a.Reaped? && !a.Killed? && !a.AfInitDone?
    ensures AsExpected(s, a, t)
  {
    AnsweredNone(s.book);
  }

  lemma AttachExpected(s: Session, a: Step, t: Session)
    requires t.live && t.book == s.book && t.reqs == s.reqs && t.afreqs == s.afreqs && Attaches(s, a)
    ensures AsExpected(s, a, t.Attach())
  {
    AnsweredNone(t.Attach().book);
  }

  lemma EndExpected(s: Session, a: Step, t: Session)
    requires t.book == s.book && t.reqs == s.reqs && t.afreqs == s.afreqs && Ends(s, a) && !Unreached(s, a)
    ensures AsExpected(s, a, t.Fail())
  {
    hide Answered, Session.Fail;
    FailAnswers(t);
  }

  lemma TouchExpected(s: Session, a: Step, t: Session)
    requires t.live && t.book == s.book && t.reqs == s.reqs && t.afreqs == s.afreqs && InTouch(s, a)
    ensures AsExpected(s, a, t.AlertActive())
  {
    hide Answered, Session.AlertActive;
    ActiveAnswers(t);
  }

  /** The outcomes of a connection attempt: the proxy was heard of, ... */
  lemma ConnectedHeard(s: Session, force: bool, heard: bool, ok: bool, same: bool, secure: bool)
    requires !force && s.sess && heard
    ensures s.Connected(force, heard, ok, same, secure) == s.(rcpending := false, conpending := false).AlertActive()
  {
    hide Session.AlertActive, Session.AlertBadConnect, Session.Fail;
  }

  /** ... or the connection is the one in use, ... */
  lemma ConnectedSame(s: Session, force: bool, heard: bool, secure: bool)
    requires !(!force && s.sess && heard)
    ensures s.Connected(force, heard, true, true, secure) == s.(rcpending := false, conpending := false).Backoff()
  {
    hide Session.AlertActive, Session.AlertBadConnect, Session.Fail, Session.Backoff;
  }

  /** ... or it is new, and the session attaches to it, ... */
  lemma ConnectedOld(s: Session, force: bool, heard: bool, secure: bool)
    requires !(!force && s.sess && heard) && s.sess
    ensures s.Connected(force, heard, true, false, secure) == s.(rcpending := false, conpending := false, sessconn := true).Attach()
  {
    hide Session.AlertActive, Session.AlertBadConnect, Session.Fail, Session.Attach;
  }

  /** ... or it is made secure, or a proxy is spawned on it. */
  lemma ConnectedNew(s: Session, force: bool, heard: bool, secure: bool)
    requires !s.sess
    ensures var u := s.(rcpending := false, conpending := false, sessconn := true);
      s.Connected(force, heard, true, false, secure) == if secure then u.(cbase := SpawnCall) else u.(conpending := true)
  {
    hide Session.AlertActive, Session.AlertBadConnect, Session.Fail;
  }

  /** There is a connection, or the proxy was heard of. */
  lemma ConnectedExpected(s: Session, a: Step, t: Session)
    requires s.live && ((a.Connected? && !Unreached(s, a)) || (a.ConnectedCrypt? && a.ok))
    requires t == s.Connected(a.force, a.heard, a.ok, a.same, a.secure)
    ensures AsExpected(s, a, t)
  {
    hide AsExpected, Session.Connected, Session.AlertActive, Session.Attach, Session.Backoff;
    var u := s.(rcpending := false, conpending := false);
    if !a.force && s.sess && a.heard {
      ConnectedHeard(s, a.force, a.heard, a.ok, a.same, a.secure);
      TouchExpected(s, a, u);
    } else if !a.same && s.sess {
      ConnectedOld(s, a.force, a.heard, a.secure);
      AttachExpected(s, a, u.(sessconn := true));
    } else {
      DialsOn(s, a, t);
    }
  }

  lemma DialsOn(s: Session, a: Step, t: Session)
    requires s.live && (a.Connected? || a.ConnectedCrypt?) && a.ok && !(!a.force && s.sess && a.heard) && (a.same || !s.sess)
    requires t == s.Connected(a.force, a.heard, a.ok, a.same, a.secure)
    ensures AsExpected(s, a, t)
  {
    hide AsExpected, Session.Connected, Session.Backoff;
    if a.same {
      ConnectedSame(s, a.force, a.heard, a.secure);
      BackoffSame(s.(rcpending := false, conpending := false));
    } else {
      ConnectedNew(s, a.force, a.heard, a.secure);
    }
    NothingAnswered(s, a, t);
  }

  lemma BackoffSame(s: Session)
    ensures s.Backoff() == s.(backoffcb := true, retryDelay := NextDelay(s.retryDelay))
  {
  }

  lemma SpawnedExpected(s: Session, ok: bool)
    requires s.live
    ensures AsExpected(s, Spawned(ok), s.Spawned(ok))
  {
    hide AsExpected, Session.Fail, Session.Attach;
    var t := s.(cbase := NoCall);
    if ok {
      AttachExpected(s, Spawned(ok), t);
    } else {
      EndExpected(s, Spawned(ok), t);
    }
  }

  lemma AttachedExpected(s: Session, ok: bool, started: bool)
    requires s.live
    ensures AsExpected(s, Attached(ok, started), s.Attached(ok, started))
  {
    hide AsExpected, Session.Fail, Session.AlertActive;
    var t := s.(cbase := NoCall);
    if !ok {
      EndExpected(s, Attached(ok, started), t);
    } else if !s.sess {
      TouchExpected(s, Attached(ok, started), t.(sess := true, resumable := s.book.resumableClients > 0));
    } else if s.resumable && started {
      NothingAnswered(s, Attached(ok, started), s.Attached(ok, started));
    } else {
      EndExpected(s, Attached(ok, started), t.(probecall := false, resumepending := false));
    }
  }

  lemma ResumedExpected(s: Session, ok: bool)
    requires s.live
    ensures AsExpected(s, Resumed(ok), s.ResumeDone(ok))
  {
    hide AsExpected, Session.Fail, Session.AlertActive;
    var t := s.(resumepending := false);
    if ok {
      TouchExpected(s, Resumed(ok), t);
    } else {
      EndExpected(s, Resumed(ok), t);
    }
  }

  /** The proxy is lost, as the transport or a probe reports. */
  lemma LostExpected(s: Session, a: Step, t: Session)
    requires s.live && (a == ProxyFail || a == Probed(false))
    requires t == s.(probecall := t.probecall)
    ensures AsExpected(s, a, t.ProxyFail())
  {
    hide AsExpected, Session.Fail;
    if Ends(s, a) {
      EndExpected(s, a, t);
    } else {
      NothingAnswered(s, a, t.ProxyFail());
    }
  }

  lemma ProbedExpected(s: Session, ok: bool)
    requires s.live
    ensures AsExpected(s, Probed(ok), s.Probed(ok))
  {
    hide AsExpected, Session.ProxyFail, Session.AlertActive;
    var t := s.(probecall := false);
    if !ok {
      LostExpected(s, Probed(ok), t);
    } else if s.resumepending {
      NothingAnswered(s, Probed(ok), t);
    } else {
      TouchExpected(s, Probed(ok), t.Cancelled());
    }
  }

  /** A request is taken: it waits for the agent, ... */
  lemma TakeAgent(s: Session, r: Req, heard: bool)
    requires !s.agentforwarded
    ensures s.TakeRequest(r, true, heard) ==
            s.(book := s.book.Noted(), afreqs := s.afreqs + [r], afpending := s.afpending || !s.Connecting())
  {
    hide Session.FinishAll, Book.FinishAll;
    if !s.afpending && !s.Connecting() {
      assert s.TakeRequest(r, true, heard).afpending;
    }
  }

  /** ... or for the proxy, with a probe if no connection attempt is under way, ... */
  lemma TakeLater(s: Session, r: Req, forward: bool, heard: bool)
    requires (forward ==> s.agentforwarded) && (s.Connecting() || (r.block && !(s.sess && heard)))
    ensures s.TakeRequest(r, forward, heard) ==
            s.(book := s.book.Noted(), reqs := s.reqs + [r], probecall := s.probecall || !s.Connecting())
  {
    hide Session.Connecting;
    if s.Connecting() {
      assert s.TakeRequest(r, forward, heard).reqs == s.reqs + [r];
    }
  }

  /** ... or is answered at once. */
  lemma TakeNow(s: Session, r: Req, forward: bool, heard: bool)
    requires (forward ==> s.agentforwarded) && !s.Connecting() && (r.block ==> s.sess && heard)
    ensures s.TakeRequest(r, forward, heard) == s.(book := s.book.Noted().FinishAll([r], false))
  {
    hide Session.Connecting, Book.FinishAll, HasRex;
  }

  /** What a session becomes when it takes a request: `agent` if it waits for the agent, `now` if it
      is answered at once. */
  function Took(s: Session, r: Req, agent: bool, now: bool): Session {
    s.(book := if now then s.book.Noted().FinishAll([r], false) else s.book.Noted(),
       reqs := if now || agent then s.reqs else s.reqs + [r],
       afreqs := if agent then s.afreqs + [r] else s.afreqs,
       afpending := s.afpending || (agent && !s.Connecting()),
       probecall := s.probecall || (!agent && !now && !s.Connecting()))
  }

  lemma TakeIs(s: Session, r: Req, forward: bool, heard: bool, agent: bool, now: bool)
    requires agent == (forward && !s.agentforwarded)
    requires now == (!agent && !s.Connecting() && (r.block ==> s.sess && heard))
    ensures s.TakeRequest(r, forward, heard) == Took(s, r, agent, now)
  {
    hide Session.TakeRequest, Session.Connecting, Book.FinishAll;
    if agent {
      TakeAgent(s, r, heard);
    } else if now {
      TakeNow(s, r, forward, heard);
    } else {
      TakeLater(s, r, forward, heard);
    }
  }

  lemma RexAsked(s: Session, a: Step)
    requires s.live && a.RexRequest?
    ensures AsExpected(s, a, s.RexRequest(a.forward, a.block, a.res, a.heard))
  {
    hide Session.TakeRequest, Book.FinishAll, AsExpected, Session.Joined, Took;
    var r, u := NewReq(s, a), s.Joined(a.res);
    JoinedSame(s, r);
    TakeIs(u, r, a.forward, a.heard, ForAgent(s, a), AtOnce(s, a));
    TookAnswers(s, a, u);
  }

  lemma HurriedSame(s: Session, r: Req)
    requires !r.rex && r.id == s.book.taken
    ensures var u := s.(retryDelay := 0);
      u.Connecting() == s.Connecting() && u.book.Noted() == Entered(s.book, r) && u.live == s.live
  {
  }

  lemma KeepaliveAsked(s: Session, a: Step)
    requires s.live && a.Keepalive?
    ensures AsExpected(s, a, s.Keepalive(a.heard))
  {
    hide Session.TakeRequest, Book.FinishAll, AsExpected, Took, Session.Connecting, Book.Noted, Entered;
    var r, u := NewReq(s, a), s.(retryDelay := 0);
    HurriedSame(s, r);
    TakeIs(u, r, false, a.heard, false, AtOnce(s, a));
    TookAnswers(s, a, u);
  }

  lemma TookAnswers(s: Session, a: Step, u: Session)
    requires Asks(a) && u.live && u.book.Noted() == Entered(s.book, NewReq(s, a))
    requires u.reqs == s.reqs && u.afreqs == s.afreqs
    ensures AsExpected(s, a, Took(u, NewReq(s, a), ForAgent(s, a), AtOnce(s, a)))
  {
    hide AsExpected, Book.FinishAll, Book.Noted, Session.Connecting;
    AskedAnswers(s, a, Took(u, NewReq(s, a), ForAgent(s, a), AtOnce(s, a)), Entered(s.book, NewReq(s, a)));
  }

  lemma AskedAnswers(s: Session, a: Step, t: Session, b: Book)
    requires Asks(a) && b == Entered(s.book, NewReq(s, a)) && t.live
    requires t.book == if AtOnce(s, a) then b.FinishAll([NewReq(s, a)], false) else b
    requires t.reqs == Waits(s, a) && t.afreqs == AgentWaits(s, a)
    ensures AsExpected(s, a, t)
  {
    var r := NewReq(s, a);
    if AtOnce(s, a) {
      AcceptedAll(b, [r]);
      SameAnswers(s.book, b, t.book, [r]);
    } else {
      SameAnswers(s.book, b, t.book, []);
    }
  }

  /** Taking a request changes nothing that its answer is told by. */
  lemma SameAnswers(b: Book, c: Book, t: Book, acc: seq<Req>)
    requires b.done == c.done && b.refused == c.refused && b.issued == c.issued && b.seqno == c.seqno
    ensures Answered(c, t, acc, []) ==> Answered(b, t, acc, [])
    ensures acc == [] && t == c ==> Answered(b, t, acc, [])
  {
    assert IdsOf([]) == [];
  }

  lemma AgentExpected(s: Session, ok: bool)
    requires s.live
    ensures AsExpected(s, AfInitDone(ok), s.AfInitDone(ok))
  {
    hide Answered;
    AcceptedAll(s.book, s.afreqs);
  }

  lemma DiedExpected(s: Session, id: nat)
    requires s.live && id in s.book.answered
    ensures AsExpected(s, ClientDied(id), s.ClientDied(id))
  {
    hide Answered;
    var t := s.ClientDied(id);
    SameAnswers(s.book, t.book, t.book, []);
  }

  lemma PutAway(s: Session, a: Step, t: Session)
    requires (a.Reaped? || a.Killed?) && !t.live && t.book == s.book && t.reqs == s.reqs && t.afreqs == s.afreqs
    ensures AsExpected(s, a, t)
  {
    hide Answered;
    AnsweredNone(s.book);
  }

  /** The session goes on dialing, or is put away with what waits. */
  lemma OtherExpected(s: Session, a: Step)
    requires Enabled(s, a)
    requires a.BackoffFires? || a.ProbeTimeout? || a.ProxyTimeout? || a.Reaped? || a.Killed?
    ensures AsExpected(s, a, Next(s, a))
  {
    hide AsExpected;
    if a.Reaped? || a.Killed? {
      PutAway(s, a, Next(s, a));
    } else if a.BackoffFires? {
      NothingAnswered(s, a, s.ConnectInner());
    } else if a.ProbeTimeout? {
      NothingAnswered(s, a, s.ProbeTimeout());
    } else {
      NothingAnswered(s, a, s.ProxyTimeout());
    }
  }

  /** Every step ends the session, accepts, refuses and keeps waiting exactly as expected. */
  lemma StepExpected(s: Session, a: Step)
    requires Inv(s) && Enabled(s, a)
    ensures AsExpected(s, a, Next(s, a))
  {
    hide Inv, AsExpected, Session.Connected, Session.Fail, Session.Spawned, Session.Attached, Session.ResumeDone, Session.Probed,
      Session.ProxyFail, Session.RexRequest, Session.Keepalive, Session.AfInitDone, Session.ClientDied;
    if Unreached(s, a) {
      UnreachedExpected(s, a);
    } else if a.Connected? || (a.ConnectedCrypt? && a.ok) {
      ConnectedExpected(s, a, Next(s, a));
    } else if a.ConnectedCrypt? {
      EndExpected(s, a, s);
    } else {
      match a
      case Spawned(ok) => SpawnedExpected(s, ok);
      case Attached(ok, started) => AttachedExpected(s, ok, started);
      case Resumed(ok) => ResumedExpected(s, ok);
      case Probed(ok) => ProbedExpected(s, ok);
      case ProxyFail => LostExpected(s, a, s);
      case RexRequest(_, _, _, _) => RexAsked(s, a);
      case Keepalive(_) => KeepaliveAsked(s, a);
      case AfInitDone(ok) => AgentExpected(s, ok);
      case ClientDied(id) => DiedExpected(s, id);
      case _ => OtherExpected(s, a);
    }
  }

  // ----- Connection attempts

  datatype Phase = Quiet | BackingOff | Dialing | Spawning | Attaching | Resuming

  function PhaseOf(s: Session): Phase {
    if s.backoffcb then BackingOff
    else if s.conpending || s.rcpending then Dialing
    else if s.cbase == SpawnCall then Spawning
    else if s.cbase == AttachCall then Attaching
    else if s.resumepending then Resuming
    else Quiet
  }

  /** What follows once there is a connection. */
  function AfterDialing(s: Session, same: bool, secure: bool): Phase {
    if same then BackingOff else if s.sess then Attaching else if secure then Spawning else Dialing
  }

  /** The next phase of a session that does not end. */
  function Leads(s: Session, a: Step): Phase {
    if InTouch(s, a) then Quiet
    else
      match a
      case BackoffFires => Dialing
      case Connected(_, _, ok, same, secure) => if ok then AfterDialing(s, same, secure) else BackingOff
      case ConnectedCrypt(_, _, _, same, secure) => AfterDialing(s, same, secure)
      case Spawned(_) => Attaching
      case Attached(_, _) => Resuming
      case ProbeTimeout => if PhaseOf(s).Quiet? then Dialing else PhaseOf(s)
      case ProxyTimeout => if PhaseOf(s).Quiet? && s.resumable then Dialing else PhaseOf(s)
      case ProxyFail => if s.resumepending then Resuming else Dialing
      case Probed(_) => if s.resumepending then Resuming else Dialing
      case _ => PhaseOf(s)
  }

  /** A session that exists is reconnected, any other is connected. */
  predicate DialsRight(s: Session) {
    (s.rcpending ==> s.sess) && (s.conpending ==> !s.sess)
  }

  /** There is a connection: the next phase is as it should be. */
  lemma DialedPhase(s: Session, a: Step, t: Session)
    requires Linked(s) && (a.Connected? || a.ConnectedCrypt?) && a.ok && !(!a.force && s.sess && a.heard)
    requires (s.conpending || s.rcpending) && t == s.Connected(a.force, a.heard, a.ok, a.same, a.secure)
    ensures PhaseOf(t) == AfterDialing(s, a.same, a.secure)
  {
    hide Session.Connected;
    if a.same {
      ConnectedSame(s, a.force, a.heard, a.secure);
    } else if s.sess {
      ConnectedOld(s, a.force, a.heard, a.secure);
    } else {
      ConnectedNew(s, a.force, a.heard, a.secure);
    }
  }

  lemma HeardPhase(s: Session, u: Session)
    requires Linked(s) && (s.conpending || s.rcpending) && u == s.(rcpending := false, conpending := false)
    ensures PhaseOf(u.AlertActive()) == Quiet
  {
    hide Session.AlertActive, Book.FinishAll;
    ActiveIs(u);
  }

  lemma ConnectedPhase(s: Session, a: Step, t: Session)
    requires Linked(s) && (a.Connected? || (a.ConnectedCrypt? && a.ok)) && (s.conpending || s.rcpending)
    requires t == s.Connected(a.force, a.heard, a.ok, a.same, a.secure) && t.live
    ensures PhaseOf(t) == Leads(s, a)
  {
    hide Linked, Session.Connected, Session.AlertActive, PhaseOf, AfterDialing;
    if !a.force && s.sess && a.heard {
      ConnectedHeard(s, a.force, a.heard, a.ok, a.same, a.secure);
      HeardPhase(s, s.(rcpending := false, conpending := false));
    } else if !a.ok {
      UnreachedPhase(s, a, t);
    } else {
      DialedPhase(s, a, t);
    }
  }

  lemma UnreachedPhase(s: Session, a: Step, t: Session)
    requires a.Connected? && Unreached(s, a) && t == s.Connected(a.force, a.heard, a.ok, a.same, a.secure) && t.live
    ensures PhaseOf(t) == BackingOff
  {
    hide Session.AlertBadConnect, Session.AlertActive, Session.AlertFail;
  }

  lemma SpawnedPhase(s: Session, ok: bool)
    requires Linked(s) && s.cbase == SpawnCall && s.Spawned(ok).live
    ensures PhaseOf(s.Spawned(ok)) == Attaching
  {
  }

  lemma AttachedPhase(s: Session, ok: bool, started: bool)
    requires Linked(s) && s.cbase == AttachCall && s.Attached(ok, started).live
    ensures PhaseOf(s.Attached(ok, started)) == Leads(s, Attached(ok, started))
  {
    hide Session.AlertActive, Book.FinishAll;
    if ok && !s.sess {
      ActiveIs(s.(cbase := NoCall, sess := true, resumable := s.book.resumableClients > 0));
    }
  }

  lemma ResumedPhase(s: Session, ok: bool)
    requires Linked(s) && s.resumepending && s.ResumeDone(ok).live
    ensures PhaseOf(s.ResumeDone(ok)) == Quiet
  {
    hide Session.AlertActive, Book.FinishAll;
    ActiveIs(s.(resumepending := false));
  }

  lemma ProbedPhase(s: Session, a: Step)
    requires Inv(s) && Enabled(s, a) && (a.Probed? || a.ProxyFail?) && Next(s, a).live
    ensures PhaseOf(Next(s, a)) == Leads(s, a)
  {
    hide Books, Session.AlertActive, Session.Fail;
    FailAnswers(s);
    if a.Probed? {
      FailAnswers(s.(probecall := false));
      ActiveIs(s.(probecall := false).Cancelled());
    }
  }

  /** Taking a request starts no connection attempt and stops none. */
  lemma AskedPhase(s: Session, a: Step)
    requires Enabled(s, a) && Asks(a)
    ensures PhaseOf(Next(s, a)) == PhaseOf(s)
  {
    hide Session.TakeRequest, Session.Joined, Book.FinishAll, Took;
    if a.RexRequest? {
      JoinedSame(s, NewReq(s, a));
      TakeIs(s.Joined(a.res), NewReq(s, a), a.forward, a.heard, ForAgent(s, a), AtOnce(s, a));
      TookPhase(s.Joined(a.res), NewReq(s, a), ForAgent(s, a), AtOnce(s, a));
    } else {
      TakeIs(s.(retryDelay := 0), NewReq(s, a), false, a.heard, false, AtOnce(s, a));
      TookPhase(s.(retryDelay := 0), NewReq(s, a), false, AtOnce(s, a));
    }
  }

  lemma TookPhase(s: Session, r: Req, agent: bool, now: bool)
    ensures PhaseOf(Took(s, r, agent, now)) == PhaseOf(s)
  {
    hide Session.Connecting, Book.FinishAll;
  }

  lemma OtherPhase(s: Session, a: Step)
    requires Linked(s) && Enabled(s, a)
    requires a.BackoffFires? || a.ProbeTimeout? || a.ProxyTimeout? || a.AfInitDone? || a.ClientDied?
    ensures PhaseOf(Next(s, a)) == Leads(s, a)
  {
    hide Book.FinishAll;
  }

  lemma InvLinked(s: Session)
    requires Inv(s)
    ensures s.live ==> Linked(s) && DialsRight(s)
  {
  }

  lemma PassivePhase(s: Session, a: Step)
    requires Linked(s) && Enabled(s, a) && Next(s, a).live
    requires !a.Connected? && !a.ConnectedCrypt? && !a.Probed? && !a.ProxyFail?
    ensures PhaseOf(Next(s, a)) == Leads(s, a)
  {
    hide Linked, PhaseOf, Leads, Session.ConnectInner, Session.ProbeTimeout, Session.ProxyTimeout, Session.Spawned, Session.Attached,
      Session.ResumeDone, Session.RexRequest, Session.Keepalive, Session.AfInitDone, Session.ClientDied;
    LeadsOn(s, a);
    match a
    case RexRequest(_, _, _, _) => AskedPhase(s, a);
    case Keepalive(_) => AskedPhase(s, a);
    case Spawned(ok) => SpawnedPhase(s, ok);
    case Attached(ok, started) => AttachedPhase(s, ok, started);
    case Resumed(ok) =>
      ResumedEnds(s);
      ResumedPhase(s, ok);
    case _ => OtherPhase(s, a);
  }

  /** Connection attempts follow one another as they should. */
  lemma StepPhase(s: Session, a: Step)
    requires Inv(s) && Enabled(s, a) && Next(s, a).live
    ensures PhaseOf(Next(s, a)) == Leads(s, a) && DialsRight(Next(s, a))
  {
    hide Inv, Linked, PhaseOf, Leads, DialsRight, Session.Connected, Session.Fail;
    StepInv(s, a);
    InvLinked(s);
    InvLinked(Next(s, a));
    if a.Connected? || a.ConnectedCrypt? {
      FailAnswers(s);
      ConnectedPhase(s, a, Next(s, a));
    } else {
      hide Next;
      if a.Probed? || a.ProxyFail? {
        ProbedPhase(s, a);
      } else {
        PassivePhase(s, a);
      }
    }
  }

  lemma ResumedEnds(s: Session)
    ensures !s.ResumeDone(false).live
  {
  }

  lemma LeadsOn(s: Session, a: Step)
    ensures Asks(a) ==> Leads(s, a) == PhaseOf(s)
    ensures a.Spawned? ==> Leads(s, a) == Attaching
    ensures a.Resumed? && a.ok ==> Leads(s, a) == Quiet
  {
  }

  /** The waiting time after `n` more failures. */
  function Delays(d: nat, n: nat): nat {
    if n == 0 then d else NextDelay(Delays(d, n - 1))
  }

  /** Waiting times double from 15 seconds up to an hour. */
  lemma {:induction false} DelaysDouble(n: nat)
    ensures Delays(15, n) == if 15 * Pow2(n) < 3600 then 15 * Pow2(n) else 3600
    ensures Delays(0, n + 1) == Delays(15, n)
  {
    if n != 0 {
      DelaysDouble(n - 1);
    } else {
      assert Delays(0, 1) == NextDelay(Delays(0, 0));
    }
  }

  // ----- The other fields

  /** The reaper is armed when the last client dies, and disarmed by the next one; the session may
      resume if it has clients that can, as of the last time anyone looked; a probe goes out for the
      first request that waits for a sign of life. */
  ghost predicate FieldsExpected(s: Session, a: Step, t: Session) {
    && t.reaper == (if a.RexRequest? then false else s.reaper || (a.ClientDied? && t.book.clients == 0))
    && t.resumable == (if a.ClientDied? || (a.RexRequest? && !s.Connecting()) || (a.Attached? && !s.sess)
                          || (Unreached(s, a) && HasRex(Refuses(s, a)))
                       then t.book.resumableClients > 0 else s.resumable)
    && t.sess == (s.sess || a.Attached?)
    && t.agentforwarded == (if a.AfInitDone? then a.ok else s.agentforwarded)
    && t.probecall == (if Asks(a) && !AtOnce(s, a) && !ForAgent(s, a) && !s.Connecting() then true
                       else s.probecall && !a.Probed? && !(a.ProxyFail? && !s.resumepending) && !(a.Attached? && s.sess))
  }

  /** Accepting changes no count. */
  lemma {:induction false} AcceptedCounts(b: Book, q: seq<Req>)
    ensures b.FinishAll(q, false).resumableClients == b.resumableClients && b.FinishAll(q, false).clients == b.clients
    decreases |q|
  {
    if q != [] {
      AcceptedCounts(b.Finish(q[0], false), q[1..]);
    }
  }

  predicate SameFields(s: Session, t: Session) {
    && t.reaper == s.reaper && t.resumable == s.resumable && t.sess == s.sess
    && t.agentforwarded == s.agentforwarded && t.probecall == s.probecall
  }

  /** Most steps change none of these fields. */
  lemma SameExpected(s: Session, a: Step, t: Session)
    requires SameFields(s, t) && !Unreached(s, a) && !Asks(a)
    requires !a.ClientDied? && !a.Attached? && !a.AfInitDone? && !a.Probed? && !a.ProxyFail?
    ensures FieldsExpected(s, a, t)
  {
    hide HasRex, Refuses;
  }

  lemma HeardFields(s: Session, u: Session)
    requires u == s.(rcpending := false, conpending := false)
    ensures SameFields(s, u.AlertActive())
  {
    hide Session.AlertActive, Book.FinishAll;
    ActiveIs(u);
  }

  lemma DialedFields(s: Session, a: Step, t: Session)
    requires (a.Connected? || a.ConnectedCrypt?) && a.ok && !(!a.force && s.sess && a.heard)
    requires t == s.Connected(a.force, a.heard, a.ok, a.same, a.secure)
    ensures SameFields(s, t)
  {
    hide Session.Connected;
    if a.same {
      ConnectedSame(s, a.force, a.heard, a.secure);
    } else if s.sess {
      ConnectedOld(s, a.force, a.heard, a.secure);
    } else {
      ConnectedNew(s, a.force, a.heard, a.secure);
    }
  }

  lemma ConnectedFields(s: Session, a: Step, t: Session)
    requires s.live && (a.Connected? || (a.ConnectedCrypt? && a.ok)) && !Unreached(s, a)
    requires t == s.Connected(a.force, a.heard, a.ok, a.same, a.secure)
    ensures FieldsExpected(s, a, t)
  {
    hide Session.AlertActive, Session.Connected, FieldsExpected, SameFields;
    if !a.force && s.sess && a.heard {
      ConnectedHeard(s, a.force, a.heard, a.ok, a.same, a.secure);
      HeardFields(s, s.(rcpending := false, conpending := false));
    } else {
      DialedFields(s, a, t);
    }
    SameExpected(s, a, t);
  }

  lemma SpawnedFields(s: Session, ok: bool)
    requires s.Spawned(ok).live
    ensures FieldsExpected(s, Spawned(ok), s.Spawned(ok))
  {
    hide FieldsExpected, Session.Fail;
    FailAnswers(s.(cbase := NoCall));
    SameExpected(s, Spawned(ok), s.Spawned(ok));
  }

  /** A session that has just begun. */
  function Begun(s: Session): Session {
    s.(cbase := NoCall, sess := true, resumable := s.book.resumableClients > 0)
  }

  lemma AttachedIs(s: Session, started: bool)
    requires !s.sess
    ensures s.Attached(true, started) == Begun(s).AlertActive()
  {
    hide Session.AlertActive, Session.Fail;
  }

  lemma BegunFields(s: Session, t: Session)
    requires !s.sess && t == Begun(s).(book := t.book, reqs := t.reqs, afpending := t.afpending)
    requires t.book.resumableClients == s.book.resumableClients
    ensures FieldsExpected(s, Attached(true, true), t)
  {
    hide HasRex, Refuses;
  }

  lemma AttachedNew(s: Session)
    requires !s.sess
    ensures FieldsExpected(s, Attached(true, true), s.Attached(true, true)) && s.Attached(true, false) == s.Attached(true, true)
  {
    hide Session.AlertActive, Session.Attached, Book.FinishAll, FieldsExpected;
    AttachedIs(s, true);
    AttachedIs(s, false);
    ActiveIs(Begun(s));
    AcceptedCounts(s.book, s.reqs);
    BegunFields(s, Begun(s).AlertActive());
  }

  lemma AttachedOld(s: Session, started: bool)
    requires s.sess && s.Attached(true, started).live
    ensures FieldsExpected(s, Attached(true, started), s.Attached(true, started))
  {
    hide Session.Fail, HasRex, Refuses;
    FailAnswers(s.(cbase := NoCall, probecall := false, resumepending := false));
  }

  lemma AttachedFields(s: Session, ok: bool, started: bool)
    requires s.Attached(ok, started).live
    ensures FieldsExpected(s, Attached(ok, started), s.Attached(ok, started))
  {
    AttachedOk(s, started);
    hide FieldsExpected, Session.Attached;
    if s.sess {
      AttachedOld(s, started);
    } else {
      AttachedNew(s);
      AttachedEither(s, s.Attached(true, true), started);
    }
  }

  lemma AttachedOk(s: Session, started: bool)
    ensures !s.Attached(false, started).live
  {
    hide Session.AlertActive, Session.AlertFail;
  }

  /** Whether resuming started does not matter to a session that has just begun. */
  lemma AttachedEither(s: Session, t: Session, started: bool)
    requires FieldsExpected(s, Attached(true, true), t)
    ensures FieldsExpected(s, Attached(true, started), t)
  {
    hide HasRex, Refuses;
  }

  lemma ResumedFields(s: Session, ok: bool)
    requires s.ResumeDone(ok).live
    ensures FieldsExpected(s, Resumed(ok), s.ResumeDone(ok))
  {
    hide Session.AlertActive, Book.FinishAll, FieldsExpected;
    ActiveIs(s.(resumepending := false));
    SameExpected(s, Resumed(ok), s.ResumeDone(ok));
  }

  lemma LostFields(s: Session)
    requires s.ProxyFail().live
    ensures FieldsExpected(s, ProxyFail, s.ProxyFail())
  {
    hide HasRex, Refuses, Session.Fail;
    FailAnswers(s);
    if s.resumepending {
      assert s.ProxyFail() == s;
    }
  }

  lemma ProbedFields(s: Session, ok: bool)
    requires s.Probed(ok).live
    ensures FieldsExpected(s, Probed(ok), s.Probed(ok))
  {
    hide HasRex, Refuses, Session.Fail, Session.AlertActive, Book.FinishAll;
    FailAnswers(s.(probecall := false));
    ActiveIs(s.(probecall := false).Cancelled());
  }

  lemma TookFields(u: Session, r: Req, agent: bool, now: bool)
    ensures var t := Took(u, r, agent, now);
      && t.reaper == u.reaper && t.resumable == u.resumable && t.sess == u.sess && t.agentforwarded == u.agentforwarded
      && t.probecall == (u.probecall || (!agent && !now && !u.Connecting()))
      && t.book.resumableClients == u.book.resumableClients
  {
    hide Session.Connecting, Book.FinishAll;
    AcceptedCounts(u.book.Noted(), [r]);
  }

  lemma RexFields(s: Session, a: Step)
    requires a.RexRequest?
    ensures FieldsExpected(s, a, s.RexRequest(a.forward, a.block, a.res, a.heard))
  {
    hide Session.TakeRequest, Session.Joined, Took, Session.Connecting, FieldsExpected;
    var u, r := s.Joined(a.res), NewReq(s, a);
    JoinedSame(s, r);
    TakeIs(u, r, a.forward, a.heard, ForAgent(s, a), AtOnce(s, a));
    TookFields(u, r, ForAgent(s, a), AtOnce(s, a));
    hide ForAgent, AtOnce;
    AskedFields(s, a, u.TakeRequest(r, a.forward, a.heard));
  }

  lemma AskedFields(s: Session, a: Step, t: Session)
    requires a.RexRequest? && !t.reaper && t.sess == s.sess && t.agentforwarded == s.agentforwarded
    requires t.resumable == if s.Connecting() then s.resumable else t.book.resumableClients > 0
    requires t.probecall == (s.probecall || (!ForAgent(s, a) && !AtOnce(s, a) && !s.Connecting()))
    ensures FieldsExpected(s, a, t)
  {
    hide Session.Connecting, AtOnce, ForAgent, HasRex, Refuses;
  }

  lemma KeepaliveFields(s: Session, a: Step)
    requires a.Keepalive?
    ensures FieldsExpected(s, a, s.Keepalive(a.heard))
  {
    var u, r := s.(retryDelay := 0), NewReq(s, a);
    assert u.Connecting() == s.Connecting();
    hide Session.TakeRequest, Took, Session.Connecting, HasRex, Refuses;
    TakeIs(u, r, false, a.heard, false, AtOnce(s, a));
    TookFields(u, r, false, AtOnce(s, a));
  }

  lemma UnreachedFields(s: Session, a: Step)
    requires Inv(s) && Enabled(s, a) && Unreached(s, a) && Next(s, a).live
    ensures FieldsExpected(s, a, Next(s, a))
  {
    hide Books, Session.AlertBadConnect, Session.Fail, Blocking;
    var u := s.(rcpending := false, conpending := false);
    UnreachedExpected(s, a);
    FailAnswers(u.AlertBadConnect());
    RefusedFlag(u);
  }

  /** After refusals the flag says whether a client is left that can resume. */
  lemma RefusedFlag(s: Session)
    requires s.sess && !s.Connecting()
    ensures var t, p, q := s.AlertBadConnect(), Blocking(s.reqs, false), Blocking(s.afreqs, false);
      && t.resumable == (if HasRex(p + q) then t.book.resumableClients > 0 else s.resumable)
      && t.reaper == s.reaper && t.sess == s.sess && t.agentforwarded == s.agentforwarded && t.probecall == s.probecall
  {
    hide Blocking;
    var p, q := Blocking(s.reqs, false), Blocking(s.afreqs, false);
    HasRexJoin(p, q);
    if !HasRex(q) {
      NoRexRefused(s.book.FinishAll(p, true), q);
    }
  }

  lemma HasRexJoin(p: seq<Req>, q: seq<Req>)
    ensures HasRex(p + q) <==> HasRex(p) || HasRex(q)
  {
    if i :| 0 <= i < |p| && p[i].rex {
      assert (p + q)[i].rex;
    }
    if i :| 0 <= i < |q| && q[i].rex {
      assert (p + q)[|p| + i].rex;
    }
  }

  lemma OtherFields(s: Session, a: Step)
    requires Enabled(s, a)
    requires a.BackoffFires? || a.ProbeTimeout? || a.ProxyTimeout? || a.AfInitDone? || a.ClientDied?
    ensures FieldsExpected(s, a, Next(s, a))
  {
    hide HasRex, Refuses, Book.FinishAll;
    if a.BackoffFires? || a.ProbeTimeout? || a.ProxyTimeout? {
      DialFields(s, a);
    }
  }

  lemma ConnectSame(s: Session)
    ensures SameFields(s, s.ConnectInner()) && SameFields(s, s.Connect())
  {
  }

  lemma DialFields(s: Session, a: Step)
    requires Enabled(s, a) && (a.BackoffFires? || a.ProbeTimeout? || a.ProxyTimeout?)
    ensures FieldsExpected(s, a, Next(s, a))
  {
    hide FieldsExpected, Session.ConnectInner, Session.Connect, Session.Connecting;
    ConnectSame(s);
    SameExpected(s, a, Next(s, a));
  }

  lemma StepFields(s: Session, a: Step)
    requires Inv(s) && Enabled(s, a) && Next(s, a).live
    ensures FieldsExpected(s, a, Next(s, a))
  {
    hide Inv, FieldsExpected, Session.Connected, Session.Spawned, Session.Attached, Session.ResumeDone, Session.Probed,
      Session.ProxyFail, Session.Fail, Session.RexRequest, Session.Keepalive, Session.AfInitDone, Session.ClientDied,
      Session.ConnectInner, Session.ProbeTimeout, Session.ProxyTimeout;
    if Unreached(s, a) {
      UnreachedFields(s, a);
    } else if a.Connected? || a.ConnectedCrypt? {
      FailAnswers(s);
      ConnectedFields(s, a, Next(s, a));
    } else {
      match a
      case Spawned(ok) => SpawnedFields(s, ok);
      case Attached(ok, started) => AttachedFields(s, ok, started);
      case Resumed(ok) => ResumedFields(s, ok);
      case Probed(ok) => ProbedFields(s, ok);
      case ProxyFail => LostFields(s);
      case RexRequest(_, _, _, _) => RexFields(s, a);
      case Keepalive(_) => KeepaliveFields(s, a);
      case _ => OtherFields(s, a);
    }
  }

  // ----- Whole runs

  lemma RunExpected(b: seq<Session>, a: seq<Step>, i: nat)
    requires Run(b, a) && i < |a|
    ensures Inv(b[i]) && Enabled(b[i], a[i]) && AsExpected(b[i], a[i], b[i + 1])
  {
    hide AsExpected, Inv, Enabled, Next;
    RexTheorems.RunInv(b, a, i);
    StepExpected(b[i], a[i]);
  }

  /** The steps that end a session are those expected to. */
  lemma LiveIff(b: seq<Session>, a: seq<Step>, i: nat)
    requires Run(b, a) && i < |a|
    ensures b[i + 1].live <==> !Ends(b[i], a[i]) && !a[i].Reaped? && !a[i].Killed?
  {
    RunExpected(b, a, i);
    hide Answered, Ends;
  }

  /** A request is in `q`. */
  predicate Among(q: seq<Req>, id: nat) {
    exists i :: 0 <= i < |q| && q[i].id == id
  }

  ghost predicate RefusedBefore(b: seq<Session>, a: seq<Step>, i: nat, id: nat)
    requires Run(b, a) && i < |b|
  {
    exists j :: 0 <= j < i && Among(Refuses(b[j], a[j]), id)
  }

  ghost predicate AnsweredBefore(b: seq<Session>, a: seq<Step>, i: nat, id: nat)
    requires Run(b, a) && i < |b|
  {
    exists j :: 0 <= j < i && (Among(Refuses(b[j], a[j]), id) || Among(Accepts(b[j], a[j]), id))
  }

  lemma AmongIds(q: seq<Req>, id: nat)
    ensures id in IdsOf(q) <==> Among(q, id)
  {
    if Among(q, id) {
      var i :| 0 <= i < |q| && q[i].id == id;
      assert IdsOf(q)[i] == id;
    }
  }

  /** A request was refused exactly if some step was to refuse it, and answered exactly if some step
      was to accept or refuse it. */
  lemma {:induction false} RefusedIff(b: seq<Session>, a: seq<Step>, i: nat, id: nat)
    requires Run(b, a) && i < |b|
    ensures id in b[i].book.refused <==> RefusedBefore(b, a, i, id)
    ensures id in b[i].book.done <==> AnsweredBefore(b, a, i, id)
  {
    hide Inv, Enabled, Next, Refuses, Accepts, Among, Grants;
    if i != 0 {
      RefusedIff(b, a, i - 1, id);
      RunExpected(b, a, i - 1);
      AmongIds(Refuses(b[i - 1], a[i - 1]), id);
      AmongIds(Accepts(b[i - 1], a[i - 1]), id);
      hide IdsOf;
    }
  }

  /** No step both accepts and refuses. */
  lemma OneVerdict(s: Session, a: Step)
    ensures Refuses(s, a) != [] ==> Accepts(s, a) == []
    ensures Refuses(s, a) != [] ==> Ends(s, a) || Unreached(s, a)
    ensures Accepts(s, a) != [] ==> !Ends(s, a) && !Unreached(s, a)
  {
  }

  /** An answer given by a step is a refusal exactly if the session ends with it, or a connection
      attempt failed and the proxy was not heard of. */
  lemma HowAnswered(b: seq<Session>, a: seq<Step>, i: nat, k: nat)
    requires Run(b, a) && i < |a| && |b[i].book.done| <= k < |b[i + 1].book.done|
    ensures b[i + 1].book.done[k] in b[i + 1].book.refused <==> !b[i + 1].live || Unreached(b[i], a[i])
  {
    var id := b[i + 1].book.done[k];
    AnsweredFirst(b, a, i, k);
    RefusedIff(b, a, i, id);
    assert id !in b[i].book.refused;
    RunExpected(b, a, i);
    OneVerdict(b[i], a[i]);
    hide Inv, Enabled, Next, Refuses, Accepts, Ends, Unreached, Grants, Run;
  }

  lemma Repeated(d: seq<nat>, j: nat, k: nat)
    requires j < k < |d| && d[j] == d[k]
    ensures multiset(d)[d[j]] >= 2
  {
    assert d == d[..k] + d[k..];
    assert d[..k][j] in multiset(d[..k]) && d[k..][0] in multiset(d[k..]);
  }

  lemma DoneGrows(b: seq<Session>, a: seq<Step>, i: nat)
    requires Run(b, a) && i < |a|
    ensures b[i].book.done <= b[i + 1].book.done && Inv(b[i + 1])
  {
    assert |b| == |a| + 1;
    hide Inv, Accepts, Refuses, Run, Grants;
    RunExpected(b, a, i);
    RexTheorems.RunInv(b, a, i + 1);
  }

  lemma AnsweredFirst(b: seq<Session>, a: seq<Step>, i: nat, k: nat)
    requires Run(b, a) && i < |a| && |b[i].book.done| <= k < |b[i + 1].book.done|
    ensures b[i + 1].book.done[k] !in b[i].book.done
  {
    DoneGrows(b, a, i);
    hide Run, Inv;
    var d, e := b[i].book.done, b[i + 1].book.done;
    OnceDone(b[i + 1], e[k]);
    forall j | 0 <= j < |d|
      ensures d[j] != e[k]
    {
      assert e[j] == d[j];
      if d[j] == e[k] {
        Repeated(e, j, k);
      }
    }
  }

  lemma OnceDone(s: Session, id: nat)
    requires Inv(s)
    ensures multiset(s.book.done)[id] <= 1
  {
    AllIdsCount(s.book.taken, id);
  }

  /** A client was given a sequence number. */
  ghost predicate Granted(issued: seq<Grant>, id: nat) {
    exists k :: 0 <= k < |issued| && issued[k].ToClient? && issued[k].id == id
  }

  predicate ClientAmong(q: seq<Req>, id: nat) {
    exists i :: 0 <= i < |q| && q[i].rex && q[i].id == id
  }

  lemma GrantedJoin(p: seq<Grant>, q: seq<Grant>, id: nat)
    ensures Granted(p + q, id) <==> Granted(p, id) || Granted(q, id)
  {
    if k :| 0 <= k < |p| && p[k].ToClient? && p[k].id == id {
      assert (p + q)[k] == p[k];
    }
    if k :| 0 <= k < |q| && q[k].ToClient? && q[k].id == id {
      assert (p + q)[|p| + k] == q[k];
    }
  }

  lemma {:induction false} GrantedAmong(q: seq<Req>, n: nat, id: nat)
    ensures Granted(Grants(q, n), id) <==> ClientAmong(q, id)
  {
    if q != [] {
      var m := if q[0].rex then n + 1 else n;
      GrantedAmong(q[1..], m, id);
      assert ClientAmong(q, id) <==> (q[0].rex && q[0].id == id) || ClientAmong(q[1..], id) by {
        assert forall i :: 0 < i < |q| ==> q[i] == q[1..][i - 1];
      }
      if q[0].rex {
        GrantedJoin([ToClient(n, q[0].id)], Grants(q[1..], m), id);
        assert Granted([ToClient(n, q[0].id)], id) <==> q[0].id == id by {
          assert [ToClient(n, q[0].id)][0].id == q[0].id;
        }
      }
    }
  }

  ghost predicate AcceptedBefore(b: seq<Session>, a: seq<Step>, i: nat, id: nat)
    requires Run(b, a) && i < |b|
  {
    exists j :: 0 <= j < i && ClientAmong(Accepts(b[j], a[j]), id)
  }

  /** A client has a sequence number exactly if some step was to accept it. */
  lemma {:induction false} AcceptedIff(b: seq<Session>, a: seq<Step>, i: nat, id: nat)
    requires Run(b, a) && i < |b|
    ensures Granted(b[i].book.issued, id) <==> AcceptedBefore(b, a, i, id)
  {
    hide Inv, Enabled, Next, Refuses, Accepts, ClientAmong, Grants, Granted;
    if i == 0 {
      NoneGranted(id);
    } else {
      var s, step := b[i - 1], a[i - 1];
      AcceptedIff(b, a, i - 1, id);
      RunExpected(b, a, i - 1);
      var issued := if Attaches(s, step) then s.book.issued + [ToAttach(s.book.seqno)] else s.book.issued;
      var seqno := if Attaches(s, step) then s.book.seqno + 1 else s.book.seqno;
      hide Attaches;
      assert b[i].book.issued == issued + Grants(Accepts(s, step), seqno);
      GrantedAmong(Accepts(s, step), seqno, id);
      GrantedJoin(issued, Grants(Accepts(s, step), seqno), id);
      GrantedJoin(s.book.issued, [ToAttach(s.book.seqno)], id);
      NoClientGranted(s.book.seqno, id);
    }
  }

  lemma NoneGranted(id: nat)
    ensures !Granted([], id)
  {
  }

  lemma NoClientGranted(n: nat, id: nat)
    ensures !Granted([ToAttach(n)], id)
  {
  }
}
