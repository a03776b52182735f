/**
 A REX session's waiting time between connection attempts, and its agent channel: when they
 change, and how.
 */
module RexPacing {
  import opened RexSession
  import opened RexInvariants
  import opened RexAnswers
  import RexTheorems

  /** A new series of attempts begins. */
  predicate StartsOver(s: Session, a: Step) {
    match a
    case ProbeTimeout => PhaseOf(s).Quiet?
    case ProxyTimeout => PhaseOf(s).Quiet? && s.resumable
    case ProxyFail => !s.resumepending
    case Probed(ok) => !ok && !s.resumepending
    case _ => false
  }

  /** A request makes the session try at once; a failed attempt, or one that finds the same
      connection, makes it wait longer, and a new series starts from 15 seconds. */
  ghost predicate Paced(s: Session, a: Step, t: Session) {
    t.retryDelay == if Asks(a) then 0
                    else if StartsOver(s, a) then 15
                    else if (a.Connected? || a.ConnectedCrypt?) && PhaseOf(t).BackingOff? then NextDelay(s.retryDelay)
                    else s.retryDelay
  }

  /** The agent channel is in the making from when a request waits for it, with the proxy in touch,
      until it is made or has failed. */
  ghost predicate ChannelExpected(s: Session, a: Step, t: Session) {
    t.afpending == if a.AfInitDone? then false else s.afpending || (t.afreqs != [] && PhaseOf(t).Quiet?)
  }

  /** What the invariant leaves to show. */
  ghost predicate Shown(s: Session, a: Step, t: Session) {
    && Paced(s, a, t)
    && (a.AfInitDone? ==> !t.afpending)
    && (s.afpending && !a.AfInitDone? ==> t.afpending)
    && (t.afpending ==> s.afpending || (t.afreqs != [] && PhaseOf(t).Quiet?))
  }

  lemma QuietIs(s: Session)
    ensures PhaseOf(s).Quiet? <==> !s.Connecting()
  {
  }

  lemma ShownExpected(s: Session, a: Step, t: Session)
    requires Inv(t) && t.live && Shown(s, a, t)
    ensures Paced(s, a, t) && ChannelExpected(s, a, t)
  {
    hide Books, Paced;
    QuietIs(t);
  }

  /** Nothing changes but handles and books. */
  lemma SameShown(s: Session, a: Step, t: Session)
    requires t.retryDelay == s.retryDelay && t.afpending == s.afpending && !a.AfInitDone? && !Asks(a) && !StartsOver(s, a)
    requires (a.Connected? || a.ConnectedCrypt?) ==> !PhaseOf(t).BackingOff?
    ensures Shown(s, a, t)
  {
  }

  /** The proxy is in touch. */
  lemma TouchShown(s: Session, a: Step, u: Session)
    requires u.retryDelay == s.retryDelay && u.afpending == s.afpending && !u.Connecting()
    requires !a.AfInitDone? && !Asks(a) && !StartsOver(s, a)
    ensures Shown(s, a, u.AlertActive())
  {
    hide Session.AlertActive, Book.FinishAll;
    ActiveIs(u);
  }

  lemma DialedShown(s: Session, a: Step, t: Session)
    requires Linked(s) && (a.Connected? || a.ConnectedCrypt?) && a.ok && !(!a.force && s.sess && a.heard)
    requires (s.conpending || s.rcpending) && t == s.Connected(a.force, a.heard, a.ok, a.same, a.secure)
    ensures Shown(s, a, t)
  {
    hide Session.Connected;
    if a.same {
      ConnectedSame(s, a.force, a.heard, a.secure);
    } else if s.sess {
      ConnectedOld(s, a.force, a.heard, a.secure);
    } else {
      ConnectedNew(s, a.force, a.heard, a.secure);
    }
  }

  lemma BadConnectSame(s: Session)
    ensures var u := s.AlertBadConnect(); u.retryDelay == s.retryDelay && u.afpending == s.afpending && u.Connecting() == s.Connecting()
  {
    hide Blocking, Book.FinishAll, HasRex;
  }

  lemma UnreachedShown(s: Session, a: Step)
    requires Inv(s) && Enabled(s, a) && Unreached(s, a) && Next(s, a).live
    ensures Shown(s, a, Next(s, a))
  {
    hide Books, Session.AlertBadConnect, Session.Fail, Retries;
    var u := s.(rcpending := false, conpending := false);
    UnreachedIs(s, a, u.AlertBadConnect());
    FailAnswers(u.AlertBadConnect());
    BadConnectSame(u);
  }

  lemma ConnectedShown(s: Session, a: Step, t: Session)
    requires Linked(s) && ((a.Connected? && !Unreached(s, a)) || (a.ConnectedCrypt? && a.ok)) && (s.conpending || s.rcpending)
    requires t == s.Connected(a.force, a.heard, a.ok, a.same, a.secure)
    ensures Shown(s, a, t)
  {
    hide Session.Connected, Session.AlertActive, Shown;
    if !a.force && s.sess && a.heard {
      ConnectedHeard(s, a.force, a.heard, a.ok, a.same, a.secure);
      TouchShown(s, a, s.(rcpending := false, conpending := false));
    } else {
      DialedShown(s, a, t);
    }
  }

  lemma AttachedShown(s: Session, ok: bool, started: bool)
    requires Linked(s) && s.cbase == AttachCall && s.Attached(ok, started).live
    ensures Shown(s, Attached(ok, started), s.Attached(ok, started))
  {
    hide Session.AlertActive, Session.Fail, Shown;
    FailAnswers(s.(cbase := NoCall));
    FailAnswers(s.(cbase := NoCall, probecall := false, resumepending := false));
    if s.sess {
      SameShown(s, Attached(ok, started), s.Attached(ok, started));
    } else {
      TouchShown(s, Attached(ok, started), Begun(s));
    }
  }

  lemma ResumedShown(s: Session, ok: bool)
    requires Linked(s) && s.resumepending && s.ResumeDone(ok).live
    ensures Shown(s, Resumed(ok), s.ResumeDone(ok))
  {
    hide Session.AlertActive, Session.Fail, Shown;
    FailAnswers(s.(resumepending := false));
    TouchShown(s, Resumed(ok), s.(resumepending := false));
  }

  lemma LostShown(s: Session, a: Step, u: Session)
    requires (a == ProxyFail || a == Probed(false)) && u == s.(probecall := u.probecall) && u.ProxyFail().live
    ensures Shown(s, a, u.ProxyFail())
  {
    hide Session.Fail;
    FailAnswers(u);
  }

  lemma ProbedShown(s: Session, ok: bool)
    requires Linked(s) && s.Probed(ok).live
    ensures Shown(s, Probed(ok), s.Probed(ok))
  {
    hide Session.AlertActive, Session.ProxyFail, Shown;
    var u := s.(probecall := false);
    if !ok {
      LostShown(s, Probed(ok), u);
    } else if s.resumepending {
      SameShown(s, Probed(ok), u);
    } else {
      TouchShown(s, Probed(ok), u.Cancelled());
    }
  }

  lemma TookShown(s: Session, a: Step, u: Session, r: Req, agent: bool, now: bool)
    requires Asks(a) && u.retryDelay == 0 && u.afpending == s.afpending && (agent ==> !now)
    ensures Shown(s, a, RexAnswers.Took(u, r, agent, now))
  {
    hide Book.FinishAll;
    QuietIs(u);
  }

  lemma AskedShown(s: Session, a: Step)
    requires Enabled(s, a) && Asks(a)
    ensures Shown(s, a, Next(s, a))
  {
    hide Session.TakeRequest, Session.Joined, RexAnswers.Took, Shown;
    if a.RexRequest? {
      JoinedSame(s, NewReq(s, a));
      TakeIs(s.Joined(a.res), NewReq(s, a), a.forward, a.heard, ForAgent(s, a), AtOnce(s, a));
      TookShown(s, a, s.Joined(a.res), NewReq(s, a), ForAgent(s, a), AtOnce(s, a));
    } else {
      TakeIs(s.(retryDelay := 0), NewReq(s, a), false, a.heard, false, AtOnce(s, a));
      TookShown(s, a, s.(retryDelay := 0), NewReq(s, a), false, AtOnce(s, a));
    }
  }

  lemma OtherShown(s: Session, a: Step)
    requires Enabled(s, a) && (a.BackoffFires? || a.ProbeTimeout? || a.ProxyTimeout? || a.AfInitDone? || a.ClientDied?)
    ensures Shown(s, a, Next(s, a))
  {
    hide Book.FinishAll, HasRex;
    QuietIs(s);
  }

  lemma SpawnedShown(s: Session, ok: bool)
    requires s.Spawned(ok).live
    ensures Shown(s, Spawned(ok), s.Spawned(ok))
  {
    hide Session.Fail, Shown;
    FailAnswers(s.(cbase := NoCall));
    SameShown(s, Spawned(ok), s.Spawned(ok));
  }

  lemma StepShown(s: Session, a: Step)
    requires Inv(s) && Enabled(s, a) && Next(s, a).live
    ensures Shown(s, a, Next(s, a))
  {
    hide Inv, Linked, Shown, Session.Connected, Session.Fail, Session.Spawned, Session.Attached, Session.ResumeDone, Session.Probed,
      Session.ProxyFail, Session.RexRequest, Session.Keepalive, Session.AfInitDone, Session.ClientDied, Session.ConnectInner,
      Session.ProbeTimeout, Session.ProxyTimeout;
    InvLinked(s);
    if Unreached(s, a) {
      UnreachedShown(s, a);
    } else if a.Connected? || a.ConnectedCrypt? {
      FailAnswers(s);
      ConnectedShown(s, a, Next(s, a));
    } else {
      match a
      case Spawned(ok) => SpawnedShown(s, ok);
      case Attached(ok, started) => AttachedShown(s, ok, started);
      case Resumed(ok) => ResumedShown(s, ok);
      case Probed(ok) => ProbedShown(s, ok);
      case ProxyFail => LostShown(s, a, s);
      case RexRequest(_, _, _, _) => AskedShown(s, a);
      case Keepalive(_) => AskedShown(s, a);
      case _ => OtherShown(s, a);
    }
  }

  /** In every run, waiting times and the agent channel change as they should. */
  lemma RunPaced(b: seq<Session>, a: seq<Step>, i: nat)
    requires Run(b, a) && i < |a| && b[i + 1].live
    ensures Paced(b[i], a[i], b[i + 1]) && ChannelExpected(b[i], a[i], b[i + 1])
  {
    hide Inv, Enabled, Next, Paced, ChannelExpected, Shown;
    RexTheorems.RunInv(b, a, i);
    RexTheorems.RunInv(b, a, i + 1);
    StepShown(b[i], a[i]);
    ShownExpected(b[i], a[i], b[i + 1]);
  }

  /** ... and so do the other fields, and the connection attempts. */
  lemma RunFields(b: seq<Session>, a: seq<Step>, i: nat)
    requires Run(b, a) && i < |a| && b[i + 1].live
    ensures FieldsExpected(b[i], a[i], b[i + 1]) && PhaseOf(b[i + 1]) == Leads(b[i], a[i]) && DialsRight(b[i + 1])
  {
    hide Inv, Enabled, Next, FieldsExpected, PhaseOf, Leads, DialsRight;
    RexTheorems.RunInv(b, a, i);
    StepFields(b[i], a[i]);
    StepPhase(b[i], a[i]);
  }
}
