/**
 At-most-once execution over every run of the protocol, and exactly when it holds.
 */
module ResumeTheorems {
  import opened Octets
  import opened ReplayCache
  import opened ResumableServer
  import opened ResumeProtocol
  import ResumeClientSafety
  import ResumeServerSafety

  lemma StepInv(cfg: Config, s: State, a: Step)
    requires Inv(s) && Enabled(cfg, s, a) && cfg.quiet && cfg.leaves && Drained(cfg, s, a)
    ensures Inv(Next(cfg, s, a))
  {
    hide StreamInv, ServerInv, Logged, Remembered, Agreed, Current;
    match a
    case Issue(x) => ResumeClientSafety.IssuedInv(s, x);
    case Cancel(x) => ResumeClientSafety.CancelledInv(s, x);
    case ClientEof => ResumeClientSafety.ClientEofInv(s);
    case PreResume => ResumeClientSafety.PreResumedInv(s);
    case PostResume(n) => ResumeClientSafety.PostResumedInv(s, n);
    case ClientRecv => ResumeClientSafety.ClientReadInv(s);
    case ClientKeep => ResumeClientSafety.ClientKeptInv(s);
    case SendRevReply(k) => ResumeClientSafety.RevRepliedInv(s, k);
    case ServerRecv => ResumeServerSafety.ServerReadInv(s);
    case ServerSkip(forget) => ResumeServerSafety.ServerSkippedInv(s, forget);
    case ServerReply(x, res) => ResumeServerSafety.ServerRepliedInv(cfg, s, x, res);
    case SendRevCall(k, len) => ResumeServerSafety.RevCalledInv(s, k, len);
    case ResendRevCall(k, len) => ResumeServerSafety.RevResentInv(s, k, len);
    case ServerEof => ResumeServerSafety.ServerEofInv(s);
    case ServerResume(n) => ResumeServerSafety.ServerMovedInv(s, n);
  }

  /** The transport keeps the promise the send-buffer estimate relies on. */
  ghost predicate DrainedRun(cfg: Config, b: seq<State>, a: seq<Step>)
    requires Run(cfg, b, a)
  {
    forall i :: 0 <= i < |a| ==> Drained(cfg, b[i], a[i])
  }

  lemma {:induction false} RunInv(cfg: Config, b: seq<State>, a: seq<Step>, i: nat)
    requires Run(cfg, b, a) && cfg.quiet && cfg.leaves && DrainedRun(cfg, b, a) && i < |b|
    ensures Inv(b[i])
  {
    hide Inv, Enabled, Next, Drained;
    if i == 0 {
      ResumeClientSafety.InitInv();
    } else {
      RunInv(cfg, b, a, i - 1);
      StepInv(cfg, b[i - 1], a[i - 1]);
    }
  }

  /** At most one execution of every call, whose result is the only reply ever accepted. */
  ghost predicate Safe(s: State) {
    && Distinct(s.executed)
    && (forall x :: x in s.client.accepted ==>
          x in s.executed && x in s.results && s.client.accepted[x] == s.results[x])
  }

  lemma AtMostOnce(cfg: Config, b: seq<State>, a: seq<Step>)
    requires Run(cfg, b, a) && cfg.quiet && cfg.leaves && DrainedRun(cfg, b, a)
    ensures forall i :: 0 <= i < |b| ==> Safe(b[i])
  {
    forall i | 0 <= i < |b|
      ensures Safe(b[i])
    {
      RunInv(cfg, b, a, i);
    }
  }

  /** A result, once given, is never replaced. */
  lemma ResultsFinal(cfg: Config, b: seq<State>, a: seq<Step>, i: nat, j: nat, x: Xid)
    requires Run(cfg, b, a) && cfg.quiet && cfg.leaves && DrainedRun(cfg, b, a)
    requires i <= j < |b| && x in b[i].results
    ensures x in b[j].results && b[j].results[x] == b[i].results[x]
    decreases j - i
  {
    if i < j {
      RunInv(cfg, b, a, i);
      assert x in b[i + 1].results && b[i + 1].results[x] == b[i].results[x] by {
        ResultStays(cfg, b[i], a[i], x);
      }
      ResultsFinal(cfg, b, a, i + 1, j, x);
    }
  }

  lemma ResultStays(cfg: Config, s: State, a: Step, x: Xid)
    requires Agreed(s) && Enabled(cfg, s, a) && x in s.results
    ensures x in Next(cfg, s, a).results && Next(cfg, s, a).results[x] == s.results[x]
  {
  }

  /** An outstanding call that was executed is always answered from the cache when it is
      sent again: the table keeps it whatever the connections do. */
  lemma OutstandingRemembered(cfg: Config, b: seq<State>, a: seq<Step>, i: nat, x: Xid)
    requires Run(cfg, b, a) && cfg.quiet && cfg.leaves && DrainedRun(cfg, b, a) && i < |b|
    requires x in b[i].client.calls && x in b[i].executed
    ensures x in b[i].server.rtab
    ensures b[i].server.rtab[x].Done? ==>
              x in b[i].results && b[i].server.rtab[x].res == b[i].results[x]
  {
    RunInv(cfg, b, a, i);
  }

  // ----- When the promise is not kept

  /** A run that ends in `s`. */
  ghost predicate Reaches(cfg: Config, b: seq<State>, a: seq<Step>, s: State) {
    Run(cfg, b, a) && b[|b| - 1] == s
  }

  lemma Extend(cfg: Config, b: seq<State>, a: seq<Step>, s: State, step: Step, t: State)
    returns (b': seq<State>, a': seq<Step>)
    requires Reaches(cfg, b, a, s) && Enabled(cfg, s, step) && t == Next(cfg, s, step)
    ensures Reaches(cfg, b', a', t)
  {
    hide Enabled, Next;
    b', a' := b + [t], a + [step];
    forall i | 0 <= i < |a'|
      ensures Enabled(cfg, b'[i], a'[i]) && b'[i + 1] == Next(cfg, b'[i], a'[i])
    {
      if i < |a| {
        assert b'[i] == b[i] && b'[i + 1] == b[i + 1] && a'[i] == a[i];
      }
    }
  }
}
