/**
 At-most-once execution holds in every run exactly when the send-buffer size is unknown,
 no call is issued while a resumption is in progress, and a client that keeps a call whose
 reply it read answers nothing more on that connection; otherwise a run dispatches a call
 twice.
 */
module ResumeLimits {
  import opened Octets
  import opened ReplayCache
  import opened ResumableServer
  import opened ResumeProtocol
  import opened ResumeTheorems

  /** Two calls were dispatched and nothing was answered yet. */
  ghost predicate TwoPending(s: State) {
    && s.client == Client([1, 2], map[1 := 0, 2 := 1], map[], false, false)
    && s.at == 0 && |s.conns| == 1 && s.conns[0] == Conn([Call(1), Call(2)], 2, [], [], {})
    && s.server == Server(map[1 := Pending, 2 := Pending], [], 0, 0, false)
    && s.revs == map[] && s.executed == [1, 2]
  }

  lemma Start(cfg: Config) returns (b: seq<State>, a: seq<Step>)
    ensures Reaches(cfg, b, a, Init())
  {
    b, a := [Init()], [];
  }

  lemma DispatchTwo(cfg: Config) returns (b: seq<State>, a: seq<Step>, s: State)
    ensures Reaches(cfg, b, a, s) && TwoPending(s)
  {
    hide Reaches;
    b, a, s := IssueTwo(cfg);
    b, a, s := ReadTwo(cfg, b, a, s);
  }

  lemma IssueOne(cfg: Config) returns (b: seq<State>, a: seq<Step>, s: State)
    ensures Reaches(cfg, b, a, s) && s.executed == [] && s.revs == map[] && s.server == Init().server
    ensures s.at == 0 && |s.conns| == 1 && s.conns[0] == Conn([Call(1)], 0, [], [], {})
    ensures s.client == Client([1], map[1 := 0], map[], false, false)
  {
    hide Reaches;
    b, a := Start(cfg);
    s := Issued(Init(), 1);
    assert s.client.calls == [1] && s.client.ord == map[1 := 0] && s.conns[0].up == [Call(1)];
    b, a := Extend(cfg, b, a, Init(), Issue(1), s);
  }

  lemma IssueTwo(cfg: Config) returns (b: seq<State>, a: seq<Step>, s: State)
    ensures Reaches(cfg, b, a, s) && s.executed == [] && s.revs == map[] && s.server == Init().server
    ensures s.at == 0 && |s.conns| == 1 && s.conns[0] == Conn([Call(1), Call(2)], 0, [], [], {})
    ensures s.client == Client([1, 2], map[1 := 0, 2 := 1], map[], false, false)
  {
    hide Reaches;
    var s1;
    b, a, s1 := IssueOne(cfg);
    s := Issued(s1, 2);
    assert s.client.calls == [1, 2] && s.client.ord == map[1 := 0, 2 := 1] && s.conns[0].up == [Call(1), Call(2)];
    b, a := Extend(cfg, b, a, s1, Issue(2), s);
  }

  lemma ReadTwo(cfg: Config, b: seq<State>, a: seq<Step>, s: State)
    returns (b': seq<State>, a': seq<Step>, s': State)
    requires Reaches(cfg, b, a, s) && s.executed == [] && s.server == Init().server
    requires s.at == 0 && |s.conns| == 1 && s.conns[0] == Conn([Call(1), Call(2)], 0, [], [], {})
    ensures Reaches(cfg, b', a', s') && s'.client == s.client && s'.revs == s.revs
    ensures s'.at == 0 && |s'.conns| == 1 && s'.conns[0] == s.conns[0].(read := 2)
    ensures s'.server == Server(map[1 := Pending, 2 := Pending], [], 0, 0, false) && s'.executed == [1, 2]
  {
    hide Reaches;
    var t := ServerRead(s);
    b', a' := Extend(cfg, b, a, s, ServerRecv, t);
    assert t.server == Server(map[1 := Pending], [], 0, 0, false);
    s' := ServerRead(t);
    b', a' := Extend(cfg, b', a', t, ServerRecv, s');
  }

  lemma ReplyTwo(server: Server, big: Bytes, sndbufsz: int) returns (mid: Server, last: Server)
    requires server == Server(map[1 := Pending, 2 := Pending], [], 0, 0, false)
    requires 0 < sndbufsz && |big| == sndbufsz + 1
    ensures mid == server.Replied(1, [], sndbufsz) && mid.rtab == map[1 := Done([], 4), 2 := Pending]
    ensures last == mid.Replied(2, big, sndbufsz) && 1 !in last.rtab
  {
    var u := server.Answered(1, []);
    assert u.rtab == map[1 := Done([], 4), 2 := Pending];
    assert u.Received(u.KnownReceived(sndbufsz)) == {};
    KeepAll(u.rq, {});
    mid := server.Replied(1, [], sndbufsz);
    var v := mid.Answered(2, big);
    assert v.rtab == map[1 := Done([], 4), 2 := Done(big, 8 + |big|)];
    assert v.KnownReceived(sndbufsz) == 9 && v.Leftovers() == {};
    assert 1 in v.Received(9);
    last := mid.Replied(2, big, sndbufsz);
  }

  /** The reply to one call is evicted by the bytes of the next, before the client reads
      either. */
  lemma SndbufRun(cfg: Config) returns (b: seq<State>, a: seq<Step>)
    requires 0 < cfg.sndbufsz
    ensures Run(cfg, b, a) && !Distinct(b[|b| - 1].executed)
  {
    hide Reaches, Server.Replied;
    var s;
    b, a, s := DispatchTwo(cfg);
    var big: Bytes := seq(cfg.sndbufsz + 1, _ => 0);
    var mid, last := ReplyTwo(s.server, big, cfg.sndbufsz);
    var s1 := ServerReplied(cfg, s, 1, []);
    b, a := Extend(cfg, b, a, s, ServerReply(1, []), s1);
    var s2 := ServerReplied(cfg, s1, 2, big);
    b, a := Extend(cfg, b, a, s1, ServerReply(2, big), s2);
    b, a := Redispatch(cfg, b, a, s2);
  }

  lemma Redispatch(cfg: Config, b: seq<State>, a: seq<Step>, s: State)
    returns (b': seq<State>, a': seq<Step>)
    requires Reaches(cfg, b, a, s) && s.client.calls == [1, 2] && !s.client.eof && s.at == 0 && |s.conns| == 1
    requires 1 !in s.server.rtab && s.executed == [1, 2]
    ensures Run(cfg, b', a') && !Distinct(b'[|b'| - 1].executed)
  {
    hide Reaches;
    var s1 := PreResumed(s);
    b', a' := Extend(cfg, b, a, s, PreResume, s1);
    var s2 := PostResumed(s1, 2);
    b', a' := Extend(cfg, b', a', s1, PostResume(2), s2);
    assert s2.conns[1].up[0] == Call(1);
    b', a' := ReadAgain(cfg, b', a', s2);
  }

  lemma ReadAgain(cfg: Config, b: seq<State>, a: seq<Step>, s: State)
    returns (b': seq<State>, a': seq<Step>)
    requires Reaches(cfg, b, a, s) && s.at == 0 && |s.conns| == 2
    requires s.conns[1].read == 0 && s.conns[1].up != [] && s.conns[1].up[0] == Call(1)
    requires 1 !in s.server.rtab && s.executed == [1, 2]
    ensures Run(cfg, b', a') && !Distinct(b'[|b'| - 1].executed)
  {
    hide Reaches;
    var s1 := ServerMoved(s, 1);
    b', a' := Extend(cfg, b, a, s, ServerResume(1), s1);
    var s2 := ServerRead(s1);
    b', a' := Extend(cfg, b', a', s1, ServerRecv, s2);
    assert s2.executed[0] == s2.executed[2];
    RunOf(cfg, b', a', s2);
  }

  lemma RunOf(cfg: Config, b: seq<State>, a: seq<Step>, s: State)
    requires Reaches(cfg, b, a, s)
    ensures Run(cfg, b, a) && b[|b| - 1] == s
  {
  }

  /** One call was answered, and is still outstanding at the client. */
  ghost predicate OneAnswered(s: State) {
    && s.client == Client([1], map[1 := 0], map[], false, false)
    && s.at == 0 && |s.conns| == 1
    && s.server == Server(map[1 := Done([], 4)], [1], 4, 0, false)
    && s.executed == [1]
  }

  lemma AnsweredOne(server: Server)
    requires server == Server(map[1 := Pending], [], 0, 0, false)
    ensures server.Answered(1, []) == Server(map[1 := Done([], 4)], [1], 4, 0, false)
  {
    assert server.Answered(1, []).rtab == map[1 := Done([], 4)];
  }

  lemma NoneReceived(u: Server, sndbufsz: int)
    requires u == Server(map[1 := Done([], 4)], [1], 4, 0, false)
    ensures u.Received(u.KnownReceived(sndbufsz)) == {}
  {
  }

  lemma NoneEvicted(u: Server)
    ensures u.Without({}) == u
  {
    KeepAll(u.rq, {});
    assert u.rtab - {} == u.rtab;
  }

  lemma RepliedOne(server: Server, sndbufsz: int)
    requires server == Server(map[1 := Pending], [], 0, 0, false)
    ensures server.Replied(1, [], sndbufsz) == Server(map[1 := Done([], 4)], [1], 4, 0, false)
  {
    hide Server.Answered, Server.Received, Server.KnownReceived, Server.Without;
    AnsweredOne(server);
    var u := server.Answered(1, []);
    NoneReceived(u, sndbufsz);
    NoneEvicted(u);
  }

  lemma ReadOne(cfg: Config) returns (b: seq<State>, a: seq<Step>, s: State)
    ensures Reaches(cfg, b, a, s) && s.client == Client([1], map[1 := 0], map[], false, false)
    ensures s.at == 0 && |s.conns| == 1 && s.executed == [1]
    ensures s.server == Server(map[1 := Pending], [], 0, 0, false)
  {
    hide Reaches;
    var s1;
    b, a, s1 := IssueOne(cfg);
    s := ServerRead(s1);
    b, a := Extend(cfg, b, a, s1, ServerRecv, s);
    assert s.server.rtab == map[1 := Pending];
  }

  lemma AnswerOne(cfg: Config) returns (b: seq<State>, a: seq<Step>, s: State)
    ensures Reaches(cfg, b, a, s) && OneAnswered(s)
  {
    hide Reaches, Server.Replied, Server.Answered;
    var s1;
    b, a, s1 := ReadOne(cfg);
    RepliedOne(s1.server, cfg.sndbufsz);
    s := ServerReplied(cfg, s1, 1, []);
    b, a := Extend(cfg, b, a, s1, ServerReply(1, []), s);
  }

  /** A call issued between pre_resume and post_resume makes the server take the
      outstanding ones for settled. */
  lemma ChatterRun(cfg: Config) returns (b: seq<State>, a: seq<Step>)
    requires !cfg.quiet
    ensures Run(cfg, b, a) && !Distinct(b[|b| - 1].executed)
  {
    var s;
    b, a, s := AnswerOne(cfg);
    b, a := ResumeChatting(cfg, b, a, s);
  }

  lemma ResumeChatting(cfg: Config, b: seq<State>, a: seq<Step>, s: State)
    returns (b': seq<State>, a': seq<Step>)
    requires Reaches(cfg, b, a, s) && !cfg.quiet && OneAnswered(s)
    ensures Run(cfg, b', a') && !Distinct(b'[|b'| - 1].executed)
  {
    hide Reaches;
    var s1 := PreResumed(s);
    b', a' := Extend(cfg, b, a, s, PreResume, s1);
    var s2 := Issued(s1, 2);
    assert s2.client.calls == [1, 2] && s2.conns[1].up == [Call(2)];
    b', a' := Extend(cfg, b', a', s1, Issue(2), s2);
    b', a' := ResendAll(cfg, b', a', s2);
  }

  lemma ResendAll(cfg: Config, b: seq<State>, a: seq<Step>, s: State)
    returns (b': seq<State>, a': seq<Step>)
    requires Reaches(cfg, b, a, s) && s.client.calls == [1, 2] && s.client.resuming && !s.client.eof
    requires s.at == 0 && |s.conns| == 2 && s.conns[1] == Conn([Call(2)], 0, [], [], {})
    requires s.server == Server(map[1 := Done([], 4)], [1], 4, 0, false) && s.executed == [1]
    ensures Run(cfg, b', a') && !Distinct(b'[|b'| - 1].executed)
  {
    hide Reaches;
    var s1 := PostResumed(s, 2);
    assert s1.conns[1].up == [Call(2), Call(1), Call(2)];
    b', a' := Extend(cfg, b, a, s, PostResume(2), s1);
    b', a' := ReadChatter(cfg, b', a', s1);
  }

  lemma ReadChatter(cfg: Config, b: seq<State>, a: seq<Step>, s: State)
    returns (b': seq<State>, a': seq<Step>)
    requires Reaches(cfg, b, a, s) && s.executed == [1]
    requires s.at == 0 && |s.conns| == 2 && s.conns[1] == Conn([Call(2), Call(1), Call(2)], 0, [], [], {})
    requires s.server == Server(map[1 := Done([], 4)], [1], 4, 0, false)
    ensures Run(cfg, b', a') && !Distinct(b'[|b'| - 1].executed)
  {
    var s1 := ServerMoved(s, 1);
    b', a' := Extend(cfg, b, a, s, ServerResume(1), s1);
    assert 1 in s1.server.Leftovers();
    var s2 := ServerRead(s1);
    b', a' := Extend(cfg, b', a', s1, ServerRecv, s2);
    assert 1 !in s2.server.rtab;
    var s3 := ServerRead(s2);
    b', a' := Extend(cfg, b', a', s2, ServerRecv, s3);
    assert s3.executed[0] == s3.executed[2];
  }

  // ----- A reply read, its call kept

  /** One call was answered, the client read the reply and kept the call, and the server's own
      call after it was answered. */
  lemma ReplyKept(cfg: Config) returns (b: seq<State>, a: seq<Step>, s: State)
    requires cfg.sndbufsz <= 0
    ensures Reaches(cfg, b, a, s) && s.client == Client([1, 2], map[1 := 0, 2 := 1], map[], false, false)
    ensures s.at == 0 && |s.conns| == 1 && s.conns[0] == Conn([Call(1), Call(2)], 2, [Reply(1, [], 4)], [2], {0})
    ensures s.server == Server(map[1 := Done([], 4), 2 := Pending], [1], 4, 0, false)
    ensures s.revs == map[] && s.executed == [1, 2]
  {
    hide Reaches, Server.Replied;
    var s0, s1;
    b, a, s0 := DispatchTwo(cfg);
    AnswerFirst(s0.server, cfg.sndbufsz);
    s1 := ServerReplied(cfg, s0, 1, []);
    b, a := Extend(cfg, b, a, s0, ServerReply(1, []), s1);
    s := ClientKept(s1);
    b, a := Extend(cfg, b, a, s1, ClientKeep, s);
  }

  lemma AnswerFirst(server: Server, sndbufsz: int)
    requires server == Server(map[1 := Pending, 2 := Pending], [], 0, 0, false) && sndbufsz <= 0
    ensures server.Replied(1, [], sndbufsz) == Server(map[1 := Done([], 4), 2 := Pending], [1], 4, 0, false)
  {
    var u := server.Answered(1, []);
    assert u.rtab == map[1 := Done([], 4), 2 := Pending] && u.rq == [1];
    hide Server.Answered, Server.Without;
    assert u.Received(0) == {} && u.KnownReceived(sndbufsz) == 0;
    NoneEvicted(u);
  }

  lemma AnswerSecond(server: Server, sndbufsz: int)
    requires server == Server(map[1 := Done([], 4), 2 := Pending], [1], 8, 8, false) && sndbufsz <= 0
    ensures 1 !in server.Replied(2, [], sndbufsz).rtab
  {
    var u := server.Answered(2, []);
    assert u.rtab == map[1 := Done([], 4), 2 := Done([], 12)];
    assert u.KnownReceived(sndbufsz) == 8 && u.Leftovers() == {};
    assert 1 in u.Received(8);
  }

  /** The server's own call is read and written on. */
  lemma CallHeard(cfg: Config, b: seq<State>, a: seq<Step>, s: State)
    returns (b': seq<State>, a': seq<Step>, s': State)
    requires Reaches(cfg, b, a, s) && !s.client.eof && s.at == 0 && |s.conns| == 1 && s.revs == map[]
    requires s.conns[0] == Conn([Call(1), Call(2)], 2, [Reply(1, [], 4)], [2], {0})
    requires s.server == Server(map[1 := Done([], 4), 2 := Pending], [1], 4, 0, false)
    ensures Reaches(cfg, b', a', s') && s'.client == s.client && s'.executed == s.executed
    ensures s'.at == 0 && |s'.conns| == 1 && s'.revs == map[7 := 8] && s'.server == s.server.(sent := 8)
    ensures s'.conns[0] == Conn([Call(1), Call(2)], 2, [Reply(1, [], 4), RevCall(7, 8)], [2, 2], {0})
  {
    hide Reaches;
    var s1 := RevCalled(s, 7, 0);
    b', a' := Extend(cfg, b, a, s, SendRevCall(7, 0), s1);
    assert s1.conns[0].down == [Reply(1, [], 4), RevCall(7, 8)];
    s' := ClientRead(s1);
    b', a' := Extend(cfg, b', a', s1, ClientRecv, s');
  }

  /** Answering it makes the server take the reply before it for received. */
  lemma CallAnswered(cfg: Config, b: seq<State>, a: seq<Step>, s: State)
    returns (b': seq<State>, a': seq<Step>, s': State)
    requires Reaches(cfg, b, a, s) && !cfg.leaves && !s.client.eof && s.at == 0 && |s.conns| == 1
    requires s.conns[0] == Conn([Call(1), Call(2)], 2, [Reply(1, [], 4), RevCall(7, 8)], [2, 2], {0})
    requires s.server == Server(map[1 := Done([], 4), 2 := Pending], [1], 8, 0, false) && s.revs == map[7 := 8]
    ensures Reaches(cfg, b', a', s') && s'.client == s.client && s'.executed == s.executed
    ensures s'.at == 0 && |s'.conns| == 1 && s'.server == s.server.(acked := 8)
  {
    hide Reaches;
    var s1 := WriteUp(s, [RevReply(7)]);
    assert s.conns[0].down[1] == RevCall(7, 8);
    assert Heard(s.conns[0], 7, cfg.leaves);
    b', a' := Extend(cfg, b, a, s, SendRevReply(7), s1);
    assert s1.conns[0].up[2] == RevReply(7);
    s' := ServerRead(s1);
    b', a' := Extend(cfg, b', a', s1, ServerRecv, s');
  }

  /** A client that goes on after it read a reply and kept its call has the reply evicted, and
      the call is dispatched again. */
  lemma KeptRun(cfg: Config) returns (b: seq<State>, a: seq<Step>)
    requires cfg.sndbufsz <= 0 && !cfg.leaves
    ensures Run(cfg, b, a) && !Distinct(b[|b| - 1].executed)
  {
    hide Reaches, Server.Replied;
    var s;
    b, a, s := ReplyKept(cfg);
    b, a, s := CallHeard(cfg, b, a, s);
    b, a, s := CallAnswered(cfg, b, a, s);
    AnswerSecond(s.server, cfg.sndbufsz);
    var s1 := ServerReplied(cfg, s, 2, []);
    b, a := Extend(cfg, b, a, s, ServerReply(2, []), s1);
    b, a := Redispatch(cfg, b, a, s1);
  }

  /** The exact condition for at-most-once execution. */
  lemma AtMostOnceIff(cfg: Config)
    ensures (forall b, a :: Run(cfg, b, a) ==> Safe(b[|b| - 1])) <==> cfg.sndbufsz <= 0 && cfg.quiet && cfg.leaves
  {
    if cfg.sndbufsz <= 0 && cfg.quiet && cfg.leaves {
      forall b, a | Run(cfg, b, a)
        ensures Safe(b[|b| - 1])
      {
        AtMostOnce(cfg, b, a);
      }
    } else if 0 < cfg.sndbufsz {
      var b, a := SndbufRun(cfg);
      assert !Safe(b[|b| - 1]);
    } else if !cfg.quiet {
      var b, a := ChatterRun(cfg);
      assert !Safe(b[|b| - 1]);
    } else {
      var b, a := KeptRun(cfg);
      assert !Safe(b[|b| - 1]);
    }
  }
}
