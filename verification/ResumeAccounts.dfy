/**
 Nothing is lost in resumable RPC: what becomes of every call and of every reply that is read,
 in every run of the protocol.
 */
module ResumeAccounts {
  import opened Octets
  import opened ReplayCache
  import opened ResumableServer
  import opened ResumeProtocol
  import opened ResumeTheorems
  import Framing

  // ----- The client's calls

  predicate ExactlyOne(p: bool, q: bool, r: bool) {
    (p && !q && !r) || (!p && q && !r) || (!p && !q && r)
  }

  /** A call that was issued is outstanding, or was answered, or cancelled. */
  ghost predicate Fate(c: Client, x: Xid, issued: bool, cancelled: bool) {
    && (x in c.ord <==> issued)
    && if issued then ExactlyOne(x in c.calls, x in c.accepted, cancelled)
       else x !in c.calls && x !in c.accepted && !cancelled
  }

  lemma FateStep(cfg: Config, s: State, a: Step, x: Xid, issued: bool, cancelled: bool)
    requires Enabled(cfg, s, a) && Fate(s.client, x, issued, cancelled)
    ensures Fate(Next(cfg, s, a).client, x, issued || a == Issue(x), cancelled || a == Cancel(x))
  {
    hide Keep;
    forall y: Xid
      ensures x in Keep(s.client.calls, {y}) <==> x in s.client.calls && x != y
    {
      KeepMembers(s.client.calls, {y});
      assert x in Keep(s.client.calls, {y}) <==> x in Elements(Keep(s.client.calls, {y}));
    }
  }

  /** Every call issued is outstanding, or has its result, or was cancelled: exactly one of them. */
  lemma {:induction false} Accounted(cfg: Config, b: seq<State>, a: seq<Step>, i: nat, x: Xid)
    requires Run(cfg, b, a) && i < |b|
    ensures Fate(b[i].client, x, Issue(x) in a[..i], Cancel(x) in a[..i])
  {
    hide Enabled, Next;
    if i != 0 {
      Accounted(cfg, b, a, i - 1, x);
      FateStep(cfg, b[i - 1], a[i - 1], x, Issue(x) in a[..i - 1], Cancel(x) in a[..i - 1]);
      assert a[..i] == a[..i - 1] + [a[i - 1]];
    } else {
      assert a[..0] == [];
    }
  }

  /** A reply was taken that gave `x` the result `res`. */
  ghost predicate TookReply(conns: seq<Conn>, x: Xid, res: Bytes) {
    exists m, i: nat :: 0 <= m < |conns| && Taken(conns[m], i) && conns[m].down[i].x == x && conns[m].down[i].res == res
  }

  ghost predicate KeptRead(conns: seq<Conn>) {
    forall m, j :: 0 <= m < |conns| && j in conns[m].kept ==> j < |conns[m].gotAt|
  }

  /** Whatever was read stays read, and taken replies stay taken. */
  ghost predicate Onward(c: Conn, d: Conn) {
    && c.down <= d.down && c.gotAt <= d.gotAt && c.up <= d.up && c.read <= d.read
    && c.kept <= d.kept && (forall j :: j in d.kept ==> j in c.kept || |c.gotAt| <= j < |d.gotAt|)
  }

  ghost predicate AllOnward(conns: seq<Conn>, conns': seq<Conn>) {
    && |conns| <= |conns'| && (forall m :: 0 <= m < |conns| ==> Onward(conns[m], conns'[m]))
    && (KeptRead(conns) ==> KeptRead(conns'))
  }

  lemma OnwardOne(conns: seq<Conn>, n: nat, d: Conn)
    requires n < |conns| && Onward(conns[n], d)
    ensures AllOnward(conns, conns[n := d])
  {
  }

  lemma OnwardSame(conns: seq<Conn>)
    ensures AllOnward(conns, conns) && AllOnward(conns, conns + [FreshConn])
  {
  }

  /** What a server step may do to its connection. */
  lemma OnwardServer(cfg: Config, s: State, a: Step)
    requires Enabled(cfg, s, a) && (a.ServerRecv? || a.ServerSkip? || a.ServerReply? || a.SendRevCall? || a.ResendRevCall?)
    ensures AllOnward(s.conns, Next(cfg, s, a).conns)
  {
    hide AllOnward, Server.Replied, Server.Replayed, Server.Admitted;
    var t := Next(cfg, s, a);
    assert t.conns == s.conns[s.at := t.conns[s.at]];
    OnwardOne(s.conns, s.at, t.conns[s.at]);
  }

  lemma OnwardStep(cfg: Config, s: State, a: Step)
    requires Enabled(cfg, s, a)
    ensures AllOnward(s.conns, Next(cfg, s, a).conns)
  {
    hide AllOnward, Keep;
    OnwardSame(s.conns);
    if a.ServerRecv? || a.ServerSkip? || a.ServerReply? || a.SendRevCall? || a.ResendRevCall? {
      OnwardServer(cfg, s, a);
    } else if a.Issue? || a.PostResume? || a.ClientRecv? || a.ClientKeep? || a.SendRevReply? {
      var t, n := Next(cfg, s, a), |s.conns| - 1;
      assert t.conns == s.conns[n := t.conns[n]];
      OnwardOne(s.conns, n, t.conns[n]);
    }
  }

  lemma TookStays(cfg: Config, s: State, a: Step, x: Xid, res: Bytes)
    requires Enabled(cfg, s, a) && TookReply(s.conns, x, res)
    ensures TookReply(Next(cfg, s, a).conns, x, res)
  {
    OnwardStep(cfg, s, a);
    hide Next;
    var m, i: nat :| 0 <= m < |s.conns| && Taken(s.conns[m], i) && s.conns[m].down[i].x == x && s.conns[m].down[i].res == res;
    assert Onward(s.conns[m], Next(cfg, s, a).conns[m]);
    assert Taken(Next(cfg, s, a).conns[m], i);
  }

  lemma TookStep(cfg: Config, s: State, a: Step, x: Xid)
    requires Enabled(cfg, s, a) && KeptRead(s.conns)
    requires x in s.client.accepted ==> TookReply(s.conns, x, s.client.accepted[x])
    ensures var t := Next(cfg, s, a); x in t.client.accepted ==> TookReply(t.conns, x, t.client.accepted[x])
  {
    hide TookReply, Keep;
    if x in s.client.accepted {
      TookStays(cfg, s, a, x, s.client.accepted[x]);
    }
    if a.ClientRecv? {
      TookNow(s, x);
    }
  }

  lemma TookNow(s: State, x: Xid)
    requires s.conns != [] && KeptRead(s.conns) && var c := s.conns[|s.conns| - 1]; |c.gotAt| < |c.down|
    ensures var t, c := ClientRead(s), s.conns[|s.conns| - 1];
      x in t.client.accepted && (x !in s.client.accepted || t.client.accepted[x] != s.client.accepted[x]) ==>
        TookReply(t.conns, x, t.client.accepted[x])
  {
    hide Keep;
    var t, n := ClientRead(s), |s.conns| - 1;
    var i := |s.conns[n].gotAt|;
    assert t.conns[n].down[i].Reply? ==> Taken(t.conns[n], i);
  }

  /** Every result a call was given came with a reply that was read and not kept. */
  lemma {:induction false} AcceptedTaken(cfg: Config, b: seq<State>, a: seq<Step>, i: nat, x: Xid)
    requires Run(cfg, b, a) && i < |b|
    ensures KeptRead(b[i].conns)
    ensures x in b[i].client.accepted ==> TookReply(b[i].conns, x, b[i].client.accepted[x])
  {
    hide Enabled, Next, TookReply;
    if i != 0 {
      AcceptedTaken(cfg, b, a, i - 1, x);
      OnwardStep(cfg, b[i - 1], a[i - 1]);
      TookStep(cfg, b[i - 1], a[i - 1], x);
    }
  }

  /** Every reply that was read and not kept gave its call the result of its one execution, unless
      the call was cancelled. */
  lemma TakenAccepted(cfg: Config, b: seq<State>, a: seq<Step>, i: nat, m: nat, j: nat)
    requires Run(cfg, b, a) && cfg.quiet && cfg.leaves && DrainedRun(cfg, b, a)
    requires i < |b| && m < |b[i].conns| && Taken(b[i].conns[m], j)
    ensures var x, res := b[i].conns[m].down[j].x, b[i].conns[m].down[j].res;
      && Issue(x) in a[..i] && x in b[i].results && b[i].results[x] == res
      && (Cancel(x) in a[..i] || (x in b[i].client.accepted && b[i].client.accepted[x] == res))
  {
    RunInv(cfg, b, a, i);
    var s := b[i];
    var x := s.conns[m].down[j].x;
    Accounted(cfg, b, a, i, x);
    hide Run, DrainedRun, Complete, Answers, ServerInv, Logged, Remembered, Current, Numbered, InOrder;
    assert Known(s.client.ord, s.conns[m].down);
    assert Genuine(s.conns[m].down, s.results);
    assert !Wanted(s.client.calls, s.conns, m, x);
  }

  // ----- The server's work

  /** Every call dispatched is being served or was answered; those answered are those the service
      gave a result for. */
  ghost predicate Served(s: State, x: Xid, replied: bool) {
    && (x in s.executed ==> x in s.results || (x in s.server.rtab && s.server.rtab[x].Pending?))
    && (x in s.server.rtab ==> x in s.executed)
    && (x in s.results <==> replied)
  }

  lemma ServedStep(cfg: Config, s: State, a: Step, x: Xid, replied: bool)
    requires Enabled(cfg, s, a) && Served(s, x, replied)
    ensures Served(Next(cfg, s, a), x, replied || (a.ServerReply? && a.x == x))
  {
    hide Keep, Server.Valid;
    if a.ServerRecv? {
      ServedRead(s, x, replied);
    }
  }

  lemma ServedRead(s: State, x: Xid, replied: bool)
    requires s.at < |s.conns| && s.conns[s.at].read < |s.conns[s.at].up| && Served(s, x, replied)
    ensures Served(ServerRead(s), x, replied)
  {
    hide Keep;
  }

  ghost predicate RepliedIn(a: seq<Step>, x: Xid) {
    exists j :: 0 <= j < |a| && a[j].ServerReply? && a[j].x == x
  }

  /** The service's results are what it answered, and a call it was given waits for its answer. */
  lemma {:induction false} AllServed(cfg: Config, b: seq<State>, a: seq<Step>, i: nat, x: Xid)
    requires Run(cfg, b, a) && i < |b|
    ensures Served(b[i], x, RepliedIn(a[..i], x))
  {
    hide Enabled, Next;
    if i != 0 {
      AllServed(cfg, b, a, i - 1, x);
      ServedStep(cfg, b[i - 1], a[i - 1], x, RepliedIn(a[..i - 1], x));
      var p := a[..i - 1];
      assert a[..i] == p + [a[i - 1]];
      assert forall j :: 0 <= j < |p| ==> a[..i][j] == p[j];
      assert a[..i][i - 1] == a[i - 1];
    }
  }

  /** The offset at the end of the first `n` messages. */
  function EndOf(d: seq<Down>, n: nat): nat
    requires n <= |d|
  {
    if n == 0 then 0 else d[n - 1].end
  }

  /** One frame, at its place in the stream. */
  ghost predicate Placed(msg: Down, from: nat) {
    from < msg.end && (msg.Reply? && |msg.res| < Framing.LAST ==> msg.end == from + |Framing.Frame(msg.res)|)
  }

  /** Offsets count the bytes of the frames written to the connection. */
  ghost predicate Counts(d: seq<Down>, sent: nat) {
    && sent == EndOf(d, |d|)
    && (forall i :: 0 <= i < |d| ==> Placed(d[i], EndOf(d, i)))
  }

  lemma MsgPlaced(sent: nat, msg: Down)
    requires sent < msg.end && (msg.Reply? ==> msg.end == sent + |msg.res| + 4)
    ensures Placed(msg, sent)
  {
    hide Framing.Frame;
    if msg.Reply? && |msg.res| < Framing.LAST {
      FrameLength(msg.res);
    }
  }

  lemma EndsSame(d: seq<Down>, msg: Down, i: nat)
    requires i <= |d|
    ensures EndOf(d + [msg], i) == EndOf(d, i) && EndOf(d + [msg], |d| + 1) == msg.end
  {
  }

  lemma WriteCounts(d: seq<Down>, sent: nat, msg: Down)
    requires Counts(d, sent) && sent < msg.end
    requires msg.Reply? ==> msg.end == sent + |msg.res| + 4
    ensures Counts(d + [msg], msg.end)
  {
    hide Placed, EndOf;
    MsgPlaced(sent, msg);
    EndsSame(d, msg, |d|);
    var e := d + [msg];
    forall i | 0 <= i < |e|
      ensures Placed(e[i], EndOf(e, i))
    {
      EndsSame(d, msg, i);
      if i < |d| {
        assert e[i] == d[i] && Placed(d[i], EndOf(d, i));
      }
    }
  }

  lemma FrameLength(p: Bytes)
    requires |p| < Framing.LAST
    ensures |Framing.Frame(p)| == |p| + 4
  {
    hide Framing.PutInt;
  }

  lemma NothingCounted()
    ensures Counts([], 0)
  {
  }

  ghost predicate AllCounted(s: State) {
    && s.at < |s.conns| && Counts(s.conns[s.at].down, s.server.sent)
    && (forall m :: s.at < m < |s.conns| ==> s.conns[m].down == [])
  }

  lemma WriteCounted(s: State, t: State, msg: Down)
    requires AllCounted(s) && s.server.sent < msg.end && (msg.Reply? ==> msg.end == s.server.sent + |msg.res| + 4)
    requires t.at == s.at && t.server.sent == msg.end && |t.conns| == |s.conns|
    requires t.conns[s.at].down == s.conns[s.at].down + [msg]
    requires forall m :: s.at < m < |s.conns| ==> t.conns[m] == s.conns[m]
    ensures AllCounted(t)
  {
    hide Counts;
    WriteCounts(s.conns[s.at].down, s.server.sent, msg);
  }

  lemma CountsReply(cfg: Config, s: State, x: Xid, res: Bytes)
    requires s.at < |s.conns| && AllCounted(s)
    ensures AllCounted(ServerReplied(cfg, s, x, res))
  {
    hide Keep, Counts;
    var t := ServerReplied(cfg, s, x, res);
    if s.server.eof {
      assert s.conns[s.at].down + [] == s.conns[s.at].down;
    } else {
      WriteCounted(s, t, Reply(x, res, s.server.sent + |res| + 4));
    }
  }

  lemma CountsRead(s: State)
    requires s.at < |s.conns| && s.conns[s.at].read < |s.conns[s.at].up| && AllCounted(s)
    ensures AllCounted(ServerRead(s))
  {
    hide Keep, Counts;
    var up := s.conns[s.at].up[s.conns[s.at].read];
    if up.Call? && up.x in s.server.rtab && s.server.rtab[up.x].Done? {
      WriteCounted(s, ServerRead(s), Reply(up.x, s.server.rtab[up.x].res, s.server.Replayed(up.x).sent));
    } else {
      assert s.conns[s.at].down + [] == s.conns[s.at].down;
    }
  }

  lemma CountsStep(cfg: Config, s: State, a: Step)
    requires Enabled(cfg, s, a) && AllCounted(s)
    ensures AllCounted(Next(cfg, s, a))
  {
    hide Keep, Counts, ServerReplied, ServerRead;
    NothingCounted();
    match a
    case ServerRecv => CountsRead(s);
    case ServerReply(x, res) => CountsReply(cfg, s, x, res);
    case SendRevCall(k, len) => WriteCounted(s, Next(cfg, s, a), RevCall(k, s.server.sent + len + 4));
    case ResendRevCall(k, len) => WriteCounted(s, Next(cfg, s, a), RevCall(k, s.server.sent + len + 4));
    case _ =>
  }

  /** The server's offsets are byte positions in the stream it writes: a reply ends where the
      message before it ended, and the length of its frame further on. */
  lemma {:induction false} OffsetsCount(cfg: Config, b: seq<State>, a: seq<Step>, i: nat)
    requires Run(cfg, b, a) && i < |b|
    ensures AllCounted(b[i])
  {
    hide Enabled, Next, Counts;
    if i == 0 {
      assert AllCounted(Init()) by {
        NothingCounted();
      }
    } else {
      OffsetsCount(cfg, b, a, i - 1);
      CountsStep(cfg, b[i - 1], a[i - 1]);
    }
  }

  // ----- Acknowledgements

  /** A reverse call, sent for the first time on the server's connection, ended at `end`. */
  ghost predicate FirstSent(b: seq<State>, a: seq<Step>, i: nat, end: nat)
    requires |b| == |a| + 1 && i < |b|
  {
    exists j :: 0 <= j < i && a[j].SendRevCall? && b[j].at == b[i].at && b[j + 1].server.sent == end
  }

  /** The offset acknowledged changes only when the reply to a reverse call is read, and is then at
      least where that call ended; moving to another connection starts over. */
  lemma AckedStep(cfg: Config, s: State, a: Step)
    requires Enabled(cfg, s, a)
    ensures var t, c := Next(cfg, s, a), s.conns[s.at];
      if a.ServerResume? then t.server.acked == 0 && t.revs == map[]
      else
        && s.server.acked <= t.server.acked
        && (s.server.acked != t.server.acked ==>
              && a.ServerRecv? && c.up[c.read].RevReply? && c.up[c.read].k in s.revs
              && t.server.acked == s.revs[c.up[c.read].k])
        && (a.ServerRecv? && c.up[c.read].RevReply? && c.up[c.read].k in s.revs ==>
              s.revs[c.up[c.read].k] <= t.server.acked && c.up[c.read].k !in t.revs)
  {
    hide Keep;
  }

  lemma RevsStep(cfg: Config, s: State, a: Step, k: Xid)
    requires Enabled(cfg, s, a) && k in Next(cfg, s, a).revs
    ensures var t := Next(cfg, s, a);
      && t.at == s.at
      && if a.SendRevCall? && a.k == k then t.revs[k] == t.server.sent else k in s.revs && t.revs[k] == s.revs[k]
  {
    hide Keep;
  }

  /** The server forgets a call of its own exactly when it reads its reply, unless that does not decode
      and the call is kept, or moves on. */
  lemma ForgottenIff(cfg: Config, s: State, a: Step, k: Xid)
    requires Enabled(cfg, s, a) && k in s.revs
    ensures k !in Next(cfg, s, a).revs <==>
      var c := s.conns[s.at];
      || a.ServerResume?
      || ((a.ServerRecv? || a == ServerSkip(true)) && c.up[c.read] == RevReply(k))
  {
    hide Keep;
  }

  /** A side is at the end of its connection from when it finds it broken until it moves on ... */
  lemma EofStep(cfg: Config, s: State, a: Step)
    requires Enabled(cfg, s, a)
    ensures var t := Next(cfg, s, a);
      && (t.client.eof <==> !a.PreResume? && (s.client.eof || a.ClientEof? || (a.PostResume? && a.n < |s.client.calls|)))
      && (t.server.eof <==> !a.ServerResume? && (s.server.eof || a.ServerEof?))
      && (t.client.resuming <==> a.PreResume? || (s.client.resuming && !a.PostResume?))
  {
    hide Keep;
  }

  /** ... and then neither reads nor writes on it. */
  lemma EofSilent(cfg: Config, s: State, a: Step)
    requires Enabled(cfg, s, a)
    ensures var t, n := Next(cfg, s, a), |s.conns| - 1;
      && (s.client.eof ==> t.conns[n].up == s.conns[n].up && t.conns[n].gotAt == s.conns[n].gotAt)
      && (s.server.eof ==> t.conns[s.at].down == s.conns[s.at].down && t.conns[s.at].read == s.conns[s.at].read)
  {
    hide Keep, Server.Replied, Server.Replayed, Server.Admitted, Server.Resumed;
    var n := |s.conns| - 1;
    assert s.conns[n].up + [] == s.conns[n].up && s.conns[s.at].down + [] == s.conns[s.at].down;
    if a.PostResume? && s.client.eof {
      assert CallsOf(s.client.calls[..0]) == [];
    } else if a.ServerRecv? || a.ServerSkip? {
      ServerApart(cfg, s, a);
    }
  }

  /** Reading, the server leaves alone what the client writes and reads. */
  lemma ServerApart(cfg: Config, s: State, a: Step)
    requires Enabled(cfg, s, a) && (a.ServerRecv? || a.ServerSkip?)
    ensures forall m :: 0 <= m < |s.conns| ==>
      var d := Next(cfg, s, a).conns[m]; d.up == s.conns[m].up && d.gotAt == s.conns[m].gotAt
  {
    hide Keep, Server.Replayed, Server.Admitted;
  }

  lemma MovedStep(cfg: Config, s: State, a: Step)
    requires Enabled(cfg, s, a)
    ensures Next(cfg, s, a).at == if a.ServerResume? then a.n else s.at
  {
    hide Keep;
  }

  lemma FirstSentStays(b: seq<State>, a: seq<Step>, i: nat, end: nat)
    requires |b| == |a| + 1 && i < |a| && b[i + 1].at == b[i].at && FirstSent(b, a, i, end)
    ensures FirstSent(b, a, i + 1, end)
  {
  }

  /** Only the end of a reverse call that was sent for the first time on the connection is ever
      acknowledged. */
  lemma {:induction false} AckedCalls(cfg: Config, b: seq<State>, a: seq<Step>, i: nat)
    requires Run(cfg, b, a) && i < |b|
    ensures forall k :: k in b[i].revs ==> FirstSent(b, a, i, b[i].revs[k])
    ensures 0 < b[i].server.acked ==> FirstSent(b, a, i, b[i].server.acked)
  {
    hide Enabled, Next, FirstSent;
    if i != 0 {
      var s, t, step := b[i - 1], b[i], a[i - 1];
      AckedCalls(cfg, b, a, i - 1);
      MovedStep(cfg, s, step);
      AckedStep(cfg, s, step);
      forall k | k in t.revs
        ensures FirstSent(b, a, i, t.revs[k])
      {
        RevsStep(cfg, s, step, k);
        if step.SendRevCall? && step.k == k {
          SentNow(b, a, i - 1);
        } else {
          FirstSentStays(b, a, i - 1, t.revs[k]);
        }
      }
      if 0 < t.server.acked {
        FirstSentStays(b, a, i - 1, t.server.acked);
      }
    }
  }

  lemma SentNow(b: seq<State>, a: seq<Step>, i: nat)
    requires |b| == |a| + 1 && i < |a| && a[i].SendRevCall? && b[i + 1].at == b[i].at
    ensures FirstSent(b, a, i + 1, b[i + 1].server.sent)
  {
  }

  // ----- How much the server keeps

  /** Having answered, the server keeps no reply that ends before what the client acknowledged, unless
      replies of earlier connections remain. */
  lemma AnsweredKeeps(cfg: Config, s: State, x: Xid, res: Bytes, y: Xid)
    requires Enabled(cfg, s, ServerReply(x, res))
    ensures var t, u := ServerReplied(cfg, s, x, res).server, s.server.Answered(x, res);
      && (y in t.rtab ==> y in u.rtab && t.rtab[y] == u.rtab[y])
      && (t.Cached(y) && (forall z :: u.Cached(z) ==> u.rtab[z].offset > 0) ==>
            t.acked <= t.rtab[y].offset && (0 < cfg.sndbufsz ==> t.sent - cfg.sndbufsz <= t.rtab[y].offset))
      && (y in u.rtab && y !in t.rtab ==>
            u.Cached(y) && (u.rtab[y].offset < u.acked || (0 < cfg.sndbufsz && u.rtab[y].offset < u.sent - cfg.sndbufsz)))
  {
    hide Keep;
    var u := s.server.Answered(x, res);
    if forall z :: u.Cached(z) ==> u.rtab[z].offset > 0 {
      assert u.Leftovers() == {};
    }
  }

  /** Having read a call it did not know, the server keeps exactly the calls it knew, but for the
      replies of earlier connections. */
  lemma AdmittedKeeps(cfg: Config, s: State, x: Xid, y: Xid)
    requires Enabled(cfg, s, ServerRecv) && s.conns[s.at].up[s.conns[s.at].read] == Call(x) && x !in s.server.rtab && x != y
    ensures var t := ServerRead(s).server;
      && (y in t.rtab <==> y in s.server.rtab && !(s.server.Cached(y) && s.server.rtab[y].offset == 0))
      && (y in t.rtab ==> t.rtab[y] == s.server.rtab[y])
  {
    hide Keep;
  }
}
