/**
 Every step of the server keeps the protocol invariant; in particular, whatever it evicts
 from its replay cache cannot arrive again.
 */
module ResumeServerSafety {
  import opened Octets
  import opened ReplayCache
  import opened ResumableServer
  import opened ResumeProtocol

  // ----- The streams do not depend on what the server has read or written

  lemma ServerWanted(calls: seq<Xid>, conns: seq<Conn>, at: nat, d: Conn)
    requires at < |conns| && d.up == conns[at].up
    ensures forall m, y :: Wanted(calls, conns[at := d], m, y) <==> Wanted(calls, conns, m, y)
  {
    var conns' := conns[at := d];
    forall m, y
      ensures Wanted(calls, conns', m, y) <==> Wanted(calls, conns, m, y)
    {
      if y !in calls && Wanted(calls, conns', m, y) {
        var k :| m < k < |conns'| && 0 <= k && Sent(conns'[k], y);
        assert Sent(conns[k], y);
      }
      if y !in calls && Wanted(calls, conns, m, y) {
        var k :| m < k < |conns| && 0 <= k && Sent(conns[k], y);
        assert Sent(conns'[k], y);
      }
    }
  }

  /** The server has read up to `read` and written `msgs`. */
  ghost predicate Serves(c: Conn, d: Conn, msgs: seq<Down>) {
    && d.up == c.up && d.gotAt == c.gotAt && d.kept == c.kept
    && c.read <= d.read <= |c.up|
    && d.down == c.down + msgs
  }

  lemma ServedStream(ord: map<Xid, nat>, calls: seq<Xid>, conns: seq<Conn>, at: nat, d: Conn, msgs: seq<Down>)
    requires StreamInv(ord, calls, conns, at) && Serves(conns[at], d, msgs) && Known(ord, msgs)
    ensures StreamInv(ord, calls, conns[at := d], at)
  {
    hide Numbered, InOrder;
    var conns' := conns[at := d];
    ServerWanted(calls, conns, at, d);
    assert forall m :: 0 <= m < |conns| ==> conns'[m].up == conns[m].up;
    assert Complete(ord, calls, conns');
    forall j | 0 <= j < |d.up| && d.up[j].RevReply?
      ensures ReadBy(d, d.up[j].k, j)
    {
      assert Answers(conns[at]) && ReadBy(conns[at], d.up[j].k, j);
    }
    assert Known(ord, conns[at].down);
    assert WellFormed(conns[at]);
    forall m, i: nat | 0 <= m < |conns'| && Taken(conns'[m], i)
      ensures Taken(conns[m], i) && conns'[m].down[i] == conns[m].down[i]
    {
      assert WellFormed(conns[m]);
    }
  }

  /** Reading moves a copy from the coming ones to the dispatched ones. */
  lemma ServedComing(calls: seq<Xid>, conns: seq<Conn>, at: nat, d: Conn, msgs: seq<Down>, y: Xid)
    requires at < |conns| && Serves(conns[at], d, msgs)
    requires Coming(calls, conns[at := d], at, y)
    ensures Coming(calls, conns, at, y)
  {
    ServerWanted(calls, conns, at, d);
  }

  /** Each message the server has read was a call now logged. */
  lemma ServedLog(conns: seq<Conn>, at: nat, executed: seq<Xid>, d: Conn, msgs: seq<Down>, executed': seq<Xid>)
    requires at < |conns| && Logged(conns, at, executed) && Serves(conns[at], d, msgs)
    requires executed <= executed' && Distinct(executed')
    requires forall j :: conns[at].read <= j < d.read && d.up[j].Call? ==> d.up[j].x in executed'
    requires forall i :: |executed| <= i < |executed'| ==> SentIn(d.up, 0, d.read, executed'[i])
    ensures Logged(conns[at := d], at, executed')
  {
    var conns' := conns[at := d];
    forall x | x in executed'
      ensures exists m :: 0 <= m <= at && m < |conns'| && SentIn(conns'[m].up, 0, conns'[m].read, x)
    {
      if x in executed {
        var m :| 0 <= m <= at && m < |conns| && SentIn(conns[m].up, 0, conns[m].read, x);
        assert SentIn(conns'[m].up, 0, conns'[m].read, x);
      } else {
        assert SentIn(conns'[at].up, 0, conns'[at].read, x);
      }
    }
    forall m, x | 0 <= m <= at && m < |conns'| && SentIn(conns'[m].up, 0, conns'[m].read, x)
      ensures x in executed'
    {
      var j :| 0 <= j < conns'[m].read && j < |conns'[m].up| && conns'[m].up[j] == Call(x);
      if m != at || j < conns[at].read {
        assert SentIn(conns[m].up, 0, conns[m].read, x);
        assert x in executed;
      }
    }
  }

  lemma InvShape(s: State)
    requires Inv(s)
    ensures s.at < |s.conns| && WellFormed(s.conns[s.at])
  {
    hide Ordered, Complete, Answers, Settled, Known, ServerInv, Logged, Remembered, Agreed, Current;
  }

  /** What a server step has to establish. */
  lemma ServerFrame(s: State, d: Conn, msgs: seq<Down>, server: Server, revs: map<Xid, nat>,
                    executed: seq<Xid>, results: map<Xid, Bytes>)
    requires Inv(s) && Serves(s.conns[s.at], d, msgs)
    requires Known(s.client.ord, msgs) && Genuine(msgs, results)
    requires ServerInv(d, server, revs)
    requires Logged(s.conns[s.at := d], s.at, executed)
    requires forall x :: x in server.rtab ==> x in executed
    requires forall x :: x in executed && Coming(s.client.calls, s.conns[s.at := d], s.at, x) ==> x in server.rtab
    requires forall x :: x in results ==> x in executed
    requires forall x :: x in s.results ==> x in results && results[x] == s.results[x]
    requires forall x :: x in server.rtab ==>
                           if server.rtab[x].Pending? then x !in results
                           else x in results && results[x] == server.rtab[x].res
    ensures Inv(s.(conns := s.conns[s.at := d], server := server, revs := revs, executed := executed, results := results))
  {
    hide StreamInv, Known, Logged, Current, Coming, ServerInv, Agreed, Genuine, Remembered;
    InvShape(s);
    ServedStream(s.client.ord, s.client.calls, s.conns, s.at, d, msgs);
    ServedAgreed(s, d, msgs, server, revs, executed, results);
    ServedRemembered(s, d, server, revs, executed, results);
    assert s.conns[s.at := d][|s.conns| - 1].up == s.conns[|s.conns| - 1].up;
  }

  lemma ServedRemembered(s: State, d: Conn, server: Server, revs: map<Xid, nat>, executed: seq<Xid>, results: map<Xid, Bytes>)
    requires s.at < |s.conns|
    requires forall x :: x in server.rtab ==> x in executed
    requires forall x :: x in executed && Coming(s.client.calls, s.conns[s.at := d], s.at, x) ==> x in server.rtab
    ensures Remembered(s.(conns := s.conns[s.at := d], server := server, revs := revs, executed := executed, results := results))
  {
    hide Coming;
  }

  /** Replies written by the server are results, like all those before. */
  lemma ServedAgreed(s: State, d: Conn, msgs: seq<Down>, server: Server, revs: map<Xid, nat>,
                     executed: seq<Xid>, results: map<Xid, Bytes>)
    requires Agreed(s) && s.at < |s.conns| && Serves(s.conns[s.at], d, msgs) && Genuine(msgs, results)
    requires forall x :: x in results ==> x in executed
    requires forall x :: x in s.results ==> x in results && results[x] == s.results[x]
    requires forall x :: x in server.rtab ==>
                           if server.rtab[x].Pending? then x !in results
                           else x in results && results[x] == server.rtab[x].res
    ensures Agreed(s.(conns := s.conns[s.at := d], server := server, revs := revs, executed := executed, results := results))
  {
    var conns := s.conns[s.at := d];
    forall m | 0 <= m < |conns|
      ensures Genuine(conns[m].down, results)
    {
      assert Genuine(s.conns[m].down, s.results);
    }
  }

  // ----- Evicting leftovers is safe

  /** When a call the table misses is next, no leftover can arrive again. */
  lemma LeftoverGone(s: State, x: Xid, y: Xid)
    requires Inv(s) && !s.server.eof
    requires var c := s.conns[s.at]; c.read < |c.up| && c.up[c.read] == Call(x)
    requires x !in s.server.rtab && y in s.server.Leftovers()
    ensures !Coming(s.client.calls, s.conns, s.at, y)
  {
    hide Offsets, Answers, Acks, Settled, Known, Agreed;
    var c, ord := s.conns[s.at], s.client.ord;
    assert SentIn(c.up, c.read, |c.up|, x);
    assert x !in s.executed;
    assert s.server.Cached(y) && y in s.executed && !SentIn(c.up, 0, c.read, y);
    assert InOrder(ord, c.up) && x in ord;
    var m :| 0 <= m <= s.at && m < |s.conns| && SentIn(s.conns[m].up, 0, s.conns[m].read, y);
    assert InOrder(ord, s.conns[m].up) && y in ord;
    if ord[x] < ord[y] {
      OlderRead(s, m, x, y);
    }
    assert Wanted(s.client.calls, s.conns, s.at, y) ==> SentIn(c.up, 0, c.read, y);
  }

  /** If a call newer than the next one was read, so was the next one: where the newer one
      was read, the older one came first. */
  lemma OlderRead(s: State, m: nat, x: Xid, y: Xid)
    requires Shape(s.conns, s.at) && Ordered(s.client.ord, s.conns) && Complete(s.client.ord, s.client.calls, s.conns)
    requires Logged(s.conns, s.at, s.executed) && x in s.client.ord && y in s.client.ord
    requires var c := s.conns[s.at]; c.read < |c.up| && c.up[c.read] == Call(x)
    requires m <= s.at && SentIn(s.conns[m].up, 0, s.conns[m].read, y)
    requires s.client.ord[x] < s.client.ord[y]
    ensures x in s.executed
  {
    var c, b := s.conns[s.at], s.conns[m];
    assert WellFormed(b) && InOrder(s.client.ord, c.up);
    var j :| 0 <= j < b.read && b.up[j] == Call(y);
    if m < s.at {
      assert Sent(c, x);
      assert Wanted(s.client.calls, s.conns, m, x);
      assert SentIn(b.up, 0, j, x);
      var i :| 0 <= i < j && b.up[i] == Call(x);
      assert SentIn(b.up, 0, b.read, x);
    }
  }

  // ----- Evicting acknowledged replies is safe

  /** Whatever was sent before the known-received mark is confirmed, and no call was kept. */
  lemma KnownConfirmed(cfg: Config, s: State, x: Xid, res: Bytes, i: nat)
    requires Shape(s.conns, s.at) && ServerInv(s.conns[s.at], s.server, s.revs)
    requires Drained(cfg, s, ServerReply(x, res))
    requires var c := s.conns[s.at];
             i < |c.down| && c.down[i].end < s.server.Answered(x, res).KnownReceived(cfg.sndbufsz)
    ensures Confirmed(s.conns[s.at], i) && i !in s.conns[s.at].kept
  {
    hide Resent;
    var c := s.conns[s.at];
    assert WellFormed(c);
    if c.down[i].end < s.server.acked {
      var k :| 0 <= k < |c.down| && c.down[k].end == s.server.acked && Confirmed(c, k) && Clear(c, k);
      assert i < k;
    }
  }

  /** No reply that is evicted as received belongs to a call that can arrive again. */
  lemma ReceivedGone(cfg: Config, s: State, x: Xid, res: Bytes, y: Xid)
    requires Inv(s) && Drained(cfg, s, ServerReply(x, res))
    requires x in s.server.rtab && s.server.rtab[x].Pending?
    requires var t := s.server.Answered(x, res); y in t.Received(t.KnownReceived(cfg.sndbufsz))
    ensures y != x && !Coming(s.client.calls, s.conns, s.at, y)
  {
    hide Numbered, InOrder, Complete, Answers, Known, Logged, Remembered, Agreed, Current;
    var c, t := s.conns[s.at], s.server.Answered(x, res);
    var known := t.KnownReceived(cfg.sndbufsz);
    assert known <= t.sent && y != x;
    assert s.server.Cached(y) && s.server.rtab[y] == t.rtab[y];
    assert y !in t.Leftovers() && 0 < s.server.rtab[y].offset < known;
    var i :| 0 <= i < |c.down| && c.down[i].Reply? && c.down[i].x == y && c.down[i].end <= s.server.rtab[y].offset;
    KnownConfirmed(cfg, s, x, res, i);
    assert WellFormed(c);
    assert Taken(c, i);
    assert !Wanted(s.client.calls, s.conns, s.at, c.down[i].x);
  }

  // ----- The steps

  /** A read message that dispatches nothing. */
  lemma ReadFrame(s: State, d: Conn, msgs: seq<Down>, server: Server, revs: map<Xid, nat>)
    requires Inv(s) && Serves(s.conns[s.at], d, msgs)
    requires Known(s.client.ord, msgs) && Genuine(msgs, s.results) && ServerInv(d, server, revs)
    requires forall j :: s.conns[s.at].read <= j < d.read && d.up[j].Call? ==> d.up[j].x in s.executed
    requires server.rtab.Keys == s.server.rtab.Keys
    requires forall x :: x in server.rtab ==>
                           if server.rtab[x].Pending? then s.server.rtab[x].Pending?
                           else s.server.rtab[x].Done? && s.server.rtab[x].res == server.rtab[x].res
    ensures Inv(s.(conns := s.conns[s.at := d], server := server, revs := revs))
  {
    hide Numbered, InOrder, Complete, Answers, Settled, Known, Offsets, Resent, Acks, Current;
    ServedLog(s.conns, s.at, s.executed, d, msgs, s.executed);
    forall y | y in s.executed && Coming(s.client.calls, s.conns[s.at := d], s.at, y)
      ensures y in server.rtab
    {
      ServedComing(s.client.calls, s.conns, s.at, d, msgs, y);
    }
    ServerFrame(s, d, msgs, server, revs, s.executed, s.results);
  }

  lemma ReplayedInv(s: State, x: Xid)
    requires Inv(s) && !s.server.eof && x in s.server.rtab
    requires var c := s.conns[s.at]; c.read < |c.up| && c.up[c.read] == Call(x)
    ensures Inv(ServerRead(s))
  {
    hide StreamInv, ServerInv, Logged, Current, WellFormed, Server.Valid;
    InvShape(s);
    var c, r, e := s.conns[s.at], s.server.Replayed(x), s.server.rtab[x];
    var msgs := if e.Done? then [Reply(x, e.res, r.sent)] else [];
    var d := c.(read := c.read + 1, down := c.down + msgs);
    ReplayedServer(c, s.server, s.revs, x, d, msgs);
    ExecutedKnown(s, x);
    ReadFrame(s, d, msgs, r, s.revs);
    assert ServerRead(s).conns == s.conns[s.at := d];
  }

  lemma ExecutedKnown(s: State, x: Xid)
    requires Inv(s) && x in s.executed
    ensures x in s.client.ord
  {
    hide Complete, Answers, Settled, Offsets, Resent, Acks;
    var m :| 0 <= m <= s.at && m < |s.conns| && SentIn(s.conns[m].up, 0, s.conns[m].read, x);
    assert InOrder(s.client.ord, s.conns[m].up);
  }

  lemma ReplayedServer(c: Conn, server: Server, revs: map<Xid, nat>, x: Xid, d: Conn, msgs: seq<Down>)
    requires ServerInv(c, server, revs) && WellFormed(c) && !server.eof && x in server.rtab
    requires c.read < |c.up| && c.up[c.read] == Call(x)
    requires msgs == if server.rtab[x].Done? then [Reply(x, server.rtab[x].res, server.Replayed(x).sent)] else []
    requires d == c.(read := c.read + 1, down := c.down + msgs)
    ensures ServerInv(d, server.Replayed(x), revs)
  {
    hide Acks;
    ReplayedValid(server, x);
    AcksKept(c, revs, server.acked, d, msgs);
    var r := server.Replayed(x);
    forall y | r.Cached(y)
      ensures if r.rtab[y].offset == 0 then !SentIn(d.up, 0, d.read, y) else ReplyBy(d.down, y, r.rtab[y].offset)
    {
      if y == x {
        assert d.down[|c.down|] == msgs[0];
      } else {
        assert server.Cached(y);
        if server.rtab[y].offset != 0 {
          ReplyKept(c.down, msgs, y, server.rtab[y].offset);
        }
      }
    }
  }

  lemma ReplyKept(d: seq<Down>, msgs: seq<Down>, y: Xid, end: nat)
    requires ReplyBy(d, y, end)
    ensures ReplyBy(d + msgs, y, end)
  {
    var i :| 0 <= i < |d| && d[i].Reply? && d[i].x == y && d[i].end <= end;
    assert (d + msgs)[i] == d[i];
  }

  lemma AcksKept(c: Conn, revs: map<Xid, nat>, acked: nat, d: Conn, msgs: seq<Down>)
    requires Acks(c, revs, acked) && Serves(c, d, msgs)
    requires forall i :: 0 <= i < |msgs| ==> msgs[i].Reply?
    ensures Acks(d, revs, acked)
  {
    forall k | k in revs
      ensures CallAt(d.down, k, revs[k])
    {
      var i :| 0 <= i < |c.down| && c.down[i] == RevCall(k, revs[k]);
      assert d.down[i] == c.down[i];
    }
    if 0 < acked {
      var i :| 0 <= i < |c.down| && c.down[i].end == acked && Confirmed(c, i) && Clear(c, i);
      assert d.down[i] == c.down[i] && Confirmed(d, i) && Clear(d, i);
    }
  }

  lemma AdmittedServer(c: Conn, server: Server, revs: map<Xid, nat>, x: Xid, d: Conn)
    requires ServerInv(c, server, revs) && WellFormed(c) && !server.eof && x !in server.rtab
    requires c.read < |c.up| && c.up[c.read] == Call(x) && d == c.(read := c.read + 1)
    ensures ServerInv(d, server.Admitted(x), revs)
  {
    hide Acks;
    AdmittedValid(server, x);
    AcksKept(c, revs, server.acked, d, []);
    var r := server.Admitted(x);
    forall y | r.Cached(y)
      ensures r.rtab[y].offset != 0 && ReplyBy(d.down, y, r.rtab[y].offset)
    {
      assert server.Cached(y) && y !in server.Leftovers();
    }
  }

  /** A call the table misses has not been dispatched before. */
  lemma MissedNew(s: State, x: Xid)
    requires Inv(s) && x !in s.server.rtab
    requires var c := s.conns[s.at]; c.read < |c.up| && c.up[c.read] == Call(x)
    ensures x !in s.executed
  {
    hide StreamInv, ServerInv, Logged, Current, Agreed;
    InvShape(s);
    var c := s.conns[s.at];
    assert SentIn(c.up, c.read, |c.up|, x);
    assert Coming(s.client.calls, s.conns, s.at, x);
  }

  lemma AdmittedLog(conns: seq<Conn>, at: nat, executed: seq<Xid>, x: Xid, d: Conn)
    requires at < |conns| && Logged(conns, at, executed) && WellFormed(conns[at]) && x !in executed
    requires var c := conns[at]; c.read < |c.up| && c.up[c.read] == Call(x) && d == c.(read := c.read + 1)
    ensures Serves(conns[at], d, []) && Logged(conns[at := d], at, executed + [x])
  {
    assert d.down == conns[at].down + [];
    assert SentIn(d.up, 0, d.read, x);
    assert Distinct(executed) && Distinct(executed + [x]);
    hide Logged;
    ServedLog(conns, at, executed, d, [], executed + [x]);
  }

  lemma AdmittedInv(s: State, x: Xid)
    requires Inv(s) && !s.server.eof && x !in s.server.rtab
    requires var c := s.conns[s.at]; c.read < |c.up| && c.up[c.read] == Call(x)
    ensures x !in s.executed && Inv(ServerRead(s))
  {
    hide StreamInv, ServerInv, Logged, Current, Coming, Server.Valid, WellFormed, Serves;
    InvShape(s);
    MissedNew(s, x);
    var c, r := s.conns[s.at], s.server.Admitted(x);
    var d := c.(read := c.read + 1);
    AdmittedServer(c, s.server, s.revs, x, d);
    AdmittedLog(s.conns, s.at, s.executed, x, d);
    forall y | y in s.executed + [x] && Coming(s.client.calls, s.conns[s.at := d], s.at, y)
      ensures y in r.rtab
    {
      AdmittedRemembers(s, x, d, y);
    }
    ServerFrame(s, d, [], r, s.revs, s.executed + [x], s.results);
  }

  lemma AdmittedRemembers(s: State, x: Xid, d: Conn, y: Xid)
    requires Inv(s) && !s.server.eof && x !in s.server.rtab
    requires var c := s.conns[s.at]; c.read < |c.up| && c.up[c.read] == Call(x) && d == c.(read := c.read + 1)
    requires y in s.executed + [x] && Coming(s.client.calls, s.conns[s.at := d], s.at, y)
    ensures y in s.server.Admitted(x).rtab
  {
    hide StreamInv, ServerInv, Logged, Current, Coming, Agreed;
    InvShape(s);
    assert d.down == s.conns[s.at].down + [];
    if y != x {
      ServedComing(s.client.calls, s.conns, s.at, d, [], y);
      if y in s.server.Leftovers() {
        LeftoverGone(s, x, y);
      }
    }
  }

  lemma CreditedServer(c: Conn, server: Server, revs: map<Xid, nat>, k: Xid, d: Conn)
    requires ServerInv(c, server, revs) && WellFormed(c) && Answers(c) && k in revs
    requires c.read < |c.up| && c.up[c.read] == RevReply(k) && d == c.(read := c.read + 1)
    ensures ServerInv(d, server.(acked := if server.acked < revs[k] then revs[k] else server.acked), revs - {k})
  {
    assert d.down == c.down + [];
    AcksKept(c, revs, server.acked, d, []);
    var i :| 0 <= i < |c.down| && c.down[i] == RevCall(k, revs[k]);
    assert ReadBy(c, k, c.read);
    assert Confirmed(d, i);
    assert AckedAt(d, revs[k]);
    assert forall y :: SentIn(d.up, 0, d.read, y) ==> SentIn(c.up, 0, c.read, y);
    var r := server.(acked := if server.acked < revs[k] then revs[k] else server.acked);
    assert forall y :: r.Cached(y) <==> server.Cached(y);
  }

  lemma UncreditedServer(c: Conn, server: Server, revs: map<Xid, nat>, k: Xid, d: Conn)
    requires ServerInv(c, server, revs) && WellFormed(c)
    requires c.read < |c.up| && c.up[c.read] == RevReply(k) && d == c.(read := c.read + 1)
    ensures ServerInv(d, server, revs)
  {
    hide Acks, Offsets, Server.Valid;
    assert d.down == c.down + [];
    AcksKept(c, revs, server.acked, d, []);
    assert forall y :: SentIn(d.up, 0, d.read, y) ==> SentIn(c.up, 0, c.read, y);
  }

  lemma InvAnswers(s: State)
    requires Inv(s)
    ensures s.at < |s.conns| && Answers(s.conns[s.at])
  {
    hide Ordered, Complete, Answers, Settled, Known, ServerInv, Logged, Remembered, Agreed, Current;
  }

  lemma CreditedInv(s: State, k: Xid)
    requires Inv(s) && !s.server.eof
    requires var c := s.conns[s.at]; c.read < |c.up| && c.up[c.read] == RevReply(k)
    ensures Inv(ServerRead(s))
  {
    hide StreamInv, ServerInv, Logged, Remembered, Agreed, Current, WellFormed;
    InvShape(s);
    InvAnswers(s);
    var c, t := s.conns[s.at], ServerRead(s);
    var d := c.(read := c.read + 1);
    assert d.down == c.down + [];
    if k in s.revs {
      CreditedServer(c, s.server, s.revs, k, d);
    } else {
      UncreditedServer(c, s.server, s.revs, k, d);
    }
    ReadFrame(s, d, [], t.server, t.revs);
  }

  /** A reply to the server's own call that does not decode. */
  lemma ServerSkippedInv(s: State, forget: bool)
    requires Inv(s)
    requires var c := s.conns[s.at]; c.read < |c.up| && c.up[c.read].RevReply?
    ensures Inv(ServerSkipped(s, forget))
  {
    hide StreamInv, ServerInv, Logged, Remembered, Agreed, Current, WellFormed;
    InvShape(s);
    var c := s.conns[s.at];
    var d := c.(read := c.read + 1);
    assert d.down == c.down + [];
    UncreditedServer(c, s.server, s.revs, c.up[c.read].k, d);
    Forgets(d, s.server, s.revs, c.up[c.read].k);
    ReadFrame(s, d, [], s.server, ServerSkipped(s, forget).revs);
  }

  lemma Forgets(c: Conn, server: Server, revs: map<Xid, nat>, k: Xid)
    requires ServerInv(c, server, revs)
    ensures ServerInv(c, server, revs - {k})
  {
    hide Server.Valid, Offsets, Resent, AckedAt;
  }

  lemma ServerReadInv(s: State)
    requires s.at < |s.conns| && s.conns[s.at].read < |s.conns[s.at].up|
    requires Inv(s) && !s.server.eof
    ensures Inv(ServerRead(s))
  {
    hide Inv;
    match s.conns[s.at].up[s.conns[s.at].read]
    case RevReply(k) => CreditedInv(s, k);
    case Call(x) =>
      if x in s.server.rtab {
        ReplayedInv(s, x);
      } else {
        AdmittedInv(s, x);
      }
  }

  lemma RepliedServer(c: Conn, server: Server, revs: map<Xid, nat>, x: Xid, res: Bytes, sndbufsz: int,
                      d: Conn, msgs: seq<Down>)
    requires ServerInv(c, server, revs) && WellFormed(c) && x in server.rtab && server.rtab[x].Pending?
    requires msgs == if server.eof then [] else [Reply(x, res, server.sent + |res| + 4)]
    requires d == c.(down := c.down + msgs)
    ensures ServerInv(d, server.Replied(x, res, sndbufsz), revs)
  {
    hide Acks;
    RepliedValid(server, x, res, sndbufsz);
    AcksKept(c, revs, server.acked, d, msgs);
    var r := server.Replied(x, res, sndbufsz);
    forall y | r.Cached(y)
      ensures if r.rtab[y].offset == 0 then r.eof || !SentIn(d.up, 0, d.read, y)
              else (r.eof && r.rtab[y].offset == r.sent) || ReplyBy(d.down, y, r.rtab[y].offset)
    {
      if y == x {
        assert !server.eof ==> d.down[|c.down|] == msgs[0];
      } else {
        assert server.Cached(y) && r.rtab[y] == server.rtab[y];
        if ReplyBy(c.down, y, server.rtab[y].offset) {
          ReplyKept(c.down, msgs, y, server.rtab[y].offset);
        }
      }
    }
  }

  lemma RepliedRemembered(cfg: Config, s: State, x: Xid, res: Bytes, y: Xid)
    requires Inv(s) && Drained(cfg, s, ServerReply(x, res))
    requires x in s.server.rtab && s.server.rtab[x].Pending?
    requires y in s.executed && Coming(s.client.calls, s.conns, s.at, y)
    ensures y in s.server.Replied(x, res, cfg.sndbufsz).rtab
  {
    hide StreamInv, ServerInv, Logged, Agreed, Current, Drained;
    var t := s.server.Answered(x, res);
    if y in t.Received(t.KnownReceived(cfg.sndbufsz)) {
      ReceivedGone(cfg, s, x, res, y);
    }
  }

  lemma RepliedAgreed(s: State, x: Xid, res: Bytes, sndbufsz: int)
    requires Agreed(s) && x in s.server.rtab && s.server.rtab[x].Pending?
    ensures var r, results := s.server.Replied(x, res, sndbufsz), s.results[x := res];
            forall y :: y in r.rtab ==>
                          && y in s.server.rtab
                          && (if r.rtab[y].Pending? then y !in results
                              else y in results && results[y] == r.rtab[y].res)
  {
  }

  /** The reply is logged and remembered like everything before it. */
  lemma RepliedLog(cfg: Config, s: State, x: Xid, res: Bytes, d: Conn, msgs: seq<Down>)
    requires Inv(s) && Drained(cfg, s, ServerReply(x, res))
    requires x in s.server.rtab && s.server.rtab[x].Pending?
    requires d == s.conns[s.at].(down := s.conns[s.at].down + msgs)
    ensures Logged(s.conns[s.at := d], s.at, s.executed) && x in s.client.ord
    ensures forall y :: y in s.executed && Coming(s.client.calls, s.conns[s.at := d], s.at, y) ==>
                          y in s.server.Replied(x, res, cfg.sndbufsz).rtab
  {
    hide Numbered, InOrder, Complete, Answers, Settled, Offsets, Resent, Acks, Current, Drained, Agreed;
    hide Server.Valid, Server.Received, Server.Replied;
    ServedLog(s.conns, s.at, s.executed, d, msgs, s.executed);
    ExecutedKnown(s, x);
    forall y | y in s.executed && Coming(s.client.calls, s.conns[s.at := d], s.at, y)
      ensures y in s.server.Replied(x, res, cfg.sndbufsz).rtab
    {
      ServedComing(s.client.calls, s.conns, s.at, d, msgs, y);
      RepliedRemembered(cfg, s, x, res, y);
    }
  }

  lemma ServerRepliedInv(cfg: Config, s: State, x: Xid, res: Bytes)
    requires Inv(s) && Drained(cfg, s, ServerReply(x, res))
    requires x in s.server.rtab && s.server.rtab[x].Pending?
    ensures Inv(ServerReplied(cfg, s, x, res))
  {
    hide StreamInv, ServerInv, Current, Drained, Logged, Coming;
    hide Server.Valid, Server.Received, Server.Replied;
    InvShape(s);
    var c, r := s.conns[s.at], s.server.Replied(x, res, cfg.sndbufsz);
    var msgs := if s.server.eof then [] else [Reply(x, res, s.server.sent + |res| + 4)];
    var d := c.(down := c.down + msgs);
    RepliedServer(c, s.server, s.revs, x, res, cfg.sndbufsz, d, msgs);
    RepliedLog(cfg, s, x, res, d, msgs);
    RepliedAgreed(s, x, res, cfg.sndbufsz);
    ExecutedKnown(s, x);
    ServerFrame(s, d, msgs, r, s.revs, s.executed, s.results[x := res]);
  }

  lemma RevCalledAcks(c: Conn, revs: map<Xid, nat>, acked: nat, k: Xid, end: nat, d: Conn)
    requires Acks(c, revs, acked) && WellFormed(c) && d == c.(down := c.down + [RevCall(k, end)])
    requires Unused(c.down, k)
    ensures Acks(d, revs[k := end], acked) && Acks(d, revs, acked)
  {
    assert d.down[|c.down|] == RevCall(k, end);
    forall j | j in revs
      ensures CallAt(d.down, j, revs[j])
    {
      var i :| 0 <= i < |c.down| && c.down[i] == RevCall(j, revs[j]);
      assert d.down[i] == c.down[i];
    }
    if 0 < acked {
      var i :| 0 <= i < |c.down| && c.down[i].end == acked && Confirmed(c, i) && Clear(c, i);
      assert d.down[i] == c.down[i] && Confirmed(d, i) && Clear(d, i);
    }
  }

  lemma RevCalledServer(c: Conn, server: Server, revs: map<Xid, nat>, k: Xid, len: nat, d: Conn)
    requires ServerInv(c, server, revs) && WellFormed(c) && !server.eof
    requires Unused(c.down, k)
    requires d == c.(down := c.down + [RevCall(k, server.sent + len + 4)])
    ensures ServerInv(d, server.(sent := server.sent + len + 4), revs[k := server.sent + len + 4])
    ensures ServerInv(d, server.(sent := server.sent + len + 4), revs)
  {
    var end, msgs := server.sent + len + 4, [RevCall(k, server.sent + len + 4)];
    var r := server.(sent := end);
    RevCalledAcks(c, revs, server.acked, k, end, d);
    hide Acks;
    forall y | r.Cached(y)
      ensures r.rtab[y].offset != 0 ==> ReplyBy(d.down, y, r.rtab[y].offset)
    {
      assert server.Cached(y);
      if r.rtab[y].offset != 0 {
        ReplyKept(c.down, msgs, y, r.rtab[y].offset);
      }
    }
  }

  lemma RevCalledInv(s: State, k: Xid, len: nat)
    requires Inv(s) && !s.server.eof
    requires Unused(s.conns[s.at].down, k)
    ensures Inv(RevCalled(s, k, len))
  {
    hide Numbered, InOrder, Complete, Answers, Settled, Offsets, Resent, Acks, Logged, Remembered, Agreed, Current;
    var c, end := s.conns[s.at], s.server.sent + len + 4;
    var d := c.(down := c.down + [RevCall(k, end)]);
    RevCalledServer(c, s.server, s.revs, k, len, d);
    ReadFrame(s, d, [RevCall(k, end)], s.server.(sent := end), s.revs[k := end]);
  }

  /** A call of the server sent again, whose reply does not count. */
  lemma RevResentInv(s: State, k: Xid, len: nat)
    requires Inv(s) && !s.server.eof && Unused(s.conns[s.at].down, k)
    ensures Inv(RevResent(s, k, len))
  {
    hide Numbered, InOrder, Complete, Answers, Settled, Offsets, Resent, Acks, Logged, Remembered, Agreed, Current;
    var c, end := s.conns[s.at], s.server.sent + len + 4;
    var d := c.(down := c.down + [RevCall(k, end)]);
    RevCalledServer(c, s.server, s.revs, k, len, d);
    ReadFrame(s, d, [RevCall(k, end)], s.server.(sent := end), s.revs);
  }

  lemma ServerEofInv(s: State)
    requires Inv(s)
    ensures Inv(s.(server := s.server.(eof := true)))
  {
    hide Numbered, InOrder, Complete, Answers, Settled, Offsets, Acks, Logged, Current;
  }

  lemma MovedServer(c: Conn, server: Server)
    requires server.Valid() && c.read == 0 && c.down == []
    ensures ServerInv(c, server.Resumed(), map[])
  {
    ResumedValid(server);
    assert forall x :: OffsetOf(server.Resumed().rtab, x) == 0;
  }

  lemma ServerMovedInv(s: State, n: nat)
    requires Inv(s) && s.at < n < |s.conns|
    ensures Inv(ServerMoved(s, n))
  {
    hide Numbered, InOrder, Complete, Answers, Settled, Current, Offsets, Resent, Acks, Logged;
    MovedServer(s.conns[n], s.server);
    MovedLog(s.conns, s.at, n, s.executed);
    forall x | x in s.executed && Coming(s.client.calls, s.conns, n, x)
      ensures x in s.server.rtab
    {
      assert Sent(s.conns[n], x) ==> Wanted(s.client.calls, s.conns, s.at, x);
      assert Coming(s.client.calls, s.conns, s.at, x);
    }
  }

  lemma MovedLog(conns: seq<Conn>, at: nat, n: nat, executed: seq<Xid>)
    requires Logged(conns, at, executed) && Shape(conns, at) && at < n < |conns|
    ensures Logged(conns, n, executed)
  {
    forall m, x | 0 <= m <= n && SentIn(conns[m].up, 0, conns[m].read, x)
      ensures x in executed
    {
      assert m <= at;
    }
  }
}
