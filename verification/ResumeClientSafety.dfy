/**
 Every step of the client keeps the protocol invariant.
 */
module ResumeClientSafety {
  import opened Octets
  import opened ReplayCache
  import opened ResumableServer
  import opened ResumeProtocol

  lemma InitStream()
    ensures StreamInv(map[], [], [FreshConn], 0)
  {
  }

  lemma InitServer()
    ensures ServerInv(FreshConn, Server(map[], [], 0, 0, false), map[])
  {
  }

  lemma InitInv()
    ensures Inv(Init())
  {
    hide StreamInv, ServerInv;
    InitStream();
    InitServer();
  }

  // ----- What the client does leaves the server's side intact

  /** The client has written to, and read from, the connection. */
  ghost predicate Grows(c: Conn, d: Conn) {
    && d.read == c.read && d.down == c.down
    && c.up <= d.up && c.gotAt <= d.gotAt
    && c.kept <= d.kept && (forall j :: j in d.kept ==> j in c.kept || |c.gotAt| <= j)
  }

  ghost predicate AllGrow(conns: seq<Conn>, conns': seq<Conn>) {
    && |conns| <= |conns'|
    && (forall m :: 0 <= m < |conns| ==> Grows(conns[m], conns'[m]))
    && (forall m :: |conns| <= m < |conns'| ==> conns'[m] == FreshConn)
  }

  lemma ServerUnmoved(c: Conn, d: Conn, server: Server, revs: map<Xid, nat>)
    requires ServerInv(c, server, revs) && WellFormed(c) && Grows(c, d)
    ensures ServerInv(d, server, revs)
  {
    assert forall x :: SentIn(d.up, 0, d.read, x) ==> SentIn(c.up, 0, c.read, x);
    if 0 < server.acked {
      var i :| 0 <= i < |c.down| && c.down[i].end == server.acked && Confirmed(c, i) && Clear(c, i);
      assert Confirmed(d, i) && Clear(d, i);
    }
  }

  lemma LogUnmoved(conns: seq<Conn>, conns': seq<Conn>, at: nat, executed: seq<Xid>)
    requires Logged(conns, at, executed) && Shape(conns, at) && AllGrow(conns, conns')
    ensures Logged(conns', at, executed)
  {
    forall m, x | 0 <= m < |conns|
      ensures SentIn(conns'[m].up, 0, conns'[m].read, x) <==> SentIn(conns[m].up, 0, conns[m].read, x)
    {
    }
    forall x | x in executed
      ensures exists m :: 0 <= m <= at && m < |conns'| && SentIn(conns'[m].up, 0, conns'[m].read, x)
    {
      var m :| 0 <= m <= at && m < |conns| && SentIn(conns[m].up, 0, conns[m].read, x);
      assert SentIn(conns'[m].up, 0, conns'[m].read, x);
    }
  }

  /** What a client step has to establish. */
  lemma ClientFrame(s: State, client: Client, conns: seq<Conn>)
    requires Inv(s) && AllGrow(s.conns, conns)
    requires StreamInv(client.ord, client.calls, conns, s.at) && Current(client, conns[|conns| - 1].up)
    requires forall x :: x in s.executed && Coming(client.calls, conns, s.at, x) ==> Coming(s.client.calls, s.conns, s.at, x)
    requires forall x :: x in client.accepted ==> x in s.results && s.results[x] == client.accepted[x]
    ensures Inv(s.(client := client, conns := conns))
  {
    hide WellFormed, Numbered, InOrder, Complete, Current, Answers, Settled, Known, Coming, Logged, ServerInv, Agreed;
    ServerUnmoved(s.conns[s.at], conns[s.at], s.server, s.revs);
    LogUnmoved(s.conns, conns, s.at, s.executed);
    AgreedUnmoved(s, client, conns);
  }

  lemma AgreedUnmoved(s: State, client: Client, conns: seq<Conn>)
    requires Agreed(s) && AllGrow(s.conns, conns)
    requires forall x :: x in client.accepted ==> x in s.results && s.results[x] == client.accepted[x]
    ensures Agreed(s.(client := client, conns := conns))
  {
    assert forall m :: 0 <= m < |conns| ==> Genuine(conns[m].down, s.results);
  }

  // ----- Steps of the client

  lemma {:induction false} KeepIncreasing(q: seq<Xid>, dead: set<Xid>, ord: map<Xid, nat>)
    requires forall i :: 0 <= i < |q| ==> q[i] in ord
    requires forall i, j :: 0 <= i < j < |q| ==> ord[q[i]] < ord[q[j]]
    ensures forall i :: 0 <= i < |Keep(q, dead)| ==> Keep(q, dead)[i] in q && Keep(q, dead)[i] in ord
    ensures forall i, j :: 0 <= i < j < |Keep(q, dead)| ==> ord[Keep(q, dead)[i]] < ord[Keep(q, dead)[j]]
  {
    if q != [] {
      KeepIncreasing(q[1..], dead, ord);
      var rest := Keep(q[1..], dead);
      assert forall i :: 0 <= i < |rest| ==> rest[i] in q[1..];
      assert Keep(q, dead) == if q[0] in dead then rest else [q[0]] + rest;
    }
  }

  lemma KeepOrdered(q: seq<Xid>, dead: set<Xid>, ord: map<Xid, nat>)
    requires Numbered(ord, q)
    ensures Numbered(ord, Keep(q, dead))
    ensures forall x :: x in Keep(q, dead) <==> x in q && x !in dead
  {
    KeepMembers(q, dead);
    KeepIncreasing(q, dead, ord);
    hide Keep;
    assert forall x :: x in Keep(q, dead) <==> x in Elements(q) - dead;
  }

  lemma FewerCalls(ord: map<Xid, nat>, calls: seq<Xid>, conns: seq<Conn>, at: nat, x: Xid)
    requires StreamInv(ord, calls, conns, at)
    ensures StreamInv(ord, Keep(calls, {x}), conns, at)
    ensures forall y :: y in Keep(calls, {x}) <==> y in calls && y != x
    ensures forall m, y :: Wanted(Keep(calls, {x}), conns, m, y) ==> Wanted(calls, conns, m, y)
  {
    KeepOrdered(calls, {x}, ord);
    var fewer := Keep(calls, {x});
    assert forall m, y :: Wanted(fewer, conns, m, y) ==> Wanted(calls, conns, m, y);
    assert Complete(ord, fewer, conns);
    assert Settled(fewer, conns);
  }

  lemma CancelledInv(s: State, x: Xid)
    requires Inv(s)
    ensures Inv(Cancelled(s, x))
  {
    hide WellFormed, Numbered, InOrder, Complete, Answers, Settled, Known, Offsets, Resent, Acks, Logged;
    FewerCalls(s.client.ord, s.client.calls, s.conns, s.at, x);
    assert AllGrow(s.conns, s.conns);
    ClientFrame(s, s.client.(calls := Keep(s.client.calls, {x})), s.conns);
  }

  lemma ClientEofInv(s: State)
    requires Inv(s)
    ensures Inv(s.(client := s.client.(eof := true)))
  {
    hide WellFormed, Numbered, InOrder, Complete, Answers, Settled, Known, Offsets, Resent, Acks, Logged;
    assert AllGrow(s.conns, s.conns);
    ClientFrame(s, s.client.(eof := true), s.conns);
  }

  lemma FreshWanted(calls: seq<Xid>, conns: seq<Conn>)
    ensures forall m, y :: Wanted(calls, conns + [FreshConn], m, y) == Wanted(calls, conns, m, y)
  {
    var more := conns + [FreshConn];
    assert forall m :: 0 <= m < |conns| ==> more[m] == conns[m];
    forall m, y
      ensures Wanted(calls, more, m, y) == Wanted(calls, conns, m, y)
    {
      if y !in calls && Wanted(calls, conns, m, y) {
        var n :| m < n < |conns| && 0 <= n && Sent(conns[n], y);
        assert Sent(more[n], y);
      }
    }
  }

  lemma FreshStream(ord: map<Xid, nat>, calls: seq<Xid>, conns: seq<Conn>, at: nat)
    requires StreamInv(ord, calls, conns, at)
    ensures StreamInv(ord, calls, conns + [FreshConn], at)
    ensures forall m, y :: Wanted(calls, conns + [FreshConn], m, y) == Wanted(calls, conns, m, y)
  {
    hide Wanted, Numbered;
    var more := conns + [FreshConn];
    assert forall m :: 0 <= m < |conns| ==> more[m] == conns[m];
    FreshWanted(calls, conns);
    assert Complete(ord, calls, more);
    assert Settled(calls, more);
  }

  lemma PreResumedInv(s: State)
    requires Inv(s)
    ensures Inv(PreResumed(s))
  {
    FreshStream(s.client.ord, s.client.calls, s.conns, s.at);
    ClientFrame(s, s.client.(resuming := true, eof := false), s.conns + [FreshConn]);
  }

  /** A new call has the highest number, and has never been sent. */
  lemma NewCall(ord: map<Xid, nat>, calls: seq<Xid>, conns: seq<Conn>, at: nat, x: Xid)
    requires StreamInv(ord, calls, conns, at) && x !in ord
    ensures StreamInv(ord[x := |ord|], calls + [x], conns, at)
    ensures forall m, y :: Wanted(calls + [x], conns, m, y) ==> y == x || Wanted(calls, conns, m, y)
  {
    var ord', calls' := ord[x := |ord|], calls + [x];
    assert forall m, y :: Wanted(calls', conns, m, y) ==> y == x || Wanted(calls, conns, m, y);
    assert |ord'| == |ord| + 1;
    assert Complete(ord', calls', conns);
    assert Settled(calls', conns);
  }

  /** The client's connection after it has written `msgs`. */
  function Written(conns: seq<Conn>, msgs: seq<Up>): seq<Conn>
    requires conns != []
  {
    var n := |conns| - 1;
    conns[n := conns[n].(up := conns[n].up + msgs)]
  }

  /** Sending outstanding calls makes no call wanted that was not. */
  lemma WrittenWanted(calls: seq<Xid>, conns: seq<Conn>, msgs: seq<Up>)
    requires conns != []
    requires forall j :: 0 <= j < |msgs| && msgs[j].Call? ==> msgs[j].x in calls
    ensures forall m, y :: Wanted(calls, Written(conns, msgs), m, y) ==> Wanted(calls, conns, m, y)
  {
    var n, conns' := |conns| - 1, Written(conns, msgs);
    forall m, y | Wanted(calls, conns', m, y) && y !in calls
      ensures Wanted(calls, conns, m, y)
    {
      var k :| m < k < |conns'| && 0 <= k && Sent(conns'[k], y);
      assert Sent(conns[k], y);
    }
  }

  /** Calls sent oldest first, after all older outstanding ones, keep the streams in order. */
  lemma SendCalls(ord: map<Xid, nat>, calls: seq<Xid>, conns: seq<Conn>, at: nat, msgs: seq<Up>)
    requires StreamInv(ord, calls, conns, at)
    requires forall j :: 0 <= j < |msgs| ==> msgs[j].Call? && msgs[j].x in calls && msgs[j].x in ord
    requires forall i, j :: 0 <= i < j < |msgs| ==> ord[msgs[i].x] < ord[msgs[j].x]
    requires var up := conns[|conns| - 1].up;
             && (forall i, j :: 0 <= i < |up| && up[i].Call? && 0 <= j < |msgs| ==> ord[up[i].x] < ord[msgs[j].x])
             && (forall j, x :: 0 <= j < |msgs| && x in calls && ord[x] < ord[msgs[j].x] ==>
                                  SentIn(up + msgs, 0, |up| + j, x))
    ensures StreamInv(ord, calls, Written(conns, msgs), at)
  {
    hide Complete, Settled, Known, Answers;
    var n, conns' := |conns| - 1, Written(conns, msgs);
    assert InOrder(ord, conns'[n].up);
    assert forall m :: 0 <= m < n ==> conns'[m] == conns[m];
    WrittenWanted(calls, conns, msgs);
    SendComplete(ord, calls, conns, msgs);
    SendSettled(calls, conns, msgs);
    AnswersKept(conns[n], msgs);
  }

  lemma AnswersKept(c: Conn, msgs: seq<Up>)
    requires Answers(c)
    requires forall j :: 0 <= j < |msgs| && msgs[j].RevReply? ==> ReadBy(c, msgs[j].k, |c.up| + j)
    ensures Answers(c.(up := c.up + msgs))
  {
    var d := c.(up := c.up + msgs);
    forall j | 0 <= j < |d.up| && d.up[j].RevReply?
      ensures ReadBy(d, d.up[j].k, j)
    {
      assert ReadBy(c, d.up[j].k, j);
    }
  }

  lemma SendComplete(ord: map<Xid, nat>, calls: seq<Xid>, conns: seq<Conn>, msgs: seq<Up>)
    requires conns != [] && Ordered(ord, conns) && Ordered(ord, Written(conns, msgs)) && Complete(ord, calls, conns)
    requires forall m, y :: Wanted(calls, Written(conns, msgs), m, y) ==> Wanted(calls, conns, m, y)
    requires forall j :: 0 <= j < |msgs| && msgs[j].Call? ==> msgs[j].x in ord
    requires var up := conns[|conns| - 1].up;
             forall j, x :: 0 <= j < |msgs| && msgs[j].Call? && x in calls && x in ord && ord[x] < ord[msgs[j].x] ==>
                              SentIn(up + msgs, 0, |up| + j, x)
    ensures Complete(ord, calls, Written(conns, msgs))
  {
    var n, conns' := |conns| - 1, Written(conns, msgs);
    var up := conns[n].up;
    forall m, j, x | 0 <= m < |conns'| && 0 <= j < |conns'[m].up| && conns'[m].up[j].Call?
                     && x in ord && ord[x] < ord[conns'[m].up[j].x] && Wanted(calls, conns', m, x)
      ensures SentIn(conns'[m].up, 0, j, x)
    {
      if m == n && |up| <= j {
        assert conns'[m].up[j] == msgs[j - |up|];
        assert SentIn(up + msgs, 0, |up| + (j - |up|), x);
      } else {
        assert conns'[m].up[j] == conns[m].up[j];
        assert SentIn(conns[m].up, 0, j, x);
        var i :| 0 <= i < j && i < |conns[m].up| && conns[m].up[i] == Call(x);
        assert conns'[m].up[i] == Call(x);
      }
    }
  }

  lemma SendSettled(calls: seq<Xid>, conns: seq<Conn>, msgs: seq<Up>)
    requires conns != [] && Settled(calls, conns)
    requires forall m :: 0 <= m < |conns| ==> WellFormed(conns[m])
    requires forall j :: 0 <= j < |msgs| && msgs[j].Call? ==> msgs[j].x in calls
    ensures Settled(calls, Written(conns, msgs))
  {
    var n, conns' := |conns| - 1, Written(conns, msgs);
    WrittenWanted(calls, conns, msgs);
    forall m, i: nat | 0 <= m < |conns'| && Taken(conns'[m], i)
      ensures !Wanted(calls, conns', m, conns'[m].down[i].x)
      ensures !SentIn(conns'[m].up, conns'[m].gotAt[i], |conns'[m].up|, conns'[m].down[i].x)
    {
      assert Taken(conns[m], i);
      assert !Wanted(calls, conns, m, conns[m].down[i].x);
    }
  }

  lemma NotExecuted(s: State, x: Xid)
    requires Inv(s) && x !in s.client.ord
    ensures x !in s.executed
  {
  }

  lemma WrittenComing(calls': seq<Xid>, calls: seq<Xid>, conns: seq<Conn>, at: nat, msgs: seq<Up>, x: Xid)
    requires at < |conns| && Coming(calls', Written(conns, msgs), at, x)
    requires forall j :: 0 <= j < |msgs| && msgs[j].Call? ==> msgs[j].x in calls'
    requires x in calls' ==> x in calls
    ensures Coming(calls, conns, at, x)
  {
    var conns' := Written(conns, msgs);
    WrittenWanted(calls', conns, msgs);
    if !Wanted(calls', conns', at, x) {
      var j :| conns[at].read <= j < |conns'[at].up| && conns'[at].up[j] == Call(x);
      assert j < |conns[at].up| ==> conns[at].up[j] == Call(x);
    }
  }

  lemma SentMore(up: seq<Up>, msgs: seq<Up>, x: Xid)
    requires SentIn(up, 0, |up|, x)
    ensures SentIn(up + msgs, 0, |up + msgs|, x)
  {
    var j :| 0 <= j < |up| && up[j] == Call(x);
    assert (up + msgs)[j] == Call(x);
  }

  /** Writing messages is a client step when the streams stay in order. */
  lemma WriteFrame(s: State, client: Client, msgs: seq<Up>)
    requires Inv(s)
    requires StreamInv(client.ord, client.calls, Written(s.conns, msgs), s.at)
    requires Current(client, s.conns[|s.conns| - 1].up + msgs) && client.accepted == s.client.accepted
    requires forall j :: 0 <= j < |msgs| && msgs[j].Call? ==> msgs[j].x in client.calls
    requires forall x :: x in client.calls && x in s.executed ==> x in s.client.calls
    ensures Inv(s.(client := client, conns := Written(s.conns, msgs)))
  {
    hide Current, WellFormed, Numbered, InOrder, Complete, Answers, Settled, Known, Offsets, Resent, Acks, Logged, Remembered;
    forall x | x in s.executed && Coming(client.calls, Written(s.conns, msgs), s.at, x)
      ensures Coming(s.client.calls, s.conns, s.at, x)
    {
      WrittenComing(client.calls, s.client.calls, s.conns, s.at, msgs, x);
    }
    ClientFrame(s, client, Written(s.conns, msgs));
  }

  lemma IssuedStream(ord: map<Xid, nat>, calls: seq<Xid>, conns: seq<Conn>, at: nat, x: Xid)
    requires StreamInv(ord, calls, conns, at) && x !in ord
    requires var up := conns[|conns| - 1].up; forall y :: y in calls ==> SentIn(up, 0, |up|, y)
    ensures StreamInv(ord[x := |ord|], calls + [x], Written(conns, [Call(x)]), at)
  {
    hide Complete, Settled, Answers, Known;
    IssuedAfter(ord, calls, conns[|conns| - 1].up, x);
    NewCall(ord, calls, conns, at, x);
    hide StreamInv;
    SendCalls(ord[x := |ord|], calls + [x], conns, at, [Call(x)]);
  }

  /** A new call is sent after all others, and all outstanding ones are sent by then. */
  lemma IssuedAfter(ord: map<Xid, nat>, calls: seq<Xid>, up: seq<Up>, x: Xid)
    requires Numbered(ord, calls) && InOrder(ord, up) && x !in ord
    requires forall y :: y in calls ==> SentIn(up, 0, |up|, y)
    ensures var ord' := ord[x := |ord|];
      && (forall i :: 0 <= i < |up| && up[i].Call? ==> up[i].x in ord' && ord'[up[i].x] < ord'[x])
      && (forall y :: y in calls + [x] ==> y in ord' && (ord'[y] < ord'[x] ==> SentIn(up + [Call(x)], 0, |up|, y)))
  {
    forall y | y in calls
      ensures SentIn(up + [Call(x)], 0, |up|, y)
    {
      var i :| 0 <= i < |up| && up[i] == Call(y);
      assert (up + [Call(x)])[i] == Call(y);
    }
  }

  lemma IssuedCurrent(client: Client, up: seq<Up>, x: Xid, msgs: seq<Up>)
    requires Current(client, up) && !client.resuming
    requires msgs == if client.eof then [] else [Call(x)]
    ensures Current(client.(calls := client.calls + [x], ord := client.ord[x := |client.ord|]), up + msgs)
  {
    if !client.eof {
      assert (up + msgs)[|up|] == Call(x);
      forall y | y in client.calls
        ensures SentIn(up + msgs, 0, |up + msgs|, y)
      {
        SentMore(up, msgs, y);
      }
    }
  }

  lemma IssuedInv(s: State, x: Xid)
    requires Inv(s) && x !in s.client.ord && !s.client.resuming
    ensures Inv(Issued(s, x))
  {
    hide WellFormed, Numbered, InOrder, Complete, Answers, Settled, Known, Offsets, Resent, Acks, Logged, Remembered, Agreed;
    var c := s.client;
    var client := c.(calls := c.calls + [x], ord := c.ord[x := |c.ord|]);
    var msgs := if c.eof then [] else [Call(x)];
    if c.eof {
      NewCall(c.ord, c.calls, s.conns, s.at, x);
      assert s.conns[|s.conns| - 1].up + [] == s.conns[|s.conns| - 1].up;
      assert Written(s.conns, msgs) == s.conns;
    } else {
      IssuedStream(c.ord, c.calls, s.conns, s.at, x);
    }
    IssuedCurrent(c, s.conns[|s.conns| - 1].up, x, msgs);
    NotExecuted(s, x);
    WriteFrame(s, client, msgs);
  }

  lemma ResentStream(ord: map<Xid, nat>, calls: seq<Xid>, conns: seq<Conn>, at: nat, n: nat)
    requires StreamInv(ord, calls, conns, at) && n <= |calls|
    requires var up := conns[|conns| - 1].up; forall j :: 0 <= j < |up| ==> !up[j].Call?
    ensures StreamInv(ord, calls, Written(conns, CallsOf(calls[..n])), at)
  {
    var up, msgs := conns[|conns| - 1].up, CallsOf(calls[..n]);
    assert forall j :: 0 <= j < n ==> msgs[j] == Call(calls[j]);
    forall j, y | 0 <= j < |msgs| && y in calls && ord[y] < ord[msgs[j].x]
      ensures SentIn(up + msgs, 0, |up| + j, y)
    {
      var i :| 0 <= i < |calls| && calls[i] == y;
      assert i < j && (up + msgs)[|up| + i] == Call(y);
    }
    SendCalls(ord, calls, conns, at, msgs);
  }

  lemma ResentCurrent(client: Client, up: seq<Up>, n: nat)
    requires n <= |client.calls|
    ensures Current(client.(resuming := false, eof := client.eof || n < |client.calls|), up + CallsOf(client.calls[..n]))
  {
    if n == |client.calls| {
      forall y | y in client.calls
        ensures var all := up + CallsOf(client.calls[..n]); SentIn(all, 0, |all|, y)
      {
        var i :| 0 <= i < |client.calls| && client.calls[i] == y;
        assert (up + CallsOf(client.calls[..n]))[|up| + i] == Call(y);
      }
    }
  }

  lemma PostResumedInv(s: State, n: nat)
    requires Inv(s) && s.client.resuming && n <= |s.client.calls|
    ensures Inv(PostResumed(s, n))
  {
    hide WellFormed, Numbered, InOrder, Complete, Answers, Settled, Known, Offsets, Resent, Acks, Logged, Remembered, Agreed;
    var c := s.client;
    ResentStream(c.ord, c.calls, s.conns, s.at, n);
    ResentCurrent(c, s.conns[|s.conns| - 1].up, n);
    WriteFrame(s, c.(resuming := false, eof := c.eof || n < |c.calls|), CallsOf(c.calls[..n]));
  }

  lemma RevRepliedStream(ord: map<Xid, nat>, calls: seq<Xid>, conns: seq<Conn>, at: nat, k: Xid)
    requires StreamInv(ord, calls, conns, at) && Heard(conns[|conns| - 1], k, true)
    ensures StreamInv(ord, calls, Written(conns, [RevReply(k)]), at)
  {
    var n, msgs := |conns| - 1, [RevReply(k)];
    hide Complete, Settled, Known, Answers;
    var conns' := Written(conns, msgs);
    assert InOrder(ord, conns'[n].up);
    assert forall m :: 0 <= m < n ==> conns'[m] == conns[m];
    WrittenWanted(calls, conns, msgs);
    SendComplete(ord, calls, conns, msgs);
    SendSettled(calls, conns, msgs);
    assert ReadBy(conns[n], k, |conns[n].up|);
    AnswersKept(conns[n], msgs);
  }

  lemma RevRepliedInv(s: State, k: Xid)
    requires Inv(s) && Heard(s.conns[|s.conns| - 1], k, true)
    ensures Inv(WriteUp(s, [RevReply(k)]))
  {
    hide WellFormed, Numbered, InOrder, Complete, Answers, Settled, Known, Offsets, Resent, Acks, Logged, Remembered, Agreed;
    RevRepliedStream(s.client.ord, s.client.calls, s.conns, s.at, k);
    var up := s.conns[|s.conns| - 1].up;
    forall x | x in s.client.calls && SentIn(up, 0, |up|, x)
      ensures SentIn(up + [RevReply(k)], 0, |up + [RevReply(k)]|, x)
    {
      SentMore(up, [RevReply(k)], x);
    }
    WriteFrame(s, s.client, [RevReply(k)]);
  }

  /** The client's connection after it has read one more message. */
  function Got(conns: seq<Conn>, keep: bool): seq<Conn>
    requires conns != []
  {
    var n := |conns| - 1;
    var c := conns[n];
    conns[n := c.(gotAt := c.gotAt + [|c.up|], kept := if keep then c.kept + {|c.gotAt|} else c.kept)]
  }

  lemma GotWanted(calls: seq<Xid>, conns: seq<Conn>, keep: bool)
    requires conns != []
    ensures forall m, y :: Wanted(calls, Got(conns, keep), m, y) ==> Wanted(calls, conns, m, y)
  {
    forall m, y | Wanted(calls, Got(conns, keep), m, y) && y !in calls
      ensures Wanted(calls, conns, m, y)
    {
      var k :| m < k < |conns| && 0 <= k && Sent(Got(conns, keep)[k], y);
      assert Sent(conns[k], y);
    }
  }

  /** The next message of the client is no reply to an outstanding call, unless the call is kept. */
  ghost predicate Takes(calls: seq<Xid>, c: Conn, keep: bool) {
    && |c.gotAt| < |c.down|
    && (c.down[|c.gotAt|].Reply? && !keep ==> c.down[|c.gotAt|].x !in calls)
  }

  lemma GotSettled(calls: seq<Xid>, conns: seq<Conn>, keep: bool)
    requires conns != [] && Settled(calls, conns) && Takes(calls, conns[|conns| - 1], keep)
    ensures Settled(calls, Got(conns, keep))
  {
    var n, conns' := |conns| - 1, Got(conns, keep);
    GotWanted(calls, conns, keep);
    forall m, i: nat | 0 <= m < |conns'| && Taken(conns'[m], i)
      ensures !Wanted(calls, conns', m, conns'[m].down[i].x)
      ensures !SentIn(conns'[m].up, conns'[m].gotAt[i], |conns'[m].up|, conns'[m].down[i].x)
    {
      if m != n || i < |conns[n].gotAt| {
        assert conns[m].down[i] == conns'[m].down[i] && conns[m].gotAt[i] == conns'[m].gotAt[i];
        assert Taken(conns[m], i);
      }
    }
  }

  lemma GotAnswers(c: Conn, d: Conn)
    requires Answers(c) && Grows(c, d) && d.up == c.up
    ensures Answers(d)
  {
    forall j | 0 <= j < |d.up| && d.up[j].RevReply?
      ensures ReadBy(d, d.up[j].k, j)
    {
      var k := d.up[j].k;
      assert ReadBy(c, k, j);
      var i :| 0 <= i < |c.gotAt| && i < |c.down| && c.down[i].RevCall? && c.down[i].k == k && c.gotAt[i] <= j && Clear(c, i);
      assert Clear(d, i);
    }
  }

  lemma GotStream(ord: map<Xid, nat>, calls: seq<Xid>, conns: seq<Conn>, at: nat, keep: bool)
    requires StreamInv(ord, calls, conns, at) && Takes(calls, conns[|conns| - 1], keep)
    ensures StreamInv(ord, calls, Got(conns, keep), at)
  {
    hide Settled, Known, Numbered, InOrder, Answers;
    var n, conns' := |conns| - 1, Got(conns, keep);
    GotWanted(calls, conns, keep);
    GotSettled(calls, conns, keep);
    assert forall m :: 0 <= m < |conns| ==> conns'[m].up == conns[m].up;
    assert Complete(ord, calls, conns');
    GotAnswers(conns[n], conns'[n]);
  }

  lemma GotFrame(s: State, client: Client, keep: bool)
    requires Inv(s) && |s.conns[|s.conns| - 1].gotAt| < |s.conns[|s.conns| - 1].down|
    requires StreamInv(client.ord, client.calls, Got(s.conns, keep), s.at)
    requires Current(client, s.conns[|s.conns| - 1].up)
    requires forall y :: y in client.calls ==> y in s.client.calls
    requires forall x :: x in client.accepted ==> x in s.results && s.results[x] == client.accepted[x]
    ensures Inv(s.(client := client, conns := Got(s.conns, keep)))
  {
    hide Current, WellFormed, Numbered, InOrder, Complete, Answers, Settled, Known, Offsets, Resent, Acks, Logged, Remembered, Agreed;
    GotWanted(client.calls, s.conns, keep);
    assert AllGrow(s.conns, Got(s.conns, keep));
    ClientFrame(s, client, Got(s.conns, keep));
  }

  lemma ClientReadInv(s: State)
    requires Inv(s) && |s.conns[|s.conns| - 1].gotAt| < |s.conns[|s.conns| - 1].down|
    ensures Inv(ClientRead(s))
  {
    hide WellFormed, Numbered, InOrder, Complete, Answers, Settled, Known, Offsets, Resent, Acks, Logged, Remembered;
    var c := s.conns[|s.conns| - 1];
    var msg := c.down[|c.gotAt|];
    if msg.Reply? && msg.x in s.client.calls {
      FewerCalls(s.client.ord, s.client.calls, s.conns, s.at, msg.x);
      var calls := Keep(s.client.calls, {msg.x});
      GotStream(s.client.ord, calls, s.conns, s.at, false);
      assert Genuine(c.down, s.results);
      GotFrame(s, s.client.(calls := calls, accepted := s.client.accepted[msg.x := msg.res]), false);
    } else {
      GotStream(s.client.ord, s.client.calls, s.conns, s.at, false);
      GotFrame(s, s.client, false);
    }
  }

  /** A reply whose call is kept settles nothing. */
  lemma ClientKeptInv(s: State)
    requires Inv(s) && |s.conns[|s.conns| - 1].gotAt| < |s.conns[|s.conns| - 1].down|
    ensures Inv(ClientKept(s))
  {
    hide WellFormed, Numbered, InOrder, Complete, Answers, Settled, Known, Offsets, Resent, Acks, Logged, Remembered, Agreed;
    GotStream(s.client.ord, s.client.calls, s.conns, s.at, true);
    AcceptedKnown(s);
    GotFrame(s, s.client, true);
  }

  lemma AcceptedKnown(s: State)
    requires Agreed(s)
    ensures forall x :: x in s.client.accepted ==> x in s.results && s.results[x] == s.client.accepted[x]
  {
  }
}
