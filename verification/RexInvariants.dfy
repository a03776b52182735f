/**
 What every step of a REX session keeps: one connection attempt at a time, exact client
 counts, and no request lost or answered twice.
 */
module RexInvariants {
  import opened RexSession

  // ----- The books

  /** Rex requests in a queue, all or the resumable ones only. */
  function Rexes(q: seq<Req>, res: bool): nat {
    if q == [] then 0
    else (if q[0].rex && (res ==> q[0].resumable) then 1 else 0) + Rexes(q[1..], res)
  }

  function Ids(q: seq<Req>): multiset<nat> {
    if q == [] then multiset{} else multiset{q[0].id} + Ids(q[1..])
  }

  /** The identities of all requests taken so far, once each. */
  function AllIds(n: nat): multiset<nat> {
    if n == 0 then multiset{} else AllIds(n - 1) + multiset{n - 1}
  }

  lemma {:induction false} AllIdsCount(n: nat, id: nat)
    ensures AllIds(n)[id] == if id < n then 1 else 0
  {
    if n != 0 {
      AllIdsCount(n - 1, id);
    }
  }

  /** Answered clients not yet dead, resumable ones only. */
  function ResumableIds(answered: map<nat, bool>): set<nat> {
    set id | id in answered && answered[id]
  }

  /** With `p` and `q` the requests still to answer: the counters are exact, every request
      taken is either there or answered, once, and no sequence number was used twice. */
  ghost predicate Books(b: Book, p: seq<Req>, q: seq<Req>) {
    && b.clients == Rexes(p, false) + Rexes(q, false) + |b.answered|
    && b.resumableClients == Rexes(p, true) + Rexes(q, true) + |ResumableIds(b.answered)|
    && AllTaken(Ids(p) + Ids(q), b.done, b.taken)
    && (forall id :: id in b.answered ==> id in b.done)
    && Fresh(b.issued, b.seqno)
  }

  /** The requests queued and those answered are all those taken, each once. */
  ghost predicate AllTaken(ids: multiset<nat>, done: seq<nat>, taken: nat) {
    ids + multiset(done) == AllIds(taken)
  }

  /** Sequence numbers are used from 1 on, one after another. */
  ghost predicate Fresh(issued: seq<Grant>, seqno: nat) {
    seqno == |issued| + 1 && (forall i :: 0 <= i < |issued| ==> issued[i].seqno == i + 1)
  }

  lemma HeadIds(r: Req, p: seq<Req>)
    ensures Ids([r] + p) == multiset{r.id} + Ids(p)
    ensures forall res :: Rexes([r] + p, res) == (if r.rex && (res ==> r.resumable) then 1 else 0) + Rexes(p, res)
  {
    assert ([r] + p)[1..] == p;
  }

  /** A request not yet answered has not been accepted. */
  lemma NotAnswered(b: Book, r: Req, p: seq<Req>, q: seq<Req>)
    requires Books(b, [r] + p, q)
    ensures r.id !in b.answered
  {
    HeadIds(r, p);
    AllIdsCount(b.taken, r.id);
    assert (Ids([r] + p) + Ids(q) + multiset(b.done))[r.id] <= 1;
    assert r.id !in multiset(b.done);
  }

  lemma FinishBooks(b: Book, r: Req, p: seq<Req>, q: seq<Req>, error: bool)
    requires Books(b, [r] + p, q)
    ensures Books(b.Finish(r, error), p, q)
    ensures r.rex ==> b.clients > 0 && (r.resumable ==> b.resumableClients > 0)
  {
    hide Rexes, Ids, AllIds, Fresh;
    HeadIds(r, p);
    assert multiset(b.done + [r.id]) == multiset(b.done) + multiset{r.id};
    assert forall id :: id in b.done ==> id in b.done + [r.id];
    if r.rex && !error {
      NotAnswered(b, r, p, q);
      OneMore(b.answered, r.id, r.resumable);
      assert r.id in b.done + [r.id];
      IssueFresh(b, ToClient(b.seqno, r.id));
    }
  }

  lemma OneMore(answered: map<nat, bool>, id: nat, res: bool)
    requires id !in answered
    ensures |answered[id := res]| == |answered| + 1
    ensures |ResumableIds(answered[id := res])| == |ResumableIds(answered)| + if res then 1 else 0
  {
    assert ResumableIds(answered[id := res]) == ResumableIds(answered) + if res then {id} else {};
  }

  lemma IssueFresh(b: Book, g: Grant)
    requires Fresh(b.issued, b.seqno) && g.seqno == b.seqno
    ensures Fresh(b.issued + [g], b.seqno + 1)
  {
  }

  /** Answering the requests `p` leaves `keep` and `q` to answer. */
  lemma {:induction false} FinishKeeping(b: Book, keep: seq<Req>, p: seq<Req>, q: seq<Req>, error: bool)
    requires Books(b, p + keep, q)
    ensures var t := b.FinishAll(p, error);
            && Books(t, keep, q)
            && if error then t.answered == b.answered && t.clients <= b.clients else t.clients == b.clients
    decreases |p|
  {
    hide Books;
    if p == [] {
      assert p + keep == keep;
    } else {
      assert p + keep == [p[0]] + (p[1..] + keep);
      FinishBooks(b, p[0], p[1..] + keep, q, error);
      FinishKeeping(b.Finish(p[0], error), keep, p[1..], q, error);
    }
  }

  lemma FinishAllBooks(b: Book, p: seq<Req>, q: seq<Req>, error: bool)
    requires Books(b, p, q)
    ensures var t := b.FinishAll(p, error);
            && Books(t, [], q)
            && if error then t.answered == b.answered && t.clients <= b.clients else t.clients == b.clients
  {
    assert p + [] == p;
    FinishKeeping(b, [], p, q, error);
  }

  lemma {:induction false} BlockingSplits(q: seq<Req>, res: bool)
    ensures Rexes(q, res) == Rexes(Blocking(q, true), res) + Rexes(Blocking(q, false), res)
    ensures Ids(q) == Ids(Blocking(q, true)) + Ids(Blocking(q, false))
  {
    if q != [] {
      hide Rexes, Ids;
      var h, rest := q[0], q[1..];
      BlockingSplits(rest, res);
      HeadIds(h, rest);
      assert q == [h] + rest;
      assert Blocking(q, h.block) == [h] + Blocking(rest, h.block);
      assert Blocking(q, !h.block) == Blocking(rest, !h.block);
      HeadIds(h, Blocking(rest, h.block));
      SumIds(h.id, Ids(Blocking(rest, h.block)), Ids(Blocking(rest, !h.block)));
      assert h.block || !h.block;
    }
  }

  lemma SumIds(id: nat, m: multiset<nat>, n: multiset<nat>)
    ensures multiset{id} + (m + n) == multiset{id} + m + n && multiset{id} + (n + m) == n + (multiset{id} + m)
    ensures multiset{id} + (m + n) == n + (multiset{id} + m)
  {
  }

  // ----- The session

  function One(b: bool): nat {
    if b then 1 else 0
  }

  /** At most one connection attempt is under way. */
  predicate Exclusive(s: Session) {
    One(s.backoffcb) + One(s.conpending) + One(s.rcpending) + One(s.cbase != NoCall) + One(s.resumepending) <= 1
  }

  predicate Linked(s: Session) {
    && Exclusive(s)
    && (!s.Connecting() ==> s.sess)
    && (s.sess || s.cbase != NoCall ==> s.sessconn)
    && (s.rcpending || s.resumepending || s.probecall || s.afpending ==> s.sess)
    && (s.cbase == SpawnCall || s.conpending ==> !s.sess)
    && s.retryDelay <= 3600
  }

  /** Outside connection attempts, a queued request has a probe, or an agent channel in
      the making, to wait for. */
  predicate Waiting(s: Session) {
    && (!s.Connecting() && s.reqs != [] ==> s.probecall)
    && (!s.Connecting() && s.afreqs != [] ==> s.afpending)
    && (s.agentforwarded ==> s.afreqs == [])
  }

  ghost predicate Counted(s: Session) {
    && Books(s.book, s.reqs, s.afreqs)
    && (s.reaper ==> s.book.clients == 0)
    && (s.book.answered != map[] ==> s.sess)
  }

  ghost predicate Inv(s: Session) {
    && Books(s.book, s.reqs, s.afreqs)
    && (s.live ==> Linked(s) && Waiting(s) && Counted(s))
  }

  /** The invariant after a step that drops no request: a session that has died has
      answered them all. */
  ghost predicate Kept(s: Session) {
    Inv(s) && (s.live || s.reqs == s.afreqs == [])
  }

  /** Everything is answered with an error when a session fails. */
  lemma FailInv(s: Session)
    requires Books(s.book, s.reqs, s.afreqs)
    ensures Kept(s.Fail()) && !s.Fail().live
  {
    hide Books;
    FinishAllBooks(s.book, s.reqs, s.afreqs, true);
    var b := s.book.FinishAll(s.reqs, true);
    BooksSwap(b, [], s.afreqs);
    FinishAllBooks(b, s.afreqs, [], true);
  }

  lemma BooksSwap(b: Book, p: seq<Req>, q: seq<Req>)
    requires Books(b, p, q)
    ensures Books(b, q, p)
  {
    hide Fresh, Rexes, Ids, AllIds, ResumableIds;
  }

  /** Back in touch with the proxy: the waiting requests are answered, and forwarding the
      agent is started for those that want it. */
  lemma ActiveInv(s: Session)
    requires s.live && s.sess && s.sessconn && !s.Connecting() && s.retryDelay <= 3600
    requires Books(s.book, s.reqs, s.afreqs) && (s.reaper ==> s.book.clients == 0)
    requires s.agentforwarded ==> s.afreqs == []
    ensures Kept(s.AlertActive())
  {
    hide Books;
    FinishAllBooks(s.book, s.reqs, s.afreqs, false);
  }

  /** A failed attempt refuses the requests that do not wait. */
  lemma BadConnectBooks(s: Session)
    requires Books(s.book, s.reqs, s.afreqs)
    ensures var t := s.AlertBadConnect();
            && Books(t.book, t.reqs, t.afreqs) && t.book.answered == s.book.answered
            && 0 <= t.book.clients <= s.book.clients
            && (s.afreqs == [] ==> t.afreqs == [])
  {
    var p, q := Blocking(s.reqs, true), Blocking(s.afreqs, true);
    var p', q' := Blocking(s.reqs, false), Blocking(s.afreqs, false);
    SplitBooks(s.book, s.reqs, s.afreqs);
    hide Books;
    FinishKeeping(s.book, p, p', s.afreqs, true);
    var b := s.book.FinishAll(p', true);
    BooksSwap(b, p, s.afreqs);
    SplitBooks(b, s.afreqs, p);
    FinishKeeping(b, q, q', p, true);
    BooksSwap(b.FinishAll(q', true), q, p);
    NoDebt(b.FinishAll(q', true), p, q);
  }

  lemma NoDebt(b: Book, p: seq<Req>, q: seq<Req>)
    requires Books(b, p, q)
    ensures 0 <= b.resumableClients && 0 <= b.clients
  {
  }

  lemma SplitBooks(b: Book, p: seq<Req>, q: seq<Req>)
    requires Books(b, p, q)
    ensures Books(b, Blocking(p, false) + Blocking(p, true), q)
  {
    BlockingSplits(p, false);
    BlockingSplits(p, true);
    Joined(Blocking(p, false), Blocking(p, true));
  }

  lemma {:induction false} Joined(p: seq<Req>, q: seq<Req>)
    ensures forall res :: Rexes(p + q, res) == Rexes(p, res) + Rexes(q, res)
    ensures Ids(p + q) == Ids(p) + Ids(q)
  {
    if p == [] {
      assert p + q == q;
    } else {
      assert (p + q)[1..] == p[1..] + q;
      Joined(p[1..], q);
    }
  }

  // ----- Every step

  lemma ConnectInv(s: Session)
    requires Inv(s) && s.live && !s.Connecting()
    ensures Kept(s.Connect())
  {
    hide Books;
  }

  /** No connection: those that can wait do so if the session may resume. */
  lemma UnconnectedInv(s: Session)
    requires Inv(s.(conpending := !s.sess, rcpending := s.sess)) && s.live && !s.Connecting()
    ensures var u := s.AlertBadConnect();
            Kept(if u.sess && u.resumable && u.reqs != [] then u.Backoff() else u.Fail())
  {
    hide Books, Blocking;
    BadConnectBooks(s);
    FailInv(s.AlertBadConnect());
  }

  lemma ConnectedInv(s: Session, force: bool, heard: bool, ok: bool, same: bool, secure: bool)
    requires Inv(s) && s.live && (s.conpending || s.rcpending) && (same ==> s.sessconn)
    ensures Kept(s.Connected(force, heard, ok, same, secure))
  {
    hide Books, Session.AlertBadConnect, Session.AlertActive, Session.Fail, Session.Attach;
    var t := s.(rcpending := false, conpending := false);
    if !force && s.sess && heard {
      ActiveInv(t);
    } else if !ok {
      UnconnectedInv(t);
    } else if !same {
      NewConnectionInv(s, secure);
    }
  }

  /** A new connection is attached to, or first made secure, or given a proxy to spawn. */
  lemma NewConnectionInv(s: Session, secure: bool)
    requires Inv(s) && s.live && (s.conpending || s.rcpending)
    ensures var t := s.(rcpending := false, conpending := false, sessconn := true);
            Kept(if s.sess then t.Attach() else if !secure then t.(conpending := true) else t.Spawn(true))
  {
    hide Books;
    AttachBooks(s.book, s.reqs, s.afreqs);
  }

  lemma AttachBooks(b: Book, p: seq<Req>, q: seq<Req>)
    requires Books(b, p, q)
    ensures Books(b.Issue(ToAttach(b.seqno)), p, q)
  {
    IssueFresh(b, ToAttach(b.seqno));
  }

  lemma SpawnedInv(s: Session, ok: bool)
    requires Inv(s) && s.live && s.cbase == SpawnCall
    ensures Kept(s.Spawned(ok))
  {
    hide Books;
    if ok {
      AttachBooks(s.book, s.reqs, s.afreqs);
    } else {
      FailInv(s.(cbase := NoCall));
    }
  }

  lemma AttachedInv(s: Session, ok: bool, started: bool)
    requires Inv(s) && s.live && s.cbase == AttachCall
    ensures Kept(s.Attached(ok, started)) && !s.resumepending
  {
    hide Books;
    var t := s.(cbase := NoCall);
    if !ok {
      FailInv(t);
    } else if !s.sess {
      ActiveInv(t.(sess := true, resumable := s.book.resumableClients > 0));
    } else if !(s.resumable && started) {
      FailInv(t.(probecall := false, resumepending := false));
    }
  }

  lemma ResumedInv(s: Session, ok: bool)
    requires Inv(s) && s.live && s.resumepending
    ensures Kept(s.ResumeDone(ok))
  {
    hide Books;
    var t := s.(resumepending := false);
    if ok {
      ActiveInv(t);
    } else {
      FailInv(t);
    }
  }

  lemma ProxyFailInv(s: Session)
    requires Books(s.book, s.reqs, s.afreqs) && (s.live ==> Counted(s) && Linked(s))
    requires s.agentforwarded ==> s.afreqs == []
    requires s.live && s.sess
    ensures Kept(s.ProxyFail())
  {
    hide Books;
    if !s.resumepending && !s.resumable {
      FailInv(s);
    }
  }

  lemma ProbedInv(s: Session, ok: bool)
    requires Inv(s) && s.live && s.probecall
    ensures Kept(s.Probed(ok))
  {
    hide Books;
    var t := s.(probecall := false);
    if !ok {
      ProxyFailInv(t);
    } else if !s.resumepending {
      ActiveInv(t.Cancelled());
    }
  }

  lemma AfInitDoneInv(s: Session, ok: bool)
    requires Inv(s) && s.live && s.afpending
    ensures Kept(s.AfInitDone(ok))
  {
    hide Books;
    BooksSwap(s.book, s.reqs, s.afreqs);
    FinishAllBooks(s.book, s.afreqs, s.reqs, false);
    BooksSwap(s.book.FinishAll(s.afreqs, false), [], s.reqs);
  }

  lemma ClientDiedInv(s: Session, id: nat)
    requires Inv(s) && s.live && id in s.book.answered
    ensures Kept(s.ClientDied(id)) && s.sess && s.book.clients > 0
    ensures s.book.answered[id] ==> s.book.resumableClients > 0
  {
    hide Books;
    DeadBooks(s.book, s.reqs, s.afreqs, id);
  }

  lemma DeadBooks(b: Book, p: seq<Req>, q: seq<Req>, id: nat)
    requires Books(b, p, q) && id in b.answered
    ensures b.clients > 0 && (b.answered[id] ==> b.resumableClients > 0)
    ensures var rc := if b.answered[id] then b.resumableClients - 1 else b.resumableClients;
            Books(b.(clients := b.clients - 1, resumableClients := rc, answered := b.answered - {id}), p, q)
  {
    hide Rexes, Ids, AllIds, Fresh, ResumableIds;
    var ans := b.answered - {id};
    OneMore(ans, id, b.answered[id]);
    assert ans[id := b.answered[id]] == b.answered;
  }

  lemma Appended(p: seq<Req>, r: Req)
    ensures Ids(p + [r]) == Ids(p) + multiset{r.id}
    ensures forall res :: Rexes(p + [r], res) == Rexes(p, res) + One(r.rex && (res ==> r.resumable))
  {
    Joined(p, [r]);
    HeadIds(r, []);
    assert [r] + [] == [r];
  }

  /** The book once request `r` is taken. */
  function Entered(b: Book, r: Req): Book {
    b.(taken := b.taken + 1, clients := b.clients + One(r.rex),
       resumableClients := b.resumableClients + One(r.rex && r.resumable))
  }

  lemma EnterBooks(b: Book, p: seq<Req>, q: seq<Req>, r: Req, p': seq<Req>, q': seq<Req>)
    requires Books(b, p, q) && r.id == b.taken
    requires Ids(p') + Ids(q') == Ids(p) + Ids(q) + multiset{r.id}
    requires Rexes(p', false) + Rexes(q', false) == Rexes(p, false) + Rexes(q, false) + One(r.rex)
    requires Rexes(p', true) + Rexes(q', true) == Rexes(p, true) + Rexes(q, true) + One(r.rex && r.resumable)
    ensures Books(Entered(b, r), p', q')
  {
    hide Rexes, Ids, AllTaken, Fresh, ResumableIds;
    NextIds(b.taken, Ids(p) + Ids(q), b.done, Ids(p') + Ids(q'));
  }

  lemma NextIds(n: nat, m: multiset<nat>, done: seq<nat>, m': multiset<nat>)
    requires AllTaken(m, done, n) && m' == m + multiset{n}
    ensures AllTaken(m', done, n + 1)
  {
    assert m' + multiset(done) == m + multiset(done) + multiset{n};
  }

  lemma TakeBooks(b: Book, p: seq<Req>, q: seq<Req>, r: Req)
    requires Books(b, p, q) && r.id == b.taken
    ensures var u := Entered(b, r); Books(u, p + [r], q) && Books(u, p, q + [r]) && Books(u, [r] + p, q)
  {
    hide Rexes, Ids, AllIds, Books;
    Appended(p, r);
    Appended(q, r);
    HeadIds(r, p);
    EnterBooks(b, p, q, r, p + [r], q);
    EnterBooks(b, p, q, r, p, q + [r]);
    EnterBooks(b, p, q, r, [r] + p, q);
  }

  /** The session when request `r` is about to be queued or answered. */
  ghost predicate Taking(s: Session, r: Req) {
    && s.live && Linked(s) && Waiting(s) && (s.book.answered != map[] ==> s.sess)
    && (s.reaper ==> s.book.clients == 0)
    && var t := s.book.Noted();
       Books(t, s.reqs + [r], s.afreqs) && Books(t, s.reqs, s.afreqs + [r]) && Books(t, [r] + s.reqs, s.afreqs)
  }

  /** The book with request `r` taken. */
  function Took(s: Session): Session {
    s.(book := s.book.Noted())
  }

  lemma TakeForward(s: Session, r: Req)
    requires Taking(s, r) && !s.agentforwarded
    ensures var u := Took(s).(afreqs := s.afreqs + [r]);
      Kept(if !s.afpending && !s.Connecting() then u.AfInit() else u)
  {
    hide Books;
  }

  lemma TakeQueued(s: Session, r: Req)
    requires Taking(s, r) && s.Connecting()
    ensures Kept(Took(s).(reqs := s.reqs + [r]))
  {
    hide Books;
  }

  lemma TakeProbing(s: Session, r: Req)
    requires Taking(s, r) && !s.Connecting()
    ensures Kept(Took(s).(reqs := s.reqs + [r], probecall := true))
  {
    hide Books;
  }

  lemma TakeInv(s: Session, r: Req, forward: bool, heard: bool)
    requires Taking(s, r)
    ensures Kept(s.TakeRequest(r, forward, heard))
  {
    hide Taking, Kept, Session.FinishAll;
    if forward && !s.agentforwarded {
      TakeForward(s, r);
    } else if s.Connecting() {
      TakeQueued(s, r);
    } else if r.block && !(s.sess && heard) {
      TakeProbing(s, r);
    } else {
      TakeNow(s, r);
    }
  }

  lemma TakeNow(s: Session, r: Req)
    requires Taking(s, r) && !s.Connecting()
    ensures Kept(Took(s).FinishAll([r], false))
  {
    hide Books;
    FinishKeeping(s.book.Noted(), s.reqs, [r], s.afreqs, false);
  }

  /** Counting a client leaves alone what the session is doing. */
  lemma JoinedSame(s: Session, r: Req)
    requires r.rex && r.id == s.book.taken
    ensures var t := s.Joined(r.resumable);
      && t == s.(book := t.book, reaper := false, retryDelay := 0, resumable := t.resumable)
      && t.book == s.book.(clients := t.book.clients, resumableClients := t.book.resumableClients)
      && t.book.Noted() == Entered(s.book, r)
      && t.Connecting() == s.Connecting() && t.resumable == (if s.Connecting() then s.resumable else t.book.resumableClients > 0)
  {
  }

  lemma RexRequestInv(s: Session, forward: bool, block: bool, res: bool, heard: bool)
    requires Inv(s) && s.live
    ensures Kept(s.RexRequest(forward, block, res, heard))
  {
    hide Books, Session.TakeRequest, Session.Joined, Kept;
    var r := Req(s.book.taken, true, res, block);
    TakeBooks(s.book, s.reqs, s.afreqs, r);
    JoinedSame(s, r);
    TakeInv(s.Joined(res), r, forward, heard);
  }

  lemma KeepaliveInv(s: Session, heard: bool)
    requires Inv(s) && s.live
    ensures Kept(s.Keepalive(heard))
  {
    hide Books;
    var r := Req(s.book.taken, false, false, true);
    TakeBooks(s.book, s.reqs, s.afreqs, r);
    var t := s.(retryDelay := 0);
    assert t.book.Noted() == Entered(s.book, r);
    TakeInv(t, r, false, heard);
  }

  /** Steps that only touch handles. */
  lemma QuietInv(s: Session, a: Step)
    requires Inv(s) && Enabled(s, a) && (a.BackoffFires? || a.ProbeTimeout? || a.ProxyTimeout? || a.Reaped? || a.Killed?)
    ensures Inv(Next(s, a)) && (a.Reaped? || a.Killed? || Kept(Next(s, a)))
  {
    hide Books;
    if a.ProbeTimeout? || a.ProxyTimeout? {
      hide Inv, Session.Connect;
      if !s.Connecting() {
        ConnectInv(s);
      }
    } else if a.BackoffFires? {
      BackoffInv(s);
    }
  }

  lemma BackoffInv(s: Session)
    requires Inv(s) && s.live && s.backoffcb
    ensures Kept(s.ConnectInner())
  {
    hide Books;
  }

  lemma CryptInv(s: Session, force: bool, heard: bool, ok: bool, same: bool, secure: bool)
    requires Inv(s) && s.live && s.conpending && (same ==> s.sessconn)
    ensures Kept(s.ConnectedCrypt(force, heard, ok, same, secure))
  {
    if ok {
      ConnectedInv(s, force, heard, ok, same, secure);
    } else {
      FailInv(s);
    }
  }

  lemma ProxyFailsInv(s: Session)
    requires Inv(s) && s.live && s.sess
    ensures Kept(s.ProxyFail())
  {
    ProxyFailInv(s);
  }

  lemma StepInv(s: Session, a: Step)
    requires Inv(s) && Enabled(s, a)
    ensures Inv(Next(s, a)) && (a.Reaped? || a.Killed? || Kept(Next(s, a)))
  {
    hide Inv, Session.RexRequest, Session.Keepalive, Session.Connected, Session.ConnectedCrypt, Session.Spawned,
      Session.Attached, Session.ResumeDone, Session.Probed, Session.ProxyFail, Session.AfInitDone, Session.ClientDied,
      Session.ConnectInner, Session.ProbeTimeout, Session.ProxyTimeout;
    match a
    case RexRequest(forward, block, res, heard) => RexRequestInv(s, forward, block, res, heard);
    case Keepalive(heard) => KeepaliveInv(s, heard);
    case Connected(force, heard, ok, same, secure) => ConnectedInv(s, force, heard, ok, same, secure);
    case ConnectedCrypt(force, heard, ok, same, secure) => CryptInv(s, force, heard, ok, same, secure);
    case Spawned(ok) => SpawnedInv(s, ok);
    case Attached(ok, started) => AttachedInv(s, ok, started);
    case Resumed(ok) => ResumedInv(s, ok);
    case Probed(ok) => ProbedInv(s, ok);
    case ProxyFail => ProxyFailsInv(s);
    case AfInitDone(ok) => AfInitDoneInv(s, ok);
    case ClientDied(id) => ClientDiedInv(s, id);
    case _ => QuietInv(s, a);
  }
}
