/**
 What holds in every run of a REX session.
 */
module RexTheorems {
  import opened RexSession
  import opened RexInvariants

  lemma CreatedInv()
    ensures Inv(Created())
  {
    EmptyBooks();
    hide Books;
  }

  lemma EmptyBooks()
    ensures Books(Book(0, 0, 1, 0, [], [], map[], []), [], [])
  {
  }

  lemma {:induction false} RunInv(b: seq<Session>, a: seq<Step>, i: nat)
    requires Run(b, a) && i < |b|
    ensures Inv(b[i])
  {
    hide Inv, Enabled, Next;
    if i == 0 {
      CreatedInv();
    } else {
      RunInv(b, a, i - 1);
      StepInv(b[i - 1], a[i - 1]);
    }
  }

  /** A live session has at most one connection attempt under way, and a session to talk
      to when it has none. */
  lemma OneAttempt(b: seq<Session>, a: seq<Step>, i: nat)
    requires Run(b, a) && i < |b| && b[i].live
    ensures Exclusive(b[i]) && (!b[i].Connecting() ==> b[i].sess)
    ensures b[i].cbase == AttachCall ==> !b[i].resumepending
    ensures b[i].cbase == SpawnCall ==> !b[i].sess
    ensures b[i].probecall || b[i].book.answered != map[] ==> b[i].sess
  {
    RunInv(b, a, i);
  }

  /** Every request taken is queued or answered, and only once. */
  lemma AnsweredOnce(b: seq<Session>, a: seq<Step>, i: nat, id: nat)
    requires Run(b, a) && i < |b| && id < b[i].book.taken
    ensures (Ids(b[i].reqs) + Ids(b[i].afreqs) + multiset(b[i].book.done))[id] == 1
  {
    RunInv(b, a, i);
    AllIdsCount(b[i].book.taken, id);
  }

  /** No queued request is stranded: outside connection attempts there is a probe, or an
      agent channel in the making, whose callback answers it. */
  lemma NotStranded(b: seq<Session>, a: seq<Step>, i: nat)
    requires Run(b, a) && i < |b| && b[i].live && !b[i].Connecting()
    ensures b[i].reqs != [] ==> b[i].probecall
    ensures b[i].afreqs != [] ==> b[i].afpending
  {
    RunInv(b, a, i);
  }

  /** A session that dies of itself has answered all it took; only being reaped or killed
      drops a request, and reaping never drops one of a client. */
  lemma DeathAnswersAll(b: seq<Session>, a: seq<Step>, i: nat)
    requires Run(b, a) && i < |a| && !b[i + 1].live
    ensures !a[i].Reaped? && !a[i].Killed? ==>
              b[i + 1].reqs == b[i + 1].afreqs == [] && multiset(b[i + 1].book.done) == AllIds(b[i + 1].book.taken)
    ensures a[i].Reaped? ==> !HasRex(b[i].reqs) && !HasRex(b[i].afreqs) && b[i].book.answered == map[]
  {
    hide Next, HasRex, Rexes, Blocking, Books;
    RunInv(b, a, i);
    RunInv(b, a, i + 1);
    AllDone(b[i + 1].book);
    NoClients(b[i].book, b[i].reqs, b[i].afreqs);
    if a[i].Reaped? {
      NoRexes(b[i].reqs);
      NoRexes(b[i].afreqs);
    }
    StepInv(b[i], a[i]);
  }

  lemma AllDone(b: Book)
    ensures Books(b, [], []) ==> multiset(b.done) == AllIds(b.taken)
  {
    if Books(b, [], []) {
      assert multiset{} + multiset{} + multiset(b.done) == multiset(b.done);
    }
  }

  lemma NoClients(b: Book, p: seq<Req>, q: seq<Req>)
    requires Books(b, p, q)
    ensures b.clients == 0 ==> Rexes(p, false) == 0 && Rexes(q, false) == 0 && b.answered == map[]
  {
    hide Rexes;
  }

  lemma {:induction false} NoRexes(q: seq<Req>)
    ensures Rexes(q, false) == 0 ==> !HasRex(q)
  {
    if q != [] {
      NoRexes(q[1..]);
      if HasRex(q) && !q[0].rex {
        var i :| 0 <= i < |q| && q[i].rex;
        assert q[1..][i - 1].rex;
      }
    }
  }

  /** The counters are exact: rex requests waiting, plus clients answered and not dead. */
  lemma CountersExact(b: seq<Session>, a: seq<Step>, i: nat)
    requires Run(b, a) && i < |b|
    ensures var s := b[i];
            && s.book.clients == Rexes(s.reqs, false) + Rexes(s.afreqs, false) + |s.book.answered|
            && s.book.resumableClients == Rexes(s.reqs, true) + Rexes(s.afreqs, true) + |ResumableIds(s.book.answered)|
            && (s.live && s.reaper ==> s.book.clients == 0)
  {
    RunInv(b, a, i);
  }

  /** No sequence number is used twice, by attach or for a client. */
  lemma SeqnosDistinct(b: seq<Session>, a: seq<Step>, i: nat, j: nat, k: nat)
    requires Run(b, a) && i < |b| && j < k < |b[i].book.issued|
    ensures b[i].book.issued[j].seqno != b[i].book.issued[k].seqno
  {
    RunInv(b, a, i);
  }

  /** Being attached, a session resumes, or starts, or ends at once: it ends exactly if there was
      one to resume and it cannot, or the connection does not take it. */
  lemma AttachedAtOnce(b: seq<Session>, a: seq<Step>, i: nat, started: bool)
    requires Run(b, a) && i < |b| && b[i].live && b[i].cbase == AttachCall
    ensures b[i].Attached(true, started).live <==> !b[i].sess || (b[i].resumable && started)
    ensures b[i].Attached(true, started).resumepending <==> b[i].sess && b[i].resumable && started
  {
    hide Books;
    RunInv(b, a, i);
  }

  lemma Extend(b: seq<Session>, a: seq<Step>, step: Step) returns (b': seq<Session>, a': seq<Step>)
    requires Run(b, a) && Enabled(b[|a|], step)
    ensures Run(b', a') && b' == b + [Next(b[|a|], step)] && a' == a + [step]
  {
    hide Enabled, Next;
    b', a' := b + [Next(b[|a|], step)], a + [step];
    forall i | 0 <= i < |a'|
      ensures Enabled(b'[i], a'[i]) && b'[i + 1] == Next(b'[i], a'[i])
    {
      if i < |a| {
        assert b'[i] == b[i] && b'[i + 1] == b[i + 1] && a'[i] == a[i];
      }
    }
  }

  /** A session with one resumable client, which was answered. */
  lemma Serving() returns (b: seq<Session>, a: seq<Step>)
    ensures Run(b, a)
    ensures b[|a|] == Session(true, false, false, false, NoCall, false, true, true, true, false, [], [], false, false,
                              false, 0, Book(1, 1, 3, 1, [0], [], map[0 := true], [ToAttach(1), ToClient(2, 0)]))
  {
    var r := Req(0, true, true, false);
    b, a := [Created()], [];
    b, a := Extend(b, a, RexRequest(false, false, true, false));
    var s := b[|a|];
    assert s.reqs == [r] && s.book == Book(1, 1, 1, 1, [], [], map[], []);
    b, a := Extend(b, a, Connected(false, false, true, false, true));
    b, a := Extend(b, a, Spawned(true));
    s := b[|a|];
    assert s.book == Book(1, 1, 2, 1, [], [], map[], [ToAttach(1)]) && s.cbase == AttachCall && !s.sess;
    b, a := Extend(b, a, Attached(true, true));
    Answered(s.book, r);
  }

  lemma Answered(b: Book, r: Req)
    requires b == Book(1, 1, 2, 1, [], [], map[], [ToAttach(1)]) && r == Req(0, true, true, false)
    ensures b.FinishAll([r], false) == Book(1, 1, 3, 1, [0], [], map[0 := true], [ToAttach(1), ToClient(2, 0)])
  {
    assert [r][1..] == [];
    assert b.Finish(r, false).FinishAll([], false) == b.Finish(r, false);
  }

  /** A session can lose its last resumable client while it is being attached to again; then
      attaching ends it, although the proxy is there. */
  lemma LostWhileAttaching() returns (b: seq<Session>, a: seq<Step>)
    ensures Run(b, a) && b[|a|].live && b[|a|].cbase == AttachCall && b[|a|].sess && !b[|a|].resumable
    ensures forall started :: !b[|a|].Attached(true, started).live
  {
    b, a := Serving();
    b, a := Extend(b, a, ProxyFail);
    var s := b[|a|];
    assert s.rcpending && s.sess && s.resumable && s.book.answered == map[0 := true];
    b, a := Extend(b, a, Connected(true, false, true, false, true));
    s := b[|a|];
    assert s.cbase == AttachCall && s.live && s.sess && s.book.answered == map[0 := true] && s.book.resumableClients == 1;
    b, a := Extend(b, a, ClientDied(0));
    hide Run;
    forall started
      ensures !b[|a|].Attached(true, started).live
    {
      AttachedAtOnce(b, a, |a|, started);
    }
  }
}
