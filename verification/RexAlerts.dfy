/**
 The loops by which a REX session answers its queued requests.
 */
module RexAlerts {
  import opened RexSession
  import opened RexInvariants

  lemma {:induction false} FinishLast(b: Book, q: seq<Req>, r: Req, error: bool)
    ensures b.FinishAll(q + [r], error) == b.FinishAll(q, error).Finish(r, error)
    decreases |q|
  {
    if q == [] {
      assert q + [r] == [r] && [r][1..] == [];
    } else {
      assert (q + [r])[1..] == q[1..] + [r];
      FinishLast(b.Finish(q[0], error), q[1..], r, error);
    }
  }

  lemma {:induction false} BlockingLast(q: seq<Req>, r: Req, block: bool)
    ensures Blocking(q + [r], block) == Blocking(q, block) + if r.block == block then [r] else []
  {
    if q == [] {
      assert q + [r] == [r] && [r][1..] == [];
    } else {
      var h, last := if q[0].block == block then [q[0]] else [], if r.block == block then [r] else [];
      assert (q + [r])[1..] == q[1..] + [r];
      BlockingLast(q[1..], r, block);
      assert h + (Blocking(q[1..], block) + last) == (h + Blocking(q[1..], block)) + last;
    }
  }

  /** A request's place in the queue does not matter to the books. */
  lemma ToFront(b: Book, p: seq<Req>, r: Req, p': seq<Req>, q: seq<Req>)
    requires Books(b, p + ([r] + p'), q)
    ensures Books(b, [r] + (p + p'), q)
  {
    hide Fresh, AllIds, ResumableIds;
    Joined(p, [r] + p');
    Joined(p, p');
    HeadIds(r, p');
    HeadIds(r, p + p');
    hide Rexes, Ids;
  }

  /** finish: the assertions of rex_reply on the counters hold for a request on the books. */
  method Finish(b: Book, r: Req, error: bool, ghost p: seq<Req>, ghost q: seq<Req>) returns (t: Book)
    requires Books(b, [r] + p, q)
    ensures t == b.Finish(r, error) && Books(t, p, q)
  {
    FinishBooks(b, r, p, q, error);
    t := b.(done := b.done + [r.id], refused := if error then b.refused + [r.id] else b.refused);
    if r.rex {
      if error {
        assert t.clients > 0;
        t := t.(clients := t.clients - 1);
        if r.resumable {
          assert t.resumableClients > 0;
          t := t.(resumableClients := t.resumableClients - 1);
        }
      } else {
        t := t.(answered := t.answered[r.id := r.resumable], issued := t.issued + [ToClient(t.seqno, r.id)], seqno := t.seqno + 1);
      }
    }
  }

  /** alert_active, alert_forwardedagent and alert_fail, on one queue. */
  method FinishEach(b: Book, q: seq<Req>, error: bool, ghost other: seq<Req>) returns (t: Book)
    requires Books(b, q, other)
    ensures t == b.FinishAll(q, error) && Books(t, [], other)
  {
    hide Books;
    t := b;
    for i := 0 to |q|
      invariant Books(t, q[i..], other) && t == b.FinishAll(q[..i], error)
    {
      assert q[i..] == [q[i]] + q[i + 1..];
      FinishLast(b, q[..i], q[i], error);
      assert q[..i + 1] == q[..i] + [q[i]];
      t := Finish(t, q[i], error, q[i + 1..], other);
    }
    assert q[..|q|] == q && q[|q|..] == [];
  }

  lemma SiftStep(b: Book, q: seq<Req>, i: nat)
    requires i < |q|
    ensures var h := Blocking(q[..i], q[i].block);
      Blocking(q[..i + 1], q[i].block) == h + [q[i]] && Blocking(q[..i + 1], !q[i].block) == Blocking(q[..i], !q[i].block)
    ensures b.FinishAll(Blocking(q[..i], false) + [q[i]], true) == b.FinishAll(Blocking(q[..i], false), true).Finish(q[i], true)
  {
    hide Blocking;
    assert q[..i + 1] == q[..i] + [q[i]];
    BlockingLast(q[..i], q[i], true);
    BlockingLast(q[..i], q[i], false);
    assert Blocking(q[..i], !q[i].block) + [] == Blocking(q[..i], !q[i].block);
    FinishLast(b, Blocking(q[..i], false), q[i], true);
  }

  /** alert_badconnect on one queue: what can wait stays, the rest is refused. */
  method Sift(b: Book, q: seq<Req>, ghost other: seq<Req>) returns (t: Book, kept: seq<Req>)
    requires Books(b, q, other)
    ensures kept == Blocking(q, true) && t == b.FinishAll(Blocking(q, false), true) && Books(t, kept, other)
  {
    t, kept := b, [];
    assert [] + q == q && q[..0] == [];
    hide Books, Blocking, Book.FinishAll, Book.Finish;
    NoneSifted(b);
    for i := 0 to |q|
      invariant Books(t, kept + q[i..], other)
      invariant kept == Blocking(q[..i], true) && t == b.FinishAll(Blocking(q[..i], false), true)
    {
      SiftStep(b, q, i);
      NextReq(kept, q, i);
      if q[i].block {
        kept := kept + [q[i]];
      } else {
        ToFront(t, kept, q[i], q[i + 1..], other);
        t := Finish(t, q[i], true, kept + q[i + 1..], other);
      }
    }
    assert q[..|q|] == q && kept + q[|q|..] == kept;
  }

  lemma NextReq(kept: seq<Req>, q: seq<Req>, i: nat)
    requires i < |q|
    ensures q[i..] == [q[i]] + q[i + 1..] && kept + q[i..] == kept + [q[i]] + q[i + 1..]
  {
  }

  lemma NoneSifted(b: Book)
    ensures Blocking([], true) == Blocking([], false) == [] && b.FinishAll([], true) == b
  {
  }
}
