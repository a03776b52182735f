/**
 asrv_resumable: the server side of resumable RPC. Replies stay cached until the
 client is known to have them; the queue of cached replies is kept in transport order.
 */
module ResumableServer {
  import opened Octets
  import opened ReplayCache

  function OffsetOf(rtab: Table, x: Xid): nat {
    if x in rtab && rtab[x].Done? then rtab[x].offset else 0
  }

  ghost predicate Sorted(rtab: Table, q: seq<Xid>) {
    forall i, j :: 0 <= i < j < |q| ==> OffsetOf(rtab, q[i]) <= OffsetOf(rtab, q[j])
  }

  /** A server on its current connection: `sent` and `acked` are the transport's
      raw_bytes_sent and the connection's max_acked_offset. */
  datatype Server = Server(rtab: Table, rq: seq<Xid>, sent: nat, acked: nat, eof: bool)
  {
    predicate Cached(x: Xid) {
      x in rtab && rtab[x].Done?
    }

    /** The queue holds exactly the answered calls, once each, sorted by offset. */
    ghost predicate Valid() {
      && Distinct(rq)
      && (forall i :: 0 <= i < |rq| ==> Cached(rq[i]))
      && (forall x :: Cached(x) ==> x in rq)
      && Sorted(rtab, rq)
      && (forall x :: Cached(x) ==> rtab[x].offset <= sent)
    }

    /** Cached replies not sent on the current connection. */
    function Leftovers(): set<Xid> {
      set x | x in rtab && rtab[x].Done? && rtab[x].offset == 0
    }

    /** Cached replies the client is taken to have received. */
    function Received(known: nat): set<Xid> {
      if Leftovers() != {} then {}
      else set x | x in rtab && rtab[x].Done? && rtab[x].offset < known
    }

    function Without(dead: set<Xid>): Server {
      this.(rtab := rtab - dead, rq := Keep(rq, dead))
    }

    function Popped(k: nat): Server
      requires k <= |rq|
    {
      this.(rtab := rtab - Elements(rq[..k]), rq := rq[k..])
    }

    /** The bytes the send buffer cannot hold any more, or those acknowledged. */
    function KnownReceived(sndbufsz: int): nat {
      var drained := if 0 < sndbufsz < sent then sent - sndbufsz else 0;
      if drained < acked then acked else drained
    }

    /** Arrival of a call that is in the table (`Replayed`) or not (`Admitted`). */
    function Replayed(x: Xid): Server
      requires x in rtab
    {
      if rtab[x].Pending? then this
      else
        var end := sent + |rtab[x].res| + 4;
        this.(rtab := rtab[x := Done(rtab[x].res, end)], rq := Keep(rq, {x}) + [x], sent := end)
    }

    function Admitted(x: Xid): Server {
      var s := Without(Leftovers());
      s.(rtab := s.rtab[x := Pending])
    }

    function Answered(x: Xid, res: Bytes): Server {
      var end := if eof then sent else sent + |res| + 4;
      this.(rtab := rtab[x := Done(res, end)], rq := rq + [x], sent := end)
    }

    /** A reply is sent, cached, and then whatever is known received is evicted. */
    function Replied(x: Xid, res: Bytes, sndbufsz: int): Server {
      var s := Answered(x, res);
      s.Without(s.Received(s.KnownReceived(sndbufsz)))
    }

    /** A new connection: nothing was sent on it, so every offset is zero. */
    function Resumed(): Server {
      Server(map x | x in rtab :: if rtab[x].Done? then Done(rtab[x].res, 0) else Pending, rq, 0, 0, false)
    }
  }

  /** An initial segment of the queue holds exactly the entries below a bound. */
  lemma PrefixBelow(s: Server, bound: nat, k: nat)
    requires s.Valid() && k <= |s.rq|
    requires forall i :: 0 <= i < k ==> OffsetOf(s.rtab, s.rq[i]) < bound
    requires k < |s.rq| ==> bound <= OffsetOf(s.rtab, s.rq[k])
    ensures Elements(s.rq[..k]) == set x | x in s.rtab && s.rtab[x].Done? && s.rtab[x].offset < bound
    ensures Keep(s.rq, Elements(s.rq[..k])) == s.rq[k..]
  {
    forall x
      ensures x in s.rq[..k] <==> s.Cached(x) && s.rtab[x].offset < bound
    {
      if s.Cached(x) {
        var i :| 0 <= i < |s.rq| && s.rq[i] == x;
        if i < k {
          assert x == s.rq[..k][i];
        }
      }
    }
    forall i | 0 <= i < |s.rq|
      ensures s.rq[i] in Elements(s.rq[..k]) <==> i < k
    {
      if i < k {
        assert s.rq[i] == s.rq[..k][i];
      }
    }
    KeepSuffix(s.rq, Elements(s.rq[..k]), k);
  }

  /** Dropping cached entries keeps the queue in order. */
  lemma {:induction false} KeepSorted(q: seq<Xid>, dead: set<Xid>, rtab: Table)
    requires Sorted(rtab, q)
    ensures forall x :: x in Keep(q, dead) ==> x in q && x !in dead
    ensures Sorted(rtab, Keep(q, dead))
  {
    if q != [] {
      KeepSorted(q[1..], dead, rtab);
      var rest := Keep(q[1..], dead);
      forall i | 0 <= i < |rest|
        ensures OffsetOf(rtab, q[0]) <= OffsetOf(rtab, rest[i])
      {
        assert rest[i] in q[1..];
      }
      assert Keep(q, dead) == if q[0] in dead then rest else [q[0]] + rest;
    }
  }

  lemma WithoutValid(s: Server, dead: set<Xid>)
    requires s.Valid()
    ensures s.Without(dead).Valid()
  {
    KeepDistinct(s.rq, dead);
    KeepMembers(s.rq, dead);
    KeepSorted(s.rq, dead, s.rtab);
    var t := s.Without(dead);
    forall x
      ensures x in t.rq <==> t.Cached(x)
    {
      assert x in t.rq <==> x in Elements(Keep(s.rq, dead));
      assert x in s.rq <==> x in Elements(s.rq);
    }
  }

  /** Leftovers, when there are any, are at the head of the queue. */
  lemma LeftoversFirst(s: Server)
    requires s.Valid()
    ensures s.Leftovers() == {} <==> s.rq == [] || OffsetOf(s.rtab, s.rq[0]) != 0
  {
    if s.rq != [] && OffsetOf(s.rtab, s.rq[0]) == 0 {
      assert s.Cached(s.rq[0]);
      assert s.rq[0] in s.Leftovers();
    } else {
      forall y | s.Cached(y)
        ensures y !in s.Leftovers()
      {
        var i :| 0 <= i < |s.rq| && s.rq[i] == y;
      }
    }
  }

  lemma AnsweredValid(s: Server, x: Xid, res: Bytes)
    requires s.Valid() && !s.Cached(x)
    ensures s.Answered(x, res).Valid()
  {
    var t := s.Answered(x, res);
    assert x !in s.rq;
    assert forall y :: y in s.rq ==> OffsetOf(s.rtab, y) == OffsetOf(t.rtab, y);
  }

  lemma ReplayedValid(s: Server, x: Xid)
    requires s.Valid() && x in s.rtab
    ensures s.Replayed(x).Valid()
  {
    if s.rtab[x].Done? {
      WithoutValid(s, {x});
      var t := s.Without({x}).(eof := false);
      AnsweredValid(t, x, s.rtab[x].res);
      assert t.rtab[x := Pending] == s.rtab[x := Pending];
      assert t.Answered(x, s.rtab[x].res).(eof := s.eof) == s.Replayed(x);
    }
  }

  lemma AdmittedValid(s: Server, x: Xid)
    requires s.Valid() && x !in s.rtab
    ensures s.(rtab := s.rtab[x := Pending]).Valid()
    ensures s.(rtab := s.rtab[x := Pending]).Without(s.Leftovers()) == s.Admitted(x)
    ensures s.Admitted(x).Valid()
  {
    var t := s.(rtab := s.rtab[x := Pending]);
    assert forall y :: y in s.rq ==> OffsetOf(s.rtab, y) == OffsetOf(t.rtab, y);
    WithoutValid(t, s.Leftovers());
    assert s.rtab[x := Pending] - s.Leftovers() == (s.rtab - s.Leftovers())[x := Pending];
  }

  lemma RepliedValid(s: Server, x: Xid, res: Bytes, sndbufsz: int)
    requires s.Valid() && x in s.rtab && s.rtab[x].Pending?
    ensures s.Replied(x, res, sndbufsz).Valid()
  {
    AnsweredValid(s, x, res);
    var t := s.Answered(x, res);
    WithoutValid(t, t.Received(t.KnownReceived(sndbufsz)));
  }

  lemma ResumedValid(s: Server)
    requires s.Valid()
    ensures s.Resumed().Valid()
  {
    var t := s.Resumed();
    assert forall y :: OffsetOf(t.rtab, y) == 0;
    assert forall y :: t.Cached(y) <==> s.Cached(y);
  }

  /** Popping while the head has a zero offset removes exactly the leftovers. */
  lemma LeftoversPopped(s: Server, k: nat)
    requires s.Valid() && k <= |s.rq|
    requires forall i :: 0 <= i < k ==> OffsetOf(s.rtab, s.rq[i]) == 0
    requires k < |s.rq| ==> OffsetOf(s.rtab, s.rq[k]) != 0
    ensures s.Without(s.Leftovers()) == s.Popped(k)
  {
    PrefixBelow(s, 1, k);
    assert Elements(s.rq[..k]) == s.Leftovers();
  }

  /** Popping heads with offsets between zero and the mark removes exactly `Received`. */
  lemma ReceivedPopped(s: Server, known: nat, k: nat)
    requires s.Valid() && k <= |s.rq|
    requires forall i :: 0 <= i < k ==> 0 < OffsetOf(s.rtab, s.rq[i]) < known
    requires k < |s.rq| ==> !(0 < OffsetOf(s.rtab, s.rq[k]) < known)
    ensures s.Without(s.Received(known)) == s.Popped(k)
  {
    LeftoversFirst(s);
    if s.Leftovers() == {} {
      PrefixBelow(s, known, k);
      assert Elements(s.rq[..k]) == s.Received(known);
    } else {
      KeepAll(s.rq, {});
      assert k == 0;
      assert Elements(s.rq[..k]) == {};
    }
  }

  /** The server object: the table and queue are updated in place. */
  class Asrv {
    const sndbufsz: int
    var rtab: Table
    var rq: seq<Xid>
    var sent: nat
    var acked: nat
    var eof: bool
    var wire: seq<Bytes>  // replies written to the current connection

    ghost function State(): Server
      reads this
    {
      Server(rtab, rq, sent, acked, eof)
    }

    constructor (sndbufsz: int)
      ensures State() == Server(map[], [], 0, 0, false) && State().Valid() && wire == []
      ensures this.sndbufsz == sndbufsz
    {
      this.sndbufsz := sndbufsz;
      rtab, rq, sent, acked, eof, wire := map[], [], 0, 0, false, [];
    }

    /** Calls left over from earlier connections are popped off the queue. */
    method EvictLeftovers()
      requires State().Valid()
      modifies this`rtab, this`rq
      ensures State() == old(State()).Without(old(State()).Leftovers())
    {
      ghost var s, k := State(), 0;
      while rq != [] && rtab[rq[0]].offset == 0
        invariant Popped(s, k)
        invariant forall i :: 0 <= i < k ==> OffsetOf(s.rtab, s.rq[i]) == 0
        decreases |rq|
      {
        k := Pop(s, k);
      }
      LeftoversPopped(s, k);
    }

    /** Replies below the known-received mark are popped off, unless leftovers remain. */
    method EvictReceived(known: nat)
      requires State().Valid()
      modifies this`rtab, this`rq
      ensures State() == old(State()).Without(old(State()).Received(known))
    {
      ghost var s, k := State(), 0;
      while rq != [] && rtab[rq[0]].offset != 0 && rtab[rq[0]].offset < known
        invariant Popped(s, k)
        invariant forall i :: 0 <= i < k ==> 0 < OffsetOf(s.rtab, s.rq[i]) < known
        decreases |rq|
      {
        k := Pop(s, k);
      }
      ReceivedPopped(s, known, k);
    }

    /** `k` entries have been popped off the queue of `s`. */
    ghost predicate Popped(s: Server, k: nat)
      reads this
    {
      && s.Valid() && k <= |s.rq|
      && State() == s.Popped(k)
      && (forall i :: k <= i < |s.rq| ==> s.rq[i] in rtab && rtab[s.rq[i]] == s.rtab[s.rq[i]])
    }

    /** asrv_replay::delsbp on the head of the queue. */
    method Pop(ghost s: Server, ghost k: nat) returns (ghost k': nat)
      requires Popped(s, k) && rq != []
      modifies this`rtab, this`rq
      ensures k' == k + 1 && Popped(s, k')
    {
      assert s.rq[..k + 1] == s.rq[..k] + [rq[0]];
      assert Elements(s.rq[..k + 1]) == Elements(s.rq[..k]) + {rq[0]};
      rtab := rtab - {rq[0]};
      rq := rq[1..];
      k' := k + 1;
    }

    method Send(res: Bytes)
      modifies this`sent, this`wire
      ensures sent == old(sent) + |res| + 4 && wire == old(wire) + [res]
    {
      sent, wire := sent + |res| + 4, wire + [res];
    }

    /** The first call the table misses evicts exactly the leftovers of earlier
        connections; a call already answered is answered again with the same bytes. */
    method IsReplay(x: Xid) returns (replay: bool)
      requires State().Valid() && !eof
      modifies this`rtab, this`rq, this`sent, this`wire
      ensures replay == (x in old(rtab)) && State().Valid()
      ensures State() == if replay then old(State()).Replayed(x) else old(State()).Admitted(x)
      ensures wire == old(wire) + if replay && old(rtab[x]).Done? then [old(rtab[x]).res] else []
    {
      ghost var s := State();
      if x !in rtab {
        AdmittedValid(s, x);
        rtab := rtab[x := Pending];
        assert State().Leftovers() == s.Leftovers();
        EvictLeftovers();
        return false;
      }
      ReplayedValid(s, x);
      if rtab[x].Done? {
        Send(rtab[x].res);
        rtab := rtab[x := Done(rtab[x].res, sent)];
        rq := Keep(rq, {x}) + [x];
      }
      return true;
    }

    /** Answering a call evicts exactly the replies below the known-received mark, or
        nothing while leftovers of an earlier connection remain. */
    method SendReply(x: Xid, res: Bytes)
      requires State().Valid() && x in rtab && rtab[x].Pending?
      modifies this`rtab, this`rq, this`sent, this`wire
      ensures State() == old(State()).Replied(x, res, sndbufsz) && State().Valid()
      ensures wire == old(wire) + if eof then [] else [res]
    {
      RepliedValid(State(), x, res, sndbufsz);
      ghost var s := State().Answered(x, res);
      AnsweredValid(State(), x, res);
      if !eof {
        Send(res);
      }
      rtab := rtab[x := Done(res, sent)];
      rq := rq + [x];
      assert State() == s;
      var known := if 0 < sndbufsz < sent then sent - sndbufsz else 0;
      if known < acked {
        known := acked;
      }
      EvictReceived(known);
    }

    /** A call that is rejected or ignored leaves the table: it may be served again. */
    method Drop(x: Xid)
      requires State().Valid() && x in rtab && rtab[x].Pending?
      modifies this`rtab
      ensures rtab == old(rtab) - {x} && State().Valid()
    {
      rtab := rtab - {x};
      assert forall y :: y in rq ==> OffsetOf(rtab, y) == OffsetOf(old(rtab), y);
    }

    method Resume()
      requires State().Valid()
      modifies this
      ensures State() == old(State()).Resumed() && State().Valid() && wire == []
    {
      ResumedValid(State());
      sent, acked, eof, wire := 0, 0, false, [];
      ghost var s := old(State());
      var left := rtab.Keys;
      while left != {}
        invariant left <= rtab.Keys == s.rtab.Keys && rq == s.rq
        invariant sent == acked == 0 && !eof && wire == []
        invariant forall y :: y in left ==> rtab[y] == s.rtab[y]
        invariant forall y :: y in rtab && y !in left ==> rtab[y] == s.Resumed().rtab[y]
        decreases left
      {
        var y :| y in left;
        if rtab[y].Done? {
          rtab := rtab[y := Done(rtab[y].res, 0)];
        }
        left := left - {y};
      }
      assert rtab == s.Resumed().rtab;
    }
  }
}
