/**
 aclnt_resumable: the client side of resumable RPC. Outstanding calls are kept in issue
 order and entered in the connection's table of transaction numbers.
 */
module ResumableClient {
  import opened Octets
  import opened ReplayCache
  import opened ResumeProtocol

  /** The client's connection is found broken. */
  function Broken(s: State, eof: bool): State {
    s.(client := s.client.(eof := s.client.eof || eof))
  }

  class Aclnt {
    var calls: seq<Xid>
    var xidtab: set<Xid>  // what the current connection routes to this client
    var stopped: bool
    var eof: bool
    var wire: seq<Up>     // what was written to the current connection
    var accepted: map<Xid, Bytes>  // results handed to the calls' callbacks
    var failed: seq<Xid>  // calls whose callback was told of a failure

    /** The connection routes outstanding calls only, all of them unless the client was stopped;
        then it routes those issued since. */
    ghost predicate Valid()
      reads this
    {
      Distinct(calls) && xidtab <= Elements(calls) && (!stopped ==> xidtab == Elements(calls))
    }

    /** The client is the client of protocol state `s`. */
    ghost predicate Matches(s: State)
      reads this
    {
      && s.conns != [] && s.client.calls == calls && s.client.accepted == accepted
      && s.client.eof == eof && s.conns[|s.conns| - 1].up == wire
    }

    constructor ()
      ensures Valid() && !stopped && failed == [] && Matches(Init())
    {
      calls, xidtab, stopped, eof, wire, accepted, failed := [], {}, false, false, [], map[], [];
    }

    /** Writes the call unless the connection is at EOF; writing may find it broken. */
    method Xmit(x: Xid)
      modifies this`wire, this`eof
      ensures wire == old(wire) + if old(eof) then [] else [Call(x)]
      ensures old(eof) ==> eof
    {
      if !eof {
        wire := wire + [Call(x)];
        eof := *;
      }
    }

    /** genxid never picks a number in use. A call is sent and routed even by a client that is
        stopped. */
    method Issue(x: Xid, ghost s: State)
      requires Valid() && x !in calls
      modifies this`calls, this`xidtab, this`wire, this`eof
      ensures Valid() && calls == old(calls) + [x] && x in xidtab
      ensures wire == old(wire) + (if old(eof) then [] else [Call(x)]) && (old(eof) ==> eof)
      ensures old(Matches(s)) ==> Matches(Broken(Issued(s, x), eof))
    {
      calls, xidtab := calls + [x], xidtab + {x};
      assert Elements(calls) == Elements(old(calls)) + {x};
      assert wire + [] == wire;
      Xmit(x);
    }

    /** A call is completed or cancelled: it is no longer outstanding nor routed. */
    method Finish(x: Xid)
      requires Valid()
      modifies this`calls, this`xidtab
      ensures Valid() && calls == Keep(old(calls), {x}) && xidtab == old(xidtab) - {x} && x !in calls
    {
      KeepMembers(calls, {x});
      KeepDistinct(calls, {x});
      calls, xidtab := Keep(calls, {x}), xidtab - {x};
      assert Elements(calls) == Elements(old(calls)) - {x};
    }

    /** The call is forgotten; its callback is not called. */
    method Cancel(x: Xid, ghost s: State)
      requires Valid() && x in calls
      modifies this`calls, this`xidtab
      ensures Valid() && calls == Keep(old(calls), {x}) && x !in calls && x !in xidtab
      ensures old(Matches(s)) ==> Matches(Cancelled(s, x))
    {
      Finish(x);
    }

    /** Unless the owner takes care of it, every outstanding call fails: each callback is told, once
        and oldest first. */
    method Fail(handled: bool)
      requires Valid()
      modifies this`calls, this`xidtab, this`failed
      ensures Valid()
      ensures if handled then calls == old(calls) && xidtab == old(xidtab) && failed == old(failed)
              else calls == [] && failed == old(failed) + old(calls)
    {
      if !handled {
        ghost var was, k := calls, 0;
        while calls != []
          invariant Valid() && k <= |was| && calls == was[k..] && failed == old(failed) + was[..k]
          decreases |calls|
        {
          KeepMembers(calls, {calls[0]});
          KeepSuffix(calls, {calls[0]}, 1);
          failed := failed + [calls[0]];
          Finish(calls[0]);
          k := k + 1;
        }
        assert was[..k] == was;
      }
    }

    /** A reply completes its call, once, if the connection routes it: the result is handed to its
        callback. One that does not decode is taken for a failure of the connection instead. */
    method Dispatch(x: Xid, res: Bytes, ok: bool, handled: bool, ghost s: State) returns (done: bool)
      requires Valid()
      modifies this`calls, this`xidtab, this`accepted, this`failed
      ensures Valid() && done == (x in old(xidtab) && ok)
      ensures if done then accepted == old(accepted)[x := res] && failed == old(failed) else accepted == old(accepted)
      ensures done ==> calls == Keep(old(calls), {x}) && x !in calls && x !in xidtab
      ensures !done && (ok || handled || x !in old(xidtab)) ==> calls == old(calls) && xidtab == old(xidtab) && failed == old(failed)
      ensures !done && !(ok || handled || x !in old(xidtab)) ==> calls == [] && failed == old(failed) + old(calls)
      ensures old(Matches(s)) && NextReply(s, x, res) && (done || x !in old(calls)) ==> Matches(ClientRead(s))
      ensures old(Matches(s)) && NextReply(s, x, res) && !done && calls == old(calls) ==> Matches(ClientKept(s))
    {
      done := false;
      if x in xidtab {
        if ok {
          Finish(x);
          accepted := accepted[x := res];
          done := true;
        } else {
          Fail(handled);
        }
      }
    }

    method Stop()
      requires Valid()
      modifies this`xidtab, this`stopped
      ensures Valid() && stopped && xidtab == if old(stopped) then old(xidtab) else {}
    {
      if !stopped {
        stopped := true;
        for i := 0 to |calls|
          invariant stopped && xidtab == Elements(calls[i..])
        {
          assert calls[i] == calls[i..][0];
          assert calls[i] in xidtab;
          assert Elements(calls[i..]) == {calls[i]} + Elements(calls[i + 1..]);
          assert calls[i] !in Elements(calls[i + 1..]);
          xidtab := xidtab - {calls[i]};
        }
      }
    }

    /** Its assertion is that the connection routes none of the calls yet. */
    method Start()
      requires Valid() && (stopped ==> xidtab == {})
      modifies this`xidtab, this`stopped
      ensures Valid() && !stopped
    {
      if stopped {
        stopped := false;
        for i := 0 to |calls|
          invariant !stopped && xidtab == Elements(calls[..i])
        {
          assert calls[i] !in xidtab;
          assert Elements(calls[..i + 1]) == Elements(calls[..i]) + {calls[i]};
          xidtab := xidtab + {calls[i]};
        }
        assert calls[..|calls|] == calls;
      }
    }

    /** A new connection has a table of its own, so the assertion of `Start` holds. */
    method PreResume(ghost s: State)
      requires Valid()
      modifies this`xidtab, this`stopped, this`eof, this`wire
      ensures Valid() && !stopped && !eof && calls == old(calls) && wire == []
      ensures old(Matches(s)) ==> Matches(PreResumed(s))
    {
      Stop();
      xidtab, eof, wire := {}, false, [];
      Start();
    }

    /** Sends the outstanding calls again, oldest first, until the connection breaks. */
    method PostResume(ghost s: State) returns (ghost n: nat)
      requires Valid() && !stopped
      modifies this`wire, this`eof
      ensures Valid() && n <= |calls| && (old(eof) ==> n == 0) && (n < |calls| ==> eof)
      ensures wire == old(wire) + CallsOf(calls[..n])
      ensures old(Matches(s)) ==> Matches(Broken(PostResumed(s, n), eof))
    {
      n := 0;
      for i := 0 to |calls|
        invariant 0 <= n <= i && (old(eof) ==> n == 0 && eof) && (n < i ==> eof)
        invariant wire == old(wire) + CallsOf(calls[..n])
      {
        if !eof {
          n := n + 1;
          assert CallsOf(calls[..n]) == CallsOf(calls[..n - 1]) + [Call(calls[n - 1])];
        }
        Xmit(calls[i]);
      }
    }
  }

  /** The next message the client reads is a reply to `x`. */
  ghost predicate NextReply(s: State, x: Xid, res: Bytes) {
    && s.conns != []
    && var c := s.conns[|s.conns| - 1];
       |c.gotAt| < |c.down| && c.down[|c.gotAt|] == Reply(x, res, c.down[|c.gotAt|].end)
  }
}
