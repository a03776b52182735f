/**
 The replay cache shared by the at-most-once RPC servers (class asrv_replay): a table
 of every call being served or answered, and a queue of the answered ones.
 */
module ReplayCache {

  import opened Octets

  /** Identity of a call: what svccb::operator== compares. */
  type Xid = nat

  /** A call in the table: still being served, or answered with the reply kept for
      replays and the transport offset of the end of its latest copy. */
  datatype Entry = Pending | Done(res: Bytes, offset: nat)

  type Table = map<Xid, Entry>

  function Elements<T>(q: seq<T>): set<T> {
    set x | x in q
  }

  ghost predicate Distinct<T>(q: seq<T>) {
    forall i, j :: 0 <= i < j < |q| ==> q[i] != q[j]
  }

  /** The elements of `q` outside `dead`, in order. */
  function Keep<T>(q: seq<T>, dead: set<T>): seq<T> {
    if q == [] then []
    else (if q[0] in dead then [] else [q[0]]) + Keep(q[1..], dead)
  }

  lemma {:induction false} KeepMembers<T>(q: seq<T>, dead: set<T>)
    ensures Elements(Keep(q, dead)) == Elements(q) - dead
    ensures |Keep(q, dead)| <= |q|
  {
    if q != [] {
      KeepMembers(q[1..], dead);
      var rest := Keep(q[1..], dead);
      assert Elements(q) == {q[0]} + Elements(q[1..]);
      assert Elements(Keep(q, dead)) == (if q[0] in dead then {} else {q[0]}) + Elements(rest);
    }
  }

  lemma {:induction false} KeepAll<T>(q: seq<T>, dead: set<T>)
    requires forall x :: x in q ==> x !in dead
    ensures Keep(q, dead) == q
  {
    if q != [] {
      KeepAll(q[1..], dead);
    }
  }

  /** A queue drops its dead elements by popping when they form a prefix. */
  lemma {:induction false} KeepSuffix<T>(q: seq<T>, dead: set<T>, k: nat)
    requires k <= |q|
    requires forall i :: 0 <= i < |q| ==> (q[i] in dead <==> i < k)
    ensures Keep(q, dead) == q[k..]
  {
    if k == 0 {
      KeepAll(q, dead);
    } else {
      KeepSuffix(q[1..], dead, k - 1);
      assert q[1..][k - 1..] == q[k..];
    }
  }

  /** Every element of the filtered queue keeps its order and stays unique. */
  lemma {:induction false} KeepDistinct<T>(q: seq<T>, dead: set<T>)
    requires Distinct(q)
    ensures Distinct(Keep(q, dead))
  {
    if q != [] {
      KeepDistinct(q[1..], dead);
      KeepMembers(q[1..], dead);
      var rest := Keep(q[1..], dead);
      forall i | 0 <= i < |rest|
        ensures rest[i] != q[0]
      {
        assert rest[i] in Elements(rest);
        assert rest[i] in q[1..];
      }
    }
  }
}
