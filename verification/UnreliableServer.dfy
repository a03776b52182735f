/**
 asrv_unreliable: at-most-once service over a datagram transport, where the client
 retransmits and the server keeps only its last `maxrsize` replies.
 */
module UnreliableServer {
  import opened Octets
  import opened ReplayCache

  /** What happens at the server: a call arrives, is answered (and perhaps not cached), or
      is rejected or ignored. */
  datatype Event =
    | Arrive(x: Xid)
    | Answer(x: Xid, res: Bytes, nocache: bool)
    | Drop(x: Xid)

  datatype Cache = Cache(rtab: Table, rq: seq<Xid>)
  {
    /** The queue holds exactly the answered calls of the table, once each. */
    ghost predicate Valid() {
      && Distinct(rq)
      && (forall i :: 0 <= i < |rq| ==> rq[i] in rtab && rtab[rq[i]].Done?)
      && (forall x :: x in rtab && rtab[x].Done? ==> x in rq)
    }

    /** A call is handed to the service only if the table misses it. */
    predicate Misses(e: Event) {
      e.Arrive? && e.x !in rtab
    }

    predicate Enabled(e: Event) {
      e.Arrive? || (e.x in rtab && rtab[e.x].Pending?)
    }

    function Evicted(): Cache
      requires rq != []
    {
      Cache(rtab - {rq[0]}, rq[1..])
    }

    function Step(e: Event, maxrsize: nat): Cache {
      match e
      case Arrive(x) => if x in rtab then this else Cache(rtab[x := Pending], rq)
      case Drop(x) => Cache(rtab - {x}, rq)
      case Answer(x, res, nocache) =>
        if nocache then Cache(rtab - {x}, rq)
        else
          var c := Cache(rtab[x := Done(res, 0)], rq + [x]);
          if maxrsize < |c.rq| then c.Evicted() else c
    }
  }

  // ----- Histories

  function After(h: seq<Event>, maxrsize: nat): Cache {
    if h == [] then Cache(map[], [])
    else After(h[..|h| - 1], maxrsize).Step(h[|h| - 1], maxrsize)
  }

  ghost predicate Legal(h: seq<Event>, maxrsize: nat) {
    forall i :: 0 <= i < |h| ==> After(h[..i], maxrsize).Enabled(h[i])
  }

  /** Event `i` hands call `x` to the service. */
  ghost predicate Dispatches(h: seq<Event>, maxrsize: nat, i: nat, x: Xid) {
    i < |h| && h[i] == Arrive(x) && x !in After(h[..i], maxrsize).rtab
  }

  /** Cached replies from event `k` on. */
  function CachedFrom(h: seq<Event>, k: nat): nat {
    if |h| <= k then 0
    else CachedFrom(h[..|h| - 1], k) + if h[|h| - 1].Answer? && !h[|h| - 1].nocache then 1 else 0
  }

  /** Since event `i`, call `x` was rejected, ignored or answered without caching, or its
      reply has been pushed out by at least `maxrsize` later ones. */
  ghost predicate Excused(h: seq<Event>, maxrsize: nat, i: nat, x: Xid) {
    exists k :: i < k < |h| && Excuse(h, maxrsize, k, x)
  }

  ghost predicate Excuse(h: seq<Event>, maxrsize: nat, k: nat, x: Xid)
    requires k < |h|
  {
    || h[k] == Drop(x)
    || (h[k].Answer? && h[k].x == x && (h[k].nocache || maxrsize <= CachedFrom(h, k + 1)))
  }

  /** The entry at position `p` of the queue was answered at event `k`, with the replies
      behind it cached since, and was not dispatched since. */
  ghost predicate AnsweredAt(h: seq<Event>, maxrsize: nat, p: nat, k: nat) {
    var c := After(h, maxrsize);
    && p < |c.rq| && k < |h|
    && h[k].Answer? && !h[k].nocache && h[k].x == c.rq[p]
    && c.rq[p] in c.rtab && c.rtab[c.rq[p]] == Done(h[k].res, 0)
    && CachedFrom(h, k + 1) == |c.rq| - 1 - p
    && (forall i: nat :: Dispatches(h, maxrsize, i, c.rq[p]) ==> i < k)
  }

  ghost predicate Accounted(h: seq<Event>, maxrsize: nat, p: nat) {
    exists k: nat :: AnsweredAt(h, maxrsize, p, k)
  }

  ghost predicate Inv(h: seq<Event>, maxrsize: nat) {
    var c := After(h, maxrsize);
    && c.Valid() && |c.rq| <= maxrsize
    && (forall p :: 0 <= p < |c.rq| ==> Accounted(h, maxrsize, p))
    && (forall i: nat, x :: Dispatches(h, maxrsize, i, x) && x !in c.rtab ==> Excused(h, maxrsize, i, x))
  }

  lemma PrefixFacts(h: seq<Event>, e: Event, maxrsize: nat)
    ensures var g := h + [e];
            && g[..|h|] == h
            && After(g, maxrsize) == After(h, maxrsize).Step(e, maxrsize)
            && (forall i: nat, x :: i < |h| ==> (Dispatches(g, maxrsize, i, x) <==> Dispatches(h, maxrsize, i, x)))
            && (forall k :: 0 <= k <= |h| ==>
                  CachedFrom(g, k) == CachedFrom(h, k) + if e.Answer? && !e.nocache then 1 else 0)
  {
    var g := h + [e];
    assert g[..|h|] == h;
    assert forall i :: 0 <= i < |h| ==> g[..i] == h[..i];
  }

  /** An excuse stays one: later replies only add up. */
  lemma ExcuseStays(h: seq<Event>, e: Event, maxrsize: nat, i: nat, x: Xid)
    requires Excused(h, maxrsize, i, x)
    ensures Excused(h + [e], maxrsize, i, x)
  {
    PrefixFacts(h, e, maxrsize);
    var k :| i < k < |h| && Excuse(h, maxrsize, k, x);
    assert Excuse(h + [e], maxrsize, k, x);
  }

  /** The queue after a step that neither caches nor evicts. */
  lemma PositionsStay(h: seq<Event>, e: Event, maxrsize: nat, p: nat)
    requires Inv(h, maxrsize) && After(h, maxrsize).Enabled(e) && !(e.Answer? && !e.nocache)
    requires p < |After(h, maxrsize).rq|
    ensures After(h + [e], maxrsize).rq == After(h, maxrsize).rq
    ensures Accounted(h + [e], maxrsize, p)
  {
    PrefixFacts(h, e, maxrsize);
    assert Accounted(h, maxrsize, p);
    var k: nat :| AnsweredAt(h, maxrsize, p, k);
    var c, x := After(h, maxrsize), After(h, maxrsize).rq[p];
    assert x in c.rtab;
    assert AnsweredAt(h + [e], maxrsize, p, k);
  }

  /** Caching a reply appends it, and evicts the head of the queue if that is full. */
  lemma CachedStep(c: Cache, e: Event, maxrsize: nat, shift: nat, p: nat)
    requires c.Valid() && c.Enabled(e) && e.Answer? && !e.nocache
    requires shift == if maxrsize < |c.rq| + 1 then 1 else 0
    ensures var d := c.Step(e, maxrsize);
      && |d.rq| == |c.rq| + 1 - shift
      && (p < |d.rq| && p + shift < |c.rq| ==>
            var x := c.rq[p + shift]; d.rq[p] == x && x != e.x && x in c.rtab && x in d.rtab && d.rtab[x] == c.rtab[x])
      && (p < |d.rq| && p + shift == |c.rq| ==> d.rq[p] == e.x && e.x in d.rtab && d.rtab[e.x] == Done(e.res, 0))
  {
    assert e.x !in c.rq;
    if p + shift < |c.rq| {
      assert shift == 1 ==> c.rq[0] != c.rq[p + shift];
    }
  }

  lemma CachingPositions(h: seq<Event>, e: Event, maxrsize: nat, p: nat)
    requires Inv(h, maxrsize) && After(h, maxrsize).Enabled(e) && e.Answer? && !e.nocache
    requires p < |After(h + [e], maxrsize).rq|
    ensures Accounted(h + [e], maxrsize, p)
  {
    hide Cache.Step, Cache.Valid, Excused, Dispatches, After;
    PrefixFacts(h, e, maxrsize);
    var c := After(h, maxrsize);
    var shift := if maxrsize < |c.rq| + 1 then 1 else 0;
    CachedStep(c, e, maxrsize, shift, p);
    if p + shift == |c.rq| {
      assert CachedFrom(h + [e], |h| + 1) == 0;
      OnlyBefore(h, e, maxrsize);
      assert AnsweredAt(h + [e], maxrsize, p, |h|);
    } else {
      assert Accounted(h, maxrsize, p + shift);
      var k: nat :| AnsweredAt(h, maxrsize, p + shift, k);
      OnlyBefore(h, e, maxrsize);
      assert AnsweredAt(h + [e], maxrsize, p, k);
    }
  }

  /** An answer dispatches nothing. */
  lemma OnlyBefore(h: seq<Event>, e: Event, maxrsize: nat)
    requires e.Answer?
    ensures forall i: nat, x :: Dispatches(h + [e], maxrsize, i, x) ==> i < |h|
  {
  }

  /** Whatever leaves the table has an excuse. */
  lemma Forgotten(h: seq<Event>, e: Event, maxrsize: nat, i: nat, x: Xid)
    requires Inv(h, maxrsize) && After(h, maxrsize).Enabled(e)
    requires Dispatches(h + [e], maxrsize, i, x) && x !in After(h + [e], maxrsize).rtab
    ensures Excused(h + [e], maxrsize, i, x)
  {
    PrefixFacts(h, e, maxrsize);
    var c, g := After(h, maxrsize), h + [e];
    assert i < |h|;
    if x !in c.rtab {
      ExcuseStays(h, e, maxrsize, i, x);
    } else if e.x == x && (e.Drop? || e.nocache) {
      assert Excuse(g, maxrsize, |h|, x);
    } else if c.rq == [] {
      assert CachedFrom(g, |h| + 1) == 0;
      assert Excuse(g, maxrsize, |h|, x);
    } else {
      assert x == c.rq[0];
      assert Accounted(h, maxrsize, 0);
      var k: nat :| AnsweredAt(h, maxrsize, 0, k);
      assert Excuse(g, maxrsize, k, x);
    }
  }

  lemma StepValid(c: Cache, e: Event, maxrsize: nat)
    requires c.Valid() && c.Enabled(e) && |c.rq| <= maxrsize
    ensures c.Step(e, maxrsize).Valid() && |c.Step(e, maxrsize).rq| <= maxrsize
  {
    if e.Answer? && !e.nocache {
      var d := Cache(c.rtab[e.x := Done(e.res, 0)], c.rq + [e.x]);
      assert forall x :: x in d.rq && x != d.rq[0] ==> x in d.rq[1..];
    }
  }

  lemma {:induction false} HistoryInv(h: seq<Event>, maxrsize: nat)
    requires Legal(h, maxrsize)
    ensures Inv(h, maxrsize)
  {
    if h != [] {
      var g, e := h[..|h| - 1], h[|h| - 1];
      assert h == g + [e];
      assert forall i :: 0 <= i < |g| ==> g[..i] == h[..i];
      HistoryInv(g, maxrsize);
      hide Cache.Step, Cache.Valid, Dispatches, Excused, Accounted;
      PrefixFacts(g, e, maxrsize);
      StepValid(After(g, maxrsize), e, maxrsize);
      forall p | 0 <= p < |After(h, maxrsize).rq|
        ensures Accounted(h, maxrsize, p)
      {
        if e.Answer? && !e.nocache {
          CachingPositions(g, e, maxrsize, p);
        } else {
          PositionsStay(g, e, maxrsize, p);
        }
      }
      forall i: nat, x | Dispatches(h, maxrsize, i, x) && x !in After(h, maxrsize).rtab
        ensures Excused(h, maxrsize, i, x)
      {
        Forgotten(g, e, maxrsize, i, x);
      }
    }
  }

  /** A call is handed to the service a second time only with an excuse. */
  lemma RedispatchExcused(h: seq<Event>, maxrsize: nat, i: nat, j: nat, x: Xid)
    requires Legal(h, maxrsize) && i < j
    requires Dispatches(h, maxrsize, i, x) && Dispatches(h, maxrsize, j, x)
    ensures Excused(h[..j], maxrsize, i, x)
  {
    assert forall k :: 0 <= k < j ==> h[..j][..k] == h[..k];
    HistoryInv(h[..j], maxrsize);
    assert Dispatches(h[..j], maxrsize, i, x);
  }

  /** Event `i` is the last before event `n` that hands call `x` to the service. */
  ghost predicate Latest(h: seq<Event>, maxrsize: nat, i: nat, x: Xid, n: nat) {
    i < n <= |h| && Dispatches(h, maxrsize, i, x) && forall j: nat :: i < j < n ==> !Dispatches(h, maxrsize, j, x)
  }

  ghost predicate About(e: Event, x: Xid) {
    !e.Arrive? && e.x == x
  }

  lemma AfterNext(h: seq<Event>, maxrsize: nat, n: nat)
    requires n < |h|
    ensures After(h[..n + 1], maxrsize) == After(h[..n], maxrsize).Step(h[n], maxrsize)
  {
    assert h[..n + 1][..n] == h[..n];
  }

  /** Without a new dispatch, a call that was answered or dropped is not pending. */
  lemma {:induction false} NotPending(h: seq<Event>, maxrsize: nat, i: nat, x: Xid, k: nat, n: nat)
    requires Legal(h, maxrsize) && Latest(h, maxrsize, i, x, n) && i < k < n && About(h[k], x)
    ensures x in After(h[..n], maxrsize).rtab ==> After(h[..n], maxrsize).rtab[x].Done?
  {
    hide After;
    AfterNext(h, maxrsize, n - 1);
    if k < n - 1 {
      NotPending(h, maxrsize, i, x, k, n - 1);
      assert !Dispatches(h, maxrsize, n - 1, x);
    }
  }

  /** Without a new dispatch, a call that was dropped or answered nocache is not in the table. */
  lemma {:induction false} StaysGone(h: seq<Event>, maxrsize: nat, i: nat, x: Xid, k: nat, n: nat)
    requires Legal(h, maxrsize) && Latest(h, maxrsize, i, x, n) && i < k < n
    requires About(h[k], x) && (h[k].Answer? ==> h[k].nocache)
    ensures x !in After(h[..n], maxrsize).rtab
  {
    hide After;
    AfterNext(h, maxrsize, n - 1);
    if k < n - 1 {
      StaysGone(h, maxrsize, i, x, k, n - 1);
      assert !Dispatches(h, maxrsize, n - 1, x);
    }
  }

  /** A dispatch is answered or dropped once at most. */
  lemma AnsweredOnce(h: seq<Event>, maxrsize: nat, i: nat, x: Xid, k: nat, k': nat)
    requires Legal(h, maxrsize) && Latest(h, maxrsize, i, x, |h|)
    requires i < k < |h| && i < k' < |h| && About(h[k], x) && About(h[k'], x)
    ensures k == k'
  {
    hide After;
    if k < k' {
      NotPending(h, maxrsize, i, x, k, k');
    } else if k' < k {
      NotPending(h, maxrsize, i, x, k', k);
    }
  }

  /** An excuse means that the table has lost the call. */
  lemma ExcuseGone(h: seq<Event>, maxrsize: nat, i: nat, x: Xid, k: nat)
    requires Legal(h, maxrsize) && Latest(h, maxrsize, i, x, |h|) && i < k < |h| && Excuse(h, maxrsize, k, x)
    ensures x !in After(h, maxrsize).rtab
  {
    hide After, Legal, Dispatches, CachedFrom;
    assert h[..|h|] == h;
    NotPending(h, maxrsize, i, x, k, |h|);
    if h[k].Answer? && !h[k].nocache {
      HistoryInv(h, maxrsize);
      hide Inv, Latest;
      if x in After(h, maxrsize).rtab {
        AnswerLatest(h, maxrsize, i, x, k);
      }
    } else {
      StaysGone(h, maxrsize, i, x, k, |h|);
    }
  }

  lemma AnswerLatest(h: seq<Event>, maxrsize: nat, i: nat, x: Xid, k: nat)
    requires Legal(h, maxrsize) && Inv(h, maxrsize) && Latest(h, maxrsize, i, x, |h|)
    requires i < k < |h| && About(h[k], x) && x in After(h, maxrsize).rtab && After(h, maxrsize).rtab[x].Done?
    ensures CachedFrom(h, k + 1) < maxrsize
  {
    hide After, Inv, Legal, CachedFrom;
    var k' := AnswerOf(h, maxrsize, x);
    AnsweredOnce(h, maxrsize, i, x, k, k');
  }

  /** The next copy of a call is handed to the service if and only if there is an excuse since
      the latest time it was. */
  lemma RedispatchIff(h: seq<Event>, maxrsize: nat, i: nat, x: Xid)
    requires Legal(h, maxrsize) && Latest(h, maxrsize, i, x, |h|)
    ensures After(h, maxrsize).Misses(Arrive(x)) <==> Excused(h, maxrsize, i, x)
  {
    if Excused(h, maxrsize, i, x) {
      hide After, Legal, Latest, Excuse;
      var k :| i < k < |h| && Excuse(h, maxrsize, k, x);
      ExcuseGone(h, maxrsize, i, x, k);
    } else {
      hide After, Legal, Inv, Excused;
      HistoryInv(h, maxrsize);
      NoExcuse(h, maxrsize, i, x);
    }
  }

  lemma NoExcuse(h: seq<Event>, maxrsize: nat, i: nat, x: Xid)
    requires Inv(h, maxrsize) && Dispatches(h, maxrsize, i, x) && !Excused(h, maxrsize, i, x)
    ensures x in After(h, maxrsize).rtab
  {
  }

  /** The answer that is cached: fewer than `maxrsize` replies were cached since. */
  lemma AnswerOf(h: seq<Event>, maxrsize: nat, x: Xid) returns (k: nat)
    requires Inv(h, maxrsize) && x in After(h, maxrsize).rtab && After(h, maxrsize).rtab[x].Done?
    ensures k < |h| && h[k] == Answer(x, After(h, maxrsize).rtab[x].res, false)
    ensures CachedFrom(h, k + 1) < maxrsize && forall i: nat :: Dispatches(h, maxrsize, i, x) ==> i < k
  {
    var c := After(h, maxrsize);
    var p :| 0 <= p < |c.rq| && c.rq[p] == x;
    assert Accounted(h, maxrsize, p);
    k :| AnsweredAt(h, maxrsize, p, k);
  }

  /** Any other duplicate is dropped, or answered with the bytes of its latest answer,
      given after its latest dispatch. */
  lemma DuplicateReplayed(h: seq<Event>, maxrsize: nat, x: Xid)
    requires Legal(h, maxrsize) && x in After(h, maxrsize).rtab && After(h, maxrsize).rtab[x].Done?
    ensures exists k :: 0 <= k < |h| && h[k] == Answer(x, After(h, maxrsize).rtab[x].res, false)
                        && forall i: nat :: Dispatches(h, maxrsize, i, x) ==> i < k
  {
    HistoryInv(h, maxrsize);
    var k := AnswerOf(h, maxrsize, x);
  }

  /** The server object. */
  class Asrv {
    const maxrsize: nat
    var rtab: Table
    var rq: seq<Xid>
    var rsize: nat
    var eof: bool         // the transport is at end of file
    var wire: seq<Bytes>  // what was handed to the transport

    ghost function State(): Cache
      reads this
    {
      Cache(rtab, rq)
    }

    ghost predicate Valid()
      reads this
    {
      State().Valid() && rsize == |rq| <= maxrsize
    }

    constructor (maxrsize: nat)
      ensures Valid() && State() == After([], maxrsize) && wire == [] && this.maxrsize == maxrsize
    {
      this.maxrsize := maxrsize;
      rtab, rq, rsize, eof, wire := map[], [], 0, false, [];
    }

    method IsReplay(x: Xid) returns (replay: bool)
      requires Valid()
      modifies this`rtab, this`wire
      ensures Valid() && State() == old(State()).Step(Arrive(x), maxrsize)
      ensures replay == !old(State()).Misses(Arrive(x))
      ensures wire == old(wire) + if replay && old(rtab[x]).Done? then [old(rtab[x]).res] else []
    {
      replay := x in rtab;
      if !replay {
        rtab := rtab[x := Pending];
      } else if rtab[x].Done? {
        wire := wire + [rtab[x].res];
      }
    }

    method SendReply(x: Xid, res: Bytes, nocache: bool)
      requires Valid() && State().Enabled(Answer(x, res, nocache))
      modifies this`rtab, this`rq, this`rsize, this`wire
      ensures Valid() && State() == old(State()).Step(Answer(x, res, nocache), maxrsize)
      ensures wire == old(wire) + if eof then [] else [res]
    {
      StepValid(State(), Answer(x, res, nocache), maxrsize);
      if !eof {
        wire := wire + [res];
      }
      if nocache {
        rtab := rtab - {x};
        return;
      }
      rtab := rtab[x := Done(res, 0)];
      rsize := rsize + 1;
      rq := rq + [x];
      ghost var c := State();
      while maxrsize < rsize
        invariant rsize == |rq| && wire == old(wire) + if eof then [] else [res]
        invariant maxrsize < rsize ==> State() == c && |c.rq| == maxrsize + 1
        invariant rsize <= maxrsize ==> State() == if maxrsize < |c.rq| then c.Evicted() else c
      {
        rtab, rq := rtab - {rq[0]}, rq[1..];
        rsize := rsize - 1;
      }
    }

    method Reject(x: Xid)
      requires Valid() && State().Enabled(Drop(x))
      modifies this`rtab
      ensures Valid() && State() == old(State()).Step(Drop(x), maxrsize)
    {
      rtab := rtab - {x};
    }
  }
}
