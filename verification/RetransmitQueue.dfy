/**
 tmoq: retransmission with exponential backoff. One queue per attempt; the entries of
 queue n wait minto << n seconds before moving on to queue n + 1, or timing out.
 */
module RetransmitQueue {
  import ReplayCache

  /** An entry's queue (`maxsend` if in none) and deadline, and its history: when it was
      first sent, as which attempts it was sent, and whether it ever timed out. */
  datatype Entry = Entry(qno: nat, tm: nat, began: nat, sent: seq<nat>, expired: bool)

  /** What the owner of an entry did with it, or was told. */
  datatype Event = Started(id: nat) | TimedOut(id: nat) | TriedAgain(id: nat) | Removed(id: nat)

  /** The last event of an entry put it into a queue. */
  predicate Active(log: seq<Event>, id: nat) {
    if log == [] then false
    else var e := log[|log| - 1]; if e.id == id then e.Started? || e.TriedAgain? else Active(log[..|log| - 1], id)
  }

  /** Every event finds its entry in a queue, if it takes it out, or in none, if it puts it in. */
  predicate Proper(log: seq<Event>) {
    log == [] || (Proper(log[..|log| - 1])
                  && var e := log[|log| - 1]; (e.TimedOut? || e.Removed?) == Active(log[..|log| - 1], e.id))
  }

  /** The entries timed out, and those removed, in order. */
  function TimedOuts(log: seq<Event>): seq<nat> {
    if log == [] then []
    else var e := log[|log| - 1]; TimedOuts(log[..|log| - 1]) + if e.TimedOut? then [e.id] else []
  }

  ghost function RemovedIds(log: seq<Event>): set<nat> {
    set e | e in log && e.Removed? :: e.id
  }

  datatype Pending = Idle | At(time: nat)

  /** minto << qn */
  function Wait(minto: nat, qn: nat): nat {
    if qn == 0 then minto else 2 * Wait(minto, qn - 1)
  }

  /** The waits of the first `qn` attempts together. */
  function Waits(minto: nat, qn: nat): nat {
    if qn == 0 then 0 else Waits(minto, qn - 1) + Wait(minto, qn - 1)
  }

  lemma {:induction false} WaitsSum(minto: nat, qn: nat)
    ensures Waits(minto, qn) == Wait(minto, qn) - minto
  {
    if qn != 0 {
      WaitsSum(minto, qn - 1);
    }
  }

  /** With the default parameters, 62 seconds. */
  lemma DefaultWait()
    ensures Waits(2, 5) == 62
  {
    WaitsSum(2, 5);
    assert Wait(2, 5) == 2 * Wait(2, 4) == 4 * Wait(2, 3) == 8 * Wait(2, 2) == 16 * Wait(2, 1);
  }

  function Attempts(n: nat): seq<nat> {
    seq(n, i => i)
  }

  /** Before its first timeout an entry in queue `qn` was sent as attempts 0 to qn, in order,
      and is not due before their waits are over. */
  ghost predicate Trying(e: Entry, minto: nat, qn: nat) {
    !e.expired ==> e.sent == Attempts(qn + 1) && e.began + Waits(minto, qn + 1) <= e.tm
  }

  /** An entry that timed out was sent as every attempt, in order, and given all their waits. */
  ghost predicate Spent(e: Entry, minto: nat, maxsend: nat, now: nat) {
    e.expired ==> Attempts(maxsend) <= e.sent && e.began + Waits(minto, maxsend) <= now
  }

  ghost predicate InOrder(q: seq<nat>, entry: map<nat, Entry>) {
    && (forall i :: 0 <= i < |q| ==> q[i] in entry)
    && (forall i, j :: 0 <= i < j < |q| ==> q[i] != q[j] && entry[q[i]].tm <= entry[q[j]].tm)
  }

  /** A queue: its entries know it and are in order of their deadlines, and a timer, if
      pending, is not later than the first deadline, nor than that of an entry yet to come. */
  ghost predicate Listed(q: seq<nat>, qn: nat, entry: map<nat, Entry>, p: Pending, minto: nat, now: nat) {
    && InOrder(q, entry)
    && (forall i :: 0 <= i < |q| ==> entry[q[i]].qno == qn && entry[q[i]].tm <= now + Wait(minto, qn) && Trying(entry[q[i]], minto, qn))
    && (p.At? ==> p.time <= now + Wait(minto, qn) && (q != [] ==> p.time <= entry[q[0]].tm))
  }

  /** A queue does not notice changes to entries outside it. */
  lemma ListedFrame(q: seq<nat>, qn: nat, entry: map<nat, Entry>, entry': map<nat, Entry>, p: Pending, minto: nat, now: nat, now': nat)
    requires Listed(q, qn, entry, p, minto, now) && now <= now'
    requires forall id :: id in q && id in entry ==> id in entry' && entry'[id] == entry[id]
    ensures Listed(q, qn, entry', p, minto, now')
  {
    assert forall i :: 0 <= i < |q| ==> q[i] in q;
  }

  /** A new deadline is the latest of its queue. */
  lemma ListedAppend(q: seq<nat>, qn: nat, entry: map<nat, Entry>, p: Pending, minto: nat, now: nat, id: nat, e: Entry)
    requires Listed(q, qn, entry, p, minto, now) && id !in q
    requires e.qno == qn && e.tm == now + Wait(minto, qn) && Trying(e, minto, qn)
    ensures Listed(q + [id], qn, entry[id := e], p, minto, now)
  {
    assert forall i :: 0 <= i < |q| ==> q[i] in q;
    var q' := q + [id];
    assert forall i :: 0 <= i < |q| ==> q'[i] == q[i];
  }

  function Without(q: seq<nat>, k: nat): seq<nat>
    requires k < |q|
  {
    q[..k] + q[k + 1..]
  }

  lemma ListedRemove(q: seq<nat>, qn: nat, entry: map<nat, Entry>, p: Pending, minto: nat, now: nat, k: nat)
    requires Listed(q, qn, entry, p, minto, now) && k < |q|
    ensures Listed(Without(q, k), qn, entry, p, minto, now)
    ensures forall id :: id in Without(q, k) <==> id in q && id != q[k]
  {
    var q' := Without(q, k);
    assert forall i :: 0 <= i < |q'| ==> q'[i] == if i < k then q[i] else q[i + 1];
    forall id | id in q && id != q[k]
      ensures id in q'
    {
      var i :| 0 <= i < |q| && q[i] == id;
      assert q'[if i < k then i else i - 1] == id;
    }
  }

  /** The queues, their timers, the entries, the time, and what happened so far. */
  datatype State = State(minto: nat, maxsend: nat, queue: seq<seq<nat>>, pending: seq<Pending>,
                         entry: map<nat, Entry>, now: nat, log: seq<Event>)
  {
    /** All queues are in order; each non-empty one outside `ex` has a timer pending; each
        entry is in the queue it says and in no other. */
    ghost predicate Ready(ex: set<nat>) {
      && 0 < minto && 0 < maxsend == |queue| == |pending|
      && (forall qn :: 0 <= qn < maxsend ==> Listed(queue[qn], qn, entry, pending[qn], minto, now))
      && (forall qn :: 0 <= qn < maxsend && qn !in ex && queue[qn] != [] ==> pending[qn].At?)
      && (forall id :: id in entry ==> entry[id].qno < maxsend && id in queue[entry[id].qno])
      && (forall id :: id in entry ==> Spent(entry[id], minto, maxsend, now))
    }

    /** The entries in queues are those started, or tried again, and neither removed nor timed out
        since. */
    ghost predicate Accounted() {
      Proper(log) && forall id :: id in entry <==> Active(log, id)
    }

    /** The due entries of the last queue, in order. */
    function Expiring(): seq<nat> {
      if queue == [] then [] else DueSeq(queue[|queue| - 1], entry, now)
    }

    /** An entry is put at the end of queue `qn` and sent. */
    function Appended(id: nat, qn: nat, e: Entry): State
      requires qn < |queue|
    {
      this.(queue := queue[qn := queue[qn] + [id]],
            entry := entry[id := Entry(qn, now + Wait(minto, qn), e.began, e.sent + [qn], e.expired)])
    }

    /** The k-th entry of queue `qn` is unlinked. */
    function Unlinked(qn: nat, k: nat): State
      requires qn < |queue| && k < |queue[qn]|
    {
      this.(queue := queue[qn := Without(queue[qn], k)], entry := entry - {queue[qn][k]})
    }
  }

  lemma AppendedReady(s: State, id: nat, qn: nat, e: Entry, ex: set<nat>)
    requires s.Ready(ex) && qn < s.maxsend && id !in s.entry
    requires Spent(e, s.minto, s.maxsend, s.now)
    requires !e.expired ==> e.sent == Attempts(qn) && e.began + Waits(s.minto, qn) <= s.now
    ensures s.Appended(id, qn, e).Ready(ex + {qn})
  {
    hide Listed;
    var t := s.Appended(id, qn, e);
    assert Attempts(qn) + [qn] == Attempts(qn + 1);
    forall q | 0 <= q < s.maxsend
      ensures Listed(t.queue[q], q, t.entry, t.pending[q], t.minto, t.now)
    {
      NotListed(s, q, id);
      if q == qn {
        ListedAppend(s.queue[q], q, s.entry, s.pending[q], s.minto, s.now, id, t.entry[id]);
      } else {
        ListedFrame(s.queue[q], q, s.entry, t.entry, s.pending[q], s.minto, s.now, s.now);
      }
    }
  }

  lemma NotListed(s: State, qn: nat, id: nat)
    requires qn < |s.queue| == |s.pending| && Listed(s.queue[qn], qn, s.entry, s.pending[qn], s.minto, s.now)
    ensures id !in s.entry ==> id !in s.queue[qn]
    ensures id in s.entry && s.entry[id].qno != qn ==> id !in s.queue[qn]
  {
  }

  lemma UnlinkedListed(s: State, qn: nat, k: nat, ex: set<nat>, q: nat)
    requires s.Ready(ex) && qn < s.maxsend && k < |s.queue[qn]| && q < s.maxsend
    ensures s.queue[qn][k] in s.entry && s.entry[s.queue[qn][k]].qno == qn
    ensures var t := s.Unlinked(qn, k); Listed(t.queue[q], q, t.entry, t.pending[q], t.minto, t.now)
    ensures forall x :: x in s.Unlinked(qn, k).queue[q] <==> x in s.queue[q] && x != s.queue[qn][k]
  {
    var t, id := s.Unlinked(qn, k), s.queue[qn][k];
    assert Listed(s.queue[qn], qn, s.entry, s.pending[qn], s.minto, s.now);
    assert Listed(s.queue[q], q, s.entry, s.pending[q], s.minto, s.now);
    assert id in s.entry && s.entry[id].qno == qn;
    hide State.Ready;
    ListedRemove(s.queue[qn], qn, s.entry, s.pending[qn], s.minto, s.now, k);
    hide Listed, Without;
    NotListed(s, q, id);
    ListedFrame(t.queue[q], q, s.entry, t.entry, s.pending[q], s.minto, s.now, s.now);
  }

  lemma UnlinkedReady(s: State, qn: nat, k: nat, ex: set<nat>)
    requires s.Ready(ex) && qn < s.maxsend && k < |s.queue[qn]|
    ensures s.queue[qn][k] in s.entry && s.entry[s.queue[qn][k]].qno == qn
    ensures s.Unlinked(qn, k).Ready(ex)
  {
    hide Listed, Without;
    var t := s.Unlinked(qn, k);
    forall q | 0 <= q < s.maxsend
      ensures Listed(t.queue[q], q, t.entry, t.pending[q], t.minto, t.now)
      ensures forall x :: x in t.queue[q] <==> x in s.queue[q] && x != s.queue[qn][k]
      ensures t.queue[q] != [] ==> s.queue[q] != []
    {
      UnlinkedListed(s, qn, k, ex, q);
      assert t.queue[q] != [] ==> t.queue[q][0] in t.queue[q];
    }
    UnlinkedListed(s, qn, k, ex, qn);
  }

  /** Time passes. */
  lemma LaterReady(s: State, later: nat, ex: set<nat>)
    requires s.Ready(ex) && s.now <= later
    ensures s.(now := later).Ready(ex)
  {
    hide Listed;
    forall q | 0 <= q < s.maxsend
      ensures Listed(s.queue[q], q, s.entry, s.pending[q], s.minto, later)
    {
      ListedFrame(s.queue[q], q, s.entry, s.entry, s.pending[q], s.minto, s.now, later);
    }
  }

  lemma Shape(s: State, ex: set<nat>)
    requires s.Ready(ex)
    ensures 0 < s.minto && 0 < s.maxsend == |s.queue| == |s.pending|
    ensures forall ex' :: ex <= ex' ==> s.Ready(ex')
  {
  }

  /** The entries of a queue whose deadline has come. */
  ghost function Due(q: seq<nat>, entry: map<nat, Entry>, now: nat): set<nat> {
    set id | id in q && id in entry && entry[id].tm <= now
  }

  /** The same in queue order. */
  function DueSeq(q: seq<nat>, entry: map<nat, Entry>, now: nat): seq<nat> {
    if q == [] then []
    else (if q[0] in entry && entry[q[0]].tm <= now then [q[0]] else []) + DueSeq(q[1..], entry, now)
  }

  lemma {:induction false} DueSeqIs(q: seq<nat>, entry: map<nat, Entry>, now: nat)
    ensures forall id :: id in DueSeq(q, entry, now) <==> id in Due(q, entry, now)
    ensures ReplayCache.Distinct(q) ==> ReplayCache.Distinct(DueSeq(q, entry, now))
  {
    if q != [] {
      var rest := DueSeq(q[1..], entry, now);
      DueSeqIs(q[1..], entry, now);
      assert forall id :: id in q <==> id == q[0] || id in q[1..];
      if ReplayCache.Distinct(q) {
        forall i | 0 <= i < |rest|
          ensures rest[i] != q[0]
        {
          assert rest[i] in rest;
          assert rest[i] in q[1..];
        }
      }
    }
  }

  /** What is not in the queue does not matter, and what is later is not due. */
  lemma {:induction false} DueSeqLater(q: seq<nat>, entry: map<nat, Entry>, now: nat, more: seq<nat>, entry': map<nat, Entry>)
    requires forall id :: id in q && id in entry ==> id in entry' && entry'[id] == entry[id]
    requires forall id :: id in q && id !in entry ==> id !in entry'
    requires forall id :: id in more && id in entry' ==> now < entry'[id].tm
    ensures DueSeq(q + more, entry', now) == DueSeq(q, entry, now)
  {
    if q != [] {
      assert (q + more)[1..] == q[1..] + more;
      DueSeqLater(q[1..], entry, now, more, entry');
    } else {
      assert q + more == more;
      NoneDue(more, entry', now);
    }
  }

  lemma {:induction false} NoneDue(q: seq<nat>, entry: map<nat, Entry>, now: nat)
    requires forall id :: id in q && id in entry ==> now < entry[id].tm
    ensures DueSeq(q, entry, now) == []
  {
    if q != [] {
      NoneDue(q[1..], entry, now);
    }
  }

  lemma DueSeqHead(q: seq<nat>, entry: map<nat, Entry>, now: nat)
    requires q != [] && ReplayCache.Distinct(q)
    ensures DueSeq(q[1..], entry - {q[0]}, now) == ReplayCache.Keep(DueSeq(q, entry, now), {q[0]})
  {
    var h, rest := if q[0] in entry && entry[q[0]].tm <= now then [q[0]] else [], DueSeq(q[1..], entry, now);
    DueSeqLater(q[1..], entry, now, [], entry - {q[0]});
    assert q[1..] + [] == q[1..];
    DueSeqIs(q[1..], entry, now);
    assert DueSeq(q, entry, now) == h + rest;
    hide DueSeq;
    KeepJoin(h, rest, {q[0]});
    ReplayCache.KeepAll(rest, {q[0]});
    assert ReplayCache.Keep(h, {q[0]}) == [];
  }

  /** Unlinking an entry takes it out of the due ones. */
  lemma {:induction false} DueSeqWithout(q: seq<nat>, entry: map<nat, Entry>, now: nat, k: nat)
    requires k < |q| && ReplayCache.Distinct(q)
    ensures DueSeq(Without(q, k), entry - {q[k]}, now) == ReplayCache.Keep(DueSeq(q, entry, now), {q[k]})
  {
    if k == 0 {
      assert Without(q, 0) == q[1..];
      DueSeqHead(q, entry, now);
    } else {
      var w, h := Without(q, k), if q[0] in entry && entry[q[0]].tm <= now then [q[0]] else [];
      assert w[1..] == Without(q[1..], k - 1) && w[0] == q[0] != q[k];
      DueSeqWithout(q[1..], entry, now, k - 1);
      assert DueSeq(q, entry, now) == h + DueSeq(q[1..], entry, now);
      assert DueSeq(w, entry - {q[k]}, now) == h + DueSeq(w[1..], entry - {q[k]}, now);
      hide DueSeq;
      KeepJoin(h, DueSeq(q[1..], entry, now), {q[k]});
      ReplayCache.KeepAll(h, {q[k]});
    }
  }

  lemma {:induction false} KeepJoin(p: seq<nat>, q: seq<nat>, dead: set<nat>)
    ensures ReplayCache.Keep(p + q, dead) == ReplayCache.Keep(p, dead) + ReplayCache.Keep(q, dead)
  {
    if p == [] {
      assert p + q == q;
    } else {
      assert (p + q)[1..] == p[1..] + q;
      KeepJoin(p[1..], q, dead);
    }
  }

  lemma {:induction false} KeepTwice(q: seq<nat>, a: set<nat>, b: set<nat>)
    ensures ReplayCache.Keep(ReplayCache.Keep(q, a), b) == ReplayCache.Keep(q, a + b)
  {
    if q != [] {
      KeepTwice(q[1..], a, b);
      KeepJoin(if q[0] in a then [] else [q[0]], ReplayCache.Keep(q[1..], a), b);
    }
  }

  // ----- The record of events

  lemma Pushed(log: seq<Event>, e: Event)
    ensures Proper(log + [e]) <==> Proper(log) && (e.TimedOut? || e.Removed?) == Active(log, e.id)
    ensures forall id :: Active(log + [e], id) == if id == e.id then e.Started? || e.TriedAgain? else Active(log, id)
    ensures TimedOuts(log + [e]) == TimedOuts(log) + if e.TimedOut? then [e.id] else []
    ensures RemovedIds(log + [e]) == RemovedIds(log) + if e.Removed? then {e.id} else {}
  {
    assert (log + [e])[..|log|] == log;
    assert forall f :: f in log + [e] <==> f in log || f == e;
  }

  /** How often an entry was put into a queue, and how often it left by timing out or by removal. */
  function Ins(log: seq<Event>, id: nat): nat {
    if log == [] then 0
    else var e := log[|log| - 1]; Ins(log[..|log| - 1], id) + if e.id == id && (e.Started? || e.TriedAgain?) then 1 else 0
  }

  function Outs(log: seq<Event>, id: nat): nat {
    if log == [] then 0
    else var e := log[|log| - 1]; Outs(log[..|log| - 1], id) + if e.id == id && (e.TimedOut? || e.Removed?) then 1 else 0
  }

  lemma {:induction false} Balanced(log: seq<Event>, id: nat)
    requires Proper(log)
    ensures Ins(log, id) == Outs(log, id) + if Active(log, id) then 1 else 0
  {
    if log != [] {
      Balanced(log[..|log| - 1], id);
    }
  }

  /** Every time an entry was started or tried again it is still in its queue, or timed out, or was
      removed, exactly one of them. */
  lemma NoneLost(s: State, id: nat)
    requires s.Accounted()
    ensures Ins(s.log, id) == Outs(s.log, id) + if id in s.entry then 1 else 0
  {
    Balanced(s.log, id);
  }

  lemma {:induction false} TimedOutsJoin(p: seq<Event>, q: seq<Event>)
    ensures TimedOuts(p + q) == TimedOuts(p) + TimedOuts(q)
    ensures RemovedIds(p + q) == RemovedIds(p) + RemovedIds(q)
  {
    if q == [] {
      assert p + q == p;
    } else {
      var r, e := q[..|q| - 1], q[|q| - 1];
      assert q == r + [e] && p + q == (p + r) + [e];
      TimedOutsJoin(p, r);
      Pushed(p + r, e);
      Pushed(r, e);
    }
  }

  /** Owners have done this and that, and nothing timed out meanwhile: the due entries of the last
      queue are those they did not remove. */
  ghost predicate Dwindled(s: State, t: State, dead: set<nat>) {
    && s.log <= t.log && t.now == s.now && |t.queue| == |s.queue|
    && TimedOuts(t.log[|s.log|..]) == []
    && dead <= RemovedIds(t.log[|s.log|..]) && dead <= ReplayCache.Elements(s.Expiring())
    && t.Expiring() == ReplayCache.Keep(s.Expiring(), dead)
  }

  lemma DwindledNone(s: State, t: State)
    requires t.log == s.log && t.now == s.now && |t.queue| == |s.queue| && t.Expiring() == s.Expiring()
    ensures Dwindled(s, t, {})
  {
    ReplayCache.KeepAll(s.Expiring(), {});
    assert t.log[|s.log|..] == [];
  }

  lemma DwindledThen(s: State, t: State, u: State, d: set<nat>, e: set<nat>)
    requires Dwindled(s, t, d) && Dwindled(t, u, e)
    ensures Dwindled(s, u, d + e)
  {
    hide State.Expiring, TimedOuts, RemovedIds, ReplayCache.Keep;
    assert u.log[|s.log|..] == t.log[|s.log|..] + u.log[|t.log|..];
    TimedOutsJoin(t.log[|s.log|..], u.log[|t.log|..]);
    KeepTwice(s.Expiring(), d, e);
    ReplayCache.KeepMembers(s.Expiring(), d);
  }

  lemma QueueDistinct(s: State, qn: nat, ex: set<nat>)
    requires s.Ready(ex) && qn < s.maxsend
    ensures ReplayCache.Distinct(s.queue[qn]) && forall id :: id in s.queue[qn] ==> id in s.entry && s.entry[id].qno == qn
  {
    assert Listed(s.queue[qn], qn, s.entry, s.pending[qn], s.minto, s.now);
  }

  /** A new entry in any queue is not due, and makes no other due. */
  lemma AppendedDue(s: State, id: nat, qn: nat, e: Entry, q: nat, ex: set<nat>)
    requires s.Ready(ex) && qn < s.maxsend && q < s.maxsend && id !in s.entry
    ensures var t := s.Appended(id, qn, e); DueSeq(t.queue[q], t.entry, t.now) == DueSeq(s.queue[q], s.entry, s.now)
  {
    hide Listed;
    WaitsSum(s.minto, qn);
    QueueDistinct(s, q, ex);
    hide State.Ready, DueSeq;
    var t := s.Appended(id, qn, e);
    var more := if q == qn then [id] else [];
    assert t.queue[q] == s.queue[q] + more;
    DueSeqLater(s.queue[q], s.entry, s.now, more, t.entry);
  }

  /** An entry unlinked is no longer due, and no other is affected. */
  lemma UnlinkedDue(s: State, qn: nat, k: nat, q: nat, ex: set<nat>)
    requires s.Ready(ex) && qn < s.maxsend && k < |s.queue[qn]| && q < s.maxsend
    ensures s.queue[qn][k] in s.entry && s.entry[s.queue[qn][k]].qno == qn
    ensures var t := s.Unlinked(qn, k);
      DueSeq(t.queue[q], t.entry, t.now) == ReplayCache.Keep(DueSeq(s.queue[q], s.entry, s.now), {s.queue[qn][k]})
  {
    hide Listed;
    QueueDistinct(s, qn, ex);
    QueueDistinct(s, q, ex);
    hide State.Ready, DueSeq;
    var t, id := s.Unlinked(qn, k), s.queue[qn][k];
    if q == qn {
      DueSeqWithout(s.queue[q], s.entry, s.now, k);
    } else {
      assert id !in s.queue[q];
      DueSeqLater(s.queue[q], s.entry, s.now, [], t.entry);
      assert t.queue[q] == s.queue[q] + [];
      DueSeqIs(s.queue[q], s.entry, s.now);
      ReplayCache.KeepAll(DueSeq(s.queue[q], s.entry, s.now), {id});
    }
  }

  /** A due head is the first of the due entries; unlinked, it leaves the others. */
  lemma HeadDue(s: State, qn: nat, ex: set<nat>)
    requires s.Ready(ex) && qn < s.maxsend && s.queue[qn] != []
    requires s.queue[qn][0] in s.entry && s.entry[s.queue[qn][0]].tm <= s.now
    ensures var t, d := s.Unlinked(qn, 0), DueSeq(s.queue[qn], s.entry, s.now);
      d != [] && d[0] == s.queue[qn][0] && DueSeq(t.queue[qn], t.entry, t.now) == d[1..] && ReplayCache.Distinct(d)
  {
    hide Listed;
    QueueDistinct(s, qn, ex);
    UnlinkedDue(s, qn, 0, qn, ex);
    hide State.Ready;
    var d := DueSeq(s.queue[qn], s.entry, s.now);
    DueSeqIs(s.queue[qn], s.entry, s.now);
    assert d == [s.queue[qn][0]] + DueSeq(s.queue[qn][1..], s.entry, s.now);
    ReplayCache.KeepSuffix(d, {d[0]}, 1);
  }

  /** The first entry of a queue tells whether any is due; it has had all its attempts so far. */
  lemma Head(s: State, qn: nat, ex: set<nat>)
    requires s.Ready(ex) && qn < s.maxsend
    ensures s.queue[qn] != [] ==>
      var id := s.queue[qn][0];
      && id in s.entry && Trying(s.entry[id], s.minto, qn) && Spent(s.entry[id], s.minto, s.maxsend, s.now)
      && (id in Due(s.queue[qn], s.entry, s.now) <==> s.entry[id].tm <= s.now)
    ensures Due(s.queue[qn], s.entry, s.now) == {} <==> s.queue[qn] != [] ==> s.now < s.entry[s.queue[qn][0]].tm
  {
    assert Listed(s.queue[qn], qn, s.entry, s.pending[qn], s.minto, s.now);
    forall id | id in s.queue[qn]
      ensures s.entry[s.queue[qn][0]].tm <= s.entry[id].tm
    {
      var i :| 0 <= i < |s.queue[qn]| && s.queue[qn][i] == id;
    }
  }

  /** The first k entries of queue `qn`, and only they, went to the end of the next queue in
      the order they had, each with a new deadline and one more transmission. */
  ghost predicate MovedOn(s: State, t: State, qn: nat, k: nat) {
    && qn + 1 < |s.queue| && k <= |s.queue[qn]|
    && t.queue == s.queue[qn := s.queue[qn][k..]][qn + 1 := s.queue[qn + 1] + s.queue[qn][..k]]
    && t.entry.Keys == s.entry.Keys && t.now == s.now && t.minto == s.minto && t.log == s.log
    && (forall id :: id in s.entry && id !in s.queue[qn][..k] ==> t.entry[id] == s.entry[id])
    && (forall id :: id in s.entry && id in s.queue[qn][..k] ==>
          t.entry[id] == Entry(qn + 1, s.now + Wait(s.minto, qn + 1), s.entry[id].began, s.entry[id].sent + [qn + 1], s.entry[id].expired))
  }

  lemma MovedNone(s: State, qn: nat)
    ensures qn + 1 < |s.queue| ==> MovedOn(s, s, qn, 0)
  {
    if qn + 1 < |s.queue| {
      assert s.queue[qn][0..] == s.queue[qn] && s.queue[qn + 1] + s.queue[qn][..0] == s.queue[qn + 1];
      assert s.queue == s.queue[qn := s.queue[qn]][qn + 1 := s.queue[qn + 1]];
    }
  }

  lemma MovedQueues(s: State, t: State, qn: nat, k: nat)
    requires MovedOn(s, t, qn, k) && t.queue[qn] != []
    ensures k < |s.queue[qn]| && t.queue[qn][0] == s.queue[qn][k]
    ensures s.queue[qn][..k + 1] == s.queue[qn][..k] + [s.queue[qn][k]]
    ensures var u := t.queue[qn := Without(t.queue[qn], 0)];
      u[qn + 1 := u[qn + 1] + [t.queue[qn][0]]] == s.queue[qn := s.queue[qn][k + 1..]][qn + 1 := s.queue[qn + 1] + s.queue[qn][..k + 1]]
  {
    var q := s.queue[qn];
    assert t.queue[qn] == q[k..] && t.queue[qn + 1] == s.queue[qn + 1] + q[..k];
    assert Without(q[k..], 0) == q[k + 1..];
    assert s.queue[qn + 1] + q[..k] + [q[k]] == s.queue[qn + 1] + q[..k + 1];
  }

  lemma MovedStep(s: State, t: State, u: State, qn: nat, k: nat)
    requires MovedOn(s, t, qn, k) && t.queue[qn] != [] && t.queue[qn][0] in t.entry && ReplayCache.Distinct(s.queue[qn])
    requires u == t.Unlinked(qn, 0).Appended(t.queue[qn][0], qn + 1, t.entry[t.queue[qn][0]]).(pending := u.pending)
    ensures MovedOn(s, u, qn, k + 1)
  {
    MovedQueues(s, t, qn, k);
    hide Without;
    var q := s.queue[qn];
    assert forall id :: id in q[..k + 1] <==> id in q[..k] || id == q[k];
    assert q[k] !in q[..k];
  }

  /** The timers do not matter to what moves on or times out. */
  lemma TimersApart(s: State, t: State, p: seq<Pending>, q: seq<Pending>, qn: nat, k: nat, dead: set<nat>)
    ensures MovedOn(s, t, qn, k) ==> MovedOn(s.(pending := p), t.(pending := q), qn, k)
    ensures Expired(s, t, dead) ==> Expired(s.(pending := p), t.(pending := q), dead)
    ensures t.Expiring() == t.(pending := q).Expiring()
    ensures t.Accounted() ==> t.(pending := q).Accounted()
  {
  }

  lemma Disarmed(s: State, qn: nat)
    requires s.Ready({}) && qn < s.maxsend
    ensures s.(pending := s.pending[qn := Idle]).Ready({qn})
  {
  }

  /** The record of events does not matter to the queues. */
  lemma ReadyLog(s: State, log: seq<Event>, ex: set<nat>)
    requires s.(log := log).Ready(ex)
    ensures s.Ready(ex)
  {
  }

  lemma DwindledPush(s: State, t: State, e: Event, dead: set<nat>)
    requires t.log == s.log + [e] && t.now == s.now && |t.queue| == |s.queue| && !e.TimedOut?
    requires t.Expiring() == ReplayCache.Keep(s.Expiring(), dead)
    requires dead == {} || (dead == {e.id} && e.Removed? && e.id in s.Expiring())
    ensures Dwindled(s, t, dead)
  {
    hide State.Expiring, ReplayCache.Keep, TimedOuts, RemovedIds;
    var l := t.log[|s.log|..];
    assert l == [] + [e];
    Pushed([], e);
    NoEvents();
  }

  lemma NoEvents()
    ensures TimedOuts([]) == [] && RemovedIds([]) == {}
  {
  }

  /** The entries of the last queue that were due time out in order, but for those an owner removed
      before. */
  ghost predicate Expired(s: State, t: State, dead: set<nat>) {
    && s.log <= t.log && t.now == s.now && |t.queue| == |s.queue|
    && dead <= RemovedIds(t.log[|s.log|..])
    && TimedOuts(t.log[|s.log|..]) + t.Expiring() == ReplayCache.Keep(s.Expiring(), dead)
  }

  lemma ExpiredNone(s: State)
    ensures Expired(s, s, {})
  {
    ReplayCache.KeepAll(s.Expiring(), {});
    assert s.log[|s.log|..] == [];
  }

  /** One more: the first due entry of `t` timed out, and in `v` the rest has dwindled. */
  lemma ExpiredStep(s: State, t: State, u: State, v: State, d: set<nat>, e: set<nat>)
    requires Expired(s, t, d) && Dwindled(u, v, e) && t.Expiring() != []
    requires u.log == t.log + [TimedOut(t.Expiring()[0])] && u.now == t.now && |u.queue| == |t.queue|
    requires u.Expiring() == t.Expiring()[1..] && ReplayCache.Distinct(s.Expiring())
    ensures Expired(s, v, d + e)
  {
    hide State.Expiring, TimedOuts, RemovedIds, ReplayCache.Keep;
    var id := t.Expiring()[0];
    var l, m := t.log[|s.log|..], v.log[|u.log|..];
    assert v.log[|s.log|..] == (l + [TimedOut(id)]) + m;
    TimedOutsJoin(l + [TimedOut(id)], m);
    Pushed(l, TimedOut(id));
    var p := TimedOuts(l) + [id];
    assert TimedOuts(l) + t.Expiring() == p + u.Expiring();
    ReplayCache.KeepDistinct(s.Expiring(), d);
    Disjoint(p, u.Expiring(), e);
    ReplayCache.KeepAll(p, e);
    KeepJoin(p, u.Expiring(), e);
    KeepTwice(s.Expiring(), d, e);
    assert TimedOuts(v.log[|s.log|..]) == p + [] == p;
  }

  lemma Shrunk(s: State, t: State, dead: set<nat>)
    requires Dwindled(s, t, dead)
    ensures |t.Expiring()| <= |s.Expiring()|
  {
    ReplayCache.KeepMembers(s.Expiring(), dead);
  }

  lemma StartDistinct(s: State, ex: set<nat>)
    requires s.Ready(ex)
    ensures ReplayCache.Distinct(s.Expiring())
  {
    hide Listed;
    QueueDistinct(s, s.maxsend - 1, ex);
    DueSeqIs(s.queue[s.maxsend - 1], s.entry, s.now);
  }

  lemma Disjoint(p: seq<nat>, q: seq<nat>, e: set<nat>)
    requires ReplayCache.Distinct(p + q) && e <= ReplayCache.Elements(q)
    ensures forall x :: x in p ==> x !in e
  {
    forall i | 0 <= i < |p|
      ensures p[i] !in e
    {
      forall j | 0 <= j < |q|
        ensures q[j] != p[i]
      {
        assert (p + q)[i] == p[i] && (p + q)[|p| + j] == q[j];
      }
    }
  }

  /** While no timer is late, no entry waits beyond its deadline. */
  lemma OnTime(s: State, id: nat)
    requires s.Ready({}) && id in s.entry
    requires forall qn :: 0 <= qn < s.maxsend && s.pending[qn].At? ==> s.now <= s.pending[qn].time
    ensures s.now <= s.entry[id].tm
  {
    var q := s.queue[s.entry[id].qno];
    assert Listed(q, s.entry[id].qno, s.entry, s.pending[s.entry[id].qno], s.minto, s.now);
    var i :| 0 <= i < |q| && q[i] == id;
    assert i == 0 || s.entry[q[0]].tm <= s.entry[q[i]].tm;
  }

  class Tmoq {
    const minto: nat
    const maxsend: nat
    var queue: seq<seq<nat>>
    var pending: seq<Pending>
    var entry: map<nat, Entry>
    var now: nat
    var log: seq<Event>

    ghost function S(): State
      reads this
    {
      State(minto, maxsend, queue, pending, entry, now, log)
    }

    ghost predicate Valid()
      reads this
    {
      S().Ready({}) && S().Accounted()
    }

    constructor (minto: nat, maxsend: nat, now: nat)
      requires 0 < minto && 0 < maxsend
      ensures Valid() && entry == map[] && log == [] && this.minto == minto && this.maxsend == maxsend
    {
      this.minto, this.maxsend, this.now := minto, maxsend, now;
      queue, pending, entry, log := seq(maxsend, _ => []), seq(maxsend, _ => Idle), map[], [];
    }

    method Tick(later: nat)
      requires Valid() && now <= later
      modifies this`now
      ensures Valid() && now == later
    {
      hide State.Ready;
      LaterReady(S(), later, {});
      now := later;
    }

    /** A queue without a timer gets one for its first deadline; a timer that is pending stays. */
    method SchedQ(qn: nat, ghost ex: set<nat>)
      requires S().Ready(ex) && qn < maxsend
      modifies this`pending
      ensures S().Ready(ex - {qn}) && pending == old(pending)[qn := pending[qn]]
      ensures old(pending[qn]).At? ==> pending[qn] == old(pending[qn])
      ensures old(pending[qn]).Idle? ==> pending[qn] == if queue[qn] == [] then Idle else At(entry[queue[qn][0]].tm)
    {
      assert Listed(queue[qn], qn, entry, pending[qn], minto, now);
      if pending[qn].Idle? && queue[qn] != [] {
        pending := pending[qn := At(entry[queue[qn][0]].tm)];
      }
    }

    /** Puts an entry at the end of queue `qn`, with its next deadline, and sends it. */
    method Insert(id: nat, qn: nat, e: Entry, ghost ex: set<nat>)
      requires S().Ready(ex) && qn < maxsend && id !in entry
      requires Spent(e, minto, maxsend, now)
      requires !e.expired ==> e.sent == Attempts(qn) && e.began + Waits(minto, qn) <= now
      modifies this`queue, this`pending, this`entry
      ensures S().Ready(ex - {qn}) && |queue| == maxsend
      ensures S() == old(S()).Appended(id, qn, e).(pending := pending)
      ensures |pending| == |old(pending)| && forall q :: 0 <= q < maxsend && q != qn ==> pending[q] == old(pending[q])
    {
      hide State.Ready, Listed;
      Shape(S(), ex);
      AppendedReady(S(), id, qn, e, ex);
      entry := entry[id := Entry(qn, now + Wait(minto, qn), e.began, e.sent + [qn], e.expired)];
      queue := queue[qn := queue[qn] + [id]];
      Shape(S(), ex + {qn});
      SchedQ(qn, ex + {qn});
      assert ex + {qn} - {qn} == ex - {qn};
    }

    function Fresh(): Entry
      reads this`now
    {
      Entry(maxsend, 0, now, [], false)
    }

    /** An event is put on record. */
    method Record(e: Event, ghost ex: set<nat>)
      requires S().Ready(ex) && Proper(log) && (e.TimedOut? || e.Removed?) == Active(log, e.id)
      requires forall x :: x in entry <==> if x == e.id then e.Started? || e.TriedAgain? else Active(log, x)
      modifies this`log
      ensures S().Ready(ex) && S().Accounted() && log == old(log) + [e]
    {
      hide State.Ready;
      Pushed(log, e);
      log := log + [e];
      ReadyLog(S(), old(log), ex);
    }

    /** A new entry is sent at once, as attempt 0. */
    method Start(id: nat, ghost ex: set<nat>)
      requires S().Ready(ex) && S().Accounted() && 0 < maxsend && id !in entry
      modifies this`queue, this`pending, this`entry, this`log
      ensures S().Ready(ex - {0}) && S().Accounted() && log == old(log) + [Started(id)]
      ensures entry == old(entry)[id := Entry(0, now + minto, now, [0], false)]
      ensures queue == old(queue)[0 := old(queue)[0] + [id]]
    {
      hide State.Ready, Listed;
      Shape(S(), ex);
      assert Wait(minto, 0) == minto && [] + [0] == [0];
      Insert(id, 0, Fresh(), ex);
      Record(Started(id), ex - {0});
    }

    /** The k-th entry of queue `qn` is unlinked. */
    method Remove(qn: nat, k: nat, ghost ex: set<nat>) returns (e: Entry)
      requires S().Ready(ex) && qn < maxsend && k < |queue[qn]|
      modifies this`queue, this`entry
      ensures S().Ready(ex) && S() == old(S()).Unlinked(qn, k)
      ensures old(queue)[qn][k] in old(entry) && e == old(entry)[old(queue)[qn][k]] && e.qno == qn
    {
      hide State.Ready, Listed;
      Shape(S(), ex);
      UnlinkedReady(S(), qn, k, ex);
      e := entry[queue[qn][k]];
      entry := entry - {queue[qn][k]};
      queue := queue[qn := Without(queue[qn], k)];
    }

    /** An owner removes its entry. */
    method Cancel(qn: nat, k: nat, ghost ex: set<nat>)
      requires S().Ready(ex) && S().Accounted() && qn < maxsend && k < |queue[qn]|
      modifies this`queue, this`entry, this`log
      ensures S().Ready(ex) && S().Accounted() && log == old(log) + [Removed(old(queue)[qn][k])]
      ensures queue == old(S()).Unlinked(qn, k).queue && entry == old(S()).Unlinked(qn, k).entry
    {
      hide State.Ready, Listed;
      Shape(S(), ex);
      var id := queue[qn][k];
      var _ := Remove(qn, k, ex);
      Record(Removed(id), ex);
    }

    /** An entry that timed out goes to the last queue again. */
    method KeepTrying(id: nat, e: Entry, ghost ex: set<nat>)
      requires S().Ready(ex) && S().Accounted() && 0 < maxsend && id !in entry && e.expired && Spent(e, minto, maxsend, now)
      modifies this`queue, this`pending, this`entry, this`log
      ensures S().Ready(ex - {maxsend - 1}) && S().Accounted() && log == old(log) + [TriedAgain(id)]
      ensures entry == old(entry)[id := Entry(maxsend - 1, now + Wait(minto, maxsend - 1), e.began, e.sent + [maxsend - 1], true)]
      ensures queue == old(queue)[maxsend - 1 := old(queue)[maxsend - 1] + [id]]
    {
      hide State.Ready, Listed;
      Shape(S(), ex);
      Insert(id, maxsend - 1, e, ex);
      Record(TriedAgain(id), ex - {maxsend - 1});
    }

    /** An owner may start another entry. */
    method StartOther(ghost ex: set<nat>) returns (ghost dead: set<nat>)
      requires S().Ready(ex) && S().Accounted()
      modifies this`queue, this`pending, this`entry, this`log
      ensures S().Ready(ex) && S().Accounted() && Dwindled(old(S()), S(), dead)
    {
      hide State.Ready, Listed, DueSeq, Dwindled;
      Shape(S(), ex);
      dead := {};
      var other: nat :| 0 <= other;
      if other !in entry {
        AppendedDue(S(), other, 0, Fresh(), maxsend - 1, ex);
        Start(other, ex);
        Shape(S(), ex - {0});
        assert Wait(minto, 0) == minto && [] + [0] == [0];
        ReplayCache.KeepAll(old(S()).Expiring(), {});
        DwindledPush(old(S()), S(), Started(other), {});
      } else {
        DwindledNone(old(S()), S());
      }
    }

    /** An owner may cancel another entry. */
    method CancelOther(ghost ex: set<nat>) returns (ghost dead: set<nat>)
      requires S().Ready(ex) && S().Accounted()
      modifies this`queue, this`entry, this`log
      ensures S().Ready(ex) && S().Accounted() && Dwindled(old(S()), S(), dead)
    {
      hide State.Ready, Listed, DueSeq, Dwindled;
      Shape(S(), ex);
      dead := {};
      var qn, k :| 0 <= qn && 0 <= k;
      if qn < maxsend && k < |queue[qn]| {
        ghost var id := queue[qn][k];
        UnlinkedDue(S(), qn, k, maxsend - 1, ex);
        Cancel(qn, k, ex);
        Shape(S(), ex);
        if id in old(S()).Expiring() {
          dead := {id};
        } else {
          ReplayCache.KeepAll(old(S()).Expiring(), {id});
          ReplayCache.KeepAll(old(S()).Expiring(), {});
        }
        DwindledPush(old(S()), S(), Removed(id), dead);
      } else {
        DwindledNone(old(S()), S());
      }
    }

    /** An owner may keep trying an entry that timed out. */
    method Again(id: nat, e: Entry, ghost ex: set<nat>) returns (ghost dead: set<nat>)
      requires S().Ready(ex) && S().Accounted() && id !in entry && e.expired && Spent(e, minto, maxsend, now)
      modifies this`queue, this`pending, this`entry, this`log
      ensures S().Ready(ex) && S().Accounted() && Dwindled(old(S()), S(), dead)
    {
      hide State.Ready, Listed, DueSeq, Dwindled;
      Shape(S(), ex);
      dead := {};
      AppendedDue(S(), id, maxsend - 1, e, maxsend - 1, ex);
      KeepTrying(id, e, ex);
      Shape(S(), ex - {maxsend - 1});
      ReplayCache.KeepAll(old(S()).Expiring(), {});
      DwindledPush(old(S()), S(), TriedAgain(id), {});
    }

    /** What an owner does when its entry timed out: it may give it up or keep trying it, start
        entries and cancel any, as often as it likes and in any order. */
    method Owner(id: nat, e: Entry, ghost ex: set<nat>) returns (ghost dead: set<nat>)
      requires S().Ready(ex) && S().Accounted() && e.expired && Spent(e, minto, maxsend, now)
      modifies this`queue, this`pending, this`entry, this`log
      ensures S().Ready(ex) && S().Accounted() && Dwindled(old(S()), S(), dead)
    {
      hide State.Ready, Listed, DueSeq, Dwindled, State.Accounted;
      dead := {};
      DwindledNone(S(), S());
      var more :| 0 <= more;
      for i := 0 to more
        invariant S().Ready(ex) && S().Accounted() && Dwindled(old(S()), S(), dead)
      {
        ghost var s, d := S(), {};
        if * {
          if id !in entry {
            d := Again(id, e, ex);
          } else {
            DwindledNone(s, S());
          }
        } else if * {
          d := StartOther(ex);
        } else {
          d := CancelOther(ex);
        }
        DwindledThen(old(S()), s, S(), dead, d);
        dead := dead + d;
      }
    }

    /** An entry has used up its last attempt: its owner is told, and does what it likes. */
    method Timeout(id: nat, e: Entry, ghost ex: set<nat>) returns (ghost dead: set<nat>)
      requires S().Ready(ex) && id !in entry && Proper(log) && Active(log, id)
      requires forall x :: x in entry <==> Active(log, x) && x != id
      requires e.expired && Attempts(maxsend) <= e.sent && e.began + Waits(minto, maxsend) <= now
      modifies this`queue, this`pending, this`entry, this`log
      ensures S().Ready(ex) && S().Accounted()
      ensures Dwindled(old(S()).(log := old(log) + [TimedOut(id)]), S(), dead)
    {
      hide State.Ready, Listed, DueSeq, Dwindled;
      Record(TimedOut(id), ex);
      dead := Owner(id, e, ex);
    }

    /** The first entry of queue `qn` moves on to the next queue, ... */
    method MoveOne(qn: nat, ghost k: nat, ghost ex: set<nat>, ghost s: State)
      requires S().Ready(ex) && S().Accounted() && qn + 1 < maxsend && queue[qn] != []
      requires queue[qn][0] in entry && entry[queue[qn][0]].tm <= now
      requires MovedOn(s, S(), qn, k) && ReplayCache.Distinct(s.queue[qn])
      modifies this`queue, this`pending, this`entry
      ensures S().Ready(ex) && S().Accounted() && MovedOn(s, S(), qn, k + 1) && pending[qn] == old(pending[qn])
      ensures |DueSeq(queue[qn], entry, now)| < |old(DueSeq(queue[qn], entry, now))|
    {
      hide State.Ready, Listed, MovedOn, DueSeq;
      Shape(S(), ex);
      Head(S(), qn, ex);
      HeadDue(S(), qn, ex);
      var id := queue[qn][0];
      var e := Remove(qn, 0, ex);
      AppendedDue(S(), id, qn + 1, e, qn, ex);
      Insert(id, qn + 1, e, ex);
      Shape(S(), ex - {qn + 1});
      MovedStep(s, old(S()), S(), qn, k);
      assert entry.Keys == old(entry).Keys;
    }

    /** ... or times out, if the queue is the last. */
    method ExpireOne(ghost dead: set<nat>, ghost ex: set<nat>, ghost s: State) returns (ghost dead': set<nat>)
      requires S().Ready(ex) && S().Accounted() && 0 < maxsend && queue[maxsend - 1] != []
      requires queue[maxsend - 1][0] in entry && entry[queue[maxsend - 1][0]].tm <= now
      requires Expired(s, S(), dead) && ReplayCache.Distinct(s.Expiring())
      modifies this`queue, this`pending, this`entry, this`log
      ensures S().Ready(ex) && S().Accounted() && |queue| == maxsend && Expired(s, S(), dead')
      ensures |DueSeq(queue[maxsend - 1], entry, now)| < |old(DueSeq(queue[maxsend - 1], entry, now))|
    {
      hide State.Ready, Listed, Expired, Dwindled, DueSeq;
      Shape(S(), ex);
      Head(S(), maxsend - 1, ex);
      HeadDue(S(), maxsend - 1, ex);
      var id := queue[maxsend - 1][0];
      var e := Remove(maxsend - 1, 0, ex);
      ghost var u := S().(log := log + [TimedOut(id)]);
      ghost var d := Timeout(id, Entry(maxsend, e.tm, e.began, e.sent, true), ex);
      Shape(S(), ex);
      ExpiredStep(s, old(S()), u, S(), dead, d);
      Shrunk(u, S(), d);
      dead' := dead + d;
    }

    /** Moves on every entry of queue `qn` whose deadline has come: to the next queue, all of
        them in order, or, from the last queue, by timing out, in order and once each, except for
        those that an owner removes meanwhile. */
    method RunQ(qn: nat, ghost ex: set<nat>) returns (ghost k: nat, ghost dead: set<nat>)
      requires S().Ready(ex) && S().Accounted() && qn < maxsend
      modifies this`queue, this`pending, this`entry, this`log
      ensures S().Ready(ex) && S().Accounted() && Due(queue[qn], entry, now) == {}
      ensures qn + 1 < maxsend ==> MovedOn(old(S()), S(), qn, k) && pending[qn] == old(pending[qn])
      ensures qn + 1 == maxsend ==> Expired(old(S()), S(), dead) && S().Expiring() == []
    {
      hide Listed, MovedOn, Expired, State.Accounted, DueSeq, State.Ready;
      Shape(S(), ex);
      k, dead := 0, {};
      Head(S(), qn, ex);
      MovedNone(S(), qn);
      ExpiredNone(S());
      StartDistinct(S(), ex);
      QueueDistinct(S(), qn, ex);
      while queue[qn] != [] && entry[queue[qn][0]].tm <= now
        invariant S().Ready(ex) && S().Accounted() && |queue| == |pending| == maxsend && (queue[qn] != [] ==> queue[qn][0] in entry)
        invariant qn + 1 < maxsend ==> MovedOn(old(S()), S(), qn, k) && pending[qn] == old(pending[qn])
        invariant qn + 1 == maxsend ==> Expired(old(S()), S(), dead)
        decreases |DueSeq(queue[qn], entry, now)|
      {
        if qn < maxsend - 1 {
          MoveOne(qn, k, ex, old(S()));
        } else {
          dead := ExpireOne(dead, ex, old(S()));
        }
        k := k + 1;
        Shape(S(), ex);
        Head(S(), qn, ex);
      }
      Head(S(), qn, ex);
      DueSeqIs(queue[qn], entry, now);
      assert DueSeq(queue[qn], entry, now) != [] ==> DueSeq(queue[qn], entry, now)[0] in DueSeq(queue[qn], entry, now);
      Shape(S(), ex);
    }

    /** A queue's timer fires: what is due moves on, and the rest waits for its own deadline. */
    method Tcb(qn: nat) returns (ghost k: nat, ghost dead: set<nat>)
      requires Valid() && qn < maxsend && pending[qn].At? && pending[qn].time <= now
      modifies this`queue, this`pending, this`entry, this`log
      ensures Valid() && Due(queue[qn], entry, now) == {}
      ensures qn + 1 < maxsend ==> MovedOn(old(S()), S(), qn, k)
      ensures qn + 1 < maxsend ==> pending[qn] == if queue[qn] == [] then Idle else At(entry[queue[qn][0]].tm)
      ensures qn + 1 == maxsend ==> Expired(old(S()), S(), dead) && S().Expiring() == []
    {
      hide Listed, MovedOn, Expired, State.Ready, State.Expiring;
      Shape(S(), {});
      pending := pending[qn := Idle];
      Disarmed(old(S()), qn);
      ghost var s := S();
      k, dead := RunQ(qn, {qn});
      Shape(S(), {qn});
      ghost var t := S();
      SchedQ(qn, {qn});
      assert {qn} - {qn} == {};
      TimersApart(s, t, old(pending), pending, qn, k, dead);
    }
  }
}
