/**
 The event loop's timer passes. Callbacks may add and remove timers while a pass walks
 the timers; the pass must not follow a removed one, nor skip one that was due.
 */
module Timers {
  import opened Options

  /** Times are in nanoseconds. */
  datatype Timer = Timer(id: nat, ts: nat)

  /** A pointer to a timer. */
  datatype Ptr = Null | To(id: nat)

  ghost predicate Sorted(tree: seq<Timer>) {
    forall i, j :: 0 <= i < j < |tree| ==> tree[i].ts <= tree[j].ts
  }

  ghost predicate DistinctIds(q: seq<Timer>) {
    forall i, j :: 0 <= i < j < |q| ==> q[i].id != q[j].id
  }

  ghost predicate Has(tree: seq<Timer>, id: nat) {
    exists i :: 0 <= i < |tree| && tree[i].id == id
  }

  /** Only timers added since `start` come before timer `p`; before the end, if null. */
  ghost predicate NewBefore(tree: seq<Timer>, p: Ptr, start: nat) {
    forall i :: 0 <= i < |tree| && (p.To? ==> exists j :: i < j < |tree| && tree[j].id == p.id) ==> start <= tree[i].id
  }

  class Timecbs {
    var tree: seq<Timer>     // the timer tree, in order
    var altered: bool        // timecbs_altered
    var nextId: nat
    ghost var fired: seq<Timer>
    ghost var removed: set<nat>
    var budget: nat          // how many more timers callbacks will add or remove

    /** Timers have distinct identities, and one that fired is gone for good. */
    ghost predicate Valid()
      reads this
    {
      && Sorted(tree) && DistinctIds(tree) && DistinctIds(fired)
      && (forall i :: 0 <= i < |tree| ==> tree[i].id < nextId)
      && (forall i :: 0 <= i < |fired| ==> fired[i].id < nextId && !Has(tree, fired[i].id))
    }

    constructor ()
      ensures Valid() && tree == [] && fired == []
    {
      tree, altered, nextId, fired, removed := [], false, 0, [], {};
      budget := *;
    }

    /** timecb: the new timer goes anywhere among those of the same time. */
    method Add(ts: nat) returns (id: nat)
      requires Valid()
      modifies this`tree, this`nextId
      ensures Valid() && id == old(nextId) && nextId == id + 1
      ensures exists k :: 0 <= k <= |old(tree)| && tree == old(tree)[..k] + [Timer(id, ts)] + old(tree)[k..]
    {
      var k := 0;
      var after: bool := *;
      hide DistinctIds;
      while k < |tree| && (tree[k].ts < ts || (tree[k].ts == ts && after))
        invariant k <= |tree|
        invariant forall i :: 0 <= i < k ==> tree[i].ts <= ts
      {
        k := k + 1;
        after := *;
      }
      id := nextId;
      nextId := nextId + 1;
      Inserted(tree, k, Timer(id, ts));
      tree := tree[..k] + [Timer(id, ts)] + tree[k..];
    }

    /** timecb_remove of a timer that is in the tree. */
    method Remove(k: nat)
      requires Valid() && k < |tree|
      modifies this`tree, this`altered, this`removed
      ensures Valid() && altered && removed == old(removed) + {old(tree)[k].id} && tree == old(tree)[..k] + old(tree)[k + 1..]
      ensures forall t :: t in tree ==> t in old(tree)
      ensures forall t :: t in old(tree) ==> t in tree || t == old(tree)[k]
    {
      altered := true;
      removed := removed + {tree[k].id};
      ghost var was := tree;
      tree := tree[..k] + tree[k + 1..];
      forall i | 0 <= i < |fired|
        ensures !Has(tree, fired[i].id)
      {
        assert forall j :: 0 <= j < |was| ==> was[j].id != fired[i].id;
      }
    }

    /** What a callback leaves behind: timers it did not remove keep their order, and those
        before `p` that are still there were new already or are new now. */
    ghost predicate Kept(was: seq<Timer>, wasNext: nat, start: nat, p: Ptr)
      reads this
    {
      && wasNext <= nextId
      && (forall t :: t in tree ==> t in was || wasNext <= t.id)
      && (forall t :: t in was ==> t in tree || (altered && t.id in removed))
      && (!altered && NewBefore(was, p, start) ==> NewBefore(tree, p, start))
    }

    /** A callback may add a timer ... */
    method AddOne(ghost was: seq<Timer>, ghost wasNext: nat, ghost start: nat, ghost p: Ptr)
      requires Valid() && Kept(was, wasNext, start, p) && start <= nextId && (p.To? ==> p.id < nextId)
      modifies this`tree, this`nextId
      ensures Valid() && Kept(was, wasNext, start, p) && old(nextId) <= nextId
    {
      hide Valid, NewBefore;
      var ts :| 0 <= ts;
      ghost var before := tree;
      var id := Add(ts);
      ghost var k :| 0 <= k <= |before| && tree == before[..k] + [Timer(id, ts)] + before[k..];
      AddKeeps(before, k, Timer(id, ts), start, p);
      assert forall t :: t in tree ==> t in before || t == Timer(id, ts);
    }

    /** ... or remove one. */
    method RemoveOne(ghost was: seq<Timer>, ghost wasNext: nat, ghost start: nat, ghost p: Ptr)
      requires Valid() && Kept(was, wasNext, start, p)
      modifies this`tree, this`altered, this`removed
      ensures Valid() && Kept(was, wasNext, start, p)
      ensures old(removed) <= removed && |removed| <= |old(removed)| + 1 && (old(altered) ==> altered)
    {
      hide NewBefore;
      if tree != [] {
        hide Sorted, DistinctIds, Has;
        var k :| 0 <= k < |tree|;
        ghost var id := tree[k].id;
        Remove(k);
        assert removed == old(removed) + {id};
      }
    }

    /** A callback: any number of additions and removals, in any order. */
    method Callback(ghost start: nat, ghost p: Ptr)
      requires Valid() && start <= nextId && (p.To? ==> p.id < nextId)
      modifies this`tree, this`nextId, this`altered, this`budget, this`removed
      ensures Valid() && Kept(old(tree), old(nextId), start, p) && budget <= old(budget) && old(removed) <= removed
      ensures |removed| + budget <= |old(removed)| + old(budget)
      ensures (old(altered) ==> altered)
      ensures budget == old(budget) ==> tree == old(tree) && nextId == old(nextId) && altered == old(altered)
    {
      hide Sorted, DistinctIds, Has, NewBefore;
      while budget > 0
        invariant old(removed) <= removed && |removed| + budget <= |old(removed)| + old(budget)
        invariant Valid() && Kept(old(tree), old(nextId), start, p) && budget <= old(budget) && start <= nextId
        invariant p.To? ==> p.id < nextId
        invariant old(altered) ==> altered
        invariant budget == old(budget) ==> tree == old(tree) && nextId == old(nextId) && altered == old(altered)
        decreases budget
      {
        if * {
          break;
        }
        budget := budget - 1;
        if * {
          AddOne(old(tree), old(nextId), start, p);
        } else {
          RemoveOne(old(tree), old(nextId), start, p);
        }
      }
    }

    method First() returns (p: Ptr)
      requires Valid()
      ensures if tree == [] then p == Null else p == To(tree[0].id)
    {
      p := if tree == [] then Null else To(tree[0].id);
    }

    /** The pass holds a pointer to a timer that is there, past only new ones. */
    ghost predicate Pointing(p: Ptr, start: nat)
      reads this
    {
      (p.To? ==> Has(tree, p.id)) && NewBefore(tree, p, start)
    }

    /** Following a pointer to a timer in the tree. */
    method Follow(p: Ptr, ghost start: nat) returns (k: nat)
      requires Valid() && p.To? && Pointing(p, start)
      ensures k < |tree| && tree[k].id == p.id && forall i :: 0 <= i < k ==> start <= tree[i].id
    {
      k := 0;
      while tree[k].id != p.id
        invariant k < |tree| && exists j :: k <= j < |tree| && tree[j].id == p.id
        decreases |tree| - k
      {
        k := k + 1;
      }
    }

    /** Taking timer `k` out to run it; the next one becomes the pointer. */
    method Take(k: nat, ghost start: nat) returns (p: Ptr)
      requires Valid() && k < |tree| && forall i :: 0 <= i < k ==> start <= tree[i].id
      modifies this`tree, this`altered, this`fired
      ensures Valid() && !altered && |tree| == |old(tree)| - 1 && fired == old(fired) + [old(tree)[k]]
      ensures forall t :: t in old(tree) <==> t in tree || t == old(tree)[k]
      ensures Pointing(p, start) && p == if k + 1 < |old(tree)| then To(old(tree)[k + 1].id) else Null
    {
      p := if k + 1 < |tree| then To(tree[k + 1].id) else Null;
      ghost var was := tree;
      tree := tree[..k] + tree[k + 1..];
      altered := false;
      fired := fired + [was[k]];
      assert p.To? ==> tree[k].id == p.id;
      forall i | 0 <= i < |fired|
        ensures !Has(tree, fired[i].id)
      {
        assert i < |fired| - 1 ==> forall j :: 0 <= j < |was| ==> was[j].id != fired[i].id;
      }
    }

    /** What is taken out comes after all older ones that fired before, and before those left. */
    method TakeDue(k: nat, ghost log: seq<Timer>, ghost start: nat) returns (p: Ptr)
      requires Valid() && k < |tree| && (forall i :: 0 <= i < k ==> start <= tree[i].id)
      requires log <= fired && InTime(fired[|log|..], tree, start)
      modifies this`tree, this`altered, this`fired
      ensures Valid() && !altered && |tree| == |old(tree)| - 1 && fired == old(fired) + [old(tree)[k]]
      ensures forall t :: t in old(tree) <==> t in tree || t == old(tree)[k]
      ensures Pointing(p, start) && p == (if k + 1 < |old(tree)| then To(old(tree)[k + 1].id) else Null)
      ensures (p.To? ==> p.id < nextId) && InTime(fired[|log|..], tree, start)
    {
      hide Sorted, DistinctIds, Has, NewBefore, InTime;
      SortedFrom(tree, k);
      p := Take(k, start);
      PointingKnown(tree, p, nextId);
      FiredInTime(old(fired)[|log|..], old(tree), k, tree, start);
      assert fired[|log|..] == old(fired)[|log|..] + [old(tree)[k]];
    }

    /** What a pass that found the timers `was` keeps: what fired was due, and each of them
        is still there, has fired, or was removed. */
    ghost predicate Passing(was: seq<Timer>, log: seq<Timer>, start: nat, tsnow: nat)
      reads this
    {
      && Valid() && start <= nextId && log <= fired
      && (forall i :: |log| <= i < |fired| ==> fired[i].ts <= tsnow)
      && (forall t :: t in was ==> t.id < start && (t in tree || t in fired || t.id in removed))
      && InTime(fired[|log|..], tree, start)
    }

    /** One turn of the loop: timer `k` is taken out and run. */
    method RunOne(k: nat, tsnow: nat, ghost was: seq<Timer>, ghost log: seq<Timer>, ghost start: nat) returns (p: Ptr)
      requires Passing(was, log, start, tsnow) && k < |tree| && tree[k].ts <= tsnow
      requires forall i :: 0 <= i < k ==> start <= tree[i].id
      modifies this
      ensures Passing(was, log, start, tsnow) && Pointing(p, start)
      ensures fired == old(fired) + [old(tree)[k]] && old(removed) <= removed && |removed| + budget <= |old(removed)| + old(budget)
      ensures altered ==> if tree == [] then p == Null else p == To(tree[0].id)
      ensures !altered ==> p == if k + 1 < |old(tree)| then To(old(tree)[k + 1].id) else Null
      ensures budget < old(budget) || (budget == old(budget) && |tree| < |old(tree)|)
    {
      hide Sorted, DistinctIds, Has, NewBefore, InTime;
      var ntp := TakeDue(k, log, start);
      ghost var rest := tree;
      Callback(start, ntp);
      StillInTime(fired[|log|..], rest, tree, start);
      if altered {
        p := First();
        StartPointing(tree, start);
      } else {
        StillThere(rest, tree, ntp);
        p := ntp;
      }
    }

    /** timecb_check: nothing fires early or twice, a removed timer is never followed, and
        of the timers set when the pass began none that is due is left: they fire in the order of
        their times, unless callbacks remove them. */
    method TimecbCheck(tsnow: nat)
      requires Valid()
      modifies this
      ensures Valid() && old(fired) <= fired
      ensures forall i :: |old(fired)| <= i < |fired| ==> fired[i].ts <= tsnow
      ensures forall t :: t in old(tree) ==> t in tree || t in fired || t.id in removed
      ensures forall t :: t in old(tree) && t in tree ==> tsnow < t.ts
      ensures old(removed) <= removed && |removed| + budget <= |old(removed)| + old(budget)
      ensures InTime(fired[|old(fired)|..], tree, old(nextId))
    {
      hide Sorted, DistinctIds, Has, NewBefore, InTime;
      ghost var was, log, start := tree, fired, nextId;
      NoneFired(tree, start);
      assert fired[|log|..] == [];
      var p := First();
      StartPointing(tree, start);
      while p.To?
        invariant Passing(was, log, start, tsnow) && Pointing(p, start)
        invariant old(removed) <= removed && |removed| + budget <= |old(removed)| + old(budget)
        decreases budget, |tree|
      {
        var k := Follow(p, start);
        if tsnow < tree[k].ts {
          SortedFrom(tree, k);
          assert Settled(tree, start, tsnow);
          break;
        }
        p := RunOne(k, tsnow, was, log, start);
      }
      if p.Null? {
        AllNew(tree, start);
      }
      assert Settled(tree, start, tsnow);
    }
  }

  /** Of the timers older than `start`, those fired come in the order of their times, and before
      those still there. */
  ghost predicate InTime(done: seq<Timer>, tree: seq<Timer>, start: nat) {
    && (forall i, j :: 0 <= i < j < |done| && done[i].id < start && done[j].id < start ==> done[i].ts <= done[j].ts)
    && (forall i, t :: 0 <= i < |done| && done[i].id < start && t in tree && t.id < start ==> done[i].ts <= t.ts)
  }

  lemma NoneFired(tree: seq<Timer>, start: nat)
    ensures InTime([], tree, start)
  {
  }

  lemma FiredInTime(done: seq<Timer>, was: seq<Timer>, k: nat, tree: seq<Timer>, start: nat)
    requires InTime(done, was, start) && k < |was| && (forall t :: t in tree ==> t in was)
    requires (forall i :: 0 <= i < k ==> start <= was[i].id) && (forall i :: k <= i < |was| ==> was[k].ts <= was[i].ts)
    ensures InTime(done + [was[k]], tree, start)
  {
    forall t | t in tree && t.id < start
      ensures was[k].ts <= t.ts
    {
      var i :| 0 <= i < |was| && was[i] == t;
    }
  }

  lemma StillInTime(done: seq<Timer>, was: seq<Timer>, tree: seq<Timer>, start: nat)
    requires InTime(done, was, start) && (forall t :: t in tree ==> t in was || start <= t.id)
    ensures InTime(done, tree, start)
  {
  }

  /** Only timers added since `start` are due. */
  ghost predicate Settled(tree: seq<Timer>, start: nat, tsnow: nat) {
    forall i :: 0 <= i < |tree| ==> start <= tree[i].id || tsnow < tree[i].ts
  }

  lemma PointingKnown(tree: seq<Timer>, p: Ptr, nextId: nat)
    requires forall i :: 0 <= i < |tree| ==> tree[i].id < nextId
    requires p.To? ==> Has(tree, p.id)
    ensures p.To? ==> p.id < nextId
  {
  }

  lemma StillThere(was: seq<Timer>, tree: seq<Timer>, p: Ptr)
    requires (p.To? ==> Has(was, p.id)) && forall t :: t in was ==> t in tree
    ensures p.To? ==> Has(tree, p.id)
  {
    if p.To? {
      var i :| 0 <= i < |was| && was[i].id == p.id;
      assert was[i] in tree;
    }
  }

  lemma AllNew(tree: seq<Timer>, start: nat)
    requires NewBefore(tree, Null, start)
    ensures forall i :: 0 <= i < |tree| ==> start <= tree[i].id
  {
  }

  lemma StartPointing(tree: seq<Timer>, start: nat)
    requires DistinctIds(tree)
    ensures if tree == [] then NewBefore(tree, Null, start)
            else Has(tree, tree[0].id) && NewBefore(tree, To(tree[0].id), start)
  {
  }

  lemma SortedFrom(tree: seq<Timer>, k: nat)
    requires Sorted(tree) && k < |tree|
    ensures forall i :: k <= i < |tree| ==> tree[k].ts <= tree[i].ts
  {
  }

  lemma Inserted(was: seq<Timer>, k: nat, t: Timer)
    requires Sorted(was) && DistinctIds(was) && k <= |was| && !Has(was, t.id)
    requires forall i :: 0 <= i < |was| ==> if i < k then was[i].ts <= t.ts else t.ts <= was[i].ts
    ensures var tree := was[..k] + [t] + was[k..];
            && Sorted(tree) && DistinctIds(tree)
            && (forall i :: 0 <= i < |tree| ==> tree[i] == t || tree[i] in was)
            && (forall id :: Has(tree, id) ==> id == t.id || Has(was, id))
  {
  }

  lemma AddKeeps(was: seq<Timer>, k: nat, t: Timer, start: nat, p: Ptr)
    requires k <= |was| && start <= t.id
    ensures var tree := was[..k] + [t] + was[k..];
            (forall u :: u in was ==> u in tree) && (NewBefore(was, p, start) ==> p == To(t.id) || NewBefore(tree, p, start))
  {
  }

  // ----- How long select may wait

  datatype TimeSpec = TimeSpec(sec: int, nsec: nat) {
    predicate Normal() {
      nsec < 1_000_000_000
    }

    function Nanos(): int {
      sec * 1_000_000_000 + nsec
    }
  }

  datatype TimeVal = TimeVal(sec: int, usec: nat)

  /** The end of timecb_check: selwait from the earliest timer left and the time. */
  function SelWait(first: Option<TimeSpec>, now: TimeSpec, sigdocheck: bool): TimeVal
    requires now.Normal() && (first.Some? ==> first.value.Normal())
  {
    if sigdocheck then TimeVal(0, 0)
    else if first.None? then TimeVal(86400, 0)
    else
      var ts := first.value;
      if ts.sec < now.sec || (ts.sec == now.sec && ts.nsec < now.nsec) then TimeVal(0, 0)
      else if ts.nsec >= now.nsec then TimeVal(ts.sec - now.sec, (ts.nsec - now.nsec) / 1000)
      else TimeVal(ts.sec - now.sec - 1, (1_000_000_000 + ts.nsec - now.nsec) / 1000)
  }

  /** The wait is a proper timeval: none with a signal pending, a day without timers, and otherwise
      the time to the earliest deadline, short of it by less than a microsecond, or none if it has
      passed. */
  lemma SelWaitBound(first: Option<TimeSpec>, now: TimeSpec, sigdocheck: bool)
    requires now.Normal() && (first.Some? ==> first.value.Normal())
    ensures var w := SelWait(first, now, sigdocheck);
            var wait := w.sec * 1_000_000_000 + w.usec * 1000;
            && 0 <= w.sec && w.usec < 1_000_000
            && (sigdocheck ==> wait == 0)
            && (!sigdocheck && first.None? ==> wait == 24 * 60 * 60 * 1_000_000_000)
            && (first.Some? ==>
                  var left := first.value.Nanos() - now.Nanos();
                  && (if left < 0 then wait == 0 else wait <= left)
                  && (!sigdocheck && 0 <= left ==> left < wait + 1000))
  {
    if first.Some? {
      var d := first.value.nsec - now.nsec;
      if d >= 0 {
        Micros(d);
      } else {
        Micros(1_000_000_000 + d);
      }
    }
  }

  lemma Micros(d: nat)
    ensures d / 1000 * 1000 <= d < d / 1000 * 1000 + 1000
  {
  }

  // ----- Lazy callbacks

  /** A callback wanted about every `interval` seconds, next at time `next`. */
  datatype Lazy = Lazy(id: nat, interval: nat, next: nat)

  /** Those whose time has come. */
  ghost function DueIds(list: seq<Lazy>, now: nat): set<nat> {
    set l | l in list && l.next <= now :: l.id
  }

  /** A list whose due entries come from another has no other due identities. */
  lemma DueFrom(list: seq<Lazy>, was: seq<Lazy>, now: nat)
    requires forall l :: l in list ==> l in was || now < l.next
    ensures DueIds(list, now) <= DueIds(was, now)
  {
  }

  ghost predicate Later(list: seq<Lazy>, now: nat) {
    forall i :: 0 <= i < |list| ==> now < list[i].next
  }

  lemma NoneDue(list: seq<Lazy>, now: nat)
    requires Later(list, now)
    ensures DueIds(list, now) == {}
  {
  }

  /** Putting off an entry makes it, and it alone, not due. */
  lemma DueLater(list: seq<Lazy>, at: nat, next: nat, now: nat)
    requires forall i, j :: 0 <= i < j < |list| ==> list[i].id != list[j].id
    requires at < |list| && list[at].next <= now < next
    ensures list[at].id in DueIds(list, now)
    ensures DueIds(list[at := list[at].(next := next)], now) <= DueIds(list, now) - {list[at].id}
  {
    var list' := list[at := list[at].(next := next)];
    forall id | id in DueIds(list', now)
      ensures id in DueIds(list, now) && id != list[at].id
    {
      var l :| l in list' && l.next <= now && l.id == id;
      var i :| 0 <= i < |list'| && list'[i] == l;
      assert list[i] == l;
    }
  }

  /** How an entry got on the list: it was there and not due, or fired and was put off by its
      interval, or is new. */
  ghost predicate Accounts(l: Lazy, was: seq<Lazy>, start: nat, done: seq<nat>, now: nat) {
    || (l in was && now < l.next)
    || (l.id in done && l.next == now + l.interval && exists k :: k in was && k.id == l.id && k.interval == l.interval)
    || start <= l.id
  }

  lemma OldDue(was: seq<Lazy>, start: nat, id: nat, now: nat)
    requires forall i :: 0 <= i < |was| ==> was[i].id < start
    ensures id in DueIds(was, now) ==> id < start
  {
  }

  /** One more has fired: what came of the entries before, of the one fired, and new ones account
      for the list now. */
  lemma AccountsStep(was: seq<Lazy>, start: nat, done: seq<nat>, now: nat, before: seq<Lazy>, at: nat, list: seq<Lazy>, gone: set<nat>, next: nat)
    requires AllAccounted(before, was, start, done, now)
    requires at < |before| && before[at].id < start <= next && before[at].next <= now && 0 < before[at].interval
    requires Stems(list, gone, before[at := before[at].(next := now + before[at].interval)], next)
    ensures AllAccounted(list, was, start, done + [before[at].id], now)
  {
    assert before[at] in before;
    assert before[at] in was;
  }

  /** What became of an entry of the list: it is still there, unless it was removed, and put off
      by its interval if it fired. */
  ghost predicate Followed(l: Lazy, list: seq<Lazy>, done: seq<nat>, gone: set<nat>, now: nat) {
    l.id in gone || l in list || (l.next <= now && l.id in done && l.(next := now + l.interval) in list)
  }

  ghost predicate AllFollowed(was: seq<Lazy>, list: seq<Lazy>, done: seq<nat>, gone: set<nat>, now: nat) {
    forall l :: l in was ==> Followed(l, list, done, gone, now)
  }

  ghost predicate AllAccounted(list: seq<Lazy>, was: seq<Lazy>, start: nat, done: seq<nat>, now: nat) {
    forall l :: l in list ==> l in was || Accounts(l, was, start, done, now)
  }

  /** In the end: a due entry has fired and was put off, any other is as it was, unless removed. */
  ghost predicate Done(l: Lazy, list: seq<Lazy>, done: seq<nat>, gone: set<nat>, now: nat) {
    l.id in gone || if l.next <= now then l.id in done && l.(next := now + l.interval) in list else l in list
  }

  lemma StartScan(list: seq<Lazy>, start: nat, gone: set<nat>, now: nat)
    ensures AllFollowed(list, list, [], gone, now) && AllAccounted(list, list, start, [], now)
  {
  }

  lemma EndScan(was: seq<Lazy>, start: nat, list: seq<Lazy>, done: seq<nat>, gone: set<nat>, now: nat)
    requires AllFollowed(was, list, done, gone, now) && AllAccounted(list, was, start, done, now) && Later(list, now)
    ensures forall l :: l in was ==> Done(l, list, done, gone, now)
    ensures forall l :: l in list ==> Accounts(l, was, start, done, now)
  {
    forall l | l in list
      ensures now < l.next
    {
      var i :| 0 <= i < |list| && list[i] == l;
    }
    forall l | l in was
      ensures Done(l, list, done, gone, now)
    {
      assert Followed(l, list, done, gone, now);
    }
  }

  lemma MoreGone(was: seq<Lazy>, list: seq<Lazy>, done: seq<nat>, gone: set<nat>, gone': set<nat>, now: nat)
    requires AllFollowed(was, list, done, gone, now) && gone <= gone'
    ensures AllFollowed(was, list, done, gone', now)
  {
  }

  lemma FollowedStep(was: seq<Lazy>, done: seq<nat>, now: nat, before: seq<Lazy>, at: nat, list: seq<Lazy>, gone: set<nat>, next: nat)
    requires at < |before| && before[at].next <= now && 0 < before[at].interval
    requires forall i, j :: 0 <= i < j < |before| ==> before[i].id != before[j].id
    requires AllFollowed(was, before, done, gone, now)
    requires Stems(list, gone, before[at := before[at].(next := now + before[at].interval)], next)
    ensures AllFollowed(was, list, done + [before[at].id], gone, now)
  {
    var put := before[at := before[at].(next := now + before[at].interval)];
    forall l | l in was
      ensures Followed(l, list, done + [before[at].id], gone, now)
    {
      assert Followed(l, before, done, gone, now);
      if l.id !in gone {
        var k := if l in before then l else l.(next := now + l.interval);
        var i :| 0 <= i < |before| && before[i] == k;
        assert put[i] in put;
        if i == at {
          assert l.(next := now + l.interval) == put[i];
          assert before[at].id in done + [before[at].id];
        }
      }
    }
  }

  /** What is on the list was on it before, or is new, and what was on it still is, or was removed. */
  ghost predicate Stems(list: seq<Lazy>, gone: set<nat>, was: seq<Lazy>, wasNext: nat) {
    && (forall l :: l in list ==> l in was || wasNext <= l.id)
    && (forall l :: l in was ==> l in list || l.id in gone)
  }

  lemma StemsStart(list: seq<Lazy>, gone: set<nat>, next: nat)
    ensures Stems(list, gone, list, next)
  {
  }

  lemma StemsAdd(list: seq<Lazy>, gone: set<nat>, was: seq<Lazy>, wasNext: nat, l: Lazy)
    requires Stems(list, gone, was, wasNext) && wasNext <= l.id
    ensures Stems([l] + list, gone, was, wasNext)
  {
  }

  lemma StemsRemove(list: seq<Lazy>, gone: set<nat>, was: seq<Lazy>, wasNext: nat, j: nat)
    requires Stems(list, gone, was, wasNext) && j < |list|
    ensures Stems(list[..j] + list[j + 1..], gone + {list[j].id}, was, wasNext)
    ensures forall l :: l in list[..j] + list[j + 1..] ==> l in list
  {
    var less := list[..j] + list[j + 1..];
    forall l | l in list
      ensures l in less || l == list[j]
    {
      var i :| 0 <= i < |list| && list[i] == l;
      assert i < j ==> less[i] == l;
      assert i > j ==> less[i - 1] == l;
    }
  }

  class Lazycbs {
    var list: seq<Lazy>
    var removed: bool        // lazycb_removed
    var nextId: nat
    ghost var fired: seq<nat>
    ghost var gone: set<nat> // removed by a callback, or by anyone

    ghost predicate Valid()
      reads this
    {
      && (forall i :: 0 <= i < |list| ==> list[i].id < nextId && 0 < list[i].interval)
      && (forall i, j :: 0 <= i < j < |list| ==> list[i].id != list[j].id)
    }

    ghost function Due(now: nat): set<nat>
      reads this
    {
      DueIds(list, now)
    }

    constructor ()
      ensures Valid() && list == [] && fired == []
    {
      list, removed, nextId, fired, gone := [], false, 0, [], {};
    }

    /** lazycb: a new callback goes to the head of the list. */
    method Add(interval: nat, now: nat)
      requires Valid() && 0 < interval
      modifies this`list, this`nextId
      ensures Valid() && nextId == old(nextId) + 1 && list == [Lazy(old(nextId), interval, now + interval)] + old(list)
    {
      list := [Lazy(nextId, interval, now + interval)] + list;
      nextId := nextId + 1;
    }

    /** lazycb_remove */
    method Remove(j: nat)
      requires Valid() && j < |list|
      modifies this`list, this`removed, this`gone
      ensures Valid() && removed && list == old(list)[..j] + old(list)[j + 1..] && gone == old(gone) + {old(list)[j].id}
    {
      gone := gone + {list[j].id};
      list := list[..j] + list[j + 1..];
      removed := true;
    }

    /** What a callback has done to the list `was`: `pre` are the new ones, as long as none was removed. */
    ghost predicate Touched(was: seq<Lazy>, wasNext: nat, wasGone: set<nat>, pre: seq<Lazy>, now: nat)
      reads this
    {
      && Valid() && Due(now) <= DueIds(was, now) && Later(pre, now)
      && wasGone <= gone && (!removed ==> list == pre + was && gone == wasGone) && wasNext <= nextId && Stems(list, gone, was, wasNext)
    }

    method AddOne(now: nat, ghost was: seq<Lazy>, ghost wasNext: nat, ghost wasGone: set<nat>, ghost pre: seq<Lazy>)
      returns (ghost pre': seq<Lazy>)
      requires Touched(was, wasNext, wasGone, pre, now)
      modifies this`list, this`nextId
      ensures Touched(was, wasNext, wasGone, pre', now)
    {
      hide Valid, DueIds, Stems;
      ghost var before := list;
      var interval :| 0 < interval;
      Add(interval, now);
      StemsAdd(before, gone, was, wasNext, list[0]);
      pre' := [list[0]] + pre;
      assert !removed ==> list == pre' + was;
      DueFrom(list, before, now);
    }

    method RemoveOne(now: nat, ghost was: seq<Lazy>, ghost wasNext: nat, ghost wasGone: set<nat>, ghost pre: seq<Lazy>)
      requires Touched(was, wasNext, wasGone, pre, now) && list != []
      modifies this`list, this`removed, this`gone
      ensures Touched(was, wasNext, wasGone, pre, now) && removed
    {
      hide Valid, DueIds, Stems;
      ghost var before := list;
      var j :| 0 <= j < |list|;
      StemsRemove(list, gone, was, wasNext, j);
      Remove(j);
      DueFrom(list, before, now);
    }

    /** A callback adds lazy callbacks, and removes any, itself included. */
    method Callback(now: nat) returns (ghost pre: seq<Lazy>)
      requires Valid()
      modifies this`list, this`removed, this`nextId, this`gone
      ensures Touched(old(list), old(nextId), old(gone), pre, now) && (old(removed) ==> removed)
    {
      hide Valid, DueIds, Stems;
      pre := [];
      StemsStart(list, gone, nextId);
      assert list == pre + list;
      var more :| 0 <= more;
      for i := 0 to more
        invariant Touched(old(list), old(nextId), old(gone), pre, now) && (old(removed) ==> removed)
      {
        if * {
          pre := AddOne(now, old(list), old(nextId), old(gone), pre);
        } else if list != [] {
          RemoveOne(now, old(list), old(nextId), old(gone), pre);
        }
      }
    }

    /** How far a check that found the list `was` has come, with what fired since. */
    ghost predicate Scanned(was: seq<Lazy>, wasNext: nat, log: seq<nat>, now: nat)
      reads this
    {
      && log <= fired && wasNext <= nextId && Due(now) <= DueIds(was, now)
      && (forall i :: |log| <= i < |fired| ==> fired[i] in DueIds(was, now) && fired[i] !in Due(now))
      && (forall i, j :: |log| <= i < j < |fired| ==> fired[i] != fired[j])
      && AllFollowed(was, list, fired[|log|..], gone, now)
      && AllAccounted(list, was, wasNext, fired[|log|..], now)
    }

    /** One turn of the check: the callback at `at` fires. */
    method Turn(at: nat, now: nat, ghost was: seq<Lazy>, ghost wasNext: nat, ghost log: seq<nat>) returns (at': nat)
      requires Valid() && Scanned(was, wasNext, log, now) && at < |list| && list[at].next <= now
      requires (forall i :: 0 <= i < at ==> now < list[i].next) && (forall i :: 0 <= i < |was| ==> was[i].id < wasNext)
      modifies this
      ensures Valid() && Scanned(was, wasNext, log, now) && at' <= |list| && (forall i :: 0 <= i < at' ==> now < list[i].next)
      ensures old(gone) <= gone && Due(now) < old(Due(now))
    {
      hide DueIds, AllFollowed, AllAccounted, Stems;
      ghost var before, done, next := list, fired[|log|..], nextId;
      at' := FireAt(at, now);
      OldDue(was, wasNext, before[at].id, now);
      assert fired[|log|..] == done + [before[at].id];
      AccountsStep(was, wasNext, done, now, before, at, list, gone, next);
      MoreGone(was, before, done, old(gone), gone, now);
      FollowedStep(was, done, now, before, at, list, gone, next);
    }

    /** lazycb_check: with positive intervals the restarts come to an end; each callback
        fires at most once, only when due, and none that was due is left: it fires and is put off by
        its interval, unless a callback removes it. */
    method LazycbCheck(now: nat)
      requires Valid()
      modifies this
      ensures Valid() && Due(now) == {} && old(fired) <= fired
      ensures forall i, j :: |old(fired)| <= i < j < |fired| ==> fired[i] != fired[j]
      ensures forall i :: |old(fired)| <= i < |fired| ==> fired[i] in old(Due(now))
      ensures forall l :: l in list ==> Accounts(l, old(list), old(nextId), fired[|old(fired)|..], now)
      ensures old(gone) <= gone && forall l :: l in old(list) ==> Done(l, list, fired[|old(fired)|..], gone, now)
    {
      hide DueIds, AllFollowed, AllAccounted, Followed, Accounts, Done;
      removed := false;
      var at := 0;
      StartScan(list, nextId, gone, now);
      assert fired[|fired|..] == [];
      while at < |list|
        invariant Valid() && 0 <= at <= |list| && Scanned(old(list), old(nextId), old(fired), now) && old(gone) <= gone
        invariant forall i :: 0 <= i < at ==> now < list[i].next
        decreases Due(now), |list| - at
      {
        if now < list[at].next {
          at := at + 1;
        } else {
          at := Turn(at, now, old(list), old(nextId), old(fired));
        }
      }
      NoneDue(list, now);
      EndScan(old(list), old(nextId), list, fired[|old(fired)|..], gone, now);
    }

    /** Fires the callback at `at`, and goes on after it or, after a removal, from the head. */
    method FireAt(at: nat, now: nat) returns (at': nat)
      requires Valid() && at < |list| && list[at].next <= now
      requires forall i :: 0 <= i < at ==> now < list[i].next
      modifies this
      ensures Valid() && at' <= |list| && forall i :: 0 <= i < at' ==> now < list[i].next
      ensures fired == old(fired) + [old(list)[at].id] && old(list)[at].id in old(Due(now))
      ensures Due(now) <= old(Due(now)) - {old(list)[at].id}
      ensures old(nextId) <= nextId && old(gone) <= gone
      ensures Stems(list, gone, old(list)[at := old(list)[at].(next := now + old(list)[at].interval)], old(nextId))
    {
      hide DueIds, Stems;
      var id := list[at].id;
      PutOff(at, now);
      ghost var rest := list;
      ghost var pre := Callback(now);
      if removed {
        at' := 0;
      } else {
        at' := GoOn(id, pre, rest, at, now);
      }
    }

    /** The scan goes on after the callback that was run; new ones have come before it. */
    method GoOn(id: nat, ghost pre: seq<Lazy>, ghost rest: seq<Lazy>, ghost at: nat, now: nat) returns (at': nat)
      requires Valid() && list == pre + rest && at < |rest| && rest[at].id == id && Later(pre, now)
      requires forall i :: 0 <= i <= at ==> now < rest[i].next
      ensures at' <= |list| && forall i :: 0 <= i < at' ==> now < list[i].next
    {
      assert list[|pre| + at] == rest[at];
      at' := Index(id, |pre| + at);
      at' := at' + 1;
      assert forall i :: 0 <= i < at' ==> list[i] == if i < |pre| then pre[i] else rest[i - |pre|];
    }

    /** The callback's next time is set before it is called. */
    method PutOff(at: nat, now: nat)
      requires Valid() && at < |list| && list[at].next <= now
      modifies this`list, this`fired, this`removed
      ensures Valid() && !removed && fired == old(fired) + [old(list)[at].id]
      ensures list == old(list)[at := old(list)[at].(next := now + old(list)[at].interval)]
      ensures old(list)[at].id in old(Due(now)) && Due(now) <= old(Due(now)) - {old(list)[at].id}
    {
      hide DueIds;
      DueLater(list, at, now + list[at].interval, now);
      fired := fired + [list[at].id];
      list := list[at := list[at].(next := now + list[at].interval)];
      removed := false;
    }

    /** Where the callback that was just run is now. */
    method Index(id: nat, ghost k: nat) returns (i: nat)
      requires Valid() && k < |list| && list[k].id == id
      ensures i == k
    {
      i := 0;
      while list[i].id != id
        invariant i <= k
        decreases k - i
      {
        i := i + 1;
      }
    }
  }
}
