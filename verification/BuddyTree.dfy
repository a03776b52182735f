/**
 The binary tree of blocks behind the buddy allocator. Block (l, p) is the p-th aligned
 block of level l; level-0 blocks are the smallest ones, the units.
 */
module BuddyTree {
  import opened PowersOfTwo

  /** The position at level `l` of the block that holds unit (or lower block) `u`. */
  function Above(u: nat, l: nat): nat {
    if l == 0 then u else Above(u, l - 1) / 2
  }

  lemma {:induction false} AboveAbove(u: nat, l: nat, m: nat)
    ensures Above(u, l + m) == Above(Above(u, l), m)
  {
    if m != 0 {
      AboveAbove(u, l, m - 1);
    }
  }

  /** The units of a block. */
  function Units(l: nat, p: nat): set<nat> {
    if l == 0 then {p} else Units(l - 1, 2 * p) + Units(l - 1, 2 * p + 1)
  }

  lemma {:induction false} InUnits(l: nat, p: nat, u: nat)
    ensures u in Units(l, p) <==> Above(u, l) == p
  {
    if l != 0 {
      InUnits(l - 1, 2 * p, u);
      InUnits(l - 1, 2 * p + 1, u);
    }
  }

  lemma {:induction false} UnitsCount(l: nat, p: nat)
    ensures |Units(l, p)| == Pow2(l)
  {
    if l != 0 {
      UnitsCount(l - 1, 2 * p);
      UnitsCount(l - 1, 2 * p + 1);
      var left, right := Units(l - 1, 2 * p), Units(l - 1, 2 * p + 1);
      forall u | u in left
        ensures u !in right
      {
        InUnits(l - 1, 2 * p, u);
        InUnits(l - 1, 2 * p + 1, u);
      }
      assert left !! right && |left + right| == |left| + |right|;
    }
  }

  /** A block is an aligned range. */
  lemma {:induction false} UnitsAligned(l: nat, p: nat, u: nat)
    ensures u in Units(l, p) <==> p * Pow2(l) <= u < (p + 1) * Pow2(l)
  {
    if l != 0 {
      UnitsAligned(l - 1, 2 * p, u);
      UnitsAligned(l - 1, 2 * p + 1, u);
      Halves(p, Pow2(l - 1));
    }
  }

  lemma Halves(p: nat, w: nat)
    ensures p * (2 * w) == (2 * p) * w <= (2 * p + 1) * w <= (p + 1) * (2 * w) == (2 * p + 1 + 1) * w
  {
    assert (2 * p + 1) * w == (2 * p) * w + w;
    assert (2 * p + 1 + 1) * w == (2 * p) * w + w + w;
  }

  /** Block (k, b) contains block (l, p). */
  predicate Contains(k: nat, b: nat, l: nat, p: nat) {
    l <= k && Above(p, k - l) == b
  }

  lemma ContainsUnits(k: nat, b: nat, l: nat, p: nat, u: nat)
    requires Contains(k, b, l, p) && u in Units(l, p)
    ensures u in Units(k, b)
  {
    InUnits(l, p, u);
    InUnits(k, b, u);
    AboveAbove(u, l, k - l);
  }

  /** Two blocks with a common unit are nested. */
  lemma Nested(k: nat, b: nat, l: nat, p: nat, u: nat)
    requires u in Units(k, b) && u in Units(l, p)
    ensures Contains(k, b, l, p) || Contains(l, p, k, b)
  {
    InUnits(l, p, u);
    InUnits(k, b, u);
    if l <= k {
      AboveAbove(u, l, k - l);
    } else {
      AboveAbove(u, k, l - k);
    }
  }

  /** Every unit of the block is free. */
  ghost predicate Full(f: set<nat>, l: nat, p: nat) {
    Units(l, p) <= f
  }

  lemma ContainsFull(f: set<nat>, k: nat, b: nat, l: nat, p: nat)
    requires Full(f, k, b) && Contains(k, b, l, p)
    ensures Full(f, l, p)
  {
    forall u | u in Units(l, p)
      ensures u in f
    {
      ContainsUnits(k, b, l, p, u);
    }
  }

  /** Removing a block spares exactly the full blocks not nested with it. */
  lemma FullWithout(f: set<nat>, k: nat, b: nat, l: nat, p: nat)
    ensures Full(f - Units(k, b), l, p) <==> Full(f, l, p) && !Contains(k, b, l, p) && !Contains(l, p, k, b)
  {
    if Contains(k, b, l, p) || Contains(l, p, k, b) {
      var (l', p') := if Contains(k, b, l, p) then (l, p) else (k, b);
      UnitsCount(l', p');
      var u :| u in Units(l', p');
      if Contains(k, b, l, p) {
        ContainsUnits(k, b, l, p, u);
      } else {
        ContainsUnits(l, p, k, b, u);
      }
    } else {
      forall u | u in Units(l, p)
        ensures u !in Units(k, b)
      {
        if u in Units(k, b) {
          Nested(k, b, l, p, u);
        }
      }
    }
  }

  // ----- Canonical free maps

  /** The free map bit of a block: full, and not part of a larger full block. */
  ghost predicate Bit(f: set<nat>, top: nat, l: nat, p: nat) {
    Full(f, l, p) && (l == top || !Full(f, l + 1, p / 2))
  }

  /** The free maps are those of the free units `f`: exactly the maximal full blocks. */
  ghost predicate Canonical(maps: seq<set<nat>>, f: set<nat>) {
    && maps != []
    && forall l, p: nat {:trigger p in maps[l]} :: 0 <= l < |maps| ==> (p in maps[l] <==> Bit(f, |maps| - 1, l, p))
  }

  /** The free units determine the maps. */
  lemma CanonicalUnique(maps: seq<set<nat>>, maps': seq<set<nat>>, f: set<nat>)
    requires Canonical(maps, f) && Canonical(maps', f) && |maps| == |maps'|
    ensures maps == maps'
  {
    forall l | 0 <= l < |maps|
      ensures maps[l] == maps'[l]
    {
      assert forall p :: p in maps[l] <==> p in maps'[l];
    }
  }

  /** A full block lies in a maximal one, which is at its level or above. */
  lemma Climb(f: set<nat>, top: nat, l: nat, p: nat) returns (k: nat)
    requires l <= top && Full(f, l, p)
    ensures l <= k <= top && Bit(f, top, k, Above(p, k - l))
    decreases top - l
  {
    if l == top || !Full(f, l + 1, p / 2) {
      k := l;
    } else {
      k := Climb(f, top, l + 1, p / 2);
      assert Above(p, 1) == p / 2;
      AboveAbove(p, 1, k - l - 1);
    }
  }

  /** The maps determine the free units. */
  lemma FreeUnits(maps: seq<set<nat>>, f: set<nat>, u: nat)
    requires Canonical(maps, f)
    ensures u in f <==> exists l :: 0 <= l < |maps| && Above(u, l) in maps[l]
  {
    if u in f {
      assert Full(f, 0, u);
      var k := Climb(f, |maps| - 1, 0, u);
      assert Above(u, k) in maps[k];
    }
    if l :| 0 <= l < |maps| && Above(u, l) in maps[l] {
      InUnits(l, Above(u, l), u);
    }
  }

  lemma ContainsParent(k: nat, b: nat, l: nat, p: nat)
    requires Contains(k, b, l, p) && l < k
    ensures Contains(k, b, l + 1, p / 2)
  {
    AboveAbove(p, 1, k - l - 1);
    assert Above(p, 1) == p / 2;
  }

  /** Taking a maximal block out clears its bit and no other. */
  lemma TakeBit(f: set<nat>, top: nat, k: nat, b: nat, l: nat, p: nat)
    requires k <= top && l <= top && Bit(f, top, k, b)
    ensures Bit(f - Units(k, b), top, l, p) <==> Bit(f, top, l, p) && (l, p) != (k, b)
  {
    FullWithout(f, k, b, l, p);
    FullWithout(f, k, b, l + 1, p / 2);
    assert Contains(k, b, k, b);
    if Contains(k, b, l, p) && l < k {
      ContainsParent(k, b, l, p);
      ContainsFull(f, k, b, l + 1, p / 2);
    } else if Contains(l, p, k, b) && k < l {
      ContainsParent(l, p, k, b);
      if Full(f, l, p) {
        ContainsFull(f, l, p, k + 1, b / 2);
      }
    } else if !Contains(k, b, l, p) && !Contains(l, p, k, b) && l < top {
      TakeParent(f, top, k, b, l, p);
    }
  }

  lemma ParentContains(k: nat, b: nat, l: nat, p: nat)
    ensures Contains(k, b, l + 1, p / 2) ==> Contains(k, b, l, p)
  {
    assert Above(p, 1) == p / 2;
    if l < k {
      AboveAbove(p, 1, k - l - 1);
    }
  }

  /** Outside the block taken, a parent that was full stays full. */
  lemma TakeParent(f: set<nat>, top: nat, k: nat, b: nat, l: nat, p: nat)
    requires k <= top && l < top && Bit(f, top, k, b)
    requires !Contains(k, b, l, p) && !Contains(l, p, k, b)
    ensures Full(f - Units(k, b), l + 1, p / 2) <==> Full(f, l + 1, p / 2)
  {
    FullWithout(f, k, b, l + 1, p / 2);
    ParentContains(k, b, l, p);
    if Contains(l + 1, p / 2, k, b) && k <= l && Full(f, l + 1, p / 2) {
      ContainsParent(l + 1, p / 2, k, b);
      ContainsFull(f, l + 1, p / 2, k + 1, b / 2);
    }
  }

  /** Taking a maximal block keeps the maps canonical. */
  lemma Take(maps: seq<set<nat>>, f: set<nat>, k: nat, b: nat)
    requires Canonical(maps, f) && k < |maps| && b in maps[k]
    ensures Canonical(maps[k := maps[k] - {b}], f - Units(k, b))
  {
    var maps' := maps[k := maps[k] - {b}];
    forall l, p: nat {:trigger p in maps'[l]} | 0 <= l < |maps'|
      ensures p in maps'[l] <==> Bit(f - Units(k, b), |maps'| - 1, l, p)
    {
      TakeBit(f, |maps| - 1, k, b, l, p);
      assert p in maps[l] <==> Bit(f, |maps| - 1, l, p);
    }
  }

  function Buddy(p: nat): nat {
    if p % 2 == 0 then p + 1 else p - 1
  }

  /** A block given back whose buddy is not full is maximal. */
  lemma GivenBit(f: set<nat>, top: nat, k: nat, b: nat)
    requires k <= top && Units(k, b) !! f && (k == top || !Full(f, k, Buddy(b)))
    ensures Bit(f + Units(k, b), top, k, b)
  {
    var g := f + Units(k, b);
    assert g - Units(k, b) == f;
    if k < top && Full(g, k + 1, b / 2) {
      assert Contains(k + 1, b / 2, k, Buddy(b)) by { assert Above(Buddy(b), 1) == b / 2; }
      ContainsFull(g, k + 1, b / 2, k, Buddy(b));
      FullWithout(g, k, b, k, Buddy(b));
    }
  }

  /** Giving back a block whose buddy is not full sets its bit and no other. */
  lemma Give(maps: seq<set<nat>>, f: set<nat>, k: nat, b: nat)
    requires Canonical(maps, f) && k < |maps| && Units(k, b) !! f
    requires k == |maps| - 1 || !Full(f, k, Buddy(b))
    ensures b !in maps[k] && Canonical(maps[k := maps[k] + {b}], f + Units(k, b))
  {
    var top, g := |maps| - 1, f + Units(k, b);
    var maps' := maps[k := maps[k] + {b}];
    UnitsCount(k, b);
    assert b !in maps[k] by {
      var u :| u in Units(k, b);
      assert !Full(f, k, b);
    }
    assert g - Units(k, b) == f;
    GivenBit(f, top, k, b);
    hide Units, Full, Bit;
    forall l, p: nat {:trigger p in maps'[l]} | 0 <= l < |maps'|
      ensures p in maps'[l] <==> Bit(g, top, l, p)
    {
      TakeBit(g, top, k, b, l, p);
      assert p in maps[l] <==> Bit(f, top, l, p);
    }
  }

  /** A buddy that is itself maximal merges: the pair is the parent block. */
  lemma Merge(k: nat, b: nat)
    ensures Units(k, b) + Units(k, Buddy(b)) == Units(k + 1, b / 2)
    ensures Units(k, b) !! Units(k, Buddy(b))
  {
    forall u
      ensures u in Units(k, b) + Units(k, Buddy(b)) <==> u in Units(k + 1, b / 2)
      ensures !(u in Units(k, b) && u in Units(k, Buddy(b)))
    {
      InUnits(k, b, u);
      InUnits(k, Buddy(b), u);
      InUnits(k + 1, b / 2, u);
    }
  }

  /** While a block is in use, its buddy's bit says whether the buddy is full. */
  lemma BuddyBit(maps: seq<set<nat>>, f: set<nat>, k: nat, b: nat)
    requires Canonical(maps, f) && k < |maps| - 1 && Units(k, b) !! f
    ensures Buddy(b) in maps[k] <==> Full(f, k, Buddy(b))
  {
    UnitsCount(k, b);
    var u :| u in Units(k, b);
    Merge(k, b);
    assert u in Units(k + 1, b / 2) && u !in f;
    assert Buddy(b) / 2 == b / 2;
  }
}
