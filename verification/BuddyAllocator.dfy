/**
 bbuddy: the binary buddy allocator, one free map per block size. Its maps are the
 canonical ones of the free units at all times.
 */
module BuddyAllocator {
  import opened BuddyTree
  import opened FreeMap
  import opened PowersOfTwo

  /** x << n; the shift right is `Above`. */
  function Shl(x: nat, n: nat): nat {
    if n == 0 then x else 2 * Shl(x, n - 1)
  }

  lemma {:induction false} ShlAdd(x: nat, y: nat, n: nat)
    ensures Shl(x + y, n) == Shl(x, n) + Shl(y, n)
  {
    if n != 0 {
      ShlAdd(x, y, n - 1);
    }
  }

  lemma {:induction false} ShlPow2(l: nat, n: nat)
    ensures Shl(Pow2(l), n) == Pow2(n + l)
  {
    if n != 0 {
      ShlPow2(l, n - 1);
    }
  }

  lemma {:induction false} ShiftBack(x: nat, n: nat)
    ensures Above(Shl(x, n), n) == x
  {
    if n != 0 {
      AboveAbove(Shl(x, n), 1, n - 1);
      assert Above(Shl(x, n), 1) == Shl(x, n - 1);
      ShiftBack(x, n - 1);
    }
  }

  /** Offsets are the multiples of the block size. */
  lemma {:induction false} ShlMultiplies(x: nat, n: nat)
    ensures Shl(x, n) == x * Pow2(n)
  {
    if n != 0 {
      ShlMultiplies(x, n - 1);
      assert 2 * (x * Pow2(n - 1)) == x * (2 * Pow2(n - 1));
    }
  }

  /** fls: the number of significant bits. */
  function Fls(v: nat): nat {
    if v == 0 then 0 else 1 + Fls(v / 2)
  }

  /** log2c as an unsigned number: zero has no logarithm and becomes the largest value. */
  function SizeClass(n: nat): nat {
    if n == 0 then 0xffff_ffff else Fls(n - 1)
  }

  /** The size class of `n` is that of the smallest power of two that holds it. */
  lemma {:induction false} FlsBounds(v: nat)
    ensures v < Pow2(Fls(v)) && (v > 0 ==> Pow2(Fls(v) - 1) <= v)
  {
    if v != 0 {
      FlsBounds(v / 2);
    }
  }

  lemma SizeClassBounds(n: nat)
    requires n > 0
    ensures n <= Pow2(SizeClass(n)) && (n > 1 ==> Pow2(SizeClass(n) - 1) < n)
  {
    FlsBounds(n - 1);
  }

  /** A block in use. */
  datatype Block = Block(level: nat, pos: nat) {
    ghost function Cover(): set<nat> {
      Units(level, pos)
    }
  }

  /** Blocks of level `l` in `tops` blocks of the top level. */
  function Count(tops: nat, top: nat, l: nat): nat
    requires l <= top
  {
    Shl(tops, top - l)
  }

  lemma CountHalves(tops: nat, top: nat, l: nat)
    requires 0 < l <= top
    ensures Count(tops, top, l - 1) == 2 * Count(tops, top, l)
  {
  }

  lemma CountHalved(tops: nat, top: nat, l: nat)
    ensures l < top ==> Count(tops, top, l) / 2 == Count(tops, top, l + 1)
  {
    if l < top {
      CountHalves(tops, top, l + 1);
    }
  }

  ghost predicate Within(s: set<nat>, n: nat) {
    forall u :: u in s ==> u < n
  }

  /** A block lies in the arena exactly when its map has a bit for it. */
  lemma {:induction false} InRange(tops: nat, top: nat, l: nat, p: nat)
    requires l <= top
    ensures Within(Units(l, p), Count(tops, top, 0)) <==> p < Count(tops, top, l)
  {
    if l == 0 {
      assert p in Units(0, p);
    } else {
      var left, right := Units(l - 1, 2 * p), Units(l - 1, 2 * p + 1);
      assert forall u :: u in Units(l, p) <==> u in left || u in right;
      CountHalves(tops, top, l);
      InRange(tops, top, l - 1, 2 * p);
      InRange(tops, top, l - 1, 2 * p + 1);
    }
  }

  /** The free units and the blocks in use tile [0, n): disjoint, and nothing is lost. */
  ghost predicate Tiles(free: set<nat>, live: set<Block>, n: nat) {
    && Within(free, n)
    && (forall b :: b in live ==> Within(b.Cover(), n) && b.Cover() !! free)
    && (forall b, c :: b in live && c in live && b != c ==> b.Cover() !! c.Cover())
    && (forall u :: 0 <= u < n && u !in free ==> exists b :: b in live && u in b.Cover())
  }

  /** Units in use. */
  ghost function Total(live: set<Block>): nat {
    if live == {} then 0
    else var b :| b in live; Pow2(b.level) + Total(live - {b})
  }

  lemma {:induction false} TotalWithout(live: set<Block>, b: Block)
    requires b in live
    ensures Total(live) == Pow2(b.level) + Total(live - {b})
  {
    var c :| c in live && Total(live) == Pow2(c.level) + Total(live - {c});
    if b != c {
      TotalWithout(live - {c}, b);
      TotalWithout(live - {b}, c);
      assert live - {c} - {b} == live - {b} - {c};
    }
  }

  class Bbuddy {
    const log2minalloc: nat
    const log2maxalloc: nat
    const freemaps: seq<Bbfree>
    var totsize: nat
    var spaceleft: nat
    ghost var tops: nat       // the maps are sized for this many top-level blocks
    ghost var free: set<nat>
    ghost var live: set<Block>

    ghost function Top(): nat
      requires log2minalloc <= log2maxalloc
    {
      log2maxalloc - log2minalloc
    }

    ghost predicate Shaped() {
      && 1 <= log2minalloc <= log2maxalloc <= 64
      && |freemaps| == Top() + 1
      && (forall i, j :: 0 <= i < j < |freemaps| ==> freemaps[i] != freemaps[j])
    }

    ghost predicate Sized()
      reads this`tops, freemaps
    {
      && Shaped()
      && (forall l :: 0 <= l < |freemaps| ==> freemaps[l].Valid() && freemaps[l].nbits == Count(tops, Top(), l))
    }

    ghost function Maps(): (maps: seq<set<nat>>)
      reads this`tops, freemaps
      requires Sized()
      ensures |maps| == |freemaps|
    {
      seq(|freemaps|, l requires 0 <= l < |freemaps| && freemaps[l].nbits <= |freemaps[l].words| * MAPBITS
                        reads freemaps => freemaps[l].Bits())
    }

    /** The maps are sized, and canonical for the free units `f`. */
    ghost predicate Ready(f: set<nat>)
      reads this`tops, freemaps
    {
      Shaped() && Sized() && Canonical(Maps(), f)
    }

    ghost predicate Valid()
      reads this, freemaps
    {
      && Ready(free)
      && totsize == Shl(tops, log2maxalloc)
      && Tiles(free, live, Count(tops, Top(), 0))
      && spaceleft == Shl(|free|, log2minalloc)
    }

    /** fm (sn).clrbit (pos) */
    method Clear(l: nat, p: nat, ghost f: set<nat>)
      requires Ready(f) && l < |freemaps| && p in Maps()[l]
      modifies freemaps
      ensures Ready(f - Units(l, p))
    {
      ghost var maps := Maps();
      freemaps[l].ClrBit(p);
      assert Maps() == maps[l := maps[l] - {p}];
      Take(maps, f, l, p);
    }

    /** fm (sn).setbit (pos) */
    method Set(l: nat, p: nat, ghost f: set<nat>)
      requires Ready(f) && l < |freemaps| && p < Count(tops, Top(), l) && Units(l, p) !! f
      requires l == Top() || !Full(f, l, Buddy(p))
      modifies freemaps
      ensures Ready(f + Units(l, p))
    {
      ghost var maps := Maps();
      Give(maps, f, l, p);
      freemaps[l].SetBit(p);
      assert Maps() == maps[l := maps[l] + {p}];
    }

    /** The rounded size of a request is the smallest block size that holds it. */
    ghost predicate Fits(n: nat, b: Block)
      requires Shaped()
    {
      && n > 0 && b.level <= Top()
      && n <= Pow2(log2minalloc + b.level)
      && (b.level == 0 || Pow2(log2minalloc + b.level - 1) < n)
    }

    ghost function Offset(b: Block): nat {
      Shl(b.pos, log2minalloc + b.level)
    }

    /** fm (sn).findbit (&pos) */
    method Find(l: nat) returns (found: bool, pos: nat)
      requires Sized() && l < |freemaps|
      modifies freemaps
      ensures Sized() && Maps() == old(Maps())
      ensures found == (Maps()[l] != {}) && (found ==> pos in Maps()[l])
    {
      found, pos := freemaps[l].FindBit();
      assert Maps() == old(Maps());
    }

    /** Looks for a block to split, from the next size up. */
    method FindAbove(l: nat) returns (found: bool, k: nat, pos: nat)
      requires Sized() && l < |freemaps| && Maps()[l] == {}
      modifies freemaps
      ensures Sized() && Maps() == old(Maps())
      ensures found ==> l < k < |freemaps| && pos in Maps()[k] && forall i :: l <= i < k ==> Maps()[i] == {}
      ensures !found ==> forall i :: l <= i < |freemaps| ==> Maps()[i] == {}
    {
      hide Sized;
      k := l;
      while true
        invariant l <= k < |freemaps|
        invariant Sized() && Maps() == old(Maps())
        invariant forall i :: l <= i <= k ==> Maps()[i] == {}
        decreases |freemaps| - k
      {
        k := k + 1;
        if k == |freemaps| {
          return false, k, 0;
        }
        found, pos := Find(k);
        if found {
          return;
        }
      }
    }

    /** Halves a taken block down to level `l`, giving back every upper half: the first of its
        blocks of that level stays taken. */
    method Split(k: nat, b: nat, l: nat, ghost f: set<nat>) returns (pos: nat)
      requires l < k < |freemaps| && Full(f, k, b) && Ready(f - Units(k, b))
      requires Within(f, Count(tops, Top(), 0))
      modifies freemaps
      ensures Full(f, l, pos) && Ready(f - Units(l, pos)) && pos == Shl(b, k - l)
    {
      hide Canonical, Full, Units, Within, Sized;
      pos := b;
      var i := k;
      while l < i
        invariant l <= i <= k && Full(f, i, pos) && Ready(f - Units(i, pos)) && pos == Shl(b, k - i)
      {
        i, pos := i - 1, 2 * pos;
        ghost var g := f - Units(i + 1, pos / 2);
        SplitUnits(f, i, pos);
        SplitInRange(f, i, pos, tops, Top());
        Set(i, pos + 1, g);
      }
    }

    /** A block of level `l` is taken off the maps, if there is one anywhere. */
    method TakeBlock(l: nat) returns (found: bool, pos: nat)
      requires Ready(free) && l < |freemaps| && Within(free, Count(tops, Top(), 0))
      modifies freemaps
      ensures found ==> Full(free, l, pos) && Ready(free - Units(l, pos)) && BestFit(free, Top(), l, pos)
      ensures !found ==> (forall p :: !Full(free, l, p)) && Ready(free) && Maps() == old(Maps())
    {
      hide Canonical, Units, Full, BestFit, Within, Count, Shl, Bit, Sized;
      found, pos := Find(l);
      if found {
        ShlNone(pos);
        NearestBlock(Maps(), free, l, l, pos);
        Clear(l, pos, free);
        return;
      }
      var k;
      found, k, pos := FindAbove(l);
      if !found {
        NoneFree(Maps(), free, l);
        return;
      }
      NearestBlock(Maps(), free, l, k, pos);
      Clear(k, pos, free);
      pos := Split(k, pos, l, free);
    }

    /** alloc fails exactly when no aligned block of the rounded size is free; otherwise it
        returns one, and only that block changes hands. */
    method Alloc(n: nat) returns (off: int, ghost b: Block)
      requires Valid()
      modifies this`spaceleft, this`free, this`live, freemaps
      ensures Valid()
      ensures off == -1 <==> forall c: Block :: Fits(n, c) ==> !Full(old(free), c.level, c.pos)
      ensures off == -1 ==> free == old(free) && live == old(live) && spaceleft == old(spaceleft) && Maps() == old(Maps())
      ensures off != -1 ==> Fits(n, b) && Full(old(free), b.level, b.pos) && off == Offset(b)
                            && free == old(free) - b.Cover() && b !in old(live) && live == old(live) + {b}
                            && BestFit(old(free), Top(), b.level, b.pos)
    {
      hide BestFit, Canonical, Full, Units, Within, Tiles, Fits, SizeClass, Count, Shl, Sized;
      b := Block(0, 0);
      var sn := SizeClass(n);
      if sn < log2minalloc {
        sn := log2minalloc;
      }
      ClassFits(n);
      if sn > log2maxalloc {
        off := -1;
        return;
      }
      TilesWithin(free, live, Count(tops, Top(), 0));
      var found, pos := TakeBlock(sn - log2minalloc);
      if !found {
        off := -1;
        return;
      }
      b := Block(sn - log2minalloc, pos);
      Account(sn, b);
      off := Shl(pos, sn);
    }

    /** The space of a taken block is deducted. */
    method Account(sn: nat, ghost b: Block)
      requires Ready(free - b.Cover()) && Full(free, b.level, b.pos) && sn == log2minalloc + b.level
      requires Tiles(free, live, Count(tops, Top(), 0))
      requires totsize == Shl(tops, log2maxalloc) && spaceleft == Shl(|free|, log2minalloc)
      modifies this`spaceleft, this`free, this`live
      ensures Valid() && free == old(free) - b.Cover() && b !in old(live) && live == old(live) + {b}
    {
      hide Canonical, Full, Units, Tiles, Shl, Count, Sized;
      TakeTiles(free, live, Count(tops, Top(), 0), b);
      TakeSpace(free, b, log2minalloc);
      spaceleft := spaceleft - Pow2(sn);
      free, live := free - b.Cover(), live + {b};
    }

    /** fm (sn).getbit (pos) */
    method Get(l: nat, p: nat) returns (b: bool)
      requires Sized() && l < |freemaps| && p < Count(tops, Top(), l)
      ensures b == (p in Maps()[l])
    {
      b := freemaps[l].GetBit(p);
    }

    /** The body of dealloc: the block is merged with its buddy as long as that is free. */
    method Release(l: nat, p: nat, ghost f: set<nat>)
      requires Ready(f) && l < |freemaps| && p < Count(tops, Top(), l) && Units(l, p) !! f
      modifies freemaps
      ensures Ready(f + Units(l, p))
    {
      hide Canonical, Full, Units, Bit, Shl, Sized;
      var i: nat, pos: nat := l, p;
      ghost var g := f;
      while i < log2maxalloc - log2minalloc
        invariant l <= i < |freemaps| && pos < Count(tops, Top(), i)
        invariant Ready(g) && Units(i, pos) !! g && g + Units(i, pos) == f + Units(l, p)
      {
        CountHalves(tops, Top(), i + 1);
        BuddyBit(Maps(), g, i, pos);
        var b := Get(i, Buddy(pos));
        if b {
          Clear(i, Buddy(pos), g);
          MergeInto(g, i, pos);
          g := g - Units(i, Buddy(pos));
        } else {
          Set(i, pos, g);
          return;
        }
        i, pos := i + 1, pos / 2;
      }
      Set(i, pos, g);
    }

    /** dealloc undoes an alloc of the same block. */
    method Dealloc(off: nat, len: nat, ghost b: Block)
      requires Valid() && b in live && Fits(len, b) && off == Offset(b)
      modifies this`spaceleft, this`free, this`live, freemaps
      ensures Valid() && free == old(free) + b.Cover() && live == old(live) - {b}
    {
      hide Canonical, Full, Units, Within, Tiles, Fits, SizeClass, Count, Bit, Above, Shl, Sized;
      var sn := SizeClass(len);
      if sn < log2minalloc {
        sn := log2minalloc;
      }
      ClassFits(len);
      var pos := Above(off, sn);
      ShiftBack(b.pos, sn);
      assert off == Shl(pos, sn);
      GiveTiles(free, live, Count(tops, Top(), 0), b);
      GiveInRange(free, live, tops, Top(), b);
      Release(sn - log2minalloc, pos, free);
      Credit(sn, b);
    }

    /** The space of a block given back is credited. */
    method Credit(sn: nat, ghost b: Block)
      requires Ready(free + b.Cover()) && b in live && sn == log2minalloc + b.level
      requires Tiles(free, live, Count(tops, Top(), 0))
      requires totsize == Shl(tops, log2maxalloc) && spaceleft == Shl(|free|, log2minalloc)
      modifies this`spaceleft, this`free, this`live
      ensures Valid() && free == old(free) + b.Cover() && live == old(live) - {b}
    {
      hide Canonical, Full, Units, Tiles, Shl, Count, Sized;
      GiveTiles(free, live, Count(tops, Top(), 0), b);
      GiveSpace(free, b, log2minalloc);
      spaceleft := spaceleft + Pow2(sn);
      free, live := free + b.Cover(), live - {b};
    }

    /** The constructor's sizes are rounded up to powers of two; minalloc is at least two. */
    constructor (ts: nat, minalloc: nat, maxalloc: nat)
      requires 2 <= minalloc && SizeClass(minalloc) <= SizeClass(maxalloc) <= 64
      ensures Valid() && live == {} && tops == Above(ts, log2maxalloc)
      ensures log2minalloc == SizeClass(minalloc) && log2maxalloc == SizeClass(maxalloc)
      ensures forall m :: m in freemaps ==> fresh(m)
    {
      var maps: seq<Bbfree> := [];
      var n := 1 + SizeClass(maxalloc) - SizeClass(minalloc);
      for i := 0 to n
        invariant |maps| == i
        invariant forall j, k :: 0 <= j < k < i ==> maps[j] != maps[k]
        invariant forall j :: 0 <= j < i ==> fresh(maps[j]) && maps[j].Valid() && maps[j].nbits == 0 && maps[j].Bits() == {}
      {
        var m := new Bbfree();
        maps := maps + [m];
      }
      log2minalloc, log2maxalloc := SizeClass(minalloc), SizeClass(maxalloc);
      freemaps, totsize, spaceleft := maps, 0, 0;
      tops, free, live := 0, {}, {};
      new;
      EmptyArena();
      SetTotSize(ts);
    }

    lemma EmptyArena()
      requires Shaped() && tops == totsize == spaceleft == 0 && free == {} && live == {}
      requires forall l :: 0 <= l < |freemaps| ==> freemaps[l].Valid() && freemaps[l].nbits == 0 && freemaps[l].Bits() == {}
      ensures Valid()
    {
      hide Units;
      forall l | 0 <= l < |freemaps|
        ensures Count(0, Top(), l) == 0
      {
        ShlZero(Top() - l);
      }
      ShlZero(log2maxalloc);
      ShlZero(log2minalloc);
      forall l: nat, p: nat
        ensures !Full({}, l, p)
      {
        UnitsCount(l, p);
      }
    }

    /** When nothing is in use, the maps are those of a fresh arena: every top-level block
        free and no other, whatever the history. */
    lemma AllFree()
      requires Valid() && live == {}
      ensures spaceleft == totsize
      ensures forall l :: 0 <= l < Top() ==> Maps()[l] == {}
      ensures Maps()[Top()] == Span(0, tops)
    {
      hide Units, Sized;
      var n := Count(tops, Top(), 0);
      assert free == Span(0, n);
      forall l: nat, p: nat | l <= Top()
        ensures Full(free, l, p) <==> p < Count(tops, Top(), l)
      {
        InRange(tops, Top(), l, p);
      }
      forall l | 0 <= l < Top()
        ensures Maps()[l] == {}
      {
        CountHalves(tops, Top(), l + 1);
        forall p: nat
          ensures p !in Maps()[l]
        {
          assert p < Count(tops, Top(), l) <==> p / 2 < Count(tops, Top(), l + 1);
        }
      }
      SpanCount(n);
      ShlTwice(tops, Top(), log2minalloc);
    }

    /** The free space and the rounded sizes of the blocks in use add up to the arena. */
    lemma SpaceAdds()
      requires Valid()
      ensures spaceleft + Shl(Total(live), log2minalloc) == totsize
    {
      hide Sized, Canonical, Tiles, Shl, Total;
      TilesCount(free, live, Count(tops, Top(), 0));
      ShlAdd(|free|, Total(live), log2minalloc);
      ShlTwice(tops, Top(), log2minalloc);
    }

    /** Byte `x` lies in the range of block `b`. */
    ghost predicate InBlock(b: Block, x: nat)
      requires Shaped()
    {
      Offset(b) <= x < Offset(b) + Pow2(log2minalloc + b.level)
    }

    /** Blocks in use are aligned, inside the arena, and share no byte. */
    lemma LiveDisjoint(b: Block, c: Block, x: nat)
      requires Valid() && b in live && c in live && InBlock(b, x) && InBlock(c, x)
      ensures b == c && x < totsize && Offset(b) == b.pos * Pow2(log2minalloc + b.level)
    {
      hide Sized, Units;
      BlockBytes(b, x);
      BlockBytes(c, x);
      ShlTwice(tops, Top(), log2minalloc);
      AboveBound(x, log2minalloc, Count(tops, Top(), 0));
      ShlMultiplies(b.pos, log2minalloc + b.level);
    }

    lemma BlockBytes(b: Block, x: nat)
      requires Shaped()
      ensures InBlock(b, x) <==> Above(x, log2minalloc) in b.Cover()
    {
      hide Above, Units, Shl;
      var sn := log2minalloc + b.level;
      RangeUnits(sn, b.pos, x);
      InUnits(sn, b.pos, x);
      AboveAbove(x, log2minalloc, b.level);
      InUnits(b.level, b.pos, Above(x, log2minalloc));
    }

    /** alloc followed by dealloc of the same request leaves the maps as they were. */
    method AllocDealloc(n: nat) returns (off: int)
      requires Valid()
      modifies this, freemaps
      ensures Valid() && live == old(live) && spaceleft == old(spaceleft) && Maps() == old(Maps())
    {
      hide Canonical, Full, Units, Tiles, Fits, Sized, Shl;
      ghost var b;
      off, b := Alloc(n);
      if off != -1 {
        Dealloc(off, n, b);
        assert free == old(free) by { assert b.Cover() <= old(free) by { CoverFull(old(free), b); } }
        assert live == old(live);
        CanonicalUnique(Maps(), old(Maps()), free);
      }
    }

    /** _check_pos: its panic and its assertion are never reached. */
    method CheckPos(l: nat, p: nat, set_: bool) returns (bit: bool)
      requires Valid() && l < |freemaps| && p < Count(tops, Top(), l)
      requires set_ == (l < Top() && Full(free, l + 1, p / 2))
      ensures bit == (p in Maps()[l])
      decreases l
    {
      hide Units, Sized, Tiles, Shl, Count;
      bit := Get(l, p);
      assert !(bit && set_);
      if set_ {
        ParentFull(free, l, p);
      }
      var inside := set_ || bit;
      assert inside == Full(free, l, p);
      if l > 0 {
        CountHalves(tops, Top(), l);
        var bit1 := CheckPos(l - 1, 2 * p, inside);
        var bit2 := CheckPos(l - 1, 2 * p + 1, inside);
        if bit1 && bit2 {
          Merge(l - 1, 2 * p);
        }
        assert !bit1 || !bit2;
      }
    }

    /** The maps below level `l` have their new size, the others their old one. */
    ghost predicate Growing(l: nat, newtops: nat, maps: seq<set<nat>>)
      reads this`tops, freemaps
    {
      && Shaped() && l <= |freemaps| == |maps|
      && (forall k :: 0 <= k < |freemaps| ==>
            && freemaps[k].Valid() && freemaps[k].Bits() == maps[k]
            && freemaps[k].nbits == Count(if k < l then newtops else tops, Top(), k))
    }

    lemma StartsGrowing(newtops: nat)
      requires Sized()
      ensures Growing(0, newtops, Maps()) && |Maps()| == |freemaps|
    {
      hide Count;
    }

    method GrowMap(l: nat, o: nat, ghost newtops: nat, ghost maps: seq<set<nat>>)
      requires Growing(l, newtops, maps) && l < |freemaps| && o == Count(newtops, Top(), l) && tops <= newtops
      modifies freemaps
      ensures Growing(l + 1, newtops, maps)
    {
      hide Count;
      CountOrdered(tops, newtops, Top(), l);
      freemaps[l].Init(o);
    }

    /** The loop over the maps. */
    method GrowAll(ts: nat, ghost newtops: nat, ghost maps: seq<set<nat>>)
      requires Growing(0, newtops, maps) && tops <= newtops && ts == Shl(newtops, log2maxalloc)
      modifies freemaps
      ensures Growing(|freemaps|, newtops, maps)
    {
      hide Shl, Above, Count, Growing;
      GrowingShaped(0, newtops, maps);
      var o := Above(ts, log2minalloc);
      TopCount(newtops, log2maxalloc, log2minalloc);
      for l := 0 to log2maxalloc - log2minalloc + 1
        invariant Growing(l, newtops, maps) && (l <= Top() ==> o == Count(newtops, Top(), l))
      {
        GrowMap(l, o, newtops, maps);
        CountHalved(newtops, Top(), l);
        o := o / 2;
      }
    }

    lemma GrowingShaped(l: nat, newtops: nat, maps: seq<set<nat>>)
      requires Growing(l, newtops, maps)
      ensures Shaped() && |maps| == |freemaps|
    {
    }

    /** Every map grows to the new size; the new bits are clear. */
    method GrowMaps(ts: nat, ghost newtops: nat)
      requires Ready(free) && tops <= newtops && ts == Shl(newtops, log2maxalloc)
      modifies this`tops, freemaps
      ensures tops == newtops && Ready(free) && Maps() == old(Maps())
    {
      hide Canonical, Shl, Growing, GrownTo, Sized;
      ghost var maps := Maps();
      StartsGrowing(newtops);
      GrowAll(ts, newtops, maps);
      MapsSized(newtops, maps);
      tops := newtops;
      Grown(newtops, maps);
    }

    /** With all maps grown, their old number of top-level blocks does not matter. */
    lemma MapsSized(newtops: nat, maps: seq<set<nat>>)
      requires Growing(|freemaps|, newtops, maps)
      ensures |maps| == |freemaps| && GrownTo(newtops, maps)
    {
      hide Count;
    }

    ghost predicate GrownTo(newtops: nat, maps: seq<set<nat>>)
      reads freemaps
    {
      && Shaped() && |freemaps| == |maps|
      && (forall k :: 0 <= k < |freemaps| ==>
            freemaps[k].Valid() && freemaps[k].Bits() == maps[k] && freemaps[k].nbits == Count(newtops, Top(), k))
    }

    lemma Grown(newtops: nat, maps: seq<set<nat>>)
      requires tops == newtops && GrownTo(newtops, maps)
      ensures Sized() && Maps() == maps
    {
      hide Count;
    }

    /** One more top-level block is handed to dealloc. */
    method AddTop(o: nat, ghost t: nat)
      requires Ready(free) && t < tops && o == Shl(t, log2maxalloc)
      requires Tiles(free, live, Count(t, Top(), 0)) && spaceleft == Shl(|free|, log2minalloc)
      modifies this`spaceleft, this`free, freemaps
      ensures free == old(free) + Units(Top(), t)
      ensures Ready(free) && Tiles(free, live, Count(t + 1, Top(), 0)) && spaceleft == Shl(|free|, log2minalloc)
    {
      hide Canonical, Units, Tiles, Above, Full, Sized;
      ShiftBack(t, log2maxalloc);
      GrowTiles(free, live, t, Top());
      GiveSpace(free, Block(Top(), t), log2minalloc);
      Release(log2maxalloc - log2minalloc, Above(o, log2maxalloc), free);
      spaceleft := spaceleft + Pow2(log2maxalloc);
      free := free + Units(Top(), t);
    }

    /** The new top-level blocks are handed to dealloc, one after another. */
    method AddTops(start: nat, ts: nat, ghost first: nat)
      requires Ready(free) && first <= tops && start == Shl(first, log2maxalloc) && ts == Shl(tops, log2maxalloc)
      requires Tiles(free, live, Count(first, Top(), 0)) && spaceleft == Shl(|free|, log2minalloc)
      modifies this`spaceleft, this`free, freemaps
      ensures Ready(free) && Tiles(free, live, Count(tops, Top(), 0)) && spaceleft == Shl(|free|, log2minalloc)
      ensures free == old(free) + Span(Count(first, Top(), 0), Count(tops, Top(), 0))
    {
      hide Canonical, Units, Tiles, Above, Full, Sized, Shl, Span, Pow2, Count;
      var o := start;
      ghost var t := first;
      assert Span(Count(first, Top(), 0), Count(t, Top(), 0)) == {};
      ShlOrdered(t, tops, log2maxalloc);
      while o < ts
        invariant first <= t <= tops && o == Shl(t, log2maxalloc)
        invariant Ready(free) && Tiles(free, live, Count(t, Top(), 0)) && spaceleft == Shl(|free|, log2minalloc)
        invariant free == old(free) + Span(Count(first, Top(), 0), Count(t, Top(), 0))
        decreases tops - t
      {
        ShlOrdered(tops, t, log2maxalloc);
        AddTop(o, t);
        SpanGrows(first, t, Top());
        ShlNext(t, log2maxalloc);
        o := o + Pow2(log2maxalloc);
        t := t + 1;
      }
      ShlOrdered(t, tops, log2maxalloc);
    }

    /** settotsize: the arena grows by whole top-level blocks, all of them free. */
    method SetTotSize(size: nat)
      requires Valid() && tops <= Above(size, log2maxalloc)
      modifies this, freemaps
      ensures Valid() && tops == Above(size, log2maxalloc) && live == old(live)
      ensures free == old(free) + Span(Count(old(tops), Top(), 0), Count(tops, Top(), 0))
    {
      hide Canonical, Units, Tiles, Above, Full, Sized, Shl, Span, Pow2, Count;
      ghost var first := tops;
      var ts := Shl(Above(size, log2maxalloc), log2maxalloc);
      GrowMaps(ts, Above(size, log2maxalloc));
      // totsize is a multiple of the largest block, so the loop over smaller ones ends at once
      LowBitsClear(first, log2maxalloc);
      AddTops(totsize, ts, first);
      totsize := ts;
    }

    /** The size class of a request is its rounded size. */
    lemma ClassFits(n: nat)
      requires Shaped()
      ensures var sn := if SizeClass(n) < log2minalloc then log2minalloc else SizeClass(n);
              forall b: Block :: Fits(n, b) <==> sn <= log2maxalloc && b.level == sn - log2minalloc
    {
      var sn := if SizeClass(n) < log2minalloc then log2minalloc else SizeClass(n);
      if n > 0 {
        SizeClassBounds(n);
        forall b: Block
          ensures Fits(n, b) <==> sn <= log2maxalloc && b.level == sn - log2minalloc
        {
          PowersOrdered(SizeClass(n), log2minalloc + b.level);
          PowersOrdered(log2minalloc + b.level, SizeClass(n));
          if 0 < b.level {
            PowersOrdered(SizeClass(n), log2minalloc + b.level - 1);
          }
          if 0 < SizeClass(n) {
            PowersOrdered(log2minalloc + b.level, SizeClass(n) - 1);
          }
        }
      }
    }
  }

  lemma {:induction false} PowersOrdered(i: nat, j: nat)
    ensures i <= j ==> Pow2(i) <= Pow2(j)
    decreases j
  {
    if i < j {
      PowersOrdered(i, j - 1);
    }
  }

  /** A block in bytes is the range of its size at its offset. */
  lemma RangeUnits(sn: nat, pos: nat, x: nat)
    ensures Shl(pos, sn) <= x < Shl(pos, sn) + Pow2(sn) <==> x in Units(sn, pos)
  {
    hide Units, Shl, Pow2;
    ShlMultiplies(pos, sn);
    UnitsAligned(sn, pos, x);
    assert (pos + 1) * Pow2(sn) == pos * Pow2(sn) + Pow2(sn);
  }

  /** After a split, the upper half is given back and the lower half stays taken. */
  lemma SplitUnits(f: set<nat>, i: nat, p: nat)
    requires p % 2 == 0 && Full(f, i + 1, p / 2)
    ensures var g := f - Units(i + 1, p / 2);
            && Full(f, i, p) && Units(i, p + 1) <= f && Units(i, p + 1) !! g
            && !Full(g, i, p) && Buddy(p + 1) == p
            && g + Units(i, p + 1) == f - Units(i, p)
  {
    Merge(i, p);
    UnitsCount(i, p);
    var u :| u in Units(i, p);
  }

  lemma SplitInRange(f: set<nat>, i: nat, p: nat, tops: nat, top: nat)
    requires i < top && Units(i, p + 1) <= f && Within(f, Count(tops, top, 0))
    ensures p + 1 < Count(tops, top, i)
  {
    InRange(tops, top, i, p + 1);
  }

  /** Block (l, p) is the first of its level in a maximal free block of level `k`, and those of
      the levels between are all larger. */
  ghost predicate CutFrom(f: set<nat>, top: nat, l: nat, p: nat, k: nat) {
    && l <= k <= top && Bit(f, top, k, Above(p, k - l)) && p == Shl(Above(p, k - l), k - l)
    && forall i, q: nat {:trigger Bit(f, top, i, q)} :: l <= i < k ==> !Bit(f, top, i, q)
  }

  ghost predicate BestFit(f: set<nat>, top: nat, l: nat, p: nat) {
    exists k :: CutFrom(f, top, l, p, k)
  }

  lemma ShlNone(x: nat)
    ensures Shl(x, 0) == x
  {
  }

  lemma NearestBlock(maps: seq<set<nat>>, f: set<nat>, l: nat, k: nat, b: nat)
    requires Canonical(maps, f) && l <= k < |maps| && b in maps[k]
    requires forall i :: l <= i < k ==> maps[i] == {}
    ensures Full(f, k, b) && BestFit(f, |maps| - 1, l, Shl(b, k - l))
  {
    ShiftBack(b, k - l);
    forall i, q: nat {:trigger Bit(f, |maps| - 1, i, q)} | l <= i < k
      ensures !Bit(f, |maps| - 1, i, q)
    {
      assert q in maps[i] <==> Bit(f, |maps| - 1, i, q);
    }
    assert CutFrom(f, |maps| - 1, l, Shl(b, k - l), k);
  }

  /** No free block of the level lies in a smaller maximal free block than the one cut ... */
  lemma LeastBroken(f: set<nat>, top: nat, l: nat, p: nat, k: nat, q: nat) returns (m: nat)
    requires CutFrom(f, top, l, p, k) && Full(f, l, q)
    ensures k <= m <= top && Bit(f, top, m, Above(q, m - l))
  {
    m := Climb(f, top, l, q);
  }

  /** ... and every other maximal free block stays whole. */
  lemma OthersStay(f: set<nat>, top: nat, l: nat, p: nat, k: nat, m: nat, q: nat)
    requires CutFrom(f, top, l, p, k) && m <= top && Bit(f, top, m, q) && (m, q) != (k, Above(p, k - l))
    ensures Bit(f - Units(l, p), top, m, q)
  {
    var b := Above(p, k - l);
    TakeBit(f, top, k, b, m, q);
    forall u | u in Units(l, p)
      ensures u in Units(k, b)
    {
      ContainsUnits(k, b, l, p, u);
    }
    FullWithout(f, k, b, m, q);
  }

  /** When the maps hold no block at level `l` or above, no block of level `l` is free. */
  lemma NoneFree(maps: seq<set<nat>>, f: set<nat>, l: nat)
    requires Canonical(maps, f) && l < |maps|
    requires forall i :: l <= i < |maps| ==> maps[i] == {}
    ensures forall p :: !Full(f, l, p)
  {
    forall p: nat
      ensures !Full(f, l, p)
    {
      if Full(f, l, p) {
        var k := Climb(f, |maps| - 1, l, p);
        assert Above(p, k - l) in maps[k];
      }
    }
  }

  lemma TilesWithin(free: set<nat>, live: set<Block>, n: nat)
    requires Tiles(free, live, n)
    ensures Within(free, n)
  {
  }

  lemma TakeTiles(free: set<nat>, live: set<Block>, n: nat, b: Block)
    requires Tiles(free, live, n) && Full(free, b.level, b.pos)
    ensures b !in live && Tiles(free - b.Cover(), live + {b}, n)
  {
    UnitsCount(b.level, b.pos);
    var u :| u in b.Cover();
    assert b !in live;
  }

  lemma TakeSpace(free: set<nat>, b: Block, lo: nat)
    requires Full(free, b.level, b.pos)
    ensures Shl(|free - b.Cover()|, lo) == Shl(|free|, lo) - Pow2(lo + b.level)
  {
    UnitsCount(b.level, b.pos);
    var left := free - b.Cover();
    assert left + b.Cover() == free && |free| == |left| + |b.Cover()|;
    ShlAdd(|left|, Pow2(b.level), lo);
    ShlPow2(b.level, lo);
  }

  lemma MergeInto(g: set<nat>, i: nat, p: nat)
    requires Full(g, i, Buddy(p)) && Units(i, p) !! g
    ensures var h := g - Units(i, Buddy(p));
            Units(i + 1, p / 2) !! h && h + Units(i + 1, p / 2) == g + Units(i, p)
  {
    Merge(i, p);
  }

  lemma GiveTiles(free: set<nat>, live: set<Block>, n: nat, b: Block)
    requires Tiles(free, live, n) && b in live
    ensures b.Cover() !! free && Tiles(free + b.Cover(), live - {b}, n)
  {
    var free', live' := free + b.Cover(), live - {b};
    assert Within(free', n);
    forall u | 0 <= u < n && u !in free'
      ensures exists c :: c in live' && u in c.Cover()
    {
      var c :| c in live && u in c.Cover();
      assert c in live';
    }
  }

  lemma GiveInRange(free: set<nat>, live: set<Block>, tops: nat, top: nat, b: Block)
    requires b.level <= top && b in live && Tiles(free, live, Count(tops, top, 0))
    ensures b.pos < Count(tops, top, b.level)
  {
    InRange(tops, top, b.level, b.pos);
  }

  lemma GiveSpace(free: set<nat>, b: Block, lo: nat)
    requires b.Cover() !! free
    ensures Shl(|free + b.Cover()|, lo) == Shl(|free|, lo) + Pow2(lo + b.level)
  {
    TakeSpace(free + b.Cover(), b, lo);
    assert free + b.Cover() - b.Cover() == free;
  }

  lemma {:induction false} ShlOrdered(x: nat, y: nat, n: nat)
    ensures x <= y ==> Shl(x, n) <= Shl(y, n)
    ensures x < y ==> Shl(x, n) < Shl(y, n)
  {
    if n != 0 {
      ShlOrdered(x, y, n - 1);
    }
  }

  lemma {:induction false} ShiftPart(x: nat, n: nat, m: nat)
    requires m <= n
    ensures Above(Shl(x, n), m) == Shl(x, n - m)
  {
    if m != 0 {
      ShiftPart(x, n, m - 1);
    }
  }

  lemma TopCount(x: nat, n: nat, m: nat)
    requires m <= n
    ensures Above(Shl(x, n), m) == Count(x, n - m, 0)
  {
    ShiftPart(x, n, m);
  }

  lemma CountOrdered(x: nat, y: nat, top: nat, l: nat)
    requires x <= y && l <= top
    ensures Count(x, top, l) <= Count(y, top, l)
  {
    ShlOrdered(x, y, top - l);
  }

  /** A multiple of 2^n has no set bit below n. */
  lemma LowBitsClear(x: nat, n: nat)
    ensures forall i :: 0 <= i < n ==> Above(Shl(x, n), i) % 2 == 0
  {
    forall i | 0 <= i < n
      ensures Above(Shl(x, n), i) % 2 == 0
    {
      ShiftPart(x, n, i);
    }
  }

  /** The arena grows by one top-level block, which is free. */
  lemma GrowTiles(free: set<nat>, live: set<Block>, t: nat, top: nat)
    requires Tiles(free, live, Count(t, top, 0))
    ensures Units(top, t) !! free && Tiles(free + Units(top, t), live, Count(t + 1, top, 0))
  {
    TopUnits(t, top);
    ShlOrdered(t, t + 1, top);
  }

  lemma ShlNext(t: nat, n: nat)
    ensures Shl(t + 1, n) == Shl(t, n) + Pow2(n)
  {
    ShlAdd(t, 1, n);
    ShlPow2(0, n);
  }

  /** The units from `lo` up to `hi`. */
  ghost function Span(lo: nat, hi: nat): (s: set<nat>)
    ensures forall u: nat :: u in s <==> lo <= u < hi
  {
    if hi <= lo then {} else Span(lo, hi - 1) + {hi - 1}
  }

  /** The units of top-level block `t`. */
  lemma TopUnits(t: nat, top: nat)
    ensures Units(top, t) == Span(Count(t, top, 0), Count(t + 1, top, 0))
  {
    ShlMultiplies(t, top);
    ShlMultiplies(t + 1, top);
    forall u: nat
      ensures u in Units(top, t) <==> u in Span(Count(t, top, 0), Count(t + 1, top, 0))
    {
      UnitsAligned(top, t, u);
    }
  }

  lemma SpanGrows(first: nat, t: nat, top: nat)
    requires first <= t
    ensures Span(Count(first, top, 0), Count(t, top, 0)) + Units(top, t) == Span(Count(first, top, 0), Count(t + 1, top, 0))
  {
    TopUnits(t, top);
    ShlOrdered(first, t, top);
    ShlOrdered(t, t + 1, top);
  }

  lemma {:induction false} ShlZero(n: nat)
    ensures Shl(0, n) == 0
  {
    if n != 0 {
      ShlZero(n - 1);
    }
  }

  lemma {:induction false} ShlTwice(x: nat, m: nat, n: nat)
    ensures Shl(Shl(x, m), n) == Shl(x, m + n)
  {
    if n != 0 {
      ShlTwice(x, m, n - 1);
    }
  }

  lemma {:induction false} SpanCount(n: nat)
    ensures |Span(0, n)| == n
  {
    if n != 0 {
      SpanCount(n - 1);
    }
  }

  lemma CoverFull(f: set<nat>, b: Block)
    requires Full(f, b.level, b.pos)
    ensures b.Cover() <= f
  {
  }

  lemma ParentFull(f: set<nat>, l: nat, p: nat)
    requires Full(f, l + 1, p / 2)
    ensures Full(f, l, p)
  {
    Merge(l, p);
  }

  lemma {:induction false} TilesCount(free: set<nat>, live: set<Block>, n: nat)
    requires Tiles(free, live, n)
    ensures |free| + Total(live) == n
    decreases |live|
  {
    if live == {} {
      assert free == Span(0, n);
      SpanCount(n);
    } else {
      var b :| b in live;
      GiveTiles(free, live, n, b);
      TilesCount(free + b.Cover(), live - {b}, n);
      TotalWithout(live, b);
      UnitsCount(b.level, b.pos);
    }
  }

  lemma {:induction false} AboveBound(x: nat, n: nat, y: nat)
    ensures Above(x, n) < y ==> x < Shl(y, n)
  {
    if n != 0 {
      AboveBound(x, n - 1, 2 * y);
      ShlTwice(y, 1, n - 1);
      assert Shl(y, 1) == 2 * y;
    }
  }
}
