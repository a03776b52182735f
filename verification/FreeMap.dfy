/**
 bbfree: the bitmap of free blocks of one size, a bit vector of machine words with a
 count of its ones and a hint where to look for one.
 */
module FreeMap {

  /** Bits in a map_t. */
  const MAPBITS := 64

  /** A machine word by its bits, lowest first; bitwise operators act bit by bit. */
  type Word = w: seq<bool> | |w| == MAPBITS witness seq(MAPBITS, _ => false)

  function And(v: Word, w: Word): Word {
    seq(MAPBITS, i requires 0 <= i < MAPBITS => v[i] && w[i])
  }

  function Or(v: Word, w: Word): Word {
    seq(MAPBITS, i requires 0 <= i < MAPBITS => v[i] || w[i])
  }

  function Not(w: Word): Word {
    seq(MAPBITS, i requires 0 <= i < MAPBITS => !w[i])
  }

  /** map_t (1) << n */
  function One(n: nat): Word {
    seq(MAPBITS, i => i == n)
  }

  /** map_t (-1) << n */
  function Ones(n: nat): Word {
    seq(MAPBITS, i => n <= i)
  }

  const Zero: Word := seq(MAPBITS, _ => false)

  predicate At(words: seq<Word>, p: nat)
    requires p < |words| * MAPBITS
  {
    words[p / MAPBITS][p % MAPBITS]
  }

  /** Words needed for `nb` bits. */
  function Words(nb: nat): nat {
    (nb + MAPBITS - 1) / MAPBITS
  }

  /** ffs: one more than the index of the lowest set bit. */
  function Ffs(w: Word, i: nat := 0): (r: nat)
    requires i <= MAPBITS && exists k :: i <= k < MAPBITS && w[k]
    ensures i < r <= MAPBITS && w[r - 1] && forall k :: i <= k < r - 1 ==> !w[k]
    decreases MAPBITS - i
  {
    if w[i] then i + 1 else Ffs(w, i + 1)
  }

  lemma NonZero(w: Word)
    ensures w == Zero || exists k :: 0 <= k < MAPBITS && w[k]
  {
    if forall k :: 0 <= k < MAPBITS ==> !w[k] {
      assert w == Zero;
    }
  }

  class Bbfree {
    var words: seq<Word>
    var nbits: nat
    var hint: nat
    var cnt: nat
    var nmaps: nat

    ghost function Bits(): set<nat>
      reads this
      requires nbits <= |words| * MAPBITS
    {
      set p | 0 <= p < nbits && At(words, p)
    }

    /** Word `i` has a bit set. */
    ghost predicate Busy(i: nat)
      reads this
      requires nbits <= |words| * MAPBITS
    {
      exists q :: q in Bits() && q / MAPBITS == i
    }

    /** The words cover the bits, are clear beyond them, and `cnt` counts the ones. */
    ghost predicate Valid()
      reads this
    {
      && nmaps == |words| == Words(nbits)
      && nbits <= nmaps * MAPBITS
      && (forall p :: nbits <= p < nmaps * MAPBITS ==> !At(words, p))
      && (hint < nmaps || (nmaps == 0 && hint == 0))
      && cnt == |Bits()|
    }

    constructor ()
      ensures Valid() && nbits == 0 && Bits() == {}
    {
      words, nbits, hint, cnt, nmaps := [], 0, 0, 0, 0;
    }

    /** bitvec::range_clr */
    method RangeClr(s: nat, e: nat)
      requires s <= e <= |words| * MAPBITS
      modifies this`words
      ensures |words| == old(|words|)
      ensures forall p :: 0 <= p < |words| * MAPBITS ==> At(words, p) == (old(At(words, p)) && !(s <= p < e))
    {
      var sp, ep, sb, eb := s / MAPBITS, e / MAPBITS, s % MAPBITS, e % MAPBITS;
      if sp == ep {
        if eb != 0 {
          words := words[sp := And(words[sp], Or(Not(Ones(sb)), Ones(eb)))];
        }
      } else {
        words := words[sp := And(words[sp], Not(Ones(sb)))];
        if eb != 0 {
          words := words[ep := And(words[ep], Ones(eb))];
        }
        words := words[..sp + 1] + seq(ep - sp - 1, _ => Zero) + words[ep..];
      }
    }

    /** The map grows to `nb` bits; the new ones are clear, whatever memory held. */
    method Init(nb: nat)
      requires Valid() && nbits <= nb
      modifies this
      ensures Valid() && nbits == nb && Bits() == old(Bits())
    {
      var obits := nbits;
      var garbage: seq<Word> := *;
      Grow(nb, garbage);
      nmaps := Words(nb);
      RangeClr(obits, nmaps * MAPBITS);
      assert forall p :: 0 <= p < obits ==> At(words, p) == old(At(words, p));
      assert Bits() == old(Bits());
    }

    /** bitvec::setsize: reallocation keeps the old words and adds uninitialized ones. */
    method Grow(nb: nat, garbage: seq<Word>)
      requires |words| == Words(nbits) && nbits <= nb
      modifies this`words, this`nbits
      ensures nbits == nb && |words| == Words(nb) && old(words) <= words
    {
      var more := Words(nb) - |words|;
      words := words + seq(more, i requires 0 <= i => if i < |garbage| then garbage[i] else Zero);
      nbits := nb;
    }

    method GetBit(pos: nat) returns (b: bool)
      requires Valid() && pos < nbits
      ensures b == (pos in Bits())
    {
      b := At(words, pos);
    }

    /** map[mi] |= mask */
    method Mark(pos: nat)
      requires Valid() && pos < nbits && pos !in Bits()
      modifies this`words
      ensures |words| == old(|words|) && Bits() == old(Bits()) + {pos}
      ensures forall p :: nbits <= p < nmaps * MAPBITS ==> !At(words, p)
    {
      var mi := pos / MAPBITS;
      words := words[mi := Or(words[mi], One(pos % MAPBITS))];
      assert forall p :: 0 <= p < |words| * MAPBITS ==> At(words, p) == (p == pos || old(At(words, p)));
      assert Bits() == old(Bits()) + {pos};
    }

    /** Afterwards the hint points to a word with a bit set, and moves only if it did not. */
    method SetBit(pos: nat)
      requires Valid() && pos < nbits && pos !in Bits()
      modifies this`words, this`hint, this`cnt
      ensures Valid() && Bits() == old(Bits()) + {pos}
      ensures Busy(hint) && (old(Busy(hint)) ==> hint == old(hint))
    {
      hide At;
      Mark(pos);
      NonZeroBusy(hint);
      assert pos in Bits();
      if words[hint] == Zero {
        hint := pos / MAPBITS;
      }
      cnt := cnt + 1;
    }

    lemma NonZeroBusy(i: nat)
      requires i < |words| && nbits <= |words| * MAPBITS && (forall p :: nbits <= p < |words| * MAPBITS ==> !At(words, p))
      ensures words[i] != Zero <==> Busy(i)
    {
      NonZero(words[i]);
      if k :| 0 <= k < MAPBITS && words[i][k] {
        var q := i * MAPBITS + k;
        assert q / MAPBITS == i && q % MAPBITS == k;
        assert At(words, q) && q in Bits();
      }
      if q :| q in Bits() && q / MAPBITS == i {
        assert words[i][q % MAPBITS];
      }
    }

    method ClrBit(pos: nat)
      requires Valid() && pos < nbits && pos in Bits()
      modifies this`words, this`cnt
      ensures Valid() && Bits() == old(Bits()) - {pos}
    {
      var mi := pos / MAPBITS;
      words := words[mi := And(words[mi], Not(One(pos % MAPBITS)))];
      cnt := cnt - 1;
      assert forall p :: 0 <= p < |words| * MAPBITS ==> At(words, p) == (p != pos && old(At(words, p)));
      assert Bits() == old(Bits()) - {pos};
    }

    /** A set bit, whenever there is one: the count is right, so the search that follows a
        stale hint never fails. It is the lowest in the word of the hint, or of all. */
    method FindBit() returns (found: bool, pos: nat)
      requires Valid()
      modifies this`hint
      ensures Valid() && Bits() == old(Bits())
      ensures found == (Bits() != {}) && (found ==> pos in Bits() && hint == pos / MAPBITS)
      ensures found ==> forall q :: q in Bits() && (q / MAPBITS == old(hint) || !old(Busy(hint))) ==> pos <= q
      ensures found && old(Busy(hint)) ==> hint == old(hint)
    {
      if cnt == 0 || nbits == 0 {
        return false, 0;
      }
      NonZeroBusy(hint);
      if words[hint] != Zero {
        pos := Lowest(hint);
        return true, pos;
      }
      ghost var bits := Bits();
      ghost var q :| q in bits;
      var i := 0;
      while i < nmaps
        invariant i <= q / MAPBITS && hint == old(hint) && (forall p :: p in bits ==> i <= p / MAPBITS)
      {
        if words[i] != Zero {
          hint := i;
          pos := Lowest(i);
          assert Bits() == bits;
          forall p | p in bits
            ensures pos <= p
          {
            if p / MAPBITS != i {
              assert pos / MAPBITS < p / MAPBITS;
            }
          }
          return true, pos;
        }
        NonZeroBusy(i);
        i := i + 1;
      }
      assert false;
    }

    method Lowest(i: nat) returns (pos: nat)
      requires Valid() && i < nmaps && words[i] != Zero
      ensures pos in Bits() && pos / MAPBITS == i && (forall q :: q in Bits() && q / MAPBITS == i ==> pos <= q)
    {
      NonZero(words[i]);
      pos := i * MAPBITS + Ffs(words[i]) - 1;
      assert At(words, pos);
    }
  }
}
