/**
 A sequence of bits, most significant first, cut into digits of k bits or into bytes.
 */
module BitStream {
  import opened Octets
  import opened PowersOfTwo

  lemma Powers()
    ensures Pow2(1) == 2 && Pow2(2) == 4 && Pow2(3) == 8 && Pow2(4) == 16
    ensures Pow2(5) == 32 && Pow2(6) == 64 && Pow2(7) == 128 && Pow2(8) == 256
  {
    assert Pow2(4) == 2 * Pow2(3) && Pow2(5) == 2 * Pow2(4) && Pow2(6) == 2 * Pow2(5);
  }

  /** The low k bits of v. */
  function ToBits(v: nat, k: nat): (x: seq<bool>)
    ensures |x| == k
  {
    if k == 0 then [] else ToBits(v / 2, k - 1) + [v % 2 == 1]
  }

  function FromBits(x: seq<bool>): nat {
    if x == [] then 0 else 2 * FromBits(x[..|x| - 1]) + if x[|x| - 1] then 1 else 0
  }

  lemma {:induction false} FromToBits(v: nat, k: nat)
    requires v < Pow2(k)
    ensures FromBits(ToBits(v, k)) == v
  {
    if k != 0 {
      FromToBits(v / 2, k - 1);
      assert ToBits(v, k)[..k - 1] == ToBits(v / 2, k - 1);
    }
  }

  lemma {:induction false} ToFromBits(x: seq<bool>)
    ensures FromBits(x) < Pow2(|x|) && ToBits(FromBits(x), |x|) == x
  {
    if x != [] {
      var y := x[..|x| - 1];
      ToFromBits(y);
      assert FromBits(x) / 2 == FromBits(y);
    }
  }

  lemma Double(u: nat, v: nat, k: nat)
    requires k > 0
    ensures (u * Pow2(k) + v) / 2 == u * Pow2(k - 1) + v / 2 && (u * Pow2(k) + v) % 2 == v % 2
  {
    var m := u * Pow2(k - 1);
    assert u * Pow2(k) == 2 * m;
    assert (2 * m + v) / 2 == m + v / 2;
  }

  /** The bits of u, then the b bits of v. */
  lemma {:induction false} Join(u: nat, v: nat, a: nat, b: nat)
    requires v < Pow2(b)
    ensures ToBits(u * Pow2(b) + v, a + b) == ToBits(u, a) + ToBits(v, b)
  {
    if b != 0 {
      assert v / 2 < Pow2(b - 1);
      hide Pow2;
      Double(u, v, b);
      Join(u, v / 2, a, b - 1);
      assert a + b - 1 == a + (b - 1);
      var w := u * Pow2(b) + v;
      assert ToBits(w, a + b) == ToBits(w / 2, a + b - 1) + [w % 2 == 1];
      assert ToBits(u, a) + (ToBits(v / 2, b - 1) + [v % 2 == 1]) == ToBits(u, a) + ToBits(v / 2, b - 1) + [v % 2 == 1];
    } else {
      assert ToBits(v, 0) == [] && u * Pow2(0) + v == u;
    }
  }

  /** The bits of a sequence of k-bit digits. */
  function BitsOf(ds: seq<nat>, k: nat): (x: seq<bool>) {
    if ds == [] then [] else ToBits(ds[0], k) + BitsOf(ds[1..], k)
  }

  function Blank(n: nat): seq<bool> {
    seq(n, _ => false)
  }

  /** Cut into digits, the last one filled up with zeros. */
  function Groups(x: seq<bool>, k: nat): seq<nat>
    requires k > 0
    decreases |x|
  {
    if x == [] then []
    else if |x| <= k then [FromBits(x + Blank(k - |x|))]
    else [FromBits(x[..k])] + Groups(x[k..], k)
  }

  /** Cut into bytes, what is left over dropped. */
  function ByteGroups(x: seq<bool>): Bytes
    decreases |x|
  {
    if |x| < 8 then [] else [ByteOf(x[..8])] + ByteGroups(x[8..])
  }

  function ByteOf(x: seq<bool>): Byte
    requires |x| == 8
  {
    ToFromBits(x);
    Powers();
    FromBits(x) as Byte
  }

  function Nats(b: Bytes): seq<nat> {
    seq(|b|, i requires 0 <= i < |b| => b[i] as nat)
  }

  function Bits(b: Bytes): seq<bool> {
    BitsOf(Nats(b), 8)
  }

  ghost predicate InRange(ds: seq<nat>, k: nat) {
    forall i :: 0 <= i < |ds| ==> ds[i] < Pow2(k)
  }

  lemma BitsCons(d: nat, ds: seq<nat>, x: seq<bool>, k: nat)
    ensures BitsOf([d] + ds, k) + x == ToBits(d, k) + (BitsOf(ds, k) + x)
  {
    hide ToBits;
    assert ([d] + ds)[1..] == ds;
  }

  lemma NoBits(x: seq<bool>, k: nat)
    ensures BitsOf([], k) + x == x
  {
  }

  /** Cutting the bits of digits gives the digits back. */
  lemma {:induction false} GroupsOf(ds: seq<nat>, x: seq<bool>, k: nat)
    requires k > 0 && InRange(ds, k)
    ensures Groups(BitsOf(ds, k) + x, k) == ds + Groups(x, k)
  {
    hide Pow2, ToBits, BitsOf, Groups, FromBits;
    if ds == [] {
      NoBits(x, k);
    } else {
      var d, rest := ds[0], ds[1..];
      var g, y := Groups(x, k), BitsOf(rest, k) + x;
      GroupsOf(rest, x, k);
      FromToBits(d, k);
      assert ds == [d] + rest;
      BitsCons(d, rest, x, k);
      FirstGroup(ToBits(d, k), y, k);
      assert [d] + (rest + g) == ds + g;
    }
  }

  lemma FirstGroup(d: seq<bool>, y: seq<bool>, k: nat)
    requires k > 0 && |d| == k
    ensures Groups(d + y, k) == [FromBits(d)] + Groups(y, k)
  {
    if y == [] {
      assert d + y == d && d + Blank(0) == d;
    } else {
      assert (d + y)[..k] == d && (d + y)[k..] == y;
    }
  }

  /** How many zeros fill up the last digit. */
  function Fill(n: nat, k: nat): (f: nat)
    requires k > 0
    ensures f < k
    decreases n
  {
    if n == 0 then 0 else if n <= k then k - n else Fill(n - k, k)
  }

  /** The digits hold all the bits, and the fill. */
  lemma {:induction false} BitsOfGroups(x: seq<bool>, k: nat)
    requires k > 0
    ensures BitsOf(Groups(x, k), k) == x + Blank(Fill(|x|, k))
    ensures InRange(Groups(x, k), k)
    decreases |x|
  {
    hide ToBits, FromBits, Pow2, BitsOf, Blank;
    if x == [] {
      NoBits(Blank(0), k);
      BlankLength(0);
      assert x + Blank(0) == [] && BitsOf([], k) + Blank(0) == BitsOf([], k);
    } else if |x| <= k {
      BlankLength(k - |x|);
      var y := x + Blank(k - |x|);
      ToFromBits(y);
      OneGroup(FromBits(y), k);
    } else {
      var d, rest := FromBits(x[..k]), Groups(x[k..], k);
      BitsOfGroups(x[k..], k);
      ToFromBits(x[..k]);
      MoreGroups(d, rest, k);
      var f := Blank(Fill(|x|, k));
      assert x[..k] + (x[k..] + f) == x + f;
    }
  }

  lemma BlankLength(n: nat)
    ensures |Blank(n)| == n
  {
  }

  lemma OneGroup(d: nat, k: nat)
    ensures BitsOf([d], k) == ToBits(d, k)
  {
    hide ToBits;
    assert [d][1..] == [] && ToBits(d, k) + [] == ToBits(d, k);
  }

  lemma MoreGroups(d: nat, rest: seq<nat>, k: nat)
    ensures BitsOf([d] + rest, k) == ToBits(d, k) + BitsOf(rest, k)
  {
    hide ToBits;
    assert ([d] + rest)[1..] == rest;
  }

  lemma FirstByte(b: Byte, y: seq<bool>)
    ensures ByteGroups(ToBits(b as nat, 8) + y) == [b] + ByteGroups(y)
  {
    Powers();
    hide Pow2, ToBits, FromBits;
    var d := ToBits(b as nat, 8);
    FromToBits(b as nat, 8);
    assert (d + y)[..8] == d && (d + y)[8..] == y;
  }

  lemma NatsCons(b: Bytes)
    requires b != []
    ensures Nats(b) == [b[0] as nat] + Nats(b[1..]) && b == [b[0]] + b[1..]
  {
  }

  lemma BytesCons(b: Bytes, z: seq<bool>, r: Bytes)
    requires b != []
    ensures Bits(b) + z == ToBits(b[0] as nat, 8) + (Bits(b[1..]) + z) && [b[0]] + (b[1..] + r) == b + r
  {
    hide ToBits, BitsOf, Nats;
    NatsCons(b);
    BitsCons(b[0] as nat, Nats(b[1..]), z, 8);
  }

  lemma {:induction false} ByteGroupsOf(b: Bytes, z: seq<bool>)
    ensures ByteGroups(Bits(b) + z) == b + ByteGroups(z)
  {
    if b == [] {
      assert Bits(b) + z == z;
    } else {
      hide ToBits, ByteGroups, Bits;
      ByteGroupsOf(b[1..], z);
      BytesCons(b, z, ByteGroups(z));
      FirstByte(b[0], Bits(b[1..]) + z);
    }
  }

  /** Digits of up to 8 bits lose nothing: cutting them into bytes gives the bytes back. */
  lemma Lossless(b: Bytes, k: nat)
    requires 0 < k <= 8
    ensures ByteGroups(BitsOf(Groups(Bits(b), k), k)) == b
  {
    BitsOfGroups(Bits(b), k);
    ByteGroupsOf(b, Blank(Fill(|Bits(b)|, k)));
  }

  lemma {:induction false} BitsAppend(a: seq<nat>, b: seq<nat>, k: nat)
    ensures BitsOf(a + b, k) == BitsOf(a, k) + BitsOf(b, k)
  {
    hide BitsOf;
    if a == [] {
      assert a + b == b;
      NoBits(BitsOf(b, k), k);
    } else {
      BitsAppend(a[1..], b, k);
      assert a == [a[0]] + a[1..] && a + b == [a[0]] + (a[1..] + b);
      BitsCons(a[0], a[1..], BitsOf(b, k), k);
      BitsCons(a[0], a[1..] + b, [], k);
      assert BitsOf(a + b, k) + [] == BitsOf(a + b, k) && BitsOf(a[1..] + b, k) + [] == BitsOf(a[1..] + b, k);
    }
  }

  lemma BytesAppend(a: Bytes, b: Bytes)
    ensures Bits(a + b) == Bits(a) + Bits(b) && Nats(a + b) == Nats(a) + Nats(b)
  {
    assert Nats(a + b) == Nats(a) + Nats(b);
    BitsAppend(Nats(a), Nats(b), 8);
  }

  lemma {:induction false} BitsLength(b: Bytes)
    ensures |Bits(b)| == 8 * |b|
  {
    if b != [] {
      hide ToBits;
      BitsLength(b[1..]);
      NatsCons(b);
      BitsCons(b[0] as nat, Nats(b[1..]), [], 8);
    }
  }

  /** Digits that hold the bits, filled up with zeros, are the ones cutting gives. */
  lemma GroupsFilled(x: seq<bool>, ds: seq<nat>, k: nat)
    requires k > 0 && InRange(ds, k)
    requires x + Blank(Fill(|x|, k)) == BitsOf(ds, k)
    ensures Groups(x, k) == ds
  {
    hide Pow2, BitsOf;
    var g := Groups(x, k);
    BitsOfGroups(x, k);
    GroupsOf(g, [], k);
    GroupsOf(ds, [], k);
    assert BitsOf(g, k) + [] == BitsOf(ds, k) + [] && g + [] == g && ds + [] == ds;
  }

  lemma LongerPrefix(a: seq<bool>, c: seq<bool>, x: seq<bool>, y: seq<bool>)
    requires a + c == x + y && |a| <= |x|
    ensures x == a + x[|a|..]
  {
    assert forall i :: 0 <= i < |a| ==> a[i] == (a + c)[i] == (x + y)[i] == x[i];
  }

  /** The bytes of the beginning of a stream. */
  lemma ByteGroupsTake(x: seq<bool>, y: seq<bool>, b: Bytes)
    requires x + y == Bits(b)
    ensures |x| / 8 <= |b| && ByteGroups(x) == b[..|x| / 8]
  {
    hide Bits, ByteGroups;
    BitsLength(b);
    var q := |x| / 8;
    assert b == b[..q] + b[q..];
    BytesAppend(b[..q], b[q..]);
    BitsLength(b[..q]);
    LongerPrefix(Bits(b[..q]), Bits(b[q..]), x, y);
    ByteGroupsOf(b[..q], x[8 * q..]);
    NoByte(x[8 * q..]);
    assert b[..q] + [] == b[..q];
  }

  lemma NoByte(x: seq<bool>)
    requires |x| < 8
    ensures ByteGroups(x) == []
  {
  }

  // ----- The number they stand for

  /** The number that digits of k bits spell, the highest first. */
  function Spelt(ds: seq<nat>, k: nat): nat {
    if ds == [] then 0 else Spelt(ds[..|ds| - 1], k) * Pow2(k) + ds[|ds| - 1]
  }

  lemma {:induction false} FromBitsJoin(x: seq<bool>, y: seq<bool>)
    ensures FromBits(x + y) == FromBits(x) * Pow2(|y|) + FromBits(y)
  {
    if y == [] {
      assert x + y == x;
    } else {
      var z := y[..|y| - 1];
      FromBitsJoin(x, z);
      assert (x + y)[..|x + y| - 1] == x + z;
      assert FromBits(x) * Pow2(|y|) == 2 * (FromBits(x) * Pow2(|z|));
    }
  }

  lemma {:induction false} FromBlank(n: nat)
    ensures FromBits(Blank(n)) == 0
  {
    if n != 0 {
      FromBlank(n - 1);
      assert Blank(n)[..n - 1] == Blank(n - 1);
    }
  }

  lemma {:induction false} FromBitsOf(ds: seq<nat>, k: nat)
    requires InRange(ds, k)
    ensures FromBits(BitsOf(ds, k)) == Spelt(ds, k)
  {
    if ds != [] {
      hide ToBits, FromBits, BitsOf, Pow2;
      var r, d := ds[..|ds| - 1], ds[|ds| - 1];
      FromBitsOf(r, k);
      assert ds == r + [d];
      BitsAppend(r, [d], k);
      OneGroup(d, k);
      FromBitsJoin(BitsOf(r, k), ToBits(d, k));
      FromToBits(d, k);
    }
  }

  lemma {:induction false} BytesSpell(b: Bytes)
    ensures Spelt(Nats(b), 8) == Big(b)
  {
    if b != [] {
      Powers();
      BytesSpell(b[..|b| - 1]);
      assert Nats(b)[..|b| - 1] == Nats(b[..|b| - 1]);
    }
  }

  /** Cut anew, bytes spell the number they did, with zeros for the fill. */
  lemma SameNumber(b: Bytes, k: nat)
    requires k > 0
    ensures Spelt(Groups(Bits(b), k), k) == Big(b) * Pow2(Fill(8 * |b|, k))
  {
    Powers();
    hide Pow2, FromBits, Spelt, Big, Groups, BitsOf, Blank;
    var x := Bits(b);
    BitsLength(b);
    BitsOfGroups(x, k);
    FromBitsOf(Groups(x, k), k);
    BlankLength(Fill(|x|, k));
    FromBitsJoin(x, Blank(Fill(|x|, k)));
    FromBlank(Fill(|x|, k));
    FromBitsOf(Nats(b), 8);
    BytesSpell(b);
  }
}
