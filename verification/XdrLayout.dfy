/**
 The layout of XDR encodings as the standard gives it (RFC 4506, sections 4.1 to 4.14 and 4.19),
 by what the bytes mean and where they are: it admits exactly one encoding of a value, the one
 the codec writes.
 */
module XdrLayout {
  import opened Octets
  import opened Xdr
  import Framing

  /** A word that stands for `n`, in network byte order. */
  ghost predicate Word(b: Bytes, n: int) {
    |b| == 4 && Big(b) == n
  }

  /** Two's complement: `b` and `i` agree up to a multiple of `base`. */
  ghost predicate Complement(b: Bytes, i: int, base: nat)
    requires base > 0
  {
    (Big(b) - i) % base == 0
  }

  /** The bytes, and zero bytes up to the next multiple of four. */
  ghost predicate Filled(b: Bytes, d: Bytes) {
    && |d| <= |b| < |d| + 4 && |b| % 4 == 0
    && b[..|d|] == d && (forall i :: |d| <= i < |b| ==> b[i] == 0)
  }

  /** The length in a word, and the bytes. */
  ghost predicate Counted(b: Bytes, d: Bytes) {
    |b| >= 4 && Word(b[..4], |d|) && Filled(b[4..], d)
  }

  /** `b` is value `v` of type `t` laid out as the standard says. */
  ghost predicate LaidOut(t: Type, v: Value, b: Bytes)
    requires HasType(t, v) && Complete(v)
    decreases t, 0
  {
    match t
    case UInt => Word(b, v.i)
    case Int => |b| == 4 && Complement(b, v.i, 0x1_0000_0000)
    case UHyper => |b| == 8 && Big(b) == v.i
    case Hyper => |b| == 8 && Complement(b, v.i, 0x1_0000_0000_0000_0000)
    case Bool => Word(b, if v.b then 1 else 0)
    case Opaque(_) => Filled(b, v.bytes)
    case VarOpaque(_) => Counted(b, v.bytes)
    case Str(_) => Counted(b, v.bytes)
    case AnyStr => Counted(b, v.bytes)
    case Array(_, e) => AllLaidOut(e, v.items, b)
    case Vec(_, e) => |b| >= 4 && Word(b[..4], |v.items|) && AllLaidOut(e, v.items, b[4..])
    case Ptr(e) => if v.Nil? then Word(b, 0) else |b| >= 4 && Word(b[..4], 1) && LaidOut(e, v.v, b[4..])
    case Void => b == []
    case Struct(f, r) => exists k :: 0 <= k <= |b| && LaidOut(f, v.head, b[..k]) && LaidOut(r, v.tail, b[k..])
  }

  /** One element after another, the first one first. */
  ghost predicate AllLaidOut(t: Type, vs: seq<Value>, b: Bytes)
    requires forall x :: x in vs ==> HasType(t, x) && Complete(x)
    decreases t, |vs| + 1
  {
    if vs == [] then b == []
    else exists k :: 0 <= k <= |b| && LaidOut(t, vs[0], b[..k]) && AllLaidOut(t, vs[1..], b[k..])
  }

  lemma WordIs(b: Bytes, n: nat)
    requires n < 0x1_0000_0000
    ensures Word(b, n) <==> b == Framing.PutInt(n)
  {
    hide Framing.PutInt;
    Framing.PutBig(n);
    if |b| == 4 {
      BigOrder(b, Framing.PutInt(n));
    }
  }

  lemma HyperBig(u: nat)
    requires u < 0x1_0000_0000_0000_0000
    ensures |PutHyper(u)| == 8 && Big(PutHyper(u)) == u
  {
    hide Framing.PutInt;
    var hi, lo := u / 0x1_0000_0000, u % 0x1_0000_0000;
    BigWords(Framing.PutInt(hi), Framing.PutInt(lo));
    Framing.PutBig(hi);
    Framing.PutBig(lo);
  }

  /** 64-bit numbers too come in the order of their bytes. */
  lemma HyperOrder(u: nat, v: nat)
    requires u < 0x1_0000_0000_0000_0000 && v < 0x1_0000_0000_0000_0000
    ensures u < v <==> Before(PutHyper(u), PutHyper(v))
  {
    hide PutHyper;
    HyperBig(u);
    HyperBig(v);
    BigOrder(PutHyper(u), PutHyper(v));
  }

  lemma {:induction false} BigBound4(b: Bytes)
    requires |b| == 4
    ensures Big(b) < 0x1_0000_0000
  {
    BigFour(b);
  }

  lemma BigBound8(b: Bytes)
    requires |b| == 8
    ensures Big(b) < 0x1_0000_0000_0000_0000
  {
    hide Big;
    assert b == b[..4] + b[4..];
    BigWords(b[..4], b[4..]);
    BigBound4(b[..4]);
    BigBound4(b[4..]);
  }

  lemma HyperIs(b: Bytes, n: nat)
    requires n < 0x1_0000_0000_0000_0000
    ensures |b| == 8 && Big(b) == n <==> b == PutHyper(n)
  {
    hide PutHyper, Big;
    HyperBig(n);
    if |b| == 8 {
      BigOrder(b, PutHyper(n));
    }
  }

  /** Two numbers below `base` that agree up to a multiple of it are equal. */
  lemma ComplementIs(x: nat, i: int, base: nat)
    requires base == 0x1_0000_0000 || base == 0x1_0000_0000_0000_0000
    requires x < base && -(base as int) <= 2 * i && 2 * i < base
    ensures (x - i) % base == 0 <==> x == Unsigned(i, base)
  {
  }

  lemma FilledIs(b: Bytes, d: Bytes)
    ensures Filled(b, d) <==> b == Padded(d)
  {
    if Filled(b, d) {
      assert |b| == |d| + Pad(|d|);
      assert b == Padded(d);
    }
  }

  lemma CountedIs(b: Bytes, d: Bytes)
    requires |d| < 0x1_0000_0000
    ensures Counted(b, d) <==> b == Framing.PutInt(|d|) + Padded(d)
  {
    hide Framing.PutInt, Padded, Filled;
    if |b| >= 4 {
      WordIs(b[..4], |d|);
      FilledIs(b[4..], d);
      assert b == b[..4] + b[4..];
    }
    assert (Framing.PutInt(|d|) + Padded(d))[..4] == Framing.PutInt(|d|);
    assert (Framing.PutInt(|d|) + Padded(d))[4..] == Padded(d);
  }

  lemma LeafIs(t: Type, v: Value, b: Bytes)
    requires Leaf(t) && HasType(t, v) && Complete(v)
    ensures LaidOut(t, v, b) <==> b == Encoded(t, v)
  {
    hide Framing.PutInt, PutHyper, Padded, Word, Filled, Counted, Big;
    match t
    case UInt => WordIs(b, v.i);
    case Int =>
      if |b| == 4 {
        BigBound4(b);
        ComplementIs(Big(b), v.i, 0x1_0000_0000);
      }
      WordIs(b, Unsigned(v.i, 0x1_0000_0000));
      WordMeans(b, Unsigned(v.i, 0x1_0000_0000));
    case UHyper => HyperIs(b, v.i);
    case Hyper =>
      if |b| == 8 {
        BigBound8(b);
        ComplementIs(Big(b), v.i, 0x1_0000_0000_0000_0000);
      }
      HyperIs(b, Unsigned(v.i, 0x1_0000_0000_0000_0000));
    case Bool => WordIs(b, if v.b then 1 else 0);
    case Opaque(_) => FilledIs(b, v.bytes);
    case VarOpaque(_) => CountedIs(b, v.bytes);
    case Str(_) => CountedIs(b, v.bytes);
    case AnyStr => CountedIs(b, v.bytes);
    case Void =>
  }

  lemma WordMeans(b: Bytes, n: int)
    ensures Word(b, n) <==> |b| == 4 && Big(b) == n
  {
  }

  /** A word in front. */
  lemma WordFirst(b: Bytes, n: nat, c: Bytes)
    requires n < 0x1_0000_0000
    ensures |b| >= 4 && Word(b[..4], n) && b[4..] == c <==> b == Framing.PutInt(n) + c
  {
    hide Framing.PutInt, Word;
    if |b| >= 4 {
      WordIs(b[..4], n);
      assert b == b[..4] + b[4..];
    }
    var d := Framing.PutInt(n) + c;
    assert d[..4] == Framing.PutInt(n) && d[4..] == c;
    WordIs(Framing.PutInt(n), n);
  }

  /** Exactly the codec's bytes are laid out as the standard says. */
  lemma {:induction false} LaidOutIff(t: Type, v: Value, b: Bytes)
    requires HasType(t, v) && Complete(v)
    ensures LaidOut(t, v, b) <==> b == Encoded(t, v)
    decreases t, 0
  {
    hide Framing.PutInt, EncodedAll, AllLaidOut, Word;
    match t
    case Array(_, e) => AllLaidOutIff(e, v.items, b);
    case Vec(_, e) =>
      WordFirst(b, |v.items|, EncodedAll(e, v.items));
      if |b| >= 4 {
        AllLaidOutIff(e, v.items, b[4..]);
      }
    case Ptr(e) =>
      if v.Nil? {
        WordIs(b, 0);
      } else {
        WordFirst(b, 1, Encoded(e, v.v));
        if |b| >= 4 {
          LaidOutIff(e, v.v, b[4..]);
        }
      }
    case Struct(f, r) => StructIs(t, v, b);
    case _ => LeafIs(t, v, b);
  }

  lemma StructAt(t: Type, v: Value, b: Bytes) returns (k: nat)
    requires t.Struct? && HasType(t, v) && Complete(v) && LaidOut(t, v, b)
    ensures k <= |b| && LaidOut(t.first, v.head, b[..k]) && LaidOut(t.rest, v.tail, b[k..])
  {
    k :| 0 <= k <= |b| && LaidOut(t.first, v.head, b[..k]) && LaidOut(t.rest, v.tail, b[k..]);
  }

  lemma StructFrom(t: Type, v: Value, b: Bytes, k: nat)
    requires t.Struct? && HasType(t, v) && Complete(v)
    requires k <= |b| && LaidOut(t.first, v.head, b[..k]) && LaidOut(t.rest, v.tail, b[k..])
    ensures LaidOut(t, v, b)
  {
  }

  lemma StructJoin(t: Type, v: Value)
    requires t.Struct? && HasType(t, v) && Complete(v)
    ensures Encoded(t, v) == Encoded(t.first, v.head) + Encoded(t.rest, v.tail)
  {
  }

  lemma {:induction false} StructIs(t: Type, v: Value, b: Bytes)
    requires t.Struct? && HasType(t, v) && Complete(v)
    ensures LaidOut(t, v, b) <==> b == Encoded(t, v)
    decreases t, 0, 0
  {
    hide Encoded, LaidOut;
    var p, q := Encoded(t.first, v.head), Encoded(t.rest, v.tail);
    StructJoin(t, v);
    if LaidOut(t, v, b) {
      var k := StructAt(t, v, b);
      LaidOutIff(t.first, v.head, b[..k]);
      LaidOutIff(t.rest, v.tail, b[k..]);
      assert b == b[..k] + b[k..];
    } else if b == p + q {
      assert b[..|p|] == p && b[|p|..] == q;
      LaidOutIff(t.first, v.head, p);
      LaidOutIff(t.rest, v.tail, q);
      StructFrom(t, v, b, |p|);
    }
  }

  lemma {:induction false} AllLaidOutIff(t: Type, vs: seq<Value>, b: Bytes)
    requires forall x :: x in vs ==> HasType(t, x) && Complete(x)
    ensures AllLaidOut(t, vs, b) <==> b == EncodedAll(t, vs)
    decreases t, |vs| + 1
  {
    hide HasType, Complete, Encoded, LaidOut;
    if vs != [] {
      var p, q := Encoded(t, vs[0]), EncodedAll(t, vs[1..]);
      if AllLaidOut(t, vs, b) {
        var k :| 0 <= k <= |b| && LaidOut(t, vs[0], b[..k]) && AllLaidOut(t, vs[1..], b[k..]);
        LaidOutIff(t, vs[0], b[..k]);
        AllLaidOutIff(t, vs[1..], b[k..]);
        assert b == b[..k] + b[k..];
      }
      if b == p + q {
        assert b[..|p|] == p && b[|p|..] == q;
        LaidOutIff(t, vs[0], b[..|p|]);
        AllLaidOutIff(t, vs[1..], b[|p|..]);
      }
    }
  }

  // ----- What a receiver takes

  /** The bytes, and any bytes up to the next multiple of four. */
  ghost predicate Loose(b: Bytes, d: Bytes) {
    |d| <= |b| < |d| + 4 && |b| % 4 == 0 && b[..|d|] == d
  }

  ghost predicate LooseCounted(b: Bytes, d: Bytes) {
    |b| >= 4 && Word(b[..4], |d|) && Loose(b[4..], d)
  }

  ghost predicate Valid(t: Type, v: Value) {
    HasType(t, v) && Complete(v) && Clean(v)
  }

  /** A receiver reads `b` as value `v`: laid out as the standard says, except that it does not look
      at padding, and takes any word but zero for true and for a pointer that is set. */
  ghost predicate Reads(t: Type, v: Value, b: Bytes)
    requires Valid(t, v)
    decreases t, 0
  {
    match t
    case UInt => Word(b, v.i)
    case Int => |b| == 4 && Complement(b, v.i, 0x1_0000_0000)
    case UHyper => |b| == 8 && Big(b) == v.i
    case Hyper => |b| == 8 && Complement(b, v.i, 0x1_0000_0000_0000_0000)
    case Bool => |b| == 4 && (v.b <==> Big(b) != 0)
    case Opaque(_) => Loose(b, v.bytes)
    case VarOpaque(_) => LooseCounted(b, v.bytes)
    case Str(_) => LooseCounted(b, v.bytes)
    case AnyStr => LooseCounted(b, v.bytes)
    case Array(_, e) => AllRead(e, v.items, b)
    case Vec(_, e) => |b| >= 4 && Word(b[..4], |v.items|) && AllRead(e, v.items, b[4..])
    case Ptr(e) => |b| >= 4 && if v.Nil? then Word(b, 0) else Big(b[..4]) != 0 && Reads(e, v.v, b[4..])
    case Void => b == []
    case Struct(f, r) => exists k :: 0 <= k <= |b| && Reads(f, v.head, b[..k]) && Reads(r, v.tail, b[k..])
  }

  ghost predicate AllRead(t: Type, vs: seq<Value>, b: Bytes)
    requires forall x :: x in vs ==> Valid(t, x)
    decreases t, |vs| + 1
  {
    if vs == [] then b == []
    else exists k :: 0 <= k <= |b| && Reads(t, vs[0], b[..k]) && AllRead(t, vs[1..], b[k..])
  }

  /** The first word of a stream. */
  lemma FirstWord(p: Bytes, s: Bytes)
    requires |p| >= 4
    ensures Framing.GetInt(p + s) == Big(p[..4]) && (p + s)[4..] == p[4..] + s
  {
    hide Framing.GetInt, Big;
    Framing.GetBig(p + s);
    assert (p + s)[..4] == p[..4];
  }

  lemma FirstHyper(p: Bytes, s: Bytes)
    requires |p| == 8
    ensures GetHyper(p + s) == Big(p) && (p + s)[8..] == s
  {
    hide Framing.GetInt, Big;
    FirstWord(p, s);
    FirstWord(p[4..], s);
    assert p == p[..4] + p[4..] && p[4..][..4] == p[4..];
    BigWords(p[..4], p[4..]);
  }

  lemma SignedIs(x: nat, i: int, base: nat)
    requires base == 0x1_0000_0000 || base == 0x1_0000_0000_0000_0000
    requires x < base && -(base as int) <= 2 * i && 2 * i < base
    ensures (x - i) % base == 0 <==> Signed(x, base) == i
  {
    ComplementIs(x, i, base);
  }

  lemma LooseRead(p: Bytes, d: Bytes, s: Bytes)
    requires Loose(p, d)
    ensures |p| == |d| + Pad(|d|) && (p + s)[..|d|] == d && (p + s)[|p|..] == s
  {
  }

  lemma CountedRead(p: Bytes, d: Bytes, s: Bytes)
    requires LooseCounted(p, d)
    ensures Framing.GetInt(p + s) == |d| && |p + s| >= 4
    ensures DecodedData(|d|, (p + s)[4..]) == Done(Data(d), s)
    ensures 0 !in d ==> DecodedText(|d|, (p + s)[4..]) == Done(Text(d), s)
  {
    hide Framing.GetInt, Big;
    FirstWord(p, s);
    LooseRead(p[4..], d, s);
  }

  lemma LeafRead(t: Type, v: Value, p: Bytes, s: Bytes)
    requires Leaf(t) && Valid(t, v) && Reads(t, v, p)
    ensures Decoded(t, p + s) == Done(v, s)
  {
    hide Framing.GetInt, GetHyper, Big, Pad, LooseCounted;
    match t
    case UInt => FirstWord(p, s); Whole(p);
    case Int => FirstWord(p, s); Whole(p); BigBound4(p); SignedIs(Big(p), v.i, 0x1_0000_0000);
    case UHyper => FirstHyper(p, s);
    case Hyper => FirstHyper(p, s); BigBound8(p); SignedIs(Big(p), v.i, 0x1_0000_0000_0000_0000);
    case Bool => FirstWord(p, s); Whole(p);
    case Opaque(_) => LooseRead(p, v.bytes, s);
    case VarOpaque(_) => CountedRead(p, v.bytes, s);
    case Str(_) => CountedRead(p, v.bytes, s);
    case AnyStr => CountedRead(p, v.bytes, s);
    case Void => assert p + s == s;
  }

  lemma Whole(p: Bytes)
    ensures |p| == 4 ==> p[..4] == p && p[4..] == []
    ensures forall s: Bytes :: [] + s == s
  {
  }

  lemma FieldsAt(t: Type, v: Value, p: Bytes) returns (k: nat)
    requires t.Struct? && Valid(t, v) && Reads(t, v, p)
    ensures v.Fields? && Valid(t.first, v.head) && Valid(t.rest, v.tail)
    ensures k <= |p| && Reads(t.first, v.head, p[..k]) && Reads(t.rest, v.tail, p[k..])
  {
    k :| 0 <= k <= |p| && Reads(t.first, v.head, p[..k]) && Reads(t.rest, v.tail, p[k..]);
  }

  lemma PtrRead(t: Type, v: Value, p: Bytes)
    requires t.Ptr? && Valid(t, v) && Reads(t, v, p)
    ensures |p| >= 4 && (v.Nil? || (v.Ref? && Valid(t.elem, v.v)))
    ensures v.Nil? ==> Word(p, 0)
    ensures v.Ref? ==> Big(p[..4]) != 0 && Reads(t.elem, v.v, p[4..])
  {
    hide Big;
  }

  lemma VecDecodes(t: Type, v: Value, p: Bytes, s: Bytes)
    requires t.Vec? && v.Items? && |v.items| <= t.max && |p| >= 4 && Word(p[..4], |v.items|)
    requires DecodedAll(t.elem, |v.items|, p[4..] + s) == ListDone(v.items, s)
    ensures Decoded(t, p + s) == Done(v, s)
  {
    hide DecodedAll, Framing.GetInt, Big;
    FirstWord(p, s);
  }

  lemma PtrDecodes(t: Type, v: Value, p: Bytes, s: Bytes)
    requires t.Ptr? && |p| >= 4 && if v.Nil? then Word(p, 0) else v.Ref? && Big(p[..4]) != 0
    requires v.Ref? ==> Decoded(t.elem, p[4..] + s) == Done(v.v, s)
    ensures Decoded(t, p + s) == Done(v, s)
  {
    hide Framing.GetInt, Big;
    FirstWord(p, s);
    Whole(p);
  }

  lemma StructDecodes(t: Type, v: Value, b: Bytes, c: Bytes, s: Bytes)
    requires t.Struct? && v.Fields? && Decoded(t.first, b) == Done(v.head, c) && Decoded(t.rest, c) == Done(v.tail, s)
    ensures Decoded(t, b) == Done(v, s)
  {
  }

  lemma ItemsRead(t: Type, v: Value, p: Bytes)
    requires (t.Array? || t.Vec?) && Valid(t, v) && v.Items? && forall x :: x in v.items ==> Valid(t.elem, x)
    ensures t.Array? ==> (Reads(t, v, p) <==> AllRead(t.elem, v.items, p))
    ensures t.Vec? ==> (Reads(t, v, p) <==> |p| >= 4 && Word(p[..4], |v.items|) && AllRead(t.elem, v.items, p[4..]))
  {
    hide AllRead, Word, HasType, Complete, Clean;
  }

  lemma VecFits(t: Type, v: Value)
    requires (t.Array? || t.Vec?) && Valid(t, v)
    ensures v.Items? && (forall x :: x in v.items ==> Valid(t.elem, x))
    ensures if t.Vec? then |v.items| <= t.max else |v.items| == t.n
  {
  }

  lemma ArrayDecodes(t: Type, v: Value, b: Bytes, s: Bytes)
    requires t.Array? && v.Items? && DecodedAll(t.elem, t.n, b) == ListDone(v.items, s)
    ensures Decoded(t, b) == Done(v, s)
  {
    hide DecodedAll;
  }

  /** Bytes that read as a value decode to it, whatever follows ... */
  lemma {:induction false} ReadDecodes(t: Type, v: Value, p: Bytes, s: Bytes)
    requires Valid(t, v) && Reads(t, v, p)
    ensures Decoded(t, p + s) == Done(v, s)
    decreases t, 0
  {
    hide Reads, Valid, Decoded, Word, Big, AllRead, DecodedAll;
    match t
    case Array(_, e) =>
      VecFits(t, v);
      ItemsRead(t, v, p);
      AllReadDecodes(e, v.items, p, s);
      ArrayDecodes(t, v, p + s, s);
    case Vec(_, e) =>
      VecFits(t, v);
      ItemsRead(t, v, p);
      AllReadDecodes(e, v.items, p[4..], s);
      VecDecodes(t, v, p, s);
    case Ptr(e) =>
      PtrRead(t, v, p);
      if v.Ref? {
        ReadDecodes(e, v.v, p[4..], s);
      }
      PtrDecodes(t, v, p, s);
    case Struct(f, r) =>
      var k := FieldsAt(t, v, p);
      ReadDecodes(f, v.head, p[..k], p[k..] + s);
      ReadDecodes(r, v.tail, p[k..], s);
      assert p + s == p[..k] + (p[k..] + s);
      StructDecodes(t, v, p + s, p[k..] + s, s);
    case _ => LeafRead(t, v, p, s);
  }

  lemma {:induction false} AllReadDecodes(t: Type, vs: seq<Value>, p: Bytes, s: Bytes)
    requires (forall x :: x in vs ==> Valid(t, x)) && AllRead(t, vs, p)
    ensures DecodedAll(t, |vs|, p + s) == ListDone(vs, s)
    decreases t, |vs| + 1
  {
    hide Valid, Decoded, Reads;
    if vs == [] {
      assert p + s == s;
    } else {
      var k :| 0 <= k <= |p| && Reads(t, vs[0], p[..k]) && AllRead(t, vs[1..], p[k..]);
      assert p + s == p[..k] + (p[k..] + s);
      ReadDecodes(t, vs[0], p[..k], p[k..] + s);
      AllReadDecodes(t, vs[1..], p[k..], s);
      assert [vs[0]] + vs[1..] == vs;
    }
  }

  /** Some beginning of `b` reads as `v`, and `rest` follows it. */
  ghost predicate Starts(t: Type, v: Value, b: Bytes, rest: Bytes)
    requires Valid(t, v)
  {
    exists k :: 0 <= k <= |b| && Reads(t, v, b[..k]) && rest == b[k..]
  }

  ghost predicate AllStart(t: Type, vs: seq<Value>, b: Bytes, rest: Bytes)
    requires forall x :: x in vs ==> Valid(t, x)
  {
    exists k :: 0 <= k <= |b| && AllRead(t, vs, b[..k]) && rest == b[k..]
  }

  lemma LeafStarts(t: Type, b: Bytes)
    requires Leaf(t) && Decoded(t, b).Done?
    ensures Valid(t, Decoded(t, b).v) && Starts(t, Decoded(t, b).v, b, Decoded(t, b).rest)
  {
    hide Framing.GetInt, GetHyper, Big;
    var v, rest := Decoded(t, b).v, Decoded(t, b).rest;
    LeafSound(t, b);
    var k := |b| - |rest|;
    LeafSize(t, b);
    assert b == b[..k] + rest && rest == b[k..];
    LeafStartsAt(t, b, k);
  }

  /** How many bytes a leaf takes. */
  lemma LeafSize(t: Type, b: Bytes)
    requires Leaf(t) && Decoded(t, b).Done?
    ensures |Decoded(t, b).rest| <= |b| && Decoded(t, b).rest == b[|b| - |Decoded(t, b).rest|..]
  {
    hide Framing.GetInt, GetHyper, Pad;
    if t.VarOpaque? || t.Str? || t.AnyStr? {
      var n := Framing.GetInt(b);
      Cut(b, 4, n + Pad(n));
    }
  }

  lemma LeafStartsAt(t: Type, b: Bytes, k: nat)
    requires Leaf(t) && Decoded(t, b).Done? && Valid(t, Decoded(t, b).v)
    requires k <= |b| && Decoded(t, b).rest == b[k..]
    ensures Reads(t, Decoded(t, b).v, b[..k])
  {
    hide Framing.GetInt, GetHyper, Big, Pad, Loose, LooseCounted;
    var v, p := Decoded(t, b).v, b[..k];
    assert b == p + b[k..];
    match t
    case UInt => FirstWord(p, b[k..]); Whole(p);
    case Int => FirstWord(p, b[k..]); Whole(p); BigBound4(p); SignedIs(Big(p), v.i, 0x1_0000_0000);
    case UHyper => FirstHyper(p, b[k..]);
    case Hyper => FirstHyper(p, b[k..]); BigBound8(p); SignedIs(Big(p), v.i, 0x1_0000_0000_0000_0000);
    case Bool => FirstWord(p, b[k..]); Whole(p);
    case Opaque(n) => TakenLoose(b, n);
    case VarOpaque(_) => TakenCounted(b, k, v.bytes);
    case Str(_) => TakenCounted(b, k, v.bytes);
    case AnyStr => TakenCounted(b, k, v.bytes);
    case Void =>
  }

  lemma TakenLoose(b: Bytes, n: nat)
    requires n + Pad(n) <= |b|
    ensures Loose(b[..n + Pad(n)], b[..n])
  {
    assert b[..n + Pad(n)][..n] == b[..n];
  }

  lemma TakenCounted(b: Bytes, k: nat, d: Bytes)
    requires |b| >= 4 && 4 + |d| + Pad(|d|) <= |b| && k == 4 + |d| + Pad(|d|)
    requires Framing.GetInt(b) == |d| && b[4..][..|d|] == d
    ensures LooseCounted(b[..k], d)
  {
    hide Framing.GetInt, Big, Pad;
    FirstWord(b[..k], b[k..]);
    assert b == b[..k] + b[k..];
    TakenLoose(b[4..], |d|);
    assert b[..k][4..] == b[4..][..|d| + Pad(|d|)];
  }

  lemma DoneValid(t: Type, b: Bytes)
    requires Decoded(t, b).Done?
    ensures Valid(t, Decoded(t, b).v)
  {
    hide Decoded, HasType, Complete, Clean;
    DecodedSound(t, b);
  }

  lemma AllDoneValid(t: Type, n: nat, b: Bytes)
    requires DecodedAll(t, n, b).ListDone?
    ensures |DecodedAll(t, n, b).vs| == n && forall x :: x in DecodedAll(t, n, b).vs ==> Valid(t, x)
  {
    hide DecodedAll, HasType, Complete, Clean;
    DecodedAllSound(t, n, b);
  }

  /** ... and what decodes to a value starts with bytes that read as it. */
  lemma {:induction false} DecodesRead(t: Type, b: Bytes)
    requires Decoded(t, b).Done?
    ensures Valid(t, Decoded(t, b).v) && Starts(t, Decoded(t, b).v, b, Decoded(t, b).rest)
    decreases t, 0
  {
    DoneValid(t, b);
    match t
    case Array(n, e) =>
      AllDecodesRead(e, n, b);
      ArrayStarts(t, Decoded(t, b).v, b, Decoded(t, b).rest);
    case Vec(_, e) =>
      AllDecodesRead(e, Framing.GetInt(b), b[4..]);
      VecStarts(t, Decoded(t, b).v, b, Decoded(t, b).rest);
    case Ptr(e) =>
      if Framing.GetInt(b) == 0 {
        NilStarts(t, b);
      } else {
        DecodesRead(e, b[4..]);
        RefStarts(t, Decoded(e, b[4..]).v, b, Decoded(t, b).rest);
      }
    case Struct(f, r) =>
      DecodesRead(f, b);
      DecodesRead(r, Decoded(f, b).rest);
      StructStarts(t, Decoded(t, b).v, b, Decoded(f, b).rest, Decoded(t, b).rest);
    case _ => LeafStarts(t, b);
  }

  lemma {:induction false} AllDecodesRead(t: Type, n: nat, b: Bytes)
    requires DecodedAll(t, n, b).ListDone?
    ensures var r := DecodedAll(t, n, b); |r.vs| == n && (forall x :: x in r.vs ==> Valid(t, x)) && AllStart(t, r.vs, b, r.rest)
    decreases t, n + 1
  {
    hide Decoded, Valid, Reads;
    AllDoneValid(t, n, b);
    if n == 0 {
      assert AllRead(t, [], b[..0]) && b == b[0..];
    } else {
      var x, c := Decoded(t, b).v, Decoded(t, b).rest;
      DecodesRead(t, b);
      AllDecodesRead(t, n - 1, c);
      assert ([x] + DecodedAll(t, n - 1, c).vs)[1..] == DecodedAll(t, n - 1, c).vs;
      ConsStarts(t, DecodedAll(t, n, b).vs, b, c, DecodedAll(t, n, b).rest);
    }
  }

  lemma ArrayStarts(t: Type, v: Value, b: Bytes, rest: Bytes)
    requires t.Array? && Valid(t, v) && v.Items? && (forall x :: x in v.items ==> Valid(t.elem, x))
    requires AllStart(t.elem, v.items, b, rest)
    ensures Starts(t, v, b, rest)
  {
    hide AllRead, Valid, Reads;
    var k :| 0 <= k <= |b| && AllRead(t.elem, v.items, b[..k]) && rest == b[k..];
    ItemsRead(t, v, b[..k]);
  }

  lemma VecStarts(t: Type, v: Value, b: Bytes, rest: Bytes)
    requires t.Vec? && Valid(t, v) && v.Items? && (forall x :: x in v.items ==> Valid(t.elem, x))
    requires |b| >= 4 && |v.items| == Framing.GetInt(b) && AllStart(t.elem, v.items, b[4..], rest)
    ensures Starts(t, v, b, rest)
  {
    hide AllRead, Valid, Reads, Framing.GetInt, Big;
    var k :| 0 <= k <= |b[4..]| && AllRead(t.elem, v.items, b[4..][..k]) && rest == b[4..][k..];
    assert b[4..][..k] == b[..4 + k][4..] && b[4..][k..] == b[4 + k..];
    FirstWord(b[..4 + k], b[4 + k..]);
    assert b == b[..4 + k] + b[4 + k..];
    ItemsRead(t, v, b[..4 + k]);
  }

  lemma NilStarts(t: Type, b: Bytes)
    requires t.Ptr? && |b| >= 4 && Framing.GetInt(b) == 0
    ensures Valid(t, Nil) && Starts(t, Nil, b, b[4..])
  {
    hide Framing.GetInt, Big;
    FirstWord(b[..4], b[4..]);
    assert b == b[..4] + b[4..] && b[..4][..4] == b[..4];
    assert Reads(t, Nil, b[..4]);
  }

  lemma RefReads(t: Type, v: Value, p: Bytes)
    requires t.Ptr? && Valid(t.elem, v) && |p| >= 4 && Big(p[..4]) != 0 && Reads(t.elem, v, p[4..])
    ensures Valid(t, Ref(v)) && Reads(t, Ref(v), p)
  {
    hide Big;
  }

  lemma RefStarts(t: Type, v: Value, b: Bytes, rest: Bytes)
    requires t.Ptr? && |b| >= 4 && Framing.GetInt(b) != 0 && Valid(t.elem, v) && Starts(t.elem, v, b[4..], rest)
    ensures Valid(t, Ref(v)) && Starts(t, Ref(v), b, rest)
  {
    hide Framing.GetInt, Big, Valid, Reads;
    var k := StartsAt(t.elem, v, b[4..], rest);
    assert b[4..][..k] == b[..4 + k][4..] && b[4..][k..] == b[4 + k..];
    FirstWord(b[..4 + k], b[4 + k..]);
    assert b == b[..4 + k] + b[4 + k..];
    RefReads(t, v, b[..4 + k]);
  }

  lemma StructStarts(t: Type, v: Value, b: Bytes, c: Bytes, rest: Bytes)
    requires t.Struct? && Valid(t, v) && Valid(t.first, v.head) && Valid(t.rest, v.tail)
    requires Starts(t.first, v.head, b, c) && Starts(t.rest, v.tail, c, rest)
    ensures Starts(t, v, b, rest)
  {
    assert v.Fields?;
    hide Valid;
    var j := StartsAt(t.first, v.head, b, c);
    var k := StartsAt(t.rest, v.tail, c, rest);
    Cut(b, j, k);
    assert Reads(t, v, b[..j + k]);
  }

  lemma StartsAt(t: Type, v: Value, b: Bytes, rest: Bytes) returns (k: nat)
    requires Valid(t, v) && Starts(t, v, b, rest)
    ensures k <= |b| && Reads(t, v, b[..k]) && rest == b[k..]
  {
    hide Valid, Reads;
    k :| 0 <= k <= |b| && Reads(t, v, b[..k]) && rest == b[k..];
  }

  lemma Cut(b: Bytes, j: nat, k: nat)
    requires j + k <= |b|
    ensures b[j..][..k] == b[..j + k][j..] && b[..j + k][..j] == b[..j] && b[j..][k..] == b[j + k..]
  {
  }

  lemma ConsStarts(t: Type, vs: seq<Value>, b: Bytes, c: Bytes, rest: Bytes)
    requires vs != [] && (forall x :: x in vs ==> Valid(t, x)) && Starts(t, vs[0], b, c) && AllStart(t, vs[1..], c, rest)
    ensures AllStart(t, vs, b, rest)
  {
    hide Valid, Reads;
    var j := StartsAt(t, vs[0], b, c);
    var k :| 0 <= k <= |c| && AllRead(t, vs[1..], c[..k]) && rest == c[k..];
    Cut(b, j, k);
    assert AllRead(t, vs, b[..j + k]);
  }

  /** Decoding returns a value, and what follows it, exactly if the stream starts with bytes that
      read as the value. */
  lemma DecodedIff(t: Type, v: Value, b: Bytes, rest: Bytes)
    ensures Decoded(t, b) == Done(v, rest) <==> Valid(t, v) && Starts(t, v, b, rest)
  {
    hide Decoded, Valid, Reads, Starts;
    if Decoded(t, b) == Done(v, rest) {
      DecodesRead(t, b);
    }
    if Valid(t, v) && Starts(t, v, b, rest) {
      var k := StartsAt(t, v, b, rest);
      ReadDecodes(t, v, b[..k], rest);
      assert b == b[..k] + rest;
    }
  }
}
