/**
 armor32, armor64 and armor64A: bytes shown as text, five or six bits to a character. The code
 works on blocks of 5 or 3 bytes; the specification is one stream of bits, cut up anew.
 */
module Armor {
  import opened Octets
  import opened BitStream
  import opened PowersOfTwo

  /** The base-32 alphabet without l, 1, o and 0; base 64 (section 4 of RFC 4648); base 64 with
      '-' for '/' and no padding. */
  datatype Code = C32 | C64 | C64A

  function Width(code: Code): (k: nat)
    ensures 0 < k <= 8
  {
    if code == C32 then 5 else 6
  }

  function Plus(c: char, i: nat): char
    requires c as int + i < 0xd800
  {
    (c as int + i) as char
  }

  /** b2a32, b2a64, b2a64A */
  function B2a(code: Code, d: nat): char
    requires d < Pow2(Width(code))
  {
    Powers();
    if code == C32 then
      if d < 11 then Plus('a', d) else if d < 13 then Plus('m', d - 11)
      else if d < 24 then Plus('p', d - 13) else Plus('2', d - 24)
    else if d < 26 then Plus('A', d)
    else if d < 52 then Plus('a', d - 26)
    else if d < 62 then Plus('0', d - 52)
    else if d == 62 then '+'
    else if code == C64 then '/' else '-'
  }

  /** a2b32, a2b64, a2b64A: -1 for what is not in the alphabet. */
  function A2b(code: Code, c: char): (d: int)
    ensures -1 <= d < Pow2(Width(code))
  {
    Powers();
    if code == C32 then
      if 'a' <= c <= 'k' then c as int - 'a' as int
      else if 'm' <= c <= 'n' then c as int - 'm' as int + 11
      else if 'p' <= c <= 'z' then c as int - 'p' as int + 13
      else if '2' <= c <= '9' then c as int - '2' as int + 24
      else -1
    else if 'A' <= c <= 'Z' then c as int - 'A' as int
    else if 'a' <= c <= 'z' then c as int - 'a' as int + 26
    else if '0' <= c <= '9' then c as int - '0' as int + 52
    else if c == '+' then 62
    else if c == (if code == C64 then '/' else '-') then 63
    else -1
  }

  lemma TablesInverse(code: Code, d: nat)
    requires d < Pow2(Width(code))
    ensures A2b(code, B2a(code, d)) == d
  {
    Powers();
  }

  const ALPHABET32 := "abcdefghijkmnpqrstuvwxyz23456789"
  const UPPER := "ABCDEFGHIJKLMNOPQRSTUVWXYZ"
  const LOWER := "abcdefghijklmnopqrstuvwxyz"
  const ALPHABET64 := UPPER + LOWER + "0123456789+/"
  const ALPHABET64A := UPPER + LOWER + "0123456789+-"

  function Alphabet(code: Code): (s: string)
    ensures |s| == Pow2(Width(code))
  {
    Powers();
    match code
    case C32 => ALPHABET32
    case C64 => ALPHABET64
    case C64A => ALPHABET64A
  }

  /** The digits are shown by the alphabet, in its order. */
  lemma InAlphabet(code: Code, d: nat)
    requires d < Pow2(Width(code))
    ensures B2a(code, d) == Alphabet(code)[d]
  {
    Powers();
    if code == C32 {
      InAlphabet32(d);
    } else {
      InAlphabet64(d);
    }
  }

  lemma OneOfEight(d: int, n: int)
    requires n <= d < n + 8
    ensures d == n || d == n + 1 || d == n + 2 || d == n + 3 || d == n + 4 || d == n + 5 || d == n + 6 || d == n + 7
  {
  }

  lemma InAlphabet32(d: nat)
    requires d < 32
    ensures Pow2(5) == 32 && B2a(C32, d) == ALPHABET32[d]
  {
    Powers();
    OneOfEight(d, d / 8 * 8);
  }

  lemma LettersInOrder(i: nat)
    requires i < 26
    ensures UPPER[i] == Plus('A', i) && LOWER[i] == Plus('a', i)
  {
    OneOfEight(i, if i < 8 then 0 else if i < 16 then 8 else if i < 24 then 16 else 24);
  }

  lemma InAlphabet64(d: nat)
    requires d < 64
    ensures Pow2(6) == 64 && B2a(C64, d) == ALPHABET64[d] && B2a(C64A, d) == ALPHABET64A[d]
  {
    Powers();
    if d < 26 {
      LettersInOrder(d);
    } else if d < 52 {
      LettersInOrder(d - 26);
    } else {
      OneOfEight(d, if d < 60 then 52 else 60);
    }
  }

  /** Exactly the characters of the alphabet are legible, each for its place in it. */
  lemma LegibleIff(code: Code, c: char)
    ensures A2b(code, c) >= 0 <==> c in Alphabet(code)
    ensures A2b(code, c) >= 0 ==> Alphabet(code)[A2b(code, c)] == c
  {
    if d :| 0 <= d < |Alphabet(code)| && Alphabet(code)[d] == c {
      InAlphabet(code, d);
      TablesInverse(code, d);
    }
    if A2b(code, c) >= 0 {
      InAlphabet(code, A2b(code, c));
      BackToText(code, c);
    }
  }

  lemma BackToText(code: Code, c: char)
    requires A2b(code, c) >= 0
    ensures B2a(code, A2b(code, c)) == c
  {
    Powers();
  }

  function Shown(code: Code, ds: seq<nat>): (s: string)
    requires InRange(ds, Width(code))
  {
    seq(|ds|, i requires 0 <= i < |ds| => B2a(code, ds[i]))
  }

  ghost predicate Legible(code: Code, s: string) {
    forall i :: 0 <= i < |s| ==> A2b(code, s[i]) >= 0
  }

  ghost function Values(code: Code, s: string): (ds: seq<nat>)
    requires Legible(code, s)
    ensures InRange(ds, Width(code)) && |ds| == |s|
  {
    seq(|s|, i requires 0 <= i < |s| => A2b(code, s[i]))
  }

  /** The text for some bytes: their bits in digits, each as a character. */
  ghost function Armored(code: Code, b: Bytes): string {
    BitsOfGroups(Bits(b), Width(code));
    Shown(code, Groups(Bits(b), Width(code)))
  }

  /** The bytes of legible text. */
  ghost function Dearmored(code: Code, s: string): Bytes
    requires Legible(code, s)
  {
    ByteGroups(BitsOf(Values(code, s), Width(code)))
  }

  lemma ShownValues(code: Code, ds: seq<nat>)
    requires InRange(ds, Width(code))
    ensures Legible(code, Shown(code, ds)) && Values(code, Shown(code, ds)) == ds
  {
    forall i | 0 <= i < |ds|
      ensures A2b(code, Shown(code, ds)[i]) == ds[i]
    {
      TablesInverse(code, ds[i]);
    }
  }

  /** Every code gives every byte string back. */
  lemma RoundTrip(code: Code, b: Bytes)
    ensures Legible(code, Armored(code, b)) && Dearmored(code, Armored(code, b)) == b
  {
    BitsOfGroups(Bits(b), Width(code));
    ShownValues(code, Groups(Bits(b), Width(code)));
    Lossless(b, Width(code));
  }

  // Blocks

  /** A value in front of x is cut in two. */
  lemma Cut(v: nat, q: nat, r: nat, a: nat, n: nat, x: seq<bool>, pn: nat)
    requires pn == Pow2(n) && r < pn && v == q * pn + r
    ensures ToBits(v, a + n) + x == ToBits(q, a) + (ToBits(r, n) + x)
  {
    hide ToBits, Pow2;
    Join(q, r, a, n);
    assert ToBits(q, a) + ToBits(r, n) + x == ToBits(q, a) + (ToBits(r, n) + x);
  }

  /** Bits carried over are completed with the first m of the next value. */
  lemma Carry(c: nat, w: nat, v: nat, q: nat, r: nat, m: nat, n: nat, x: seq<bool>, pm: nat, pn: nat)
    requires pm == Pow2(m) && pn == Pow2(n) && q < pm && r < pn && v == q * pn + r
    ensures ToBits(c, w) + (ToBits(v, m + n) + x) == ToBits(c * pm + q, w + m) + (ToBits(r, n) + x)
  {
    hide ToBits, Pow2;
    Cut(v, q, r, m, n, x, pn);
    Join(c, q, w, m);
    assert ToBits(c, w) + (ToBits(q, m) + (ToBits(r, n) + x)) == ToBits(c, w) + ToBits(q, m) + (ToBits(r, n) + x);
  }

  /** The eight characters of five bytes, as shifts and masks; parts combined with | have no
      bit in common. */
  function Encode32(p0: nat, p1: nat, p2: nat, p3: nat, p4: nat): (d: seq<nat>)
    ensures |d| == 8
  {
    [p0 / 8, p0 % 8 * 4 + p1 / 64, p1 / 2 % 32, p1 % 2 * 16 + p2 / 16, p2 % 16 * 2 + p3 / 128,
     p3 / 4 % 32, p3 % 4 * 8 + p4 / 32, p4 % 32]
  }

  lemma Range32(p0: nat, p1: nat, p2: nat, p3: nat, p4: nat)
    requires p0 < 256 && p1 < 256 && p2 < 256 && p3 < 256 && p4 < 256
    ensures InRange(Encode32(p0, p1, p2, p3, p4), 5)
  {
    Powers();
  }

  lemma Block32(p0: nat, p1: nat, p2: nat, p3: nat, p4: nat, x: seq<bool>)
    requires p0 < 256 && p1 < 256 && p2 < 256 && p3 < 256 && p4 < 256
    ensures InRange(Encode32(p0, p1, p2, p3, p4), 5)
    ensures BitsOf([p0, p1, p2, p3, p4], 8) + x == BitsOf(Encode32(p0, p1, p2, p3, p4), 5) + x
  {
    Powers();
    hide ToBits, Pow2, BitsOf, InRange;
    Range32(p0, p1, p2, p3, p4);
    var d := Encode32(p0, p1, p2, p3, p4);
    Five(p0, p1, p2, p3, p4, x, 8);
    Eight(d, x, 5);
    var x4 := ToBits(p4, 8) + x;
    var x3 := ToBits(p3, 8) + x4;
    var x2 := ToBits(p2, 8) + x3;
    var x1 := ToBits(p1, 8) + x2;
    Cut(p0, d[0], p0 % 8, 5, 3, x1, 8);
    Carry(p0 % 8, 3, p1, p1 / 64, p1 % 64, 2, 6, x2, 4, 64);
    Cut(p1 % 64, d[2], p1 % 2, 5, 1, x2, 2);
    Carry(p1 % 2, 1, p2, p2 / 16, p2 % 16, 4, 4, x3, 16, 16);
    Carry(p2 % 16, 4, p3, p3 / 128, p3 % 128, 1, 7, x4, 2, 128);
    Cut(p3 % 128, d[5], p3 % 4, 5, 2, x4, 4);
    Carry(p3 % 4, 2, p4, p4 / 32, p4 % 32, 3, 5, x, 8, 32);
  }

  lemma Five(p0: nat, p1: nat, p2: nat, p3: nat, p4: nat, x: seq<bool>, k: nat)
    ensures BitsOf([p0, p1, p2, p3, p4], k) + x ==
      ToBits(p0, k) + (ToBits(p1, k) + (ToBits(p2, k) + (ToBits(p3, k) + (ToBits(p4, k) + x))))
  {
    hide ToBits, BitsOf;
    assert [p0, p1, p2, p3, p4] == [p0] + [p1, p2, p3, p4] && [p1, p2, p3, p4] == [p1] + [p2, p3, p4];
    assert [p2, p3, p4] == [p2] + [p3, p4] && [p3, p4] == [p3] + [p4] && [p4] == [p4] + [];
    BitsCons(p0, [p1, p2, p3, p4], x, k);
    BitsCons(p1, [p2, p3, p4], x, k);
    BitsCons(p2, [p3, p4], x, k);
    BitsCons(p3, [p4], x, k);
    BitsCons(p4, [], x, k);
    NoBits(x, k);
  }

  lemma Eight(d: seq<nat>, x: seq<bool>, k: nat)
    requires |d| == 8
    ensures BitsOf(d, k) + x ==
      ToBits(d[0], k) + (ToBits(d[1], k) + (ToBits(d[2], k) + (ToBits(d[3], k) + (ToBits(d[4], k) +
      (ToBits(d[5], k) + (ToBits(d[6], k) + (ToBits(d[7], k) + x)))))))
  {
    hide ToBits, BitsOf;
    assert d == [d[0]] + ([d[1]] + ([d[2]] + [d[3], d[4], d[5], d[6], d[7]]));
    BitsCons(d[0], [d[1]] + ([d[2]] + [d[3], d[4], d[5], d[6], d[7]]), x, k);
    BitsCons(d[1], [d[2]] + [d[3], d[4], d[5], d[6], d[7]], x, k);
    BitsCons(d[2], [d[3], d[4], d[5], d[6], d[7]], x, k);
    Five(d[3], d[4], d[5], d[6], d[7], x, k);
  }

  /** Bits carried over are followed by all of the next value. */
  lemma Merge(c: nat, w: nat, v: nat, m: nat, x: seq<bool>, pm: nat)
    requires pm == Pow2(m) && v < pm
    ensures ToBits(c, w) + (ToBits(v, m) + x) == ToBits(c * pm + v, w + m) + x
  {
    hide ToBits, Pow2;
    Join(c, v, w, m);
    assert ToBits(c, w) + (ToBits(v, m) + x) == ToBits(c, w) + ToBits(v, m) + x;
  }

  /** The five bytes of eight characters; a byte keeps the low eight bits. */
  function Decode32(c0: nat, c1: nat, c2: nat, c3: nat, c4: nat, c5: nat, c6: nat, c7: nat): (b: Bytes)
    ensures |b| == 5
  {
    [((c0 * 8 + c1 / 4) % 256) as Byte, ((c1 * 64 + c2 * 2 + c3 / 16) % 256) as Byte, ((c3 * 16 + c4 / 2) % 256) as Byte,
     ((c4 * 128 + c5 * 4 + c6 / 8) % 256) as Byte, ((c6 * 32 + c7) % 256) as Byte]
  }

  lemma Unblock32First(c0: nat, q1: nat, r1: nat, c2: nat, q3: nat, r3: nat, x: seq<bool>)
    requires c0 < 32 && q1 < 8 && r1 < 4 && c2 < 32 && q3 < 2 && r3 < 16
    ensures ToBits(c0, 5) + (ToBits(q1 * 4 + r1, 5) + (ToBits(c2, 5) + (ToBits(q3 * 16 + r3, 5) + x))) ==
      ToBits(c0 * 8 + q1, 8) + (ToBits((r1 * 32 + c2) * 2 + q3, 8) + (ToBits(r3, 4) + x))
  {
    Powers();
    hide ToBits, Pow2;
    var x3 := ToBits(q3 * 16 + r3, 5) + x;
    Carry(c0, 5, q1 * 4 + r1, q1, r1, 3, 2, ToBits(c2, 5) + x3, 8, 4);
    Merge(r1, 2, c2, 5, x3, 32);
    Carry(r1 * 32 + c2, 7, q3 * 16 + r3, q3, r3, 1, 4, x, 2, 16);
  }

  lemma Unblock32Last(r3: nat, q4: nat, r4: nat, c5: nat, q6: nat, r6: nat, c7: nat, x: seq<bool>)
    requires r3 < 16 && q4 < 16 && r4 < 2 && c5 < 32 && q6 < 4 && r6 < 8 && c7 < 32
    ensures ToBits(r3, 4) + (ToBits(q4 * 2 + r4, 5) + (ToBits(c5, 5) + (ToBits(q6 * 8 + r6, 5) + (ToBits(c7, 5) + x)))) ==
      ToBits(r3 * 16 + q4, 8) + (ToBits((r4 * 32 + c5) * 4 + q6, 8) + (ToBits(r6 * 32 + c7, 8) + x))
  {
    Powers();
    hide ToBits, Pow2;
    var x7 := ToBits(c7, 5) + x;
    var x6 := ToBits(q6 * 8 + r6, 5) + x7;
    Carry(r3, 4, q4 * 2 + r4, q4, r4, 4, 1, ToBits(c5, 5) + x6, 16, 2);
    Merge(r4, 1, c5, 5, x6, 32);
    Carry(r4 * 32 + c5, 6, q6 * 8 + r6, q6, r6, 2, 3, x7, 4, 8);
    Merge(r6, 3, c7, 5, x, 32);
  }

  lemma Unblock32(c: seq<nat>, x: seq<bool>)
    requires |c| == 8 && forall i :: 0 <= i < 8 ==> c[i] < 32
    ensures BitsOf(c, 5) + x == Bits(Decode32(c[0], c[1], c[2], c[3], c[4], c[5], c[6], c[7])) + x
  {
    hide ToBits, BitsOf, Nats, Decode32;
    Masked32(c);
    Eight(c, x, 5);
    Five(c[0] * 8 + c[1] / 4, (c[1] % 4 * 32 + c[2]) * 2 + c[3] / 16, c[3] % 16 * 16 + c[4] / 2,
         (c[4] % 2 * 32 + c[5]) * 4 + c[6] / 8, c[6] % 8 * 32 + c[7], x, 8);
    assert c[1] == c[1] / 4 * 4 + c[1] % 4 && c[3] == c[3] / 16 * 16 + c[3] % 16;
    assert c[4] == c[4] / 2 * 2 + c[4] % 2 && c[6] == c[6] / 8 * 8 + c[6] % 8;
    Unblock32First(c[0], c[1] / 4, c[1] % 4, c[2], c[3] / 16, c[3] % 16,
                   ToBits(c[4], 5) + (ToBits(c[5], 5) + (ToBits(c[6], 5) + (ToBits(c[7], 5) + x))));
    Unblock32Last(c[3] % 16, c[4] / 2, c[4] % 2, c[5], c[6] / 8, c[6] % 8, c[7], x);
  }

  lemma Mask16(c: nat, y: nat)
    requires y < 16
    ensures (c * 16 + y) % 256 == c % 16 * 16 + y
  {
    assert c * 16 + y == c / 16 * 256 + (c % 16 * 16 + y);
  }

  lemma Mask32(c: nat, y: nat)
    requires y < 32
    ensures (c * 32 + y) % 256 == c % 8 * 32 + y
  {
    assert c * 32 + y == c / 8 * 256 + (c % 8 * 32 + y);
  }

  lemma Mask64(c: nat, y: nat)
    requires y < 64
    ensures (c * 64 + y) % 256 == c % 4 * 64 + y
  {
    assert c * 64 + y == c / 4 * 256 + (c % 4 * 64 + y);
  }

  lemma Mask128(c: nat, y: nat)
    requires y < 128
    ensures (c * 128 + y) % 256 == c % 2 * 128 + y
  {
    assert c * 128 + y == c / 2 * 256 + (c % 2 * 128 + y);
  }

  lemma Masked32(c: seq<nat>)
    requires |c| == 8 && forall i :: 0 <= i < 8 ==> c[i] < 32
    ensures Nats(Decode32(c[0], c[1], c[2], c[3], c[4], c[5], c[6], c[7])) ==
      [c[0] * 8 + c[1] / 4, (c[1] % 4 * 32 + c[2]) * 2 + c[3] / 16, c[3] % 16 * 16 + c[4] / 2,
       (c[4] % 2 * 32 + c[5]) * 4 + c[6] / 8, c[6] % 8 * 32 + c[7]]
  {
    hide Nats;
    Masks(c[0], c[1], c[2], c[3], c[4], c[5], c[6], c[7]);
    NatsFive(Decode32(c[0], c[1], c[2], c[3], c[4], c[5], c[6], c[7]));
  }

  lemma Masks(c0: nat, c1: nat, c2: nat, c3: nat, c4: nat, c5: nat, c6: nat, c7: nat)
    requires c0 < 32 && c1 < 32 && c2 < 32 && c3 < 32 && c4 < 32 && c5 < 32 && c6 < 32 && c7 < 32
    ensures (c0 * 8 + c1 / 4) % 256 == c0 * 8 + c1 / 4
    ensures (c1 * 64 + c2 * 2 + c3 / 16) % 256 == (c1 % 4 * 32 + c2) * 2 + c3 / 16
    ensures (c3 * 16 + c4 / 2) % 256 == c3 % 16 * 16 + c4 / 2
    ensures (c4 * 128 + c5 * 4 + c6 / 8) % 256 == (c4 % 2 * 32 + c5) * 4 + c6 / 8
    ensures (c6 * 32 + c7) % 256 == c6 % 8 * 32 + c7
  {
    Mask64(c1, c2 * 2 + c3 / 16);
    Mask16(c3, c4 / 2);
    Mask128(c4, c5 * 4 + c6 / 8);
    Mask32(c6, c7);
  }

  lemma NatsFive(b: Bytes)
    requires |b| == 5
    ensures Nats(b) == [b[0] as nat, b[1] as nat, b[2] as nat, b[3] as nat, b[4] as nat]
  {
  }

  /** The four characters of three bytes. */
  function Encode64(p0: nat, p1: nat, p2: nat): (d: seq<nat>)
    ensures |d| == 4
  {
    [p0 / 4, p0 % 4 * 16 + p1 / 16, p1 % 16 * 4 + p2 / 64, p2 % 64]
  }

  lemma Three(p0: nat, p1: nat, p2: nat, x: seq<bool>, k: nat)
    ensures BitsOf([p0, p1, p2], k) + x == ToBits(p0, k) + (ToBits(p1, k) + (ToBits(p2, k) + x))
  {
    hide ToBits, BitsOf;
    assert [p0, p1, p2] == [p0] + [p1, p2] && [p1, p2] == [p1] + [p2] && [p2] == [p2] + [];
    BitsCons(p0, [p1, p2], x, k);
    BitsCons(p1, [p2], x, k);
    BitsCons(p2, [], x, k);
    NoBits(x, k);
  }

  lemma Four(p0: nat, p1: nat, p2: nat, p3: nat, x: seq<bool>, k: nat)
    ensures BitsOf([p0, p1, p2, p3], k) + x == ToBits(p0, k) + (ToBits(p1, k) + (ToBits(p2, k) + (ToBits(p3, k) + x)))
  {
    hide ToBits, BitsOf;
    assert [p0, p1, p2, p3] == [p0] + [p1, p2, p3];
    BitsCons(p0, [p1, p2, p3], x, k);
    Three(p1, p2, p3, x, k);
  }

  lemma Block64(p0: nat, p1: nat, p2: nat, x: seq<bool>)
    requires p0 < 256 && p1 < 256 && p2 < 256
    ensures InRange(Encode64(p0, p1, p2), 6)
    ensures BitsOf([p0, p1, p2], 8) + x == BitsOf(Encode64(p0, p1, p2), 6) + x
  {
    Powers();
    hide ToBits, Pow2, BitsOf;
    var d := Encode64(p0, p1, p2);
    Three(p0, p1, p2, x, 8);
    Four(d[0], d[1], d[2], d[3], x, 6);
    Cut(p0, d[0], p0 % 4, 6, 2, ToBits(p1, 8) + (ToBits(p2, 8) + x), 4);
    Carry(p0 % 4, 2, p1, p1 / 16, p1 % 16, 4, 4, ToBits(p2, 8) + x, 16, 16);
    Carry(p1 % 16, 4, p2, p2 / 64, p2 % 64, 2, 6, x, 4, 64);
  }

  /** The three bytes of four characters. */
  function Decode64(c0: nat, c1: nat, c2: nat, c3: nat): (b: Bytes)
    ensures |b| == 3
  {
    [((c0 * 4 + c1 / 16) % 256) as Byte, ((c1 * 16 + c2 / 4) % 256) as Byte, ((c2 * 64 + c3) % 256) as Byte]
  }

  lemma Unblock64(c0: nat, c1: nat, c2: nat, c3: nat, x: seq<bool>)
    requires c0 < 64 && c1 < 64 && c2 < 64 && c3 < 64
    ensures BitsOf([c0, c1, c2, c3], 6) + x == Bits(Decode64(c0, c1, c2, c3)) + x
  {
    Powers();
    hide ToBits, Pow2, BitsOf;
    Four(c0, c1, c2, c3, x, 6);
    Three(c0 * 4 + c1 / 16, c1 % 16 * 16 + c2 / 4, c2 % 4 * 64 + c3, x, 8);
    var x3 := ToBits(c3, 6) + x;
    Carry(c0, 6, c1, c1 / 16, c1 % 16, 2, 4, ToBits(c2, 6) + x3, 4, 16);
    Carry(c1 % 16, 4, c2, c2 / 4, c2 % 4, 4, 2, x3, 16, 4);
    Merge(c2 % 4, 2, c3, 6, x, 64);
    Mask16(c1, c2 / 4);
    Mask64(c2, c3);
    assert Nats(Decode64(c0, c1, c2, c3)) == [c0 * 4 + c1 / 16, c1 % 16 * 16 + c2 / 4, c2 % 4 * 64 + c3];
  }
}
