/**
 The armor functions as they run, block by block with the last block cut short, and reading
 as much of a string as is in the alphabet.
 */
module ArmorText {
  import opened Octets
  import opened BitStream
  import opened Armor
  import opened Options
  import opened PowersOfTwo

  // Cutting off the first block, and the last

  lemma {:induction false} BitsOfLength(ds: seq<nat>, k: nat)
    ensures |BitsOf(ds, k)| == |ds| * k
  {
    if ds != [] {
      BitsOfLength(ds[1..], k);
    }
  }

  lemma {:induction false} ZeroBits(k: nat)
    ensures ToBits(0, k) == Blank(k)
  {
    if k != 0 {
      ZeroBits(k - 1);
    }
  }

  lemma {:induction false} ZeroBytes(n: nat)
    ensures Bits(seq(n, _ => 0 as Byte)) == Blank(8 * n)
  {
    var b: Bytes := seq(n, _ => 0);
    if n != 0 {
      hide ToBits;
      ZeroBytes(n - 1);
      ZeroBits(8);
      NatsCons(b);
      assert b[1..] == seq(n - 1, _ => 0 as Byte);
      BitsCons(0, Nats(b[1..]), [], 8);
      assert Bits(b) + [] == Bits(b) && Bits(b[1..]) + [] == Bits(b[1..]);
    }
  }

  lemma Fills()
    ensures Fill(8, 5) == 2 && Fill(16, 5) == 4 && Fill(24, 5) == 1 && Fill(32, 5) == 3
    ensures Fill(8, 6) == 4 && Fill(16, 6) == 2
  {
    assert Fill(16, 5) == Fill(11, 5) == Fill(6, 5);
    assert Fill(24, 5) == Fill(19, 5) == Fill(14, 5) == Fill(9, 5);
    assert Fill(32, 5) == Fill(27, 5) == Fill(22, 5) == Fill(17, 5) == Fill(12, 5) == Fill(7, 5);
    assert Fill(16, 6) == Fill(10, 6);
  }

  /** The digits of a short block are the first ones of the block filled up with zero bytes. */
  lemma ShortBlock(x: Bytes, z: nat, ds: seq<nat>, n: nat, k: nat)
    requires k > 0 && n <= |ds| && InRange(ds, k)
    requires Bits(x + seq(z, _ => 0 as Byte)) == BitsOf(ds, k)
    requires 8 * |x| + Fill(8 * |x|, k) == n * k && Fill(8 * |x|, k) <= 8 * z
    ensures Groups(Bits(x), k) == ds[..n] && InRange(ds[..n], k)
  {
    hide BitsOf, Pow2, Bits, Groups, Fill;
    BytesAppend(x, seq(z, _ => 0 as Byte));
    ZeroBytes(z);
    assert ds == ds[..n] + ds[n..];
    BitsAppend(ds[..n], ds[n..], k);
    BitsOfLength(ds[..n], k);
    BitsLength(x);
    var f := Fill(8 * |x|, k);
    assert Blank(8 * z)[..f] == Blank(f);
    assert (Bits(x) + Blank(8 * z))[..n * k] == Bits(x) + Blank(f);
    assert BitsOf(ds, k)[..n * k] == BitsOf(ds[..n], k);
    GroupsFilled(Bits(x), ds[..n], k);
  }

  lemma ShownAppend(code: Code, a: seq<nat>, b: seq<nat>)
    requires InRange(a, Width(code)) && InRange(b, Width(code))
    ensures InRange(a + b, Width(code)) && Shown(code, a + b) == Shown(code, a) + Shown(code, b)
  {
    hide Pow2, B2a;
    assert InRange(a + b, Width(code));
  }

  /** If a first block has the same bits as some digits, its text is theirs. */
  lemma FirstBlock(code: Code, p: Bytes, x: Bytes, ds: seq<nat>)
    requires InRange(ds, Width(code)) && Bits(p) + Bits(x) == BitsOf(ds, Width(code)) + Bits(x)
    ensures Armored(code, p + x) == Shown(code, ds) + Armored(code, x)
  {
    hide BitsOf, Pow2, Bits, Shown;
    BytesAppend(p, x);
    GroupsOf(ds, Bits(x), Width(code));
    BitsOfGroups(Bits(x), Width(code));
    ShownAppend(code, ds, Groups(Bits(x), Width(code)));
  }

  function Digits32(p: Bytes): (ds: seq<nat>)
    requires |p| == 5
    ensures |ds| == 8
  {
    Encode32(p[0] as nat, p[1] as nat, p[2] as nat, p[3] as nat, p[4] as nat)
  }

  lemma First32(b: Bytes)
    requires |b| >= 5
    ensures InRange(Digits32(b[..5]), 5) && Armored(C32, b) == Shown(C32, Digits32(b[..5])) + Armored(C32, b[5..])
  {
    hide BitsOf, Pow2, Shown, Armored, Encode32;
    var p := b[..5];
    Block32(p[0] as nat, p[1] as nat, p[2] as nat, p[3] as nat, p[4] as nat, Bits(b[5..]));
    NatsFive(p);
    FirstBlock(C32, p, b[5..], Digits32(p));
    assert b == p + b[5..];
  }

  /** b2a32rem */
  function B2a32Rem(rem: nat): nat
    requires rem < 5
  {
    [0, 2, 4, 5, 7][rem]
  }

  function Filled(b: Bytes, n: nat): Bytes
    requires |b| <= n
  {
    b + seq(n - |b|, _ => 0 as Byte)
  }

  lemma Last32(b: Bytes)
    requires 0 < |b| < 5
    ensures var ds := Digits32(Filled(b, 5))[..B2a32Rem(|b|)];
      InRange(ds, 5) && Armored(C32, b) == Shown(C32, ds)
  {
    hide BitsOf, Pow2, Shown, Encode32;
    var p := Filled(b, 5);
    Block32(p[0] as nat, p[1] as nat, p[2] as nat, p[3] as nat, p[4] as nat, []);
    NatsFive(p);
    assert Bits(p) + [] == Bits(p) && BitsOf(Digits32(p), 5) + [] == BitsOf(Digits32(p), 5);
    Fills();
    ShortBlock(b, 5 - |b|, Digits32(p), B2a32Rem(|b|), 5);
  }

  lemma {:induction false} Length32(b: Bytes)
    ensures |Armored(C32, b)| == |b| / 5 * 8 + B2a32Rem(|b| % 5)
    decreases |b|
  {
    if |b| >= 5 {
      hide Armored, Digits32;
      First32(b);
      Length32(b[5..]);
    } else if |b| > 0 {
      hide Armored, Digits32;
      Last32(b);
    }
  }

  method Armor32(b: Bytes) returns (s: string)
    ensures s == Armored(C32, b)
    ensures |s| == |b| / 5 * 8 + B2a32Rem(|b| % 5)
  {
    hide Armored, Shown, Encode32, InRange;
    var rem := |b| % 5;
    var e := |b| - rem;
    var p := 0;
    s := [];
    assert b[0..] == b;
    while p < e
      invariant 0 <= p <= e && p % 5 == 0
      invariant s + Armored(C32, b[p..]) == Armored(C32, b)
    {
      First32(b[p..]);
      assert b[p..][5..] == b[p + 5..];
      var d := Shown(C32, Digits32(b[p..][..5]));
      assert s + (d + Armored(C32, b[p + 5..])) == s + d + Armored(C32, b[p + 5..]);
      s := s + d;
      p := p + 5;
    }
    var d := LastChars32(b[p..]);
    s := s + d;
    Length32(b);
  }

  lemma Short32(p: Bytes)
    requires 0 < |p| < 5
    ensures |p| == 1 ==> Digits32(Filled(p, 5))[..2] == Digits1(p[0] as nat)
    ensures |p| == 2 ==> Digits32(Filled(p, 5))[..4] == Digits2(p[0] as nat, p[1] as nat)
    ensures |p| == 3 ==> Digits32(Filled(p, 5))[..5] == Digits3(p[0] as nat, p[1] as nat, p[2] as nat)
    ensures |p| == 4 ==> Digits32(Filled(p, 5))[..7] == Digits4(p[0] as nat, p[1] as nat, p[2] as nat, p[3] as nat)
  {
    var f := Filled(p, 5);
    assert |p| <= 4 ==> f[4] == 0;
    assert |p| <= 3 ==> f[3] == 0;
    assert |p| <= 2 ==> f[2] == 0;
    assert |p| <= 1 ==> f[1] == 0;
  }

  function Digits1(p0: nat): seq<nat> {
    [p0 / 8, p0 % 8 * 4]
  }

  function Digits2(p0: nat, p1: nat): seq<nat> {
    [p0 / 8, p0 % 8 * 4 + p1 / 64, p1 / 2 % 32, p1 % 2 * 16]
  }

  function Digits3(p0: nat, p1: nat, p2: nat): seq<nat> {
    [p0 / 8, p0 % 8 * 4 + p1 / 64, p1 / 2 % 32, p1 % 2 * 16 + p2 / 16, p2 % 16 * 2]
  }

  function Digits4(p0: nat, p1: nat, p2: nat, p3: nat): seq<nat> {
    [p0 / 8, p0 % 8 * 4 + p1 / 64, p1 / 2 % 32, p1 % 2 * 16 + p2 / 16, p2 % 16 * 2 + p3 / 128, p3 / 4 % 32, p3 % 4 * 8]
  }

  method LastChars32(p: Bytes) returns (d: string)
    requires |p| < 5
    ensures d == Armored(C32, p)
  {
    if |p| == 0 {
      return [];
    }
    hide Armored, Shown, Digits32, InRange, Digits1, Digits2, Digits3, Digits4, Filled;
    Last32(p);
    Short32(p);
    if |p| == 1 {
      d := Shown(C32, Digits1(p[0] as nat));
    } else if |p| == 2 {
      d := Shown(C32, Digits2(p[0] as nat, p[1] as nat));
    } else if |p| == 3 {
      d := Shown(C32, Digits3(p[0] as nat, p[1] as nat, p[2] as nat));
    } else {
      d := Shown(C32, Digits4(p[0] as nat, p[1] as nat, p[2] as nat, p[3] as nat));
    }
  }

  // Reading

  /** How much of a string is in the alphabet. */
  ghost function LegibleLen(code: Code, s: string): (n: nat)
    ensures n <= |s| && Legible(code, s[..n]) && (n < |s| ==> A2b(code, s[n]) < 0)
  {
    if s == [] || A2b(code, s[0]) < 0 then 0
    else
      var n := 1 + LegibleLen(code, s[1..]);
      assert forall i :: 0 < i < n ==> s[..n][i] == s[1..][..n - 1][i - 1];
      n
  }

  lemma LegibleLenIs(code: Code, s: string, n: nat)
    requires n <= |s| && Legible(code, s[..n]) && (n < |s| ==> A2b(code, s[n]) < 0)
    ensures LegibleLen(code, s) == n
  {
    var m := LegibleLen(code, s);
  }

  /** armor32len and the loops at the start of armor64len and armor64Alen */
  method ScanLen(code: Code, s: string) returns (p: nat)
    ensures p == LegibleLen(code, s)
  {
    p := 0;
    while p < |s| && A2b(code, s[p]) >= 0
      invariant p <= |s| && Legible(code, s[..p])
    {
      p := p + 1;
    }
    LegibleLenIs(code, s, p);
  }

  lemma DearmoredFirst(code: Code, t: string, n: nat, b: Bytes)
    requires n <= |t| && Legible(code, t)
    requires Legible(code, t[..n]) && Legible(code, t[n..])
    requires BitsOf(Values(code, t[..n]), Width(code)) + BitsOf(Values(code, t[n..]), Width(code)) ==
             Bits(b) + BitsOf(Values(code, t[n..]), Width(code))
    ensures Dearmored(code, t) == b + Dearmored(code, t[n..])
  {
    hide BitsOf, Bits, ByteGroups, A2b;
    assert Values(code, t) == Values(code, t[..n]) + Values(code, t[n..]);
    BitsAppend(Values(code, t[..n]), Values(code, t[n..]), Width(code));
    ByteGroupsOf(b, BitsOf(Values(code, t[n..]), Width(code)));
  }

  /** Part of a block, filled up with zero digits, decodes to the first bytes of the block. */
  lemma DearmoredLast(code: Code, t: string, cc: seq<nat>, b: Bytes)
    requires Legible(code, t) && |t| <= |cc| && cc[..|t|] == Values(code, t)
    requires BitsOf(cc, Width(code)) == Bits(b)
    ensures |t| * Width(code) / 8 <= |b| && Dearmored(code, t) == b[..|t| * Width(code) / 8]
  {
    hide BitsOf, Bits, ByteGroups, A2b;
    assert cc == cc[..|t|] + cc[|t|..];
    BitsAppend(cc[..|t|], cc[|t|..], Width(code));
    BitsOfLength(Values(code, t), Width(code));
    ByteGroupsTake(BitsOf(Values(code, t), Width(code)), BitsOf(cc[|t|..], Width(code)), b);
  }

  /** The value of the i-th character, 0 past the end. */
  function Char(code: Code, t: string, i: nat): (d: nat)
    ensures d < Pow2(Width(code))
  {
    if i < |t| && A2b(code, t[i]) >= 0 then A2b(code, t[i]) else 0
  }

  function Bytes32(t: string): (b: Bytes)
    ensures |b| == 5
  {
    Decode32(Char(C32, t, 0), Char(C32, t, 1), Char(C32, t, 2), Char(C32, t, 3),
             Char(C32, t, 4), Char(C32, t, 5), Char(C32, t, 6), Char(C32, t, 7))
  }

  function Chars(code: Code, t: string, n: nat): (ds: seq<nat>)
    ensures |ds| == n
  {
    seq(n, i requires 0 <= i < n => Char(code, t, i))
  }

  lemma BlockBits32(t: string, x: seq<bool>)
    ensures BitsOf(Chars(C32, t, 8), 5) + x == Bits(Bytes32(t)) + x
  {
    hide BitsOf, Char, Decode32;
    Powers();
    Unblock32(Chars(C32, t, 8), x);
  }

  lemma DearmorFirst32(t: string)
    requires Legible(C32, t) && |t| >= 8
    ensures Legible(C32, t[8..]) && Dearmored(C32, t) == Bytes32(t) + Dearmored(C32, t[8..])
  {
    hide BitsOf, Dearmored, Decode32, A2b, Bytes32;
    assert Values(C32, t[..8]) == Chars(C32, t, 8);
    BlockBits32(t, BitsOf(Values(C32, t[8..]), 5));
    DearmoredFirst(C32, t, 8, Bytes32(t));
  }

  lemma DearmorLast32(t: string)
    requires Legible(C32, t) && |t| < 8
    ensures |t| * 5 / 8 <= 5 && Dearmored(C32, t) == Bytes32(t)[..|t| * 5 / 8]
  {
    hide BitsOf, Dearmored, Decode32, A2b, Bytes32;
    assert Chars(C32, t, 8)[..|t|] == Values(C32, t);
    BlockBits32(t, []);
    assert BitsOf(Chars(C32, t, 8), 5) + [] == BitsOf(Chars(C32, t, 8), 5) && Bits(Bytes32(t)) + [] == Bits(Bytes32(t));
    DearmoredLast(C32, t, Chars(C32, t, 8), Bytes32(t));
  }

  /** a2b32rem */
  function A2b32Rem(n: nat): int
    requires n < 8
  {
    [0, -1, 1, -1, 2, 3, -1, 4][n]
  }

  /** The whole blocks of legible text, one after another. */
  method Blocks32(t: string) returns (d: Bytes)
    requires Legible(C32, t)
    ensures |d| == |t| / 8 * 5
    ensures Legible(C32, t[|t| - |t| % 8..]) && Dearmored(C32, t) == d + Dearmored(C32, t[|t| - |t| % 8..])
  {
    hide Dearmored, Bytes32, A2b, Legible;
    var i := 0;
    d := [];
    assert t[0..] == t && [] + Dearmored(C32, t) == Dearmored(C32, t);
    while i < |t| - |t| % 8
      invariant 0 <= i <= |t| - |t| % 8 && i % 8 == 0 && |d| == i / 8 * 5
      invariant Legible(C32, t[i..]) && Dearmored(C32, t) == d + Dearmored(C32, t[i..])
    {
      DearmorFirst32(t[i..]);
      assert t[i..][8..] == t[i + 8..];
      var block := Bytes32(t[i..]);
      assert d + (block + Dearmored(C32, t[i + 8..])) == d + block + Dearmored(C32, t[i + 8..]);
      d := d + block;
      i := i + 8;
    }
  }

  /** dearmor32 of a string whose length is not given: what is legible, unless that is a length
      no byte string has. */
  method Dearmor32(s: string) returns (bin: Option<Bytes>)
    ensures var n := LegibleLen(C32, s);
      bin == if A2b32Rem(n % 8) < 0 then None else Some(Dearmored(C32, s[..n]))
    ensures bin.Some? ==> var n := LegibleLen(C32, s); |bin.value| == n / 8 * 5 + A2b32Rem(n % 8)
  {
    hide Dearmored, Bytes32, A2b, Legible;
    var len := ScanLen(C32, s);
    var rem := A2b32Rem(len % 8);
    if rem < 0 {
      return None;
    }
    var t := s[..len];
    var d := Blocks32(t);
    var last := t[len - len % 8..];
    DearmorLast32(last);
    bin := Some(d + Bytes32(last)[..rem]);
  }

  // Base 64

  function Digits64(p: Bytes): (ds: seq<nat>)
    requires |p| == 3
    ensures |ds| == 4
  {
    Encode64(p[0] as nat, p[1] as nat, p[2] as nat)
  }

  lemma NatsThree(b: Bytes)
    requires |b| == 3
    ensures Nats(b) == [b[0] as nat, b[1] as nat, b[2] as nat]
  {
  }

  lemma First64(code: Code, b: Bytes)
    requires code != C32 && |b| >= 3
    ensures InRange(Digits64(b[..3]), 6) && Armored(code, b) == Shown(code, Digits64(b[..3])) + Armored(code, b[3..])
  {
    hide BitsOf, Pow2, Shown, Armored, Encode64;
    var p := b[..3];
    Block64(p[0] as nat, p[1] as nat, p[2] as nat, Bits(b[3..]));
    NatsThree(p);
    FirstBlock(code, p, b[3..], Digits64(p));
    assert b == p + b[3..];
  }

  lemma Last64(code: Code, b: Bytes)
    requires code != C32 && 0 < |b| < 3
    ensures var ds := Digits64(Filled(b, 3))[..|b| + 1];
      InRange(ds, 6) && Armored(code, b) == Shown(code, ds)
  {
    hide BitsOf, Pow2, Shown, Encode64;
    var p := Filled(b, 3);
    Block64(p[0] as nat, p[1] as nat, p[2] as nat, []);
    NatsThree(p);
    assert Bits(p) + [] == Bits(p) && BitsOf(Digits64(p), 6) + [] == BitsOf(Digits64(p), 6);
    Fills();
    ShortBlock(b, 3 - |b|, Digits64(p), |b| + 1, 6);
  }

  /** How many '=' complete the last four characters. */
  function Pads(len: nat): nat {
    (3 - len % 3) % 3
  }

  lemma {:induction false} Length64(code: Code, b: Bytes)
    requires code != C32
    ensures |Armored(code, b)| + Pads(|b|) == (|b| + 2) / 3 * 4
    decreases |b|
  {
    hide Armored, Digits64;
    if |b| >= 3 {
      First64(code, b);
      Length64(code, b[3..]);
    } else if |b| > 0 {
      Last64(code, b);
    } else {
      NoText(code);
    }
  }

  lemma NoText(code: Code)
    ensures Armored(code, []) == []
  {
  }

  /** _armor64: with or without the padding. */
  method Armor64(code: Code, endpad: bool, b: Bytes) returns (res: string)
    requires code != C32
    ensures res == Armored(code, b) + if endpad then seq(Pads(|b|), _ => '=') else []
    ensures endpad ==> |res| == (|b| + 2) / 3 * 4
  {
    hide Armored, Shown, Encode64, InRange;
    var rem := |b| % 3;
    var e := |b| - rem;
    var p := 0;
    res := [];
    assert b[0..] == b;
    while p < e
      invariant 0 <= p <= e && p % 3 == 0
      invariant res + Armored(code, b[p..]) == Armored(code, b)
    {
      First64(code, b[p..]);
      assert b[p..][3..] == b[p + 3..];
      var d := Shown(code, Digits64(b[p..][..3]));
      assert res + (d + Armored(code, b[p + 3..])) == res + d + Armored(code, b[p + 3..]);
      res := res + d;
      p := p + 3;
    }
    var d := LastChars64(code, b[p..]);
    ghost var before := res;
    res := res + d;
    Length64(code, b);
    if !endpad {
      res := res[..|res| - Pads(|b|)];
    }
    assert before + (Armored(code, b[p..]) + seq(Pads(|b|), _ => '=')) == Armored(code, b) + seq(Pads(|b|), _ => '=');
    assert before + Armored(code, b[p..]) + [] == Armored(code, b);
  }

  method LastChars64(code: Code, p: Bytes) returns (d: string)
    requires code != C32 && |p| < 3
    ensures d == Armored(code, p) + seq(Pads(|p|), _ => '=')
  {
    if |p| == 0 {
      NoText(code);
      return [];
    }
    hide Armored, Shown, InRange, Digits64, Filled, Short1, Short2;
    Last64(code, p);
    Short64(p);
    if |p| == 1 {
      d := Shown(code, Short1(p[0] as nat)) + "==";
    } else {
      d := Shown(code, Short2(p[0] as nat, p[1] as nat)) + "=";
    }
  }

  function Short1(p0: nat): seq<nat> {
    [p0 / 4, p0 % 4 * 16]
  }

  function Short2(p0: nat, p1: nat): seq<nat> {
    [p0 / 4, p0 % 4 * 16 + p1 / 16, p1 % 16 * 4]
  }

  lemma Short64(p: Bytes)
    requires 0 < |p| < 3
    ensures |p| == 1 ==> Digits64(Filled(p, 3))[..2] == Short1(p[0] as nat)
    ensures |p| == 2 ==> Digits64(Filled(p, 3))[..3] == Short2(p[0] as nat, p[1] as nat)
  {
    var f := Filled(p, 3);
    assert f[2] == 0;
    assert |p| == 1 ==> f[1] == 0;
  }

  function Bytes64(code: Code, t: string): (b: Bytes)
    ensures |b| == 3
  {
    Decode64(Char(code, t, 0), Char(code, t, 1), Char(code, t, 2), Char(code, t, 3))
  }

  lemma BlockBits64(code: Code, t: string, x: seq<bool>)
    requires code != C32
    ensures BitsOf(Chars(code, t, 4), 6) + x == Bits(Bytes64(code, t)) + x
  {
    hide BitsOf, Char, Decode64;
    Powers();
    assert Chars(code, t, 4) == [Char(code, t, 0), Char(code, t, 1), Char(code, t, 2), Char(code, t, 3)];
    Unblock64(Char(code, t, 0), Char(code, t, 1), Char(code, t, 2), Char(code, t, 3), x);
  }

  lemma DearmorFirst64(code: Code, t: string)
    requires code != C32 && Legible(code, t) && |t| >= 4
    ensures Legible(code, t[4..]) && Dearmored(code, t) == Bytes64(code, t) + Dearmored(code, t[4..])
  {
    hide BitsOf, Dearmored, Decode64, A2b, Bytes64;
    assert Values(code, t[..4]) == Chars(code, t, 4);
    BlockBits64(code, t, BitsOf(Values(code, t[4..]), 6));
    DearmoredFirst(code, t, 4, Bytes64(code, t));
  }

  lemma DearmorLast64(code: Code, t: string)
    requires code != C32 && Legible(code, t) && |t| <= 4
    ensures |t| * 6 / 8 <= 3 && Dearmored(code, t) == Bytes64(code, t)[..|t| * 6 / 8]
  {
    hide BitsOf, Dearmored, Decode64, A2b, Bytes64;
    assert Chars(code, t, 4)[..|t|] == Values(code, t);
    BlockBits64(code, t, []);
    assert BitsOf(Chars(code, t, 4), 6) + [] == BitsOf(Chars(code, t, 4), 6);
    assert Bits(Bytes64(code, t)) + [] == Bits(Bytes64(code, t));
    DearmoredLast(code, t, Chars(code, t, 4), Bytes64(code, t));
  }

  /** The last block: two characters at least, further ones as long as they are legible. */
  method LastBytes64(code: Code, u: string, ghost m: nat) returns (d: Bytes)
    requires code != C32 && 2 <= m <= |u| && m <= 4 && Legible(code, u[..m])
    requires m < 4 && m < |u| ==> A2b(code, u[m]) < 0
    ensures d == Dearmored(code, u[..m])
  {
    hide Dearmored, Bytes64, A2b;
    DearmorLast64(code, u[..m]);
    SameBlock(code, u, m);
    assert u[..m][0] == u[0] && u[..m][1] == u[1];
    assert m > 2 ==> u[..m][2] == u[2];
    assert m > 3 ==> u[..m][3] == u[3];
    var last := Bytes64(code, u);
    d := [last[0]];
    if 2 < |u| && A2b(code, u[2]) >= 0 {
      d := d + [last[1]];
      if 3 < |u| && A2b(code, u[3]) >= 0 {
        d := d + [last[2]];
      }
    }
    assert m * 6 / 8 == m - 1 && d == last[..m - 1];
  }

  /** What is written of a block does not depend on what follows its legible part. */
  lemma SameBlock(code: Code, u: string, m: nat)
    requires code != C32 && 2 <= m <= |u| && m <= 4
    ensures Bytes64(code, u)[..m - 1] == Bytes64(code, u[..m])[..m - 1]
  {
    hide A2b;
    assert forall i :: 0 <= i < m ==> Char(code, u, i) == Char(code, u[..m], i);
  }

  lemma LegibleFrom(code: Code, s: string, n: nat, i: nat, j: nat)
    requires n == LegibleLen(code, s) && i <= j <= n
    ensures Legible(code, s[i..n]) && Legible(code, s[i..][..j - i])
  {
    hide A2b;
    assert forall k :: 0 <= k < n ==> s[..n][k] == s[k];
  }

  /** The blocks before the last of `len` characters, of which the first n are legible. */
  method Blocks64(code: Code, s: string, len: nat, ghost n: nat) returns (i: nat, bin: Bytes)
    requires code != C32 && n <= len <= |s| && len < n + 3 && 0 < len && Legible(code, s[..n])
    requires len == n || (len % 4 == 0 && n % 4 != 1)
    ensures i < n <= i + 4 && i % 4 == 0 && (i + 1 == n <==> n % 4 == 1) && Legible(code, s[i..n])
    ensures bin + Dearmored(code, s[i..n]) == Dearmored(code, s[..n])
  {
    hide Dearmored, Bytes64, Legible, A2b;
    i, bin := 0, [];
    assert s[0..n] == s[..n] && [] + Dearmored(code, s[..n]) == Dearmored(code, s[..n]);
    while i < len - 4
      invariant 0 <= i < len && i <= n && i % 4 == 0
      invariant Legible(code, s[i..n]) && bin + Dearmored(code, s[i..n]) == Dearmored(code, s[..n])
    {
      assert i + 4 <= n;
      BlockStep64(code, s[i..n], bin);
      assert s[i..n][4..] == s[i + 4..n] && s[i..n][..4] == s[i..i + 4];
      bin := bin + Bytes64(code, s[i..i + 4]);
      i := i + 4;
    }
  }

  lemma BlockStep64(code: Code, t: string, d: Bytes)
    requires code != C32 && |t| >= 4 && Legible(code, t)
    ensures Legible(code, t[4..])
    ensures d + Dearmored(code, t) == d + Bytes64(code, t[..4]) + Dearmored(code, t[4..])
  {
    hide Dearmored, Bytes64, Legible, A2b;
    DearmorFirst64(code, t);
    FirstFour(code, t);
    var block, rest := Bytes64(code, t), Dearmored(code, t[4..]);
    assert d + (block + rest) == d + block + rest;
  }

  // The last block always has two characters looked at and a third tested

  predicate IsLegible(code: Code, s: string, k: nat) {
    k < |s| && A2b(code, s[k]) >= 0
  }

  /** The last character looked at, of a string whose terminator is at |s|. */
  function LookedAt(code: Code, s: string, n: nat): nat
    requires n > 0
  {
    var i := (n - 1) / 4 * 4;
    if IsLegible(code, s, i + 2) then i + 3 else i + 2
  }

  /** The bytes written, where n - n / 4 are allocated. */
  function WrittenBytes(code: Code, s: string, n: nat): nat
    requires n > 0
  {
    var i := (n - 1) / 4 * 4;
    i / 4 * 3 + if !IsLegible(code, s, i + 2) then 1 else if !IsLegible(code, s, i + 3) then 2 else 3
  }

  /** A last block of one character that ends the string, or has a legible one in third place. */
  predicate Strays(code: Code, s: string, n: nat) {
    n % 4 == 1 && (n == |s| || IsLegible(code, s, n + 1))
  }

  /** Just then the code looks beyond the terminator, or writes beyond what it allocated. */
  lemma StraysIff(code: Code, s: string, n: nat)
    requires 0 < n == LegibleLen(code, s)
    ensures Strays(code, s, n) <==> LookedAt(code, s, n) > |s| || WrittenBytes(code, s, n) > n - n / 4
  {
    hide A2b, LegibleLen;
    var i, k := (n - 1) / 4 * 4, (n - 1) / 4;
    LegibleAt(code, s, n, i + 2);
    LegibleAt(code, s, n, i + 3);
    assert n - n / 4 == if n == 4 * k + 4 then 3 * k + 3 else 3 * k + (n - 4 * k);
  }

  lemma LegibleAt(code: Code, s: string, n: nat, k: nat)
    requires n == LegibleLen(code, s)
    ensures k < n ==> IsLegible(code, s, k)
    ensures k == n ==> !IsLegible(code, s, k)
  {
    assert k < n ==> s[..n][k] == s[k];
  }

  /** _dearmor64 of the first `len` characters of s, of which the first n are legible. A last
      block of one character gives a byte of ones, for the -1 of what is not legible. */
  method DearmorBlocks64(code: Code, s: string, len: nat, ghost n: nat) returns (bin: Bytes)
    requires code != C32 && n == LegibleLen(code, s) && n <= len <= |s| && len < n + 3
    requires !Strays(code, s, n) && (len == n || (len % 4 == 0 && n % 4 != 1))
    ensures bin == Dearmored(code, s[..n]) + if n % 4 == 1 then [255] else []
  {
    hide Dearmored, Bytes64, Legible, A2b, LegibleLen;
    if len == 0 {
      NoBytes(code);
      return [];
    }
    LegibleFrom(code, s, n, 0, n);
    assert s[0..n] == s[..n];
    var i, d := Blocks64(code, s, len, n);
    LegibleFrom(code, s, n, i, n);
    assert s[i..][..n - i] == s[i..n];
    LegibleAt(code, s, n, i + 1);
    var last;
    if !IsLegible(code, s, i + 1) {
      DearmorLast64(code, s[i..n]);
      last := [255];
    } else {
      LegibleAt(code, s, n, n);
      last := LastBytes64(code, s[i..], n - i);
      assert Dearmored(code, s[..n]) + [] == Dearmored(code, s[..n]);
    }
    bin := d + last;
  }

  lemma FirstFour(code: Code, t: string)
    requires |t| >= 4
    ensures Bytes64(code, t) == Bytes64(code, t[..4])
  {
  }

  lemma NoBytes(code: Code)
    ensures Dearmored(code, []) == []
  {
  }

  /** The length armor64len finds: the legible part and at most two '='. */
  function PaddedLen(s: string, n: nat): (len: nat)
    requires n <= |s|
    ensures n <= len <= |s|
  {
    if n < |s| && s[n] == '=' then if n + 1 < |s| && s[n + 1] == '=' then n + 2 else n + 1 else n
  }

  /** dearmor64: null unless the characters, '=' included, come in fours. */
  method Dearmor64(s: string) returns (bin: Option<Bytes>)
    ensures var n := LegibleLen(C64, s);
      bin == if PaddedLen(s, n) % 4 != 0 then None else Some(Dearmored(C64, s[..n]))
  {
    hide Dearmored, Legible, A2b;
    var n := ScanLen(C64, s);
    var len := PaddedLen(s, n);
    if len % 4 != 0 {
      return None;
    }
    var b := DearmorBlocks64(C64, s, len, n);
    assert Dearmored(C64, s[..n]) + [] == Dearmored(C64, s[..n]);
    bin := Some(b);
  }

  /** dearmor64A, as far as it stays within the string and the buffer. */
  method Dearmor64A(s: string) returns (bin: Option<Bytes>)
    ensures var n := LegibleLen(C64A, s);
      bin == if Strays(C64A, s, n) then None
             else Some(Dearmored(C64A, s[..n]) + if n % 4 == 1 then [255] else [])
  {
    hide Dearmored, A2b, LegibleLen;
    var n := ScanLen(C64A, s);
    if Strays(C64A, s, n) {
      return None;
    }
    var b := DearmorBlocks64(C64A, s, n, n);
    bin := Some(b);
  }

  // There and back

  /** Followed by something outside the alphabet, the armor is found whole. */
  lemma FoundWhole(code: Code, b: Bytes, t: string)
    requires t != [] ==> A2b(code, t[0]) < 0
    ensures LegibleLen(code, Armored(code, b) + t) == |Armored(code, b)|
    ensures Dearmored(code, (Armored(code, b) + t)[..|Armored(code, b)|]) == b
  {
    hide Dearmored, Armored, A2b;
    var a := Armored(code, b);
    RoundTrip(code, b);
    assert (a + t)[..|a|] == a;
    LegibleLenIs(code, a + t, |a|);
  }

  /** dearmor32 undoes armor32, whatever follows. */
  method ThereAndBack32(b: Bytes, t: string) returns (r: Option<Bytes>)
    requires t != [] ==> A2b(C32, t[0]) < 0
    ensures r == Some(b)
  {
    hide Dearmored, Armored, A2b;
    var s := Armor32(b);
    FoundWhole(C32, b, t);
    Length32(b);
    r := Dearmor32(s + t);
  }

  /** dearmor64 undoes armor64, whatever follows. */
  method ThereAndBack64(b: Bytes, t: string) returns (r: Option<Bytes>)
    requires t != [] ==> A2b(C64, t[0]) < 0 && t[0] != '='
    ensures r == Some(b)
  {
    hide Dearmored, Armored, A2b;
    var s := Armor64(C64, true, b);
    ghost var a, p := Armored(C64, b), seq(Pads(|b|), _ => '=');
    EqualsIllegible();
    Length64(C64, b);
    assert s + t == a + (p + t);
    FoundWhole(C64, b, p + t);
    hide PaddedLen, LegibleLen;
    PadsFound(a, Pads(|b|), t);
    r := Dearmor64(s + t);
  }

  lemma PadsFound(a: string, n: nat, t: string)
    requires n <= 2 && (t != [] ==> t[0] != '=')
    ensures PaddedLen(a + (seq(n, _ => '=') + t), |a|) == |a| + n
  {
    var p := seq(n, _ => '=');
    var s := a + (p + t);
    assert n > 0 ==> s[|a|] == p[0];
    assert n > 1 ==> s[|a| + 1] == p[1];
    assert t != [] ==> s[|a| + n] == t[0];
  }

  lemma EqualsIllegible()
    ensures A2b(C64, '=') < 0
  {
  }

  /** dearmor64A undoes armor64A, whatever follows. */
  method ThereAndBack64A(b: Bytes, t: string) returns (r: Option<Bytes>)
    requires t != [] ==> A2b(C64A, t[0]) < 0
    ensures r == Some(b)
  {
    hide Dearmored, Armored, A2b;
    var s := Armor64(C64A, false, b);
    assert s == Armored(C64A, b);
    FoundWhole(C64A, b, t);
    Length64(C64A, b);
    assert b + [] == b;
    r := Dearmor64A(s + t);
  }
}
