/** Bytes, as the wire formats and the replay caches see them. */
module Octets {
  newtype Byte = b: int | 0 <= b < 256
  type Bytes = seq<Byte>

  /** The number that bytes stand for, highest byte first: network byte order. */
  function Big(b: Bytes): nat {
    if b == [] then 0 else Big(b[..|b| - 1]) * 0x100 + b[|b| - 1] as nat
  }

  /** `b` and `c` are first different where `b` has the smaller byte. */
  ghost predicate Before(b: Bytes, c: Bytes) {
    exists k :: 0 <= k < |b| && k < |c| && b[..k] == c[..k] && b[k] < c[k]
  }

  lemma BigLast(b: Bytes, x: Byte)
    ensures Big(b + [x]) == Big(b) * 0x100 + x as nat
  {
    assert (b + [x])[..|b|] == b;
  }

  /** Numbers are in the order of their bytes. */
  lemma {:induction false} BigOrder(b: Bytes, c: Bytes)
    requires |b| == |c|
    ensures Big(b) < Big(c) <==> Before(b, c)
    ensures Big(b) == Big(c) <==> b == c
  {
    if b != [] {
      var n := |b| - 1;
      var p, q, x, y := b[..n], c[..n], b[n], c[n];
      BigOrder(p, q);
      assert b == p + [x] && c == q + [y];
      assert Before(b, c) <==> Before(p, q) || (p == q && x < y) by {
        BeforeLast(p, q, x, y);
      }
    }
  }

  lemma BeforeLast(p: Bytes, q: Bytes, x: Byte, y: Byte)
    requires |p| == |q|
    ensures Before(p + [x], q + [y]) <==> Before(p, q) || (p == q && x < y)
  {
    var b, c := p + [x], q + [y];
    if k :| 0 <= k < |b| && k < |c| && b[..k] == c[..k] && b[k] < c[k] {
      if k < |p| {
        assert p[..k] == b[..k] && q[..k] == c[..k];
      } else {
        assert p == b[..k] && q == c[..k];
      }
    }
    if k :| 0 <= k < |p| && k < |q| && p[..k] == q[..k] && p[k] < q[k] {
      assert b[..k] == p[..k] && c[..k] == q[..k];
    }
    if p == q && x < y {
      assert b[..|p|] == c[..|p|];
    }
  }

  lemma BigFour(b: Bytes)
    requires |b| == 4
    ensures Big(b) == ((b[0] as nat * 0x100 + b[1] as nat) * 0x100 + b[2] as nat) * 0x100 + b[3] as nat
  {
    assert b == [] + [b[0]] + [b[1]] + [b[2]] + [b[3]];
    BigLast([], b[0]);
    BigLast([b[0]], b[1]);
    BigLast([b[0], b[1]], b[2]);
    BigLast([b[0], b[1], b[2]], b[3]);
    assert [] + [b[0]] == [b[0]] && [b[0]] + [b[1]] == [b[0], b[1]];
    assert [b[0], b[1]] + [b[2]] == [b[0], b[1], b[2]] && [b[0], b[1], b[2]] + [b[3]] == b;
  }

  lemma BigWords(p: Bytes, q: Bytes)
    requires |q| == 4
    ensures Big(p + q) == Big(p) * 0x1_0000_0000 + Big(q)
  {
    var p1, p2, p3 := p + [q[0]], p + [q[0]] + [q[1]], p + [q[0]] + [q[1]] + [q[2]];
    BigLast(p, q[0]);
    BigLast(p1, q[1]);
    BigLast(p2, q[2]);
    BigLast(p3, q[3]);
    assert p + q == p3 + [q[3]];
    BigFour(q);
  }
}
