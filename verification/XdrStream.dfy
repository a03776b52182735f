/**
 The codec as it runs: rpc_traverse on an XDR stream, writing at its end or reading from its
 front, and decoding into an object that may already hold a value.
 */
module XdrStream {
  import opened Octets
  import opened Xdr
  import Framing

  /** What a new object holds. */
  function Default(t: Type): (v: Value)
    ensures HasType(t, v)
  {
    match t
    case UInt => Number(0)
    case Int => Number(0)
    case UHyper => Number(0)
    case Hyper => Number(0)
    case Bool => Flag(false)
    case Opaque(n) => Data(Zeros(n))
    case VarOpaque(_) => Data([])
    case Str(_) => Text([])
    case AnyStr => NullText
    case Array(n, e) => var v := Default(e); Items(seq(n, _ => v))
    case Vec(_, _) => Items([])
    case Ptr(_) => Nil
    case Void => Unit
    case Struct(f, r) => Fields(Default(f), Default(r))
  }

  lemma {:induction false} EncodedAppend(t: Type, vs: seq<Value>, v: Value)
    requires forall x :: x in vs ==> HasType(t, x) && Complete(x)
    requires HasType(t, v) && Complete(v)
    ensures EncodedAll(t, vs + [v]) == EncodedAll(t, vs) + Encoded(t, v)
  {
    hide HasType, Complete, Encoded;
    if vs == [] {
      assert vs + [v] == [v];
    } else {
      EncodedAppend(t, vs[1..], v);
      assert (vs + [v])[1..] == vs[1..] + [v];
    }
  }

  /** Having decoded `vs`, what is left of the count and of the stream completes the list. */
  ghost predicate Continues(t: Type, n: nat, b: Bytes, vs: seq<Value>, left: Bytes) {
    && |vs| <= n
    && DecodedAll(t, n, b) ==
       match DecodedAll(t, n - |vs|, left)
       case ListFail => ListFail
       case ListDone(ys, rest) => ListDone(vs + ys, rest)
  }

  lemma ContinuesStart(t: Type, n: nat, b: Bytes)
    ensures Continues(t, n, b, [], b)
  {
    hide Decoded;
    assert forall ys: seq<Value> :: [] + ys == ys;
  }

  lemma ContinuesStep(t: Type, n: nat, b: Bytes, vs: seq<Value>, left: Bytes)
    requires Continues(t, n, b, vs, left) && |vs| < n
    ensures Decoded(t, left).Fail? ==> DecodedAll(t, n, b).ListFail?
    ensures Decoded(t, left).Done? ==> Continues(t, n, b, vs + [Decoded(t, left).v], Decoded(t, left).rest)
  {
    hide Decoded;
    if Decoded(t, left).Done? {
      var x := Decoded(t, left).v;
      assert n - |vs + [x]| == n - |vs| - 1;
      assert forall ys: seq<Value> :: vs + ([x] + ys) == vs + [x] + ys;
    }
  }

  lemma ContinuesEnd(t: Type, n: nat, b: Bytes, vs: seq<Value>, left: Bytes)
    requires Continues(t, n, b, vs, left) && |vs| == n
    ensures DecodedAll(t, n, b) == ListDone(vs, left)
  {
    hide Decoded;
    assert vs + [] == vs;
  }

  /** What follows `was` when a value has been encoded part by part. */
  lemma ItemsEncoded(t: Type, v: Value, was: Bytes)
    requires (t.Array? || t.Vec?) && HasType(t, v)
    ensures Complete(v) <==> forall x :: x in v.items ==> Complete(x)
    ensures var size := if t.Vec? then Framing.PutInt(|v.items|) else [];
      Complete(v) ==> was + Encoded(t, v) == was + size + EncodedAll(t.elem, v.items)
  {
    hide Framing.PutInt, EncodedAll;
    if Complete(v) {
      assert was + [] == was;
    }
  }

  lemma PtrEncoded(t: Type, v: Value, was: Bytes)
    requires t.Ptr? && HasType(t, v)
    ensures Complete(v) <==> (v.Ref? ==> Complete(v.v))
    ensures v.Nil? ==> was + Encoded(t, v) == was + Framing.PutInt(0)
    ensures v.Ref? && Complete(v) ==> was + Encoded(t, v) == was + Framing.PutInt(1) + Encoded(t.elem, v.v)
  {
    hide Framing.PutInt;
  }

  lemma StructEncoded(t: Type, v: Value, was: Bytes)
    requires t.Struct? && HasType(t, v)
    ensures Complete(v) <==> Complete(v.head) && Complete(v.tail)
    ensures Complete(v) ==> was + Encoded(t, v) == was + Encoded(t.first, v.head) + Encoded(t.rest, v.tail)
  {
  }

  class Stream {
    /** Encoding: what has been written. Decoding: what is still to be read. */
    var buf: Bytes

    constructor (b: Bytes)
      ensures buf == b
    {
      buf := b;
    }

    method PutInt(u: nat)
      requires u < 0x1_0000_0000
      modifies this
      ensures buf == old(buf) + Framing.PutInt(u)
    {
      buf := buf + Framing.PutInt(u);
    }

    method GetInt() returns (ok: bool, u: nat)
      modifies this
      ensures ok == (|old(buf)| >= 4) && u < 0x1_0000_0000
      ensures ok ==> u == Framing.GetInt(old(buf)) && buf == old(buf)[4..]
    {
      if |buf| < 4 {
        return false, 0;
      }
      IntRange(buf);
      ok, u := true, Framing.GetInt(buf);
      buf := buf[4..];
    }

    method PutHyper(u: nat)
      requires u < 0x1_0000_0000_0000_0000
      modifies this
      ensures buf == old(buf) + Xdr.PutHyper(u)
    {
      PutInt(u / 0x1_0000_0000);
      PutInt(u % 0x1_0000_0000);
    }

    method GetHyper() returns (ok: bool, u: nat)
      modifies this
      ensures ok == (|old(buf)| >= 8)
      ensures ok ==> u == Xdr.GetHyper(old(buf)) && buf == old(buf)[8..]
    {
      var h, l;
      ok, h := GetInt();
      if !ok {
        return false, 0;
      }
      ok, l := GetInt();
      u := h * 0x1_0000_0000 + l;
    }

    method GetBytes(n: nat) returns (ok: bool, b: Bytes)
      modifies this
      ensures ok == (|old(buf)| >= n)
      ensures ok ==> b == old(buf)[..n] && buf == old(buf)[n..]
    {
      if |buf| < n {
        return false, [];
      }
      ok, b := true, buf[..n];
      buf := buf[n..];
    }

    method PutPadBytes(b: Bytes)
      modifies this
      ensures buf == old(buf) + Padded(b)
    {
      if |b| != 0 {
        buf := buf + b;
        var nn := Pad(|b|);
        if nn != 0 {
          buf := buf + Zeros(nn);
        }
      }
    }

    method GetPadBytes(n: nat) returns (ok: bool, b: Bytes)
      modifies this
      ensures ok == (|old(buf)| >= n + Pad(n))
      ensures ok ==> b == old(buf)[..n] && buf == old(buf)[n + Pad(n)..]
    {
      ok, b := GetBytes(n);
      if !ok {
        return;
      }
      var nn := Pad(n);
      if nn != 0 {
        var garbage;
        ok, garbage := GetBytes(nn);
      }
    }

    method EncodeLeaf(t: Type, v: Value) returns (ok: bool)
      requires Leaf(t) && HasType(t, v)
      modifies this
      ensures ok == Complete(v)
      ensures ok ==> buf == old(buf) + Encoded(t, v)
    {
      hide Framing.PutInt, Xdr.PutHyper, Padded;
      ok := true;
      match t
      case UInt => PutInt(v.i);
      case Int => PutInt(Unsigned(v.i, 0x1_0000_0000));
      case UHyper => PutHyper(v.i);
      case Hyper => PutHyper(Unsigned(v.i, 0x1_0000_0000_0000_0000));
      case Bool => PutInt(if v.b then 1 else 0);
      case Opaque(_) => PutPadBytes(v.bytes);
      case VarOpaque(_) => PutInt(|v.bytes|); PutPadBytes(v.bytes);
      case Str(_) => ok := EncodeText(v);
      case AnyStr => ok := EncodeText(v);
      case Void =>
    }

    /** Encoding fails just when it meets a null string. */
    method Encode(t: Type, v: Value) returns (ok: bool)
      requires HasType(t, v)
      modifies this
      ensures ok == Complete(v)
      ensures ok ==> buf == old(buf) + Encoded(t, v)
      decreases t, 0
    {
      hide Framing.PutInt, Encoded, EncodedAll;
      ok := true;
      ghost var was := buf;
      match t
      case Array(_, e) =>
        ok := EncodeAll(e, v.items);
        ItemsEncoded(t, v, was);
      case Vec(_, e) =>
        PutInt(|v.items|);
        ok := EncodeAll(e, v.items);
        ItemsEncoded(t, v, was);
      case Ptr(e) =>
        PutInt(if v.Ref? then 1 else 0);
        if v.Ref? {
          ok := Encode(e, v.v);
        }
        PtrEncoded(t, v, was);
      case Struct(f, r) =>
        ok := Encode(f, v.head);
        if ok {
          ok := Encode(r, v.tail);
        }
        StructEncoded(t, v, was);
      case _ => ok := EncodeLeaf(t, v);
    }

    method EncodeText(v: Value) returns (ok: bool)
      requires v.NullText? || (v.Text? && |v.bytes| < 0x1_0000_0000)
      modifies this
      ensures ok == v.Text?
      ensures ok ==> buf == old(buf) + (Framing.PutInt(|v.bytes|) + Padded(v.bytes))
    {
      hide Framing.PutInt, Padded;
      if v.NullText? {
        return false;
      }
      PutInt(|v.bytes|);
      PutPadBytes(v.bytes);
      ok := true;
    }

    method EncodeAll(t: Type, vs: seq<Value>) returns (ok: bool)
      requires forall x :: x in vs ==> HasType(t, x)
      modifies this
      ensures ok == forall x :: x in vs ==> Complete(x)
      ensures ok ==> buf == old(buf) + EncodedAll(t, vs)
      decreases t, 1
    {
      hide HasType, Complete, Encoded;
      var i := 0;
      while i < |vs|
        invariant 0 <= i <= |vs|
        invariant forall x :: x in vs[..i] ==> Complete(x)
        invariant buf == old(buf) + EncodedAll(t, vs[..i])
      {
        ok := Encode(t, vs[i]);
        if !ok {
          return;
        }
        EncodedAppend(t, vs[..i], vs[i]);
        assert vs[..i + 1] == vs[..i] + [vs[i]];
        i := i + 1;
      }
      assert vs[..|vs|] == vs;
      ok := true;
    }

    /** Decoding into an object gives what the stream says, whatever the object held. */
    method Decode(t: Type, obj: Value) returns (ok: bool, v: Value)
      requires HasType(t, obj)
      modifies this
      ensures ok == Decoded(t, old(buf)).Done?
      ensures ok ==> Decoded(t, old(buf)) == Done(v, buf)
      decreases t, 0
    {
      hide Framing.GetInt, Xdr.GetHyper, Pad, DecodedAll;
      v := obj;
      match t
      case UInt => var u; ok, u := GetInt(); v := Number(u);
      case Int => var u; ok, u := GetInt(); v := Number(Signed(u, 0x1_0000_0000));
      case UHyper => var u; ok, u := GetHyper(); v := Number(u);
      case Hyper => var u; ok, u := GetHyper(); v := Number(Signed(u, 0x1_0000_0000_0000_0000));
      case Bool => var u; ok, u := GetInt(); v := Flag(u != 0);
      case Opaque(n) => var b; ok, b := GetPadBytes(n); v := Data(b);
      case VarOpaque(max) => ok, v := DecodeData(max);
      case Str(max) => ok, v := DecodeText(max);
      case AnyStr =>
        if |buf| >= 4 {
          IntRange(buf);
        }
        ok, v := DecodeText(0xffff_ffff);
      case Array(n, e) =>
        var vs;
        ok, vs := DecodeAll(e, obj.items, n);
        v := Items(vs);
      case Vec(max, e) =>
        var size, vs;
        ok, size := GetInt();
        if !ok || size > max {
          return false, obj;
        }
        ok, vs := DecodeAll(e, if size < |obj.items| then obj.items[..size] else obj.items, size);
        v := Items(vs);
      case Ptr(e) =>
        var nonnil;
        ok, nonnil := GetInt();
        if ok && nonnil == 0 {
          v := Nil;
        } else if ok {
          ok, v := Decode(e, if obj.Ref? then obj.v else Default(e));
          v := Ref(v);
        }
      case Void => ok := true;
      case Struct(f, r) =>
        var x, y;
        ok, x := Decode(f, obj.head);
        if ok {
          ok, y := Decode(r, obj.tail);
          v := Fields(x, y);
        }
    }

    method DecodeData(max: nat) returns (ok: bool, v: Value)
      modifies this
      ensures var r := if |old(buf)| < 4 || Framing.GetInt(old(buf)) > max then Fail
                       else DecodedData(Framing.GetInt(old(buf)), old(buf)[4..]);
        ok == r.Done? && (ok ==> r == Done(v, buf))
    {
      hide Framing.GetInt;
      v := Data([]);
      var size, b;
      ok, size := GetInt();
      if !ok || size > max {
        return false, v;
      }
      ok, b := GetBytes(size + Pad(size));
      if ok {
        assert b[..size] == old(buf)[4..][..size];
        v := Data(b[..size]);
      }
    }

    method DecodeText(max: nat) returns (ok: bool, v: Value)
      modifies this
      ensures var r := if |old(buf)| < 4 || Framing.GetInt(old(buf)) > max then Fail
                       else DecodedText(Framing.GetInt(old(buf)), old(buf)[4..]);
        ok == r.Done? && (ok ==> r == Done(v, buf))
    {
      hide Framing.GetInt;
      v := NullText;
      var size, b;
      ok, size := GetInt();
      if !ok || size > max {
        return false, v;
      }
      ok, b := GetPadBytes(size);
      if !ok || 0 in b {
        return false, v;
      }
      v := Text(b);
    }

    /** The elements already there are decoded into; the others are appended new. */
    method DecodeAll(t: Type, objs: seq<Value>, size: nat) returns (ok: bool, vs: seq<Value>)
      requires |objs| <= size && forall x :: x in objs ==> HasType(t, x)
      modifies this
      ensures ok == DecodedAll(t, size, old(buf)).ListDone?
      ensures ok ==> DecodedAll(t, size, old(buf)) == ListDone(vs, buf)
      decreases t, 1
    {
      hide HasType, Decoded, DecodedAll, Continues;
      vs := objs;
      var i, v := 0, Unit;
      ContinuesStart(t, size, buf);
      while i < |objs|
        invariant 0 <= i <= |vs| == |objs| && forall j :: i <= j < |vs| ==> vs[j] == objs[j]
        invariant Continues(t, size, old(buf), vs[..i], buf)
      {
        ContinuesStep(t, size, old(buf), vs[..i], buf);
        ok, v := Decode(t, vs[i]);
        if !ok {
          return;
        }
        assert vs[i := v][..i + 1] == vs[..i] + [v];
        vs := vs[i := v];
        i := i + 1;
      }
      assert vs[..i] == vs;
      while |vs| < size
        invariant |vs| <= size && Continues(t, size, old(buf), vs, buf)
      {
        ContinuesStep(t, size, old(buf), vs, buf);
        ok, v := Decode(t, Default(t));
        if !ok {
          return;
        }
        vs := vs + [v];
      }
      ContinuesEnd(t, size, old(buf), vs, buf);
      ok := true;
    }
  }
}
