/**
 The generic XDR codec: rpc_traverse over the types rpcc generates, encoding to and decoding
 from a byte stream (RFC 4506, sections 4.1 to 4.14 and 4.19).
 */
module Xdr {
  import opened Octets
  import opened Framing

  /** Bounds are at most RPC_INFINITY. */
  type Size = n: nat | n <= 0x7fff_ffff

  /** The types: a struct is its first field and the rest of them, ending in Void. */
  datatype Type =
    | UInt | Int | UHyper | Hyper | Bool
    | Opaque(n: Size)
    | VarOpaque(max: Size)
    | Str(max: Size)
    | AnyStr
    | Array(n: Size, elem: Type)
    | Vec(max: Size, elem: Type)
    | Ptr(elem: Type)
    | Void
    | Struct(first: Type, rest: Type)

  /** Their values; a string may be null. */
  datatype Value =
    | Number(i: int) | Flag(b: bool) | Data(bytes: Bytes) | Text(bytes: Bytes) | NullText
    | Items(items: seq<Value>) | Nil | Ref(v: Value) | Unit | Fields(head: Value, tail: Value)

  datatype Result = Fail | Done(v: Value, rest: Bytes)

  datatype ListResult = ListFail | ListDone(vs: seq<Value>, rest: Bytes)

  /** What an object of type `t` can hold; an rpc_str never holds a NUL, a str may. */
  predicate HasType(t: Type, v: Value)
    decreases t
  {
    match t
    case UInt => v.Number? && 0 <= v.i < 0x1_0000_0000
    case Int => v.Number? && -0x8000_0000 <= v.i < 0x8000_0000
    case UHyper => v.Number? && 0 <= v.i < 0x1_0000_0000_0000_0000
    case Hyper => v.Number? && -0x8000_0000_0000_0000 <= v.i < 0x8000_0000_0000_0000
    case Bool => v.Flag?
    case Opaque(n) => v.Data? && |v.bytes| == n
    case VarOpaque(max) => v.Data? && |v.bytes| <= max
    case Str(max) => v.NullText? || (v.Text? && |v.bytes| <= max && 0 !in v.bytes)
    case AnyStr => v.NullText? || (v.Text? && |v.bytes| < 0x1_0000_0000)
    case Array(n, e) => v.Items? && |v.items| == n && forall x :: x in v.items ==> HasType(e, x)
    case Vec(max, e) => v.Items? && |v.items| <= max && forall x :: x in v.items ==> HasType(e, x)
    case Ptr(e) => v.Nil? || (v.Ref? && HasType(e, v.v))
    case Void => v.Unit?
    case Struct(f, r) => v.Fields? && HasType(f, v.head) && HasType(r, v.tail)
  }

  /** No null string anywhere. */
  predicate Complete(v: Value) {
    match v
    case NullText => false
    case Items(vs) => forall x :: x in vs ==> Complete(x)
    case Ref(x) => Complete(x)
    case Fields(h, r) => Complete(h) && Complete(r)
    case _ => true
  }

  /** No string with a NUL in it anywhere. */
  predicate Clean(v: Value) {
    match v
    case Text(b) => 0 !in b
    case Items(vs) => forall x :: x in vs ==> Clean(x)
    case Ref(x) => Clean(x)
    case Fields(h, r) => Clean(h) && Clean(r)
    case _ => true
  }

  /** -n & 3 */
  function Pad(n: nat): (p: nat)
    ensures p < 4 && (n + p) % 4 == 0
  {
    (4 - n % 4) % 4
  }

  function Zeros(n: nat): Bytes {
    seq(n, _ => 0)
  }

  function Padded(b: Bytes): Bytes {
    b + Zeros(Pad(|b|))
  }

  /** The unsigned word of 32 or 64 bits with the same bits. */
  function Unsigned(i: int, base: nat): int {
    if i < 0 then i + base else i
  }

  function Signed(u: int, base: nat): int {
    if u < base / 2 then u else u - base
  }

  function PutHyper(u: nat): Bytes
    requires u < 0x1_0000_0000_0000_0000
  {
    PutInt(u / 0x1_0000_0000) + PutInt(u % 0x1_0000_0000)
  }

  /** The bytes a value is encoded as. */
  function Encoded(t: Type, v: Value): Bytes
    requires HasType(t, v) && Complete(v)
    decreases t, 0
  {
    match t
    case UInt => PutInt(v.i)
    case Int => PutInt(Unsigned(v.i, 0x1_0000_0000))
    case UHyper => PutHyper(v.i)
    case Hyper => PutHyper(Unsigned(v.i, 0x1_0000_0000_0000_0000))
    case Bool => PutInt(if v.b then 1 else 0)
    case Opaque(_) => Padded(v.bytes)
    case VarOpaque(_) => PutInt(|v.bytes|) + Padded(v.bytes)
    case Str(_) => PutInt(|v.bytes|) + Padded(v.bytes)
    case AnyStr => PutInt(|v.bytes|) + Padded(v.bytes)
    case Array(_, e) => EncodedAll(e, v.items)
    case Vec(_, e) => PutInt(|v.items|) + EncodedAll(e, v.items)
    case Ptr(e) => if v.Nil? then PutInt(0) else PutInt(1) + Encoded(e, v.v)
    case Void => []
    case Struct(f, r) => Encoded(f, v.head) + Encoded(r, v.tail)
  }

  function EncodedAll(t: Type, vs: seq<Value>): Bytes
    requires forall x :: x in vs ==> HasType(t, x) && Complete(x)
    decreases t, |vs| + 1
  {
    if vs == [] then [] else Encoded(t, vs[0]) + EncodedAll(t, vs[1..])
  }

  /** The value at the start of `b`, and what follows it. */
  function Decoded(t: Type, b: Bytes): Result
    decreases t, 0
  {
    match t
    case UInt => if |b| < 4 then Fail else Done(Number(GetInt(b)), b[4..])
    case Int => if |b| < 4 then Fail else Done(Number(Signed(GetInt(b), 0x1_0000_0000)), b[4..])
    case UHyper => if |b| < 8 then Fail else Done(Number(GetHyper(b)), b[8..])
    case Hyper => if |b| < 8 then Fail else Done(Number(Signed(GetHyper(b), 0x1_0000_0000_0000_0000)), b[8..])
    case Bool => if |b| < 4 then Fail else Done(Flag(GetInt(b) != 0), b[4..])
    case Opaque(n) => if |b| < n + Pad(n) then Fail else Done(Data(b[..n]), b[n + Pad(n)..])
    case VarOpaque(max) => if |b| < 4 || GetInt(b) > max then Fail else DecodedData(GetInt(b), b[4..])
    case Str(max) => if |b| < 4 || GetInt(b) > max then Fail else DecodedText(GetInt(b), b[4..])
    case AnyStr => if |b| < 4 then Fail else DecodedText(GetInt(b), b[4..])
    case Array(n, e) => Boxed(DecodedAll(e, n, b))
    case Vec(max, e) => if |b| < 4 || GetInt(b) > max then Fail else Boxed(DecodedAll(e, GetInt(b), b[4..]))
    case Ptr(e) =>
      if |b| < 4 then Fail else if GetInt(b) == 0 then Done(Nil, b[4..])
      else (match Decoded(e, b[4..]) case Fail => Fail case Done(x, rest) => Done(Ref(x), rest))
    case Void => Done(Unit, b)
    case Struct(f, r) =>
      match Decoded(f, b)
      case Fail => Fail
      case Done(x, rest) =>
        match Decoded(r, rest)
        case Fail => Fail
        case Done(y, rest') => Done(Fields(x, y), rest')
  }

  function DecodedAll(t: Type, n: nat, b: Bytes): ListResult
    decreases t, n + 1
  {
    if n == 0 then ListDone([], b)
    else
      match Decoded(t, b)
      case Fail => ListFail
      case Done(x, rest) =>
        match DecodedAll(t, n - 1, rest)
        case ListFail => ListFail
        case ListDone(xs, rest') => ListDone([x] + xs, rest')
  }

  function GetHyper(b: Bytes): nat
    requires |b| >= 8
  {
    GetInt(b) * 0x1_0000_0000 + GetInt(b[4..])
  }

  function DecodedData(n: nat, b: Bytes): Result {
    if |b| < n + Pad(n) then Fail else Done(Data(b[..n]), b[n + Pad(n)..])
  }

  function DecodedText(n: nat, b: Bytes): Result {
    if |b| < n + Pad(n) || 0 in b[..n] then Fail else Done(Text(b[..n]), b[n + Pad(n)..])
  }

  function Boxed(r: ListResult): Result {
    match r
    case ListFail => Fail
    case ListDone(vs, rest) => Done(Items(vs), rest)
  }

  lemma IntFirst(u: nat, s: Bytes)
    requires u < 0x1_0000_0000
    ensures var b := PutInt(u) + s; |b| >= 4 && GetInt(b) == u && b[4..] == s
  {
    IntRoundTrip(u, s);
  }

  lemma HyperFirst(u: nat, s: Bytes)
    requires u < 0x1_0000_0000_0000_0000
    ensures var b := PutHyper(u) + s; |b| >= 8 && GetHyper(b) == u && b[8..] == s
  {
    var hi, lo := u / 0x1_0000_0000, u % 0x1_0000_0000;
    assert PutHyper(u) + s == PutInt(hi) + (PutInt(lo) + s);
    IntFirst(hi, PutInt(lo) + s);
    IntFirst(lo, s);
  }

  lemma PaddedFirst(d: Bytes, s: Bytes)
    ensures var b, n := Padded(d) + s, |d|;
      |b| >= n + Pad(n) && b[..n] == d && b[n + Pad(n)..] == s
  {
  }

  predicate Leaf(t: Type) {
    !t.Array? && !t.Vec? && !t.Ptr? && !t.Struct?
  }

  lemma LeafRoundTrip(t: Type, v: Value, s: Bytes)
    requires Leaf(t) && HasType(t, v) && Complete(v)
    ensures Back(t, v, s)
  {
    hide PutInt, GetInt, PutHyper, GetHyper, Padded, Pad;
    match t
    case UInt => IntFirst(v.i, s);
    case Int => IntFirst(Unsigned(v.i, 0x1_0000_0000), s);
    case UHyper => HyperFirst(v.i, s);
    case Hyper => HyperFirst(Unsigned(v.i, 0x1_0000_0000_0000_0000), s);
    case Bool => IntFirst(if v.b then 1 else 0, s);
    case Opaque(_) => PaddedFirst(v.bytes, s);
    case VarOpaque(_) => CountedFirst(v.bytes, s);
    case Str(_) => CountedFirst(v.bytes, s);
    case AnyStr => CountedFirst(v.bytes, s);
    case Void => assert Encoded(t, v) + s == s;
  }

  /** The value and whatever follows it come back, unless the value holds a string with a NUL in
      it, and then decoding fails. */
  ghost predicate Back(t: Type, v: Value, s: Bytes)
    requires HasType(t, v) && Complete(v)
  {
    Decoded(t, Encoded(t, v) + s) == if Clean(v) then Done(v, s) else Fail
  }

  ghost predicate BackAll(t: Type, vs: seq<Value>, s: Bytes)
    requires forall x :: x in vs ==> HasType(t, x) && Complete(x)
  {
    DecodedAll(t, |vs|, EncodedAll(t, vs) + s) ==
    if forall x :: x in vs ==> Clean(x) then ListDone(vs, s) else ListFail
  }

  lemma ItemsBack(t: Type, v: Value, s: Bytes)
    requires (t.Array? || t.Vec?) && HasType(t, v) && Complete(v)
    requires (forall x :: x in v.items ==> HasType(t.elem, x) && Complete(x)) && BackAll(t.elem, v.items, s)
    ensures Back(t, v, s)
  {
    hide PutInt, GetInt, EncodedAll, DecodedAll;
    if t.Vec? {
      assert Encoded(t, v) + s == PutInt(|v.items|) + (EncodedAll(t.elem, v.items) + s);
      IntFirst(|v.items|, EncodedAll(t.elem, v.items) + s);
    }
  }

  lemma PtrBack(t: Type, v: Value, s: Bytes)
    requires t.Ptr? && HasType(t, v) && Complete(v) && (v.Ref? ==> Back(t.elem, v.v, s))
    ensures Back(t, v, s)
  {
    hide PutInt, GetInt;
    if v.Nil? {
      IntFirst(0, s);
    } else {
      assert Encoded(t, v) + s == PutInt(1) + (Encoded(t.elem, v.v) + s);
      IntFirst(1, Encoded(t.elem, v.v) + s);
    }
  }

  lemma StructBack(t: Type, v: Value, s: Bytes)
    requires t.Struct? && HasType(t, v) && Complete(v)
    requires Back(t.first, v.head, Encoded(t.rest, v.tail) + s) && Back(t.rest, v.tail, s)
    ensures Back(t, v, s)
  {
    assert Encoded(t, v) + s == Encoded(t.first, v.head) + (Encoded(t.rest, v.tail) + s);
  }

  /** Decoding what a value was encoded as gives it back. */
  lemma {:induction false} RoundTrip(t: Type, v: Value, s: Bytes)
    requires HasType(t, v) && Complete(v)
    ensures Back(t, v, s)
    decreases t, 0
  {
    hide Back, BackAll, Encoded;
    match t
    case Array(_, e) => RoundTripAll(e, v.items, s); ItemsBack(t, v, s);
    case Vec(_, e) => RoundTripAll(e, v.items, s); ItemsBack(t, v, s);
    case Ptr(e) => if v.Ref? { RoundTrip(e, v.v, s); } PtrBack(t, v, s);
    case Struct(f, r) =>
      RoundTrip(f, v.head, Encoded(r, v.tail) + s);
      RoundTrip(r, v.tail, s);
      StructBack(t, v, s);
    case _ => LeafRoundTrip(t, v, s);
  }

  lemma CountedFirst(d: Bytes, s: Bytes)
    requires |d| < 0x1_0000_0000
    ensures var b := PutInt(|d|) + Padded(d) + s; |b| >= 4 && GetInt(b) == |d| && b[4..] == Padded(d) + s
    ensures DecodedData(|d|, Padded(d) + s) == Done(Data(d), s)
    ensures DecodedText(|d|, Padded(d) + s) == if 0 in d then Fail else Done(Text(d), s)
  {
    assert PutInt(|d|) + Padded(d) + s == PutInt(|d|) + (Padded(d) + s);
    IntFirst(|d|, Padded(d) + s);
    PaddedFirst(d, s);
  }

  lemma {:induction false} RoundTripAll(t: Type, vs: seq<Value>, s: Bytes)
    requires forall x :: x in vs ==> HasType(t, x) && Complete(x)
    ensures BackAll(t, vs, s)
    decreases t, |vs| + 1
  {
    hide HasType, Complete, Clean, Encoded, Decoded;
    if vs == [] {
      assert EncodedAll(t, vs) + s == s;
    } else {
      var x, rest, e := vs[0], vs[1..], EncodedAll(t, vs[1..]) + s;
      assert vs == [x] + rest;
      assert EncodedAll(t, vs) + s == Encoded(t, x) + e;
      RoundTrip(t, x, e);
      RoundTripAll(t, rest, s);
      assert forall y :: y in vs <==> y == x || y in rest;
    }
  }

  predicate Whole(n: nat) {
    n % 4 == 0
  }

  lemma WholeSum(a: nat, b: nat)
    requires Whole(a) && Whole(b)
    ensures Whole(a + b)
  {
  }

  lemma WholePadded(b: Bytes)
    ensures Whole(|Padded(b)|)
  {
  }

  /** Every encoding is a whole number of words. */
  lemma {:induction false} WholeWords(t: Type, v: Value)
    requires HasType(t, v) && Complete(v)
    ensures Whole(|Encoded(t, v)|)
    decreases t, 0
  {
    hide PutInt, EncodedAll, Padded, Whole;
    NoWords();
    WholeSum(4, 4);
    match t
    case Opaque(_) => WholePadded(v.bytes);
    case VarOpaque(_) => WholePadded(v.bytes); WholeSum(4, |Padded(v.bytes)|);
    case Str(_) => WholePadded(v.bytes); WholeSum(4, |Padded(v.bytes)|);
    case AnyStr => WholePadded(v.bytes); WholeSum(4, |Padded(v.bytes)|);
    case Array(_, e) => WholeWordsAll(e, v.items);
    case Vec(_, e) => WholeWordsAll(e, v.items); WholeSum(4, |EncodedAll(e, v.items)|);
    case Ptr(e) => if v.Ref? { WholeWords(e, v.v); WholeSum(4, |Encoded(e, v.v)|); }
    case Struct(f, r) =>
      WholeWords(f, v.head);
      WholeWords(r, v.tail);
      WholeSum(|Encoded(f, v.head)|, |Encoded(r, v.tail)|);
    case _ =>
  }

  lemma {:induction false} WholeWordsAll(t: Type, vs: seq<Value>)
    requires forall x :: x in vs ==> HasType(t, x) && Complete(x)
    ensures Whole(|EncodedAll(t, vs)|)
    decreases t, |vs| + 1
  {
    hide HasType, Complete, Encoded, Whole;
    if vs == [] {
      NoWords();
    } else {
      WholeWords(t, vs[0]);
      WholeWordsAll(t, vs[1..]);
      WholeSum(|Encoded(t, vs[0])|, |EncodedAll(t, vs[1..])|);
    }
  }

  lemma NoWords()
    ensures Whole(0) && Whole(4)
  {
  }

  /** No encoding is the beginning of another: two values of a type whose encodings start the
      same stream are the same. */
  lemma PrefixFree(t: Type, v: Value, v': Value, s: Bytes, s': Bytes)
    requires HasType(t, v) && Complete(v) && Clean(v)
    requires HasType(t, v') && Complete(v') && Clean(v')
    requires Encoded(t, v) + s == Encoded(t, v') + s'
    ensures v == v' && s == s'
  {
    hide HasType, Complete, Clean, Encoded, Decoded;
    RoundTrip(t, v, s);
    RoundTrip(t, v', s');
  }

  /** The rest of `b` after its first n bytes. */
  predicate Tail(b: Bytes, n: nat, rest: Bytes) {
    n <= |b| && rest == b[n..]
  }

  lemma TailTail(b: Bytes, n: nat, c: Bytes, m: nat, rest: Bytes)
    requires Tail(b, n, c) && Tail(c, m, rest)
    ensures Tail(b, n + m, rest)
  {
  }

  lemma IntRange(b: Bytes)
    requires |b| >= 4
    ensures GetInt(b) < 0x1_0000_0000
  {
  }

  /** What is decoded from a stream is a value of the type without a null string or a NUL, and
      takes as many bytes as its own encoding. */
  ghost predicate Sound(t: Type, b: Bytes) {
    match Decoded(t, b)
    case Fail => true
    case Done(v, rest) => HasType(t, v) && Complete(v) && Clean(v) && Tail(b, |Encoded(t, v)|, rest)
  }

  ghost predicate SoundAll(t: Type, n: nat, b: Bytes) {
    match DecodedAll(t, n, b)
    case ListFail => true
    case ListDone(vs, rest) =>
      && |vs| == n && (forall x :: x in vs ==> HasType(t, x) && Complete(x) && Clean(x))
      && Tail(b, |EncodedAll(t, vs)|, rest)
  }

  lemma LeafSound(t: Type, b: Bytes)
    requires Leaf(t)
    ensures Sound(t, b)
  {
    hide PutInt, GetInt, Pad;
    if |b| >= 4 {
      IntRange(b);
    }
    if t.Hyper? || t.UHyper? {
      if |b| >= 8 {
        IntRange(b[4..]);
      }
    } else if t.VarOpaque? || t.Str? || t.AnyStr? {
      CountedSound(t, b);
    }
  }

  lemma CountedSound(t: Type, b: Bytes)
    requires (t.VarOpaque? || t.Str? || t.AnyStr?) && (|b| >= 4 ==> GetInt(b) < 0x1_0000_0000)
    ensures Sound(t, b)
  {
    hide PutInt, GetInt, Pad;
    if Decoded(t, b).Done? {
      var n := GetInt(b);
      assert b[4..][n + Pad(n)..] == b[4 + n + Pad(n)..];
    }
  }

  lemma VecSound(t: Type, b: Bytes)
    requires t.Vec? && (|b| >= 4 ==> SoundAll(t.elem, GetInt(b), b[4..]))
    ensures Sound(t, b)
  {
    hide PutInt, GetInt, EncodedAll, DecodedAll, Tail;
    if Decoded(t, b).Done? {
      FirstWord(b);
      TailTail(b, 4, b[4..], |EncodedAll(t.elem, Decoded(t, b).v.items)|, Decoded(t, b).rest);
    }
  }

  lemma PtrSound(t: Type, b: Bytes)
    requires t.Ptr? && (|b| >= 4 ==> Sound(t.elem, b[4..]))
    ensures Sound(t, b)
  {
    hide PutInt, GetInt, Tail;
    if |b| >= 4 {
      FirstWord(b);
      if GetInt(b) != 0 && Decoded(t.elem, b[4..]).Done? {
        var x := Decoded(t.elem, b[4..]).v;
        assert Decoded(t, b) == Done(Ref(x), Decoded(t.elem, b[4..]).rest);
        RefSize(t, x);
        hide Decoded, Encoded, HasType, Complete, Clean;
        TailTail(b, 4, b[4..], |Encoded(t.elem, x)|, Decoded(t, b).rest);
      }
    }
  }

  lemma RefSize(t: Type, x: Value)
    requires t.Ptr? && HasType(t.elem, x) && Complete(x) && Clean(x)
    ensures HasType(t, Ref(x)) && Complete(Ref(x)) && Clean(Ref(x))
    ensures |Encoded(t, Ref(x))| == 4 + |Encoded(t.elem, x)|
  {
  }

  lemma FieldsSize(t: Type, x: Value, y: Value)
    requires t.Struct? && HasType(t.first, x) && Complete(x) && Clean(x)
    requires HasType(t.rest, y) && Complete(y) && Clean(y)
    ensures HasType(t, Fields(x, y)) && Complete(Fields(x, y)) && Clean(Fields(x, y))
    ensures |Encoded(t, Fields(x, y))| == |Encoded(t.first, x)| + |Encoded(t.rest, y)|
  {
  }

  lemma StructSound(t: Type, b: Bytes)
    requires t.Struct? && Sound(t.first, b)
    requires Decoded(t.first, b).Done? ==> Sound(t.rest, Decoded(t.first, b).rest)
    ensures Sound(t, b)
  {
    hide Tail, HasType, Complete, Clean, Encoded;
    if Decoded(t, b).Done? {
      var x, c := Decoded(t.first, b).v, Decoded(t.first, b).rest;
      var y := Decoded(t.rest, c).v;
      FieldsSize(t, x, y);
      TailTail(b, |Encoded(t.first, x)|, c, |Encoded(t.rest, y)|, Decoded(t.rest, c).rest);
    }
  }

  /** Whatever the stream holds, decoding is sound. */
  lemma {:induction false} DecodedSound(t: Type, b: Bytes)
    ensures Sound(t, b)
    decreases t, 0
  {
    match t
    case Array(n, e) => DecodedAllSound(e, n, b);
    case Vec(_, e) => if |b| >= 4 { DecodedAllSound(e, GetInt(b), b[4..]); } VecSound(t, b);
    case Ptr(e) => if |b| >= 4 { DecodedSound(e, b[4..]); } PtrSound(t, b);
    case Struct(f, r) =>
      DecodedSound(f, b);
      if Decoded(f, b).Done? {
        DecodedSound(r, Decoded(f, b).rest);
      }
      StructSound(t, b);
    case _ => LeafSound(t, b);
  }

  lemma FirstWord(b: Bytes)
    requires |b| >= 4
    ensures Tail(b, 4, b[4..])
  {
  }

  lemma {:induction false} DecodedAllSound(t: Type, n: nat, b: Bytes)
    ensures SoundAll(t, n, b)
    decreases t, n + 1
  {
    hide HasType, Complete, Clean, Encoded, Decoded;
    if n != 0 {
      DecodedSound(t, b);
      if Decoded(t, b).Done? {
        DecodedAllSound(t, n - 1, Decoded(t, b).rest);
        ConsSound(t, n, b);
      }
    }
  }

  lemma ConsSound(t: Type, n: nat, b: Bytes)
    requires n > 0 && Sound(t, b) && Decoded(t, b).Done? && SoundAll(t, n - 1, Decoded(t, b).rest)
    ensures SoundAll(t, n, b)
  {
    hide HasType, Complete, Clean, Encoded, Decoded, Tail;
    var x, c := Decoded(t, b).v, Decoded(t, b).rest;
    if DecodedAll(t, n - 1, c).ListDone? {
      var vs := DecodedAll(t, n - 1, c).vs;
      assert ([x] + vs)[1..] == vs;
      TailTail(b, |Encoded(t, x)|, c, |EncodedAll(t, vs)|, DecodedAll(t, n - 1, c).rest);
    }
  }
}
