/**
 What the generated code of a struct does when it runs: the bytes it encodes to and the fields
 it decodes, whichever reservations the stream grants.
 */
module StructRun {
  import opened Octets
  import opened Framing
  import opened Xdr
  import opened StructInline

  /** What encoding comes to: an assertion of the stream fails, or some bytes are added. */
  datatype PutResult = Aborted | Put(b: Bytes)

  ghost predicate Typed(ts: seq<Type>, vs: seq<Value>) {
    |ts| == |vs| && forall i :: 0 <= i < |ts| ==> HasType(ts[i], vs[i]) && Complete(vs[i])
  }

  /** The fields encoded one by one. */
  ghost function EncodedFields(ts: seq<Type>, vs: seq<Value>): Bytes
    requires Typed(ts, vs)
    decreases |ts|
  {
    if ts == [] then [] else EncodedFields(ts[..|ts| - 1], vs[..|ts| - 1]) + Encoded(ts[|ts| - 1], vs[|ts| - 1])
  }

  lemma {:induction false} EncodedSplit(ts: seq<Type>, vs: seq<Value>, m: nat)
    requires Typed(ts, vs) && m <= |ts|
    ensures Typed(ts[..m], vs[..m]) && Typed(ts[m..], vs[m..])
    ensures EncodedFields(ts, vs) == EncodedFields(ts[..m], vs[..m]) + EncodedFields(ts[m..], vs[m..])
    decreases |ts|
  {
    hide HasType, Complete, Encoded;
    if m == |ts| {
      assert ts[..m] == ts && vs[..m] == vs && ts[m..] == [];
    } else {
      var n := |ts| - 1;
      EncodedSplit(ts[..n], vs[..n], m);
      assert ts[..n][..m] == ts[..m] && vs[..n][..m] == vs[..m];
      assert ts[m..][..n - m] == ts[..n][m..] && vs[m..][..n - m] == vs[..n][m..];
      assert ts[m..][n - m] == ts[n] && vs[m..][n - m] == vs[n];
    }
  }

  /** IXDR_PUT_LONG and its like: one word. */
  function PutWord(v: Value): Bytes
    requires (v.Number? && -0x8000_0000 <= v.i < 0x1_0000_0000) || v.Flag?
  {
    if v.Flag? then PutInt(if v.b then 1 else 0) else PutInt(Unsigned(v.i, 0x1_0000_0000))
  }

  ghost predicate Words(vs: seq<Value>) {
    forall v :: v in vs ==> (v.Number? && -0x8000_0000 <= v.i < 0x1_0000_0000) || v.Flag?
  }

  ghost function PutWords(vs: seq<Value>): Bytes
    requires Words(vs)
  {
    if vs == [] then [] else PutWord(vs[0]) + PutWords(vs[1..])
  }

  lemma BasicWord(t: Type, v: Value)
    requires Basic(t) && HasType(t, v)
    ensures (v.Number? && -0x8000_0000 <= v.i < 0x1_0000_0000) || v.Flag?
    ensures Complete(v) && PutWord(v) == Encoded(t, v) && |PutWord(v)| == 4
  {
  }

  lemma {:induction false} BasicWords(t: Type, vs: seq<Value>)
    requires Basic(t) && forall v :: v in vs ==> HasType(t, v) && Complete(v)
    ensures Words(vs) && PutWords(vs) == EncodedAll(t, vs) && |PutWords(vs)| == 4 * |vs|
  {
    hide HasType, Complete, Encoded, PutWord;
    forall v | v in vs
      ensures (v.Number? && -0x8000_0000 <= v.i < 0x1_0000_0000) || v.Flag?
    {
      BasicWord(t, v);
    }
    if vs != [] {
      BasicWord(t, vs[0]);
      BasicWords(t, vs[1..]);
    }
  }

  /** emit_inline: a field, or all elements of a vector. */
  ghost function InlinePut(t: Type, v: Value): Bytes
    requires Inlineable(t) && HasType(t, v) && Complete(v)
  {
    if t.Array? then BasicWords(t.elem, v.items); PutWords(v.items)
    else BasicWord(t, v); PutWord(v)
  }

  function WordsOf(t: Type): nat {
    if t.Array? then t.n else 1
  }

  lemma InlineSame(t: Type, v: Value)
    requires Inlineable(t) && HasType(t, v) && Complete(v)
    ensures InlinePut(t, v) == Encoded(t, v) && |InlinePut(t, v)| == 4 * WordsOf(t)
  {
    hide PutWord, PutWords;
    if t.Array? {
      BasicWords(t.elem, v.items);
    } else {
      BasicWord(t, v);
    }
  }

  ghost function InlinePuts(ts: seq<Type>, vs: seq<Value>): Bytes
    requires AllInlineable(ts) && Typed(ts, vs)
    decreases |ts|
  {
    if ts == [] then [] else InlinePuts(ts[..|ts| - 1], vs[..|ts| - 1]) + InlinePut(ts[|ts| - 1], vs[|ts| - 1])
  }

  lemma SumAppend(v: seq<nat>, n: nat)
    ensures Sum(v + [n]) == Sum(v) + n
  {
    assert (v + [n])[..|v|] == v;
  }

  lemma CountLast(ts: seq<Type>)
    requires ts != [] && Inlineable(ts[|ts| - 1])
    ensures var init := ts[..|ts| - 1];
      Scalars(ts) + Sum(Vectors(ts)) == Scalars(init) + Sum(Vectors(init)) + WordsOf(ts[|ts| - 1])
  {
    var t := ts[|ts| - 1];
    if t.Array? {
      SumAppend(Vectors(ts[..|ts| - 1]), t.n);
    } else {
      assert Vectors(ts) == Vectors(ts[..|ts| - 1]);
    }
  }

  /** Word by word a run gives the bytes of its fields, four for each word. */
  lemma {:induction false} InlinesSame(ts: seq<Type>, vs: seq<Value>)
    requires AllInlineable(ts) && Typed(ts, vs)
    ensures InlinePuts(ts, vs) == EncodedFields(ts, vs)
    ensures |InlinePuts(ts, vs)| == 4 * (Scalars(ts) + Sum(Vectors(ts)))
    decreases |ts|
  {
    if ts != [] {
      hide HasType, Complete, Encoded, InlinePut, Scalars, Vectors, Sum, WordsOf;
      var n := |ts| - 1;
      InlinesSame(ts[..n], vs[..n]);
      InlineSame(ts[n], vs[n]);
      CountLast(ts);
    }
  }

  /** A run with a scalar, or with one vector at most, or whose vectors but the last are empty. */
  predicate ExactRun(ts: seq<Type>) {
    var v := Vectors(ts);
    Scalars(ts) > 0 || |v| <= 1 || Sum(v[..|v| - 1]) == 0
  }

  /** For such runs as much is reserved as is used, and for any other run less. */
  lemma ReserveIff(ts: seq<Type>)
    ensures Reserve(Scalars(ts), Vectors(ts)) <= 4 * (Scalars(ts) + Sum(Vectors(ts)))
    ensures Reserve(Scalars(ts), Vectors(ts)) == 4 * (Scalars(ts) + Sum(Vectors(ts))) <==> ExactRun(ts)
  {
    var v := Vectors(ts);
    if v != [] {
      assert Sum(v) == Sum(v[..|v| - 1]) + v[|v| - 1];
    }
  }

  lemma TwoVectors(m: Size, n: Size)
    ensures var ts := [Array(m, Int), Array(n, Int)];
      Scalars(ts) == 0 && Vectors(ts) == [m, n] && Sum([m]) == m && Sum([m, n]) == m + n
  {
    var ts := [Array(m, Int), Array(n, Int)];
    assert ts[..1] == [Array(m, Int)] && ts[..1][..0] == [];
    assert Scalars(ts[..1]) == 0 && Vectors(ts[..1]) == [m];
    assert [m][..0] == [] && Sum([m]) == m;
    assert [m, n][..1] == [m];
  }

  /** Two vectors of two words: 2 + 2 * 4 bytes are reserved for four words, no multiple of
      four. Two vectors of four words: 20 bytes are reserved for 32. */
  lemma NotExact()
    ensures var ts := [Array(2, Int), Array(2, Int)];
      AllInlineable(ts) && !ExactRun(ts) && Reserve(Scalars(ts), Vectors(ts)) == 10
    ensures var ts := [Array(4, Int), Array(4, Int)];
      AllInlineable(ts) && !ExactRun(ts) && Reserve(Scalars(ts), Vectors(ts)) == 20
  {
    TwoVectors(2, 2);
    TwoVectors(4, 4);
    hide Scalars, Vectors, Sum;
    assert [2, 2][..1] == [2] && [4, 4][..1] == [4];
  }

  // Encoding

  /** The operation is about fields there are, a reservation about inlineable ones, which take
      at least the space reserved. */
  ghost predicate Runnable(op: Op, ts: seq<Type>) {
    match op
    case Stat(f) => f < |ts|
    case Block(r, a, b) =>
      a < b <= |ts| && AllInlineable(ts[a..b]) && r <= 4 * (Scalars(ts[a..b]) + Sum(Vectors(ts[a..b])))
  }

  /** What one operation adds to the stream. A reservation must be a multiple of four bytes, and
      adds as many; words stored beyond it are not part of the stream. */
  ghost function OpBytes(op: Op, ts: seq<Type>, vs: seq<Value>, granted: bool): PutResult
    requires Typed(ts, vs) && Runnable(op, ts)
  {
    match op
    case Stat(f) => Put(Encoded(ts[f], vs[f]))
    case Block(r, a, b) =>
      if !granted then Put(EncodedFields(ts[a..b], vs[a..b]))
      else if r % 4 != 0 then Aborted
      else InlinesSame(ts[a..b], vs[a..b]); Put(InlinePuts(ts[a..b], vs[a..b])[..r])
  }

  /** What a list of operations adds, given which reservations succeed. */
  ghost function RunPut(ops: seq<Op>, ts: seq<Type>, vs: seq<Value>, granted: seq<bool>): PutResult
    requires Typed(ts, vs) && |granted| == |ops|
    requires forall i :: 0 <= i < |ops| ==> Runnable(ops[i], ts)
    decreases |ops|
  {
    if ops == [] then Put([])
    else
      match OpBytes(ops[0], ts, vs, granted[0])
      case Aborted => Aborted
      case Put(x) =>
        match RunPut(ops[1..], ts, vs, granted[1..])
        case Aborted => Aborted
        case Put(y) => Put(x + y)
  }

  ghost predicate ExactOp(op: Op, ts: seq<Type>, granted: bool) {
    op.Block? && granted && op.from <= op.to <= |ts| ==> ExactRun(ts[op.from..op.to])
  }

  ghost predicate AllExact(ops: seq<Op>, ts: seq<Type>, granted: seq<bool>)
    requires |granted| == |ops|
  {
    forall i :: 0 <= i < |ops| ==> ExactOp(ops[i], ts, granted[i])
  }

  lemma AllExactSplit(ops: seq<Op>, ts: seq<Type>, granted: seq<bool>)
    requires |granted| == |ops| > 0
    ensures AllExact(ops, ts, granted) <==> ExactOp(ops[0], ts, granted[0]) && AllExact(ops[1..], ts, granted[1..])
  {
    hide ExactOp;
    assert forall i :: 0 < i < |ops| ==> ops[i] == ops[1..][i - 1] && granted[i] == granted[1..][i - 1];
  }

  /** The reservation is granted and no multiple of four: xdrsuio_inline asserts. */
  predicate Ragged(op: Op, granted: bool) {
    op.Block? && granted && op.reserve % 4 != 0
  }

  lemma OneField(ts: seq<Type>, vs: seq<Value>)
    requires Typed(ts, vs) && |ts| == 1
    ensures EncodedFields(ts, vs) == Encoded(ts[0], vs[0])
  {
    hide HasType, Complete, Encoded;
    assert EncodedFields(ts[..0], vs[..0]) == [];
  }

  lemma GoodRunnable(op: Op, ts: seq<Type>, doinline: int)
    requires GoodOp(op, ts, doinline)
    ensures Runnable(op, ts) && First(op) < Next(op) <= |ts|
  {
    hide Reserve, ExactRun;
    if op.Block? {
      ReserveIff(ts[op.from..op.to]);
    }
  }

  /** An operation adds its fields' bytes, if exact; otherwise it aborts or adds fewer bytes. */
  lemma OpSame(op: Op, ts: seq<Type>, vs: seq<Value>, doinline: int, granted: bool)
    requires Typed(ts, vs) && GoodOp(op, ts, doinline)
    ensures Runnable(op, ts) && First(op) < Next(op) <= |ts|
    ensures Typed(ts[First(op)..Next(op)], vs[First(op)..Next(op)])
    ensures var x, e := OpBytes(op, ts, vs, granted), EncodedFields(ts[First(op)..Next(op)], vs[First(op)..Next(op)]);
      && (x.Aborted? <==> Ragged(op, granted))
      && (ExactOp(op, ts, granted) ==> x == Put(e))
      && (!ExactOp(op, ts, granted) ==> x.Aborted? || |x.b| < |e|)
  {
    hide HasType, Complete, Encoded, ExactRun, Reserve, EncodedFields, InlinePuts, Inlineable, Scalars, Vectors, Sum;
    GoodRunnable(op, ts, doinline);
    var t, v := ts[First(op)..Next(op)], vs[First(op)..Next(op)];
    if op.Stat? {
      OneField(t, v);
    } else if granted {
      InlinesSame(t, v);
      ReserveIff(t);
      var puts := InlinePuts(t, v);
      assert |puts| == op.reserve ==> puts[..op.reserve] == puts;
    }
  }

  /** The encode branch adds just what the fields one by one would if and only if every run it
      gets a reservation for is exact. If one is not, the branch aborts or adds too few bytes;
      it aborts exactly for a reservation that is no multiple of four. */
  lemma {:induction false} PutSame(ops: seq<Op>, ts: seq<Type>, vs: seq<Value>, doinline: int, a: nat, granted: seq<bool>)
    requires Typed(ts, vs) && |granted| == |ops| && a <= |ts| && Emitted(ops, ts, doinline, a, |ts|)
    ensures forall i :: 0 <= i < |ops| ==> Runnable(ops[i], ts)
    ensures Typed(ts[a..], vs[a..])
    ensures var x, e := RunPut(ops, ts, vs, granted), EncodedFields(ts[a..], vs[a..]);
      && (AllExact(ops, ts, granted) <==> x == Put(e))
      && (x.Aborted? || |x.b| < |e| <==> !AllExact(ops, ts, granted))
      && (x.Aborted? <==> exists i :: 0 <= i < |ops| && Ragged(ops[i], granted[i]))
    decreases |ops|
  {
    hide HasType, Complete, Encoded, GoodOp, ExactOp, AllExact, Ragged, Runnable, OpBytes, EncodedFields;
    if ops == [] {
      assert ts[a..] == [];
      NoFields(ts[a..], vs[a..]);
      NothingInexact(ts);
    } else {
      var op, m := ops[0], Next(ops[0]);
      OpSame(op, ts, vs, doinline, granted[0]);
      PutSame(ops[1..], ts, vs, doinline, m, granted[1..]);
      EncodedSplit(ts[a..], vs[a..], m - a);
      assert ts[a..][..m - a] == ts[a..m] && vs[a..][..m - a] == vs[a..m];
      assert ts[a..][m - a..] == ts[m..] && vs[a..][m - a..] == vs[m..];
      AllExactSplit(ops, ts, granted);
      RaggedSplit(ops, granted);
      assert forall i :: 0 < i < |ops| ==> ops[i] == ops[1..][i - 1] && granted[i] == granted[1..][i - 1];
    }
  }

  lemma NothingInexact(ts: seq<Type>)
    ensures AllExact([], ts, [])
  {
  }

  lemma RaggedSplit(ops: seq<Op>, granted: seq<bool>)
    requires |granted| == |ops| > 0
    ensures (exists i :: 0 <= i < |ops| && Ragged(ops[i], granted[i])) <==>
      Ragged(ops[0], granted[0]) || exists i :: 0 <= i < |ops[1..]| && Ragged(ops[1..][i], granted[1..][i])
  {
    hide Ragged;
    if i :| 0 <= i < |ops| && Ragged(ops[i], granted[i]) {
      assert i > 0 ==> Ragged(ops[1..][i - 1], granted[1..][i - 1]);
    }
    if i :| 0 <= i < |ops[1..]| && Ragged(ops[1..][i], granted[1..][i]) {
      assert Ragged(ops[i + 1], granted[i + 1]);
    }
  }

  lemma NoFields(ts: seq<Type>, vs: seq<Value>)
    requires ts == [] && vs == []
    ensures EncodedFields(ts, vs) == []
  {
  }

  // Decoding

  /** The fields decoded one by one. */
  function DecodedFields(ts: seq<Type>, b: Bytes): ListResult {
    if ts == [] then ListDone([], b)
    else match Decoded(ts[0], b)
      case Fail => ListFail
      case Done(x, rest) => Prepended(x, DecodedFields(ts[1..], rest))
  }

  function Prepended(x: Value, r: ListResult): ListResult {
    match r
    case ListFail => ListFail
    case ListDone(xs, rest) => ListDone([x] + xs, rest)
  }

  /** After some fields, the others. */
  function Then(r: ListResult, ts: seq<Type>): ListResult {
    match r
    case ListFail => ListFail
    case ListDone(xs, b) =>
      match DecodedFields(ts, b)
      case ListFail => ListFail
      case ListDone(ys, rest) => ListDone(xs + ys, rest)
  }

  lemma {:induction false} DecodedSplit(p: seq<Type>, q: seq<Type>, b: Bytes)
    ensures DecodedFields(p + q, b) == Then(DecodedFields(p, b), q)
  {
    hide Decoded;
    if p == [] {
      assert p + q == q;
      assert forall ys: seq<Value> :: [] + ys == ys;
    } else {
      assert (p + q)[1..] == p[1..] + q;
      if Decoded(p[0], b).Done? {
        var x, c := Decoded(p[0], b).v, Decoded(p[0], b).rest;
        DecodedSplit(p[1..], q, c);
        assert forall xs: seq<Value>, ys: seq<Value> :: [x] + (xs + ys) == [x] + xs + ys;
      }
    }
  }

  /** IXDR_GET_LONG and its like. */
  function GetWord(t: Type, b: Bytes): Value
    requires |b| >= 4
  {
    match t
    case Int => Number(Signed(GetInt(b), 0x1_0000_0000))
    case Bool => Flag(GetInt(b) != 0)
    case _ => Number(GetInt(b))
  }

  function GetWords(t: Type, n: nat, b: Bytes): seq<Value>
    requires |b| >= 4 * n
  {
    if n == 0 then [] else [GetWord(t, b)] + GetWords(t, n - 1, b[4..])
  }

  function RunWords(ts: seq<Type>): nat {
    if ts == [] then 0 else WordsOf(ts[0]) + RunWords(ts[1..])
  }

  function InlineGet(t: Type, b: Bytes): Value
    requires |b| >= 4 * WordsOf(t)
  {
    if t.Array? then Items(GetWords(t.elem, t.n, b)) else GetWord(t, b)
  }

  function InlineGets(ts: seq<Type>, b: Bytes): seq<Value>
    requires |b| >= 4 * RunWords(ts)
  {
    if ts == [] then [] else [InlineGet(ts[0], b)] + InlineGets(ts[1..], b[4 * WordsOf(ts[0])..])
  }

  lemma {:induction false} WordsDecoded(t: Type, n: nat, b: Bytes)
    requires Basic(t) && |b| >= 4 * n
    ensures DecodedAll(t, n, b) == ListDone(GetWords(t, n, b), b[4 * n..])
  {
    hide GetInt;
    if n != 0 {
      WordsDecoded(t, n - 1, b[4..]);
      assert Decoded(t, b) == Done(GetWord(t, b), b[4..]);
      assert b[4..][4 * (n - 1)..] == b[4 * n..];
    }
  }

  lemma FieldDecoded(t: Type, b: Bytes)
    requires Inlineable(t) && |b| >= 4 * WordsOf(t)
    ensures Decoded(t, b) == Done(InlineGet(t, b), b[4 * WordsOf(t)..])
  {
    hide GetInt, GetWords, DecodedAll;
    if t.Array? {
      WordsDecoded(t.elem, t.n, b);
    }
  }

  /** Taken word by word from a long enough stream, a run is what its fields decode to. */
  lemma {:induction false} RunDecoded(ts: seq<Type>, b: Bytes)
    requires AllInlineable(ts) && |b| >= 4 * RunWords(ts)
    ensures DecodedFields(ts, b) == ListDone(InlineGets(ts, b), b[4 * RunWords(ts)..])
  {
    hide Decoded, InlineGet, WordsOf;
    if ts != [] {
      var k := 4 * WordsOf(ts[0]);
      FieldDecoded(ts[0], b);
      RunDecoded(ts[1..], b[k..]);
      assert b[k..][4 * RunWords(ts[1..])..] == b[4 * RunWords(ts)..];
    }
  }

  lemma {:induction false} RunWordsLast(ts: seq<Type>)
    requires ts != []
    ensures RunWords(ts) == RunWords(ts[..|ts| - 1]) + WordsOf(ts[|ts| - 1])
  {
    hide WordsOf;
    if |ts| > 1 {
      RunWordsLast(ts[1..]);
      assert ts[1..][..|ts| - 2] == ts[..|ts| - 1][1..];
    } else {
      assert ts[1..] == [] && ts[..0] == [];
    }
  }

  lemma {:induction false} RunWordsAre(ts: seq<Type>)
    requires AllInlineable(ts)
    ensures RunWords(ts) == Scalars(ts) + Sum(Vectors(ts))
    decreases |ts|
  {
    if ts != [] {
      hide RunWords, Scalars, Vectors, Sum, WordsOf;
      RunWordsAre(ts[..|ts| - 1]);
      RunWordsLast(ts);
      CountLast(ts);
    }
  }

  /** What decoding comes to: words are read from beyond the end, or some fields are read. */
  datatype GetResult = Overrun | Got(r: ListResult)

  /** What one operation reads. A reservation takes as many bytes off the stream as it says, if
      they are there; the words are read from where it starts, however many they are. */
  ghost function OpGet(op: Op, ts: seq<Type>, b: Bytes, granted: bool): GetResult
    requires Runnable(op, ts)
  {
    match op
    case Stat(f) => Got(DecodedFields(ts[f..f + 1], b))
    case Block(r, x, y) =>
      if !granted || |b| < r then Got(DecodedFields(ts[x..y], b))
      else if |b| < 4 * RunWords(ts[x..y]) then Overrun
      else RunWordsAre(ts[x..y]); Got(ListDone(InlineGets(ts[x..y], b), b[r..]))
  }

  /** What is read first, and then the rest. */
  function Following(xs: seq<Value>, r: GetResult): GetResult {
    match r
    case Overrun => Overrun
    case Got(ListFail) => Got(ListFail)
    case Got(ListDone(ys, rest)) => Got(ListDone(xs + ys, rest))
  }

  ghost function RunGet(ops: seq<Op>, ts: seq<Type>, b: Bytes, granted: seq<bool>): GetResult
    requires |granted| == |ops| && forall i :: 0 <= i < |ops| ==> Runnable(ops[i], ts)
    decreases |ops|
  {
    if ops == [] then Got(ListDone([], b))
    else
      match OpGet(ops[0], ts, b, granted[0])
      case Overrun => Overrun
      case Got(ListFail) => Got(ListFail)
      case Got(ListDone(xs, rest)) => Following(xs, RunGet(ops[1..], ts, rest, granted[1..]))
  }

  lemma {:induction false} EmittedRunnable(ops: seq<Op>, ts: seq<Type>, doinline: int, a: nat)
    requires Emitted(ops, ts, doinline, a, |ts|)
    ensures forall i :: 0 <= i < |ops| ==> Runnable(ops[i], ts)
    decreases |ops|
  {
    hide GoodOp, Runnable;
    if ops != [] {
      GoodRunnable(ops[0], ts, doinline);
      EmittedRunnable(ops[1..], ts, doinline, Next(ops[0]));
      assert forall i :: 0 < i < |ops| ==> ops[i] == ops[1..][i - 1];
    }
  }

  lemma OpGetSame(op: Op, ts: seq<Type>, b: Bytes, doinline: int, granted: bool)
    requires GoodOp(op, ts, doinline) && ExactOp(op, ts, granted)
    ensures Runnable(op, ts) && First(op) < Next(op) <= |ts|
    ensures OpGet(op, ts, b, granted) == Got(DecodedFields(ts[First(op)..Next(op)], b))
  {
    hide ExactRun, Reserve, DecodedFields, InlineGets, RunWords, Inlineable, Scalars, Vectors, Sum;
    GoodRunnable(op, ts, doinline);
    if op.Block? && granted {
      var t := ts[op.from..op.to];
      ReserveIff(t);
      RunWordsAre(t);
      if |b| >= op.reserve {
        RunDecoded(t, b);
      }
    }
  }

  /** With exact runs the decode branch reads what the fields one by one would. */
  lemma {:induction false} ExactGet(ops: seq<Op>, ts: seq<Type>, b: Bytes, doinline: int, a: nat, granted: seq<bool>)
    requires |granted| == |ops| && a <= |ts| && Emitted(ops, ts, doinline, a, |ts|) && AllExact(ops, ts, granted)
    ensures forall i :: 0 <= i < |ops| ==> Runnable(ops[i], ts)
    ensures RunGet(ops, ts, b, granted) == Got(DecodedFields(ts[a..], b))
    decreases |ops|
  {
    hide GoodOp, ExactOp, AllExact, Runnable, OpGet, DecodedFields;
    EmittedRunnable(ops, ts, doinline, a);
    if ops == [] {
      assert ts[a..] == [];
      NothingDecoded(b);
    } else {
      var op, m := ops[0], Next(ops[0]);
      AllExactSplit(ops, ts, granted);
      OpGetSame(op, ts, b, doinline, granted[0]);
      assert ts[a..] == ts[a..m] + ts[m..];
      DecodedSplit(ts[a..m], ts[m..], b);
      var c := if DecodedFields(ts[a..m], b).ListDone? then DecodedFields(ts[a..m], b).rest else b;
      ExactGet(ops[1..], ts, c, doinline, m, granted[1..]);
    }
  }

  lemma NothingDecoded(b: Bytes)
    ensures DecodedFields([], b) == ListDone([], b)
  {
  }

  // A stream of zeros: every type can be decoded from it

  /** How many zeros a type takes. */
  function ZeroSize(t: Type): nat
    decreases t
  {
    match t
    case UHyper => 8
    case Hyper => 8
    case Opaque(n) => n + Pad(n)
    case Array(n, e) => n * ZeroSize(e)
    case Void => 0
    case Struct(f, r) => ZeroSize(f) + ZeroSize(r)
    case _ => 4
  }

  /** Decoding took `size` zeros. */
  predicate Took(r: Result, len: nat, size: nat) {
    r.Done? && size <= len && r.rest == Zeros(len - size)
  }

  lemma ZeroDropped(len: nat, n: nat)
    requires n <= len
    ensures Zeros(len)[n..] == Zeros(len - n)
    ensures len >= 4 ==> GetInt(Zeros(len)) == 0
  {
  }

  lemma LeafZero(t: Type, len: nat)
    requires Leaf(t) && ZeroSize(t) <= len
    ensures Took(Decoded(t, Zeros(len)), len, ZeroSize(t))
  {
    hide GetInt, Zeros;
    ZeroLength(len);
    ZeroDropped(len, ZeroSize(t));
    if len >= 4 {
      ZeroDropped(len, 4);
      ZeroLength(len - 4);
    }
  }

  lemma ZeroLength(len: nat)
    ensures |Zeros(len)| == len
  {
  }

  lemma WordZero(t: Type, len: nat)
    requires (t.Vec? || t.Ptr?) && 4 <= len
    ensures Took(Decoded(t, Zeros(len)), len, 4)
  {
    hide GetInt, Zeros;
    ZeroLength(len);
    ZeroDropped(len, 4);
  }

  lemma StructZero(t: Type, len: nat)
    requires t.Struct? && ZeroSize(t) <= len
    requires Took(Decoded(t.first, Zeros(len)), len, ZeroSize(t.first))
    requires Took(Decoded(t.rest, Zeros(len - ZeroSize(t.first))), len - ZeroSize(t.first), ZeroSize(t.rest))
    ensures Took(Decoded(t, Zeros(len)), len, ZeroSize(t))
  {
    hide Zeros;
  }

  lemma {:induction false} ZeroDecoded(t: Type, len: nat)
    requires ZeroSize(t) <= len
    ensures Took(Decoded(t, Zeros(len)), len, ZeroSize(t))
    decreases t, 0
  {
    match t
    case Array(n, e) =>
      hide Zeros;
      AllZero(e, n, len);
    case Vec(_, e) =>
      hide Decoded;
      WordZero(t, len);
    case Ptr(e) =>
      hide Decoded;
      WordZero(t, len);
    case Struct(f, r) =>
      hide Decoded;
      ZeroDecoded(f, len);
      ZeroDecoded(r, len - ZeroSize(f));
      StructZero(t, len);
    case _ =>
      hide Decoded;
      LeafZero(t, len);
  }

  lemma {:induction false} AllZero(t: Type, n: nat, len: nat)
    requires n * ZeroSize(t) <= len
    ensures DecodedAll(t, n, Zeros(len)).ListDone? && DecodedAll(t, n, Zeros(len)).rest == Zeros(len - n * ZeroSize(t))
    decreases t, n + 1
  {
    hide Decoded, ZeroSize, Zeros;
    if n != 0 {
      var k := ZeroSize(t);
      assert n * k == k + (n - 1) * k;
      ZeroDecoded(t, len);
      AllZero(t, n - 1, len - k);
    }
  }

  /** How many zeros fields take. */
  function ZeroSizes(ts: seq<Type>): nat {
    if ts == [] then 0 else ZeroSize(ts[0]) + ZeroSizes(ts[1..])
  }

  lemma {:induction false} FieldsZero(ts: seq<Type>, len: nat)
    requires ZeroSizes(ts) <= len
    ensures DecodedFields(ts, Zeros(len)).ListDone? && DecodedFields(ts, Zeros(len)).rest == Zeros(len - ZeroSizes(ts))
  {
    hide Decoded, ZeroSize, Zeros;
    if ts != [] {
      ZeroDecoded(ts[0], len);
      FieldsZero(ts[1..], len - ZeroSize(ts[0]));
    }
  }

  lemma {:induction false} ZeroSizesSplit(p: seq<Type>, q: seq<Type>)
    ensures ZeroSizes(p + q) == ZeroSizes(p) + ZeroSizes(q)
  {
    hide ZeroSize;
    if p == [] {
      assert p + q == q;
    } else {
      ZeroSizesSplit(p[1..], q);
      assert (p + q)[1..] == p[1..] + q;
    }
  }

  lemma {:induction false} RunZeroSize(ts: seq<Type>)
    requires AllInlineable(ts)
    ensures ZeroSizes(ts) == 4 * RunWords(ts)
  {
    hide ZeroSize, WordsOf, Inlineable;
    if ts != [] {
      InlineZero(ts[0]);
      RunZeroSize(ts[1..]);
    }
  }

  lemma InlineZero(t: Type)
    requires Inlineable(t)
    ensures ZeroSize(t) == 4 * WordsOf(t)
  {
    if t.Array? {
      assert ZeroSize(t.elem) == 4;
    }
  }

  /** What an operation leaves of a stream of zeros: as much as its fields would, or more if it
      is not exact. */
  lemma OpZero(op: Op, ts: seq<Type>, len: nat, doinline: int, granted: bool)
    requires GoodOp(op, ts, doinline) && First(op) < Next(op) <= |ts| && ZeroSizes(ts[First(op)..Next(op)]) <= len
    ensures Runnable(op, ts)
    ensures var x := OpGet(op, ts, Zeros(len), granted);
      x.Got? && x.r.ListDone? && |x.r.rest| <= len && x.r.rest == Zeros(|x.r.rest|)
    ensures var left, size := |OpGet(op, ts, Zeros(len), granted).r.rest|, ZeroSizes(ts[First(op)..Next(op)]);
      left >= len - size && (!ExactOp(op, ts, granted) ==> left > len - size)
  {
    hide ExactRun, Reserve, DecodedFields, InlineGets, RunWords, Inlineable, Scalars, Vectors, Sum, ZeroSizes, Zeros;
    GoodRunnable(op, ts, doinline);
    var t := ts[First(op)..Next(op)];
    ZeroLength(len);
    FieldsZero(t, len);
    ZeroLength(len - ZeroSizes(t));
    if op.Block? && granted {
      ReserveIff(t);
      RunWordsAre(t);
      RunZeroSize(t);
      ZeroDropped(len, op.reserve);
      ZeroLength(len - op.reserve);
    }
  }

  /** An inexact run leaves more of a long enough stream of zeros than its fields would. */
  lemma {:induction false} ZeroGet(ops: seq<Op>, ts: seq<Type>, len: nat, doinline: int, a: nat, granted: seq<bool>)
    requires |granted| == |ops| && a <= |ts| && Emitted(ops, ts, doinline, a, |ts|) && ZeroSizes(ts[a..]) <= len
    ensures forall i :: 0 <= i < |ops| ==> Runnable(ops[i], ts)
    ensures var x := RunGet(ops, ts, Zeros(len), granted); x.Got? && x.r.ListDone?
    ensures var left := |RunGet(ops, ts, Zeros(len), granted).r.rest|;
      left >= len - ZeroSizes(ts[a..]) && (!AllExact(ops, ts, granted) ==> left > len - ZeroSizes(ts[a..]))
    decreases |ops|
  {
    hide GoodOp, ExactOp, AllExact, Runnable, OpGet, ZeroSizes, Zeros;
    EmittedRunnable(ops, ts, doinline, a);
    if ops == [] {
      NothingInexact(ts);
      ZeroLength(len);
    } else {
      var op, m := ops[0], Next(ops[0]);
      AllExactSplit(ops, ts, granted);
      GoodRunnable(op, ts, doinline);
      assert ts[a..] == ts[a..m] + ts[m..];
      ZeroSizesSplit(ts[a..m], ts[m..]);
      OpZero(op, ts, len, doinline, granted[0]);
      ZeroGet(ops[1..], ts, |OpGet(op, ts, Zeros(len), granted[0]).r.rest|, doinline, m, granted[1..]);
    }
  }

  /** The decode branch reads just what the fields one by one would, from every stream, if and
      only if every run it gets a reservation for is exact. */
  lemma GetSame(ops: seq<Op>, ts: seq<Type>, doinline: int, a: nat, granted: seq<bool>)
    requires |granted| == |ops| && a <= |ts| && Emitted(ops, ts, doinline, a, |ts|)
    ensures forall i :: 0 <= i < |ops| ==> Runnable(ops[i], ts)
    ensures (forall b :: RunGet(ops, ts, b, granted) == Got(DecodedFields(ts[a..], b))) <==> AllExact(ops, ts, granted)
  {
    hide AllExact, Runnable, RunGet, DecodedFields, Emitted, ZeroSizes, Zeros;
    EmittedRunnable(ops, ts, doinline, a);
    if AllExact(ops, ts, granted) {
      forall b
        ensures RunGet(ops, ts, b, granted) == Got(DecodedFields(ts[a..], b))
      {
        ExactGet(ops, ts, b, doinline, a, granted);
      }
    } else {
      var len := ZeroSizes(ts[a..]);
      ZeroGet(ops, ts, len, doinline, a, granted);
      FieldsZero(ts[a..], len);
      ZeroLength(0);
      assert RunGet(ops, ts, Zeros(len), granted) != Got(DecodedFields(ts[a..], Zeros(len)));
    }
  }
}
