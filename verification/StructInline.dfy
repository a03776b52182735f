/**
 rpcgen's code for a struct. Runs of one-word fields and of vectors of them can share a single
 XDR_INLINE reservation and be copied word by word; every other field gets its own XDR call.
 The output is a list of operations on the fields, by number.
 */
module StructInline {
  import opened Octets
  import opened Framing
  import opened Xdr

  /** A call for one field, or a reservation of some bytes for fields `from` to `to`, with calls
      for them in case it is refused. */
  datatype Op = Stat(f: nat) | Block(reserve: nat, from: nat, to: nat)

  /** A type of the generator's list: each takes one word. */
  predicate Basic(t: Type) {
    t.Int? || t.UInt? || t.Bool?
  }

  predicate Inlineable(t: Type) {
    Basic(t) || (t.Array? && Basic(t.elem))
  }

  ghost predicate AllInlineable(ts: seq<Type>) {
    forall i :: 0 <= i < |ts| ==> Inlineable(ts[i])
  }

  /** The scalar fields of a run, and the lengths of its vectors. */
  function Scalars(ts: seq<Type>): nat {
    if ts == [] then 0 else Scalars(ts[..|ts| - 1]) + if Basic(ts[|ts| - 1]) then 1 else 0
  }

  function Vectors(ts: seq<Type>): seq<nat> {
    if ts == [] then [] else Vectors(ts[..|ts| - 1]) + if ts[|ts| - 1].Array? then [ts[|ts| - 1].n] else []
  }

  function Sum(v: seq<nat>): nat {
    if v == [] then 0 else Sum(v[..|v| - 1]) + v[|v| - 1]
  }

  /** The value of the size expression that is printed. It is n * 4, or (n + v + .. + v) * 4; but
      without scalars it is v + .. + v * 4, with no parentheses. */
  function Reserve(size: nat, vecs: seq<nat>): nat {
    if vecs == [] then size * 4
    else if size == 0 then Sum(vecs[..|vecs| - 1]) + vecs[|vecs| - 1] * 4
    else (size + Sum(vecs)) * 4
  }

  /** The fields an operation handles: from `First` up to, not including, `Next`. */
  function First(op: Op): nat {
    if op.Stat? then op.f else op.from
  }

  function Next(op: Op): nat {
    if op.Stat? then op.f + 1 else op.to
  }

  /** A reservation is for a whole run of inlineable fields, with the size printed for it, and
      only where there is a vector or the run is long enough. */
  ghost predicate GoodOp(op: Op, ts: seq<Type>, doinline: int) {
    match op
    case Stat(f) => f < |ts|
    case Block(r, a, b) => IsRun(ts, a, b) && r == Reserve(Scalars(ts[a..b]), Vectors(ts[a..b])) && Pays(ts, a, b, doinline)
  }

  /** A whole run of inlineable fields. */
  ghost predicate IsRun(ts: seq<Type>, a: nat, b: nat) {
    && a < b <= |ts| && AllInlineable(ts[a..b])
    && (a > 0 ==> !Inlineable(ts[a - 1])) && (b < |ts| ==> !Inlineable(ts[b]))
  }

  /** It has a vector or is long enough. */
  ghost predicate Pays(ts: seq<Type>, a: nat, b: nat, doinline: int)
    requires a < b <= |ts|
  {
    Vectors(ts[a..b]) != [] || Scalars(ts[a..b]) >= doinline
  }

  /** The field is in a run that pays. */
  ghost predicate InPaying(ts: seq<Type>, f: nat, doinline: int) {
    exists a: nat, b: nat :: IsRun(ts, a, b) && a <= f < b && Pays(ts, a, b, doinline)
  }

  /** No field of a run that pays is left to a call of its own. */
  ghost predicate Thrifty(ops: seq<Op>, ts: seq<Type>, doinline: int) {
    forall i :: 0 <= i < |ops| && ops[i].Stat? ==> !InPaying(ts, ops[i].f, doinline)
  }

  lemma RunInlineable(ts: seq<Type>, a: nat, b: nat, f: nat)
    requires IsRun(ts, a, b) && a <= f < b
    ensures Inlineable(ts[f])
  {
    assert ts[f] == ts[a..b][f - a];
  }

  /** A field is in one run only. */
  lemma RunUnique(ts: seq<Type>, a: nat, b: nat, c: nat, d: nat, f: nat)
    requires IsRun(ts, a, b) && IsRun(ts, c, d) && a <= f < b && c <= f < d
    ensures a == c && b == d
  {
    forall g | a <= g < b ensures Inlineable(ts[g]) { RunInlineable(ts, a, b, g); }
    forall g | c <= g < d ensures Inlineable(ts[g]) { RunInlineable(ts, c, d, g); }
  }

  lemma NotPaying(ts: seq<Type>, f: nat, a: nat, b: nat, doinline: int)
    requires f < |ts|
    requires !Inlineable(ts[f]) || (IsRun(ts, a, b) && a <= f < b && !Pays(ts, a, b, doinline))
    ensures !InPaying(ts, f, doinline)
  {
    forall c: nat, d: nat | IsRun(ts, c, d) && c <= f < d
      ensures !Pays(ts, c, d, doinline)
    {
      RunInlineable(ts, c, d, f);
      RunUnique(ts, a, b, c, d, f);
    }
  }

  /** The operations handle fields a to b, each once and in order. */
  ghost predicate Emitted(ops: seq<Op>, ts: seq<Type>, doinline: int, a: nat, b: nat) {
    if ops == [] then a == b
    else First(ops[0]) == a && GoodOp(ops[0], ts, doinline) && Emitted(ops[1..], ts, doinline, Next(ops[0]), b)
  }

  // Generating

  lemma {:induction false} EmittedAppend(p: seq<Op>, q: seq<Op>, ts: seq<Type>, doinline: int, a: nat, m: nat, b: nat)
    requires Emitted(p, ts, doinline, a, m) && Emitted(q, ts, doinline, m, b)
    ensures Emitted(p + q, ts, doinline, a, b)
  {
    if p == [] {
      assert p + q == q;
    } else {
      hide GoodOp;
      EmittedAppend(p[1..], q, ts, doinline, Next(p[0]), m, b);
      assert (p + q)[1..] == p[1..] + q;
    }
  }

  lemma EmittedOne(op: Op, ts: seq<Type>, doinline: int)
    requires GoodOp(op, ts, doinline)
    ensures Emitted([op], ts, doinline, First(op), Next(op))
  {
    hide GoodOp;
    assert [op][1..] == [];
  }

  /** print_stat for fields a to b */
  method Stats(ts: seq<Type>, doinline: int, a: nat, b: nat) returns (ops: seq<Op>)
    requires a <= b <= |ts|
    ensures Emitted(ops, ts, doinline, a, b)
    ensures |ops| == b - a && forall i :: 0 <= i < |ops| ==> ops[i] == Stat(a + i)
  {
    ops := [];
    var cur := a;
    while cur != b
      invariant a <= cur <= b && Emitted(ops, ts, doinline, a, cur)
      invariant |ops| == cur - a && forall i :: 0 <= i < |ops| ==> ops[i] == Stat(a + i)
      decreases b - cur
    {
      EmittedOne(Stat(cur), ts, doinline);
      EmittedAppend(ops, [Stat(cur)], ts, doinline, a, cur, cur + 1);
      ops := ops + [Stat(cur)];
      cur := cur + 1;
    }
  }

  lemma IsRunBounds(ts: seq<Type>, a: nat, b: nat)
    requires IsRun(ts, a, b)
    ensures a < b <= |ts|
  {
  }

  /** The end of a run of fields `cur` to `dl`: one reservation, if that pays. */
  method Flush(ts: seq<Type>, doinline: int, cur: nat, dl: nat, size: nat, sizestr: seq<nat>) returns (ops: seq<Op>)
    requires IsRun(ts, cur, dl) && size == Scalars(ts[cur..dl]) && sizestr == Vectors(ts[cur..dl])
    ensures Emitted(ops, ts, doinline, cur, dl) && Thrifty(ops, ts, doinline)
  {
    hide Emitted, IsRun, Reserve, Scalars, Vectors, InPaying;
    IsRunBounds(ts, cur, dl);
    if sizestr == [] && size < doinline {
      ops := Stats(ts, doinline, cur, dl);
      forall i | 0 <= i < |ops|
        ensures !InPaying(ts, ops[i].f, doinline)
      {
        NotPaying(ts, ops[i].f, cur, dl, doinline);
      }
    } else {
      var op := Block(Reserve(size, sizestr), cur, dl);
      EmittedOne(op, ts, doinline);
      ops := [op];
    }
  }

  /** A run that has come to field `dl`: it began `i` fields before. */
  ghost predicate Running(ts: seq<Type>, dl: nat, i: nat, size: nat, sizestr: seq<nat>) {
    && i <= dl <= |ts| && AllInlineable(ts[dl - i..dl])
    && (dl - i > 0 ==> !Inlineable(ts[dl - i - 1]))
    && size == Scalars(ts[dl - i..dl]) && sizestr == Vectors(ts[dl - i..dl])
  }

  lemma RunStarts(ts: seq<Type>, dl: nat)
    requires dl <= |ts| && (dl > 0 ==> !Inlineable(ts[dl - 1]))
    ensures Running(ts, dl, 0, 0, [])
  {
  }

  lemma ThriftyAppend(p: seq<Op>, q: seq<Op>, ts: seq<Type>, doinline: int)
    requires Thrifty(p, ts, doinline) && Thrifty(q, ts, doinline)
    ensures Thrifty(p + q, ts, doinline)
  {
    hide InPaying;
    assert forall i :: 0 <= i < |p + q| ==> (p + q)[i] == if i < |p| then p[i] else q[i - |p|];
  }

  lemma ThriftyOne(ts: seq<Type>, f: nat, doinline: int)
    requires f < |ts| && !Inlineable(ts[f])
    ensures Thrifty([Stat(f)], ts, doinline)
  {
    NotPaying(ts, f, 0, 0, doinline);
  }

  lemma NothingEmitted(ts: seq<Type>, doinline: int)
    ensures Emitted([], ts, doinline, 0, 0) && Thrifty([], ts, doinline)
  {
  }

  /** A run is flushed, after what was emitted before it. */
  method EndRun(ts: seq<Type>, doinline: int, ops: seq<Op>, cur: nat, dl: nat, size: nat, sizestr: seq<nat>) returns (all: seq<Op>)
    requires IsRun(ts, cur, dl) && size == Scalars(ts[cur..dl]) && sizestr == Vectors(ts[cur..dl])
    requires Emitted(ops, ts, doinline, 0, cur) && Thrifty(ops, ts, doinline)
    ensures Emitted(all, ts, doinline, 0, dl) && Thrifty(all, ts, doinline)
  {
    hide Emitted, Thrifty, IsRun;
    var run := Flush(ts, doinline, cur, dl, size, sizestr);
    EmittedAppend(ops, run, ts, doinline, 0, cur, dl);
    ThriftyAppend(ops, run, ts, doinline);
    all := ops + run;
  }

  lemma StatAppend(ops: seq<Op>, ts: seq<Type>, doinline: int, f: nat)
    requires Emitted(ops, ts, doinline, 0, f) && Thrifty(ops, ts, doinline) && f < |ts| && !Inlineable(ts[f])
    ensures Emitted(ops + [Stat(f)], ts, doinline, 0, f + 1) && Thrifty(ops + [Stat(f)], ts, doinline)
  {
    hide Emitted, Thrifty;
    EmittedOne(Stat(f), ts, doinline);
    EmittedAppend(ops, [Stat(f)], ts, doinline, 0, f, f + 1);
    ThriftyOne(ts, f, doinline);
    ThriftyAppend(ops, [Stat(f)], ts, doinline);
  }

  /** One branch of the generated function: every field once, in the order declared, and every run
      that pays in one reservation. */
  method Walk(ts: seq<Type>, doinline: int) returns (ops: seq<Op>)
    ensures Emitted(ops, ts, doinline, 0, |ts|) && Thrifty(ops, ts, doinline)
  {
    hide Inlineable, Basic, Emitted, Thrifty, AllInlineable, Scalars, Vectors, Running, IsRun;
    NothingEmitted(ts, doinline);
    ops := [];
    var i, cur, size, sizestr := 0, 0, 0, [];
    var dl := 0;
    RunStarts(ts, 0);
    while dl < |ts|
      invariant 0 <= dl <= |ts| && i <= dl && (i > 0 ==> cur == dl - i)
      invariant Running(ts, dl, i, size, sizestr) && Emitted(ops, ts, doinline, 0, dl - i) && Thrifty(ops, ts, doinline)
    {
      if Inlineable(ts[dl]) {
        if i == 0 {
          cur := dl;
        }
        RunGrows(ts, dl, i, size, sizestr);
        i := i + 1;
        if Basic(ts[dl]) {
          size := size + 1;
        } else {
          sizestr := sizestr + [ts[dl].n];
        }
      } else {
        if i > 0 {
          RunEnds(ts, dl, i, size, sizestr);
          ops := EndRun(ts, doinline, ops, cur, dl, size, sizestr);
        }
        i, size, sizestr := 0, 0, [];
        RunStarts(ts, dl + 1);
        StatAppend(ops, ts, doinline, dl);
        ops := ops + [Stat(dl)];
      }
      dl := dl + 1;
    }
    if i > 0 {
      RunEnds(ts, dl, i, size, sizestr);
      ops := EndRun(ts, doinline, ops, cur, dl, size, sizestr);
    }
  }

  lemma RunEnds(ts: seq<Type>, dl: nat, i: nat, size: nat, sizestr: seq<nat>)
    requires Running(ts, dl, i, size, sizestr) && i > 0 && (dl < |ts| ==> !Inlineable(ts[dl]))
    ensures IsRun(ts, dl - i, dl)
    ensures size == Scalars(ts[dl - i..dl]) && sizestr == Vectors(ts[dl - i..dl])
  {
  }

  lemma RunGrows(ts: seq<Type>, dl: nat, i: nat, size: nat, sizestr: seq<nat>)
    requires Running(ts, dl, i, size, sizestr) && dl < |ts| && Inlineable(ts[dl])
    ensures Basic(ts[dl]) ==> Running(ts, dl + 1, i + 1, size + 1, sizestr)
    ensures !Basic(ts[dl]) ==> ts[dl].Array? && Running(ts, dl + 1, i + 1, size, sizestr + [ts[dl].n])
  {
    var a := dl - i;
    LastOf(ts, a, dl);
    assert a == dl + 1 - (i + 1);
  }

  lemma LastOf(ts: seq<Type>, a: nat, b: nat)
    requires a <= b < |ts|
    ensures var run := ts[a..b + 1]; run[..|run| - 1] == ts[a..b] && run[|run| - 1] == ts[b]
  {
  }

  /** How many scalars the fields end with. */
  function Trail(ts: seq<Type>): nat {
    if ts == [] || !Basic(ts[|ts| - 1]) then 0 else Trail(ts[..|ts| - 1]) + 1
  }

  /** Field k is a vector, or it ends a run of at least `doinline` scalars. */
  ghost predicate Worth(ts: seq<Type>, k: nat, doinline: int)
    requires k < |ts|
  {
    if Inlineable(ts[k]) then !Basic(ts[k]) else Trail(ts[..k]) >= doinline
  }

  /** Inlining is worth while; a run at the end must exceed the threshold. */
  ghost predicate WorthInlining(ts: seq<Type>, doinline: int) {
    (exists k :: 0 <= k < |ts| && Worth(ts, k, doinline)) || Trail(ts) > doinline
  }

  method CanInline(ts: seq<Type>, doinline: int) returns (can: bool)
    ensures can <==> WorthInlining(ts, doinline)
  {
    var size, k := 0, 0;
    while k < |ts|
      invariant 0 <= k <= |ts| && size == Trail(ts[..k])
      invariant forall j :: 0 <= j < k ==> !Worth(ts, j, doinline)
    {
      assert ts[..k + 1][..k] == ts[..k] && ts[..k + 1][k] == ts[k];
      if Inlineable(ts[k]) {
        if Basic(ts[k]) {
          size := size + 1;
        } else {
          assert Worth(ts, k, doinline);
          return true;
        }
      } else {
        if size >= doinline {
          assert Worth(ts, k, doinline);
          return true;
        }
        size := 0;
      }
      k := k + 1;
    }
    assert ts[..k] == ts;
    can := size > doinline;
  }

  /** emit_struct: the operations of the encode, decode and free branches. */
  method EmitStruct(ts: seq<Type>, doinline: int) returns (put: seq<Op>, get: seq<Op>, free: seq<Op>)
    ensures Emitted(put, ts, doinline, 0, |ts|) && Emitted(get, ts, doinline, 0, |ts|)
    ensures Emitted(free, ts, doinline, 0, |ts|) && forall i :: 0 <= i < |free| ==> free[i].Stat?
    ensures if doinline != 0 && WorthInlining(ts, doinline) then Thrifty(put, ts, doinline) && Thrifty(get, ts, doinline)
            else put == free && get == free
  {
    hide Emitted, Thrifty, WorthInlining;
    free := Stats(ts, doinline, 0, |ts|);
    put, get := free, free;
    if doinline != 0 {
      var can := CanInline(ts, doinline);
      if can {
        put := Walk(ts, doinline);
        get := Walk(ts, doinline);
      }
    }
  }
}
