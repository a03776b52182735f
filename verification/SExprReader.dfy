/**
 The reader and the writer as they run. g_read keeps an explicit stack of frames, each a
 function still to be called with what it has gathered so far, and hands results on through
 a global.
 */
module SExprReader {
  import opened SExpr
  import opened Options

  datatype Frame = GobF | ListF(elms: seq<Gob>) | StringF(chars: string) | SymbolF(chars: string) | IntegerF(chars: string)

  /** A frame that is waiting for a result is a list. */
  predicate Shaped(stack: seq<Frame>) {
    && (forall i :: 0 < i < |stack| ==> stack[i].ListF?)
    && (stack != [] && stack[0].IntegerF? ==> forall c :: c in stack[0].chars ==> IsDigit(c))
  }

  /** What a frame makes of a result handed to it and of the stream, by recursive descent. */
  ghost function Run(f: Frame, res: Option<Gob>, s: string): (r: Result)
    requires f.IntegerF? ==> forall c :: c in f.chars ==> IsDigit(c)
  {
    match f
    case GobF => ReadGob(s)
    case ListF(elms) => ReadList(s, Gathered(elms, res))
    case StringF(chars) => ReadString(s, chars)
    case SymbolF(chars) => ReadSymbol(s, chars)
    case IntegerF(chars) => ReadInteger(s, chars)
  }

  function Gathered(elms: seq<Gob>, res: Option<Gob>): seq<Gob> {
    if res.Some? then elms + [res.value] else elms
  }

  /** What the whole stack makes of them. */
  ghost function RunAll(stack: seq<Frame>, res: Option<Gob>, s: string): Result
    requires Shaped(stack)
    requires stack == [] ==> res.Some?
    decreases |stack|
  {
    if stack == [] then Done(res.value, s)
    else
      match Run(stack[0], res, s)
      case Fail => Fail
      case Done(g, rest) => RunAll(stack[1..], Some(g), rest)
  }

  /** How soon the frame on top reads on: a symbol may end without reading, but then the list
      below it reads, or the object it asks for does. */
  function Rank(stack: seq<Frame>): nat {
    if stack == [] then 0
    else match stack[0]
      case GobF => 1
      case StringF(_) => 1
      case ListF(_) => 2
      case _ => 3
  }

  predicate Lists(stack: seq<Frame>) {
    forall i :: 0 <= i < |stack| ==> stack[i].ListF?
  }

  lemma TopRun(f: Frame, rest: seq<Frame>, res: Option<Gob>, s: string)
    requires Lists(rest) && (f.IntegerF? ==> forall c :: c in f.chars ==> IsDigit(c))
    ensures Shaped([f] + rest) && Shaped(rest)
    ensures RunAll([f] + rest, res, s) ==
      match Run(f, res, s)
      case Fail => Fail
      case Done(g, t) => RunAll(rest, Some(g), t)
    ensures rest == [] ==> forall g, t :: RunAll(rest, Some(g), t) == Done(g, t)
  {
    hide Run;
    assert ([f] + rest)[1..] == rest;
  }

  lemma ListThenGob(elms: seq<Gob>, rest: seq<Frame>, res: Option<Gob>, s: string)
    requires Lists(rest) && s != [] && Skip(s) == s && s[0] != ')'
    ensures Shaped([GobF, ListF(elms)] + rest)
    ensures RunAll([GobF, ListF(elms)] + rest, res, s) == RunAll([ListF(elms)] + rest, None, s)
  {
    hide RunAll;
    assert [GobF, ListF(elms)] + rest == [GobF] + ([ListF(elms)] + rest);
    TopRun(GobF, [ListF(elms)] + rest, res, s);
    TopRun(ListF(elms), rest, None, s);
    if ReadGob(s).Done? {
      TopRun(ListF(elms), rest, Some(ReadGob(s).g), ReadGob(s).rest);
    }
  }

  class Reader {
    var s: string
    var stack: seq<Frame>
    var res: Option<Gob>
    var error: bool

    constructor (input: string)
      ensures s == input && stack == [] && !error
    {
      s, stack, res, error := input, [], None, false;
    }

    ghost predicate Valid()
      reads this
    {
      Shaped(stack) && (stack == [] && !error ==> res.Some?)
    }

    /** What the reader will return, or an error. */
    ghost function Meaning(): Result
      requires Valid()
      reads this
    {
      if error then Fail else RunAll(stack, res, s)
    }

    method ConsumeWhitespace()
      modifies this`s
      ensures s == Skip(old(s))
    {
      while s != []
        invariant Skip(s) == Skip(old(s))
        decreases |s|
      {
        if IsSpace(s[0]) {
          s := s[1..];
        } else if s[0] == ';' {
          ghost var c := s;
          while s != [] && s[0] != '\n' && s[0] != '\r'
            invariant SkipComment(s) == SkipComment(c) && |s| <= |c|
            decreases |s|
          {
            s := s[1..];
          }
          if s != [] {
            s := s[1..];
          }
        } else {
          return;
        }
      }
    }

    /** From frame `f` on top of `rest`, with `res0` and the stream at `s0`: the reader is
        where it would get from there, and nearer to reading on. */
    ghost predicate Stepped(f: Frame, rest: seq<Frame>, res0: Option<Gob>, s0: string)
      requires Shaped([f] + rest)
      reads this
    {
      && Valid() && Meaning() == RunAll([f] + rest, res0, s0)
      && (error || |s| < |s0| || (|s| == |s0| && Rank(stack) < Rank([f] + rest)))
    }

    method GreadString(chars: string)
      requires Lists(stack) && !error
      modifies this
      ensures Stepped(StringF(chars), old(stack), old(res), old(s))
    {
      hide RunAll;
      TopRun(StringF(chars), stack, res, s);
      if s == [] {
        error := true;
        return;
      }
      var c := s[0];
      s := s[1..];
      if c == '"' {
        res := Some(String(chars));
        return;
      }
      if c == '\\' {
        if s == [] {
          error := true;
          return;
        }
        c := if s[0] == 'n' then '\n' else s[0];
        assert old(s)[2..] == s[1..];
        s := s[1..];
      }
      TopRun(StringF(chars + [c]), stack, res, s);
      stack := [StringF(chars + [c])] + stack;
    }

    method GreadSymbol(chars: string)
      requires Lists(stack) && !error
      modifies this
      ensures Stepped(SymbolF(chars), old(stack), old(res), old(s))
    {
      hide RunAll;
      TopRun(SymbolF(chars), stack, res, s);
      if s != [] && IsSymbolChar(s[0]) {
        var c := s[0];
        s := s[1..];
        TopRun(SymbolF(chars + [ToLower(c)]), stack, res, s);
        stack := [SymbolF(chars + [ToLower(c)])] + stack;
      } else {
        res := Some(Symbol(chars));
      }
    }

    method GreadInteger(chars: string)
      requires Lists(stack) && !error && forall c :: c in chars ==> IsDigit(c)
      modifies this
      ensures Stepped(IntegerF(chars), old(stack), old(res), old(s))
    {
      hide RunAll;
      TopRun(IntegerF(chars), stack, res, s);
      if s != [] && IsDigit(s[0]) {
        var c := s[0];
        s := s[1..];
        TopRun(IntegerF(chars + [c]), stack, res, s);
        stack := [IntegerF(chars + [c])] + stack;
      } else {
        res := Some(Integer(Atol(chars)));
      }
    }

    method GreadList(elms: seq<Gob>)
      requires Lists(stack) && !error
      modifies this
      ensures Stepped(ListF(elms), old(stack), old(res), old(s))
    {
      hide RunAll;
      TopRun(ListF(elms), stack, res, s);
      var elms' := Gathered(elms, res);
      ConsumeWhitespace();
      if s == [] {
        error := true;
      } else if s[0] == ')' {
        res := Some(ListOf(elms'));
        s := s[1..];
      } else {
        SkipSkip(old(s));
        TopRun(ListF(elms'), stack, None, s);
        ListThenGob(elms', stack, res, s);
        stack := [GobF, ListF(elms')] + stack;
      }
    }

    method GreadGob()
      requires Lists(stack) && !error
      modifies this
      ensures Stepped(GobF, old(stack), old(res), old(s))
    {
      hide RunAll;
      TopRun(GobF, stack, res, s);
      ConsumeWhitespace();
      if s == [] {
        error := true;
        return;
      }
      var c := s[0];
      s := s[1..];
      if c == '(' {
        res := None;
        TopRun(ListF([]), stack, res, s);
        stack := [ListF([])] + stack;
      } else if c == ')' {
        error := true;
      } else if c == '"' {
        TopRun(StringF([]), stack, res, s);
        stack := [StringF([])] + stack;
      } else if IsDigit(c) {
        TopRun(IntegerF([c]), stack, res, s);
        stack := [IntegerF([c])] + stack;
      } else if IsSymbolChar(c) {
        TopRun(SymbolF([ToLower(c)]), stack, res, s);
        stack := [SymbolF([ToLower(c)])] + stack;
      } else {
        error := true;
      }
    }

    /** g_read: the stack machine reads just what recursive descent reads. */
    method GRead() returns (g: Option<Gob>)
      requires !error
      modifies this
      ensures ReadGob(old(s)) == match g case None => Fail case Some(x) => Done(x, s)
    {
      stack, res := [GobF], None;
      TopRun(GobF, [], None, s);
      assert [GobF] + [] == [GobF];
      while stack != [] && !error
        invariant Valid() && Meaning() == ReadGob(old(s))
        decreases !error, |s|, Rank(stack)
      {
        var f, rest := stack[0], stack[1..];
        assert stack == [f] + rest;
        stack := rest;
        match f
        case GobF => GreadGob();
        case ListF(elms) => GreadList(elms);
        case StringF(chars) => GreadString(chars);
        case SymbolF(chars) => GreadSymbol(chars);
        case IntegerF(chars) => GreadInteger(chars);
      }
      g := if error then None else res;
    }
  }

  // The writer

  lemma EscapedStep(chars: string, i: nat, out: string)
    requires i < |chars| && chars[i] != '\0'
    ensures out + Escaped(chars[i..]) == out + Escape(chars[i]) + Escaped(chars[i + 1..])
  {
    assert chars[i..][1..] == chars[i + 1..] && chars[i..][0] == chars[i];
  }

  lemma EscapedEnd(chars: string, i: nat)
    requires i <= |chars| && (i < |chars| ==> chars[i] == '\0')
    ensures Escaped(chars[i..]) == []
  {
  }

  /** gstring::fwrite */
  method FwriteString(chars: string) returns (out: string)
    ensures out == Written(String(chars))
  {
    hide Escaped;
    out := ['"'];
    var i := 0;
    assert chars[0..] == chars;
    while i < |chars| && chars[i] != '\0'
      invariant 0 <= i <= |chars| && out + Escaped(chars[i..]) == ['"'] + Escaped(chars)
    {
      ghost var before := out;
      EscapedStep(chars, i, before);
      if chars[i] == '\n' {
        out := out + ['\\', 'n'];
      } else {
        if chars[i] == '\\' || chars[i] == '"' {
          out := out + ['\\'];
        }
        out := out + [chars[i]];
      }
      assert out == before + Escape(chars[i]);
      i := i + 1;
    }
    EscapedEnd(chars, i);
    assert out + [] == out;
    out := out + ['"'];
  }

  /** What is still to be written of a list from `ob` on. */
  function ItemsFrom(ob: Gob): string
    requires Proper(ob) && (ob.Bottom? || ob.Pair?)
  {
    if ob.Bottom? then [] else WrittenItems(ob)
  }

  lemma ItemsStep(ob: Gob, out: string)
    requires Proper(ob) && ob.Pair?
    ensures Proper(ob.car) && Proper(ob.cdr) && (ob.cdr.Bottom? || ob.cdr.Pair?)
    ensures out + ItemsFrom(ob) ==
      out + Written(ob.car) + (if ob.cdr.Bottom? then [] else [' ']) + ItemsFrom(ob.cdr)
  {
    hide Written;
  }

  /** fwrite */
  method Fwrite(g: Gob) returns (out: string)
    requires Proper(g)
    ensures out == Written(g)
    decreases g, 1
  {
    hide Ld, UpToNul, Escaped, WrittenItems;
    match g
    case Bottom => out := "()";
    case Integer(n) => out := Ld(n);
    case Symbol(name) => out := UpToNul(name);
    case String(chars) => out := FwriteString(chars);
    case Pair(_, _) => out := Output(g);
  }

  /** gpair::output; the loop asserts that the list is one. */
  method Output(g: Gob) returns (out: string)
    requires Proper(g) && g.Pair?
    ensures out == ['('] + WrittenItems(g) + [')']
    decreases g, 0
  {
    hide Written, WrittenItems, Proper;
    out := ['('];
    var ob := g;
    while !ob.Bottom?
      invariant Proper(ob) && (ob.Bottom? || ob.Pair?) && (ob == g || ob < g)
      invariant out + ItemsFrom(ob) == ['('] + WrittenItems(g)
      decreases ob
    {
      assert ob.Pair?;
      ItemsStep(ob, out);
      var car := Fwrite(ob.car);
      out := out + car;
      ob := ob.cdr;
      if !ob.Bottom? {
        out := out + [' '];
      } else {
        assert out + [] == out;
      }
    }
    assert out + [] == out;
    out := out + [')'];
  }
}
