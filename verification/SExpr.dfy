/**
 S-expressions: the objects, the printed form `fwrite` gives them, and the language the reader
 accepts, as a recursive-descent parser.
 */
module SExpr {

  const LONG_MAX := 0x7fff_ffff_ffff_ffff

  /** unsigned long */
  type ULong = n: nat | n < 0x1_0000_0000_0000_0000

  datatype Gob = Bottom | Integer(val: ULong) | Symbol(name: string) | String(chars: string) | Pair(car: Gob, cdr: Gob)

  /** The object at the start of a stream and what follows it, or an error. */
  datatype Result = Fail | Done(g: Gob, rest: string)

  predicate IsDigit(c: char) {
    '0' <= c <= '9'
  }

  predicate IsUpper(c: char) {
    'A' <= c <= 'Z'
  }

  predicate IsSymbolChar(c: char) {
    IsDigit(c) || IsUpper(c) || 'a' <= c <= 'z' || c in "-?!*:"
  }

  predicate IsSpace(c: char) {
    c == ' ' || '\t' <= c <= '\r'
  }

  function ToLower(c: char): char {
    if IsUpper(c) then c - 'A' + 'a' else c
  }

  // The printed form

  function Decimal(n: nat): (s: string)
    ensures s != [] && forall c :: c in s ==> IsDigit(c)
  {
    if n < 10 then ['0' + n as char] else Decimal(n / 10) + ['0' + (n % 10) as char]
  }

  /** %ld of an unsigned long: from 2^63 on, a negative number. */
  function Ld(n: ULong): string {
    if n <= LONG_MAX then Decimal(n) else ['-'] + Decimal(0x1_0000_0000_0000_0000 - n)
  }

  /** What a C string shows of its bytes. */
  function UpToNul(s: string): string {
    if s == [] || s[0] == '\0' then [] else [s[0]] + UpToNul(s[1..])
  }

  function Escape(c: char): string {
    if c == '\n' then ['\\', 'n'] else if c == '\\' || c == '"' then ['\\', c] else [c]
  }

  function Escaped(s: string): string {
    if s == [] || s[0] == '\0' then [] else Escape(s[0]) + Escaped(s[1..])
  }

  /** Every chain of pairs ends in `bottom`, as the writer asserts. */
  predicate Proper(g: Gob) {
    g.Pair? ==> Proper(g.car) && Proper(g.cdr) && (g.cdr.Bottom? || g.cdr.Pair?)
  }

  function Written(g: Gob): string
    requires Proper(g)
    decreases g, 1
  {
    match g
    case Bottom => "()"
    case Integer(n) => Ld(n)
    case Symbol(name) => UpToNul(name)
    case String(chars) => ['"'] + Escaped(chars) + ['"']
    case Pair(_, _) => ['('] + WrittenItems(g) + [')']
  }

  function WrittenItems(g: Gob): string
    requires Proper(g) && g.Pair?
    decreases g, 0
  {
    Written(g.car) + if g.cdr.Bottom? then [] else [' '] + WrittenItems(g.cdr)
  }

  // The language

  function Digit(c: char): nat
    requires IsDigit(c)
  {
    c as int - '0' as int
  }

  function Digits(s: string): nat
    requires forall c :: c in s ==> IsDigit(c)
  {
    if s == [] then 0
    else assert s[|s| - 1] in s; 10 * Digits(s[..|s| - 1]) + Digit(s[|s| - 1])
  }

  /** atol of digits; it does not go beyond LONG_MAX. */
  function Atol(s: string): ULong
    requires forall c :: c in s ==> IsDigit(c)
  {
    if Digits(s) <= LONG_MAX then Digits(s) else LONG_MAX
  }

  /** The rest of a comment, through the end of its line, is passed over. */
  function SkipComment(s: string): (r: string)
    ensures |r| <= |s| && (s != [] ==> |r| < |s|)
  {
    if s == [] then [] else if s[0] == '\n' || s[0] == '\r' then s[1..] else SkipComment(s[1..])
  }

  function Skip(s: string): (r: string)
    ensures |r| <= |s|
    decreases |s|
  {
    if s == [] then []
    else if IsSpace(s[0]) then Skip(s[1..])
    else if s[0] == ';' then Skip(SkipComment(s))
    else s
  }

  lemma {:induction false} SkipSkip(s: string)
    ensures Skip(Skip(s)) == Skip(s)
    decreases |s|
  {
    if s != [] {
      if IsSpace(s[0]) {
        SkipSkip(s[1..]);
      } else if s[0] == ';' {
        SkipSkip(SkipComment(s));
      }
    }
  }

  function ReadString(s: string, chars: string): (r: Result)
    ensures r.Done? ==> |r.rest| < |s|
    decreases |s|
  {
    if s == [] then Fail
    else if s[0] == '"' then Done(String(chars), s[1..])
    else if s[0] == '\\' then
      if |s| == 1 then Fail
      else ReadString(s[2..], chars + [if s[1] == 'n' then '\n' else s[1]])
    else ReadString(s[1..], chars + [s[0]])
  }

  function ReadSymbol(s: string, chars: string): (r: Result)
    ensures r.Done? && |r.rest| <= |s|
    decreases |s|
  {
    if s != [] && IsSymbolChar(s[0]) then ReadSymbol(s[1..], chars + [ToLower(s[0])])
    else Done(Symbol(chars), s)
  }

  function ReadInteger(s: string, chars: string): (r: Result)
    requires forall c :: c in chars ==> IsDigit(c)
    ensures r.Done? && |r.rest| <= |s|
    decreases |s|
  {
    if s != [] && IsDigit(s[0]) then ReadInteger(s[1..], chars + [s[0]])
    else Done(Integer(Atol(chars)), s)
  }

  function ListOf(elms: seq<Gob>): Gob {
    if elms == [] then Bottom else Pair(elms[0], ListOf(elms[1..]))
  }

  function ReadGob(s: string): (r: Result)
    ensures r.Done? ==> |r.rest| < |s|
    decreases |s|, 0
  {
    var t := Skip(s);
    if t == [] then Fail
    else if t[0] == '(' then ReadList(t[1..], [])
    else if t[0] == ')' then Fail
    else if t[0] == '"' then ReadString(t[1..], [])
    else if IsDigit(t[0]) then ReadInteger(t[1..], [t[0]])
    else if IsSymbolChar(t[0]) then ReadSymbol(t[1..], [ToLower(t[0])])
    else Fail
  }

  function ReadList(s: string, elms: seq<Gob>): (r: Result)
    ensures r.Done? ==> |r.rest| < |s|
    decreases |s|, 1
  {
    var t := Skip(s);
    if t == [] then Fail
    else if t[0] == ')' then Done(ListOf(elms), t[1..])
    else match ReadGob(t)
      case Fail => Fail
      case Done(g, rest) => ReadList(rest, elms + [g])
  }

  // Reading what was written

  /** What can be written and read back: proper lists of strings without NUL, of lower-case
      symbols that do not start like a number, and of integers up to LONG_MAX. */
  predicate Readable(g: Gob) {
    match g
    case Bottom => true
    case Integer(n) => n <= LONG_MAX
    case Symbol(name) => name != [] && !IsDigit(name[0]) && forall c :: c in name ==> IsSymbolChar(c) && !IsUpper(c)
    case String(chars) => '\0' !in chars
    case Pair(a, d) => Readable(a) && Readable(d) && (d.Bottom? || d.Pair?)
  }

  lemma {:induction false} ReadableProper(g: Gob)
    requires Readable(g)
    ensures Proper(g)
  {
    if g.Pair? {
      ReadableProper(g.car);
      ReadableProper(g.cdr);
    }
  }

  /** What follows does not go on with a symbol or a number. */
  predicate Delimited(rest: string) {
    rest == [] || !IsSymbolChar(rest[0])
  }

  lemma {:induction false} StringBack(s: string, pre: string, rest: string)
    requires '\0' !in s
    ensures ReadString(Escaped(s) + ['"'] + rest, pre) == Done(String(pre + s), rest)
  {
    if s == [] {
      assert Escaped(s) + ['"'] + rest == ['"'] + rest;
      assert pre + s == pre;
    } else {
      assert Escaped(s) + ['"'] + rest == Escape(s[0]) + (Escaped(s[1..]) + ['"'] + rest);
      StringBack(s[1..], pre + [s[0]], rest);
      assert pre + [s[0]] + s[1..] == pre + s;
      StepString(s[0], Escaped(s[1..]) + ['"'] + rest, pre);
    }
  }

  lemma StepString(c: char, t: string, pre: string)
    ensures ReadString(Escape(c) + t, pre) == ReadString(t, pre + [c])
  {
    var s := Escape(c) + t;
    assert s[|Escape(c)|..] == t;
  }

  lemma {:induction false} SymbolBack(s: string, pre: string, rest: string)
    requires Delimited(rest) && forall c :: c in s ==> IsSymbolChar(c) && !IsUpper(c)
    ensures ReadSymbol(s + rest, pre) == Done(Symbol(pre + s), rest)
  {
    if s == [] {
      assert s + rest == rest && pre + s == pre;
    } else {
      assert (s + rest)[1..] == s[1..] + rest;
      SymbolBack(s[1..], pre + [s[0]], rest);
      assert pre + [s[0]] + s[1..] == pre + s;
    }
  }

  lemma {:induction false} IntegerBack(s: string, pre: string, rest: string)
    requires Delimited(rest) && (forall c :: c in s + pre ==> IsDigit(c))
    ensures forall c :: c in pre + s ==> IsDigit(c)
    ensures forall c :: c in pre ==> IsDigit(c)
    ensures ReadInteger(s + rest, pre) == Done(Integer(Atol(pre + s)), rest)
  {
    if s == [] {
      assert s + rest == rest && pre + s == pre;
    } else {
      assert (s + rest)[1..] == s[1..] + rest;
      IntegerBack(s[1..], pre + [s[0]], rest);
      assert pre + [s[0]] + s[1..] == pre + s;
    }
  }

  /** No number is written with a leading zero. */
  lemma {:induction false} DecimalShort(n: nat)
    ensures Decimal(n)[0] == '0' ==> n == 0 && |Decimal(n)| == 1
  {
    if n >= 10 {
      DecimalShort(n / 10);
      assert Decimal(n)[0] == Decimal(n / 10)[0];
    }
  }

  lemma {:induction false} LeadingZero(s: string)
    requires forall c :: c in s ==> IsDigit(c)
    ensures (forall c :: c in ['0'] + s ==> IsDigit(c)) && Digits(['0'] + s) == Digits(s)
  {
    if s == [] {
      assert (['0'] + s)[..0] == [] && ['0'] + s == ['0'];
    } else {
      LeadingZero(s[..|s| - 1]);
      assert (['0'] + s)[..|s|] == ['0'] + s[..|s| - 1];
    }
  }

  /** Digits stand for the number written so, leading zeros aside, up to LONG_MAX. */
  lemma AtolWritten(n: nat, s: string)
    requires forall c :: c in s ==> IsDigit(c)
    ensures Atol(Decimal(n)) == if n <= LONG_MAX then n else LONG_MAX
    ensures (forall c :: c in ['0'] + s ==> IsDigit(c)) && Atol(['0'] + s) == Atol(s)
  {
    hide Digits;
    DecimalDigits(n);
    LeadingZero(s);
  }

  lemma {:induction false} DecimalDigits(n: nat)
    ensures Digits(Decimal(n)) == n
  {
    if n >= 10 {
      DecimalDigits(n / 10);
      var s := Decimal(n);
      assert s[..|s| - 1] == Decimal(n / 10);
    } else {
      assert Decimal(n)[..0] == [];
    }
  }

  /** What is written starts with something to read. */
  lemma WrittenStart(g: Gob)
    requires Readable(g)
    ensures Proper(g) && Written(g) != []
    ensures var c := Written(g)[0]; !IsSpace(c) && c != ';' && c != ')'
  {
    ReadableProper(g);
    if g.Integer? {
      assert Decimal(g.val)[0] in Decimal(g.val);
    } else if g.Symbol? {
      UpToNulAll(g.name);
      assert g.name[0] in g.name;
    }
  }

  lemma {:induction false} UpToNulAll(s: string)
    requires '\0' !in s
    ensures UpToNul(s) == s
  {
    if s != [] {
      UpToNulAll(s[1..]);
    }
  }

  lemma BottomBack(rest: string)
    ensures ReadGob("()" + rest) == Done(Bottom, rest)
  {
    hide ReadSymbol, ReadInteger, ReadString;
    var s := "()" + rest;
    assert s[1..] == [')'] + rest && Skip(s[1..]) == s[1..];
  }

  lemma IntegerGobBack(n: ULong, rest: string)
    requires n <= LONG_MAX && Delimited(rest)
    ensures ReadGob(Decimal(n) + rest) == Done(Integer(n), rest)
  {
    hide ReadSymbol, ReadInteger, ReadString, ReadList;
    var w := Decimal(n);
    DecimalDigits(n);
    hide Decimal, Digits;
    assert w[0] in w && [w[0]] + w[1..] == w;
    var s := w + rest;
    assert s[1..] == w[1..] + rest && Skip(s) == s;
    IntegerBack(w[1..], [w[0]], rest);
  }

  lemma SymbolGobBack(name: string, rest: string)
    requires Readable(Symbol(name)) && Delimited(rest)
    ensures ReadGob(name + rest) == Done(Symbol(name), rest)
  {
    hide ReadSymbol, ReadInteger, ReadString, ReadList;
    assert name[0] in name && [name[0]] + name[1..] == name;
    var s := name + rest;
    assert s[1..] == name[1..] + rest && Skip(s) == s;
    SymbolBack(name[1..], [name[0]], rest);
  }

  lemma StringGobBack(chars: string, rest: string)
    requires '\0' !in chars
    ensures ReadGob(['"'] + Escaped(chars) + ['"'] + rest) == Done(String(chars), rest)
  {
    hide ReadSymbol, ReadInteger, ReadString, ReadList;
    var s := ['"'] + Escaped(chars) + ['"'] + rest;
    assert s[1..] == Escaped(chars) + ['"'] + rest && Skip(s) == s;
    StringBack(chars, [], rest);
    assert [] + chars == chars;
  }

  lemma AtomBack(g: Gob, rest: string)
    requires Readable(g) && !g.Pair? && Delimited(rest)
    ensures Proper(g) && ReadGob(Written(g) + rest) == Done(g, rest)
  {
    hide ReadGob, Escaped;
    match g
    case Bottom => BottomBack(rest);
    case Integer(n) => IntegerGobBack(n, rest);
    case Symbol(name) =>
      UpToNulAll(name);
      SymbolGobBack(name, rest);
    case String(chars) => StringGobBack(chars, rest);
  }

  function Elms(g: Gob): seq<Gob>
    requires g.Pair? || g.Bottom?
    requires Proper(g)
  {
    if g.Bottom? then [] else [g.car] + Elms(g.cdr)
  }

  lemma {:induction false} ListOfElms(g: Gob)
    requires Proper(g) && (g.Pair? || g.Bottom?)
    ensures ListOf(Elms(g)) == g
  {
    if g.Pair? {
      ListOfElms(g.cdr);
      assert Elms(g)[1..] == Elms(g.cdr);
    }
  }

  /** Reading what was written returns the object and what follows it. */
  lemma {:induction false} RoundTrip(g: Gob, rest: string)
    requires Readable(g) && Delimited(rest)
    ensures Proper(g) && ReadGob(Written(g) + rest) == Done(g, rest)
    decreases g, 1
  {
    hide Readable, ReadGob, ReadList;
    ReadableProper(g);
    if g.Pair? {
      ItemsBack(g, [], rest);
      assert [] + Elms(g) == Elms(g);
      ListOfElms(g);
      OpenList(WrittenItems(g) + [')'] + rest);
      assert Written(g) + rest == ['('] + (WrittenItems(g) + [')'] + rest);
    } else {
      AtomBack(g, rest);
    }
  }

  lemma OpenList(t: string)
    ensures ReadGob(['('] + t) == ReadList(t, [])
  {
    hide ReadList;
    var s := ['('] + t;
    assert Skip(s) == s && s[1..] == t;
  }

  lemma {:induction false} ItemsBack(g: Gob, elms: seq<Gob>, rest: string)
    requires Readable(g) && g.Pair?
    ensures Proper(g) && ReadList(WrittenItems(g) + [')'] + rest, elms) == Done(ListOf(elms + Elms(g)), rest)
    decreases g, 0
  {
    hide *;
    ReadableParts(g);
    WrittenStart(g.car);
    var t := AfterFirst(g, rest);
    ItemsSplit(g, elms, rest);
    RoundTrip(g.car, t);
    ListStep(Written(g.car), g.car, t, elms);
    if g.cdr.Bottom? {
      CloseList(elms + [g.car], rest);
    } else {
      ItemsBack(g.cdr, elms + [g.car], rest);
      SpaceSkipped(WrittenItems(g.cdr) + [')'] + rest, elms + [g.car]);
    }
  }

  lemma ReadableParts(g: Gob)
    requires Readable(g) && g.Pair?
    ensures Proper(g) && Readable(g.car) && Readable(g.cdr) && Proper(g.car) && Proper(g.cdr)
    ensures g.cdr.Bottom? || g.cdr.Pair?
  {
    ReadableProper(g);
  }

  function AfterFirst(g: Gob, rest: string): string
    requires Proper(g) && g.Pair?
  {
    if g.cdr.Bottom? then [')'] + rest else [' '] + (WrittenItems(g.cdr) + [')'] + rest)
  }

  lemma ItemsSplit(g: Gob, elms: seq<Gob>, rest: string)
    requires Proper(g) && g.Pair?
    ensures WrittenItems(g) + [')'] + rest == Written(g.car) + AfterFirst(g, rest)
    ensures Delimited(AfterFirst(g, rest))
    ensures g.cdr.Bottom? ==> elms + Elms(g) == elms + [g.car] && AfterFirst(g, rest) == [')'] + rest
    ensures g.cdr.Pair? ==> elms + Elms(g) == elms + [g.car] + Elms(g.cdr)
    ensures g.cdr.Pair? ==> AfterFirst(g, rest) == [' '] + (WrittenItems(g.cdr) + [')'] + rest)
  {
    hide Written;
  }

  lemma ListStep(w: string, g: Gob, t: string, elms: seq<Gob>)
    requires w != [] && !IsSpace(w[0]) && w[0] != ';' && w[0] != ')'
    requires ReadGob(w + t) == Done(g, t)
    ensures ReadList(w + t, elms) == ReadList(t, elms + [g])
  {
    hide ReadGob;
    assert Skip(w + t) == w + t;
  }

  lemma CloseList(elms: seq<Gob>, rest: string)
    ensures ReadList([')'] + rest, elms) == Done(ListOf(elms), rest)
  {
    hide ReadGob;
    assert Skip([')'] + rest) == [')'] + rest;
  }

  lemma SpaceSkipped(t: string, elms: seq<Gob>)
    ensures ReadList([' '] + t, elms) == ReadList(t, elms)
  {
    assert Skip([' '] + t) == Skip(t);
  }

  // What the reader can return

  lemma {:induction false} SkipSuffix(s: string)
    requires '\0' !in s
    ensures '\0' !in Skip(s)
    decreases |s|
  {
    if s != [] {
      if IsSpace(s[0]) {
        SkipSuffix(s[1..]);
      } else if s[0] == ';' {
        CommentSuffix(s);
        SkipSuffix(SkipComment(s));
      }
    }
  }

  lemma {:induction false} CommentSuffix(s: string)
    requires '\0' !in s
    ensures '\0' !in SkipComment(s)
  {
    if s != [] && s[0] != '\n' && s[0] != '\r' {
      CommentSuffix(s[1..]);
    }
  }

  ghost predicate Good(r: Result) {
    r.Done? ==> Readable(r.g) && '\0' !in r.rest
  }

  lemma {:induction false} StringGood(s: string, chars: string)
    requires '\0' !in s && '\0' !in chars
    ensures Good(ReadString(s, chars))
    decreases |s|
  {
    if s != [] && s[0] != '"' {
      if s[0] == '\\' {
        if |s| > 1 {
          StringGood(s[2..], chars + [if s[1] == 'n' then '\n' else s[1]]);
        }
      } else {
        StringGood(s[1..], chars + [s[0]]);
      }
    }
  }

  lemma {:induction false} SymbolGood(s: string, chars: string)
    requires '\0' !in s && Readable(Symbol(chars))
    ensures Good(ReadSymbol(s, chars))
    decreases |s|
  {
    if s != [] && IsSymbolChar(s[0]) {
      SymbolGood(s[1..], chars + [ToLower(s[0])]);
    }
  }

  lemma {:induction false} IntegerGood(s: string, chars: string)
    requires '\0' !in s && (forall c :: c in chars ==> IsDigit(c))
    ensures Good(ReadInteger(s, chars))
    decreases |s|
  {
    if s != [] && IsDigit(s[0]) {
      IntegerGood(s[1..], chars + [s[0]]);
    }
  }

  lemma {:induction false} ListReadable(elms: seq<Gob>)
    requires forall g :: g in elms ==> Readable(g)
    ensures Readable(ListOf(elms))
  {
    if elms != [] {
      ListReadable(elms[1..]);
    }
  }

  /** From a stream without NUL the reader returns only objects that can be read back. */
  lemma {:induction false} GobGood(s: string)
    requires '\0' !in s
    ensures Good(ReadGob(s))
    decreases |s|, 0
  {
    SkipSuffix(s);
    var t := Skip(s);
    if t != [] && t[0] != ')' {
      if t[0] == '(' {
        ListGood(t[1..], []);
      } else if t[0] == '"' {
        StringGood(t[1..], []);
      } else if IsDigit(t[0]) {
        IntegerGood(t[1..], [t[0]]);
      } else if IsSymbolChar(t[0]) {
        SymbolGood(t[1..], [ToLower(t[0])]);
      }
    }
  }

  lemma {:induction false} ListGood(s: string, elms: seq<Gob>)
    requires '\0' !in s && forall g :: g in elms ==> Readable(g)
    ensures Good(ReadList(s, elms))
    decreases |s|, 1
  {
    SkipSuffix(s);
    var t := Skip(s);
    if t != [] && t[0] == ')' {
      ListReadable(elms);
    } else if t != [] {
      GobGood(t);
      if ReadGob(t).Done? {
        ListGood(ReadGob(t).rest, elms + [ReadGob(t).g]);
      }
    }
  }

  lemma {:induction false} WrittenNoNul(g: Gob)
    requires Proper(g)
    ensures '\0' !in Written(g) && (g.Pair? ==> '\0' !in WrittenItems(g))
  {
    match g
    case Bottom =>
    case Integer(_) =>
    case Symbol(name) => UpToNulNoNul(name);
    case String(chars) => UpToNulNoNul(chars);
    case Pair(a, d) =>
      WrittenNoNul(a);
      WrittenNoNul(d);
  }

  lemma {:induction false} UpToNulNoNul(s: string)
    ensures '\0' !in UpToNul(s) && '\0' !in Escaped(s)
  {
    if s != [] && s[0] != '\0' {
      UpToNulNoNul(s[1..]);
    }
  }

  /** An object that can be written is read back just when it is one of the readable ones: not
      from 2^63 on, not in upper case, not with a NUL. */
  lemma ReadBackIff(g: Gob)
    requires Proper(g)
    ensures ReadGob(Written(g)) == Done(g, []) <==> Readable(g)
  {
    WrittenNoNul(g);
    GobGood(Written(g));
    if Readable(g) {
      RoundTrip(g, []);
      assert Written(g) + [] == Written(g);
    }
  }

  /** Past LONG_MAX an integer comes back as a symbol, and a symbol in upper case as another. */
  lemma NotReadBack()
    ensures ReadGob(Written(Integer(0xffff_ffff_ffff_ffff))) == Done(Symbol("-1"), [])
    ensures ReadGob(Written(Symbol("A"))) == Done(Symbol("a"), [])
  {
    assert Written(Integer(0xffff_ffff_ffff_ffff)) == "-1";
    SymbolBack("1", "-", []);
    assert "1" + [] == "1" && "-" + "1" == "-1";
    assert UpToNul("A") == "A" by { UpToNulAll("A"); }
    assert "A"[1..] == [];
  }
}
