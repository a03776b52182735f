/**
 The texts the reader takes, by their syntax: white space and comments, numbers, names, quoted
 strings and lists. A text is read as an object exactly if it is spelled in one of these ways.
 */
module SExprSyntax {
  import opened SExpr

  /** A character of a string, as itself or after a backslash. */
  datatype Part = Plain(c: char) | Slashed(c: char)

  datatype Syntax = Number(digits: string) | Name(chars: string) | Quoted(parts: seq<Part>) | List(items: Items)

  /** The inside of a list; white space and comments come before every element and before the end. */
  datatype Items = End(blank: string) | Item(blank: string, first: Syntax, rest: Items)

  const NEWLINES := "\n\r"
  const BLANKS := " \t\n\U{B}\U{C}\r"

  /** White space, and comments from a semicolon to the end of the line. */
  ghost predicate Blank(w: string) {
    || w == []
    || (w[0] in BLANKS && Blank(w[1..]))
    || (w[0] == ';' && exists k :: CommentEnds(w, k) && Blank(w[k + 1..]))
  }

  /** The line that starts the text ends at `k`. */
  ghost predicate CommentEnds(w: string, k: int) {
    0 < k < |w| && w[k] in NEWLINES && forall i :: 0 < i < k ==> w[i] !in NEWLINES
  }

  ghost predicate WellSpelled(x: Syntax) {
    match x
    case Number(digits) => digits != [] && forall c :: c in digits ==> c in "0123456789"
    case Name(chars) =>
      chars != [] && chars[0] !in "0123456789" && forall c :: c in chars ==> 'a' <= c <= 'z' || 'A' <= c <= 'Z' || c in "0123456789-?!*:"
    case Quoted(parts) => forall p :: p in parts && p.Plain? ==> p.c != '"' && p.c != '\\'
    case List(items) => WellListed(items)
  }

  ghost predicate WellListed(xs: Items) {
    Blank(xs.blank) && (xs.Item? ==> WellSpelled(xs.first) && WellListed(xs.rest))
  }

  function PartText(p: Part): string {
    if p.Plain? then [p.c] else ['\\', p.c]
  }

  function PartMean(p: Part): char {
    if p == Slashed('n') then '\n' else p.c
  }

  function PartsText(parts: seq<Part>): string {
    if parts == [] then [] else PartText(parts[0]) + PartsText(parts[1..])
  }

  function PartsMean(parts: seq<Part>): string {
    if parts == [] then [] else [PartMean(parts[0])] + PartsMean(parts[1..])
  }

  /** How it is spelled ... */
  function Text(x: Syntax): string {
    match x
    case Number(digits) => digits
    case Name(chars) => chars
    case Quoted(parts) => ['"'] + PartsText(parts) + ['"']
    case List(items) => ['('] + ItemsText(items)
  }

  function ItemsText(xs: Items): string {
    match xs
    case End(blank) => blank + [')']
    case Item(blank, first, rest) => blank + Text(first) + ItemsText(rest)
  }

  function Lower(s: string): string {
    seq(|s|, i requires 0 <= i < |s| => ToLower(s[i]))
  }

  /** ... and what it means. */
  ghost function Mean(x: Syntax): Gob
    requires WellSpelled(x)
  {
    match x
    case Number(digits) => Integer(Atol(digits))
    case Name(chars) => Symbol(Lower(chars))
    case Quoted(parts) => String(PartsMean(parts))
    case List(items) => ListOf(ItemsMean(items))
  }

  ghost function ItemsMean(xs: Items): seq<Gob>
    requires WellListed(xs)
  {
    if xs.End? then [] else [Mean(xs.first)] + ItemsMean(xs.rest)
  }

  /** What follows does not go on with it, nor, within a list, an element with the one before. */
  ghost predicate Apart(x: Syntax, rest: string) {
    match x
    case Number(_) => rest == [] || rest[0] !in "0123456789"
    case Name(_) => rest == [] || !IsSymbolChar(rest[0])
    case Quoted(_) => true
    case List(items) => AllApart(items)
  }

  ghost predicate AllApart(xs: Items) {
    xs.Item? ==> Apart(xs.first, ItemsText(xs.rest)) && AllApart(xs.rest)
  }

  // ----- White space

  lemma BlankIs(c: char)
    ensures IsSpace(c) <==> c in BLANKS
    ensures c in NEWLINES <==> c == '\n' || c == '\r'
  {
  }

  lemma {:induction false} CommentSkipped(w: string, k: int, s: string)
    requires CommentEnds(w, k) || (k == 0 < |w| && w[0] in NEWLINES)
    requires k > 0 ==> w[0] !in NEWLINES
    ensures SkipComment(w + s) == w[k + 1..] + s
    decreases k
  {
    if k > 0 {
      assert (w + s)[1..] == w[1..] + s;
      CommentSkipped(w[1..], k - 1, s);
      assert w[1..][k..] == w[k + 1..];
    } else {
      assert (w + s)[1..] == w[1..] + s;
    }
  }

  /** White space and comments before anything are passed over ... */
  lemma {:induction false} BlankSkipped(w: string, s: string)
    requires Blank(w)
    ensures Skip(w + s) == Skip(s)
    decreases |w|
  {
    if w == [] {
      assert w + s == s;
    } else if w[0] in BLANKS {
      BlankIs(w[0]);
      assert (w + s)[1..] == w[1..] + s;
      BlankSkipped(w[1..], s);
    } else {
      var k :| CommentEnds(w, k) && Blank(w[k + 1..]);
      CommentSkipped(w, k, s);
      BlankSkipped(w[k + 1..], s);
    }
  }

  lemma BlankMore(c: char, v: string)
    requires c in BLANKS && Blank(v)
    ensures Blank([c] + v)
  {
    assert ([c] + v)[1..] == v;
  }

  lemma BlankComment(s: string, k: int, v: string)
    requires s != [] && s[0] == ';' && CommentEnds(s, k) && Blank(v)
    ensures Blank(s[..k + 1] + v)
  {
    var w := s[..k + 1] + v;
    assert w[k + 1..] == v;
    assert CommentEnds(w, k);
  }

  lemma SpaceStep(s: string, v: string)
    requires s != [] && IsSpace(s[0]) && Skip(s) != []
    requires Blank(v) && s[1..] == v + Skip(s[1..])
    ensures Skip(s) == Skip(s[1..]) && Blank([s[0]] + v) && s == [s[0]] + v + Skip(s)
  {
    hide Blank;
    assert Skip(s) == Skip(s[1..]);
    hide Skip;
    BlankIs(s[0]);
    BlankMore(s[0], v);
    Consed(s, v, Skip(s));
  }

  lemma Consed(s: string, v: string, t: string)
    requires s != [] && s[1..] == v + t
    ensures s == [s[0]] + v + t
  {
    assert s == [s[0]] + s[1..];
  }

  lemma CommentStep(s: string, v: string) returns (w: string)
    requires s != [] && s[0] == ';' && Skip(s) != []
    requires Blank(v) && SkipComment(s) == v + Skip(SkipComment(s))
    ensures Skip(s) == Skip(SkipComment(s)) && Blank(w) && s == w + Skip(s)
  {
    hide Blank;
    var k := CommentFound(s);
    w := s[..k + 1] + v;
    BlankComment(s, k, v);
    assert s == s[..k + 1] + s[k + 1..];
  }

  /** ... and nothing else is, except a last comment that no line end follows. */
  lemma {:induction false} SkippedBlank(s: string) returns (w: string)
    ensures Skip(s) != [] ==> Blank(w) && s == w + Skip(s) && Skip(s)[0] !in BLANKS && Skip(s)[0] != ';'
    decreases |s|
  {
    hide Blank;
    w := [];
    if Skip(s) != [] {
      if IsSpace(s[0]) {
        var v := SkippedBlank(s[1..]);
        SpaceStep(s, v);
        w := [s[0]] + v;
      } else if s[0] == ';' {
        var v := SkippedBlank(SkipComment(s));
        w := CommentStep(s, v);
      } else {
        BlankIs(s[0]);
        NoBlank();
      }
    }
  }

  lemma NoBlank()
    ensures Blank([]) && forall s: string :: [] + s == s
  {
  }

  lemma {:induction false} CommentFound(s: string) returns (k: int)
    requires s != [] && SkipComment(s) != []
    ensures 0 <= k < |s| && s[k] in NEWLINES && (forall i :: 0 <= i < k ==> s[i] !in NEWLINES) && SkipComment(s) == s[k + 1..]
    decreases |s|
  {
    BlankIs(s[0]);
    if s[0] in NEWLINES {
      k := 0;
    } else {
      var j := CommentFound(s[1..]);
      k := j + 1;
      assert forall i :: 0 < i < k ==> s[i] == s[1..][i - 1];
    }
  }

  // ----- Strings, names and numbers

  lemma PartStep(p: Part, t: string, pre: string)
    requires p.Plain? ==> p.c != '"' && p.c != '\\'
    ensures ReadString(PartText(p) + t, pre) == ReadString(t, pre + [PartMean(p)])
  {
    assert (PartText(p) + t)[|PartText(p)|..] == t;
  }

  lemma PartsSplit(p: Part, ps: seq<Part>, pre: string, rest: string)
    ensures PartsText([p] + ps) + ['"'] + rest == PartText(p) + (PartsText(ps) + ['"'] + rest)
    ensures pre + PartsMean([p] + ps) == pre + [PartMean(p)] + PartsMean(ps)
  {
    assert ([p] + ps)[1..] == ps;
    assert PartsText([p] + ps) == PartText(p) + PartsText(ps) && PartsMean([p] + ps) == [PartMean(p)] + PartsMean(ps);
    hide PartText, PartMean, PartsText, PartsMean;
    Joined(PartText(p), PartsText(ps), rest);
    assert pre + ([PartMean(p)] + PartsMean(ps)) == pre + [PartMean(p)] + PartsMean(ps);
  }

  lemma Joined(a: string, b: string, rest: string)
    ensures a + b + ['"'] + rest == a + (b + ['"'] + rest)
  {
  }

  lemma PartsNone(pre: string, rest: string)
    ensures PartsText([]) + ['"'] + rest == ['"'] + rest && (['"'] + rest)[1..] == rest && pre + PartsMean([]) == pre
  {
  }

  lemma {:induction false} PartsRead(parts: seq<Part>, pre: string, rest: string)
    requires WellSpelled(Quoted(parts))
    ensures ReadString(PartsText(parts) + ['"'] + rest, pre) == Done(String(pre + PartsMean(parts)), rest)
  {
    hide PartText, PartMean, PartsText, PartsMean;
    if parts == [] {
      PartsNone(pre, rest);
    } else {
      hide ReadString;
      var p, ps := parts[0], parts[1..];
      assert parts == [p] + ps && p in parts;
      PartsSplit(p, ps, pre, rest);
      PartStep(p, PartsText(ps) + ['"'] + rest, pre);
      PartsRead(ps, pre + [PartMean(p)], rest);
    }
  }

  lemma FirstPart(s: string, pre: string) returns (p: Part, t: string)
    requires ReadString(s, pre).Done? && s[0] != '"'
    ensures s == PartText(p) + t && |t| < |s| && (p.Plain? ==> p.c != '"' && p.c != '\\')
  {
    p := if s[0] == '\\' then Slashed(s[1]) else Plain(s[0]);
    t := s[|PartText(p)|..];
  }

  lemma MorePart(p: Part, ps: seq<Part>)
    requires WellSpelled(Quoted(ps)) && (p.Plain? ==> p.c != '"' && p.c != '\\')
    ensures WellSpelled(Quoted([p] + ps))
  {
  }

  lemma {:induction false} StringSpelled(s: string, pre: string) returns (parts: seq<Part>)
    requires ReadString(s, pre).Done?
    ensures WellSpelled(Quoted(parts)) && s == PartsText(parts) + ['"'] + ReadString(s, pre).rest
    ensures ReadString(s, pre).g == String(pre + PartsMean(parts))
    decreases |s|
  {
    hide PartText, PartMean, PartsText, PartsMean;
    if s[0] == '"' {
      parts := [];
      PartsNone(pre, s[1..]);
    } else {
      hide ReadString, WellSpelled;
      var p, t := FirstPart(s, pre);
      PartStep(p, t, pre);
      var ps := StringSpelled(t, pre + [PartMean(p)]);
      parts := [p] + ps;
      MorePart(p, ps);
      PartsSplit(p, ps, pre, ReadString(s, pre).rest);
    }
  }

  lemma {:induction false} NameRead(chars: string, pre: string, rest: string)
    requires (forall c :: c in chars ==> IsSymbolChar(c)) && (rest == [] || !IsSymbolChar(rest[0]))
    ensures ReadSymbol(chars + rest, pre) == Done(Symbol(pre + Lower(chars)), rest)
  {
    if chars == [] {
      assert chars + rest == rest && pre + Lower(chars) == pre;
    } else {
      assert (chars + rest)[1..] == chars[1..] + rest;
      NameRead(chars[1..], pre + [ToLower(chars[0])], rest);
      assert pre + [ToLower(chars[0])] + Lower(chars[1..]) == pre + Lower(chars);
    }
  }

  lemma {:induction false} NameSpelled(s: string, pre: string) returns (chars: string)
    ensures (forall c :: c in chars ==> IsSymbolChar(c)) && s == chars + ReadSymbol(s, pre).rest
    ensures ReadSymbol(s, pre).g == Symbol(pre + Lower(chars))
    ensures ReadSymbol(s, pre).rest == [] || !IsSymbolChar(ReadSymbol(s, pre).rest[0])
    decreases |s|
  {
    chars := [];
    if s != [] && IsSymbolChar(s[0]) {
      var cs := NameSpelled(s[1..], pre + [ToLower(s[0])]);
      chars := [s[0]] + cs;
      assert pre + [ToLower(s[0])] + Lower(cs) == pre + Lower(chars);
    } else {
      assert pre + Lower([]) == pre;
    }
  }

  lemma {:induction false} NumberRead(digits: string, pre: string, rest: string)
    requires (forall c :: c in digits + pre ==> IsDigit(c)) && (rest == [] || !IsDigit(rest[0]))
    ensures forall c :: c in pre + digits ==> IsDigit(c)
    ensures forall c :: c in pre ==> IsDigit(c)
    ensures ReadInteger(digits + rest, pre) == Done(Integer(Atol(pre + digits)), rest)
  {
    if digits == [] {
      assert digits + rest == rest && pre + digits == pre;
    } else {
      assert (digits + rest)[1..] == digits[1..] + rest;
      NumberRead(digits[1..], pre + [digits[0]], rest);
      assert pre + [digits[0]] + digits[1..] == pre + digits;
    }
  }

  /** One step of reading a number. */
  lemma DigitStep(s: string, pre: string)
    requires s != [] && IsDigit(s[0]) && forall c :: c in pre ==> IsDigit(c)
    ensures (forall c :: c in pre + [s[0]] ==> IsDigit(c)) && ReadInteger(s, pre) == ReadInteger(s[1..], pre + [s[0]])
  {
    hide Atol;
  }

  lemma {:induction false} NumberSpelled(s: string, pre: string) returns (digits: string)
    requires forall c :: c in pre ==> IsDigit(c)
    ensures (forall c :: c in pre + digits ==> IsDigit(c)) && s == digits + ReadInteger(s, pre).rest
    ensures ReadInteger(s, pre).g == Integer(Atol(pre + digits))
    ensures ReadInteger(s, pre).rest == [] || !IsDigit(ReadInteger(s, pre).rest[0])
    decreases |s|
  {
    hide Atol;
    if s != [] && IsDigit(s[0]) {
      DigitStep(s, pre);
      hide ReadInteger;
      var ds := NumberSpelled(s[1..], pre + [s[0]]);
      digits := [s[0]] + ds;
      assert pre + [s[0]] + ds == pre + digits;
      assert s == [s[0]] + s[1..];
    } else {
      digits := [];
      assert pre + [] == pre;
    }
  }

  // ----- Objects

  lemma DigitIs(c: char)
    ensures IsDigit(c) <==> c in "0123456789"
    ensures IsSymbolChar(c) <==> 'a' <= c <= 'z' || 'A' <= c <= 'Z' || c in "0123456789-?!*:"
  {
  }

  lemma SpellingIs(x: Syntax)
    requires WellSpelled(x)
    ensures x.Number? ==> x.digits != [] && forall c :: c in x.digits ==> IsDigit(c)
    ensures x.Name? ==> x.chars != [] && !IsDigit(x.chars[0]) && forall c :: c in x.chars ==> IsSymbolChar(c)
  {
    if x.Number? {
      forall c | c in x.digits ensures IsDigit(c) { DigitIs(c); }
    } else if x.Name? {
      DigitIs(x.chars[0]);
      forall c | c in x.chars ensures IsSymbolChar(c) { DigitIs(c); }
    }
  }

  lemma TextStart(x: Syntax)
    requires WellSpelled(x)
    ensures Text(x) != [] && !IsSpace(Text(x)[0]) && Text(x)[0] != ';' && Text(x)[0] != ')'
  {
    hide PartsText, ItemsText, WellListed;
    SpellingIs(x);
    if x.Number? {
      assert x.digits[0] in x.digits;
    } else if x.Name? {
      assert x.chars[0] in x.chars;
    }
  }

  lemma AtomRead(x: Syntax, rest: string)
    requires WellSpelled(x) && Apart(x, rest) && !x.List?
    ensures ReadGob(Text(x) + rest) == Done(Mean(x), rest)
  {
    hide ReadString, ReadSymbol, ReadInteger, ReadList, PartsText, PartsMean, Atol, Lower;
    TextStart(x);
    SpellingIs(x);
    var t := Text(x) + rest;
    assert Skip(t) == t && t[0] == Text(x)[0];
    match x
    case Number(d) =>
      assert d[0] in d && t[1..] == d[1..] + rest && [d[0]] + d[1..] == d;
      if rest != [] { DigitIs(rest[0]); }
      NumberRead(d[1..], [d[0]], rest);
    case Name(cs) =>
      assert cs[0] in cs && t[1..] == cs[1..] + rest;
      NameRead(cs[1..], [ToLower(cs[0])], rest);
      LowerFirst(cs);
    case Quoted(parts) =>
      assert t[1..] == PartsText(parts) + ['"'] + rest;
      PartsRead(parts, [], rest);
      assert [] + PartsMean(parts) == PartsMean(parts);
  }

  lemma LowerFirst(cs: string)
    requires cs != []
    ensures [ToLower(cs[0])] + Lower(cs[1..]) == Lower(cs)
  {
  }

  lemma SameSkip(s: string, t: string, elms: seq<Gob>)
    requires Skip(s) == Skip(t)
    ensures ReadGob(s) == ReadGob(t) && ReadList(s, elms) == ReadList(t, elms)
  {
  }

  lemma ApartMore(x: Syntax, p: string, q: string)
    requires p != []
    ensures Apart(x, p + q) <==> Apart(x, p)
  {
    assert (p + q)[0] == p[0];
  }

  lemma ItemsTextStart(xs: Items)
    ensures ItemsText(xs) != []
  {
    hide Text;
    if xs.Item? {
      ItemsTextStart(xs.rest);
    }
  }

  /** Whatever is spelled right is read, and means what it should ... */
  lemma {:induction false} SpelledRead(w: string, x: Syntax, rest: string)
    requires Blank(w) && WellSpelled(x) && Apart(x, rest)
    ensures ReadGob(w + Text(x) + rest) == Done(Mean(x), rest)
    decreases x, 1
  {
    hide *;
    BlankSkipped(w, Text(x) + rest);
    assert w + Text(x) + rest == w + (Text(x) + rest);
    SameSkip(w + (Text(x) + rest), Text(x) + rest, []);
    if x.List? {
      ListParts(x, rest);
      ItemsRead(x.items, [], rest);
      OpenList(ItemsText(x.items) + rest);
    } else {
      AtomRead(x, rest);
    }
  }

  lemma ListParts(x: Syntax, rest: string)
    requires WellSpelled(x) && x.List? && Apart(x, rest)
    ensures WellListed(x.items) && AllApart(x.items)
    ensures Text(x) + rest == ['('] + (ItemsText(x.items) + rest)
    ensures [] + ItemsMean(x.items) == ItemsMean(x.items) && Mean(x) == ListOf(ItemsMean(x.items))
  {
  }

  lemma ItemParts(xs: Items, elms: seq<Gob>, rest: string)
    requires WellListed(xs) && AllApart(xs) && xs.Item?
    ensures WellSpelled(xs.first) && WellListed(xs.rest) && AllApart(xs.rest) && Blank(xs.blank)
    ensures Apart(xs.first, ItemsText(xs.rest) + rest)
    ensures ItemsText(xs) + rest == xs.blank + (Text(xs.first) + (ItemsText(xs.rest) + rest))
    ensures elms + ItemsMean(xs) == elms + [Mean(xs.first)] + ItemsMean(xs.rest)
  {
    ItemsTextStart(xs.rest);
    ApartMore(xs.first, ItemsText(xs.rest), rest);
    hide Text, Mean, Apart;
  }

  lemma EndParts(xs: Items, elms: seq<Gob>, rest: string)
    requires WellListed(xs) && xs.End?
    ensures Blank(xs.blank) && ItemsText(xs) + rest == xs.blank + ([')'] + rest) && elms + ItemsMean(xs) == elms
  {
  }

  lemma {:induction false} ItemsRead(xs: Items, elms: seq<Gob>, rest: string)
    requires WellListed(xs) && AllApart(xs)
    ensures ReadList(ItemsText(xs) + rest, elms) == Done(ListOf(elms + ItemsMean(xs)), rest)
    decreases xs, 0
  {
    hide *;
    if xs.End? {
      EndParts(xs, elms, rest);
      BlankSkipped(xs.blank, [')'] + rest);
      SameSkip(xs.blank + ([')'] + rest), [')'] + rest, elms);
      CloseList(elms, rest);
    } else {
      ItemParts(xs, elms, rest);
      var more := ItemsText(xs.rest) + rest;
      BlankSkipped(xs.blank, Text(xs.first) + more);
      SameSkip(xs.blank + (Text(xs.first) + more), Text(xs.first) + more, elms);
      NoBlank();
      SpelledRead([], xs.first, more);
      assert [] + Text(xs.first) + more == Text(xs.first) + more;
      TextStart(xs.first);
      ListStep(Text(xs.first), Mean(xs.first), more, elms);
      ItemsRead(xs.rest, elms + [Mean(xs.first)], rest);
    }
  }

  lemma AtomSpelled(t: string) returns (x: Syntax)
    requires ReadGob(t).Done? && Skip(t) == t && t[0] != '('
    ensures WellSpelled(x) && Apart(x, ReadGob(t).rest) && t == Text(x) + ReadGob(t).rest && Mean(x) == ReadGob(t).g
  {
    hide ReadString, ReadSymbol, ReadInteger, ReadList, PartsText, PartsMean, Atol, Lower;
    if t[0] == '"' {
      x := QuotedSpelled(t);
    } else if IsDigit(t[0]) {
      x := NumberFound(t);
    } else {
      x := NameFound(t);
    }
  }

  lemma QuotedSpelled(t: string) returns (x: Syntax)
    requires t != [] && t[0] == '"' && ReadString(t[1..], []).Done?
    ensures x.Quoted? && WellSpelled(x) && t == Text(x) + ReadString(t[1..], []).rest && Mean(x) == ReadString(t[1..], []).g
  {
    hide ReadString, PartsText, PartsMean;
    var parts := StringSpelled(t[1..], []);
    x := Quoted(parts);
    assert t == ['"'] + t[1..];
    assert [] + PartsMean(parts) == PartsMean(parts);
  }

  lemma NumberFound(t: string) returns (x: Syntax)
    requires t != [] && IsDigit(t[0])
    ensures x.Number? && WellSpelled(x) && Apart(x, ReadInteger(t[1..], [t[0]]).rest)
    ensures t == Text(x) + ReadInteger(t[1..], [t[0]]).rest && Mean(x) == ReadInteger(t[1..], [t[0]]).g
  {
    hide ReadInteger, Atol;
    var ds := NumberSpelled(t[1..], [t[0]]);
    x := Number([t[0]] + ds);
    assert t == [t[0]] + t[1..];
    forall c | c in x.digits ensures c in "0123456789" { DigitIs(c); }
    var rest := ReadInteger(t[1..], [t[0]]).rest;
    if rest != [] { DigitIs(rest[0]); }
  }

  lemma NameFound(t: string) returns (x: Syntax)
    requires t != [] && IsSymbolChar(t[0]) && !IsDigit(t[0])
    ensures x.Name? && WellSpelled(x) && Apart(x, ReadSymbol(t[1..], [ToLower(t[0])]).rest)
    ensures t == Text(x) + ReadSymbol(t[1..], [ToLower(t[0])]).rest && Mean(x) == ReadSymbol(t[1..], [ToLower(t[0])]).g
  {
    hide ReadSymbol, Lower;
    var cs := NameSpelled(t[1..], [ToLower(t[0])]);
    x := Name([t[0]] + cs);
    assert t == [t[0]] + t[1..] && x.chars[1..] == cs;
    LowerFirst(x.chars);
    DigitIs(t[0]);
    forall c | c in x.chars ensures 'a' <= c <= 'z' || 'A' <= c <= 'Z' || c in "0123456789-?!*:" { DigitIs(c); }
  }

  /** The object after white space and comments. */
  lemma GobSkips(s: string)
    ensures Skip(Skip(s)) == Skip(s) && ReadGob(s) == ReadGob(Skip(s))
    ensures ReadGob(s).Done? ==> Skip(s) != []
  {
    SkipSkip(s);
    SameSkip(s, Skip(s), []);
  }

  /** ... and whatever is read was spelled so. */
  lemma {:induction false} ReadSpelled(s: string) returns (w: string, x: Syntax)
    requires ReadGob(s).Done?
    ensures Blank(w) && WellSpelled(x) && Apart(x, ReadGob(s).rest)
    ensures s == w + Text(x) + ReadGob(s).rest && Mean(x) == ReadGob(s).g
    decreases |s|, 0
  {
    hide *;
    GobSkips(s);
    w := SkippedBlank(s);
    var t := Skip(s);
    if t[0] == '(' {
      assert t == ['('] + t[1..];
      OpenList(t[1..]);
      SkipShorter(s);
      var xs := ListSpelled(t[1..], []);
      x := List(xs);
      ListWhole(xs, ReadGob(s).rest);
    } else {
      x := AtomSpelled(t);
    }
    assert s == w + (Text(x) + ReadGob(s).rest);
  }

  lemma SkipShorter(s: string)
    ensures |Skip(s)| <= |s|
  {
  }

  lemma ListWhole(xs: Items, rest: string)
    requires WellListed(xs) && AllApart(xs)
    ensures var x := List(xs);
      && WellSpelled(x) && Apart(x, rest) && Text(x) + rest == ['('] + (ItemsText(xs) + rest)
      && Mean(x) == ListOf(ItemsMean(xs)) && [] + ItemsMean(xs) == ItemsMean(xs)
  {
    hide ItemsText, ItemsMean, WellListed, AllApart;
  }

  lemma ListSkips(s: string, elms: seq<Gob>)
    requires ReadList(s, elms).Done?
    ensures var t := Skip(s);
      && t != [] && |t| <= |s| && Skip(t) == t
      && (t[0] == ')' ==> ReadList(s, elms) == Done(ListOf(elms), t[1..]))
      && (t[0] != ')' ==> ReadGob(t).Done? && ReadList(s, elms) == ReadList(ReadGob(t).rest, elms + [ReadGob(t).g])
                          && |ReadGob(t).rest| < |t|)
  {
    SkipSkip(s);
    hide ReadGob;
  }

  lemma EndWhole(w: string, rest: string)
    requires Blank(w)
    ensures var xs := End(w);
      WellListed(xs) && AllApart(xs) && w + ([')'] + rest) == ItemsText(xs) + rest && ItemsMean(xs) == []
  {
  }

  lemma ItemWhole(w: string, x: Syntax, xs: Items, rest: string)
    requires Blank(w) && WellSpelled(x) && WellListed(xs) && AllApart(xs) && Apart(x, ItemsText(xs) + rest)
    ensures var ys := Item(w, x, xs);
      && WellListed(ys) && AllApart(ys) && ItemsMean(ys) == [Mean(x)] + ItemsMean(xs)
      && w + (Text(x) + (ItemsText(xs) + rest)) == ItemsText(ys) + rest
  {
    hide Text, Mean, Apart, WellSpelled;
    ItemsTextStart(xs);
    ApartMore(x, ItemsText(xs), rest);
  }

  lemma {:induction false} ListSpelled(s: string, elms: seq<Gob>) returns (xs: Items)
    requires ReadList(s, elms).Done?
    ensures WellListed(xs) && AllApart(xs) && s == ItemsText(xs) + ReadList(s, elms).rest
    ensures ReadList(s, elms).g == ListOf(elms + ItemsMean(xs))
    decreases |s|, 1
  {
    hide *;
    ListSkips(s, elms);
    var w := SkippedBlank(s);
    var t := Skip(s);
    if t[0] == ')' {
      xs := End(w);
      EndWhole(w, t[1..]);
      assert t == [')'] + t[1..];
      assert elms + [] == elms;
    } else {
      var v, x := ReadSpelled(t);
      var r := ReadGob(t);
      var ys := ListSpelled(r.rest, elms + [r.g]);
      BlankJoin(w, v);
      xs := Item(w + v, x, ys);
      ItemWhole(w + v, x, ys, ReadList(s, elms).rest);
      assert elms + [r.g] + ItemsMean(ys) == elms + ([r.g] + ItemsMean(ys));
      assert s == (w + v) + (Text(x) + r.rest);
    }
  }

  lemma BlankAfterComment(w: string) returns (k: int)
    requires Blank(w) && w != [] && w[0] !in BLANKS
    ensures w[0] == ';' && CommentEnds(w, k) && Blank(w[k + 1..])
  {
    k :| CommentEnds(w, k) && Blank(w[k + 1..]);
  }

  lemma BlankTail(w: string)
    requires Blank(w) && w != [] && w[0] in BLANKS
    ensures Blank(w[1..])
  {
  }

  /** Blank text after blank text is blank. */
  lemma {:induction false} BlankJoin(w: string, v: string)
    requires Blank(w) && Blank(v)
    ensures Blank(w + v)
    decreases |w|
  {
    hide Blank;
    if w == [] {
      assert w + v == v;
    } else if w[0] in BLANKS {
      BlankTail(w);
      BlankJoin(w[1..], v);
      BlankMore(w[0], w[1..] + v);
      assert w + v == [w[0]] + (w[1..] + v);
    } else {
      var k := BlankAfterComment(w);
      BlankJoin(w[k + 1..], v);
      BlankComment(w, k, w[k + 1..] + v);
      assert w + v == w[..k + 1] + (w[k + 1..] + v);
    }
  }

  /** The stream starts with a spelling of `g`, and `rest` follows it. */
  ghost predicate Spelled(s: string, g: Gob, rest: string) {
    exists w, x :: Blank(w) && WellSpelled(x) && Apart(x, rest) && s == w + Text(x) + rest && Mean(x) == g
  }

  /** The reader returns an object, and what follows it, exactly if the stream starts with a spelling
      of it. */
  lemma ReadIff(s: string, g: Gob, rest: string)
    ensures ReadGob(s) == Done(g, rest) <==> Spelled(s, g, rest)
  {
    hide ReadGob, Blank, WellSpelled, Apart, Text, Mean;
    if ReadGob(s) == Done(g, rest) {
      var w, x := ReadSpelled(s);
    }
    if Spelled(s, g, rest) {
      var w, x :| Blank(w) && WellSpelled(x) && Apart(x, rest) && s == w + Text(x) + rest && Mean(x) == g;
      SpelledRead(w, x, rest);
    }
  }

  // ----- What is written

  /** Quotes, backslashes and line ends are written after a backslash, all else as it is. */
  function PartOf(c: char): Part {
    if c == '\n' then Slashed('n') else if c == '"' || c == '\\' then Slashed(c) else Plain(c)
  }

  function PartsOf(s: string): seq<Part> {
    seq(|s|, i requires 0 <= i < |s| => PartOf(s[i]))
  }

  /** The spelling of an object: no white space but one space between elements. */
  function Spelling(g: Gob): Syntax
    requires Proper(g)
    decreases g, 2
  {
    match g
    case Bottom => List(End(""))
    case Integer(n) => Number(Decimal(n))
    case Symbol(name) => Name(name)
    case String(chars) => Quoted(PartsOf(chars))
    case Pair(_, _) => List(ItemsOf(g, ""))
  }

  function ItemsOf(g: Gob, blank: string): Items
    requires Proper(g) && g.Pair?
    decreases g, 1
  {
    Item(blank, Spelling(g.car), if g.cdr.Bottom? then End("") else ItemsOf(g.cdr, " "))
  }

  lemma {:induction false} EscapedParts(s: string)
    requires '\0' !in s
    ensures Escaped(s) == PartsText(PartsOf(s)) && PartsMean(PartsOf(s)) == s
  {
    if s != [] {
      EscapedParts(s[1..]);
      assert PartsOf(s)[1..] == PartsOf(s[1..]);
    }
  }

  lemma SymbolText(name: string)
    requires Readable(Symbol(name))
    ensures Written(Symbol(name)) == name
  {
    UpToNulAll(name);
  }

  /** What is written is that spelling, and is on one line. */
  lemma {:induction false} WrittenSpelling(g: Gob)
    requires Readable(g)
    ensures Proper(g) && Written(g) == Text(Spelling(g)) && '\n' !in Written(g)
    decreases g, 2
  {
    ReadableProper(g);
    if g.Pair? {
      WrittenItemsSpelling(g, "");
      PairSpelling(g);
    } else {
      AtomSpelling(g);
    }
  }

  lemma PairSpelling(g: Gob)
    requires Proper(g) && g.Pair? && "" + WrittenItems(g) + [')'] == ItemsText(ItemsOf(g, "")) && '\n' !in WrittenItems(g)
    ensures Written(g) == Text(Spelling(g)) && '\n' !in Written(g)
  {
    assert Written(g) == ['('] + WrittenItems(g) + [')'];
    assert Text(Spelling(g)) == ['('] + ItemsText(ItemsOf(g, ""));
    hide WrittenItems, ItemsText, ItemsOf, Written, Text, Spelling;
    var w := WrittenItems(g);
    assert ['('] + w + [')'] == ['('] + ("" + w + [')']);
  }

  lemma AtomSpelling(g: Gob)
    requires Readable(g) && Proper(g) && !g.Pair?
    ensures Written(g) == Text(Spelling(g)) && '\n' !in Written(g)
  {
    hide Decimal, Escaped, PartsText, PartsOf, UpToNul;
    match g
    case Bottom => assert "()" == ['('] + ([] + [')']);
    case Integer(n) =>
    case Symbol(name) => SymbolText(name);
    case String(chars) =>
      EscapedParts(chars);
      EscapedOneLine(chars);
  }

  lemma {:induction false} EscapedOneLine(s: string)
    ensures '\n' !in Escaped(s)
  {
    if s != [] && s[0] != '\0' {
      EscapedOneLine(s[1..]);
    }
  }

  lemma {:induction false} WrittenItemsSpelling(g: Gob, blank: string)
    requires Readable(g) && g.Pair?
    ensures Proper(g) && blank + WrittenItems(g) + [')'] == ItemsText(ItemsOf(g, blank)) && '\n' !in WrittenItems(g)
    decreases g, 1
  {
    ReadableParts(g);
    WrittenSpelling(g.car);
    if g.cdr.Pair? {
      WrittenItemsSpelling(g.cdr, " ");
    }
    hide Written, Text, Spelling;
    ItemsJoin(g, blank);
  }

  lemma ItemsJoin(g: Gob, blank: string)
    requires Proper(g) && g.Pair? && Written(g.car) == Text(Spelling(g.car))
    requires g.cdr.Pair? ==> " " + WrittenItems(g.cdr) + [')'] == ItemsText(ItemsOf(g.cdr, " "))
    ensures blank + WrittenItems(g) + [')'] == ItemsText(ItemsOf(g, blank))
  {
    hide Written, Text, Spelling;
    var w := Written(g.car);
    if g.cdr.Bottom? {
      assert blank + (w + []) + [')'] == blank + w + ([] + [')']);
    } else {
      assert blank + (w + ([' '] + WrittenItems(g.cdr))) + [')'] == blank + w + (" " + WrittenItems(g.cdr) + [')']);
    }
  }
}
