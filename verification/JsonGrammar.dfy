/**
  What the printers of `lch/util/cJSON.c` write is JSON text: the grammar of sections 2 to 7 of RFC 8259 and
  the encoding of its section 8.1, as predicates on texts of bytes.
 */
module JsonGrammar {
  import opened JsonText
  import RT = JsonRoundTrip

  // ----- Section 2: white space -----

  predicate Ws(t: string) {
    forall i :: 0 <= i < |t| ==> t[i] == ' ' || t[i] == '\t' || t[i] == '\n' || t[i] == '\r'
  }

  // ----- Section 6: numbers -----

  predicate Digits(t: string) {
    t != "" && forall i :: 0 <= i < |t| ==> '0' <= t[i] <= '9'
  }

  predicate IntPart(t: string) {
    t == "0" || (Digits(t) && t[0] != '0')
  }

  predicate Fraction(t: string) {
    t == "" || (t[0] == '.' && Digits(t[1..]))
  }

  predicate Exponent(t: string) {
    t == "" ||
    (|t| > 1 && (t[0] == 'e' || t[0] == 'E') &&
     (Digits(t[1..]) || ((t[1] == '+' || t[1] == '-') && Digits(t[2..]))))
  }

  predicate NumberText(t: string) {
    exists m: nat, i: nat, f: nat ::
      && m <= i <= f <= |t| && NumberParts(t, m, i, f)
  }

  predicate NumberParts(t: string, m: nat, i: nat, f: nat)
    requires m <= i <= f <= |t|
  {
    (t[..m] == "" || t[..m] == "-") && IntPart(t[m..i]) && Fraction(t[i..f]) && Exponent(t[f..])
  }

  // ----- Section 7: strings -----

  predicate HexText(t: string) {
    forall i :: 0 <= i < |t| ==> '0' <= t[i] <= '9' || 'a' <= t[i] <= 'f' || 'A' <= t[i] <= 'F'
  }

  /** The characters between the quotes; bytes from 128 on are parts of characters of several bytes. */
  predicate Chars(t: string) {
    t == "" ||
    (t[0] as int >= 0x20 && t[0] != '\"' && t[0] != '\\' && Chars(t[1..])) ||
    (|t| > 1 && t[0] == '\\' && t[1] in "\"\\/bfnrt" && Chars(t[2..])) ||
    (|t| > 5 && t[0] == '\\' && t[1] == 'u' && HexText(t[2..6]) && Chars(t[6..]))
  }

  predicate StringText(t: string) {
    |t| > 1 && t[0] == '\"' && t[|t| - 1] == '\"' && Chars(t[1..|t| - 1])
  }

  // ----- Sections 3 to 5: values, objects, arrays, as derivations -----

  datatype Value =
    | Literal(text: string)
    | NumberValue(text: string)
    | StringValue(text: string)
    | EmptyArray(inside: string)
    | FullArray(elements: Elements)
    | EmptyObject(inside: string)
    | FullObject(pairs: Pairs)

  /** A value with white space around it. */
  datatype Element = Element(before: string, value: Value, after: string)

  /** Values separated by commas. */
  datatype Elements = LastElement(last: Element) | MoreElements(first: Element, rest: Elements)

  /** A name, a colon and a value. */
  datatype Pair = Pair(before: string, name: string, between: string, element: Element)

  datatype Pairs = LastPair(last: Pair) | MorePairs(first: Pair, rest: Pairs)

  predicate Derives(v: Value) {
    match v
    case Literal(t) => t == "null" || t == "false" || t == "true"
    case NumberValue(t) => NumberText(t)
    case StringValue(t) => StringText(t)
    case EmptyArray(inside) => Ws(inside)
    case FullArray(elements) => DerivesElements(elements)
    case EmptyObject(inside) => Ws(inside)
    case FullObject(pairs) => DerivesPairs(pairs)
  }

  predicate DerivesElement(e: Element) {
    Ws(e.before) && Derives(e.value) && Ws(e.after)
  }

  predicate DerivesElements(es: Elements) {
    match es
    case LastElement(e) => DerivesElement(e)
    case MoreElements(e, rest) => DerivesElement(e) && DerivesElements(rest)
  }

  predicate DerivesPair(p: Pair) {
    Ws(p.before) && StringText(p.name) && Ws(p.between) && DerivesElement(p.element)
  }

  predicate DerivesPairs(ps: Pairs) {
    match ps
    case LastPair(p) => DerivesPair(p)
    case MorePairs(p, rest) => DerivesPair(p) && DerivesPairs(rest)
  }

  /** The text that is derived. */
  function Yield(v: Value): string {
    match v
    case Literal(t) => t
    case NumberValue(t) => t
    case StringValue(t) => t
    case EmptyArray(inside) => "[" + inside + "]"
    case FullArray(elements) => "[" + YieldElements(elements) + "]"
    case EmptyObject(inside) => "{" + inside + "}"
    case FullObject(pairs) => "{" + YieldPairs(pairs) + "}"
  }

  function YieldElement(e: Element): string {
    e.before + Yield(e.value) + e.after
  }

  function YieldElements(es: Elements): string {
    match es
    case LastElement(e) => YieldElement(e)
    case MoreElements(e, rest) => YieldElement(e) + "," + YieldElements(rest)
  }

  function YieldPair(p: Pair): string {
    p.before + p.name + p.between + ":" + YieldElement(p.element)
  }

  function YieldPairs(ps: Pairs): string {
    match ps
    case LastPair(p) => YieldPair(p)
    case MorePairs(p, rest) => YieldPair(p) + "," + YieldPairs(rest)
  }

  /** A JSON text: a value with white space around it. */
  ghost predicate IsJson(t: string) {
    exists e: Element :: DerivesElement(e) && YieldElement(e) == t
  }

  // ----- Building derivations -----

  lemma {:induction false} TabsAreWs(n: int)
    ensures Ws(Tabs(n))
    decreases n
  {
    if n > 0 {
      TabsAreWs(n - 1);
    }
  }

  /** White space in front of the first element. */
  lemma ElementsBehind(a: string, es: Elements) returns (r: Elements)
    requires Ws(a) && DerivesElements(es)
    ensures DerivesElements(r) && YieldElements(r) == a + YieldElements(es)
  {
    match es
    case LastElement(e) =>
      r := LastElement(e.(before := a + e.before));
      Regroup(a, e.before, Yield(e.value) + e.after);
    case MoreElements(e, rest) =>
      r := MoreElements(e.(before := a + e.before), rest);
      Regroup(a, e.before, Yield(e.value) + e.after);
  }

  lemma Regroup(a: string, b: string, c: string)
    ensures a + b + c == a + (b + c)
  {}

  lemma {:induction false} PairsAround(a: string, ps: Pairs, b: string) returns (r: Pairs)
    requires Ws(a) && DerivesPairs(ps) && Ws(b)
    ensures DerivesPairs(r) && YieldPairs(r) == a + YieldPairs(ps) + b
    decreases ps
  {
    match ps
    case LastPair(p) =>
      var q := PairAround(a, p, b);
      r := LastPair(q);
    case MorePairs(p, rest) =>
      var q := PairAround(a, p, "");
      var more := PairsAround("", rest, b);
      r := MorePairs(q, more);
      Comma(a, YieldPair(p), YieldPairs(rest), b);
  }

  lemma Comma(a: string, p: string, rest: string, b: string)
    ensures a + p + "" + "," + ("" + rest + b) == a + (p + "," + rest) + b
  {}

  lemma PairAround(a: string, p: Pair, b: string) returns (q: Pair)
    requires Ws(a) && DerivesPair(p) && Ws(b)
    ensures DerivesPair(q) && YieldPair(q) == a + YieldPair(p) + b
  {
    var e := p.element;
    q := Pair(a + p.before, p.name, p.between, Element(e.before, e.value, e.after + b));
    WsJoin(a, p.before);
    WsJoin(e.after, b);
    assert DerivesElement(q.element);
    Outer(a, p.before, p.name + p.between + ":", e.before + Yield(e.value), e.after, b);
    Inner(a + p.before, p.name, p.between, ":", YieldElement(q.element));
    Inner(p.before, p.name, p.between, ":", YieldElement(e));
  }

  lemma WsJoin(a: string, b: string)
    requires Ws(a) && Ws(b)
    ensures Ws(a + b)
  {}

  lemma Outer(a: string, x: string, y: string, z: string, u: string, b: string)
    ensures a + x + y + (z + (u + b)) == a + (x + y + (z + u)) + b
  {}

  lemma Inner(x: string, y: string, z: string, u: string, v: string)
    ensures x + y + z + u + v == x + (y + z + u) + v
  {}

  // ----- What is printed -----

  lemma {:induction false} DecimalDigits(n: nat)
    ensures Digits(Decimal(n)) && (n > 0 ==> Decimal(n)[0] != '0') && (n == 0 ==> Decimal(n) == "0")
    decreases n
  {
    if n >= 10 {
      DecimalDigits(n / 10);
    }
  }

  lemma NumberIsText(n: int)
    ensures NumberText(PrintNumber(n))
  {
    var d := Decimal(if n < 0 then -n else n);
    DecimalDigits(if n < 0 then -n else n);
    var t, m := PrintNumber(n), if n < 0 then 1 else 0;
    assert t[m..|t|] == d && t[|t|..|t|] == "" && t[|t|..] == "";
    assert NumberParts(t, m, |t|, |t|);
  }

  lemma HexDigitIsHex(d: nat)
    requires d < 16
    ensures HexText([HexDigit(d)])
  {}

  lemma EscapeIsChars(c: char, rest: string)
    requires 0 < c as int < 256 && Chars(rest)
    ensures Chars(Escape(c) + rest)
  {
    var u := Escape(c) + rest;
    if |Escape(c)| == 1 {
      assert u[1..] == rest;
    } else if |Escape(c)| == 2 {
      assert u[2..] == rest;
    } else {
      HexDigitIsHex(c as int / 16);
      HexDigitIsHex(c as int % 16);
      assert u[2..6] == "00" + [HexDigit(c as int / 16), HexDigit(c as int % 16)] && u[6..] == rest;
    }
  }

  lemma {:induction false} EscapedIsChars(s: string)
    requires Text(s)
    ensures Chars(EscapeAll(s))
    decreases |s|
  {
    if s != "" {
      EscapedIsChars(s[1..]);
      EscapeIsChars(s[0], EscapeAll(s[1..]));
    }
  }

  lemma QuoteIsString(s: string)
    requires Text(s)
    ensures StringText(Quote(s))
  {
    EscapedIsChars(s);
    var t := Quote(s);
    assert t[1..|t| - 1] == EscapeAll(s);
  }

  /** Whatever is printed, formatted or not, at any depth, is a JSON value. */
  lemma {:induction false} PrintIsValue(v: Json, depth: nat, fmt: bool) returns (d: Value)
    requires Sound(v)
    ensures Derives(d) && Yield(d) == Print(v, depth, fmt)
    decreases v, 0
  {
    match v
    case Number(n) =>
      NumberIsText(n);
      d := NumberValue(PrintNumber(n));
    case Str(s) =>
      QuoteIsString(s);
      d := StringValue(Quote(s));
    case Array(items) =>
      if items.Item? {
        var elements := ItemsAreElements(items, depth + 1, fmt);
        d := FullArray(elements);
      } else {
        d := EmptyArray("");
      }
    case Object(members) =>
      if members.Member? {
        d := ObjectIsValue(members, depth, fmt);
      } else {
        TabsAreWs(depth - 1);
        d := EmptyObject(if fmt then "\n" + Tabs(depth - 1) else "");
      }
    case _ => d := Literal(Print(v, depth, fmt));
  }

  lemma {:induction false} ObjectIsValue(members: Members, depth: nat, fmt: bool) returns (d: Value)
    requires members.Member? && SoundMembers(members)
    ensures Derives(d) && Yield(d) == Print(Object(members), depth, fmt)
    decreases members, 2
  {
    var a, b := if fmt then "\n" else "", if fmt then Tabs(depth) else "";
    var pairs := MembersArePairs(members, depth + 1, fmt);
    TabsAreWs(depth);
    pairs := PairsAround(a, pairs, b);
    d := FullObject(pairs);
    Braces(a, PrintMembers(members, depth + 1, fmt), b);
    RT.FullShape(members, depth, fmt);
  }

  lemma Braces(a: string, list: string, b: string)
    ensures "{" + (a + list + b) + "}" == "{" + a + list + b + "}"
  {}

  lemma {:induction false} ItemsAreElements(items: Items, depth: nat, fmt: bool) returns (es: Elements)
    requires items.Item? && SoundItems(items)
    ensures DerivesElements(es) && YieldElements(es) == PrintItems(items, depth, fmt)
    decreases items, 1
  {
    var v := PrintIsValue(items.value, depth, fmt);
    var e := Element("", v, "");
    assert YieldElement(e) == Print(items.value, depth, fmt);
    if items.next.Item? {
      var rest := ItemsAreElements(items.next, depth, fmt);
      rest := ElementsBehind(if fmt then " " else "", rest);
      es := MoreElements(e, rest);
      assert (if fmt then ", " else ",") == "," + (if fmt then " " else "");
      Regroup(",", if fmt then " " else "", PrintItems(items.next, depth, fmt));
    } else {
      es := LastElement(e);
    }
  }

  lemma {:induction false} MembersArePairs(members: Members, depth: nat, fmt: bool) returns (ps: Pairs)
    requires members.Member? && SoundMembers(members)
    ensures DerivesPairs(ps) && YieldPairs(ps) == PrintMembers(members, depth, fmt)
    decreases members, 1
  {
    var newline := if fmt then "\n" else "";
    var v := PrintIsValue(members.value, depth, fmt);
    if members.next.Member? {
      var p := MemberIsPair(members.name, depth, fmt, v, "");
      var rest := MembersArePairs(members.next, depth, fmt);
      rest := PairsAround(newline, rest, "");
      ps := MorePairs(p, rest);
      NextMember(PrintName(members.name, depth, fmt), Yield(v), newline, PrintMembers(members.next, depth, fmt));
    } else {
      var p := MemberIsPair(members.name, depth, fmt, v, newline);
      ps := LastPair(p);
    }
  }

  lemma NextMember(name: string, v: string, newline: string, rest: string)
    ensures name + v + "" + "," + (newline + rest + "") == name + v + ("," + newline) + rest
  {}

  lemma MemberIsPair(name: string, depth: nat, fmt: bool, v: Value, end: string) returns (p: Pair)
    requires Text(name) && Derives(v) && Ws(end)
    ensures DerivesPair(p) && YieldPair(p) == PrintName(name, depth, fmt) + Yield(v) + end
  {
    var a, b := if fmt then Tabs(depth) else "", if fmt then "\t" else "";
    TabsAreWs(depth);
    QuoteIsString(name);
    p := Pair(a, Quote(name), "", Element(b, v, end));
    assert DerivesElement(p.element);
    assert (if fmt then ":\t" else ":") == ":" + b;
    Colon(a, Quote(name), b, Yield(v), end);
  }

  lemma Colon(a: string, name: string, b: string, v: string, end: string)
    ensures a + name + "" + ":" + (b + v + end) == a + name + (":" + b) + v + end
  {}

  // ----- Section 8.1: the encoding -----

  predicate Tail(c: char) {
    0x80 <= c as int <= 0xbf
  }

  /** Well-formed UTF-8, section 4 of RFC 3629. */
  predicate Utf8(t: string) {
    t == "" ||
    (t[0] as int < 0x80 && Utf8(t[1..])) ||
    (|t| > 1 && 0xc2 <= t[0] as int <= 0xdf && Tail(t[1]) && Utf8(t[2..])) ||
    (|t| > 2 && Three(t[0] as int, t[1] as int) && Tail(t[1]) && Tail(t[2]) && Utf8(t[3..])) ||
    (|t| > 3 && Four(t[0] as int, t[1] as int) && Tail(t[1]) && Tail(t[2]) && Tail(t[3]) && Utf8(t[4..]))
  }

  predicate Three(a: int, b: int) {
    0xe0 <= a <= 0xef && (a == 0xe0 ==> b >= 0xa0) && (a == 0xed ==> b <= 0x9f)
  }

  predicate Four(a: int, b: int) {
    0xf0 <= a <= 0xf4 && (a == 0xf0 ==> b >= 0x90) && (a == 0xf4 ==> b <= 0x8f)
  }

  predicate Ascii(t: string) {
    forall i :: 0 <= i < |t| ==> t[i] as int < 0x80
  }

  lemma {:induction false} AsciiIsUtf8(a: string, t: string)
    requires Ascii(a) && Utf8(t)
    ensures Utf8(a + t)
    decreases |a|
  {
    if a == "" {
      assert a + t == t;
    } else {
      assert (a + t)[1..] == a[1..] + t;
      AsciiIsUtf8(a[1..], t);
    }
  }

  /** The length of the first character. */
  function CharLength(t: string): (n: nat)
    requires t != ""
    ensures 0 < n <= |t|
  {
    var n := if t[0] as int < 0xc0 then 1 else if t[0] as int < 0xe0 then 2 else if t[0] as int < 0xf0 then 3 else 4;
    if n <= |t| then n else |t|
  }

  lemma FirstChar(t: string)
    requires t != "" && Utf8(t)
    ensures var n := CharLength(t);
      && Utf8(t[n..]) && (n > 1 ==> forall i :: 0 <= i < n ==> 0x80 <= t[i] as int < 256)
      && (n == 1 ==> t[0] as int < 0x80)
      && forall more :: Utf8(more) ==> Utf8(t[..n] + more)
  {
    var n := CharLength(t);
    forall more | Utf8(more)
      ensures Utf8(t[..n] + more)
    {
      assert (t[..n] + more)[n..] == more;
    }
  }

  lemma {:induction false} Utf8Join(a: string, b: string)
    requires Utf8(a) && Utf8(b)
    ensures Utf8(a + b)
    decreases |a|
  {
    if a == "" {
      assert a + b == b;
    } else {
      var n := CharLength(a);
      FirstChar(a);
      Utf8Join(a[n..], b);
      assert a + b == a[..n] + (a[n..] + b);
    }
  }

  lemma EscapeAscii(c: char)
    requires 0 < c as int < 0x80
    ensures Ascii(Escape(c))
  {}

  /** Bytes of longer characters are copied as they are. */
  lemma {:induction false} EscapeCopies(a: string, s: string)
    requires forall i :: 0 <= i < |a| ==> 0x80 <= a[i] as int < 256
    ensures EscapeAll(a + s) == a + EscapeAll(s)
    decreases |a|
  {
    if a == "" {
      assert a + s == s;
    } else {
      assert (a + s)[1..] == a[1..] + s;
      EscapeCopies(a[1..], s);
      assert [a[0]] + a[1..] == a;
      Regroup([a[0]], a[1..], EscapeAll(s));
    }
  }

  lemma {:induction false} EscapedIsUtf8(s: string)
    requires Text(s) && Utf8(s)
    ensures Utf8(EscapeAll(s))
    decreases |s|
  {
    if s != "" {
      var n := CharLength(s);
      FirstChar(s);
      EscapedIsUtf8(s[n..]);
      if n == 1 {
        EscapeAscii(s[0]);
        AsciiIsUtf8(Escape(s[0]), EscapeAll(s[1..]));
      } else {
        EscapeCopies(s[..n], s[n..]);
        assert s == s[..n] + s[n..];
      }
    }
  }

  lemma AsciiAlone(a: string)
    requires Ascii(a)
    ensures Utf8(a)
  {
    AsciiIsUtf8(a, "");
    assert a + "" == a;
  }

  lemma QuoteIsUtf8(s: string)
    requires Text(s) && Utf8(s)
    ensures Utf8(Quote(s))
  {
    EscapedIsUtf8(s);
    AsciiAlone("\"");
    Utf8Join("\"", EscapeAll(s));
    Utf8Join("\"" + EscapeAll(s), "\"");
  }

  predicate Utf8Strings(v: Json) {
    match v
    case Str(s) => Utf8(s)
    case Array(items) => Utf8Items(items)
    case Object(members) => Utf8Members(members)
    case _ => true
  }

  predicate Utf8Items(items: Items) {
    items.Item? ==> Utf8Strings(items.value) && Utf8Items(items.next)
  }

  predicate Utf8Members(members: Members) {
    members.Member? ==> Utf8(members.name) && Utf8Strings(members.value) && Utf8Members(members.next)
  }

  lemma {:induction false} DecimalAscii(n: nat)
    ensures Ascii(Decimal(n))
    decreases n
  {
    if n >= 10 {
      DecimalAscii(n / 10);
    }
  }

  lemma {:induction false} TabsAscii(n: int)
    ensures Ascii(Tabs(n))
    decreases n
  {
    if n > 0 {
      TabsAscii(n - 1);
    }
  }

  lemma {:induction false} PrintIsUtf8(v: Json, depth: nat, fmt: bool)
    requires Sound(v) && Utf8Strings(v)
    ensures Utf8(Print(v, depth, fmt))
    decreases v, 0
  {
    match v
    case Number(n) =>
      DecimalAscii(if n < 0 then -n else n);
      AsciiAlone(PrintNumber(n));
    case Str(s) => QuoteIsUtf8(s);
    case Array(items) =>
      if items.Item? {
        ItemsAreUtf8(items, depth + 1, fmt);
        AsciiIsUtf8("[", PrintItems(items, depth + 1, fmt));
        AsciiAlone("]");
        Utf8Join("[" + PrintItems(items, depth + 1, fmt), "]");
      } else {
        AsciiAlone("[]");
      }
    case Object(members) =>
      if members.Member? {
        MembersAreUtf8(members, depth + 1, fmt);
        ObjectIsUtf8(members, depth, fmt);
      } else {
        TabsAscii(depth - 1);
        AsciiAlone(Print(v, depth, fmt));
      }
    case _ => AsciiAlone(Print(v, depth, fmt));
  }

  lemma ObjectIsUtf8(members: Members, depth: nat, fmt: bool)
    requires members.Member? && Utf8(PrintMembers(members, depth + 1, fmt))
    ensures Utf8(Print(Object(members), depth, fmt))
  {
    var a, b := if fmt then "\n" else "", if fmt then Tabs(depth) else "";
    TabsAscii(depth);
    RT.FullShape(members, depth, fmt);
    Braced(a, PrintMembers(members, depth + 1, fmt), b);
  }

  lemma Braced(a: string, list: string, b: string)
    requires Ascii(a) && Utf8(list) && Ascii(b)
    ensures Utf8("{" + a + list + b + "}")
  {
    AsciiIsUtf8("{" + a, list);
    AsciiAlone(b + "}");
    Utf8Join("{" + a + list, b + "}");
    Regroup("{" + a + list, b, "}");
  }

  lemma {:induction false} ItemsAreUtf8(items: Items, depth: nat, fmt: bool)
    requires items.Item? && SoundItems(items) && Utf8Items(items)
    ensures Utf8(PrintItems(items, depth, fmt))
    decreases items, 1
  {
    PrintIsUtf8(items.value, depth, fmt);
    var rest := "";
    if items.next.Item? {
      ItemsAreUtf8(items.next, depth, fmt);
      AsciiIsUtf8(if fmt then ", " else ",", PrintItems(items.next, depth, fmt));
      rest := (if fmt then ", " else ",") + PrintItems(items.next, depth, fmt);
    }
    Utf8Join(Print(items.value, depth, fmt), rest);
  }

  lemma {:induction false} MembersAreUtf8(members: Members, depth: nat, fmt: bool)
    requires SoundMembers(members) && Utf8Members(members)
    ensures Utf8(PrintMembers(members, depth, fmt))
    decreases members, 1
  {
    if members.Member? {
      var name, v := PrintName(members.name, depth, fmt), Print(members.value, depth, fmt);
      var end, rest := PrintEnd(members.next.NoMember?, fmt), PrintMembers(members.next, depth, fmt);
      NameIsUtf8(members.name, depth, fmt);
      PrintIsUtf8(members.value, depth, fmt);
      MembersAreUtf8(members.next, depth, fmt);
      AsciiAlone(end);
      Utf8Join(name, v);
      Utf8Join(name + v, end);
      Utf8Join(name + v + end, rest);
    }
  }

  lemma NameIsUtf8(name: string, depth: nat, fmt: bool)
    requires Text(name) && Utf8(name)
    ensures Utf8(PrintName(name, depth, fmt))
  {
    var a, b := if fmt then Tabs(depth) else "", if fmt then ":\t" else ":";
    TabsAscii(depth);
    QuoteIsUtf8(name);
    AsciiIsUtf8(a, Quote(name));
    AsciiAlone(b);
    Utf8Join(a + Quote(name), b);
  }

  /** The printers write JSON texts. */
  lemma PrintIsJson(v: Json, fmt: bool)
    requires Sound(v)
    ensures IsJson(Print(v, 0, fmt))
    ensures Utf8Strings(v) ==> Utf8(Print(v, 0, fmt))
  {
    var d := PrintIsValue(v, 0, fmt);
    var e := Element("", d, "");
    assert YieldElement(e) == Print(v, 0, fmt);
    if Utf8Strings(v) {
      PrintIsUtf8(v, 0, fmt);
    }
  }
}
