/**
  Parsing what was printed.  The parser takes more than the grammar of RFC 8259 allows (leading zeros, other
  control characters as white space); that the printers stay within the grammar is shown on its own.
 */
module JsonRoundTrip {
  import opened JsonText

  // ----- Regrouping -----

  lemma Regroup2(a: string, b: string, c: string)
    ensures a + b + c == a + (b + c)
  {}

  lemma Regroup3(a: string, b: string, c: string, d: string)
    ensures a + b + c + d == a + (b + c + d)
  {}

  lemma Regroup5(n: string, v: string, e: string, r: string, end: string, more: string)
    ensures n + v + e + r + end + "}" + more == n + (v + (e + (r + end + "}" + more)))
  {}

  // ----- Strings -----

  lemma HexBack(d: nat)
    requires d < 16
    ensures Hex(HexDigit(d)) == Ok(d, "")
  {}

  /** One escaped byte is read back as that byte. */
  lemma EscapeBack(c: char, t: string)
    requires 0 < c as int < 256
    ensures ReadInside(Escape(c) + t) == Before([c], ReadInside(t))
  {
    if |Escape(c)| == 1 {
      assert ([c] + t)[1..] == t;
    } else if |Escape(c)| == 2 {
      PairBack(c, t);
    } else {
      ControlBack(c, t);
    }
  }

  lemma PairBack(c: char, t: string)
    requires |Escape(c)| == 2
    ensures ReadInside(Escape(c) + t) == Before([c], ReadInside(t))
  {
    var d := Escape(c)[1];
    assert Escape(c) == ['\\', d] && d != 'u' && Unescaped(d) == c;
    BackslashRead(d, t);
  }

  lemma BackslashRead(d: char, t: string)
    requires d != 'u'
    ensures ReadInside(['\\', d] + t) == Before([Unescaped(d)], ReadInside(t))
  {
    var u := ['\\', d] + t;
    assert u[0] == '\\' && u[1] == d && u[2..] == t;
  }

  lemma ControlBack(c: char, t: string)
    requires 0 < c as int <= 31 && |Escape(c)| == 6
    ensures ReadInside(Escape(c) + t) == Before([c], ReadInside(t))
  {
    var u := Escape(c) + t;
    var code := u[2..];
    assert code == "00" + [HexDigit(c as int / 16), HexDigit(c as int % 16)] + t;
    HexBack(0);
    HexBack(c as int / 16);
    HexBack(c as int % 16);
    assert Hex4(code) == c as int;
    assert code[4..] == t;
    assert ReadUnicode(code) == Ok([c], t);
  }

  lemma {:induction false} InsideBack(s: string, more: string)
    requires Text(s)
    ensures ReadInside(EscapeAll(s) + "\"" + more) == Ok(s, more)
    decreases |s|
  {
    if s == "" {
      assert EscapeAll(s) + "\"" + more == "\"" + more;
    } else {
      InsideBack(s[1..], more);
      InsideStep(s[0], EscapeAll(s[1..]), s[1..], more);
      assert s == [s[0]] + s[1..];
    }
  }

  lemma InsideStep(c: char, inner: string, s: string, more: string)
    requires 0 < c as int < 256 && ReadInside(inner + "\"" + more) == Ok(s, more)
    ensures ReadInside(Escape(c) + inner + "\"" + more) == Ok([c] + s, more)
  {
    EscapeBack(c, inner + "\"" + more);
    Regroup3(Escape(c), inner, "\"", more);
  }

  lemma StringBack(s: string, more: string)
    requires Text(s)
    ensures ReadString(Quote(s) + more) == Ok(s, more)
  {
    InsideBack(s, more);
    assert (Quote(s) + more)[1..] == EscapeAll(s) + "\"" + more;
  }

  // ----- Numbers -----

  /** Nothing that a number could go on with. */
  predicate Delimited(t: string) {
    t != "" ==> !('0' <= t[0] <= '9') && t[0] != '.' && t[0] != 'e' && t[0] != 'E'
  }

  predicate Digits(s: string) {
    forall i :: 0 <= i < |s| ==> '0' <= s[i] <= '9'
  }

  lemma {:induction false} DigitsJoin(a: string, d: nat, more: string, acc: nat)
    requires Digits(a) && d < 10
    ensures ReadDigits(a + [Digit(d)] + more, acc) == ReadDigits(more, 10 * ReadDigits(a, acc).0 + d)
    ensures ReadDigits(a, acc).1 == ""
    decreases |a|
  {
    if a == "" {
      assert (a + [Digit(d)] + more)[1..] == more;
    } else {
      DigitsJoin(a[1..], d, more, acc * 10 + (a[0] - '0') as nat);
      assert (a + [Digit(d)] + more)[1..] == a[1..] + [Digit(d)] + more;
    }
  }

  lemma {:induction false} DecimalBack(n: nat, more: string)
    requires !IsDigit(more)
    ensures Digits(Decimal(n)) && Decimal(n) != "" && ReadDigits(Decimal(n) + more, 0) == (n, more)
    ensures Decimal(n)[0] == '0' <==> n == 0
  {
    if n < 10 {
      assert ([Digit(n)] + more)[1..] == more;
    } else {
      DecimalBack(n / 10, "");
      assert Decimal(n / 10) + "" == Decimal(n / 10);
      DigitsJoin(Decimal(n / 10), n % 10, more, 0);
    }
  }

  lemma NumberBack(n: int, more: string)
    requires INT_MIN <= n <= INT_MAX && Delimited(more)
    ensures ReadValue(PrintNumber(n) + more) == Ok(Number(n), more)
  {
    if n < 0 {
      DecimalBack(-n, more);
      Signed(-n, Decimal(-n), more);
      Regroup2("-", Decimal(-n), more);
      IsNumber("-" + (Decimal(-n) + more));
    } else {
      DecimalBack(n, more);
      SingleZero(n);
      Unsigned(n, Decimal(n), more);
      IsNumber(Decimal(n) + more);
    }
  }

  lemma SingleZero(n: nat)
    ensures |Decimal(n)| > 0 && (Decimal(n)[0] == '0' ==> Decimal(n) == "0" && n == 0)
  {
    DecimalBack(n, "");
  }

  lemma IsNumber(t: string)
    requires Starts(t, '-') || IsDigit(t)
    ensures ReadValue(t) == ReadNumber(t)
  {}

  lemma Unsigned(n: nat, d: string, more: string)
    requires n <= INT_MAX && Delimited(more) && Digits(d) && d != ""
    requires ReadDigits(d + more, 0) == (n, more) && (d[0] == '0' ==> d == "0" && n == 0)
    ensures IsDigit(d + more) && ReadNumber(d + more) == Ok(Number(n), more)
  {
    if d[0] == '0' {
      assert (d + more)[1..] == more;
    }
  }

  lemma Signed(n: nat, d: string, more: string)
    requires 0 < n <= -INT_MIN && Delimited(more) && Digits(d) && d != "" && d[0] != '0'
    requires ReadDigits(d + more, 0) == (n, more)
    ensures ReadNumber("-" + (d + more)) == Ok(Number(-(n as int)), more)
  {
    assert ("-" + (d + more))[1..] == d + more;
  }

  // ----- White space -----

  predicate Blank(s: string) {
    forall i :: 0 <= i < |s| ==> 0 < s[i] as int <= 32
  }

  lemma {:induction false} SkipBlank(s: string, t: string)
    requires Blank(s)
    ensures Skip(s + t) == Skip(t)
    decreases |s|
  {
    if s == "" {
      assert s + t == t;
    } else {
      SkipBlank(s[1..], t);
      assert (s + t)[1..] == s[1..] + t;
    }
  }

  lemma {:induction false} TabsBlank(n: int)
    ensures Blank(Tabs(n))
  {
    if n > 0 {
      TabsBlank(n - 1);
    }
  }

  /** A text that starts with something visible. */
  predicate Visible(t: string) {
    t != "" && t[0] as int > 32
  }

  lemma PrintVisible(v: Json, depth: nat, fmt: bool, more: string)
    ensures Visible(Print(v, depth, fmt) + more) && (Print(v, depth, fmt) + more)[0] != ']'
    ensures Skip(Print(v, depth, fmt) + more) == Print(v, depth, fmt) + more
  {
    if v.Number? {
      DecimalBack(if v.n < 0 then -v.n else v.n, "");
    }
  }

  // ----- Values -----

  /** Parsing a printed value, formatted or not, gives the value back and stops right behind it. */
  lemma {:induction false} ValueBack(v: Json, depth: nat, fmt: bool, more: string)
    requires Sound(v) && Delimited(more)
    ensures ReadValue(Print(v, depth, fmt) + more) == Ok(v, more)
    decreases v, 0
  {
    var t := Print(v, depth, fmt) + more;
    match v
    case Null => assert t[4..] == more && "null" <= t;
    case False =>
      assert t[0] == 'f' && t[5..] == more && "false" <= t;
    case True =>
      assert t[0] == 't' && t[4..] == more && "true" <= t;
    case Number(n) => NumberBack(n, more);
    case Str(s) => StringBack(s, more);
    case Array(items) => ArrayBack(items, depth, fmt, more);
    case Object(members) => ObjectBack(members, depth, fmt, more);
  }

  /** How the parser goes on after one item. */
  lemma LastItem(t: string, v: Json, tail: string)
    requires ReadValue(Skip(t)) == Ok(v, "]" + tail)
    ensures ReadItems(t) == Ok(Item(v, NoItem), tail)
  {
    assert ("]" + tail)[1..] == tail;
  }

  lemma OneItem(t: string, v: Json, rest: string, items: Items, tail: string)
    requires ReadValue(Skip(t)) == Ok(v, "," + rest) && ReadItems(rest) == Ok(items, tail)
    ensures ReadItems(t) == Ok(Item(v, items), tail)
  {
    assert ("," + rest)[1..] == rest;
  }

  lemma ItemsAfterGap(gap: string, t: string)
    requires Blank(gap)
    ensures ReadItems(gap + t) == ReadItems(t)
  {
    SkipBlank(gap, t);
  }

  lemma ArrayOf(inner: string, items: Items, more: string)
    requires ReadItems(inner) == Ok(items, more) && Skip(inner) == inner && !Starts(inner, ']')
    ensures ReadValue("[" + inner) == Ok(Array(items), more)
  {
    var t := "[" + inner;
    assert t[0] == '[' && t[1..] == inner;
    assert ReadArray(t) == Ok(items, more);
  }

  lemma EmptyArray(more: string)
    ensures ReadValue("[]" + more) == Ok(Array(NoItem), more)
  {
    var t := "[]" + more;
    assert t[0] == '[' && t[1..][0] == ']' && t[1..][1..] == more;
    assert ReadArray(t) == Ok(NoItem, more);
  }

  lemma ArrayBack(items: Items, depth: nat, fmt: bool, more: string)
    requires SoundItems(items)
    ensures ReadValue(Print(Array(items), depth, fmt) + more) == Ok(Array(items), more)
    decreases items, 2
  {
    if items.NoItem? {
      EmptyArray(more);
    } else {
      FullArray(items, depth, fmt, more);
      ArrayShape(items, depth, fmt);
    }
  }

  lemma FullArray(items: Items, depth: nat, fmt: bool, more: string)
    requires items.Item? && SoundItems(items)
    ensures ReadValue("[" + PrintItems(items, depth + 1, fmt) + "]" + more) == Ok(Array(items), more)
    decreases items, 1
  {
    var list := PrintItems(items, depth + 1, fmt);
    ItemsBack(items, depth + 1, fmt, more);
    ItemsVisible(items, depth + 1, fmt, "]" + more);
    Regroup2(list, "]", more);
    ArrayOf(list + "]" + more, items, more);
    assert "[" + list + "]" + more == "[" + (list + "]" + more);
  }

  lemma ArrayShape(items: Items, depth: nat, fmt: bool)
    requires items.Item?
    ensures Print(Array(items), depth, fmt) == "[" + PrintItems(items, depth + 1, fmt) + "]"
  {}

  lemma ItemsVisible(items: Items, depth: nat, fmt: bool, more: string)
    requires items.Item?
    ensures var t := PrintItems(items, depth, fmt) + more; Visible(t) && t[0] != ']' && Skip(t) == t
  {
    PrintVisible(items.value, depth, fmt, "");
    assert Print(items.value, depth, fmt) + "" == Print(items.value, depth, fmt);
  }

  lemma {:induction false} ItemsBack(items: Items, depth: nat, fmt: bool, more: string)
    requires items.Item? && SoundItems(items)
    ensures ReadItems(PrintItems(items, depth, fmt) + "]" + more) == Ok(items, more)
    decreases items, 0
  {
    var first := Print(items.value, depth, fmt);
    var t := PrintItems(items, depth, fmt) + "]" + more;
    if items.next.NoItem? {
      assert t == first + ("]" + more);
      ValueBack(items.value, depth, fmt, "]" + more);
      PrintVisible(items.value, depth, fmt, "]" + more);
      LastItem(t, items.value, more);
    } else {
      var rest := PrintItems(items.next, depth, fmt) + "]" + more;
      var gap := if fmt then " " else "";
      assert t == first + ("," + (gap + rest));
      ValueBack(items.value, depth, fmt, "," + (gap + rest));
      PrintVisible(items.value, depth, fmt, "," + (gap + rest));
      ItemsBack(items.next, depth, fmt, more);
      ItemsAfterGap(gap, rest);
      OneItem(t, items.value, gap + rest, items.next, more);
    }
  }

  // ----- Objects -----

  lemma MembersAfterGap(gap: string, t: string)
    requires Blank(gap)
    ensures ReadMembers(gap + t) == ReadMembers(t)
  {
    SkipBlank(gap, t);
  }

  /** A name, its colon and the value behind it. */
  lemma NameThen(t: string, name: string, gap: string, text: string)
    requires ReadString(Skip(t)) == Ok(name, ":" + (gap + text)) && Blank(gap) && Skip(text) == text
    ensures Skip(":" + (gap + text)) == ":" + (gap + text)
    ensures Skip((":" + (gap + text))[1..]) == text
  {
    assert (":" + (gap + text))[1..] == gap + text;
    SkipBlank(gap, text);
  }

  lemma LastMember(t: string, name: string, gap: string, text: string, v: Json, end: string, tail: string)
    requires ReadString(Skip(t)) == Ok(name, ":" + (gap + text)) && Blank(gap) && Skip(text) == text
    requires ReadValue(text) == Ok(v, end + ("}" + tail)) && Blank(end)
    ensures ReadMembers(t) == Ok(Member(name, v, NoMember), tail)
  {
    NameThen(t, name, gap, text);
    SkipBlank(end, "}" + tail);
    assert ("}" + tail)[1..] == tail;
  }

  lemma OneMember(t: string, name: string, gap: string, text: string, v: Json, rest: string,
                  members: Members, tail: string)
    requires ReadString(Skip(t)) == Ok(name, ":" + (gap + text)) && Blank(gap) && Skip(text) == text
    requires ReadValue(text) == Ok(v, "," + rest) && ReadMembers(rest) == Ok(members, tail)
    ensures ReadMembers(t) == Ok(Member(name, v, members), tail)
  {
    NameThen(t, name, gap, text);
    assert ("," + rest)[1..] == rest;
  }

  lemma NameBack(name: string, depth: nat, fmt: bool, text: string)
    requires Text(name)
    ensures var gap := if fmt then "\t" else "";
      ReadString(Skip(PrintName(name, depth, fmt) + text)) == Ok(name, ":" + (gap + text))
    ensures Skip(PrintName(name, depth, fmt) + text)[0] == '\"'
  {
    var gap := if fmt then "\t" else "";
    var indent := if fmt then Tabs(depth) else "";
    var quoted := Quote(name) + (":" + (gap + text));
    TabsBlank(depth);
    assert PrintName(name, depth, fmt) + text == indent + quoted;
    SkipBlank(indent, quoted);
    StringBack(name, ":" + (gap + text));
  }

  lemma {:induction false} MembersBack(members: Members, depth: nat, fmt: bool, close: nat, more: string)
    requires members.Member? && SoundMembers(members)
    ensures var end := if fmt then Tabs(close) else "";
      ReadMembers(PrintMembers(members, depth, fmt) + end + "}" + more) == Ok(members, more)
    decreases members, 0
  {
    var end := if fmt then Tabs(close) else "";
    var tail := PrintEnd(members.next.NoMember?, fmt) + (PrintMembers(members.next, depth, fmt) + end + "}" + more);
    Regroup5(PrintName(members.name, depth, fmt), Print(members.value, depth, fmt),
             PrintEnd(members.next.NoMember?, fmt), PrintMembers(members.next, depth, fmt), end, more);
    NameBack(members.name, depth, fmt, Print(members.value, depth, fmt) + tail);
    PrintVisible(members.value, depth, fmt, tail);
    if members.next.NoMember? {
      LastBack(members, depth, fmt, close, more);
    } else {
      MembersBack(members.next, depth, fmt, close, more);
      OneBack(members, depth, fmt, PrintMembers(members.next, depth, fmt) + end + "}" + more, more);
    }
  }

  lemma LastBack(members: Members, depth: nat, fmt: bool, close: nat, more: string)
    requires members.Member? && members.next.NoMember? && SoundMembers(members)
    ensures var end := if fmt then Tabs(close) else "";
      ReadMembers(PrintName(members.name, depth, fmt) +
        (Print(members.value, depth, fmt) + (PrintEnd(true, fmt) + ("" + end + "}" + more)))) == Ok(members, more)
    decreases members.value, 1
  {
    var gap := if fmt then "\t" else "";
    var blank := PrintEnd(true, fmt) + (if fmt then Tabs(close) else "");
    TabsBlank(close);
    var tail := blank + ("}" + more);
    var text := Print(members.value, depth, fmt) + tail;
    assert tail == PrintEnd(true, fmt) + ("" + (if fmt then Tabs(close) else "") + "}" + more);
    NameBack(members.name, depth, fmt, text);
    ValueBack(members.value, depth, fmt, tail);
    PrintVisible(members.value, depth, fmt, tail);
    LastMember(PrintName(members.name, depth, fmt) + text, members.name, gap, text, members.value, blank, more);
  }

  lemma OneBack(members: Members, depth: nat, fmt: bool, rest: string, more: string)
    requires members.Member? && members.next.Member? && SoundMembers(members)
    requires ReadMembers(rest) == Ok(members.next, more)
    ensures ReadMembers(PrintName(members.name, depth, fmt) +
              (Print(members.value, depth, fmt) + (PrintEnd(false, fmt) + rest))) == Ok(members, more)
    decreases members.value, 1
  {
    var gap := if fmt then "\t" else "";
    var newline := if fmt then "\n" else "";
    var tail := "," + (newline + rest);
    var text := Print(members.value, depth, fmt) + tail;
    assert tail == PrintEnd(false, fmt) + rest;
    NameBack(members.name, depth, fmt, text);
    ValueBack(members.value, depth, fmt, tail);
    PrintVisible(members.value, depth, fmt, tail);
    MembersAfterGap(newline, rest);
    OneMember(PrintName(members.name, depth, fmt) + text, members.name, gap, text, members.value,
              newline + rest, members.next, more);
  }

  lemma {:induction false} SkipTwice(t: string)
    ensures Skip(Skip(t)) == Skip(t)
    decreases |t|
  {
    if t != "" {
      SkipTwice(t[1..]);
    }
  }

  lemma MembersSkipped(t: string)
    ensures ReadMembers(Skip(t)) == ReadMembers(t)
  {
    SkipTwice(t);
  }

  lemma MembersStart(members: Members, depth: nat, fmt: bool, more: string)
    requires members.Member? && SoundMembers(members)
    ensures Starts(Skip(PrintMembers(members, depth, fmt) + more), '\"')
  {
    var name, value := PrintName(members.name, depth, fmt), Print(members.value, depth, fmt);
    var end, rest := PrintEnd(members.next.NoMember?, fmt), PrintMembers(members.next, depth, fmt);
    FirstOfFour(name, value, end, rest, more);
    NameBack(members.name, depth, fmt, value + end + rest + more);
  }

  lemma FirstOfFour(a: string, b: string, c: string, d: string, e: string)
    ensures a + b + c + d + e == a + (b + c + d + e)
  {}

  lemma ObjectOf(open: string, inner: string, members: Members, more: string)
    requires Blank(open) && ReadMembers(inner) == Ok(members, more) && Starts(Skip(inner), '\"')
    ensures ReadValue("{" + open + inner) == Ok(Object(members), more)
  {
    var t := "{" + open + inner;
    assert t[1..] == open + inner;
    SkipBlank(open, inner);
    MembersSkipped(inner);
    ObjectRead(t, members, more);
  }

  lemma ObjectRead(t: string, members: Members, more: string)
    requires Starts(t, '{') && ReadMembers(Skip(t[1..])) == Ok(members, more) && Starts(Skip(t[1..]), '\"')
    ensures ReadValue(t) == Ok(Object(members), more)
  {
    assert ReadObject(t) == Ok(members, more);
  }

  lemma EmptyObject(open: string, more: string)
    requires Blank(open)
    ensures ReadValue("{" + open + "}" + more) == Ok(Object(NoMember), more)
  {
    var t := "{" + open + "}" + more;
    assert t[0] == '{' && t[1..] == open + ("}" + more);
    SkipBlank(open, "}" + more);
    assert ("}" + more)[1..] == more;
    assert ReadObject(t) == Ok(NoMember, more);
  }

  lemma ObjectBack(members: Members, depth: nat, fmt: bool, more: string)
    requires SoundMembers(members)
    ensures ReadValue(Print(Object(members), depth, fmt) + more) == Ok(Object(members), more)
    decreases members, 2
  {
    var open := if fmt then "\n" else "";
    if members.NoMember? {
      var indent := open + (if fmt then Tabs(depth - 1) else "");
      TabsBlank(depth - 1);
      EmptyObject(indent, more);
      EmptyShape(depth, fmt);
    } else {
      FullObject(members, depth, fmt, more);
      FullShape(members, depth, fmt);
    }
  }

  lemma FullObject(members: Members, depth: nat, fmt: bool, more: string)
    requires members.Member? && SoundMembers(members)
    ensures var open, end := if fmt then "\n" else "", if fmt then Tabs(depth) else "";
      ReadValue("{" + open + PrintMembers(members, depth + 1, fmt) + end + "}" + more) == Ok(Object(members), more)
    decreases members, 1
  {
    var open, end := if fmt then "\n" else "", if fmt then Tabs(depth) else "";
    var list := PrintMembers(members, depth + 1, fmt);
    MembersBack(members, depth + 1, fmt, depth, more);
    MembersStart(members, depth + 1, fmt, end + "}" + more);
    Around(open, list, end, more);
    ObjectOf(open, list + end + "}" + more, members, more);
  }

  lemma EmptyShape(depth: nat, fmt: bool)
    ensures var indent := (if fmt then "\n" else "") + (if fmt then Tabs(depth - 1) else "");
      Print(Object(NoMember), depth, fmt) == "{" + indent + "}"
  {}

  lemma FullShape(members: Members, depth: nat, fmt: bool)
    requires members.Member?
    ensures var open, end := if fmt then "\n" else "", if fmt then Tabs(depth) else "";
      Print(Object(members), depth, fmt) == "{" + open + PrintMembers(members, depth + 1, fmt) + end + "}"
  {}

  lemma Around(open: string, list: string, end: string, more: string)
    ensures "{" + open + list + end + "}" + more == "{" + open + (list + end + "}" + more)
    ensures list + (end + "}" + more) == list + end + "}" + more
  {}

  /** Printing any tree, formatted or not, and parsing the text rebuilds the tree. */
  lemma RoundTrip(v: Json, fmt: bool)
    requires Sound(v)
    ensures ReadValue(Skip(Print(v, 0, fmt))) == Ok(v, "")
  {
    assert Print(v, 0, fmt) + "" == Print(v, 0, fmt);
    ValueBack(v, 0, fmt, "");
    PrintVisible(v, 0, fmt, "");
  }

  // ----- Escaped code points -----

  /** The code point a UTF-8 sequence stands for: the lead byte without its mark, then six bits a byte. */
  function CodePoint(b: string, mark: nat): int
    requires b != ""
  {
    if |b| == 1 then b[0] as int - mark
    else 64 * CodePoint(b[..|b| - 1], mark) + b[|b| - 1] as int % 64
  }

  lemma {:induction false} BytesBack(uc: nat, len: nat, mark: nat)
    requires len > 0 && uc < Room(len) && mark < 256
    ensures var b := Utf8Bytes(uc, len, mark);
      && |b| == len && CodePoint(b, mark) == uc
      && (forall i :: 1 <= i < len ==> 0x80 <= b[i] as int < 0xC0)
    decreases len
  {
    if len > 1 {
      BytesBack(uc / 64, len - 1, mark);
      var front := Utf8Bytes(uc / 64, len - 1, mark);
      var b := Utf8Bytes(uc, len, mark);
      assert b == front + [b[len - 1]] && b[..len - 1] == front;
      assert b[len - 1] as int % 64 == uc % 64;
    }
  }

  /** The lead byte stays in the range that tells the length. */
  lemma {:induction false} LeadByte(uc: nat, len: nat, mark: nat, limit: nat)
    requires len > 0 && uc < Room(len) && mark < 256 && uc < limit * Power64(len - 1)
    ensures mark <= Utf8Bytes(uc, len, mark)[0] as int < mark + limit
    decreases len
  {
    BytesBack(uc, len, mark);
    if len > 1 {
      assert limit * Power64(len - 1) == 64 * (limit * Power64(len - 2));
      BytesBack(uc / 64, len - 1, mark);
      LeadByte(uc / 64, len - 1, mark, limit);
    }
  }

  function Power64(k: nat): nat {
    if k == 0 then 1 else 64 * Power64(k - 1)
  }

  /** The bytes produced are the UTF-8 form of the code point: lead and continuation bytes in their ranges. */
  lemma Utf8Back(uc: nat)
    requires 0 < uc < 0x110000
    ensures var b := Utf8(uc);
      if uc < 0x80 then |b| == 1 && b[0] as int == uc
      else if uc < 0x800 then |b| == 2 && 0xC0 <= b[0] as int < 0xE0 && CodePoint(b, 0xC0) == uc
      else if uc < 0x10000 then |b| == 3 && 0xE0 <= b[0] as int < 0xF0 && CodePoint(b, 0xE0) == uc
      else |b| == 4 && 0xF0 <= b[0] as int < 0xF8 && CodePoint(b, 0xF0) == uc
    ensures forall i :: 1 <= i < |Utf8(uc)| ==> 0x80 <= Utf8(uc)[i] as int < 0xC0
  {
    assert Power64(1) == 64 && Power64(2) == 4096 && Power64(3) == 262144;
    if uc < 0x80 {
    } else if uc < 0x800 {
      BytesBack(uc, 2, 0xC0);
      LeadByte(uc, 2, 0xC0, 0x20);
    } else if uc < 0x10000 {
      BytesBack(uc, 3, 0xE0);
      LeadByte(uc, 3, 0xE0, 0x10);
    } else {
      BytesBack(uc, 4, 0xF0);
      LeadByte(uc, 4, 0xF0, 0x08);
    }
  }

  function HexOf(h: nat): string
    requires h < 65536
  {
    var h1 := h / 16;
    var h2 := h1 / 16;
    var h3 := h2 / 16;
    [HexDigit(h3), HexDigit(h2 % 16), HexDigit(h1 % 16), HexDigit(h % 16)]
  }

  lemma Hex4Of(a: nat, b: nat, c: nat, d: nat, t: string)
    requires a < 16 && b < 16 && c < 16 && d < 16
    ensures var s := [HexDigit(a), HexDigit(b), HexDigit(c), HexDigit(d)] + t;
      Hex4(s) == 4096 * a + 256 * b + 16 * c + d && s[4..] == t
  {
    HexBack(a);
    HexBack(b);
    HexBack(c);
    HexBack(d);
  }

  lemma Hex4Back(h: nat, t: string)
    requires h < 65536
    ensures Hex4(HexOf(h) + t) == h && (HexOf(h) + t)[4..] == t
  {
    var h1 := h / 16;
    var h2 := h1 / 16;
    var h3 := h2 / 16;
    Hex4Of(h3, h2 % 16, h1 % 16, h % 16, t);
  }

  /** "\uXXXX" for a code point outside the surrogates is read as its bytes. */
  lemma BasicPlane(uc: nat, t: string)
    requires 0 < uc < 0xD800 || 0xE000 <= uc < 0x10000
    ensures ReadUnicode(HexOf(uc) + t) == Ok(Utf8(uc), t)
  {
    Hex4Back(uc, t);
  }

  /** A pair of surrogates is read as the bytes of the code point they encode. */
  lemma SurrogatePair(q: nat, r: nat, t: string)
    requires q < 1024 && r < 1024
    ensures ReadUnicode(HexOf(0xD800 + q) + ("\\u" + (HexOf(0xDC00 + r) + t))) == Ok(Utf8(0x10000 + q * 1024 + r), t)
  {
    var high, low := 0xD800 + q, 0xDC00 + r;
    Hex4Back(high, "\\u" + (HexOf(low) + t));
    Hex4Back(low, t);
    SkipPair(HexOf(high), HexOf(low), t);
    LowTen(54, q);
    LowTen(55, r);
    PairRead(HexOf(high) + ("\\u" + (HexOf(low) + t)), q, r, t);
  }

  lemma LowTen(k: nat, q: nat)
    requires q < 1024
    ensures (1024 * k + q) % 1024 == q
  {}

  lemma PairRead(all: string, q: nat, r: nat, t: string)
    requires q < 1024 && r < 1024 && (0xD800 + q) % 1024 == q && (0xDC00 + r) % 1024 == r
    requires |all| >= 10 && Hex4(all) == 0xD800 + q && all[4] == '\\' && all[5] == 'u'
    requires Hex4(all[6..]) == 0xDC00 + r && all[10..] == t
    ensures ReadUnicode(all) == Ok(Utf8(0x10000 + q * 1024 + r), t)
  {}

  lemma SkipPair(a: string, b: string, t: string)
    requires |a| == 4 && |b| == 4
    ensures var all := a + ("\\u" + (b + t));
      |all| >= 10 && all[4] == '\\' && all[5] == 'u' && all[6..] == b + t && all[10..] == t
  {}
}
