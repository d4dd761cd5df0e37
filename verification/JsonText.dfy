/**
  The JSON texts of `lch/util/cJSON.c`: what the printers write and what the parser reads.
  A text is a string of bytes without NUL; every character stands for a byte.
 */
module JsonText {
  const INT_MIN := -0x8000_0000
  const INT_MAX := 0x7fff_ffff

  datatype Json =
    | Null
    | False
    | True
    | Number(n: int)
    | Str(s: string)
    | Array(items: Items)
    | Object(members: Members)

  /** The chain of children of an array. */
  datatype Items = NoItem | Item(value: Json, next: Items)

  /** The chain of children of an object, each with its name. */
  datatype Members = NoMember | Member(name: string, value: Json, next: Members)

  predicate Text(s: string) {
    forall i :: 0 <= i < |s| ==> 0 < s[i] as int < 256
  }

  /** Integers of the width of int, byte strings without NUL. */
  predicate Sound(v: Json) {
    match v
    case Number(n) => INT_MIN <= n <= INT_MAX
    case Str(s) => Text(s)
    case Array(items) => SoundItems(items)
    case Object(members) => SoundMembers(members)
    case _ => true
  }

  predicate SoundItems(items: Items) {
    items.Item? ==> Sound(items.value) && SoundItems(items.next)
  }

  predicate SoundMembers(members: Members) {
    members.Member? ==> Text(members.name) && Sound(members.value) && SoundMembers(members.next)
  }

  // ----- Printing -----

  const BACKSPACE := 8 as char
  const FORMFEED := 12 as char

  function HexDigit(d: nat): char
    requires d < 16
  {
    if d < 10 then '0' + d as char else 'a' + (d - 10) as char
  }

  /** One byte inside quotes. */
  function Escape(c: char): string {
    if c as int > 31 && c != '\"' && c != '\\' then [c]
    else if c == '\\' then "\\\\"
    else if c == '\"' then "\\\""
    else if c == BACKSPACE then "\\b"
    else if c == FORMFEED then "\\f"
    else if c == '\n' then "\\n"
    else if c == '\r' then "\\r"
    else if c == '\t' then "\\t"
    else "\\u00" + [HexDigit(c as int / 16), HexDigit(c as int % 16)]
  }

  function EscapeAll(s: string): string {
    if s == "" then "" else Escape(s[0]) + EscapeAll(s[1..])
  }

  function Quote(s: string): string {
    "\"" + EscapeAll(s) + "\""
  }

  function Digit(d: nat): char
    requires d < 10
  {
    '0' + d as char
  }

  function Decimal(n: nat): string {
    if n < 10 then [Digit(n)] else Decimal(n / 10) + [Digit(n % 10)]
  }

  function PrintNumber(n: int): string {
    if n < 0 then "-" + Decimal(-n) else Decimal(n)
  }

  function Tabs(n: int): string {
    if n <= 0 then "" else "\t" + Tabs(n - 1)
  }

  function Print(v: Json, depth: nat, fmt: bool): string
    decreases v
  {
    match v
    case Null => "null"
    case False => "false"
    case True => "true"
    case Number(n) => PrintNumber(n)
    case Str(s) => Quote(s)
    case Array(items) =>
      if items.NoItem? then "[]" else "[" + PrintItems(items, depth + 1, fmt) + "]"
    case Object(members) =>
      if members.NoMember? then (if fmt then "{\n" + Tabs(depth - 1) + "}" else "{}")
      else
        (if fmt then "{\n" else "{") + PrintMembers(members, depth + 1, fmt) +
        (if fmt then Tabs(depth) else "") + "}"
  }

  function PrintItems(items: Items, depth: nat, fmt: bool): string
    requires items.Item?
    decreases items
  {
    Print(items.value, depth, fmt) +
    if items.next.NoItem? then "" else (if fmt then ", " else ",") + PrintItems(items.next, depth, fmt)
  }

  /** One member up to its value. */
  function PrintName(name: string, depth: nat, fmt: bool): string {
    (if fmt then Tabs(depth) else "") + Quote(name) + (if fmt then ":\t" else ":")
  }

  /** What follows the value of a member. */
  function PrintEnd(last: bool, fmt: bool): string {
    (if last then "" else ",") + (if fmt then "\n" else "")
  }

  function PrintMembers(members: Members, depth: nat, fmt: bool): string
    decreases members
  {
    match members
    case NoMember => ""
    case Member(name, value, next) =>
      PrintName(name, depth, fmt) + Print(value, depth, fmt) + PrintEnd(next.NoMember?, fmt) +
      PrintMembers(next, depth, fmt)
  }

  // ----- Parsing -----

  /** A value read and the text behind it, a refused text, or an input this model leaves open. */
  datatype Parsed<T> = Ok(value: T, rest: string) | Fail | Open

  function Skip(t: string): (r: string)
    ensures |r| <= |t|
    decreases |t|
  {
    if t != "" && 0 < t[0] as int <= 32 then Skip(t[1..]) else t
  }

  predicate Starts(t: string, c: char) {
    t != "" && t[0] == c
  }

  function Hex(c: char): Parsed<nat> {
    if '0' <= c <= '9' then Ok((c - '0') as nat, "")
    else if 'A' <= c <= 'F' then Ok(10 + (c - 'A') as nat, "")
    else if 'a' <= c <= 'f' then Ok(10 + (c - 'a') as nat, "")
    else Fail
  }

  /** Four hexadecimal digits; 0 if one is not. */
  function Hex4(t: string): (h: nat)
    requires |t| >= 4
    ensures h < 65536
  {
    var a, b, c, d := Hex(t[0]), Hex(t[1]), Hex(t[2]), Hex(t[3]);
    if a.Ok? && b.Ok? && c.Ok? && d.Ok? && a.value < 16 && b.value < 16 && c.value < 16 && d.value < 16
    then 4096 * a.value + 256 * b.value + 16 * c.value + d.value
    else 0
  }

  /** The bytes of a code point. */
  function Utf8(uc: nat): string
    requires 0 < uc < 0x110000
  {
    if uc < 0x80 then Utf8Bytes(uc, 1, 0)
    else if uc < 0x800 then Utf8Bytes(uc, 2, 0xC0)
    else if uc < 0x10000 then Utf8Bytes(uc, 3, 0xE0)
    else Utf8Bytes(uc, 4, 0xF0)
  }

  /** `len` bytes, filled from the last: six bits each, and what is left joins the mark of the first. */
  function Utf8Bytes(uc: nat, len: nat, mark: nat): string
    requires len > 0 && uc < Room(len) && mark < 256
    decreases len
  {
    if len == 1 then [(mark + uc) as char] else Utf8Bytes(uc / 64, len - 1, mark) + [(0x80 + uc % 64) as char]
  }

  function Room(len: nat): nat {
    if len <= 1 then 128 else 64 * Room(len - 1)
  }

  /** What follows "\u": the bytes it stands for, none for an invalid code, and the text behind. */
  function ReadUnicode(t: string): (p: Parsed<string>)
    ensures p.Ok? ==> |p.rest| < |t|
  {
    if |t| < 4 then Open
    else
      var uc := Hex4(t);
      if 0xDC00 <= uc <= 0xDFFF || uc == 0 then Ok("", t[4..])
      else if 0xD800 <= uc <= 0xDBFF then
        if |t| < 6 || t[4] != '\\' || t[5] != 'u' then Ok("", t[4..])
        else if |t| < 10 then Open
        else
          var uc2 := Hex4(t[6..]);
          if uc2 < 0xDC00 || uc2 > 0xDFFF then Ok("", t[10..])
          else Ok(Utf8(0x10000 + (uc % 1024) * 1024 + uc2 % 1024), t[10..])
      else Ok(Utf8(uc), t[4..])
  }

  /** The inside of a quoted string; a text that ends before the closing quote is accepted. */
  function ReadInside(t: string): (p: Parsed<string>)
    ensures p.Ok? ==> |p.rest| <= |t|
    decreases |t|
  {
    if t == "" then Ok("", "")
    else if t[0] == '\"' then Ok("", t[1..])
    else if t[0] != '\\' then Before([t[0]], ReadInside(t[1..]))
    else if |t| == 1 then Open
    else if t[1] == 'u' then
      var u := ReadUnicode(t[2..]);
      if u.Ok? then Before(u.value, ReadInside(u.rest)) else Open
    else Before([Unescaped(t[1])], ReadInside(t[2..]))
  }

  /** What a character behind a backslash stands for; characters without a meaning stand for themselves. */
  function Unescaped(c: char): char {
    match c
    case 'b' => BACKSPACE
    case 'f' => FORMFEED
    case 'n' => '\n'
    case 'r' => '\r'
    case 't' => '\t'
    case _ => c
  }

  function Before(s: string, p: Parsed<string>): Parsed<string> {
    if p.Ok? then Ok(s + p.value, p.rest) else p
  }

  function ReadString(t: string): (p: Parsed<string>)
    ensures p.Ok? ==> |p.rest| < |t|
  {
    if Starts(t, '\"') then ReadInside(t[1..]) else Fail
  }

  predicate IsDigit(t: string) {
    t != "" && '0' <= t[0] <= '9'
  }

  /** The digits at the front, read as a number that continues `acc`. */
  function ReadDigits(t: string, acc: nat): (p: (nat, string))
    ensures |p.1| <= |t| && (IsDigit(t) ==> |p.1| < |t|)
    decreases |t|
  {
    if IsDigit(t) then ReadDigits(t[1..], acc * 10 + (t[0] - '0') as nat) else (acc, t)
  }

  /** Integers only: a fraction, an exponent or more than 32 bits are left open. */
  function ReadNumber(t: string): (p: Parsed<Json>)
    requires Starts(t, '-') || IsDigit(t)
    ensures p.Ok? ==> |p.rest| < |t|
  {
    var neg := t[0] == '-';
    var t1 := if neg then t[1..] else t;
    var t2 := if Starts(t1, '0') then t1[1..] else t1;
    var d := if IsDigit(t2) && t2[0] != '0' then ReadDigits(t2, 0) else (0, t2);
    var n: int := if neg then -(d.0 as int) else d.0;
    assert |d.1| < |t|;
    if (Starts(d.1, '.') && IsDigit(d.1[1..])) || Starts(d.1, 'e') || Starts(d.1, 'E') then Open
    else if n < INT_MIN || n > INT_MAX then Open
    else Ok(Number(n), d.1)
  }

  function ReadValue(t: string): (p: Parsed<Json>)
    ensures p.Ok? ==> |p.rest| < |t|
    decreases |t|, 1
  {
    if "null" <= t then Ok(Null, t[4..])
    else if "false" <= t then Ok(False, t[5..])
    else if "true" <= t then Ok(True, t[4..])
    else if Starts(t, '\"') then
      var s := ReadString(t);
      if s.Ok? then Ok(Str(s.value), s.rest) else Open
    else if Starts(t, '-') || IsDigit(t) then ReadNumber(t)
    else if Starts(t, '[') then
      var items := ReadArray(t);
      if items.Ok? then Ok(Array(items.value), items.rest) else if items.Open? then Open else Fail
    else if Starts(t, '{') then
      var members := ReadObject(t);
      if members.Ok? then Ok(Object(members.value), members.rest) else if members.Open? then Open else Fail
    else Fail
  }

  function ReadArray(t: string): (p: Parsed<Items>)
    requires t != ""
    ensures p.Ok? ==> |p.rest| < |t|
    decreases |t|, 0
  {
    var t1 := Skip(t[1..]);
    if Starts(t1, ']') then Ok(NoItem, t1[1..]) else ReadItems(t1)
  }

  function ReadObject(t: string): (p: Parsed<Members>)
    requires t != ""
    ensures p.Ok? ==> |p.rest| < |t|
    decreases |t|, 0
  {
    var t1 := Skip(t[1..]);
    if Starts(t1, '}') then Ok(NoMember, t1[1..]) else ReadMembers(t1)
  }

  function ReadItems(t: string): (p: Parsed<Items>)
    ensures p.Ok? ==> |p.rest| < |t|
    decreases |t|, 3
  {
    var v := ReadValue(Skip(t));
    if !v.Ok? then (if v.Open? then Open else Fail)
    else
      var t1 := Skip(v.rest);
      if Starts(t1, ',') then
        var more := ReadItems(t1[1..]);
        if more.Ok? then Ok(Item(v.value, more.value), more.rest) else more
      else if Starts(t1, ']') then Ok(Item(v.value, NoItem), t1[1..])
      else Fail
  }

  function ReadMembers(t: string): (p: Parsed<Members>)
    ensures p.Ok? ==> |p.rest| < |t|
    decreases |t|, 3
  {
    var name := ReadString(Skip(t));
    if !name.Ok? then (if name.Open? then Open else Fail)
    else
      var t1 := Skip(name.rest);
      if !Starts(t1, ':') then Fail
      else
        var v := ReadValue(Skip(t1[1..]));
        if !v.Ok? then (if v.Open? then Open else Fail)
        else
          var t2 := Skip(v.rest);
          if Starts(t2, ',') then
            var more := ReadMembers(t2[1..]);
            if more.Ok? then Ok(Member(name.value, v.value, more.value), more.rest) else more
          else if Starts(t2, '}') then Ok(Member(name.value, v.value, NoMember), t2[1..])
          else Fail
  }
}
