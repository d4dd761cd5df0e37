/**
  What the printers of `lch/util/cJSON.c` write, character by character: the derivation with all its white space, and
  every escape.
 */
module JsonLayout {
  import opened JsonText
  import opened JsonGrammar
  import RT = JsonRoundTrip

  // ----- White space -----

  lemma {:induction false} TabsAre(n: int)
    ensures |Tabs(n)| == (if n < 0 then 0 else n) && forall i :: 0 <= i < |Tabs(n)| ==> Tabs(n)[i] == '\t'
    decreases n
  {
    if n > 0 {
      TabsAre(n - 1);
    }
  }

  /** White space only in formatted texts. */
  function If(fmt: bool, t: string): string {
    if fmt then t else ""
  }

  /** Formatted, a space stands before each item but the first, and a member begins on a line of its own. */
  function Laid(v: Json, depth: nat, fmt: bool): Value
    decreases v, 1
  {
    match v
    case Null => Literal("null")
    case False => Literal("false")
    case True => Literal("true")
    case Number(n) => NumberValue(PrintNumber(n))
    case Str(s) => StringValue(Quote(s))
    case Array(items) =>
      if items.NoItem? then EmptyArray("") else FullArray(LaidItems(items, depth + 1, fmt, ""))
    case Object(members) =>
      if members.NoMember? then EmptyObject(If(fmt, "\n" + Tabs(depth - 1)))
      else FullObject(LaidPairs(members, depth + 1, fmt))
  }

  function LaidItems(items: Items, depth: nat, fmt: bool, before: string): Elements
    requires items.Item?
    decreases items, 0
  {
    var e := Element(before, Laid(items.value, depth, fmt), "");
    if items.next.NoItem? then LastElement(e) else MoreElements(e, LaidItems(items.next, depth, fmt, If(fmt, " ")))
  }

  /** A member stands behind `depth` tabs, its value behind one; the closing brace behind one tab less. */
  function LaidPairs(members: Members, depth: nat, fmt: bool): Pairs
    requires members.Member? && depth > 0
    decreases members, 0
  {
    var last := members.next.NoMember?;
    var value := Element(If(fmt, "\t"), Laid(members.value, depth, fmt), If(fmt && last, "\n" + Tabs(depth - 1)));
    var p := Pair(If(fmt, "\n" + Tabs(depth)), Quote(members.name), "", value);
    if last then LastPair(p) else MorePairs(p, LaidPairs(members.next, depth, fmt))
  }

  /** What is printed is the text of this derivation. */
  lemma {:induction false} PrintIsLaid(v: Json, depth: nat, fmt: bool)
    ensures Yield(Laid(v, depth, fmt)) == Print(v, depth, fmt)
    decreases v, 1
  {
    if v.Array? && v.items.Item? {
      ItemsAreLaid(v.items, depth + 1, fmt, "");
      assert "" + PrintItems(v.items, depth + 1, fmt) == PrintItems(v.items, depth + 1, fmt);
    } else if v.Object? {
      ObjectIsLaid(v.members, depth, fmt);
    }
  }

  lemma {:induction false} ObjectIsLaid(members: Members, depth: nat, fmt: bool)
    ensures Yield(Laid(Object(members), depth, fmt)) == Print(Object(members), depth, fmt)
    decreases members, 1
  {
    if members.Member? {
      MembersAreLaid(members, depth + 1, fmt);
      RT.FullShape(members, depth, fmt);
      Braced(If(fmt, "\n"), PrintMembers(members, depth + 1, fmt), If(fmt, Tabs(depth)));
    } else {
      RT.EmptyShape(depth, fmt);
    }
  }

  lemma Braced(a: string, list: string, b: string)
    ensures "{" + (a + list + b) + "}" == "{" + a + list + b + "}"
  {}

  lemma {:induction false} ItemsAreLaid(items: Items, depth: nat, fmt: bool, before: string)
    requires items.Item?
    ensures YieldElements(LaidItems(items, depth, fmt, before)) == before + PrintItems(items, depth, fmt)
    decreases items, 0
  {
    PrintIsLaid(items.value, depth, fmt);
    var t := Print(items.value, depth, fmt);
    if items.next.Item? {
      ItemsAreLaid(items.next, depth, fmt, If(fmt, " "));
      assert (if fmt then ", " else ",") == "," + If(fmt, " ");
      ItemFirst(before, t, If(fmt, " "), PrintItems(items.next, depth, fmt));
    } else {
      assert before + t + "" == before + (t + "");
    }
  }

  lemma ItemFirst(before: string, t: string, gap: string, rest: string)
    ensures before + t + "" + "," + (gap + rest) == before + (t + (("," + gap) + rest))
  {}

  lemma {:induction false} MembersAreLaid(members: Members, depth: nat, fmt: bool)
    requires members.Member? && depth > 0
    ensures YieldPairs(LaidPairs(members, depth, fmt)) ==
      If(fmt, "\n") + PrintMembers(members, depth, fmt) + If(fmt, Tabs(depth - 1))
    decreases members, 0
  {
    PrintIsLaid(members.value, depth, fmt);
    NameLaid(members.name, depth, fmt);
    var nl, tabs, end := If(fmt, "\n"), If(fmt, Tabs(depth)), If(fmt, Tabs(depth - 1));
    var name, tab, value := Quote(members.name), If(fmt, "\t"), Print(members.value, depth, fmt);
    var pairs, next := LaidPairs(members, depth, fmt), members.next;
    if next.Member? {
      MembersAreLaid(next, depth, fmt);
      assert PrintEnd(false, fmt) == "," + nl;
      assert YieldPair(pairs.first) == (nl + tabs) + name + "" + ":" + (tab + value + "");
      MemberFirst(nl, tabs, name, tab, value, PrintMembers(next, depth, fmt), end);
    } else {
      assert If(fmt, "\n" + Tabs(depth - 1)) == nl + end && PrintEnd(true, fmt) == nl;
      assert YieldPair(pairs.last) == (nl + tabs) + name + "" + ":" + (tab + value + (nl + end));
      MemberLast(nl, tabs, name, tab, value, end);
    }
  }

  lemma NameLaid(name: string, depth: nat, fmt: bool)
    ensures If(fmt, "\n" + Tabs(depth)) == If(fmt, "\n") + If(fmt, Tabs(depth))
    ensures PrintName(name, depth, fmt) == If(fmt, Tabs(depth)) + Quote(name) + (":" + If(fmt, "\t"))
  {}

  lemma MemberFirst(nl: string, tabs: string, name: string, tab: string, value: string, rest: string, end: string)
    ensures (nl + tabs) + name + "" + ":" + (tab + value + "") + "," + (nl + rest + end) ==
      nl + (tabs + name + (":" + tab) + value + ("," + nl) + rest) + end
  {}

  lemma MemberLast(nl: string, tabs: string, name: string, tab: string, value: string, end: string)
    ensures (nl + tabs) + name + "" + ":" + (tab + value + (nl + end)) ==
      nl + (tabs + name + (":" + tab) + value + nl + "") + end
  {}

  // ----- Escapes -----

  const DIGITS := "0123456789abcdef"

  /** Seven characters have an escape of their own, other controls their code in lower-case digits, the rest none. */
  lemma EscapesAre(c: char)
    ensures Escape('\"') == "\\\"" && Escape('\\') == "\\\\" && Escape('\n') == "\\n" && Escape('\r') == "\\r"
    ensures Escape('\t') == "\\t" && Escape(8 as char) == "\\b" && Escape(12 as char) == "\\f"
    ensures c as int >= 32 && c != '\"' && c != '\\' ==> Escape(c) == [c]
    ensures c as int < 32 && c !in {8 as char, 9 as char, 10 as char, 12 as char, 13 as char} ==>
      Escape(c) == "\\u00" + [DIGITS[c as int / 16], DIGITS[c as int % 16]]
  {
    if c as int < 32 {
      DigitsAre(c as int / 16);
      DigitsAre(c as int % 16);
    }
  }

  lemma DigitsAre(d: nat)
    requires d < 16
    ensures HexDigit(d) == DIGITS[d]
  {}
}
