/**
  The buffered printer of `lch/util/cJSON.c`: it writes into one growing buffer and recovers its
  place in it with strlen.
 */
module JsonBuffer {
  import opened JsonText

  const NUL := '\0'

  // ----- What printed texts are like -----

  lemma TextJoin(a: string, b: string)
    requires Text(a) && Text(b)
    ensures Text(a + b)
  {}

  lemma {:induction false} EscapeAllText(s: string)
    requires Text(s)
    ensures Text(EscapeAll(s)) && |EscapeAll(s)| >= |s|
  {
    if s != "" {
      EscapeAllText(s[1..]);
      TextJoin(Escape(s[0]), EscapeAll(s[1..]));
    }
  }

  lemma {:induction false} DecimalText(n: nat, k: nat)
    ensures Text(Decimal(n))
    ensures k > 0 && n < Power10(k) ==> |Decimal(n)| <= k
  {
    if n >= 10 {
      DecimalText(n / 10, if k > 0 then k - 1 else 0);
      if k > 0 {
        assert Power10(k) == 10 * Power10(k - 1);
        assert Power10(0) == 1;
      }
    }
  }

  function Power10(k: nat): nat {
    if k == 0 then 1 else 10 * Power10(k - 1)
  }

  lemma {:induction false} TabsText(n: int)
    ensures Text(Tabs(n)) && |Tabs(n)| == if n < 0 then 0 else n
  {
    if n > 0 {
      TabsText(n - 1);
    }
  }

  lemma {:induction false} PrintText(v: Json, depth: nat, fmt: bool)
    requires Sound(v)
    ensures Text(Print(v, depth, fmt))
    decreases v
  {
    match v
    case Number(n) => DecimalText(if n < 0 then -n else n, 0);
    case Str(s) => QuoteText(s);
    case Array(items) =>
      if items.Item? {
        ItemsText(items, depth + 1, fmt);
        TextJoin("[", PrintItems(items, depth + 1, fmt));
        TextJoin("[" + PrintItems(items, depth + 1, fmt), "]");
      }
    case Object(members) =>
      if members.NoMember? {
        EmptyText(depth, fmt);
      } else {
        MembersText(members, depth + 1, fmt);
        Wrapped(PrintMembers(members, depth + 1, fmt), depth, fmt);
      }
    case _ =>
  }

  lemma EmptyText(depth: nat, fmt: bool)
    ensures Text(Print(Object(NoMember), depth, fmt))
  {
    TabsText(depth - 1);
    TextJoin("{\n", Tabs(depth - 1));
    TextJoin("{\n" + Tabs(depth - 1), "}");
  }

  lemma Wrapped(list: string, depth: nat, fmt: bool)
    requires Text(list)
    ensures Text((if fmt then "{\n" else "{") + list + (if fmt then Tabs(depth) else "") + "}")
  {
    var open, end := if fmt then "{\n" else "{", if fmt then Tabs(depth) else "";
    TabsText(depth);
    TextJoin(open, list);
    TextJoin(open + list, end);
    TextJoin(open + list + end, "}");
  }

  lemma QuoteText(s: string)
    requires Text(s)
    ensures Text(Quote(s))
  {
    EscapeAllText(s);
    TextJoin("\"", EscapeAll(s));
    TextJoin("\"" + EscapeAll(s), "\"");
  }

  lemma {:induction false} ItemsText(items: Items, depth: nat, fmt: bool)
    requires items.Item? && SoundItems(items)
    ensures Text(PrintItems(items, depth, fmt))
    decreases items
  {
    PrintText(items.value, depth, fmt);
    if items.next.Item? {
      ItemsText(items.next, depth, fmt);
      TextJoin(if fmt then ", " else ",", PrintItems(items.next, depth, fmt));
    }
  }

  lemma NameText(name: string, depth: nat, fmt: bool)
    requires Text(name)
    ensures Text(PrintName(name, depth, fmt))
  {
    var indent := if fmt then Tabs(depth) else "";
    QuoteText(name);
    TabsText(depth);
    TextJoin(indent, Quote(name));
    TextJoin(indent + Quote(name), if fmt then ":\t" else ":");
  }

  lemma {:induction false} MembersText(members: Members, depth: nat, fmt: bool)
    requires SoundMembers(members)
    ensures Text(PrintMembers(members, depth, fmt))
    decreases members
  {
    if members.Member? {
      NameText(members.name, depth, fmt);
      PrintText(members.value, depth, fmt);
      MembersText(members.next, depth, fmt);
      var end := PrintEnd(members.next.NoMember?, fmt);
      var name, value := PrintName(members.name, depth, fmt), Print(members.value, depth, fmt);
      TextJoin(name, value);
      TextJoin(name + value, end);
      TextJoin(name + value + end, PrintMembers(members.next, depth, fmt));
    }
  }

  // ----- The buffer -----

  /** The smallest power of two that is not below `x`. */
  function Pow2Gt(x: nat): (p: nat)
    ensures p >= x
  {
    Pow2From(x, 1)
  }

  function Pow2From(x: nat, p: nat): (q: nat)
    requires p > 0
    ensures q >= x
    decreases x - p
  {
    if p >= x then p else Pow2From(x, 2 * p)
  }

  class PrintBuffer {
    var buffer: array<char>
    var length: nat
    var offset: nat

    ghost predicate Valid()
      reads this
    {
      length == buffer.Length && offset <= length
    }

    /** What is written and passed. */
    ghost predicate Passed(text: string)
      reads this, buffer
    {
      Valid() && |text| == offset && buffer[..offset] == text
    }

    /** The text from the start of the buffer up to a NUL, some of it behind the offset. */
    ghost predicate Shows(text: string)
      reads this, buffer
    {
      && Valid() && offset <= |text| < length
      && buffer[..|text|] == text && buffer[|text|] == NUL
    }

    constructor (prebuffer: nat)
      ensures Passed("") && fresh(buffer)
    {
      buffer := new char[prebuffer];
      length, offset := prebuffer, 0;
    }

    /** Room for `needed` characters behind the offset; a buffer that is too small is replaced. */
    method Ensure(needed: nat, ghost text: string)
      requires Passed(text)
      modifies this
      ensures Passed(text) && offset == old(offset) && offset + needed <= length
      ensures buffer == old(buffer) || fresh(buffer)
    {
      if offset + needed > length {
        var newsize := Pow2Gt(offset + needed);
        var newbuffer := new char[newsize];
        forall i | 0 <= i < length {
          newbuffer[i] := buffer[i];
        }
        buffer, length := newbuffer, newsize;
      }
    }

    /** Put characters behind the offset, which stays where it is. */
    method Put(s: string, ghost text: string)
      requires Passed(text) && offset + |s| <= length
      modifies buffer
      ensures Passed(text) && buffer[offset..offset + |s|] == s
    {
      forall i | 0 <= i < |s| {
        buffer[offset + i] := s[i];
      }
      assert buffer[..offset] == old(buffer[..offset]);
    }

    /** Put a terminated string: what a complete value looks like. */
    method PutString(s: string, ghost text: string)
      requires Passed(text) && offset + |s| < length
      modifies buffer
      ensures Shows(text + s) && offset == old(offset)
    {
      Put(s + [NUL], text);
      assert buffer[..offset + |s|] == buffer[..offset] + buffer[offset..offset + |s| + 1][..|s|];
      assert (s + [NUL])[..|s|] == s;
    }

    /** Put characters and pass them. */
    method PutPass(s: string, ghost text: string)
      requires Passed(text) && offset + |s| <= length
      modifies this`offset, buffer
      ensures Passed(text + s)
    {
      Put(s, text);
      offset := offset + |s|;
      assert buffer[..offset] == buffer[..offset - |s|] + buffer[offset - |s|..offset];
    }

    /** Move the offset to the NUL that ends what was printed. */
    method Update(ghost text: string)
      requires Shows(text) && Text(text[offset..])
      modifies this`offset
      ensures Passed(text)
    {
      forall i | offset <= i < |text|
        ensures buffer[i] != NUL
      {
        assert buffer[..|text|][i] == text[i] == text[offset..][i - offset];
      }
      assert buffer[..][..|text|] == text;
      while buffer[offset] != NUL
        invariant old(offset) <= offset <= |text|
        decreases |text| - offset
      {
        offset := offset + 1;
      }
    }

    // ----- Values -----

    method PrintNumberTo(n: int, ghost text: string)
      requires Passed(text) && INT_MIN <= n <= INT_MAX
      modifies this, buffer
      ensures Shows(text + PrintNumber(n)) && offset == old(offset)
      ensures buffer == old(buffer) || fresh(buffer)
    {
      if n == 0 {
        Ensure(2, text);
        PutString("0", text);
        assert PrintNumber(0) == "0";
      } else {
        NumberLength(n);
        Ensure(21, text);
        PutString(PrintNumber(n), text);
      }
    }

    /** Store characters from place `at` on. */
    method Write(at: nat, s: string)
      requires at + |s| <= buffer.Length
      modifies buffer
      ensures buffer[..at + |s|] == old(buffer[..at]) + s
    {
      forall i | 0 <= i < |s| {
        buffer[at + i] := s[i];
      }
    }

    /** A string: copied between quotes if nothing in it needs escaping, else character by character. */
    method PrintStringTo(s: string, ghost text: string)
      requires Passed(text) && Text(s)
      modifies this, buffer
      ensures Shows(text + Quote(s)) && offset == old(offset)
      ensures buffer == old(buffer) || fresh(buffer)
    {
      var flag := NeedsEscape(s);
      if !flag {
        PlainAll(s);
        Ensure(|s| + 3, text);
        PutString("\"" + s + "\"", text);
      } else {
        var len := EscapedLength(s);
        Ensure(len + 3, text);
        PutEscaped(s, text);
      }
    }

    method PutEscaped(s: string, ghost text: string)
      requires Passed(text) && offset + |EscapeAll(s)| + 3 <= length
      modifies buffer
      ensures Shows(text + Quote(s))
    {
      var at, k := offset, 0;
      ghost var done := "";
      Write(at, "\"");
      at := at + 1;
      while k < |s|
        invariant k <= |s| && Valid() && done == EscapeAll(s[..k])
        invariant at == offset + 1 + |done| <= length - 2
        invariant buffer[..at] == text + "\"" + done
      {
        EscapePrefix(s, k + 1);
        EscapeSnoc(s, k);
        Write(at, Escape(s[k]));
        at := at + |Escape(s[k])|;
        Longer(text + "\"", done, Escape(s[k]));
        done := done + Escape(s[k]);
        k := k + 1;
      }
      assert s[..k] == s;
      Write(at, "\"" + [NUL]);
      Terminated(buffer[..], text, EscapeAll(s));
    }

    /** `print_value`: the value stands behind the offset, terminated; the offset is somewhere in it. */
    method PrintValue(v: Json, depth: nat, fmt: bool, ghost text: string)
      requires Passed(text) && Sound(v)
      modifies this, buffer
      ensures Shows(text + Print(v, depth, fmt)) && offset >= old(offset)
      ensures buffer == old(buffer) || fresh(buffer)
      decreases v, 2
    {
      match v {
        case Null =>
          Ensure(5, text);
          PutString("null", text);
        case False =>
          Ensure(6, text);
          PutString("false", text);
        case True =>
          Ensure(5, text);
          PutString("true", text);
        case Number(n) =>
          PrintNumberTo(n, text);
        case Str(s) =>
          PrintStringTo(s, text);
        case Array(items) =>
          PrintArray(items, depth, fmt, text);
        case Object(members) =>
          PrintObject(members, depth, fmt, text);
      }
    }

    /** A value printed and passed. */
    method PrintPass(v: Json, depth: nat, fmt: bool, ghost text: string)
      requires Passed(text) && Sound(v)
      modifies this, buffer
      ensures Passed(text + Print(v, depth, fmt))
      ensures buffer == old(buffer) || fresh(buffer)
      decreases v, 3
    {
      PrintValue(v, depth, fmt, text);
      PrintText(v, depth, fmt);
      Suffix(text, Print(v, depth, fmt), offset);
      Update(text + Print(v, depth, fmt));
    }

    method PrintArray(items: Items, depth: nat, fmt: bool, ghost text: string)
      requires Passed(text) && SoundItems(items)
      modifies this, buffer
      ensures Shows(text + Print(Array(items), depth, fmt)) && offset >= old(offset)
      ensures buffer == old(buffer) || fresh(buffer)
      decreases items, 1
    {
      if items.NoItem? {
        Ensure(3, text);
        PutString("[]", text);
        return;
      }
      Ensure(1, text);
      PutPass("[", text);
      ghost var done := text + "[";
      var child := items;
      while child.Item?
        invariant Passed(done) && SoundItems(child) && offset >= old(offset)
        invariant child == items || child < items
        invariant done + RestOfItems(child, depth + 1, fmt) == text + "[" + PrintItems(items, depth + 1, fmt)
        invariant buffer == old(buffer) || fresh(buffer)
        decreases child
      {
        PrintItem(child, depth + 1, fmt, done);
        done := ItemStep(done, child, depth + 1, fmt);
        child := child.next;
      }
      Ensure(2, done);
      PutString("]", done);
      ClosedArray(text, PrintItems(items, depth + 1, fmt), done);
    }

    method PrintItem(child: Items, depth: nat, fmt: bool, ghost text: string)
      requires Passed(text) && child.Item? && SoundItems(child)
      modifies this, buffer
      ensures Passed(text + Print(child.value, depth, fmt) + Gap(child.next, fmt))
      ensures buffer == old(buffer) || fresh(buffer)
      decreases child, 0
    {
      PrintPass(child.value, depth, fmt, text);
      ghost var next := text + Print(child.value, depth, fmt);
      var gap := Gap(child.next, fmt);
      if child.next.Item? {
        Ensure(|gap| + 1, next);
        PutPass(gap, next);
      } else {
        assert next + gap == next;
      }
    }

    method PrintObject(members: Members, depth: nat, fmt: bool, ghost text: string)
      requires Passed(text) && SoundMembers(members)
      modifies this, buffer
      ensures Shows(text + Print(Object(members), depth, fmt)) && offset >= old(offset)
      ensures buffer == old(buffer) || fresh(buffer)
      decreases members, 2
    {
      if members.NoMember? {
        PrintEmpty(depth, fmt, text);
        return;
      }
      var open := if fmt then "{\n" else "{";
      Ensure(|open| + 1, text);
      PutPass(open, text);
      PrintMembersPass(members, depth + 1, fmt, text + open);
      ghost var list := PrintMembers(members, depth + 1, fmt);
      CloseObject(depth, fmt, text + open + list);
      Closed(text, open, list, if fmt then Tabs(depth) else "");
    }

    method CloseObject(depth: nat, fmt: bool, ghost text: string)
      requires Passed(text)
      modifies this, buffer
      ensures Shows(text + ((if fmt then Tabs(depth) else "") + "}")) && offset == old(offset)
      ensures buffer == old(buffer) || fresh(buffer)
    {
      TabsText(depth);
      Ensure(if fmt then depth + 2 else 2, text);
      PutString((if fmt then Tabs(depth) else "") + "}", text);
    }

    method PrintEmpty(depth: nat, fmt: bool, ghost text: string)
      requires Passed(text)
      modifies this, buffer
      ensures Shows(text + Print(Object(NoMember), depth, fmt)) && offset == old(offset)
      ensures buffer == old(buffer) || fresh(buffer)
    {
      TabsText(depth - 1);
      Ensure(if fmt then depth + 4 else 3, text);
      PutString(if fmt then "{\n" + Tabs(depth - 1) + "}" else "{}", text);
    }

    method PrintMembersPass(members: Members, depth: nat, fmt: bool, ghost text: string)
      requires Passed(text) && SoundMembers(members)
      modifies this, buffer
      ensures Passed(text + PrintMembers(members, depth, fmt))
      ensures buffer == old(buffer) || fresh(buffer)
      decreases members, 1
    {
      ghost var done := text;
      var child := members;
      while child.Member?
        invariant Passed(done) && SoundMembers(child)
        invariant child == members || child < members
        invariant done + PrintMembers(child, depth, fmt) == text + PrintMembers(members, depth, fmt)
        invariant buffer == old(buffer) || fresh(buffer)
        decreases child
      {
        PrintMember(child, depth, fmt, done);
        done := MemberStep(done, child, depth, fmt);
        child := child.next;
      }
      assert done + "" == done;
    }

    method PrintMember(child: Members, depth: nat, fmt: bool, ghost text: string)
      requires Passed(text) && child.Member? && SoundMembers(child)
      modifies this, buffer
      ensures Passed(text + PrintName(child.name, depth, fmt) + Print(child.value, depth, fmt) +
                     PrintEnd(child.next.NoMember?, fmt))
      ensures buffer == old(buffer) || fresh(buffer)
      decreases child, 0
    {
      PrintNameTo(child.name, depth, fmt, text);
      ghost var named := text + PrintName(child.name, depth, fmt);
      PrintPass(child.value, depth, fmt, named);
      var end := PrintEnd(child.next.NoMember?, fmt);
      Ensure(|end| + 1, named + Print(child.value, depth, fmt));
      PutPass(end, named + Print(child.value, depth, fmt));
    }

    method PrintNameTo(name: string, depth: nat, fmt: bool, ghost text: string)
      requires Passed(text) && Text(name)
      modifies this, buffer
      ensures Passed(text + PrintName(name, depth, fmt))
      ensures buffer == old(buffer) || fresh(buffer)
    {
      var indent := if fmt then Tabs(depth) else "";
      if fmt {
        TabsText(depth);
        Ensure(depth, text);
        PutPass(indent, text);
      } else {
        assert text + indent == text;
      }
      PrintStringPass(name, text + indent);
      var colon := if fmt then ":\t" else ":";
      Ensure(|colon|, text + indent + Quote(name));
      PutPass(colon, text + indent + Quote(name));
      ThreeThen(text, indent, Quote(name), colon);
    }

    method PrintStringPass(s: string, ghost text: string)
      requires Passed(text) && Text(s)
      modifies this, buffer
      ensures Passed(text + Quote(s))
      ensures buffer == old(buffer) || fresh(buffer)
    {
      PrintStringTo(s, text);
      QuoteText(s);
      Suffix(text, Quote(s), offset);
      Update(text + Quote(s));
    }
  }

  function RestOfItems(child: Items, depth: nat, fmt: bool): string {
    if child.NoItem? then "" else PrintItems(child, depth, fmt)
  }

  /** What separates an item from the next. */
  function Gap(next: Items, fmt: bool): string {
    if next.NoItem? then "" else if fmt then ", " else ","
  }

  lemma ItemStep(done: string, child: Items, depth: nat, fmt: bool) returns (next: string)
    requires child.Item?
    ensures next == done + Print(child.value, depth, fmt) + Gap(child.next, fmt)
    ensures next + RestOfItems(child.next, depth, fmt) == done + RestOfItems(child, depth, fmt)
  {
    var value, gap := Print(child.value, depth, fmt), Gap(child.next, fmt);
    next := done + value + gap;
    ThreeThen(done, value, gap, RestOfItems(child.next, depth, fmt));
    if child.next.NoItem? {
      assert value + gap + "" == value + "";
    } else {
      assert value + gap + RestOfItems(child.next, depth, fmt) == value + (gap + RestOfItems(child.next, depth, fmt));
    }
  }

  lemma ThreeThen(done: string, a: string, b: string, c: string)
    ensures done + a + b + c == done + (a + b + c)
  {}

  lemma MemberStep(done: string, child: Members, depth: nat, fmt: bool) returns (next: string)
    requires child.Member?
    ensures next == done + PrintName(child.name, depth, fmt) + Print(child.value, depth, fmt) +
                    PrintEnd(child.next.NoMember?, fmt)
    ensures next + PrintMembers(child.next, depth, fmt) == done + PrintMembers(child, depth, fmt)
  {
    var name, value := PrintName(child.name, depth, fmt), Print(child.value, depth, fmt);
    var end := PrintEnd(child.next.NoMember?, fmt);
    next := done + name + value + end;
    FourThen(done, name, value, end, PrintMembers(child.next, depth, fmt));
  }

  lemma Longer(a: string, b: string, c: string)
    ensures a + b + c == a + (b + c)
  {}

  lemma Terminated(buffer: string, text: string, inner: string)
    requires |buffer| >= |text| + |inner| + 3
    requires buffer[..|text| + |inner| + 3] == text + "\"" + inner + ("\"" + [NUL])
    ensures var all := text + ("\"" + inner + "\"");
      buffer[..|all|] == all && buffer[|all|] == NUL
  {
    var all := text + ("\"" + inner + "\"");
    assert buffer[..|all| + 1] == all + [NUL];
    assert buffer[..|all|] == buffer[..|all| + 1][..|all|];
  }

  lemma Closed(text: string, open: string, list: string, indent: string)
    ensures text + open + list + (indent + "}") == text + (open + list + indent + "}")
  {}

  lemma ClosedArray(text: string, list: string, done: string)
    requires done + "" == text + "[" + list
    ensures done + "]" == text + ("[" + list + "]")
  {
    assert done == text + "[" + list;
    assert text + ("[" + list + "]") == text + "[" + list + "]";
  }

  lemma FourThen(done: string, a: string, b: string, c: string, d: string)
    ensures done + a + b + c + d == done + (a + b + c + d)
  {}

  lemma Suffix(text: string, s: string, k: nat)
    requires Text(s) && |text| <= k <= |text + s|
    ensures Text((text + s)[k..])
  {
    forall i | 0 <= i < |(text + s)[k..]|
      ensures 0 < (text + s)[k..][i] as int < 256
    {
      assert (text + s)[k..][i] == s[k - |text| + i];
    }
  }

  method NeedsEscape(s: string) returns (flag: bool)
    ensures flag <==> exists i :: 0 <= i < |s| && Special(s[i])
  {
    flag := false;
    var k := 0;
    while k < |s|
      invariant k <= |s| && (flag <==> exists i :: 0 <= i < k && Special(s[i]))
    {
      if Special(s[k]) {
        flag := true;
      }
      k := k + 1;
    }
  }

  method EscapedLength(s: string) returns (len: nat)
    requires Text(s)
    ensures len == |EscapeAll(s)|
  {
    len := 0;
    var k := 0;
    while k < |s|
      invariant k <= |s| && len == |EscapeAll(s[..k])|
    {
      EscapeSnoc(s, k);
      len := len + 1;
      if s[k] in "\"\\\n\r\t" + [BACKSPACE, FORMFEED] {
        len := len + 1;
      } else if s[k] as int < 32 {
        len := len + 5;
      }
      k := k + 1;
    }
    assert s[..k] == s;
  }

  lemma EscapePrefix(s: string, k: nat)
    requires k <= |s|
    ensures |EscapeAll(s[..k])| <= |EscapeAll(s)|
  {
    EscapeJoin(s[..k], s[k..]);
    assert s[..k] + s[k..] == s;
  }

  predicate Special(c: char) {
    0 < c as int < 32 || c == '\"' || c == '\\'
  }

  lemma {:induction false} PlainAll(s: string)
    requires Text(s) && forall i :: 0 <= i < |s| ==> !Special(s[i])
    ensures EscapeAll(s) == s
  {
    if s != "" {
      assert !Special(s[0]);
      forall i | 0 <= i < |s[1..]|
        ensures !Special(s[1..][i])
      {
        assert s[1..][i] == s[i + 1];
      }
      PlainAll(s[1..]);
      assert s == [s[0]] + s[1..];
    }
  }

  lemma {:induction false} EscapeJoin(a: string, b: string)
    ensures EscapeAll(a + b) == EscapeAll(a) + EscapeAll(b)
    decreases |a|
  {
    if a == "" {
      assert a + b == b;
    } else {
      assert (a + b)[1..] == a[1..] + b;
      EscapeJoin(a[1..], b);
    }
  }

  lemma EscapeSnoc(s: string, k: nat)
    requires k < |s|
    ensures EscapeAll(s[..k + 1]) == EscapeAll(s[..k]) + Escape(s[k])
  {
    assert s[..k + 1] == s[..k] + [s[k]];
    EscapeJoin(s[..k], [s[k]]);
    assert EscapeAll([s[k]]) == Escape(s[k]) + EscapeAll("");
  }

  lemma NumberLength(n: int)
    requires INT_MIN <= n <= INT_MAX
    ensures |PrintNumber(n)| < 21
  {
    assert Power10(10) == 10000000000;
    DecimalText(if n < 0 then -n else n, 10);
  }

  /** The text of a C string: what stands before the first NUL. */
  ghost predicate Holds(out: array<char>, text: string)
    reads out
  {
    Text(text) && |text| < out.Length && out[..|text|] == text && out[|text|] == NUL
  }

  /** `cJSON_PrintBuffered`: whatever the size it starts from, the text of the unbuffered printer. */
  method PrintBuffered(v: Json, prebuffer: nat, fmt: bool) returns (out: array<char>)
    requires Sound(v)
    ensures Holds(out, Print(v, 0, fmt))
  {
    var p := new PrintBuffer(prebuffer);
    p.PrintValue(v, 0, fmt, "");
    assert "" + Print(v, 0, fmt) == Print(v, 0, fmt);
    PrintText(v, 0, fmt);
    out := p.buffer;
  }

  // ----- The unbuffered printers ask for enough memory -----

  /** What `print_array` adds up for its entries. */
  function ItemsRoom(items: Items, depth: nat, fmt: bool): nat {
    match items
    case NoItem => 0
    case Item(value, next) =>
      |Print(value, depth, fmt)| + 2 + (if fmt then 1 else 0) + ItemsRoom(next, depth, fmt)
  }

  lemma {:induction false} ItemsFit(items: Items, depth: nat, fmt: bool)
    requires items.Item?
    ensures |PrintItems(items, depth, fmt)| <= ItemsRoom(items, depth, fmt)
    decreases items
  {
    if items.next.Item? {
      ItemsFit(items.next, depth, fmt);
    }
  }

  lemma ArrayFits(items: Items, depth: nat, fmt: bool)
    requires items.Item?
    ensures |Print(Array(items), depth, fmt)| + 1 <= 5 + ItemsRoom(items, depth + 1, fmt)
  {
    ItemsFit(items, depth + 1, fmt);
  }

  function MembersRoom(members: Members, depth: nat, fmt: bool): nat {
    match members
    case NoMember => 0
    case Member(name, value, next) =>
      |Print(value, depth, fmt)| + |Quote(name)| + 2 + (if fmt then 2 + depth else 0) + MembersRoom(next, depth, fmt)
  }

  lemma {:induction false} MembersFit(members: Members, depth: nat, fmt: bool)
    ensures |PrintMembers(members, depth, fmt)| <= MembersRoom(members, depth, fmt)
    decreases members
  {
    if members.Member? {
      TabsText(depth);
      MembersFit(members.next, depth, fmt);
    }
  }

  lemma ObjectFits(members: Members, depth: nat, fmt: bool)
    requires members.Member?
    ensures |Print(Object(members), depth, fmt)| + 1
         <= 7 + (if fmt then depth + 1 else 0) + MembersRoom(members, depth + 1, fmt)
  {
    TabsText(depth);
    MembersFit(members, depth + 1, fmt);
  }
}
