/**
  What the parser of `lch/util/cJSON.c` makes of a text: the value that RFC 8259 gives to it, for every derivation of
  its grammar with integer numbers, and nothing but derivations of a somewhat wider grammar.
 */
module JsonMeaning {
  import opened JsonText
  import opened JsonGrammar
  import opened JsonStrings
  import RT = JsonRoundTrip

  // ----- Numbers -----

  /** The number that digits stand for in the decimal system. */
  function DecimalOf(d: string): int {
    if d == "" then 0 else 10 * DecimalOf(d[..|d| - 1]) + (d[|d| - 1] as int - '0' as int)
  }

  function NumberOf(t: string): int {
    if t != "" && t[0] == '-' then -DecimalOf(t[1..]) else DecimalOf(t)
  }

  predicate AllDigits(d: string) {
    forall i :: 0 <= i < |d| ==> '0' <= d[i] <= '9'
  }

  /** What the parser takes for an integer: a minus or none, a zero or none, and digits that begin with another one. */
  predicate LaxNumber(t: string) {
    t != "" && LaxDigits(if t[0] == '-' then t[1..] else t)
  }

  predicate LaxDigits(d: string) {
    AllDigits(d) && (d != "" && d[0] == '0' ==> |d| == 1 || d[1] != '0')
  }

  predicate InRange(t: string) {
    INT_MIN <= NumberOf(t) <= INT_MAX
  }

  /** What can stand behind a value. */
  predicate Ends(t: string) {
    t == "" || 0 < t[0] as int <= 32 || t[0] == ',' || t[0] == ']' || t[0] == '}'
  }

  lemma {:induction false} DigitsRead(done: string, acc: nat, d: string, more: string)
    requires AllDigits(d) && !IsDigit(more) && acc == DecimalOf(done)
    ensures var r := ReadDigits(d + more, acc); r.0 == DecimalOf(done + d) && r.1 == more
    decreases |d|
  {
    if d == "" {
      assert d + more == more && done + d == done;
    } else {
      var next := acc * 10 + (d[0] as int - '0' as int);
      NextDigit(done, d[0]);
      OneDigit(d, more, acc);
      MoveOne(done, d);
      DigitsRead(done + [d[0]], next, d[1..], more);
    }
  }

  lemma MoveOne(done: string, d: string)
    requires d != ""
    ensures done + [d[0]] + d[1..] == done + d
  {}

  lemma NextDigit(done: string, c: char)
    ensures DecimalOf(done + [c]) == 10 * DecimalOf(done) + (c as int - '0' as int)
  {
    assert (done + [c])[..|done|] == done;
  }

  lemma OneDigit(d: string, more: string, acc: nat)
    requires d != "" && '0' <= d[0] <= '9'
    ensures ReadDigits(d + more, acc) == ReadDigits(d[1..] + more, acc * 10 + (d[0] as int - '0' as int))
  {
    assert (d[0] - '0') as int == d[0] as int - '0' as int;
    assert (d + more)[1..] == d[1..] + more;
  }

  lemma {:induction false} LeadingZero(d: string)
    ensures DecimalOf("0" + d) == DecimalOf(d)
    decreases |d|
  {
    if d == "" {
      assert "0" + d == "0" && "0"[..0] == "";
    } else {
      assert ("0" + d)[..|d|] == "0" + d[..|d| - 1];
      LeadingZero(d[..|d| - 1]);
    }
  }

  /** Digits that do not begin with zero, or none. */
  function SomeDigits(u: string): (nat, string) {
    if IsDigit(u) && u[0] != '0' then ReadDigits(u, 0) else (0, u)
  }

  function BehindZero(t: string): string {
    if Starts(t, '0') then t[1..] else t
  }

  /** The number behind the sign. */
  lemma UnsignedRead(d: string, more: string)
    requires LaxDigits(d) && Ends(more)
    ensures var u := BehindZero(d + more); SomeDigits(u).0 == DecimalOf(d) && SomeDigits(u).1 == more
  {
    ZeroInFront(d, more);
    NonzeroRead(if d != "" && d[0] == '0' then d[1..] else d, more);
  }

  lemma ZeroInFront(d: string, more: string)
    requires Ends(more)
    ensures var e := if d != "" && d[0] == '0' then d[1..] else d;
      BehindZero(d + more) == e + more && DecimalOf(e) == DecimalOf(d)
  {
    if d != "" && d[0] == '0' {
      assert (d + more)[1..] == d[1..] + more && "0" + d[1..] == d;
      LeadingZero(d[1..]);
    } else if d == "" {
      assert d + more == more;
    }
  }

  lemma NonzeroRead(d: string, more: string)
    requires AllDigits(d) && (d != "" ==> d[0] != '0') && Ends(more)
    ensures var u := d + more;
      SomeDigits(u).0 == DecimalOf(d) && SomeDigits(u).1 == more
  {
    if d == "" {
      assert d + more == more;
    } else {
      DigitsRead("", 0, d, more);
      assert "" + d == d;
    }
  }

  lemma NumberRead(t: string, more: string)
    requires LaxNumber(t) && InRange(t) && Ends(more)
    ensures ReadValue(t + more) == Ok(Number(NumberOf(t)), more)
  {
    var d := if t[0] == '-' then t[1..] else t;
    UnsignedRead(d, more);
    StartsNumber(t, more);
    SignedRead(t + more, d + more);
    RT.IsNumber(t + more);
  }

  lemma StartsNumber(t: string, more: string)
    requires LaxNumber(t)
    ensures var all := t + more;
      && (Starts(all, '-') || IsDigit(all)) && all[0] == t[0]
      && (if t[0] == '-' then all[1..] == t[1..] + more else all == t + more)
  {}

  /** The digits behind the sign, and what follows them. */
  lemma SignedRead(t: string, t1: string)
    requires (Starts(t, '-') || IsDigit(t)) && t1 == (if t[0] == '-' then t[1..] else t)
    ensures var d := SomeDigits(BehindZero(t1)); var n: int := if t[0] == '-' then -(d.0 as int) else d.0;
      Ends(d.1) && INT_MIN <= n <= INT_MAX ==> ReadNumber(t) == Ok(Number(n), d.1)
  {}

  // ----- Values -----

  /** Pieces in quotes. */
  predicate LaxString(t: string) {
    && |t| > 1 && t[0] == '\"' && t[|t| - 1] == '\"'
    && AllLax(PiecesOf(Inside(t))) && Raw(PiecesOf(Inside(t))) == Inside(t)
  }

  /** What the parser accepts: white space is any byte up to 32, strings and numbers are the lax ones. */
  predicate LaxDerives(v: Value) {
    match v
    case Literal(t) => t == "null" || t == "false" || t == "true"
    case NumberValue(t) => LaxNumber(t) && InRange(t)
    case StringValue(t) => LaxString(t)
    case EmptyArray(inside) => RT.Blank(inside)
    case FullArray(elements) => LaxElements(elements)
    case EmptyObject(inside) => RT.Blank(inside)
    case FullObject(pairs) => LaxPairs(pairs)
  }

  predicate LaxElement(e: Element) {
    RT.Blank(e.before) && LaxDerives(e.value) && RT.Blank(e.after)
  }

  predicate LaxElements(es: Elements) {
    match es
    case LastElement(e) => LaxElement(e)
    case MoreElements(e, rest) => LaxElement(e) && LaxElements(rest)
  }

  predicate LaxPair(p: Pair) {
    RT.Blank(p.before) && LaxString(p.name) && RT.Blank(p.between) && LaxElement(p.element)
  }

  predicate LaxPairs(ps: Pairs) {
    match ps
    case LastPair(p) => LaxPair(p)
    case MorePairs(p, rest) => LaxPair(p) && LaxPairs(rest)
  }

  /** The value of a derivation, its strings as the parser makes them. */
  function ValueOf(v: Value): Json
    requires LaxDerives(v)
  {
    match v
    case Literal(t) => if t == "null" then Null else if t == "false" then False else True
    case NumberValue(t) => Number(NumberOf(t))
    case StringValue(t) => Str(NameOf(t))
    case EmptyArray(_) => Array(NoItem)
    case FullArray(elements) => Array(ItemsOf(elements))
    case EmptyObject(_) => Object(NoMember)
    case FullObject(pairs) => Object(MembersOf(pairs))
  }

  function ItemsOf(es: Elements): Items
    requires LaxElements(es)
  {
    match es
    case LastElement(e) => Item(ElementOf(e), NoItem)
    case MoreElements(e, rest) => Item(ElementOf(e), ItemsOf(rest))
  }

  function ElementOf(e: Element): Json
    requires LaxElement(e)
  {
    ValueOf(e.value)
  }

  function NameOf(t: string): string
    requires LaxString(t)
  {
    Made(PiecesOf(Inside(t)))
  }

  function MemberOf(p: Pair, next: Members): Members
    requires LaxPair(p)
  {
    Member(NameOf(p.name), ElementOf(p.element), next)
  }

  function MembersOf(ps: Pairs): Members
    requires LaxPairs(ps)
  {
    match ps
    case LastPair(p) => MemberOf(p, NoMember)
    case MorePairs(p, rest) => MemberOf(p, MembersOf(rest))
  }

  lemma LaxStringRead(t: string, more: string)
    requires LaxString(t)
    ensures ReadString(t + more) == Ok(NameOf(t), more) && Starts(t + more, '\"')
  {
    QuotedRead(PiecesOf(Inside(t)), more);
    Quoted(t);
  }

  lemma StringValueRead(t: string, more: string)
    requires Starts(t + more, '\"') && ReadString(t + more).Ok?
    ensures ReadValue(t + more) == Ok(Str(ReadString(t + more).value), ReadString(t + more).rest)
  {}

  /** A value begins with something that is no white space and no bracket that closes. */
  lemma ValueBegins(v: Value, more: string)
    requires LaxDerives(v)
    ensures var t := Yield(v) + more; t != "" && t[0] as int > 32 && t[0] != ']' && t[0] != '}' && Skip(t) == t
  {}

  /** Any derivation is read as its value, up to where it ends. */
  lemma {:induction false} ValueRead(v: Value, more: string)
    requires LaxDerives(v) && Ends(more)
    ensures ReadValue(Yield(v) + more) == Ok(ValueOf(v), more)
    decreases v, 0
  {
    match v
    case Literal(t) => LiteralRead(t, more);
    case NumberValue(t) => NumberRead(t, more);
    case StringValue(t) =>
      LaxStringRead(t, more);
      StringValueRead(t, more);
    case EmptyArray(inside) => EmptyArrayRead(inside, more);
    case FullArray(elements) => ArrayRead(elements, more);
    case EmptyObject(inside) => EmptyObjectRead(inside, more);
    case FullObject(pairs) => ObjectRead(pairs, more);
  }

  lemma LiteralRead(t: string, more: string)
    requires t == "null" || t == "false" || t == "true"
    ensures ReadValue(t + more) == Ok(if t == "null" then Null else if t == "false" then False else True, more)
  {
    var all := t + more;
    assert all[0] == t[0] && t <= all && all[|t|..] == more;
  }

  lemma EmptyArrayRead(inside: string, more: string)
    requires RT.Blank(inside)
    ensures ReadValue("[" + inside + "]" + more) == Ok(Array(NoItem), more)
  {
    var t := "[" + inside + "]" + more;
    assert t[0] == '[' && t[1..] == inside + ("]" + more);
    RT.SkipBlank(inside, "]" + more);
    assert ("]" + more)[1..] == more;
    assert ReadArray(t) == Ok(NoItem, more);
  }

  lemma EmptyObjectRead(inside: string, more: string)
    requires RT.Blank(inside)
    ensures ReadValue("{" + inside + "}" + more) == Ok(Object(NoMember), more)
  {
    RT.EmptyObject(inside, more);
  }

  lemma {:induction false} ArrayRead(es: Elements, more: string)
    requires LaxElements(es)
    ensures ReadValue("[" + YieldElements(es) + "]" + more) == Ok(Array(ItemsOf(es)), more)
    decreases es, 2
  {
    var inner := YieldElements(es) + ("]" + more);
    ElementsRead(es, more);
    ElementsBegin(es, "]" + more);
    var t := "[" + YieldElements(es) + "]" + more;
    Inner("[", YieldElements(es), "]", more);
    ItemsSkipped(inner);
    ArrayReadAs(t, ItemsOf(es), more);
  }

  /** What stands behind an opening bracket. */
  lemma Inner(open: string, list: string, close: string, more: string)
    requires |open| == 1
    ensures var t := open + list + close + more; t[0] == open[0] && t[1..] == list + (close + more)
  {}

  lemma ItemsSkipped(t: string)
    ensures ReadItems(Skip(t)) == ReadItems(t)
  {
    RT.SkipTwice(t);
  }

  lemma ArrayReadAs(t: string, items: Items, more: string)
    requires Starts(t, '[') && ReadItems(Skip(t[1..])) == Ok(items, more) && !Starts(Skip(t[1..]), ']')
    ensures ReadValue(t) == Ok(Array(items), more)
  {
    assert ReadArray(t) == Ok(items, more);
  }

  lemma ElementBegins(e: Element, more: string)
    requires LaxElement(e)
    ensures Skip(YieldElement(e) + more) == Yield(e.value) + (e.after + more)
    ensures !Starts(Skip(YieldElement(e) + more), ']') && !Starts(Skip(YieldElement(e) + more), '}')
  {
    var t := Yield(e.value) + (e.after + more);
    assert YieldElement(e) + more == e.before + t;
    RT.SkipBlank(e.before, t);
    ValueBegins(e.value, e.after + more);
  }

  lemma ElementsBegin(es: Elements, more: string)
    requires LaxElements(es)
    ensures !Starts(Skip(YieldElements(es) + more), ']')
  {
    match es
    case LastElement(e) => ElementBegins(e, more);
    case MoreElements(e, rest) =>
      ElementBegins(e, "," + YieldElements(rest) + more);
      assert YieldElement(e) + "," + YieldElements(rest) + more == YieldElement(e) + ("," + YieldElements(rest) + more);
  }

  /** A value with white space around it, before a comma or a bracket. */
  lemma {:induction false} ElementRead(e: Element, more: string)
    requires LaxElement(e) && more != "" && (more[0] == ',' || more[0] == ']' || more[0] == '}')
    ensures var v := ReadValue(Skip(YieldElement(e) + more));
      v.Ok? && v.value == ElementOf(e) && Skip(v.rest) == more
    decreases e, 1
  {
    ElementBegins(e, more);
    assert e.after == "" ==> e.after + more == more;
    ValueRead(e.value, e.after + more);
    RT.SkipBlank(e.after, more);
  }

  lemma {:induction false} ElementsRead(es: Elements, more: string)
    requires LaxElements(es)
    ensures ReadItems(YieldElements(es) + ("]" + more)) == Ok(ItemsOf(es), more)
    decreases es, 1
  {
    match es
    case LastElement(e) =>
      ElementRead(e, "]" + more);
      LastItemRead(YieldElement(e) + ("]" + more), more);
    case MoreElements(e, rest) =>
      var next := YieldElements(rest) + ("]" + more);
      ElementsRead(rest, more);
      ElementRead(e, "," + next);
      ItemThenRead(YieldElement(e) + ("," + next), next);
      Behind(YieldElement(e), YieldElements(rest), "]" + more);
  }

  lemma Behind(a: string, b: string, c: string)
    ensures a + "," + b + c == a + ("," + (b + c))
  {}

  lemma LastItemRead(t: string, more: string)
    requires ReadValue(Skip(t)).Ok? && Skip(ReadValue(Skip(t)).rest) == "]" + more
    ensures ReadItems(t) == Ok(Item(ReadValue(Skip(t)).value, NoItem), more)
  {
    assert ("]" + more)[1..] == more;
  }

  lemma ItemThenRead(t: string, next: string)
    requires ReadValue(Skip(t)).Ok? && Skip(ReadValue(Skip(t)).rest) == "," + next && ReadItems(next).Ok?
    ensures ReadItems(t) == Ok(Item(ReadValue(Skip(t)).value, ReadItems(next).value), ReadItems(next).rest)
  {
    assert ("," + next)[1..] == next;
  }

  lemma {:induction false} ObjectRead(ps: Pairs, more: string)
    requires LaxPairs(ps)
    ensures ReadValue("{" + YieldPairs(ps) + "}" + more) == Ok(Object(MembersOf(ps)), more)
    decreases ps, 2
  {
    var inner := YieldPairs(ps) + ("}" + more);
    PairsRead(ps, more);
    PairsBegin(ps, "}" + more);
    var t := "{" + YieldPairs(ps) + "}" + more;
    Inner("{", YieldPairs(ps), "}", more);
    RT.MembersSkipped(inner);
    RT.ObjectRead(t, MembersOf(ps), more);
  }

  lemma PairBegins(p: Pair, more: string)
    requires LaxPair(p)
    ensures var t := Skip(YieldPair(p) + more);
      Starts(t, '\"') && t == p.name + (p.between + (":" + (YieldElement(p.element) + more)))
  {
    var t := p.name + (p.between + (":" + (YieldElement(p.element) + more)));
    assert YieldPair(p) + more == p.before + t;
    RT.SkipBlank(p.before, t);
    assert t[0] == '\"' && Skip(t) == t;
  }

  lemma PairsBegin(ps: Pairs, more: string)
    requires LaxPairs(ps)
    ensures Starts(Skip(YieldPairs(ps) + more), '\"')
  {
    match ps
    case LastPair(p) => PairBegins(p, more);
    case MorePairs(p, rest) =>
      PairBegins(p, "," + YieldPairs(rest) + more);
      assert YieldPair(p) + "," + YieldPairs(rest) + more == YieldPair(p) + ("," + YieldPairs(rest) + more);
  }

  /** The name, and behind its colon the value. */
  lemma NameRead(p: Pair, more: string)
    requires LaxPair(p)
    ensures var name := ReadString(Skip(YieldPair(p) + more));
      && name.Ok? && name.value == NameOf(p.name)
      && Starts(Skip(name.rest), ':') && Skip(name.rest)[1..] == YieldElement(p.element) + more
  {
    var behind := ":" + (YieldElement(p.element) + more);
    PairBegins(p, more);
    LaxStringRead(p.name, p.between + behind);
    RT.SkipBlank(p.between, behind);
    assert behind[1..] == YieldElement(p.element) + more && Skip(behind) == behind;
  }

  lemma {:induction false} PairsRead(ps: Pairs, more: string)
    requires LaxPairs(ps)
    ensures ReadMembers(YieldPairs(ps) + ("}" + more)) == Ok(MembersOf(ps), more)
    decreases ps, 1
  {
    match ps
    case LastPair(p) =>
      NameRead(p, "}" + more);
      ElementRead(p.element, "}" + more);
      LastMemberRead(YieldPair(p) + ("}" + more), YieldElement(p.element) + ("}" + more), more);
    case MorePairs(p, rest) =>
      var next := YieldPairs(rest) + ("}" + more);
      PairsRead(rest, more);
      NameRead(p, "," + next);
      ElementRead(p.element, "," + next);
      MemberThenRead(YieldPair(p) + ("," + next), YieldElement(p.element) + ("," + next), next);
      Behind(YieldPair(p), YieldPairs(rest), "}" + more);
  }

  lemma LastMemberRead(t: string, u: string, more: string)
    requires var name := ReadString(Skip(t));
      name.Ok? && Starts(Skip(name.rest), ':') && Skip(name.rest)[1..] == u
    requires ReadValue(Skip(u)).Ok? && Skip(ReadValue(Skip(u)).rest) == "}" + more
    ensures ReadMembers(t) == Ok(Member(ReadString(Skip(t)).value, ReadValue(Skip(u)).value, NoMember), more)
  {
    assert ("}" + more)[1..] == more;
  }

  lemma MemberThenRead(t: string, u: string, next: string)
    requires var name := ReadString(Skip(t));
      name.Ok? && Starts(Skip(name.rest), ':') && Skip(name.rest)[1..] == u
    requires ReadValue(Skip(u)).Ok? && Skip(ReadValue(Skip(u)).rest) == "," + next && ReadMembers(next).Ok?
    ensures ReadMembers(t) ==
      Ok(Member(ReadString(Skip(t)).value, ReadValue(Skip(u)).value, ReadMembers(next).value), ReadMembers(next).rest)
  {
    assert ("," + next)[1..] == next;
  }

  // ----- What RFC 8259 says -----

  /** Neither fraction nor exponent, and in the range of int. */
  predicate IntNumber(t: string) {
    '.' !in t && 'e' !in t && 'E' !in t && InRange(t)
  }

  predicate PairedString(t: string) {
    |t| > 1 && Paired(PiecesOf(Inside(t)))
  }

  /** Numbers are ints and surrogates are paired: what means the same to every reader. */
  predicate Common(v: Value) {
    match v
    case NumberValue(t) => IntNumber(t)
    case StringValue(t) => PairedString(t)
    case FullArray(elements) => CommonElements(elements)
    case FullObject(pairs) => CommonPairs(pairs)
    case _ => true
  }

  predicate CommonElement(e: Element) {
    Common(e.value)
  }

  predicate CommonElements(es: Elements) {
    match es
    case LastElement(e) => CommonElement(e)
    case MoreElements(e, rest) => CommonElement(e) && CommonElements(rest)
  }

  predicate CommonPair(p: Pair) {
    PairedString(p.name) && CommonElement(p.element)
  }

  predicate CommonPairs(ps: Pairs) {
    match ps
    case LastPair(p) => CommonPair(p)
    case MorePairs(p, rest) => CommonPair(p) && CommonPairs(rest)
  }

  /** The value that the text denotes. */
  function Denotes(v: Value): Json
    requires Derives(v) && Common(v)
  {
    match v
    case Literal(t) => if t == "null" then Null else if t == "false" then False else True
    case NumberValue(t) => Number(NumberOf(t))
    case StringValue(t) => Str(StringDenoted(t))
    case EmptyArray(_) => Array(NoItem)
    case FullArray(elements) => Array(ItemsDenoted(elements))
    case EmptyObject(_) => Object(NoMember)
    case FullObject(pairs) => Object(MembersDenoted(pairs))
  }

  function StringDenoted(t: string): string
    requires PairedString(t)
  {
    Denoted(PiecesOf(Inside(t)))
  }

  function ElementDenoted(e: Element): Json
    requires DerivesElement(e) && CommonElement(e)
  {
    Denotes(e.value)
  }

  function ItemsDenoted(es: Elements): Items
    requires DerivesElements(es) && CommonElements(es)
  {
    match es
    case LastElement(e) => Item(ElementDenoted(e), NoItem)
    case MoreElements(e, rest) => Item(ElementDenoted(e), ItemsDenoted(rest))
  }

  function MemberDenoted(p: Pair, next: Members): Members
    requires DerivesPair(p) && CommonPair(p)
  {
    Member(StringDenoted(p.name), ElementDenoted(p.element), next)
  }

  function MembersDenoted(ps: Pairs): Members
    requires DerivesPairs(ps) && CommonPairs(ps)
  {
    match ps
    case LastPair(p) => MemberDenoted(p, NoMember)
    case MorePairs(p, rest) => MemberDenoted(p, MembersDenoted(rest))
  }

  /** No escape in any string or name stands for NUL. */
  predicate NulFree(v: Value) {
    match v
    case StringValue(t) => NulFreeString(t)
    case FullArray(elements) => NulFreeElements(elements)
    case FullObject(pairs) => NulFreePairs(pairs)
    case _ => true
  }

  predicate NulFreeString(t: string) {
    |t| > 1 && NoNul(PiecesOf(Inside(t)))
  }

  predicate NulFreeElement(e: Element) {
    NulFree(e.value)
  }

  predicate NulFreeElements(es: Elements) {
    match es
    case LastElement(e) => NulFreeElement(e)
    case MoreElements(e, rest) => NulFreeElement(e) && NulFreeElements(rest)
  }

  predicate NulFreePair(p: Pair) {
    NulFreeString(p.name) && NulFreeElement(p.element)
  }

  predicate NulFreePairs(ps: Pairs) {
    match ps
    case LastPair(p) => NulFreePair(p)
    case MorePairs(p, rest) => NulFreePair(p) && NulFreePairs(rest)
  }

  lemma IntIsLax(t: string)
    requires NumberText(t) && IntNumber(t)
    ensures LaxNumber(t)
  {
    var m: nat, i: nat, f: nat :| m <= i <= f <= |t| && NumberParts(t, m, i, f);
    PointOrExponent(t[i..f], t[f..]);
    assert (forall c :: c in t[i..f] ==> c in t) && (forall c :: c in t[f..] ==> c in t);
    assert i == f == |t|;
    assert t[m..i] == t[m..] && (m == 0 ==> t[m..] == t);
    PartsAreLax(t[..m], t[m..], t);
  }

  lemma PointOrExponent(u: string, w: string)
    requires Fraction(u) && Exponent(w)
    ensures (u == "" || '.' in u) && (w == "" || 'e' in w || 'E' in w)
  {}

  lemma PartsAreLax(sign: string, d: string, t: string)
    requires (sign == "" || sign == "-") && IntPart(d) && t == sign + d
    ensures LaxNumber(t)
  {
    assert sign == "" ==> t == d;
    assert sign == "-" ==> t[1..] == d;
  }

  lemma PairedIsLax(t: string)
    requires StringText(t) && PairedString(t)
    ensures LaxString(t) && (NameOf(t) == StringDenoted(t) <==> NulFreeString(t))
  {
    CharsArePieces(Inside(t));
    MadeIsDenoted(PiecesOf(Inside(t)));
  }

  lemma WsIsBlank(t: string)
    requires Ws(t)
    ensures RT.Blank(t)
  {}

  /** What has a common meaning is accepted, and is read as it is meant if and only if no string holds a NUL. */
  lemma {:induction false} ValueMeant(v: Value)
    requires Derives(v) && Common(v)
    ensures LaxDerives(v) && (ValueOf(v) == Denotes(v) <==> NulFree(v))
    decreases v, 0
  {
    match v
    case NumberValue(t) => IntIsLax(t);
    case StringValue(t) => PairedIsLax(t);
    case EmptyArray(inside) => WsIsBlank(inside);
    case FullArray(elements) => ElementsMeant(elements);
    case EmptyObject(inside) => WsIsBlank(inside);
    case FullObject(pairs) => PairsMeant(pairs);
    case Literal(_) =>
  }

  lemma {:induction false} ElementMeant(e: Element)
    requires DerivesElement(e) && CommonElement(e)
    ensures LaxElement(e) && (ElementOf(e) == ElementDenoted(e) <==> NulFreeElement(e))
    decreases e, 1
  {
    WsIsBlank(e.before);
    WsIsBlank(e.after);
    ValueMeant(e.value);
  }

  lemma {:induction false} ElementsMeant(es: Elements)
    requires DerivesElements(es) && CommonElements(es)
    ensures LaxElements(es) && (ItemsOf(es) == ItemsDenoted(es) <==> NulFreeElements(es))
    decreases es, 2
  {
    match es
    case LastElement(e) => ElementMeant(e);
    case MoreElements(e, rest) =>
      ElementMeant(e);
      ElementsMeant(rest);
  }

  lemma {:induction false} PairMeant(p: Pair)
    requires DerivesPair(p) && CommonPair(p)
    ensures LaxPair(p)
    ensures NameOf(p.name) == StringDenoted(p.name) && ElementOf(p.element) == ElementDenoted(p.element) <==>
      NulFreePair(p)
    decreases p, 2
  {
    WsIsBlank(p.before);
    WsIsBlank(p.between);
    PairedIsLax(p.name);
    ElementMeant(p.element);
  }

  lemma {:induction false} PairsMeant(ps: Pairs)
    requires DerivesPairs(ps) && CommonPairs(ps)
    ensures LaxPairs(ps) && (MembersOf(ps) == MembersDenoted(ps) <==> NulFreePairs(ps))
    decreases ps, 3
  {
    match ps
    case LastPair(p) => PairMeant(p);
    case MorePairs(p, rest) =>
      PairMeant(p);
      PairsMeant(rest);
  }

  /**
    Every JSON text with int numbers and paired surrogates is accepted, up to the white space at its end; it is read
    as the value that it denotes if and only if no escape in it stands for NUL.
   */
  lemma TextDenotes(e: Element)
    requires DerivesElement(e) && CommonElement(e)
    ensures ReadValue(Skip(YieldElement(e))).Ok?
    ensures ReadValue(Skip(YieldElement(e))) == Ok(Denotes(e.value), e.after) <==> NulFree(e.value)
  {
    ElementMeant(e);
    ElementBegins(e, "");
    assert YieldElement(e) + "" == YieldElement(e) && e.after + "" == e.after;
    ValueRead(e.value, e.after);
  }

  // ----- Nothing else is accepted -----

  /** The value is read from exactly this derivation. */
  predicate Spells(v: Value, t: string, r: Parsed<Json>) {
    r.Ok? && LaxDerives(v) && t == Yield(v) + r.rest && r.value == ValueOf(v)
  }

  lemma {:induction false} SkipTaken(t: string) returns (gap: string)
    ensures RT.Blank(gap) && t == gap + Skip(t)
    decreases |t|
  {
    if t != "" && 0 < t[0] as int <= 32 {
      gap := SkipTaken(t[1..]);
      gap := [t[0]] + gap;
    } else {
      gap := "";
    }
  }

  lemma {:induction false} DigitsTaken(u: string, acc: nat) returns (d: string)
    ensures AllDigits(d) && u == d + ReadDigits(u, acc).1 && !IsDigit(ReadDigits(u, acc).1)
    ensures d == "" || d[0] == u[0]
    decreases |u|
  {
    if IsDigit(u) {
      d := DigitsTaken(u[1..], acc * 10 + (u[0] - '0') as nat);
      d := [u[0]] + d;
    } else {
      d := "";
    }
  }

  lemma SomeTaken(u: string) returns (d: string)
    ensures AllDigits(d) && u == d + SomeDigits(u).1 && SomeDigits(u).0 == DecimalOf(d) && (d != "" ==> d[0] != '0')
    ensures IsDigit(u) && u[0] != '0' ==> d != ""
  {
    if IsDigit(u) && u[0] != '0' {
      d := DigitsTaken(u, 0);
      DigitsRead("", 0, d, SomeDigits(u).1);
      assert "" + d == d;
    } else {
      d := "";
    }
  }

  lemma UnsignedTaken(t: string) returns (d: string)
    ensures var r := SomeDigits(BehindZero(t));
      LaxDigits(d) && t == d + r.1 && r.0 == DecimalOf(d) && (IsDigit(t) ==> d != "")
  {
    d := SomeTaken(BehindZero(t));
    if Starts(t, '0') {
      LeadingZero(d);
      assert t == "0" + t[1..];
      d := "0" + d;
    }
  }

  lemma NumberAccepted(t: string) returns (u: string)
    requires (Starts(t, '-') || IsDigit(t)) && ReadNumber(t).Ok?
    ensures var r := ReadNumber(t);
      LaxNumber(u) && InRange(u) && t == u + r.rest && r.value == Number(NumberOf(u))
  {
    var t1 := if t[0] == '-' then t[1..] else t;
    var d := UnsignedTaken(t1);
    NumberTaken(t, t1);
    u := if t[0] == '-' then "-" + d else d;
    SignInFront(t, t1, d, ReadNumber(t).rest);
  }

  lemma SignInFront(t: string, t1: string, d: string, rest: string)
    requires t != "" && t1 == (if t[0] == '-' then t[1..] else t) && t1 == d + rest && LaxDigits(d)
    requires t[0] != '-' ==> d != ""
    ensures var u := if t[0] == '-' then "-" + d else d;
      && t == u + rest && LaxNumber(u) && NumberOf(u) == if t[0] == '-' then -DecimalOf(d) else DecimalOf(d)
  {
    if t[0] == '-' {
      assert t == "-" + t1 && ("-" + d)[1..] == d;
    }
  }

  lemma NumberTaken(t: string, t1: string)
    requires (Starts(t, '-') || IsDigit(t)) && t1 == (if t[0] == '-' then t[1..] else t) && ReadNumber(t).Ok?
    ensures var d := SomeDigits(BehindZero(t1)); var n: int := if t[0] == '-' then -(d.0 as int) else d.0;
      ReadNumber(t) == Ok(Number(n), d.1) && INT_MIN <= n <= INT_MAX
  {}

  /**
    Every text that is accepted begins with a derivation of the wider grammar and is read as its value, or it is a
    string that is never closed.
   */
  lemma {:induction false} ValueAccepted(t: string) returns (v: Value, open: seq<Piece>)
    requires ReadValue(t).Ok?
    ensures var r := ReadValue(t);
      Spells(v, t, r) || (r.rest == "" && AllLax(open) && t == "\"" + Raw(open) && r.value == Str(Made(open)))
    decreases |t|, 1
  {
    open := [];
    if "null" <= t {
      v := Literal("null");
    } else if "false" <= t {
      v := Literal("false");
    } else if "true" <= t {
      v := Literal("true");
    } else if Starts(t, '\"') {
      v, open := StringValueAccepted(t);
    } else if Starts(t, '-') || IsDigit(t) {
      var u := NumberAccepted(t);
      v := NumberValue(u);
    } else if Starts(t, '[') {
      v := ArrayAccepted(t);
    } else {
      v := ObjectAccepted(t);
    }
  }

  lemma StringValueAccepted(t: string) returns (v: Value, open: seq<Piece>)
    requires Starts(t, '\"') && ReadValue(t).Ok?
    ensures var r := ReadValue(t);
      Spells(v, t, r) || (r.rest == "" && AllLax(open) && t == "\"" + Raw(open) && r.value == Str(Made(open)))
  {
    StringTaken(t);
    open := StringAccepted(t);
    v := StringValue("\"" + Raw(open) + "\"");
    ClosedString(open);
  }

  lemma StringTaken(t: string)
    requires Starts(t, '\"') && ReadValue(t).Ok?
    ensures ReadString(t).Ok? && ReadValue(t) == Ok(Str(ReadString(t).value), ReadString(t).rest)
  {}

  lemma ClosedString(ps: seq<Piece>)
    requires AllLax(ps)
    ensures var t := "\"" + Raw(ps) + "\""; LaxString(t) && Inside(t) == Raw(ps) && NameOf(t) == Made(ps)
  {
    PiecesBack(ps);
    var t := "\"" + Raw(ps) + "\"";
    assert Inside(t) == Raw(ps);
  }

  lemma {:induction false} ArrayAccepted(t: string) returns (v: Value)
    requires Starts(t, '[') && ReadValue(t).Ok?
    ensures Spells(v, t, ReadValue(t))
    decreases |t|, 0
  {
    ArrayTaken(t);
    if Starts(Skip(t[1..]), ']') {
      var inside := SkipTaken(t[1..]);
      v := EmptyArray(inside);
      Around("[", inside, "]", Skip(t[1..])[1..], t);
    } else {
      var es := ItemsAccepted(t[1..]);
      v := FullArray(es);
      Around("[", YieldElements(es), "]", ReadItems(t[1..]).rest, t);
    }
  }

  lemma ArrayTaken(t: string)
    requires Starts(t, '[') && ReadValue(t).Ok?
    ensures t == "[" + t[1..]
    ensures if Starts(Skip(t[1..]), ']')
      then Skip(t[1..]) == "]" + Skip(t[1..])[1..] && ReadValue(t) == Ok(Array(NoItem), Skip(t[1..])[1..])
      else ReadItems(t[1..]).Ok? && ReadValue(t) == Ok(Array(ReadItems(t[1..]).value), ReadItems(t[1..]).rest)
  {
    ItemsSkipped(t[1..]);
    assert ReadArray(t).Ok?;
  }

  lemma Around(open: string, list: string, close: string, rest: string, t: string)
    requires t == open + (list + (close + rest))
    ensures t == open + list + close + rest
  {}

  /** An element, its white space included, and what stops it. */
  lemma {:induction false} ElementAccepted(t: string) returns (e: Element)
    requires var v := ReadValue(Skip(t)); v.Ok? && Skip(v.rest) != ""
    ensures var v := ReadValue(Skip(t));
      LaxElement(e) && t == YieldElement(e) + Skip(v.rest) && v.value == ElementOf(e)
    decreases |t|, 2
  {
    var before := SkipTaken(t);
    var v, open := ValueAccepted(Skip(t));
    var r := ReadValue(Skip(t));
    assert r.rest != "" by {
      assert Skip("") == "";
    }
    var after := SkipTaken(r.rest);
    e := Element(before, v, after);
    AroundValue(before, Yield(v), after, Skip(r.rest));
  }

  lemma AroundValue(a: string, y: string, b: string, c: string)
    ensures a + (y + (b + c)) == a + y + b + c
  {}

  lemma {:induction false} ItemsAccepted(t: string) returns (es: Elements)
    requires ReadItems(t).Ok?
    ensures var r := ReadItems(t);
      LaxElements(es) && t == YieldElements(es) + ("]" + r.rest) && r.value == ItemsOf(es)
    decreases |t|, 3
  {
    ItemsTaken(t);
    var e := ElementAccepted(t);
    var stop := Skip(ReadValue(Skip(t)).rest);
    if stop[0] == ',' {
      var rest := ItemsAccepted(stop[1..]);
      es := MoreElements(e, rest);
      Behind(YieldElement(e), YieldElements(rest), "]" + ReadItems(t).rest);
    } else {
      es := LastElement(e);
    }
  }

  lemma ItemsTaken(t: string)
    requires ReadItems(t).Ok?
    ensures var v := ReadValue(Skip(t));
      && v.Ok? && Skip(v.rest) != ""
      && var stop := Skip(v.rest);
         && stop == [stop[0]] + stop[1..]
         && if stop[0] == ',' then
              var more := ReadItems(stop[1..]);
              more.Ok? && ReadItems(t) == Ok(Item(v.value, more.value), more.rest)
            else stop[0] == ']' && ReadItems(t) == Ok(Item(v.value, NoItem), stop[1..])
  {}

  lemma {:induction false} ObjectAccepted(t: string) returns (v: Value)
    requires Starts(t, '{') && ReadValue(t).Ok?
    ensures Spells(v, t, ReadValue(t))
    decreases |t|, 0
  {
    ObjectTaken(t);
    if Starts(Skip(t[1..]), '}') {
      var inside := SkipTaken(t[1..]);
      v := EmptyObject(inside);
      Around("{", inside, "}", Skip(t[1..])[1..], t);
    } else {
      var ps := MembersAccepted(t[1..]);
      v := FullObject(ps);
      Around("{", YieldPairs(ps), "}", ReadMembers(t[1..]).rest, t);
    }
  }

  lemma ObjectTaken(t: string)
    requires Starts(t, '{') && ReadValue(t).Ok?
    ensures t == "{" + t[1..]
    ensures if Starts(Skip(t[1..]), '}')
      then Skip(t[1..]) == "}" + Skip(t[1..])[1..] && ReadValue(t) == Ok(Object(NoMember), Skip(t[1..])[1..])
      else ReadMembers(t[1..]).Ok? && ReadValue(t) == Ok(Object(ReadMembers(t[1..]).value), ReadMembers(t[1..]).rest)
  {
    RT.MembersSkipped(t[1..]);
    assert ReadObject(t).Ok?;
  }

  lemma NameAccepted(t: string) returns (before: string, name: string, between: string)
    requires ReadString(Skip(t)).Ok? && Starts(Skip(ReadString(Skip(t)).rest), ':')
    ensures var n := ReadString(Skip(t));
      && RT.Blank(before) && LaxString(name) && RT.Blank(between) && n.value == NameOf(name)
      && t == before + name + between + ":" + Skip(n.rest)[1..]
  {
    before := SkipTaken(t);
    var ps := StringAccepted(Skip(t));
    ClosedString(ps);
    name := "\"" + Raw(ps) + "\"";
    var n := ReadString(Skip(t));
    between := SkipTaken(n.rest);
    var behind := Skip(n.rest);
    assert behind == ":" + behind[1..] && n.rest != "";
    FourParts(before, name, between, behind[1..]);
  }

  lemma FourParts(a: string, b: string, c: string, d: string)
    ensures a + (b + (c + (":" + d))) == a + b + c + ":" + d
  {}

  lemma {:induction false} MembersAccepted(t: string) returns (ps: Pairs)
    requires ReadMembers(t).Ok?
    ensures var r := ReadMembers(t);
      LaxPairs(ps) && t == YieldPairs(ps) + ("}" + r.rest) && r.value == MembersOf(ps)
    decreases |t|, 3
  {
    MembersTaken(t);
    var u := Skip(ReadString(Skip(t)).rest)[1..];
    var e := ElementAccepted(u);
    var stop := Skip(ReadValue(Skip(u)).rest);
    var p := PairAccepted(t, u, e, stop);
    if stop[0] == ',' {
      var rest := MembersAccepted(stop[1..]);
      ps := MorePairs(p, rest);
      Behind(YieldPair(p), YieldPairs(rest), "}" + ReadMembers(t).rest);
    } else {
      ps := LastPair(p);
    }
  }

  lemma PairAccepted(t: string, u: string, e: Element, stop: string) returns (p: Pair)
    requires ReadString(Skip(t)).Ok? && Starts(Skip(ReadString(Skip(t)).rest), ':')
    requires u == Skip(ReadString(Skip(t)).rest)[1..] && LaxElement(e) && u == YieldElement(e) + stop
    ensures LaxPair(p) && t == YieldPair(p) + stop && p.element == e && NameOf(p.name) == ReadString(Skip(t)).value
  {
    var before, name, between := NameAccepted(t);
    p := Pair(before, name, between, e);
    RT.Regroup2(before + name + between + ":", YieldElement(e), stop);
  }

  lemma MembersTaken(t: string)
    requires ReadMembers(t).Ok?
    ensures var name := ReadString(Skip(t));
      && name.Ok? && Starts(Skip(name.rest), ':')
      && var u := Skip(name.rest)[1..]; var v := ReadValue(Skip(u));
         && v.Ok? && Skip(v.rest) != "" && |u| < |t|
         && var stop := Skip(v.rest);
            && stop == [stop[0]] + stop[1..] && |stop| < |t|
            && if stop[0] == ',' then
                 var more := ReadMembers(stop[1..]);
                 more.Ok? && ReadMembers(t) == Ok(Member(name.value, v.value, more.value), more.rest)
               else stop[0] == '}' && ReadMembers(t) == Ok(Member(name.value, v.value, NoMember), stop[1..])
  {}
}
