/**
  What a quoted string of a JSON text means, by section 7 of RFC 8259, and what the parser of `lch/util/cJSON.c` makes
  of it: for every string that can be written, and of every text that it accepts.
 */
module JsonStrings {
  import opened JsonText
  import G = JsonGrammar
  import RT = JsonRoundTrip

  // ----- The pieces of a string -----

  /** A character as it is, a backslash with a character, or "\u" with four characters. */
  datatype Piece = Plain(c: char) | Escaped(c: char) | Unit(a: char, b: char, c: char, d: char)

  function RawOf(p: Piece): string {
    match p
    case Plain(c) => [c]
    case Escaped(c) => ['\\', c]
    case Unit(a, b, c, d) => ['\\', 'u', a, b, c, d]
  }

  function Raw(ps: seq<Piece>): string {
    if ps == [] then "" else RawOf(ps[0]) + Raw(ps[1..])
  }

  /** What the grammar allows. */
  predicate Strict(p: Piece) {
    match p
    case Plain(c) => c as int >= 0x20 && c != '\"' && c != '\\'
    case Escaped(c) => c in "\"\\/bfnrt"
    case Unit(a, b, c, d) => DigitOf(a) < 16 && DigitOf(b) < 16 && DigitOf(c) < 16 && DigitOf(d) < 16
  }

  /** What the parser accepts. */
  predicate Lax(p: Piece) {
    match p
    case Plain(c) => c != '\"' && c != '\\'
    case Escaped(c) => c != 'u'
    case Unit(_, _, _, _) => true
  }

  predicate AllStrict(ps: seq<Piece>) {
    forall i :: 0 <= i < |ps| ==> Strict(ps[i])
  }

  predicate AllLax(ps: seq<Piece>) {
    forall i :: 0 <= i < |ps| ==> Lax(ps[i])
  }

  /** The hexadecimal digits, in either case; 16 for what is none. */
  function DigitOf(c: char): nat {
    match c
    case '0' => 0  case '1' => 1  case '2' => 2  case '3' => 3  case '4' => 4
    case '5' => 5  case '6' => 6  case '7' => 7  case '8' => 8  case '9' => 9
    case 'a' => 10  case 'b' => 11  case 'c' => 12  case 'd' => 13  case 'e' => 14  case 'f' => 15
    case 'A' => 10  case 'B' => 11  case 'C' => 12  case 'D' => 13  case 'E' => 14  case 'F' => 15
    case _ => 16
  }

  /** The number in a unit; 0 if a digit is none. */
  function Code(p: Piece): nat
    requires p.Unit?
    ensures Code(p) < 65536
  {
    var a, b, c, d := DigitOf(p.a), DigitOf(p.b), DigitOf(p.c), DigitOf(p.d);
    if a < 16 && b < 16 && c < 16 && d < 16 then 4096 * a + 256 * b + 16 * c + d else 0
  }

  /** The two-character escapes of section 7; for other characters, which it does not allow, the character itself. */
  function Meant(c: char): char {
    match c
    case '\"' => '\"'
    case '\\' => '\\'
    case '/' => '/'
    case 'b' => 8 as char
    case 'f' => 12 as char
    case 'n' => 10 as char
    case 'r' => 13 as char
    case 't' => 9 as char
    case _ => c
  }

  /** UTF-8, section 3 of RFC 3629. */
  function Octets(n: nat): string
    requires n < 0x110000
  {
    if n < 0x80 then [n as char]
    else if n < 0x800 then [(0xC0 + n / 64) as char, (0x80 + n % 64) as char]
    else if n < 0x10000 then [(0xE0 + n / 4096) as char, (0x80 + n / 64 % 64) as char, (0x80 + n % 64) as char]
    else
      [(0xF0 + n / 262144) as char, (0x80 + n / 4096 % 64) as char, (0x80 + n / 64 % 64) as char,
       (0x80 + n % 64) as char]
  }

  predicate High(p: Piece) {
    p.Unit? && 0xD800 <= Code(p) <= 0xDBFF
  }

  predicate Low(p: Piece) {
    p.Unit? && 0xDC00 <= Code(p) <= 0xDFFF
  }

  /** The character that a pair of surrogates stands for. */
  function PairOf(high: Piece, low: Piece): string
    requires High(high) && Low(low)
  {
    Octets(0x10000 + (Code(high) - 0xD800) * 1024 + (Code(low) - 0xDC00))
  }

  // ----- What it denotes -----

  /** High surrogates are followed by low ones, and low ones follow only these. */
  predicate Paired(ps: seq<Piece>)
    decreases |ps|
  {
    ps == [] ||
    (if High(ps[0]) then |ps| > 1 && Low(ps[1]) && Paired(ps[2..]) else !Low(ps[0]) && Paired(ps[1..]))
  }

  /** By RFC 8259. */
  function Denoted(ps: seq<Piece>): string
    requires Paired(ps)
    decreases |ps|
  {
    if ps == [] then ""
    else if ps[0].Plain? then [ps[0].c] + Denoted(ps[1..])
    else if ps[0].Escaped? then [Meant(ps[0].c)] + Denoted(ps[1..])
    else if High(ps[0]) then PairOf(ps[0], ps[1]) + Denoted(ps[2..])
    else Octets(Code(ps[0])) + Denoted(ps[1..])
  }

  /** By the parser: the NUL, surrogates out of place and units without digits leave nothing. */
  function Made(ps: seq<Piece>): string
    decreases |ps|
  {
    if ps == [] then ""
    else if ps[0].Plain? then [ps[0].c] + Made(ps[1..])
    else if ps[0].Escaped? then [Meant(ps[0].c)] + Made(ps[1..])
    else if Low(ps[0]) || Code(ps[0]) == 0 then Made(ps[1..])
    else if !High(ps[0]) then Octets(Code(ps[0])) + Made(ps[1..])
    else if |ps| == 1 || !ps[1].Unit? then Made(ps[1..])
    else (if Low(ps[1]) then PairOf(ps[0], ps[1]) else "") + Made(ps[2..])
  }

  predicate NoNul(ps: seq<Piece>) {
    forall i :: 0 <= i < |ps| ==> ps[i].Unit? ==> Code(ps[i]) != 0
  }

  /** The parser makes what is denoted if and only if no escape stands for NUL. */
  lemma {:induction false} MadeIsDenoted(ps: seq<Piece>)
    requires Paired(ps)
    ensures |Made(ps)| <= |Denoted(ps)|
    ensures Made(ps) == Denoted(ps) <==> NoNul(ps)
    decreases |ps|
  {
    if ps != [] {
      if High(ps[0]) {
        MadeIsDenoted(ps[2..]);
        Taken(ps, 2);
        SameFront(PairOf(ps[0], ps[1]), Made(ps[2..]), Denoted(ps[2..]));
      } else {
        MadeIsDenoted(ps[1..]);
        Taken(ps, 1);
        SameFront(OneMade(ps[0]), Made(ps[1..]), Denoted(ps[1..]));
      }
    }
  }

  /** What a piece that is no surrogate leaves. */
  function OneMade(p: Piece): string
    requires !High(p) && !Low(p)
  {
    match p
    case Plain(c) => [c]
    case Escaped(c) => [Meant(c)]
    case Unit(_, _, _, _) => Octets(Code(p))
  }

  lemma Taken(ps: seq<Piece>, n: nat)
    requires 0 < n <= |ps| && n <= 2
    ensures NoNul(ps) <==> NoNul(ps[n..]) && (ps[0].Unit? ==> Code(ps[0]) != 0) &&
                           (n == 2 && ps[1].Unit? ==> Code(ps[1]) != 0)
  {
    assert forall i :: n <= i < |ps| ==> ps[i] == ps[n..][i - n];
  }

  lemma SameFront(a: string, b: string, c: string)
    ensures a + b == a + c <==> b == c
  {
    assert (a + b)[|a|..] == b && (a + c)[|a|..] == c;
  }

  // ----- The parser, piece by piece -----

  lemma DigitRead(c: char)
    ensures Hex(c) == if DigitOf(c) < 16 then Ok(DigitOf(c), "") else Fail
  {}

  lemma CodeRead(p: Piece, t: string)
    requires p.Unit?
    ensures Hex4([p.a, p.b, p.c, p.d] + t) == Code(p)
  {
    DigitRead(p.a);
    DigitRead(p.b);
    DigitRead(p.c);
    DigitRead(p.d);
  }

  lemma MeantRead(c: char)
    ensures Unescaped(c) == Meant(c)
  {}

  lemma OctetsMade(n: nat)
    requires 0 < n < 0x110000
    ensures Utf8(n) == Octets(n)
  {
    if n < 0x80 {
    } else if n < 0x800 {
      assert Utf8Bytes(n, 2, 0xC0) == Utf8Bytes(n / 64, 1, 0xC0) + [(0x80 + n % 64) as char];
    } else if n < 0x10000 {
      assert Utf8Bytes(n, 3, 0xE0) == Utf8Bytes(n / 64, 2, 0xE0) + [(0x80 + n % 64) as char];
      assert n / 64 / 64 == n / 4096;
    } else {
      assert Utf8Bytes(n, 4, 0xF0) == Utf8Bytes(n / 64, 3, 0xF0) + [(0x80 + n % 64) as char];
      assert Utf8Bytes(n / 64, 3, 0xF0) == Utf8Bytes(n / 4096, 2, 0xF0) + [(0x80 + n / 64 % 64) as char] by {
        assert n / 64 / 64 == n / 4096;
      }
      assert n / 4096 / 64 == n / 262144;
    }
  }

  /** The first piece, or a pair of units, and what is left. */
  function Width(ps: seq<Piece>): (n: nat)
    requires ps != []
    ensures 0 < n <= |ps|
  {
    if High(ps[0]) && |ps| > 1 && ps[1].Unit? then 2 else 1
  }

  function FirstMade(ps: seq<Piece>): string
    requires ps != []
  {
    if !ps[0].Unit? then OneMade(ps[0])
    else if Low(ps[0]) || Code(ps[0]) == 0 then ""
    else if !High(ps[0]) then OneMade(ps[0])
    else if Width(ps) == 2 && Low(ps[1]) then PairOf(ps[0], ps[1])
    else ""
  }

  lemma MadeFirst(ps: seq<Piece>)
    requires ps != []
    ensures Made(ps) == FirstMade(ps) + Made(ps[Width(ps)..])
  {
    assert "" + Made(ps[Width(ps)..]) == Made(ps[Width(ps)..]);
  }

  lemma {:induction false} RawFirst(ps: seq<Piece>)
    requires ps != []
    ensures var n := Width(ps);
      Raw(ps) == (if n == 2 then RawOf(ps[0]) + RawOf(ps[1]) else RawOf(ps[0])) + Raw(ps[n..])
  {
    if Width(ps) == 2 {
      assert ps[1..][1..] == ps[2..] && ps[1..][0] == ps[1];
    }
  }

  /** A unit on its own: the text behind it does not go on with another one, unless the first is not high. */
  lemma UnitAlone(p: Piece, t: string)
    requires p.Unit? && (High(p) ==> !("\\u" <= t))
    ensures ReadUnicode([p.a, p.b, p.c, p.d] + t) == Ok(if Low(p) || High(p) || Code(p) == 0 then "" else OneMade(p), t)
  {
    var u := [p.a, p.b, p.c, p.d] + t;
    CodeRead(p, t);
    assert u[4..] == t;
    if High(p) {
      assert |t| > 1 ==> u[4] == t[0] && u[5] == t[1];
      assert |t| > 1 && t[0] == '\\' && t[1] == 'u' ==> "\\u" <= t;
    } else if !Low(p) && Code(p) != 0 {
      OctetsMade(Code(p));
    }
  }

  function FourOf(p: Piece): (s: string)
    requires p.Unit?
    ensures |s| == 4
  {
    [p.a, p.b, p.c, p.d]
  }

  lemma Slices(a: string, b: string, c: string, t: string)
    requires |a| == 4 && |b| == 2 && |c| == 4
    ensures var u := a + (b + (c + t));
      && u[4..] == b + (c + t) && u[6..] == c + t && u[10..] == t && u[4] == b[0] && u[5] == b[1] && |u| >= 10
  {}

  lemma UnitPair(p: Piece, q: Piece, t: string)
    requires High(p) && q.Unit?
    ensures ReadUnicode(FourOf(p) + ("\\u" + (FourOf(q) + t))) == Ok(if Low(q) then PairOf(p, q) else "", t)
  {
    Slices(FourOf(p), "\\u", FourOf(q), t);
    CodeRead(p, "\\u" + (FourOf(q) + t));
    CodeRead(q, t);
    PairMade(p, q);
  }

  lemma PairMade(p: Piece, q: Piece)
    requires High(p)
    ensures Low(q) ==> Utf8(0x10000 + (Code(p) % 1024) * 1024 + Code(q) % 1024) == PairOf(p, q)
  {
    if Low(q) {
      Surrogates(Code(p), Code(q));
    }
  }

  lemma Surrogates(x: nat, y: nat)
    requires 0xD800 <= x <= 0xDBFF && 0xDC00 <= y <= 0xDFFF
    ensures var n := 0x10000 + (x - 0xD800) * 1024 + (y - 0xDC00);
      && n == 0x10000 + (x % 1024) * 1024 + y % 1024 && 0 < n < 0x110000 && Utf8(n) == Octets(n)
  {
    LowBits(x, 54);
    LowBits(y, 55);
    OctetsMade(0x10000 + (x - 0xD800) * 1024 + (y - 0xDC00));
  }

  lemma LowBits(x: nat, k: nat)
    requires 1024 * k <= x < 1024 * k + 1024
    ensures x % 1024 == x - 1024 * k
  {}

  // ----- Strings are read -----

  /** What stands behind the pieces cannot be taken for another unit. */
  predicate Stopped(t: string) {
    t == "" || t[0] == '\"'
  }

  lemma {:induction false} InsideRead(ps: seq<Piece>, t: string)
    requires AllLax(ps) && Stopped(t)
    ensures ReadInside(Raw(ps) + t) == Before(Made(ps), ReadInside(t))
    decreases |ps|
  {
    if ps == [] {
      assert Raw(ps) + t == t;
      Joined("", "", ReadInside(t));
    } else {
      var n := Width(ps);
      InsideRead(ps[n..], t);
      FirstRead(ps, t);
      MadeFirst(ps);
      Joined(FirstMade(ps), Made(ps[n..]), ReadInside(t));
    }
  }

  lemma FirstRead(ps: seq<Piece>, t: string)
    requires ps != [] && AllLax(ps) && Stopped(t)
    ensures ReadInside(Raw(ps) + t) == Before(FirstMade(ps), ReadInside(Raw(ps[Width(ps)..]) + t))
  {
    var n := Width(ps);
    var rest := Raw(ps[n..]) + t;
    RawFirst(ps);
    NoUnitNext(ps, t);
    if n == 2 {
      PairInside(ps[0], ps[1], rest);
      RT.Regroup2(RawOf(ps[0]) + RawOf(ps[1]), Raw(ps[n..]), t);
    } else {
      PieceInside(ps[0], rest);
      RT.Regroup2(RawOf(ps[0]), Raw(ps[n..]), t);
    }
  }

  lemma Joined(a: string, b: string, p: Parsed<string>)
    ensures Before(a, Before(b, p)) == Before(a + b, p) && Before("", p) == p
  {
    if p.Ok? {
      RT.Regroup2(a, b, p.value);
      assert "" + p.value == p.value;
    }
  }

  lemma NoUnitNext(ps: seq<Piece>, t: string)
    requires ps != [] && AllLax(ps) && Stopped(t)
    ensures Width(ps) == 1 && High(ps[0]) ==> !("\\u" <= Raw(ps[1..]) + t)
  {
    if |ps| > 1 {
      assert Lax(ps[1]) && ps[1..][0] == ps[1];
      var next := Raw(ps[1..]) + t;
      assert next == RawOf(ps[1]) + (Raw(ps[1..][1..]) + t);
      if ps[1].Plain? {
        assert next[0] == ps[1].c;
      } else if ps[1].Escaped? {
        assert next[1] == ps[1].c;
      }
    } else {
      assert Raw(ps[1..]) + t == t;
    }
  }

  lemma PieceInside(p: Piece, rest: string)
    requires Lax(p) && (High(p) ==> !("\\u" <= rest))
    ensures ReadInside(RawOf(p) + rest) ==
      Before(if p.Unit? && (Low(p) || High(p) || Code(p) == 0) then "" else OneMade(p), ReadInside(rest))
  {
    var u := RawOf(p) + rest;
    match p
    case Plain(c) => assert u[0] == c && u[1..] == rest;
    case Escaped(c) =>
      assert u[0] == '\\' && u[1] == c && u[2..] == rest;
      MeantRead(c);
    case Unit(a, b, c, d) =>
      UnitAlone(p, rest);
      assert u[0] == '\\' && u[1] == 'u' && u[2..] == [a, b, c, d] + rest;
  }

  lemma PairInside(p: Piece, q: Piece, rest: string)
    requires High(p) && q.Unit?
    ensures ReadInside(RawOf(p) + RawOf(q) + rest) == Before(if Low(q) then PairOf(p, q) else "", ReadInside(rest))
  {
    var u := RawOf(p) + RawOf(q) + rest;
    UnitPair(p, q, rest);
    PairText(p, q, rest);
    assert u[0] == '\\' && u[1] == 'u';
  }

  lemma PairText(p: Piece, q: Piece, rest: string)
    requires p.Unit? && q.Unit?
    ensures (RawOf(p) + RawOf(q) + rest)[2..] == FourOf(p) + ("\\u" + (FourOf(q) + rest))
  {
    assert RawOf(p) == "\\u" + FourOf(p) && RawOf(q) == "\\u" + FourOf(q);
  }

  // ----- Every string text -----

  /** The pieces of the inside of a string; a broken escape at the end is left out. */
  function PiecesOf(t: string): seq<Piece>
    decreases |t|
  {
    if t == "" then []
    else if t[0] != '\\' then [Plain(t[0])] + PiecesOf(t[1..])
    else if |t| > 5 && t[1] == 'u' then [Unit(t[2], t[3], t[4], t[5])] + PiecesOf(t[6..])
    else if |t| > 1 && t[1] != 'u' then [Escaped(t[1])] + PiecesOf(t[2..])
    else []
  }

  lemma {:induction false} CharsArePieces(t: string)
    requires G.Chars(t)
    ensures AllStrict(PiecesOf(t)) && Raw(PiecesOf(t)) == t
    decreases |t|
  {
    if t != "" {
      var p, n := FirstOfChars(t);
      CharsArePieces(t[n..]);
      PieceInFront(p, PiecesOf(t[n..]), t, n);
    }
  }

  lemma PieceInFront(p: Piece, ps: seq<Piece>, t: string, n: nat)
    requires n <= |t| && RawOf(p) == t[..n] && Strict(p) && AllStrict(ps) && Raw(ps) == t[n..]
    ensures AllStrict([p] + ps) && Raw([p] + ps) == t
  {
    assert ([p] + ps)[1..] == ps && t == t[..n] + t[n..];
  }

  /** The first piece of the inside of a string. */
  lemma FirstOfChars(t: string) returns (p: Piece, n: nat)
    requires t != "" && G.Chars(t)
    ensures 0 < n <= |t| && Strict(p) && RawOf(p) == t[..n] && G.Chars(t[n..])
    ensures PiecesOf(t) == [p] + PiecesOf(t[n..])
  {
    CharsCut(t);
    if t[0] != '\\' {
      p, n := Plain(t[0]), 1;
    } else if t[1] == 'u' {
      p, n := Unit(t[2], t[3], t[4], t[5]), 6;
      HexDigits(t);
      UnitFront(t);
    } else {
      p, n := Escaped(t[1]), 2;
    }
  }

  lemma UnitFront(t: string)
    requires |t| > 5 && t[0] == '\\' && t[1] == 'u'
    ensures RawOf(Unit(t[2], t[3], t[4], t[5])) == t[..6]
  {}

  lemma CharsCut(t: string)
    requires t != "" && G.Chars(t)
    ensures if t[0] != '\\' then Strict(Plain(t[0])) && G.Chars(t[1..])
      else |t| > 1 && if t[1] == 'u' then |t| > 5 && G.HexText(t[2..6]) && G.Chars(t[6..])
                      else Strict(Escaped(t[1])) && G.Chars(t[2..])
  {}

  lemma HexDigits(t: string)
    requires |t| > 5 && G.HexText(t[2..6])
    ensures DigitOf(t[2]) < 16 && DigitOf(t[3]) < 16 && DigitOf(t[4]) < 16 && DigitOf(t[5]) < 16
  {
    var h := t[2..6];
    assert h[0] == t[2] && h[1] == t[3] && h[2] == t[4] && h[3] == t[5];
    DigitRead(h[0]);
    DigitRead(h[1]);
    DigitRead(h[2]);
    DigitRead(h[3]);
  }

  /** What stands between the quotes. */
  function Inside(t: string): string
    requires |t| > 1
  {
    t[1..|t| - 1]
  }

  /** Pieces in quotes are read as what the parser makes of them, whatever follows. */
  lemma QuotedRead(ps: seq<Piece>, more: string)
    requires AllLax(ps)
    ensures ReadString("\"" + Raw(ps) + "\"" + more) == Ok(Made(ps), more)
  {
    var t := "\"" + more;
    InsideRead(ps, t);
    assert t[1..] == more && ReadInside(t) == Ok("", more);
    assert Made(ps) + "" == Made(ps);
    assert "\"" + Raw(ps) + "\"" + more == "\"" + (Raw(ps) + t);
    assert ("\"" + (Raw(ps) + t))[1..] == Raw(ps) + t;
  }

  /**
    Every string of RFC 8259 is read, up to its closing quote; if its surrogates are paired, as what it denotes if and
    only if no escape in it stands for NUL.
   */
  lemma StringDenotes(t: string, more: string)
    requires G.StringText(t)
    ensures var ps := PiecesOf(Inside(t));
      && AllStrict(ps) && Raw(ps) == Inside(t) && ReadString(t + more) == Ok(Made(ps), more)
      && (Paired(ps) ==> (ReadString(t + more) == Ok(Denoted(ps), more) <==> NoNul(ps)))
  {
    var ps := PiecesOf(Inside(t));
    CharsArePieces(Inside(t));
    QuotedRead(ps, more);
    Quoted(t);
    if Paired(ps) {
      MadeIsDenoted(ps);
    }
  }

  lemma Quoted(t: string)
    requires |t| > 1 && t[0] == '\"' && t[|t| - 1] == '\"'
    ensures t == "\"" + Inside(t) + "\""
  {}

  // ----- Nothing else is read -----

  /** What is read up to a quote or to the end of the text is a run of pieces. */
  lemma {:induction false} PiecesRead(t: string) returns (ps: seq<Piece>, tail: string)
    requires ReadInside(t).Ok?
    ensures AllLax(ps) && Stopped(tail) && t == Raw(ps) + tail
    decreases |t|
  {
    if Stopped(t) {
      ps, tail := [], t;
      assert "" + t == t;
    } else {
      var first, n := FirstTaken(t);
      ps, tail := PiecesRead(t[n..]);
      Glue(first, ps, tail, t, n);
      ps := first + ps;
    }
  }

  lemma Glue(first: seq<Piece>, ps: seq<Piece>, tail: string, t: string, n: nat)
    requires n <= |t| && Raw(first) == t[..n] && t[n..] == Raw(ps) + tail
    ensures t == Raw(first + ps) + tail
  {
    RawJoin(first, ps);
    assert t == t[..n] + t[n..];
    RT.Regroup2(t[..n], Raw(ps), tail);
  }

  lemma {:induction false} RawJoin(a: seq<Piece>, b: seq<Piece>)
    ensures Raw(a + b) == Raw(a) + Raw(b)
    decreases |a|
  {
    if a == [] {
      assert a + b == b;
    } else {
      assert (a + b)[1..] == a[1..] + b;
      RawJoin(a[1..], b);
    }
  }

  /** One piece, or two units that are read together. */
  lemma FirstTaken(t: string) returns (first: seq<Piece>, n: nat)
    requires ReadInside(t).Ok? && !Stopped(t)
    ensures 0 < n <= |t| && AllLax(first) && Raw(first) == t[..n] && ReadInside(t[n..]).Ok?
  {
    if t[0] != '\\' {
      first, n := [Plain(t[0])], 1;
      RawFew(first[0], first[0]);
    } else if t[1] != 'u' {
      first, n := [Escaped(t[1])], 2;
      RawFew(first[0], first[0]);
    } else {
      first, n := UnitsOf(t);
    }
  }

  lemma RawFew(p: Piece, q: Piece)
    ensures Raw([p]) == RawOf(p) && Raw([p, q]) == RawOf(p) + RawOf(q)
  {
    assert [p][1..] == [] && [p, q][1..] == [q] && [q][1..] == [];
  }

  lemma UnitsOf(t: string) returns (first: seq<Piece>, n: nat)
    requires |t| > 1 && t[0] == '\\' && t[1] == 'u' && ReadUnicode(t[2..]).Ok?
    requires ReadInside(ReadUnicode(t[2..]).rest).Ok?
    ensures 0 < n <= |t| && AllLax(first) && Raw(first) == t[..n] && ReadInside(t[n..]).Ok?
  {
    var u := t[2..];
    UnitsTaken(u);
    var p := Unit(t[2], t[3], t[4], t[5]);
    UnitFront(t);
    if ReadUnicode(u).rest == u[4..] {
      first, n := [p], 6;
      RawFew(p, p);
      assert u[4..] == t[6..];
    } else {
      var q := Unit(t[8], t[9], t[10], t[11]);
      first, n := [p, q], 12;
      RawFew(p, q);
      assert t[6] == u[4] && t[7] == u[5];
      UnitFront(t[6..]);
      assert t[..12] == t[..6] + t[6..][..6] && u[10..] == t[12..];
    }
  }

  lemma UnitsTaken(u: string)
    requires ReadUnicode(u).Ok?
    ensures var rest := ReadUnicode(u).rest;
      (|u| >= 4 && rest == u[4..]) || (|u| >= 10 && rest == u[10..] && u[4] == '\\' && u[5] == 'u')
  {}

  /** A text that is accepted as a string: pieces in quotes, or pieces up to the end of the text. */
  lemma StringAccepted(t: string) returns (ps: seq<Piece>)
    requires ReadString(t).Ok?
    ensures AllLax(ps) && ReadString(t).value == Made(ps)
    ensures var rest := ReadString(t).rest;
      t == "\"" + Raw(ps) + "\"" + rest || (t == "\"" + Raw(ps) && rest == "")
  {
    var tail;
    ps, tail := PiecesRead(t[1..]);
    InsideRead(ps, tail);
    assert Made(ps) + "" == Made(ps) && t == "\"" + t[1..];
    if tail != "" {
      assert tail == "\"" + tail[1..];
      assert "\"" + (Raw(ps) + ("\"" + tail[1..])) == "\"" + Raw(ps) + "\"" + tail[1..];
    } else {
      assert Raw(ps) + tail == Raw(ps);
    }
  }

  /** Pieces are found again in their text. */
  lemma {:induction false} PiecesBack(ps: seq<Piece>)
    requires AllLax(ps)
    ensures PiecesOf(Raw(ps)) == ps
    decreases |ps|
  {
    if ps != [] {
      PiecesBack(ps[1..]);
      assert Lax(ps[0]);
      FrontBack(ps[0], Raw(ps[1..]));
      assert ps == [ps[0]] + ps[1..];
    }
  }

  lemma FrontBack(p: Piece, rest: string)
    requires Lax(p)
    ensures PiecesOf(RawOf(p) + rest) == [p] + PiecesOf(rest)
  {
    var t := RawOf(p) + rest;
    match p
    case Plain(c) => assert t[0] == c && t[1..] == rest;
    case Escaped(c) => assert t[0] == '\\' && t[1] == c && t[2..] == rest;
    case Unit(a, b, c, d) =>
      assert t[..6] == RawOf(p) && t[6..] == rest;
      assert t[2] == a && t[3] == b && t[4] == c && t[5] == d;
  }
}
