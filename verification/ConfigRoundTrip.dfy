/**
  Reading back what was written: the configuration text of `lch/util/cconfig.c`.
 */
module ConfigRoundTrip {
  import opened ConfigText

  // ----- Lines and pieces -----

  /** A written line is one piece when it is read: it holds no newline and fits in the buffer. */
  predicate OneLine(text: string) {
    '\n' !in text && |text| + 1 < BUFFER_SIZE
  }

  predicate Ended(l: string) {
    l != "" && l[|l| - 1] == '\n'
  }

  lemma {:induction false} PieceInside(l: string, rest: string, room: nat)
    requires Ended(l)
    ensures PieceLength(l + rest, room) == PieceLength(l, room)
    decreases |l|
  {
    if room > 0 && l[0] != '\n' {
      assert (l + rest)[1..] == l[1..] + rest;
      PieceInside(l[1..], rest, room - 1);
    }
  }

  lemma {:induction false} WholeLine(t: string, room: nat)
    ensures PieceLength(t + "\n", room) == |t| + 1 <==> '\n' !in t && |t| < room
    decreases |t|
  {
    if t == "" {
      assert t + "\n" == "\n";
    } else if room > 0 {
      assert (t + "\n")[1..] == t[1..] + "\n";
      if t[0] != '\n' {
        WholeLine(t[1..], room - 1);
        assert t == [t[0]] + t[1..];
      }
    }
  }

  lemma {:induction false} PiecesJoin(l: string, rest: string)
    requires Ended(l)
    ensures Pieces(l + rest) == Pieces(l) + Pieces(rest)
    decreases |l|
  {
    PieceInside(l, rest, BUFFER_SIZE - 1);
    var n := PieceLength(l, BUFFER_SIZE - 1);
    if n < |l| {
      PiecesJoin(l[n..], rest);
    } else {
      assert l[n..] + rest == rest;
    }
    JoinStep(l, rest, n);
  }

  lemma JoinStep(l: string, rest: string, n: nat)
    requires l != "" && n == PieceLength(l, BUFFER_SIZE - 1) == PieceLength(l + rest, BUFFER_SIZE - 1)
    requires Pieces(l[n..] + rest) == Pieces(l[n..]) + Pieces(rest)
    ensures Pieces(l + rest) == Pieces(l) + Pieces(rest)
  {
    PiecesStep(l, n);
    PiecesStep(l + rest, n);
    CutJoin(l, rest, n);
    Concat(l[..n], Pieces(l[n..]), Pieces(rest));
  }

  lemma PiecesStep(t: string, n: nat)
    requires t != "" && n == PieceLength(t, BUFFER_SIZE - 1)
    ensures Pieces(t) == [t[..n]] + Pieces(t[n..])
  {}

  lemma CutJoin(l: string, rest: string, n: nat)
    requires n <= |l|
    ensures (l + rest)[..n] == l[..n] && (l + rest)[n..] == l[n..] + rest
  {}

  lemma Concat(first: string, a: seq<string>, b: seq<string>)
    ensures [first] + (a + b) == [first] + a + b
  {}

  lemma PiecesOfLine(t: string)
    ensures |Pieces(t + "\n")| >= 1
    ensures |Pieces(t + "\n")| == 1 <==> OneLine(t)
    ensures OneLine(t) ==> Pieces(t + "\n") == [t + "\n"]
  {
    WholeLine(t, BUFFER_SIZE - 1);
    var l := t + "\n";
    var n := PieceLength(l, BUFFER_SIZE - 1);
    assert Pieces(l) == [l[..n]] + Pieces(l[n..]);
    if n == |l| {
      assert l[..n] == l;
    }
  }

  predicate AllOneLine(lines: seq<Written>) {
    forall i :: 0 <= i < |lines| ==> OneLine(lines[i].text)
  }

  /** A text has at least as many pieces as lines were written, and as many only if every line is one piece. */
  lemma {:induction false} PiecesOfText(lines: seq<Written>)
    ensures |Pieces(Text(lines))| >= |lines|
    ensures |Pieces(Text(lines))| == |lines| <==> AllOneLine(lines)
  {
    if lines != [] {
      PiecesOfText(lines[1..]);
      PiecesOfLine(lines[0].text);
      PiecesJoin(lines[0].text + "\n", Text(lines[1..]));
      assert AllOneLine(lines) <==> OneLine(lines[0].text) && AllOneLine(lines[1..]);
    }
  }

  // ----- Blanks -----

  predicate AllBlank(s: string) {
    forall i :: 0 <= i < |s| ==> Blank(s[i])
  }

  lemma {:induction false} TrimStartSkips(a: string, s: string)
    requires AllBlank(a) && (s == "" || !Blank(s[0]))
    ensures TrimStart(a + s) == s
    decreases |a|
  {
    if a == "" {
      assert a + s == s;
    } else {
      assert (a + s)[1..] == a[1..] + s;
      TrimStartSkips(a[1..], s);
    }
  }

  lemma {:induction false} TrimEndSkips(s: string, b: string)
    requires AllBlank(b) && (s == "" || !Blank(s[|s| - 1]))
    ensures TrimEnd(s + b) == s
    decreases |b|
  {
    if b == "" {
      assert s + b == s;
    } else {
      assert (s + b)[..|s + b| - 1] == s + b[..|b| - 1];
      TrimEndSkips(s, b[..|b| - 1]);
    }
  }

  lemma {:induction false} TrimStartIs(s: string) returns (k: nat)
    ensures k <= |s| && TrimStart(s) == s[k..] && (k < |s| ==> !Blank(s[k]))
    ensures s != "" && Blank(s[0]) ==> k > 0
    ensures AllBlank(s[..k])
    decreases |s|
  {
    if s != "" && Blank(s[0]) {
      k := TrimStartIs(s[1..]);
      assert s[..k + 1] == [s[0]] + s[1..][..k];
      k := k + 1;
    } else {
      k := 0;
    }
  }

  lemma {:induction false} TrimEndIs(s: string) returns (k: nat)
    ensures k <= |s| && TrimEnd(s) == s[..k] && (k > 0 ==> !Blank(s[k - 1]))
    decreases |s|
  {
    if s != "" && Blank(s[|s| - 1]) {
      k := TrimEndIs(s[..|s| - 1]);
    } else {
      k := |s|;
    }
  }

  lemma {:induction false} ChompIs(s: string) returns (k: nat)
    ensures k <= |s| && Chomp(s) == s[..k] && (k > 0 ==> !LineEnd(s[k - 1]))
    decreases |s|
  {
    if s != "" && LineEnd(s[|s| - 1]) {
      k := ChompIs(s[..|s| - 1]);
    } else {
      k := |s|;
    }
  }

  /** A line that ends in neither blank nor line end is looked at as it stands. */
  lemma BareKeeps(t: string)
    requires t == "" || (!Blank(t[|t| - 1]) && !LineEnd(t[|t| - 1]))
    ensures Bare(t + "\n") == t
  {
    assert (t + "\n")[..|t|] == t;
    assert Chomp(t + "\n") == Chomp(t) == t;
  }

  lemma BareIs(t: string) returns (k: nat)
    ensures k <= |t| && Bare(t + "\n") == t[..k]
    ensures t != "" && LineEnd(t[|t| - 1]) ==> k < |t|
    ensures k > 0 ==> !Blank(t[k - 1])
  {
    assert (t + "\n")[..|t|] == t;
    assert Chomp(t + "\n") == Chomp(t);
    var c := ChompIs(t);
    k := TrimEndIs(t[..c]);
  }

  // ----- Squeezed names -----

  /** Blanks are single spaces. */
  predicate SingleSpaced(s: string, inRun: bool) {
    s == "" ||
    if !Blank(s[0]) then SingleSpaced(s[1..], false) else s[0] == ' ' && !inRun && SingleSpaced(s[1..], true)
  }

  /** Names and values as the reader makes them: not empty, no blanks at the ends, single spaces inside. */
  predicate Neat(s: string) {
    s != "" && !Blank(s[0]) && !Blank(s[|s| - 1]) && SingleSpaced(s, false)
  }

  lemma {:induction false} SqueezeKeeps(s: string, inRun: bool)
    requires SingleSpaced(s, inRun)
    ensures Squeeze(s, inRun) == s
    decreases |s|
  {
    if s != "" {
      SqueezeKeeps(s[1..], Blank(s[0]));
      assert s == [s[0]] + s[1..];
    }
  }

  lemma SqueezeStep(s: string, inRun: bool)
    requires s != ""
    ensures Squeeze(s, inRun) ==
            (if !Blank(s[0]) then [s[0]] else if inRun then "" else " ") + Squeeze(s[1..], Blank(s[0]))
  {}

  lemma {:induction false} SqueezeSpaces(s: string, inRun: bool)
    ensures SingleSpaced(Squeeze(s, inRun), inRun)
    decreases |s|
  {
    if s != "" {
      SqueezeSpaces(s[1..], Blank(s[0]));
      var r := Squeeze(s[1..], Blank(s[0]));
      assert ([s[0]] + r)[1..] == r && (" " + r)[1..] == r && "" + r == r;
    }
  }

  lemma {:induction false} SqueezeChars(s: string, inRun: bool, c: char)
    requires c in Squeeze(s, inRun)
    ensures c in s || c == ' '
    decreases |s|
  {
    SqueezeStep(s, inRun);
    if c in Squeeze(s[1..], Blank(s[0])) {
      SqueezeChars(s[1..], Blank(s[0]), c);
    }
  }

  lemma {:induction false} SqueezeEnds(s: string, inRun: bool)
    requires s != ""
    ensures !Blank(s[0]) ==> Squeeze(s, inRun) != "" && Squeeze(s, inRun)[0] == s[0]
    ensures !Blank(s[|s| - 1]) ==>
      var r := Squeeze(s, inRun); r != "" && r[|r| - 1] == s[|s| - 1]
    decreases |s|
  {
    SqueezeStep(s, inRun);
    if |s| > 1 {
      SqueezeEnds(s[1..], Blank(s[0]));
    }
  }

  lemma TidiedIs(s: string)
    ensures Tidied(s) == "" || Neat(Tidied(s))
    ensures forall c :: c in Tidied(s) ==> c in s || c == ' '
    ensures s != "" && Blank(s[0]) ==> |Tidied(s)| < |s|
  {
    var k := TrimStartIs(s);
    var u := s[k..];
    var n := TrimEndIs(u);
    var v := u[..n];
    SqueezeSpaces(v, false);
    if v != "" {
      SqueezeEnds(v, false);
      assert v[0] == u[0] && v[|v| - 1] == u[n - 1];
    }
    forall c | c in Tidied(s)
      ensures c in s || c == ' '
    {
      SqueezeChars(v, false, c);
      assert c in v ==> c in u;
      assert c in u ==> c in s;
    }
  }

  /** Padding around a neat name goes, the name stays. */
  lemma TidiedBack(a: string, s: string, b: string)
    requires AllBlank(a) && AllBlank(b) && Neat(s)
    ensures Tidied(a + s + b) == s
  {
    assert a + s + b == a + (s + b);
    TrimStartSkips(a, s + b);
    TrimEndSkips(s, b);
    SqueezeKeeps(s, false);
  }

  // ----- Rows that survive -----

  predicate Word(v: string) {
    v != "" && '=' !in v && forall i :: 0 <= i < |v| ==> !Blank(v[i])
  }

  /** A line of tokens must not look like a remark or a section. */
  predicate Plain(first: string, last: string)
    requires first != "" && last != ""
  {
    first[0] != '#' && !(first[0] == '[' && last[|last| - 1] == ']')
  }

  predicate Clean(row: Row) {
    match row
    case Remark(t) => t == "" || (t[0] == '#' && !Blank(t[|t| - 1]) && !LineEnd(t[|t| - 1]))
    case Section(name) => Neat(name)
    case Scalar(name, value) =>
      Neat(name) && Neat(value) && '=' !in name && '=' !in value && !LineEnd(value[|value| - 1]) && Plain(name, value)
    case Vector(values) =>
      && values != [] && (forall i :: 0 <= i < |values| ==> Word(values[i]))
      && Plain(values[0], values[|values| - 1])
  }

  /** The text was written for the row. */
  predicate Shows(w: Written, width: nat) {
    match w.row
    case Remark(t) => w.text == t
    case Section(name) => w.text == "[" + name + "]"
    case Scalar(name, value) => w.text == Pad(name, NAME_WIDTH) + " = " + value
    case Vector(values) =>
      values != [] && w.text == Columns(values, width) && forall i :: 0 <= i < |values| ==> |values[i]| < width
  }

  lemma RemarkBack(t: string)
    ensures ReadRow(Bare(t + "\n")) == Some(Remark(t)) <==> Clean(Remark(t))
  {
    var k := BareIs(t);
    if Clean(Remark(t)) {
      BareKeeps(t);
    } else {
      assert k == |t| ==> t[..k] == t;
    }
  }

  lemma SectionBack(name: string)
    ensures ReadRow(Bare("[" + name + "]" + "\n")) == Some(Section(name)) <==> Clean(Section(name))
  {
    BareKeeps("[" + name + "]");
    SectionRead("[" + name + "]", name);
    TidiedIs(name);
    if Neat(name) {
      TidiedBack("", name, "");
      assert "" + name + "" == name;
    }
  }

  lemma SectionRead(t: string, name: string)
    requires t == "[" + name + "]"
    ensures ReadRow(t) == if Tidied(name) == "" then None else Some(Section(Tidied(name)))
  {
    assert t[0] == '[' && t[|t| - 1] == ']' && t[1..|t| - 1] == name;
    assert TrimStart(t) == t;
  }

  // ----- Scalars -----

  lemma PadIs(s: string, width: nat) returns (blanks: string)
    ensures AllBlank(blanks) && '=' !in blanks && Pad(s, width) == s + blanks
    ensures |s| < width ==> blanks != ""
  {
    if |s| < width {
      blanks := Spaces(width - |s|);
    } else {
      blanks := "";
    }
  }

  lemma {:induction false} EqualSignAt(a: string, b: string)
    requires '=' !in a
    ensures EqualSign(a + "=" + b) == |a|
    decreases |a|
  {
    if a == "" {
      assert a + "=" + b == "=" + b;
    } else {
      assert a[0] in a && (a + "=" + b)[1..] == a[1..] + "=" + b;
      EqualSignAt(a[1..], b);
    }
  }

  /** A name and a value around an equal sign, whatever blanks surround them. */
  lemma AssignmentBack(name: string, blanks: string, value: string)
    requires Neat(name) && Neat(value) && '=' !in name && '=' !in value && AllBlank(blanks) && '=' !in blanks
    ensures Assignment(name + blanks + "=" + (" " + value)) == Some(Scalar(name, value))
  {
    var a, b := name + blanks, " " + value;
    EqualSignAt(a, b);
    assert (a + "=" + b)[..|a|] == a && (a + "=" + b)[|a| + 1..] == b;
    TidiedBack("", name, blanks);
    assert "" + name + blanks == a;
    TidiedBack(" ", value, "");
    assert " " + value + "" == b;
  }

  lemma ScalarKept(name: string, value: string)
    requires Clean(Scalar(name, value))
    ensures ReadRow(Bare(Pad(name, NAME_WIDTH) + " = " + value + "\n")) == Some(Scalar(name, value))
  {
    var t := Pad(name, NAME_WIDTH) + " = " + value;
    var blanks := ScalarText(name, value);
    BareKeeps(t);
    AssignmentBack(name, blanks, value);
    assert t[|name + blanks|] == '=';
  }

  lemma AssignmentIs(body: string)
    requires Assignment(body).Some?
    ensures var p := EqualSign(body);
      && p < |body| && '=' !in body[..p] && '=' !in body[p + 1..]
      && Assignment(body).value == Scalar(Tidied(body[..p]), Tidied(body[p + 1..]))
      && Neat(Tidied(body[..p])) && Neat(Tidied(body[p + 1..]))
      && '=' !in Tidied(body[..p]) && '=' !in Tidied(body[p + 1..])
  {
    var p := EqualSign(body);
    TidiedIs(body[..p]);
    TidiedIs(body[p + 1..]);
  }

  /** A line that is read as a scalar is an assignment: neither remark nor section. */
  lemma ReadAsScalar(line: string, name: string, value: string)
    requires ReadRow(line) == Some(Scalar(name, value))
    ensures line != "" && line[0] != '#' && !Bracketed(TrimStart(line))
    ensures Assignment(TrimStart(line)) == Some(Scalar(name, value))
    ensures Neat(name) && Neat(value) && '=' !in name && '=' !in value
  {
    AssignmentIs(TrimStart(line));
  }

  lemma TrimmedAlready(s: string)
    requires s != "" && !Blank(s[0])
    ensures TrimStart(s) == s
  {}

  lemma ScalarClean(name: string, value: string)
    requires ReadRow(Bare(Pad(name, NAME_WIDTH) + " = " + value + "\n")) == Some(Scalar(name, value))
    ensures Clean(Scalar(name, value))
  {
    var blanks := ScalarText(name, value);
    ScalarCleanAt(name, blanks, value, Pad(name, NAME_WIDTH) + " = " + value);
  }

  lemma ScalarText(name: string, value: string) returns (blanks: string)
    ensures Pad(name, NAME_WIDTH) + " = " + value == name + blanks + "=" + (" " + value)
    ensures AllBlank(blanks) && '=' !in blanks
  {
    blanks := PadIs(name, NAME_WIDTH);
    blanks := blanks + " ";
  }

  lemma ScalarCleanAt(name: string, blanks: string, value: string, t: string)
    requires t == name + blanks + "=" + (" " + value) && '=' !in blanks
    requires ReadRow(Bare(t + "\n")) == Some(Scalar(name, value))
    ensures Clean(Scalar(name, value))
  {
    var k := BareIs(t);
    ReadAsScalar(t[..k], name, value);
    ScalarWhole(name, blanks, value, t, k);
  }

  lemma ScalarWhole(name: string, blanks: string, value: string, t: string, k: nat)
    requires t == name + blanks + "=" + (" " + value) && 0 < k <= |t| && '=' !in blanks
    requires Neat(name) && Neat(value) && '=' !in name && '=' !in value
    requires t[0] != '#' && !Bracketed(TrimStart(t[..k])) && Assignment(TrimStart(t[..k])) == Some(Scalar(name, value))
    requires LineEnd(t[|t| - 1]) ==> k < |t|
    ensures Clean(Scalar(name, value))
  {
    assert t[0] == name[0] && t[..k][0] == t[0] && t[|t| - 1] == value[|value| - 1];
    TrimmedAlready(t[..k]);
    ValueWhole(name + blanks, value, t, k);
    assert t[..k] == t;
  }

  /** A value cut short would have been read shorter. */
  lemma ValueWhole(a: string, value: string, t: string, k: nat)
    requires t == a + "=" + (" " + value) && k <= |t| && '=' !in a
    requires Assignment(t[..k]).Some? && Assignment(t[..k]).value.Scalar? && Assignment(t[..k]).value.value == value
    ensures k == |t|
  {
    AssignmentIs(t[..k]);
    var p := EqualSign(t[..k]);
    assert t[p] == '=';
    assert forall i :: 0 <= i < |a| ==> t[i] == a[i] && a[i] in a;
    var rest := t[|a| + 1..k];
    assert t[..k] == a + "=" + rest;
    EqualSignAt(a, rest);
    assert t[..k][|a| + 1..] == rest;
    ShorterRead(rest, value);
  }

  lemma ShorterRead(rest: string, value: string)
    requires rest <= " " + value && Tidied(rest) == value && value != ""
    ensures |rest| == |value| + 1
  {
    TidiedIs(rest);
  }

  // ----- Vectors -----

  /** Columns without the padding of the last. */
  function Packed(values: seq<string>, width: nat): string
    requires values != []
  {
    if |values| == 1 then values[0] else Pad(values[0], width) + Packed(values[1..], width)
  }

  predicate Fitting(values: seq<string>, width: nat) {
    values != [] && forall i :: 0 <= i < |values| ==> |values[i]| < width
  }

  predicate AllWords(values: seq<string>) {
    forall i :: 0 <= i < |values| ==> Word(values[i])
  }

  lemma {:induction false} PackedEnds(values: seq<string>, width: nat)
    requires Fitting(values, width) && AllWords(values)
    ensures var p, last := Packed(values, width), values[|values| - 1];
      p != "" && p[0] == values[0][0] && p[|p| - 1] == last[|last| - 1] && '=' !in p
    decreases |values|
  {
    if |values| > 1 {
      PackedEnds(values[1..], width);
      var blanks := PadIs(values[0], width);
    }
  }

  lemma {:induction false} ColumnsPacked(values: seq<string>, width: nat) returns (blanks: string)
    requires Fitting(values, width)
    ensures blanks != "" && AllBlank(blanks) && Columns(values, width) == Packed(values, width) + blanks
    decreases |values|
  {
    if |values| == 1 {
      blanks := PadIs(values[0], width);
      assert values[1..] == [];
    } else {
      blanks := ColumnsPacked(values[1..], width);
    }
  }

  lemma BareColumns(values: seq<string>, width: nat)
    requires Fitting(values, width)
    ensures Bare(Columns(values, width) + "\n") == TrimEnd(Packed(values, width))
  {
    var blanks := ColumnsPacked(values, width);
    BareBlanks(Packed(values, width), blanks);
  }

  lemma BareBlanks(s: string, blanks: string)
    requires AllBlank(blanks) && blanks != ""
    ensures Bare(s + blanks + "\n") == TrimEnd(s)
  {
    var t := s + blanks;
    assert (t + "\n")[..|t|] == t;
    assert t[|t| - 1] == blanks[|blanks| - 1];
    assert Chomp(t + "\n") == Chomp(t) == t;
    TrimEndDrops(s, blanks);
  }

  lemma {:induction false} TrimEndDrops(s: string, blanks: string)
    requires AllBlank(blanks)
    ensures TrimEnd(s + blanks) == TrimEnd(s)
    decreases |blanks|
  {
    if blanks == "" {
      assert s + blanks == s;
    } else {
      assert (s + blanks)[..|s + blanks| - 1] == s + blanks[..|blanks| - 1];
      TrimEndDrops(s, blanks[..|blanks| - 1]);
    }
  }

  lemma {:induction false} WordLengthIs(v: string, rest: string)
    requires (forall i :: 0 <= i < |v| ==> !Blank(v[i])) && (rest == "" || Blank(rest[0]))
    ensures WordLength(v + rest) == |v|
    decreases |v|
  {
    if v == "" {
      assert v + rest == rest;
    } else {
      assert (v + rest)[1..] == v[1..] + rest;
      WordLengthIs(v[1..], rest);
    }
  }

  lemma {:induction false} WordsBack(values: seq<string>, width: nat)
    requires Fitting(values, width) && AllWords(values)
    ensures Words(Packed(values, width)) == values
    decreases |values|
  {
    var v := values[0];
    if |values| == 1 {
      WordLengthIs(v, "");
      assert v + "" == v && v[|v|..] == "";
      assert values == [v];
    } else {
      WordsBack(values[1..], width);
      PackedEnds(values[1..], width);
      var blanks := PadIs(v, width);
      NextWord(v, blanks, Packed(values[1..], width));
      assert values == [v] + values[1..];
    }
  }

  lemma NextWord(v: string, blanks: string, rest: string)
    requires Word(v) && AllBlank(blanks) && blanks != "" && rest != "" && !Blank(rest[0])
    ensures Words(v + blanks + rest) == [v] + Words(rest)
  {
    var s := v + blanks + rest;
    assert s == v + (blanks + rest);
    WordLengthIs(v, blanks + rest);
    assert s[..|v|] == v && s[|v|..] == blanks + rest;
    TrimStartSkips(blanks, rest);
  }

  lemma {:induction false} WordsAre(s: string)
    requires '=' !in s
    ensures AllWords(Words(s))
    decreases |s|
  {
    var n := WordLength(s);
    if n > 0 {
      WordIs(s);
      var rest := RestOf(s, n);
      WordsAre(rest);
      var words := Words(rest);
      assert Words(s) == [s[..n]] + words;
      forall i | 0 <= i < |[s[..n]] + words|
        ensures Word(([s[..n]] + words)[i])
      {
        if i > 0 {
          assert ([s[..n]] + words)[i] == words[i - 1];
        }
      }
    }
  }

  lemma RestOf(s: string, n: nat) returns (rest: string)
    requires '=' !in s && 0 < n <= |s|
    ensures rest == TrimStart(s[n..]) && '=' !in rest && |rest| < |s|
  {
    var k := TrimStartIs(s[n..]);
    rest := s[n..][k..];
    assert forall i :: 0 <= i < |rest| ==> rest[i] == s[n + k + i];
  }

  lemma {:induction false} WordIs(s: string)
    requires '=' !in s
    ensures var w := s[..WordLength(s)]; '=' !in w && forall i :: 0 <= i < |w| ==> !Blank(w[i])
    decreases |s|
  {
    if s != "" && !Blank(s[0]) {
      assert forall c :: c in s[1..] ==> c in s;
      WordIs(s[1..]);
      var w, v := s[..WordLength(s)], s[1..][..WordLength(s[1..])];
      assert w == [s[0]] + v;
    }
  }

  lemma VectorKept(values: seq<string>, width: nat)
    requires Fitting(values, width) && Clean(Vector(values))
    ensures ReadRow(Bare(Columns(values, width) + "\n")) == Some(Vector(values))
  {
    BareColumns(values, width);
    PackedEnds(values, width);
    WordsBack(values, width);
    TrimmedAlready(Packed(values, width));
  }

  lemma VectorClean(values: seq<string>, width: nat)
    requires Fitting(values, width)
    requires ReadRow(Bare(Columns(values, width) + "\n")) == Some(Vector(values))
    ensures Clean(Vector(values))
  {
    BareColumns(values, width);
    var line := TrimEnd(Packed(values, width));
    ReadAsVector(line, values);
    PackedEnds(values, width);
    TrimmedAlready(Packed(values, width));
  }

  lemma ReadAsVector(line: string, values: seq<string>)
    requires ReadRow(line) == Some(Vector(values))
    ensures line != "" && line[0] != '#' && !Bracketed(TrimStart(line)) && AllWords(values)
  {
    WordsAre(TrimStart(line));
  }

  // ----- The round trip -----

  ghost predicate Shown(w: Written) {
    match w.row
    case Vector(values) => exists width :: Fitting(values, width) && w.text == Columns(values, width)
    case _ => WriteRow(w.row, 0) == [w]
  }

  /** A written line is read as the row it was written for exactly when the row is clean. */
  lemma RowBack(w: Written)
    requires Shown(w)
    ensures ReadRow(Bare(w.text + "\n")) == Some(w.row) <==> Clean(w.row)
  {
    match w.row
    case Remark(t) => RemarkBack(t);
    case Section(name) => SectionBack(name);
    case Scalar(name, value) =>
      if Clean(w.row) {
        ScalarKept(name, value);
      } else if ReadRow(Bare(w.text + "\n")) == Some(w.row) {
        ScalarClean(name, value);
      }
    case Vector(values) =>
      var width :| Fitting(values, width) && w.text == Columns(values, width);
      if Clean(w.row) {
        VectorKept(values, width);
      } else if ReadRow(Bare(w.text + "\n")) == Some(w.row) {
        VectorClean(values, width);
      }
  }

  ghost predicate AllShown(lines: seq<Written>) {
    forall w :: w in lines ==> Shown(w)
  }

  predicate AllClean(rows: seq<Row>) {
    forall i :: 0 <= i < |rows| ==> Clean(rows[i])
  }

  lemma {:induction false} ReadLength(pieces: seq<string>, mode: Mode)
    requires ReadPieces(pieces, mode).Some?
    ensures |ReadPieces(pieces, mode).value| == |pieces|
    decreases |pieces|
  {
    if pieces != [] {
      ReadLength(pieces[1..], ModeAfter(mode, ReadRow(Bare(pieces[0])).value));
    }
  }

  lemma {:induction false} LinesBack(lines: seq<Written>, mode: Mode)
    requires AllShown(lines) && AllOneLine(lines)
    ensures ReadPieces(Pieces(Text(lines)), mode) == Some(RowsOf(lines)) <==>
            AllClean(RowsOf(lines)) && InOrder(RowsOf(lines), mode)
    decreases |lines|
  {
    if lines != [] {
      var first, rest := lines[0], lines[1..];
      LinesBack(rest, ModeAfter(mode, first.row));
      RowBack(first);
      TextPieces(first.text, Text(rest));
      RowsFirst(lines);
      OneMore(first.text + "\n", Pieces(Text(rest)), first.row, RowsOf(rest), mode);
    }
  }

  lemma TextPieces(t: string, rest: string)
    requires OneLine(t)
    ensures Pieces(t + "\n" + rest) == [t + "\n"] + Pieces(rest)
  {
    PiecesOfLine(t);
    PiecesJoin(t + "\n", rest);
  }

  lemma RowsFirst(lines: seq<Written>)
    requires lines != []
    ensures RowsOf(lines) == [lines[0].row] + RowsOf(lines[1..])
  {}

  lemma OneMore(p: string, ps: seq<string>, row: Row, tail: seq<Row>, mode: Mode)
    requires ReadPieces(ps, ModeAfter(mode, row)) == Some(tail) <==>
      AllClean(tail) && InOrder(tail, ModeAfter(mode, row))
    requires ReadRow(Bare(p)) == Some(row) <==> Clean(row)
    ensures ReadPieces([p] + ps, mode) == Some([row] + tail) <==>
            AllClean([row] + tail) && InOrder([row] + tail, mode)
  {
    ReadOne(p, ps, row, tail, mode);
    CleanOne(row, tail);
    assert ([row] + tail)[1..] == tail;
  }

  lemma ReadOne(p: string, ps: seq<string>, row: Row, tail: seq<Row>, mode: Mode)
    ensures ReadPieces([p] + ps, mode) == Some([row] + tail) <==>
      ReadRow(Bare(p)) == Some(row) && Follows(mode, row) && ReadPieces(ps, ModeAfter(mode, row)) == Some(tail)
  {
    assert ([p] + ps)[1..] == ps && ([row] + tail)[1..] == tail && ([row] + tail)[0] == row;
    var read := ReadRow(Bare(p));
    if read.Some? && Follows(mode, read.value) {
      var rest := ReadPieces(ps, ModeAfter(mode, read.value));
      if rest.Some? {
        assert ([read.value] + rest.value)[1..] == rest.value && ([read.value] + rest.value)[0] == read.value;
      }
    }
  }

  lemma CleanOne(row: Row, tail: seq<Row>)
    ensures AllClean([row] + tail) <==> Clean(row) && AllClean(tail)
  {
    assert ([row] + tail)[0] == row;
    assert forall i :: 0 <= i < |tail| ==> ([row] + tail)[i + 1] == tail[i];
  }

  /**
    What is written is read back, line by line, exactly when every line is one piece, every row is clean and
    tokens stand where they may.
   */
  lemma WrittenBack(lines: seq<Written>)
    requires AllShown(lines)
    ensures Read(Text(lines)) == Some(RowsOf(lines)) <==>
            AllOneLine(lines) && AllClean(RowsOf(lines)) && InOrder(RowsOf(lines), START)
  {
    PiecesOfText(lines);
    if AllOneLine(lines) {
      LinesBack(lines, START);
    } else if Read(Text(lines)).Some? {
      ReadLength(Pieces(Text(lines)), START);
    }
  }

  lemma {:induction false} WrapShown(values: seq<string>, width: nat, n: nat)
    requires n > 0 && forall i :: 0 <= i < |values| ==> |values[i]| < width
    ensures AllShown(WrapVector(values, width, n))
    ensures Singles(RowsOf(WrapVector(values, width, n))) == OneEach(values)
    decreases |values|
  {
    if 0 < |values| <= n {
      ChunkShown(values, width);
    } else if values != [] {
      WrapShown(values[n..], width, n);
      ChunkShown(values[..n], width);
      ShownFirst(Written(Vector(values[..n]), Columns(values[..n], width)), WrapVector(values[n..], width, n));
      OneEachJoin(values, n);
    }
  }

  lemma ShownFirst(first: Written, rest: seq<Written>)
    requires AllShown([first]) && AllShown(rest)
    ensures AllShown([first] + rest)
    ensures Singles(RowsOf([first] + rest)) == Singles(RowsOf([first])) + Singles(RowsOf(rest))
  {
    BothShown([first], rest);
    SinglesJoin(RowsOf([first]), RowsOf(rest));
  }

  lemma OneEachJoin(values: seq<string>, n: nat)
    requires n <= |values|
    ensures OneEach(values) == OneEach(values[..n]) + OneEach(values[n..])
  {}

  lemma ChunkShown(values: seq<string>, width: nat)
    requires Fitting(values, width)
    ensures var w := Written(Vector(values), Columns(values, width));
      AllShown([w]) && Singles(RowsOf([w])) == OneEach(values)
  {
    var w := Written(Vector(values), Columns(values, width));
    assert Shown(w);
    assert RowsOf([w]) == [w.row] && [w.row][1..] == [];
  }

  lemma {:induction false} SinglesJoin(a: seq<Row>, b: seq<Row>)
    ensures Singles(a + b) == Singles(a) + Singles(b)
    decreases |a|
  {
    if a == [] {
      assert a + b == b;
    } else {
      assert (a + b)[1..] == a[1..] + b;
      SinglesJoin(a[1..], b);
    }
  }

  /** Writing wraps vectors anew and keeps everything else. */
  lemma {:induction false} WriteKeeps(rows: seq<Row>, fixed: int)
    ensures AllShown(WriteRows(rows, fixed))
    ensures Singles(RowsOf(WriteRows(rows, fixed))) == Singles(rows)
    decreases |rows|
  {
    if rows != [] {
      WriteKeeps(rows[1..], fixed);
      var a, b := WriteRow(rows[0], fixed), WriteRows(rows[1..], fixed);
      WriteRowKeeps(rows[0], fixed);
      BothShown(a, b);
      SinglesJoin(RowsOf(a), RowsOf(b));
    }
  }

  lemma BothShown(a: seq<Written>, b: seq<Written>)
    requires AllShown(a) && AllShown(b)
    ensures AllShown(a + b) && RowsOf(a + b) == RowsOf(a) + RowsOf(b)
  {
    RowsJoin(a, b);
    assert forall w :: w in a + b ==> w in a || w in b;
  }

  lemma RowsJoin(a: seq<Written>, b: seq<Written>)
    ensures RowsOf(a + b) == RowsOf(a) + RowsOf(b)
  {}

  lemma WriteRowKeeps(row: Row, fixed: int)
    ensures AllShown(WriteRow(row, fixed))
    ensures Singles(RowsOf(WriteRow(row, fixed))) == if row.Vector? then OneEach(row.values) else [row]
  {
    if row.Vector? {
      var width := Longest(row.values) + 1;
      assert forall i :: 0 <= i < |row.values| ==> row.values[i] in row.values;
      WrapShown(row.values, width, PerLine(width, fixed));
    } else {
      var w := WriteRow(row, fixed);
      assert RowsOf(w) == [row] && [row][1..] == [];
      assert Singles([row]) == [row] + [];
    }
  }

  /** Loading what was dumped. */
  lemma RoundTrip(rows: seq<Row>, fixed: int)
    ensures var lines := WriteRows(rows, fixed);
      && (Read(Text(lines)) == Some(RowsOf(lines)) <==>
            AllOneLine(lines) && AllClean(RowsOf(lines)) && InOrder(RowsOf(lines), START))
      && Singles(RowsOf(lines)) == Singles(rows)
  {
    WriteKeeps(rows, fixed);
    WrittenBack(WriteRows(rows, fixed));
  }
}
