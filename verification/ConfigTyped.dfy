/**
  What the loader of `lch/util/cconfig.c` reads from a text as somebody types it, with any spaces and tabs: lines are
  built here from their words, character by character, and every line that is read at all is one of these.
 */
module ConfigTyped {
  import opened ConfigText
  import opened ConfigRoundTrip
  import R = ConfigReader
  import L = ConfigLoad
  import G = ConfigLoading
  import S = ConfigStore
  import M = ConfigModel

  // ----- Words and what is between them -----

  /** Spaces and tabs, or nothing. */
  predicate Gap(w: string) {
    forall i :: 0 <= i < |w| ==> w[i] == ' ' || w[i] == '\t'
  }

  predicate Solid(w: string) {
    w != "" && forall i :: 0 <= i < |w| ==> w[i] != ' ' && w[i] != '\t'
  }

  datatype Spaced = Spaced(gap: string, word: string)

  /** Words with the gaps between them. */
  datatype Phrase = Phrase(first: string, more: seq<Spaced>)

  predicate Well(p: Phrase) {
    Solid(p.first) && AllWell(p.more)
  }

  predicate AllWell(more: seq<Spaced>) {
    forall i :: 0 <= i < |more| ==> more[i].gap != "" && Gap(more[i].gap) && Solid(more[i].word)
  }

  /** As typed. */
  function Typed(p: Phrase): string {
    p.first + TypedRest(p.more)
  }

  function TypedRest(more: seq<Spaced>): string {
    if more == [] then "" else more[0].gap + (more[0].word + TypedRest(more[1..]))
  }

  /** With one space for each gap. */
  function Said(p: Phrase): string {
    p.first + SaidRest(p.more)
  }

  function SaidRest(more: seq<Spaced>): string {
    if more == [] then "" else " " + (more[0].word + SaidRest(more[1..]))
  }

  function WordsOf(p: Phrase): seq<string> {
    [p.first] + seq(|p.more|, i requires 0 <= i < |p.more| => p.more[i].word)
  }

  function LastWord(p: Phrase): string {
    if p.more == [] then p.first else p.more[|p.more| - 1].word
  }

  // ----- Lines -----

  datatype Line =
    | RemarkLine(text: string)
    | BlankLine
    | SectionLine(before: string, left: string, name: Phrase, right: string)
    | ScalarLine(before: string, name: Phrase, left: string, right: string, value: Phrase)
    | VectorLine(before: string, values: Phrase)

  function TextOf(l: Line): string {
    match l
    case RemarkLine(text) => "#" + text
    case BlankLine => ""
    case SectionLine(before, left, name, right) => before + ("[" + (left + Typed(name) + right) + "]")
    case ScalarLine(before, name, left, right, value) =>
      before + ((Typed(name) + left) + "=" + (right + Typed(value)))
    case VectorLine(before, values) => before + Typed(values)
  }

  function RowOf(l: Line): Row {
    match l
    case RemarkLine(text) => Remark("#" + text)
    case BlankLine => Remark("")
    case SectionLine(_, _, name, _) => Section(Said(name))
    case ScalarLine(_, name, _, _, value) => Scalar(Said(name), Said(value))
    case VectorLine(_, values) => Vector(WordsOf(values))
  }

  /** A line of tokens that looks neither like a remark nor like a section. */
  predicate Token(before: string, first: string, last: string)
    requires first != "" && last != ""
  {
    (before == "" ==> first[0] != '#') && !(first[0] == '[' && last[|last| - 1] == ']')
  }

  predicate Proper(l: Line) {
    match l
    case RemarkLine(_) => true
    case BlankLine => true
    case SectionLine(before, left, name, right) => Gap(before) && Gap(left) && Well(name) && Gap(right)
    case ScalarLine(before, name, left, right, value) =>
      && Gap(before) && Well(name) && Gap(left) && Gap(right) && Well(value)
      && '=' !in Typed(name) && '=' !in Typed(value) && Token(before, name.first, LastWord(value))
    case VectorLine(before, values) =>
      Gap(before) && Well(values) && '=' !in Typed(values) && Token(before, values.first, LastWord(values))
  }

  // ----- Phrases are read -----

  lemma GapIsBlank(w: string)
    ensures Gap(w) <==> AllBlank(w)
    ensures Gap(w) ==> '=' !in w
  {}

  lemma {:induction false} TypedEnds(p: Phrase)
    requires Well(p)
    ensures var t := Typed(p);
      && t != "" && t[0] == p.first[0] && !Blank(t[0])
      && LastWord(p) != "" && t[|t| - 1] == LastWord(p)[|LastWord(p)| - 1] && !Blank(t[|t| - 1])
    decreases |p.more|
  {
    if p.more != [] {
      RestEnds(p.more);
    }
  }

  lemma {:induction false} RestEnds(more: seq<Spaced>)
    requires AllWell(more) && more != []
    ensures var t, last := TypedRest(more), more[|more| - 1].word;
      last != "" && t != "" && t[|t| - 1] == last[|last| - 1] && !Blank(t[|t| - 1]) && Blank(t[0])
    decreases |more|
  {
    if |more| > 1 {
      RestEnds(more[1..]);
    }
  }

  lemma {:induction false} SqueezeWord(w: string, rest: string, inRun: bool)
    requires Solid(w)
    ensures Squeeze(w + rest, inRun) == w + Squeeze(rest, false)
    decreases |w|
  {
    assert (w + rest)[1..] == w[1..] + rest;
    if |w| == 1 {
      assert w[1..] + rest == rest;
    } else {
      SqueezeWord(w[1..], rest, false);
      assert [w[0]] + (w[1..] + Squeeze(rest, false)) == w + Squeeze(rest, false);
    }
  }

  lemma {:induction false} SqueezeRun(gap: string, rest: string)
    requires Gap(gap)
    ensures Squeeze(gap + rest, true) == Squeeze(rest, true)
    decreases |gap|
  {
    if gap == "" {
      assert gap + rest == rest;
    } else {
      assert (gap + rest)[1..] == gap[1..] + rest;
      SqueezeRun(gap[1..], rest);
    }
  }

  lemma SqueezeGap(gap: string, w: string, rest: string)
    requires gap != "" && Gap(gap) && Solid(w)
    ensures Squeeze(gap + (w + rest), false) == " " + (w + Squeeze(rest, false))
  {
    assert (gap + (w + rest))[1..] == gap[1..] + (w + rest);
    SqueezeRun(gap[1..], w + rest);
    SqueezeWord(w, rest, true);
  }

  lemma {:induction false} SqueezeRest(more: seq<Spaced>)
    requires AllWell(more)
    ensures Squeeze(TypedRest(more), false) == SaidRest(more)
    decreases |more|
  {
    if more != [] {
      SqueezeRest(more[1..]);
      SqueezeGap(more[0].gap, more[0].word, TypedRest(more[1..]));
    }
  }

  /** A name or value loses the blanks around it, and each gap becomes one space. */
  lemma TidiedSaid(a: string, p: Phrase, b: string)
    requires Gap(a) && Well(p) && Gap(b)
    ensures Tidied(a + Typed(p) + b) == Said(p) && Said(p) != ""
  {
    TypedEnds(p);
    assert a + Typed(p) + b == a + (Typed(p) + b);
    TrimStartSkips(a, Typed(p) + b);
    TrimEndSkips(Typed(p), b);
    SqueezeWord(p.first, TypedRest(p.more), false);
    SqueezeRest(p.more);
  }

  lemma {:induction false} WordsRead(p: Phrase)
    requires Well(p)
    ensures Words(Typed(p)) == WordsOf(p)
    decreases |p.more|
  {
    var rest := TypedRest(p.more);
    WordLengthIs(p.first, rest);
    assert Typed(p)[..|p.first|] == p.first && Typed(p)[|p.first|..] == rest;
    if p.more != [] {
      var q := Phrase(p.more[0].word, p.more[1..]);
      TypedEnds(q);
      TrimStartSkips(p.more[0].gap, Typed(q));
      WordsRead(q);
      WordsSplit(p, q);
    } else {
      assert Words("") == [];
    }
  }

  lemma WordsSplit(p: Phrase, q: Phrase)
    requires p.more != [] && q == Phrase(p.more[0].word, p.more[1..])
    ensures WordsOf(p) == [p.first] + WordsOf(q)
  {}

  // ----- Lines are read -----

  lemma BehindGap(before: string, s: string)
    requires Gap(before) && s != "" && !Blank(s[0])
    ensures TrimStart(before + s) == s && before + s != ""
    ensures (before + s)[0] == if before == "" then s[0] else before[0]
  {
    TrimStartSkips(before, s);
    assert before == "" ==> before + s == s;
  }

  lemma SectionTyped(before: string, left: string, name: Phrase, right: string)
    requires Gap(before) && Gap(left) && Well(name) && Gap(right)
    ensures ReadRow(TextOf(SectionLine(before, left, name, right))) == Some(Section(Said(name)))
  {
    var inner := left + Typed(name) + right;
    Brackets(inner);
    BehindGap(before, "[" + inner + "]");
    TidiedSaid(left, name, right);
  }

  lemma Brackets(inner: string)
    ensures var body := "[" + inner + "]";
      |body| > 1 && body[0] == '[' && body[|body| - 1] == ']' && body[1..|body| - 1] == inner
  {}

  lemma ScalarTyped(l: Line)
    requires l.ScalarLine? && Proper(l)
    ensures ReadRow(TextOf(l)) == Some(RowOf(l))
  {
    var a, b := Typed(l.name) + l.left, l.right + Typed(l.value);
    var body := a + "=" + b;
    TypedEnds(l.name);
    TypedEnds(l.value);
    assert body[0] == l.name.first[0] && body[|body| - 1] == b[|b| - 1] == Typed(l.value)[|Typed(l.value)| - 1];
    BehindGap(l.before, body);
    SidesTyped(l.name, l.left, l.right, l.value);
    assert body[|a|] == '=';
  }

  /** The sides of the only equal sign. */
  lemma SidesTyped(name: Phrase, left: string, right: string, value: Phrase)
    requires Well(name) && Gap(left) && Gap(right) && Well(value) && '=' !in Typed(name) && '=' !in Typed(value)
    ensures Assignment((Typed(name) + left) + "=" + (right + Typed(value))) == Some(Scalar(Said(name), Said(value)))
  {
    var a, b := Typed(name) + left, right + Typed(value);
    GapIsBlank(left);
    GapIsBlank(right);
    EqualSignAt(a, b);
    assert (a + "=" + b)[..|a|] == a && (a + "=" + b)[|a| + 1..] == b;
    TidiedSaid("", name, left);
    assert "" + Typed(name) + left == a;
    TidiedSaid(right, value, "");
    assert right + Typed(value) + "" == b;
  }

  lemma VectorTyped(before: string, values: Phrase)
    requires Proper(VectorLine(before, values))
    ensures ReadRow(TextOf(VectorLine(before, values))) == Some(Vector(WordsOf(values)))
  {
    var body := Typed(values);
    TypedEnds(values);
    BehindGap(before, body);
    WordsRead(values);
    assert !Bracketed(body) && TrimStart(before + body) == body;
  }

  /** Every line built from words is read as these words. */
  lemma LineTyped(l: Line)
    requires Proper(l)
    ensures ReadRow(TextOf(l)) == Some(RowOf(l))
  {
    match l
    case RemarkLine(text) => assert ("#" + text)[0] == '#';
    case BlankLine =>
    case SectionLine(before, left, name, right) => SectionTyped(before, left, name, right);
    case ScalarLine(_, _, _, _, _) => ScalarTyped(l);
    case VectorLine(before, values) => VectorTyped(before, values);
  }

  // ----- Nothing else is read -----

  /** Where a text that ends in no blank begins. */
  lemma {:induction false} StartOf(s: string) returns (k: nat)
    requires s != "" && !Blank(s[|s| - 1])
    ensures k < |s| && !Blank(s[k]) && Gap(s[..k]) && TrimStart(s) == s[k..]
    ensures !Blank(s[0]) ==> k == 0
    decreases |s|
  {
    if Blank(s[0]) {
      k := StartOf(s[1..]);
      assert s[..k + 1] == [s[0]] + s[1..][..k] && s[k + 1..] == s[1..][k..];
      k := k + 1;
    } else {
      k := 0;
    }
  }

  lemma {:induction false} PhraseOf(s: string) returns (p: Phrase)
    requires s != "" && !Blank(s[0]) && !Blank(s[|s| - 1])
    ensures Well(p) && Typed(p) == s
    decreases |s|
  {
    var n := WordEnd(s);
    if n == |s| {
      p := Phrase(s, []);
      assert s + "" == s;
    } else {
      var k := StartOf(s[n..]);
      var q := PhraseOf(s[n..][k..]);
      p := Phrase(s[..n], [Spaced(s[n..][..k], q.first)] + q.more);
      assert p.more[1..] == q.more;
      Parts(s, n, k);
    }
  }

  lemma Parts(s: string, n: nat, k: nat)
    requires n <= |s| && k <= |s| - n
    ensures s == s[..n] + (s[n..][..k] + s[n..][k..])
  {}

  lemma {:induction false} WordEnd(s: string) returns (n: nat)
    requires s != "" && !Blank(s[0])
    ensures 0 < n <= |s| && Solid(s[..n]) && (n < |s| ==> Blank(s[n]))
    decreases |s|
  {
    if |s| == 1 || Blank(s[1]) {
      n := 1;
    } else {
      n := WordEnd(s[1..]);
      assert s[..n + 1] == [s[0]] + s[1..][..n];
      n := n + 1;
    }
  }

  lemma {:induction false} EndGap(s: string) returns (j: nat)
    ensures j <= |s| && Gap(s[j..]) && (j > 0 ==> !Blank(s[j - 1]))
    decreases |s|
  {
    if s == "" || !Blank(s[|s| - 1]) {
      j := |s|;
    } else {
      var front := s[..|s| - 1];
      j := EndGap(front);
      assert s[j..] == front[j..] + [s[|s| - 1]];
    }
  }

  /** A name that is not empty when tidied is a phrase between gaps. */
  lemma CoreOf(s: string) returns (a: string, p: Phrase, b: string)
    requires Tidied(s) != ""
    ensures Gap(a) && Well(p) && Gap(b) && s == a + Typed(p) + b
    ensures !Blank(s[0]) ==> a == ""
    ensures !Blank(s[|s| - 1]) ==> b == ""
  {
    var j := EndGap(s);
    GapIsNothing(s);
    assert s[0..] == s;
    var t := s[..j];
    var i := StartOf(t);
    p := PhraseOf(t[i..]);
    a, b := t[..i], s[j..];
    assert s == t + b && t == a + t[i..];
    assert b != "" ==> b[|b| - 1] == s[|s| - 1];
  }

  /** Blanks alone are nothing. */
  lemma GapIsNothing(s: string)
    ensures Gap(s) ==> Tidied(s) == ""
  {
    if Gap(s) {
      TrimStartSkips(s, "");
      assert s + "" == s;
    }
  }

  /** A line without blanks at its end is read exactly if it is built from words in one of these ways. */
  lemma ReadExactly(line: string)
    requires line == "" || (line[|line| - 1] != ' ' && line[|line| - 1] != '\t')
    ensures ReadRow(line).Some? <==> exists l :: Proper(l) && TextOf(l) == line
  {
    if ReadRow(line).Some? {
      var l := Understood(line);
    }
    if l :| Proper(l) && TextOf(l) == line {
      LineTyped(l);
    }
  }

  lemma Understood(line: string) returns (l: Line)
    requires (line == "" || !Blank(line[|line| - 1])) && ReadRow(line).Some?
    ensures Proper(l) && TextOf(l) == line
  {
    if line == "" {
      l := BlankLine;
    } else if line[0] == '#' {
      l := RemarkLine(line[1..]);
    } else {
      var k := StartOf(line);
      var before, body := line[..k], line[k..];
      assert line == before + body && body[|body| - 1] == line[|line| - 1];
      if Bracketed(body) {
        l := SectionOf(before, body);
      } else if '=' !in body {
        var p := PhraseOf(body);
        TypedEnds(p);
        l := VectorLine(before, p);
      } else {
        l := ScalarOf(before, body);
      }
    }
  }

  lemma SectionOf(before: string, body: string) returns (l: Line)
    requires Gap(before) && Bracketed(body) && Tidied(body[1..|body| - 1]) != ""
    ensures Proper(l) && TextOf(l) == before + body
  {
    var a, p, b := CoreOf(body[1..|body| - 1]);
    l := SectionLine(before, a, p, b);
    Rebracketed(body);
  }

  lemma Rebracketed(body: string)
    requires Bracketed(body)
    ensures body == "[" + body[1..|body| - 1] + "]"
  {
    var t := "[" + body[1..|body| - 1] + "]";
    assert |t| == |body|;
    forall i | 0 <= i < |body|
      ensures t[i] == body[i]
    {
      if 0 < i < |body| - 1 {
        assert t[i] == body[1..|body| - 1][i - 1];
      }
    }
  }

  lemma ScalarOf(before: string, body: string) returns (l: Line)
    requires Gap(before) && body != "" && !Blank(body[0]) && !Blank(body[|body| - 1]) && !Bracketed(body)
    requires Assignment(body).Some? && (before == "" ==> body[0] != '#')
    ensures Proper(l) && TextOf(l) == before + body
  {
    var n := EqualSign(body);
    var left, right := body[..n], body[n + 1..];
    SplitAtSign(body, n);
    var p, b, c, q := SidesOf(left, right);
    l := ScalarLine(before, p, b, c, q);
    EndsOfSides(p, b, c, q);
    ScalarBuilt(l, body);
  }

  lemma ScalarBuilt(l: Line, body: string)
    requires l.ScalarLine? && Gap(l.before) && Well(l.name) && Gap(l.left) && Gap(l.right) && Well(l.value)
    requires '=' !in Typed(l.name) && '=' !in Typed(l.value)
    requires body == (Typed(l.name) + l.left) + "=" + (l.right + Typed(l.value)) && |body| > 1 && !Bracketed(body)
    requires l.name.first != "" && body[0] == l.name.first[0] && (l.before == "" ==> body[0] != '#')
    requires LastWord(l.value) != "" && body[|body| - 1] == LastWord(l.value)[|LastWord(l.value)| - 1]
    ensures Proper(l) && TextOf(l) == l.before + body
  {}

  lemma EndsOfSides(p: Phrase, b: string, c: string, q: Phrase)
    requires Well(p) && Well(q)
    ensures var left, right := Typed(p) + b, c + Typed(q);
      && left != "" && right != "" && p.first != "" && LastWord(q) != ""
      && left[0] == p.first[0] && right[|right| - 1] == LastWord(q)[|LastWord(q)| - 1]
  {
    TypedEnds(p);
    TypedEnds(q);
  }

  lemma SplitAtSign(body: string, n: nat)
    requires n < |body| && body[n] == '=' && Tidied(body[..n]) != "" && Tidied(body[n + 1..]) != ""
    ensures var left, right := body[..n], body[n + 1..];
      && body == left + "=" + right && left != "" && right != ""
      && left[0] == body[0] && right[|right| - 1] == body[|body| - 1]
  {}

  lemma SidesOf(left: string, right: string) returns (p: Phrase, b: string, c: string, q: Phrase)
    requires Tidied(left) != "" && Tidied(right) != "" && '=' !in left && '=' !in right
    requires left != "" && !Blank(left[0]) && right != "" && !Blank(right[|right| - 1])
    ensures Well(p) && Gap(b) && left == Typed(p) + b && '=' !in Typed(p)
    ensures Well(q) && Gap(c) && right == c + Typed(q) && '=' !in Typed(q)
  {
    var a, d;
    a, p, b := CoreOf(left);
    c, q, d := CoreOf(right);
    Without(left, a, Typed(p), b);
    Without(right, c, Typed(q), d);
    assert "" + Typed(p) == Typed(p) && c + Typed(q) + "" == c + Typed(q);
  }

  lemma Without(s: string, a: string, t: string, b: string)
    requires s == a + t + b && '=' !in s
    ensures '=' !in t
  {
    assert forall i :: 0 <= i < |t| ==> s[|a| + i] == t[i];
  }

  // ----- Whole texts -----

  /** A line as it stands in the text: blanks behind it, then a newline, with or without carriage returns. */
  datatype Entry = Entry(line: Line, after: string, cr: string)

  function EntryText(e: Entry): string {
    TextOf(e.line) + e.after + e.cr + "\n"
  }

  /** The line ends in no blank and no carriage return, and all of it fits into 1023 characters. */
  predicate Entered(e: Entry) {
    && Proper(e.line) && Gap(e.after) && (forall i :: 0 <= i < |e.cr| ==> e.cr[i] == '\r')
    && '\n' !in TextOf(e.line) && |EntryText(e)| <= 1023
    && var t := TextOf(e.line);
       t != "" ==> t[|t| - 1] != ' ' && t[|t| - 1] != '\t' && t[|t| - 1] != '\r'
  }

  predicate AllEntered(es: seq<Entry>) {
    forall i :: 0 <= i < |es| ==> Entered(es[i])
  }

  function WholeText(es: seq<Entry>): string {
    if es == [] then "" else EntryText(es[0]) + WholeText(es[1..])
  }

  function EntryRows(es: seq<Entry>): seq<Row> {
    seq(|es|, i requires 0 <= i < |es| => RowOf(es[i].line))
  }

  lemma {:induction false} ChompSkips(s: string, ends: string)
    requires (s == "" || (s[|s| - 1] != '\r' && s[|s| - 1] != '\n'))
    requires forall i :: 0 <= i < |ends| ==> ends[i] == '\r' || ends[i] == '\n'
    ensures Chomp(s + ends) == s
    decreases |ends|
  {
    if ends == "" {
      assert s + ends == s;
    } else {
      assert (s + ends)[..|s + ends| - 1] == s + ends[..|ends| - 1];
      ChompSkips(s, ends[..|ends| - 1]);
    }
  }

  lemma EntryRead(e: Entry)
    requires Entered(e)
    ensures ReadRow(Bare(EntryText(e))) == Some(RowOf(e.line))
  {
    var t := TextOf(e.line);
    assert EntryText(e) == t + e.after + (e.cr + "\n");
    assert e.after == "" ==> t + e.after == t;
    ChompSkips(t + e.after, e.cr + "\n");
    TrimEndSkips(t, e.after);
    LineTyped(e.line);
  }

  lemma EntryPiece(e: Entry, rest: string)
    requires Entered(e)
    ensures Pieces(EntryText(e) + rest) == [EntryText(e)] + Pieces(rest)
  {
    var t := TextOf(e.line) + e.after + e.cr;
    assert '\n' !in e.after && '\n' !in e.cr;
    TextPieces(t, rest);
  }

  /** The rows of a text are those of its lines, if tokens stand where they may. */
  lemma {:induction false} EntriesRead(es: seq<Entry>, mode: Mode)
    requires AllEntered(es)
    ensures ReadPieces(Pieces(WholeText(es)), mode) ==
            if InOrder(EntryRows(es), mode) then Some(EntryRows(es)) else None
    decreases |es|
  {
    if es != [] {
      var row, rest := RowOf(es[0].line), EntryRows(es[1..]);
      EntriesRead(es[1..], ModeAfter(mode, row));
      EntryPiece(es[0], WholeText(es[1..]));
      EntryRead(es[0]);
      assert EntryRows(es) == [row] + rest && ([row] + rest)[1..] == rest;
      PiecesRead(EntryText(es[0]), Pieces(WholeText(es[1..])), mode);
    }
  }

  lemma PiecesRead(p: string, ps: seq<string>, mode: Mode)
    ensures ReadPieces([p] + ps, mode) ==
      var row := ReadRow(Bare(p));
      if row.None? || !Follows(mode, row.value) then None
      else
        var rest := ReadPieces(ps, ModeAfter(mode, row.value));
        if rest.None? then None else Some([row.value] + rest.value)
  {
    assert ([p] + ps)[1..] == ps;
  }

  // ----- Where tokens may stand -----

  /** Some section has begun. */
  predicate InSection(before: seq<Row>) {
    exists k :: 0 <= k < |before| && before[k].Section?
  }

  /** The section that is open has tokens of that kind. */
  predicate HasScalar(before: seq<Row>) {
    exists k :: 0 <= k < |before| && before[k].Scalar? && Open(before, k)
  }

  predicate HasVector(before: seq<Row>) {
    exists k :: 0 <= k < |before| && before[k].Vector? && Open(before, k)
  }

  /** No section begins behind row `k`. */
  predicate Open(before: seq<Row>, k: nat) {
    forall l :: k < l < |before| ==> !before[l].Section?
  }

  /** A token stands in a section, and behind none of the other kind in it. */
  predicate PlacedBehind(before: seq<Row>, row: Row) {
    match row
    case Scalar(_, _) => InSection(before) && !HasVector(before)
    case Vector(_) => InSection(before) && !HasScalar(before)
    case _ => true
  }

  predicate Placed(rows: seq<Row>) {
    forall i :: 0 <= i < |rows| ==> PlacedBehind(rows[..i], rows[i])
  }

  function ModeFrom(mode: Mode, rows: seq<Row>): Mode
    decreases |rows|
  {
    if rows == [] then mode else ModeFrom(ModeAfter(mode, rows[0]), rows[1..])
  }

  lemma {:induction false} ModeOn(mode: Mode, front: seq<Row>, row: Row)
    ensures ModeFrom(mode, front + [row]) == ModeAfter(ModeFrom(mode, front), row)
    decreases |front|
  {
    if front == [] {
      assert front + [row] == [row];
    } else {
      assert (front + [row])[1..] == front[1..] + [row];
      ModeOn(ModeAfter(mode, front[0]), front[1..], row);
    }
  }

  /** What the loader remembers of the rows read. */
  lemma {:induction false} ModeTells(rows: seq<Row>)
    ensures var m := ModeFrom(START, rows);
      && (m.section <==> InSection(rows))
      && (m.section ==> (m.scalar <==> HasScalar(rows)) && (m.vector <==> HasVector(rows)))
    decreases |rows|
  {
    if rows != [] {
      var front, row := rows[..|rows| - 1], rows[|rows| - 1];
      assert rows == front + [row];
      ModeTells(front);
      ModeOn(START, front, row);
      OpenOn(front, row);
      KindsOn(front, row);
    }
  }

  lemma OpenOn(front: seq<Row>, row: Row)
    ensures forall k: nat :: k < |front| ==> (front + [row])[k] == front[k]
    ensures forall k: nat :: k < |front| ==> (Open(front + [row], k) <==> Open(front, k) && !row.Section?)
    ensures Open(front + [row], |front|)
  {
    forall k: nat | k < |front|
      ensures Open(front + [row], k) <==> Open(front, k) && !row.Section?
    {
      assert (front + [row])[|front|] == row;
      assert forall l :: 0 <= l < |front| ==> (front + [row])[l] == front[l];
    }
  }

  lemma KindsOn(front: seq<Row>, row: Row)
    requires forall k: nat :: k < |front| ==> (Open(front + [row], k) <==> Open(front, k) && !row.Section?)
    requires Open(front + [row], |front|)
    ensures var rows := front + [row];
      && (InSection(rows) <==> row.Section? || InSection(front))
      && (HasScalar(rows) <==> row.Scalar? || (!row.Section? && HasScalar(front)))
      && (HasVector(rows) <==> row.Vector? || (!row.Section? && HasVector(front)))
  {
    var rows := front + [row];
    assert rows[|front|] == row;
    assert forall k :: 0 <= k < |front| ==> front[k] == rows[k];
  }

  /** The loader's test of the order of rows is the condition written out. */
  lemma {:induction false} OrderIsPlaced(rows: seq<Row>)
    ensures InOrder(rows, START) <==> Placed(rows)
    decreases |rows|
  {
    if rows != [] {
      var front, row := rows[..|rows| - 1], rows[|rows| - 1];
      OrderIsPlaced(front);
      ModeTells(front);
      assert rows == front + [row];
      InOrderFront(front, row, START);
      PlacedFront(front, row);
    }
  }

  lemma {:induction false} InOrderFront(front: seq<Row>, row: Row, mode: Mode)
    ensures InOrder(front + [row], mode) <==> InOrder(front, mode) && Follows(ModeFrom(mode, front), row)
    decreases |front|
  {
    if front == [] {
      assert front + [row] == [row];
    } else {
      assert (front + [row])[1..] == front[1..] + [row];
      InOrderFront(front[1..], row, ModeAfter(mode, front[0]));
    }
  }

  lemma PlacedFront(front: seq<Row>, row: Row)
    ensures Placed(front + [row]) <==> Placed(front) && PlacedBehind(front, row)
  {
    var rows := front + [row];
    assert rows[..|front|] == front;
    assert forall i :: 0 <= i < |front| ==> rows[..i] == front[..i] && rows[i] == front[i];
  }

  /** A whole text is read exactly if its tokens stand where they may, and then as its lines say. */
  lemma TextTyped(es: seq<Entry>)
    requires AllEntered(es)
    ensures Read(WholeText(es)) == if Placed(EntryRows(es)) then Some(EntryRows(es)) else None
  {
    EntriesRead(es, START);
    OrderIsPlaced(EntryRows(es));
  }

  /** A line without newline among its first 1023 characters is cut behind them. */
  lemma LongLineCut(t: string, rest: string)
    requires |t| == 1023 && '\n' !in t
    ensures Pieces(t + rest) == [t] + Pieces(rest)
  {
    LongPiece(t, rest);
    PiecesStep(t + rest, 1023);
    assert (t + rest)[..1023] == t && (t + rest)[1023..] == rest;
  }

  lemma {:induction false} LongPiece(t: string, rest: string)
    requires '\n' !in t
    ensures PieceLength(t + rest, |t|) == |t|
    decreases |t|
  {
    if t != "" {
      assert (t + rest)[1..] == t[1..] + rest;
      LongPiece(t[1..], rest);
    }
  }

  // ----- The program -----

  /** Reading one line, as typed and cut off behind its last word. */
  method ReadTyped(e: Entry) returns (row: Option<Row>)
    requires Entered(e)
    ensures row == Some(RowOf(e.line))
  {
    EntryRead(e);
    var line := R.BareOf(EntryText(e));
    row := R.ReadLine(line);
  }

  /** Loading a text as typed: it is refused exactly for a token out of place, and the store then has its rows. */
  method LoadTyped(fold: M.Fold, es: seq<Entry>) returns (c: S.Config, ret: int)
    requires AllEntered(es)
    ensures fresh(c) && c.fold == fold && (ret == 0 || ret == -1) && (ret == 0 <==> Placed(EntryRows(es)))
    ensures ret == 0 ==>
      c.Valid() && G.AllReadable(c.lines, c.tokens) && G.RowsOf(c.lines, c.tokens) == EntryRows(es)
  {
    TextTyped(es);
    c := new S.Config(fold);
    ret := L.Load(c, WholeText(es));
  }
}
