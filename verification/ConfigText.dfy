/**
  The text form of the configuration of `lch/util/cconfig.c`: how a file is cut into lines and a line is
  read, and how the lines are written.
 */
module ConfigText {
  /** A line buffer holds so many characters, the terminator included. */
  const BUFFER_SIZE := 1024
  const NAME_WIDTH := 15

  predicate Blank(c: char) {
    c == ' ' || c == '\t'
  }

  predicate LineEnd(c: char) {
    c == '\r' || c == '\n'
  }

  /** What one line says; blank lines are remarks without text. */
  datatype Row =
    | Remark(text: string)
    | Section(name: string)
    | Scalar(name: string, value: string)
    | Vector(values: seq<string>)

  datatype Option<T> = None | Some(value: T)

  // ----- Cutting the text -----

  /** Up to and including the first newline, but no more than fits in the buffer. */
  function PieceLength(text: string, room: nat): (n: nat)
    ensures n <= |text| && n <= room && (text != "" && room > 0 ==> n > 0)
  {
    if text == "" || room == 0 then 0
    else if text[0] == '\n' then 1
    else 1 + PieceLength(text[1..], room - 1)
  }

  function Pieces(text: string): seq<string>
    decreases |text|
  {
    if text == "" then []
    else
      var n := PieceLength(text, BUFFER_SIZE - 1);
      [text[..n]] + Pieces(text[n..])
  }

  function Chomp(s: string): (r: string)
    ensures |r| <= |s|
  {
    if s != "" && LineEnd(s[|s| - 1]) then Chomp(s[..|s| - 1]) else s
  }

  function TrimEnd(s: string): (r: string)
    ensures |r| <= |s|
  {
    if s != "" && Blank(s[|s| - 1]) then TrimEnd(s[..|s| - 1]) else s
  }

  function TrimStart(s: string): (r: string)
    ensures |r| <= |s|
  {
    if s != "" && Blank(s[0]) then TrimStart(s[1..]) else s
  }

  /** The line as it is looked at: without its end and without blanks before that. */
  function Bare(piece: string): string {
    TrimEnd(Chomp(piece))
  }

  // ----- Reading a line -----

  /** Runs of blanks become one space. */
  function Squeeze(s: string, inRun: bool): (r: string)
    ensures |r| <= |s|
  {
    if s == "" then ""
    else if !Blank(s[0]) then [s[0]] + Squeeze(s[1..], false)
    else (if inRun then "" else " ") + Squeeze(s[1..], true)
  }

  function Tidied(s: string): (r: string)
    ensures |r| <= |s|
  {
    Squeeze(TrimEnd(TrimStart(s)), false)
  }

  function WordLength(s: string): (n: nat)
    ensures n <= |s|
  {
    if s == "" || Blank(s[0]) then 0 else 1 + WordLength(s[1..])
  }

  function Words(s: string): seq<string>
    decreases |s|
  {
    if WordLength(s) == 0 then []
    else [s[..WordLength(s)]] + Words(TrimStart(s[WordLength(s)..]))
  }

  /** The place of the first equal sign. */
  function EqualSign(s: string): (n: nat)
    ensures n <= |s| && (n < |s| ==> s[n] == '=') && '=' !in s[..n]
  {
    if s == "" || s[0] == '=' then 0 else 1 + EqualSign(s[1..])
  }

  /** A section name stands in brackets from the first character that is not blank to the last. */
  predicate Bracketed(body: string) {
    |body| > 1 && body[0] == '[' && body[|body| - 1] == ']'
  }

  function Assignment(body: string): Option<Row> {
    var p := EqualSign(body);
    if p == |body| || '=' in body[p + 1..] then None
    else
      var name, value := Tidied(body[..p]), Tidied(body[p + 1..]);
      if name == "" || value == "" then None else Some(Scalar(name, value))
  }

  function ReadRow(line: string): Option<Row> {
    var body := TrimStart(line);
    if line == "" || line[0] == '#' then Some(Remark(line))
    else if Bracketed(body) then
      var name := Tidied(body[1..|body| - 1]);
      if name == "" then None else Some(Section(name))
    else if '=' !in body then Some(Vector(Words(body)))
    else Assignment(body)
  }

  /** Whether a section has begun, and which kind of token may not follow in it. */
  datatype Mode = Mode(section: bool, scalar: bool, vector: bool)

  const START := Mode(false, true, true)

  predicate Follows(mode: Mode, row: Row) {
    match row
    case Scalar(_, _) => mode.section && !mode.vector
    case Vector(_) => mode.section && !mode.scalar
    case _ => true
  }

  function ModeAfter(mode: Mode, row: Row): Mode {
    match row
    case Remark(_) => mode
    case Section(_) => Mode(true, false, false)
    case Scalar(_, _) => mode.(scalar := true)
    case Vector(_) => mode.(vector := true)
  }

  /** The rows of the pieces, if every one can be read and may stand where it stands. */
  function ReadPieces(pieces: seq<string>, mode: Mode): Option<seq<Row>> {
    if pieces == [] then Some([])
    else
      var row := ReadRow(Bare(pieces[0]));
      if row.None? || !Follows(mode, row.value) then None
      else
        var rest := ReadPieces(pieces[1..], ModeAfter(mode, row.value));
        if rest.None? then None else Some([row.value] + rest.value)
  }

  function Read(text: string): Option<seq<Row>> {
    ReadPieces(Pieces(text), START)
  }

  // ----- Writing -----

  function Spaces(n: nat): (s: string)
    ensures |s| == n && forall i :: 0 <= i < n ==> s[i] == ' '
  {
    if n == 0 then "" else " " + Spaces(n - 1)
  }

  function Pad(s: string, width: nat): string {
    if |s| < width then s + Spaces(width - |s|) else s
  }

  function Longest(values: seq<string>): (n: nat)
    ensures forall v :: v in values ==> |v| <= n
  {
    if values == [] then 0
    else
      var rest := Longest(values[1..]);
      if rest < |values[0]| then |values[0]| else rest
  }

  /** How many values of this width go on a line. */
  function PerLine(width: nat, fixed: int): (n: nat)
    requires width > 0
    ensures n > 0
  {
    if fixed > 0 then fixed
    else if 70 / width > 16 then 16
    else if 70 / width < 1 then 1
    else 70 / width
  }

  function Columns(values: seq<string>, width: nat): string {
    if values == [] then "" else Pad(values[0], width) + Columns(values[1..], width)
  }

  /** A line as it is written, without its newline, and the row it is written for. */
  datatype Written = Written(row: Row, text: string)

  function WrapVector(values: seq<string>, width: nat, n: nat): seq<Written>
    requires n > 0
    decreases |values|
  {
    if values == [] then []
    else if |values| <= n then [Written(Vector(values), Columns(values, width))]
    else [Written(Vector(values[..n]), Columns(values[..n], width))] + WrapVector(values[n..], width, n)
  }

  function WriteRow(row: Row, fixed: int): seq<Written> {
    match row
    case Remark(text) => [Written(row, text)]
    case Section(name) => [Written(row, "[" + name + "]")]
    case Scalar(name, value) => [Written(row, Pad(name, NAME_WIDTH) + " = " + value)]
    case Vector(values) =>
      var width := Longest(values) + 1;
      WrapVector(values, width, PerLine(width, fixed))
  }

  function WriteRows(rows: seq<Row>, fixed: int): seq<Written> {
    if rows == [] then [] else WriteRow(rows[0], fixed) + WriteRows(rows[1..], fixed)
  }

  function Text(lines: seq<Written>): string {
    if lines == [] then "" else lines[0].text + "\n" + Text(lines[1..])
  }

  function RowsOf(lines: seq<Written>): (rows: seq<Row>)
    ensures |rows| == |lines|
  {
    seq(|lines|, i requires 0 <= i < |lines| => lines[i].row)
  }

  /** The rows with every vector line taken apart into its values. */
  function Singles(rows: seq<Row>): seq<Row> {
    if rows == [] then []
    else (if rows[0].Vector? then OneEach(rows[0].values) else [rows[0]]) + Singles(rows[1..])
  }

  function OneEach(values: seq<string>): seq<Row> {
    seq(|values|, i requires 0 <= i < |values| => Vector([values[i]]))
  }

  /** Tokens stand in sections, scalars and vectors in different ones. */
  predicate InOrder(rows: seq<Row>, mode: Mode) {
    rows == [] || (Follows(mode, rows[0]) && InOrder(rows[1..], ModeAfter(mode, rows[0])))
  }
}
