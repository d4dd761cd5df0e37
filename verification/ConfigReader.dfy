/**
  Reading one line of a configuration text, character by character (`CfgLoadConfiguration`,
  `lch/util/cconfig.c`).
 */
module ConfigReader {
  import opened ConfigText
  import opened ConfigRoundTrip

  /** The length of the next piece: up to and including the newline, cut to the buffer. */
  method PieceAt(text: string, at: nat) returns (n: nat)
    requires at < |text|
    ensures n == PieceLength(text[at..], BUFFER_SIZE - 1) && 0 < n <= |text| - at
  {
    var x, count := at, 0;
    ghost var all := text[at..];
    while x < |text| && text[x] != '\n'
      invariant at <= x <= |text| && count == x - at
      invariant PieceLength(all, |all|) == count + PieceLength(text[x..], |text| - x)
    {
      assert text[x..][1..] == text[x + 1..];
      x, count := x + 1, count + 1;
    }
    if x < |text| {
      count := count + 1;
    }
    n := if count < BUFFER_SIZE then count else BUFFER_SIZE - 1;
    PieceLimit(all, BUFFER_SIZE - 1);
  }

  lemma {:induction false} PieceLimit(t: string, room: nat)
    ensures var n := PieceLength(t, |t|); PieceLength(t, room) == if n < room then n else room
    decreases |t|
  {
    if t != "" && room > 0 && t[0] != '\n' {
      PieceLimit(t[1..], room - 1);
    }
  }

  /** Takes off the line end and the blanks before it. */
  method BareOf(piece: string) returns (line: string)
    ensures line == Bare(piece)
  {
    var e: nat := |piece|;
    assert piece[..e] == piece;
    while e > 0 && LineEnd(piece[e - 1])
      invariant e <= |piece| && Chomp(piece) == Chomp(piece[..e])
    {
      assert piece[..e][..e - 1] == piece[..e - 1];
      e := e - 1;
    }
    ghost var chomped := piece[..e];
    while e > 0 && Blank(piece[e - 1])
      invariant e <= |piece| && TrimEnd(chomped) == TrimEnd(piece[..e])
    {
      assert piece[..e][..e - 1] == piece[..e - 1];
      e := e - 1;
    }
    line := piece[..e];
  }

  /** The first place from `lo` on that holds no blank. */
  method SkipBlanks(line: string, lo: nat, hi: nat) returns (i: nat)
    requires lo <= hi <= |line|
    ensures lo <= i <= hi && TrimStart(line[lo..hi]) == line[i..hi] && (i < hi ==> !Blank(line[i]))
    ensures AllBlank(line[lo..i])
  {
    i := lo;
    while i < hi && Blank(line[i])
      invariant lo <= i <= hi && TrimStart(line[lo..hi]) == TrimStart(line[i..hi])
      invariant AllBlank(line[lo..i])
    {
      assert line[i..hi][1..] == line[i + 1..hi];
      assert line[lo..i + 1] == line[lo..i] + [line[i]];
      i := i + 1;
    }
  }

  /** A name or value: without the blanks around it, the runs inside made single spaces. */
  method TidyText(line: string, lo: nat, hi: nat) returns (text: string)
    requires lo <= hi <= |line|
    ensures text == Tidied(line[lo..hi])
  {
    var i := SkipBlanks(line, lo, hi);
    var j := hi;
    while j > lo && Blank(line[j - 1])
      invariant lo <= j <= hi && (i < hi ==> i < j) && AllBlank(line[j..hi])
    {
      assert line[j - 1..hi] == [line[j - 1]] + line[j..hi];
      j := j - 1;
    }
    if i == hi {
      assert TrimStart(line[lo..hi]) == "";
      return "";
    }
    assert line[i..hi] == line[i..j] + line[j..hi];
    TrimEndSkips(line[i..j], line[j..hi]);
    text := SqueezeText(line, i, j);
  }

  /** Copies the characters, a run of blanks as one space. */
  method SqueezeText(line: string, i: nat, j: nat) returns (text: string)
    requires i <= j <= |line|
    ensures text == Squeeze(line[i..j], false)
  {
    text := "";
    var flag, k := false, i;
    while k < j
      invariant i <= k <= j && Squeeze(line[i..j], false) == text + Squeeze(line[k..j], flag)
    {
      SqueezeOn(text, line[k..j], line[k + 1..j], flag);
      if !Blank(line[k]) {
        flag := false;
        text := text + [line[k]];
      } else if !flag {
        text := text + " ";
        flag := true;
      }
      k := k + 1;
    }
    assert text + "" == text;
  }

  lemma SqueezeOn(text: string, s: string, rest: string, inRun: bool)
    requires s != "" && s[1..] == rest
    ensures text + Squeeze(s, inRun) ==
            text + (if !Blank(s[0]) then [s[0]] else if inRun then "" else " ") + Squeeze(rest, Blank(s[0]))
    ensures text + "" == text
  {
    SqueezeStep(s, inRun);
  }

  /** The words of a line of vector tokens. */
  method SplitWords(line: string, lo: nat) returns (values: seq<string>)
    requires lo <= |line| && (lo < |line| ==> !Blank(line[lo]))
    ensures values == Words(line[lo..])
  {
    values := [];
    var start := lo;
    while start < |line|
      invariant lo <= start <= |line| && (start < |line| ==> !Blank(line[start]))
      invariant Words(line[lo..]) == values + Words(line[start..])
      decreases |line| - start
    {
      var n := WordAt(line, start);
      var next := SkipBlanks(line, start + n, |line|);
      assert line[start..][..n] == line[start..start + n] && line[start..][n..] == line[start + n..|line|];
      assert line[next..|line|] == line[next..];
      WordsOn(values, line[start..], n, line[next..]);
      values := values + [line[start..start + n]];
      start := next;
    }
    assert line[start..] == "";
    assert values + [] == values;
  }

  lemma WordsOn(values: seq<string>, s: string, n: nat, rest: string)
    requires 0 < n == WordLength(s) && TrimStart(s[n..]) == rest
    ensures values + Words(s) == values + [s[..n]] + Words(rest)
  {}

  method WordAt(line: string, start: nat) returns (n: nat)
    requires start < |line| && !Blank(line[start])
    ensures n == WordLength(line[start..]) && 0 < n <= |line| - start
  {
    n := 0;
    while start + n < |line| && !Blank(line[start + n])
      invariant start + n <= |line| && WordLength(line[start..]) == n + WordLength(line[start + n..])
    {
      assert line[start + n..][1..] == line[start + n + 1..];
      n := n + 1;
    }
  }

  /** The place of the first equal sign; the length of the line if there is none. */
  method FindEqualSign(line: string, lo: nat) returns (p: nat)
    requires lo <= |line|
    ensures lo <= p <= |line| && p == lo + EqualSign(line[lo..])
  {
    p := lo;
    while p < |line| && line[p] != '='
      invariant lo <= p <= |line| && EqualSign(line[lo..]) == p - lo + EqualSign(line[p..])
    {
      assert line[p..][1..] == line[p + 1..];
      p := p + 1;
    }
  }

  /** A line of a name and a value. */
  method ReadAssignment(line: string, lo: nat) returns (row: Option<Row>)
    requires lo <= |line|
    ensures row == Assignment(line[lo..])
  {
    var p := FindEqualSign(line, lo);
    if p == |line| {
      return None;
    }
    var second := FindEqualSign(line, p + 1);
    assert line[lo..][p - lo + 1..] == line[p + 1..] && line[lo..][..p - lo] == line[lo..p];
    SecondSign(line[p + 1..]);
    if second < |line| {
      return None;
    }
    var name := TidyText(line, lo, p);
    var value := TidyText(line, p + 1, |line|);
    assert line[p + 1..|line|] == line[p + 1..];
    if name == "" || value == "" {
      return None;
    }
    return Some(Scalar(name, value));
  }

  lemma SecondSign(s: string)
    ensures EqualSign(s) < |s| <==> '=' in s
  {
    if EqualSign(s) < |s| {
      assert s[EqualSign(s)] == '=';
    } else {
      assert s[..EqualSign(s)] == s;
    }
  }

  /** What the line says, or none if it says nothing that can be read. */
  method ReadLine(line: string) returns (row: Option<Row>)
    ensures row == ReadRow(line)
  {
    if line == "" || line[0] == '#' {
      return Some(Remark(line));
    }
    var start := SkipBlanks(line, 0, |line|);
    ghost var body := line[start..];
    assert line[0..|line|] == line && line[start..|line|] == body && body == TrimStart(line);
    if |line| - start > 1 && line[start] == '[' && line[|line| - 1] == ']' {
      var name := TidyText(line, start + 1, |line| - 1);
      assert body[1..|body| - 1] == line[start + 1..|line| - 1];
      return if name == "" then None else Some(Section(name));
    }
    var p := FindEqualSign(line, start);
    SecondSign(body);
    if p == |line| {
      var values := SplitWords(line, start);
      return Some(Vector(values));
    }
    row := ReadAssignment(line, start);
  }
}
