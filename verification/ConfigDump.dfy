/**
  Writing a configuration text (`CfgDump`, `lch/util/cconfig.c`).
 */
module ConfigDump {
  import opened ConfigModel
  import opened ConfigLines
  import opened ConfigLoading
  import opened ConfigStore
  import T = ConfigText

  /** Every line of a store can be written. */
  lemma GoodReadable(s: Store, fold: Fold)
    requires Good(s, fold)
    ensures AllReadable(s.lines, s.tokens)
  {
    forall i | 0 <= i < |s.lines|
      ensures Readable(s.lines[i], s.tokens)
    {
      assert TidyLine(s.lines[i], s.tokens, s.supply);
      if s.lines[i].Header? {
        HeaderKnown(s, fold, i);
      }
    }
  }

  lemma HeaderKnown(s: Store, fold: Fold, i: nat)
    requires Good(s, fold) && i < |s.lines| && s.lines[i].Header?
    ensures s.lines[i].section in s.tokens
  {
    var j := BlockOfHeader(s.lines, i);
    assert SaneBlock(Blocks(s.lines)[j], s.tokens, fold, s.index);
  }

  lemma BlockOfHeader(lines: seq<Line>, i: nat) returns (j: nat)
    requires i < |lines| && lines[i].Header?
    ensures j < |Blocks(lines)| && Blocks(lines)[j].section == lines[i].section
  {
    var a, b := lines[..i], lines[i + 1..];
    assert lines == a + [lines[i]] + b;
    AtHeader(a, lines[i].section, b);
    j := |Blocks(a)|;
  }

  lemma {:induction false} TextJoin(a: seq<T.Written>, b: seq<T.Written>)
    ensures T.Text(a + b) == T.Text(a) + T.Text(b)
    decreases |a|
  {
    if a == [] {
      assert a + b == b;
    } else {
      assert (a + b)[1..] == a[1..] + b;
      TextJoin(a[1..], b);
    }
  }

  lemma {:induction false} WriteJoin(a: seq<T.Row>, b: seq<T.Row>, fixed: int)
    ensures T.WriteRows(a + b, fixed) == T.WriteRows(a, fixed) + T.WriteRows(b, fixed)
    decreases |a|
  {
    if a == [] {
      assert a + b == b;
    } else {
      assert (a + b)[1..] == a[1..] + b;
      WriteJoin(a[1..], b, fixed);
    }
  }

  lemma OneRowMore(rows: seq<T.Row>, row: T.Row, fixed: int)
    ensures T.Text(T.WriteRows(rows + [row], fixed)) ==
            T.Text(T.WriteRows(rows, fixed)) + T.Text(T.WriteRow(row, fixed))
  {
    WriteJoin(rows, [row], fixed);
    assert [row][1..] == [] && T.WriteRow(row, fixed) + [] == T.WriteRow(row, fixed);
    TextJoin(T.WriteRows(rows, fixed), T.WriteRow(row, fixed));
  }

  /** `CfgDump`; `fixed` is the number of tokens per line that was set, if any. */
  method Dump(c: Config, fixed: int) returns (text: string)
    requires c.Valid()
    modifies c`dirty
    ensures c.Valid() && !c.dirty && c.State() == old(c.State())
    ensures AllReadable(c.lines, c.tokens) && text == T.Text(T.WriteRows(RowsOf(c.lines, c.tokens), fixed))
  {
    GoodReadable(c.State(), c.fold);
    text := WriteLines(c, fixed);
    c.dirty := false;
  }

  method WriteLines(c: Config, fixed: int) returns (text: string)
    requires AllReadable(c.lines, c.tokens)
    ensures text == T.Text(T.WriteRows(RowsOf(c.lines, c.tokens), fixed))
  {
    ghost var rows, done := RowsOf(c.lines, c.tokens), [];
    text := "";
    var l := 0;
    while l < |c.lines|
      invariant l <= |c.lines| && done == rows[..l] && text == T.Text(T.WriteRows(done, fixed))
    {
      assert Readable(c.lines[l], c.tokens);
      var more := WriteLine(c, c.lines[l], fixed);
      ghost var row := rows[l];
      OneRowMore(done, row, fixed);
      text := text + more;
      done := done + [row];
      l := l + 1;
    }
    assert done == rows;
  }

  method WriteLine(c: Config, line: Line, fixed: int) returns (text: string)
    requires Readable(line, c.tokens)
    ensures text == T.Text(T.WriteRow(RowOf(line, c.tokens), fixed))
  {
    match line {
      case Remark(remark) => text := remark + "\n";
      case Header(s) => text := "[" + c.tokens[s].name + "]" + "\n";
      case Items(ids) =>
        var t := c.tokens[ids[0]];
        if t.kind.Scalar? {
          text := T.Pad(t.name, T.NAME_WIDTH) + " = " + t.value + "\n";
        } else {
          text := WriteValues(ValuesOf(ids, c.tokens), fixed);
          return;
        }
    }
    assert text + "" == text;
  }

  /** The values of a line in columns as wide as the longest, so many to a line. */
  method WriteValues(values: seq<string>, fixed: int) returns (text: string)
    requires values != []
    ensures text == T.Text(T.WriteRow(T.Vector(values), fixed))
  {
    var longest := LongestOf(values);
    text := PrintColumns(values, longest + 1, T.PerLine(longest + 1, fixed));
    VectorText(values, fixed);
  }

  lemma VectorText(values: seq<string>, fixed: int)
    ensures var width := T.Longest(values) + 1;
      T.Text(T.WriteRow(T.Vector(values), fixed)) == Tail(values, width, T.PerLine(width, fixed), 0)
  {
    var width := T.Longest(values) + 1;
    WrapIsTail(values, width, T.PerLine(width, fixed));
  }

  /** A newline behind every `n` values and behind the last. */
  method PrintColumns(values: seq<string>, width: nat, n: nat) returns (text: string)
    requires n > 0
    ensures text == Tail(values, width, n, 0)
  {
    text := "";
    var k, i := 0, 0;
    ghost var all, rest := Tail(values, width, n, 0), values;
    while k < |values|
      invariant k <= |values| && i < n && rest == values[k..] && all == text + Tail(rest, width, n, i)
    {
      TailNext(text, rest, width, n, i);
      ModIs(i + 1, n);
      text := text + T.Pad(values[k], width);
      i := i + 1;
      if i % n == 0 {
        text := text + "\n";
        i := 0;
      }
      k := k + 1;
      assert rest[1..] == values[k..];
      rest := rest[1..];
    }
    if i != 0 {
      text := text + "\n";
    }
  }

  lemma ModIs(i: nat, n: nat)
    requires 0 < i <= n
    ensures i % n == 0 <==> i == n
  {}

  method LongestOf(values: seq<string>) returns (longest: nat)
    ensures longest == T.Longest(values)
  {
    longest := 0;
    var k := 0;
    assert values[0..] == values;
    while k < |values|
      invariant k <= |values|
      invariant T.Longest(values) == var rest := T.Longest(values[k..]); if rest < longest then longest else rest
    {
      assert values[k..][1..] == values[k + 1..];
      if longest < |values[k]| {
        longest := |values[k]|;
      }
      k := k + 1;
    }
  }

  /** What is still to be written when `i` values stand on the line. */
  function Tail(values: seq<string>, width: nat, n: nat, i: nat): string
    requires i < n
  {
    if values == [] then (if i > 0 then "\n" else "")
    else
      T.Pad(values[0], width) +
      (if i + 1 == n then "\n" + Tail(values[1..], width, n, 0) else Tail(values[1..], width, n, i + 1))
  }

  lemma TailNext(text: string, values: seq<string>, width: nat, n: nat, i: nat)
    requires i < n && values != []
    ensures var more := text + T.Pad(values[0], width);
      text + Tail(values, width, n, i) ==
      if i + 1 == n then more + "\n" + Tail(values[1..], width, n, 0) else more + Tail(values[1..], width, n, i + 1)
  {}

  lemma {:induction false} FullLine(a: seq<string>, b: seq<string>, width: nat, n: nat, i: nat)
    requires i < n && |a| == n - i
    ensures Tail(a + b, width, n, i) == T.Columns(a, width) + "\n" + Tail(b, width, n, 0)
    decreases |a|
  {
    assert (a + b)[1..] == a[1..] + b;
    if |a| > 1 {
      FullLine(a[1..], b, width, n, i + 1);
    } else {
      assert a[1..] == [] && [] + b == b;
    }
  }

  lemma {:induction false} LastLine(a: seq<string>, width: nat, n: nat, i: nat)
    requires i < n && 0 < |a| < n - i
    ensures Tail(a, width, n, i) == T.Columns(a, width) + "\n"
    decreases |a|
  {
    if |a| > 1 {
      LastLine(a[1..], width, n, i + 1);
    } else {
      assert a[1..] == [];
    }
  }

  lemma {:induction false} WrapIsTail(values: seq<string>, width: nat, n: nat)
    requires n > 0
    ensures T.Text(T.WrapVector(values, width, n)) == Tail(values, width, n, 0)
    decreases |values|
  {
    if values != [] {
      if |values| < n {
        LastLine(values, width, n, 0);
      } else {
        var a, b := values[..n], values[n..];
        assert a + b == values;
        FullLine(a, b, width, n, 0);
        if b == [] {
          assert a == values;
        } else {
          WrapIsTail(b, width, n);
        }
      }
    }
  }
}
