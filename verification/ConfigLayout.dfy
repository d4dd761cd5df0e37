/**
  How the text that `CfgDump` of `lch/util/cconfig.c` writes is laid out: in which column a character stands.
 */
module ConfigLayout {
  import opened ConfigText

  /** Spaces fill a text up to the width, and a longer one stays. */
  lemma Padded(s: string, width: nat)
    ensures var p := Pad(s, width);
      && |p| == (if |s| < width then width else |s|) && p[..|s|] == s
      && forall i :: |s| <= i < |p| ==> p[i] == ' '
  {}

  /** A name begins the line; the equal sign stands in column 16 or, behind a longer name, one further. */
  lemma ScalarLaidOut(name: string, value: string, fixed: int)
    ensures |WriteRow(Scalar(name, value), fixed)| == 1
    ensures var t := WriteRow(Scalar(name, value), fixed)[0].text; var at := if |name| < 15 then 15 else |name|;
      && |t| == at + 3 + |value| && t[..|name|] == name && (forall i :: |name| <= i < at ==> t[i] == ' ')
      && t[at..at + 3] == " = " && t[at + 3..] == value
  {
    Padded(name, 15);
  }

  /** The width of the longest value. */
  lemma {:induction false} LongestIs(values: seq<string>) returns (i: nat)
    requires values != []
    ensures i < |values| && |values[i]| == Longest(values)
    ensures forall j :: 0 <= j < |values| ==> |values[j]| <= Longest(values)
  {
    if |values| == 1 || Longest(values[1..]) < |values[0]| {
      i := 0;
    } else {
      i := LongestIs(values[1..]);
      i := i + 1;
    }
  }

  /** Unless their number is set, as many values go on a line as fit into 70 columns, one at least and 16 at most. */
  lemma PerLineFits(width: nat, fixed: int)
    requires width > 0
    ensures var n := PerLine(width, fixed);
      && (fixed > 0 ==> n == fixed)
      && (fixed <= 0 ==> n <= 16 && (n == 1 || n * width <= 70) && (n == 16 || (n + 1) * width > 70))
  {
    if fixed <= 0 {
      Quotient(70, width);
    }
  }

  lemma Quotient(a: nat, b: nat)
    requires b > 0
    ensures (a / b) * b <= a < (a / b + 1) * b
  {}

  /** A line of values: each fills one column, the last one too. */
  lemma {:induction false} ColumnsLaidOut(a: seq<string>, v: string, b: seq<string>, width: nat)
    requires |v| <= width
    ensures Columns(a + [v] + b, width) == Columns(a, width) + (v + Spaces(width - |v|)) + Columns(b, width)
    decreases |a|
  {
    if a == [] {
      FirstColumn(v, b, width);
    } else {
      ColumnsLaidOut(a[1..], v, b, width);
      assert (a + [v] + b)[1..] == a[1..] + [v] + b;
      InFront(Pad(a[0], width), Columns(a[1..], width), v + Spaces(width - |v|), Columns(b, width));
    }
  }

  lemma FirstColumn(v: string, b: seq<string>, width: nat)
    requires |v| <= width
    ensures Columns([] + [v] + b, width) == Columns([], width) + (v + Spaces(width - |v|)) + Columns(b, width)
  {
    assert [] + [v] + b == [v] + b && ([v] + b)[1..] == b;
    assert Pad(v, width) == v + Spaces(width - |v|);
    assert "" + Pad(v, width) + Columns(b, width) == Pad(v, width) + Columns(b, width);
  }

  lemma {:induction false} ColumnsLength(a: seq<string>, width: nat)
    requires forall i :: 0 <= i < |a| ==> |a[i]| <= width
    ensures |Columns(a, width)| == |a| * width
    decreases |a|
  {
    if a != [] {
      Padded(a[0], width);
      ColumnsLength(a[1..], width);
      OneMore(|a| - 1, width);
    }
  }

  lemma InFront(a: string, b: string, c: string, d: string)
    ensures a + (b + c + d) == a + b + c + d
  {}

  lemma OneMore(n: int, width: nat)
    ensures n * width + width == (n + 1) * width
  {}

  /** A vector is cut into lines of `n` values, the last of which may be shorter; none is lost and none moves. */
  lemma {:induction false} VectorLaidOut(values: seq<string>, width: nat, n: nat)
    requires n > 0
    ensures var w := WrapVector(values, width, n);
      && AllValues(w) == values
      && forall i :: 0 <= i < |w| ==>
           && w[i].row.Vector? && w[i].text == Columns(w[i].row.values, width)
           && 0 < |w[i].row.values| <= n && (i < |w| - 1 ==> |w[i].row.values| == n)
    decreases |values|
  {
    if |values| > n {
      VectorLaidOut(values[n..], width, n);
      assert values == values[..n] + values[n..];
      assert WrapVector(values, width, n)[1..] == WrapVector(values[n..], width, n);
    } else if values != [] {
      assert values + [] == values;
    }
  }

  /** The values of the lines, one line behind the other. */
  function AllValues(lines: seq<Written>): seq<string> {
    if lines == [] then [] else (if lines[0].row.Vector? then lines[0].row.values else []) + AllValues(lines[1..])
  }
}
