/**
  Where the edits of `lch/util/cconfig.c` change the line list, and what that does to one section.
 */
module ConfigPlaces {
  import opened ConfigModel
  import opened ConfigEdits
  import opened ConfigLines

  /** The line list `now` is that of `s` with `x` in section `i` behind `m` of its tokens. */
  predicate Takes(now: seq<Line>, s: Store, i: nat, m: nat, x: Id) {
    && Lead(now) == [] && i < |Blocks(s.lines)| && m <= |Blocks(s.lines)[i].ids|
    && var b := Blocks(s.lines)[i];
       Blocks(now) == Blocks(s.lines)[i := Block(b.section, b.ids[..m] + [x] + b.ids[m..])]
  }

  /** The line list `now` is that of `s` without the token at place `m` of section `i`. */
  predicate Drops(now: seq<Line>, s: Store, i: nat, m: nat) {
    && Lead(now) == [] && i < |Blocks(s.lines)| && m < |Blocks(s.lines)[i].ids|
    && var b := Blocks(s.lines)[i];
       Blocks(now) == Blocks(s.lines)[i := Block(b.section, b.ids[..m] + b.ids[m + 1..])]
  }

  lemma ReplaceAt(pre: seq<Block>, b: Block, c: Block, post: seq<Block>)
    ensures (pre + [b] + post)[|pre| := c] == pre + [c] + post && (pre + [b] + post)[|pre|] == b
  {}

  /** A new line behind the header of section `i`. */
  lemma FirstTakes(s: Store, fold: Fold, i: nat, p: nat, x: Id)
    requires Good(s, fold) && i < |s.sections| && p < |s.lines| && s.lines[p] == Header(s.sections[i])
    ensures Takes(s.lines[..p + 1] + [Items([x])] + s.lines[p + 1..], s, i, 0, x)
  {
    var a, h, b := s.lines[..p], s.sections[i], s.lines[p + 1..];
    assert s.lines == a + [Header(h)] + b;
    assert s.lines[..p + 1] + [Items([x])] + b == a + [Header(h)] + ([Items([x])] + b);
    InsertFirst(a, h, x, b);
    HeaderHome(s, fold, i, a, h, b);
    ReplaceAt(Blocks(a), Block(h, Lead(b)), Block(h, [x] + Lead(b)), Blocks(b));
    NothingBefore(Lead(b), x);
  }

  lemma HeaderHome(s: Store, fold: Fold, i: nat, a: seq<Line>, h: Id, b: seq<Line>)
    requires Good(s, fold) && i < |s.sections| && h == s.sections[i]
    requires Blocks(s.lines) == Blocks(a) + [Block(h, Lead(b))] + Blocks(b)
    ensures |Blocks(a)| == i && Blocks(s.lines)[i] == Block(h, Lead(b))
  {
    assert Blocks(s.lines)[|Blocks(a)|] == Block(h, Lead(b));
    OneHome(Blocks(s.lines), i, |Blocks(a)|, h);
  }

  lemma NothingBefore(c: seq<Id>, x: Id)
    ensures c[..0] + [x] + c[0..] == [x] + c
  {}

  /** A line of tokens behind `i` sections and the start of one more. */
  predicate InSection(s: Store, i: nat, ln: nat) {
    && ln < |s.lines| && s.lines[ln].Items? && i < |Blocks(s.lines)|
    && var w, c, a, b := s.lines[ln].ids, Blocks(s.lines)[i].ids, s.lines[..ln], s.lines[ln + 1..];
       && |Blocks(a)| == i + 1 && Blocks(a)[i].section == Blocks(s.lines)[i].section
       && c == Blocks(a)[i].ids + w + Lead(b)
       && Blocks(s.lines) == Blocks(a)[..i] + [Block(Blocks(s.lines)[i].section, c)] + Blocks(b)
       && Lead(a) == []
  }

  /** A line of tokens belongs to one section: its tokens stand together in the chain, from place `k` on. */
  lemma LinePart(s: Store, fold: Fold, i: nat, ln: nat, t: Id) returns (k: nat)
    requires Good(s, fold) && i < |s.sections| && t in Blocks(s.lines)[i].ids
    requires ln < |s.lines| && s.lines[ln].Items? && t in s.lines[ln].ids
    ensures InSection(s, i, ln) && k == |Blocks(s.lines[..ln])[i].ids|
  {
    var w, a, b := s.lines[ln].ids, s.lines[..ln], s.lines[ln + 1..];
    assert s.lines == a + [Items(w)] + b;
    HasHome(a, w, b);
    InLine(a, w, b);
    var n := |Blocks(a)| - 1;
    var last := Blocks(a)[n];
    ReplaceAt(Blocks(a)[..n], Block(last.section, last.ids + (w + Lead(b))), last, Blocks(b));
    assert Blocks(s.lines)[n] == Block(last.section, last.ids + (w + Lead(b)));
    OneHome(Blocks(s.lines), i, n, t);
    assert last.ids + (w + Lead(b)) == last.ids + w + Lead(b);
    k := |last.ids|;
  }

  /** Tokens without a section before them would come before the first header. */
  lemma HasHome(a: seq<Line>, w: seq<Id>, b: seq<Line>)
    requires Lead(a + [Items(w)] + b) == [] && w != []
    ensures Blocks(a) != []
  {
    LeadOf(w, b);
    LeadJoin(a, [Items(w)] + b);
    assert a + ([Items(w)] + b) == a + [Items(w)] + b;
  }

  /** A token put into a line. */
  lemma InLineTakes(s: Store, fold: Fold, i: nat, ln: nat, j: nat, t: Id, x: Id) returns (k: nat)
    requires Good(s, fold) && i < |s.sections| && t in Blocks(s.lines)[i].ids
    requires ln < |s.lines| && s.lines[ln].Items? && t in s.lines[ln].ids && j <= |s.lines[ln].ids|
    ensures var w, c := s.lines[ln].ids, Blocks(s.lines)[i].ids;
      && k + |w| <= |c| && c[k..k + |w|] == w
      && Takes(s.lines[ln := Items(w[..j] + [x] + w[j..])], s, i, k + j, x)
  {
    k := LinePart(s, fold, i, ln, t);
    InLineTakesAt(s, i, ln, j, x);
  }

  lemma InLineTakesAt(s: Store, i: nat, ln: nat, j: nat, x: Id)
    requires InSection(s, i, ln) && j <= |s.lines[ln].ids|
    ensures var w, c, k := s.lines[ln].ids, Blocks(s.lines)[i].ids, |Blocks(s.lines[..ln])[i].ids|;
      && k + |w| <= |c| && c[k..k + |w|] == w
      && Takes(s.lines[ln := Items(w[..j] + [x] + w[j..])], s, i, k + j, x)
  {
    var w, a, b := s.lines[ln].ids, s.lines[..ln], s.lines[ln + 1..];
    var c0, l, h := Blocks(a)[i].ids, Lead(b), Blocks(s.lines)[i].section;
    assert w == w[..j] + w[j..];
    InsertInLine(a, w[..j], x, w[j..], b);
    assert s.lines[ln := Items(w[..j] + [x] + w[j..])] == a + [Items(w[..j] + [x] + w[j..])] + b;
    CutChain(c0, w, l, j, x);
    TakesBy(s.lines[ln := Items(w[..j] + [x] + w[j..])], s, i, Blocks(a)[..i], h, c0 + w + l, |c0| + j, x, Blocks(b));
  }

  lemma TakesBy(now: seq<Line>, s: Store, i: nat, pre: seq<Block>, h: Id, c: seq<Id>, m: nat, x: Id, post: seq<Block>)
    requires |pre| == i && m <= |c| && Lead(now) == []
    requires Blocks(s.lines) == pre + [Block(h, c)] + post
    requires Blocks(now) == pre + [Block(h, c[..m] + [x] + c[m..])] + post
    ensures Takes(now, s, i, m, x) && Blocks(s.lines)[i] == Block(h, c)
  {
    ReplaceAt(pre, Block(h, c), Block(h, c[..m] + [x] + c[m..]), post);
  }

  lemma CutChain(c0: seq<Id>, w: seq<Id>, l: seq<Id>, j: nat, x: Id)
    requires j <= |w|
    ensures var c, m := c0 + w + l, |c0| + j;
      c[..m] == c0 + w[..j] && c[m..] == w[j..] + l && c[|c0|..|c0| + |w|] == w
  {}

  /** A new line behind a line of one token. */
  lemma BehindTakes(s: Store, fold: Fold, i: nat, ln: nat, t: Id, x: Id) returns (k: nat)
    requires Good(s, fold) && i < |s.sections| && t in Blocks(s.lines)[i].ids
    requires ln < |s.lines| && s.lines[ln] == Items([t])
    ensures k < |Blocks(s.lines)[i].ids| && Blocks(s.lines)[i].ids[k] == t
    ensures Takes(s.lines[..ln + 1] + [Items([x])] + s.lines[ln + 1..], s, i, k + 1, x)
  {
    k := InLineTakes(s, fold, i, ln, 1, t, x);
    var a, b := s.lines[..ln], s.lines[ln + 1..];
    var none := LinePart(s, fold, i, ln, t);
    InsertBehind(a, [t], x, b);
    assert Blocks(s.lines)[i].ids[k..k + 1] == [t];
    assert [t][..1] + [x] + [t][1..] == [t] + [x];
    assert s.lines[ln := Items([t] + [x])] == a + [Items([t] + [x])] + b;
    assert s.lines[..ln + 1] + [Items([x])] + b == a + [Items([t])] + ([Items([x])] + b);
  }

  /** A token taken out of its line; a line left empty goes too. */
  function Cut(lines: seq<Line>, ln: nat, j: nat): seq<Line>
    requires ln < |lines| && lines[ln].Items? && j < |lines[ln].ids|
  {
    var w := lines[ln].ids;
    if |w| == 1 then lines[..ln] + lines[ln + 1..] else lines[ln := Items(w[..j] + w[j + 1..])]
  }

  lemma CutDrops(s: Store, fold: Fold, i: nat, ln: nat, j: nat) returns (k: nat)
    requires Good(s, fold) && i < |s.sections|
    requires ln < |s.lines| && s.lines[ln].Items? && j < |s.lines[ln].ids|
    requires s.lines[ln].ids[j] in Blocks(s.lines)[i].ids
    ensures k < |Blocks(s.lines)[i].ids| && Blocks(s.lines)[i].ids[k] == s.lines[ln].ids[j]
    ensures Drops(Cut(s.lines, ln, j), s, i, k)
  {
    k := LinePart(s, fold, i, ln, s.lines[ln].ids[j]);
    CutDropsAt(s, i, ln, j);
    k := k + j;
  }

  lemma CutDropsAt(s: Store, i: nat, ln: nat, j: nat)
    requires InSection(s, i, ln) && j < |s.lines[ln].ids|
    ensures var k := |Blocks(s.lines[..ln])[i].ids| + j;
      && k < |Blocks(s.lines)[i].ids| && Blocks(s.lines)[i].ids[k] == s.lines[ln].ids[j]
      && Drops(Cut(s.lines, ln, j), s, i, k)
  {
    var w, a, b := s.lines[ln].ids, s.lines[..ln], s.lines[ln + 1..];
    var c0, l, h := Blocks(a)[i].ids, Lead(b), Blocks(s.lines)[i].section;
    CutBlocks(s.lines, ln, j);
    CutChain(c0, w, l, j, w[j]);
    CutChain(c0, w, l, j + 1, w[j]);
    DropsBy(Cut(s.lines, ln, j), s, i, Blocks(a)[..i], h, c0 + w + l, |c0| + j, Blocks(b));
  }

  /** A changed section between unchanged ones. */
  lemma DropsBy(now: seq<Line>, s: Store, i: nat, pre: seq<Block>, h: Id, c: seq<Id>, k: nat, post: seq<Block>)
    requires |pre| == i && k < |c| && Lead(now) == []
    requires Blocks(s.lines) == pre + [Block(h, c)] + post
    requires Blocks(now) == pre + [Block(h, c[..k] + c[k + 1..])] + post
    ensures Drops(now, s, i, k) && Blocks(s.lines)[i] == Block(h, c)
  {
    ReplaceAt(pre, Block(h, c), Block(h, c[..k] + c[k + 1..]), post);
  }

  lemma CutBlocks(lines: seq<Line>, ln: nat, j: nat)
    requires ln < |lines| && lines[ln].Items? && j < |lines[ln].ids| && Blocks(lines[..ln]) != []
    ensures var w, a, b := lines[ln].ids, lines[..ln], lines[ln + 1..];
      var n := |Blocks(a)| - 1;
      && Blocks(Cut(lines, ln, j)) == Blocks(a)[..n] +
           [Block(Blocks(a)[n].section, (Blocks(a)[n].ids + w[..j]) + (w[j + 1..] + Lead(b)))] + Blocks(b)
      && Lead(Cut(lines, ln, j)) == Lead(a)
  {
    var w, a, b := lines[ln].ids, lines[..ln], lines[ln + 1..];
    InsertInLine(a, w[..j], w[j], w[j + 1..], b);
    if |w| == 1 {
      EmptyLine(a, b);
      assert w[..j] + w[j + 1..] == [];
    } else {
      assert Cut(lines, ln, j) == a + [Items(w[..j] + w[j + 1..])] + b;
    }
  }
}
