/**
  The store while a configuration text is loaded (`CfgLoadConfiguration`, `lch/util/cconfig.c`): lines and
  tokens are there, the section array, the chains and most indices are not.
 */
module ConfigLoading {
  import opened ConfigModel
  import T = ConfigText

  /** The tokens of the lines, in order. */
  function IdsOf(lines: seq<Line>): seq<Id> {
    if lines == [] then []
    else
      (match lines[0]
       case Header(s) => [s]
       case Items(ids) => ids
       case Remark(_) => []) + IdsOf(lines[1..])
  }

  /** The lines hold all tokens handed out so far, in the order in which they were. */
  function Upto(n: nat): (ids: seq<Id>)
    ensures |ids| == n && forall i :: 0 <= i < n ==> ids[i] == i
  {
    seq(n, i => i)
  }

  function Onward(first: Id, n: nat): (ids: seq<Id>)
    ensures |ids| == n && forall i :: 0 <= i < n ==> ids[i] == first + i
  {
    seq(n, i => first + i)
  }

  /** A line as a row of text. */
  predicate Readable(l: Line, tokens: Tokens) {
    match l
    case Header(s) => s in tokens
    case Items(ids) => ids != [] && Known(ids, tokens)
    case Remark(_) => true
  }

  function RowOf(l: Line, tokens: Tokens): T.Row
    requires Readable(l, tokens)
  {
    match l
    case Header(s) => T.Section(tokens[s].name)
    case Items(ids) =>
      var t := tokens[ids[0]];
      if t.kind.Scalar? then T.Scalar(t.name, t.value) else T.Vector(ValuesOf(ids, tokens))
    case Remark(text) => T.Remark(text)
  }

  function ValuesOf(ids: seq<Id>, tokens: Tokens): (values: seq<string>)
    requires Known(ids, tokens)
    ensures |values| == |ids|
  {
    seq(|ids|, i requires 0 <= i < |ids| => tokens[ids[i]].value)
  }

  predicate AllReadable(lines: seq<Line>, tokens: Tokens) {
    forall i :: 0 <= i < |lines| ==> Readable(lines[i], tokens)
  }

  function RowsOf(lines: seq<Line>, tokens: Tokens): (rows: seq<T.Row>)
    requires AllReadable(lines, tokens)
    ensures |rows| == |lines|
  {
    seq(|lines|, i requires 0 <= i < |lines| => RowOf(lines[i], tokens))
  }

  /** Tokens of one kind; vectors have their indices, scalars have 1. */
  predicate TokensStarted(ids: seq<Id>, tokens: Tokens, index: map<Id, int>) {
    && Known(ids, tokens)
    && forall i :: 0 <= i < |ids| ==>
         && !tokens[ids[i]].kind.SectionName? && tokens[ids[i]].kind == tokens[ids[0]].kind
         && ids[i] in index && index[ids[i]] == (if tokens[ids[i]].kind.Vector? then i + 1 else 1)
  }

  predicate Started(b: Block, tokens: Tokens, index: map<Id, int>) {
    && b.section in tokens && tokens[b.section].kind.SectionName? && b.section in index && index[b.section] == 1
    && TokensStarted(b.ids, tokens, index)
  }

  predicate AllStarted(blocks: seq<Block>, tokens: Tokens, index: map<Id, int>) {
    forall i :: 0 <= i < |blocks| ==> Started(blocks[i], tokens, index)
  }

  /** What the reader remembers of the last section. */
  predicate Remembers(mode: T.Mode, blocks: seq<Block>, tokens: Tokens) {
    if blocks == [] then mode == T.START
    else
      var ids := blocks[|blocks| - 1].ids;
      && mode.section && !(mode.scalar && mode.vector)
      && (mode.scalar || mode.vector <==> ids != [])
      && (ids != [] ==> ids[0] in tokens && (mode.scalar <==> tokens[ids[0]].kind.Scalar?))
  }

  ghost predicate Loading(s: Store, mode: T.Mode) {
    && IdsOf(s.lines) == Upto(s.supply) && Lead(s.lines) == []
    && (forall y: nat :: y in s.tokens <==> y < s.supply) && s.index.Keys == s.tokens.Keys
    && AllReadable(s.lines, s.tokens) && Tidy(s.lines, s.tokens, s.supply)
    && AllStarted(Blocks(s.lines), s.tokens, s.index)
    && Remembers(mode, Blocks(s.lines), s.tokens)
  }

  lemma NothingLoaded(fold: Fold)
    ensures Loading(EMPTY, T.START) && Good(EMPTY, fold)
  {
    assert EMPTY.index.Keys == EMPTY.tokens.Keys == {};
  }

  lemma {:induction false} IdsJoin(a: seq<Line>, b: seq<Line>)
    ensures IdsOf(a + b) == IdsOf(a) + IdsOf(b)
    decreases |a|
  {
    if a == [] {
      assert a + b == b;
    } else {
      assert (a + b)[1..] == a[1..] + b;
      IdsJoin(a[1..], b);
    }
  }

  lemma IdsOfOne(l: Line)
    ensures IdsOf([l]) == match l { case Header(s) => [s] case Items(ids) => ids case Remark(_) => [] }
  {
    assert [l][1..] == [];
  }

  lemma {:induction false} IdsAreFlat(lines: seq<Line>)
    ensures IdsOf(lines) == Lead(lines) + Flat(Blocks(lines))
    decreases |lines|
  {
    if lines != [] {
      var rest := lines[1..];
      IdsAreFlat(rest);
      if lines[0].Header? {
        var s := lines[0].section;
        assert ([Block(s, Lead(rest))] + Blocks(rest))[1..] == Blocks(rest);
        assert Flat(Blocks(lines)) == [s] + Lead(rest) + Flat(Blocks(rest));
      }
    }
  }

  /** Tokens handed out later make no difference to a line or a section. */
  predicate Extends(more: Tokens, tokens: Tokens) {
    forall y :: y in tokens ==> y in more && more[y] == tokens[y]
  }

  lemma RowsStay(lines: seq<Line>, tokens: Tokens, more: Tokens)
    requires AllReadable(lines, tokens) && Extends(more, tokens)
    ensures AllReadable(lines, more) && RowsOf(lines, more) == RowsOf(lines, tokens)
  {
    forall i | 0 <= i < |lines|
      ensures Readable(lines[i], more) && RowOf(lines[i], more) == RowOf(lines[i], tokens)
    {
      RowStays(lines[i], tokens, more);
    }
  }

  lemma RowStays(l: Line, tokens: Tokens, more: Tokens)
    requires Readable(l, tokens) && Extends(more, tokens)
    ensures Readable(l, more) && RowOf(l, more) == RowOf(l, tokens)
  {
    if l.Items? {
      assert ValuesOf(l.ids, more) == ValuesOf(l.ids, tokens);
    }
  }

  lemma StartedStay(blocks: seq<Block>, tokens: Tokens, more: Tokens, was: map<Id, int>, now: map<Id, int>)
    requires AllStarted(blocks, tokens, was) && Extends(more, tokens)
    requires forall y :: y in was ==> y in now && now[y] == was[y]
    ensures AllStarted(blocks, more, now)
  {
    forall i | 0 <= i < |blocks|
      ensures Started(blocks[i], more, now)
    {
      assert Started(blocks[i], tokens, was);
    }
  }

  lemma TidyStays(lines: seq<Line>, tokens: Tokens, supply: nat, more: Tokens, later: nat)
    requires Tidy(lines, tokens, supply) && Extends(more, tokens) && later >= supply
    ensures Tidy(lines, more, later)
  {
    forall i | 0 <= i < |lines|
      ensures TidyLine(lines[i], more, later)
    {
      assert TidyLine(lines[i], tokens, supply);
    }
  }

  /** One more line at the end, its tokens new. */
  ghost predicate Appends(t: Store, s: Store, l: Line, n: nat) {
    && t.lines == s.lines + [l] && t.supply == s.supply + n && IdsOf([l]) == Onward(s.supply, n)
    && (forall y: nat :: y in t.tokens <==> y < t.supply) && t.index.Keys == t.tokens.Keys
    && Extends(t.tokens, s.tokens) && (forall y :: y in s.index ==> y in t.index && t.index[y] == s.index[y])
    && Readable(l, t.tokens) && TidyLine(l, t.tokens, t.supply)
  }

  lemma IdsGrow(lines: seq<Line>, l: Line, supply: nat, n: nat)
    requires IdsOf(lines) == Upto(supply) && IdsOf([l]) == Onward(supply, n)
    ensures IdsOf(lines + [l]) == Upto(supply + n)
  {
    IdsJoin(lines, [l]);
  }

  lemma AppendKeeps(t: Store, s: Store, l: Line, n: nat, mode: T.Mode)
    requires Loading(s, mode) && Appends(t, s, l, n)
    ensures IdsOf(t.lines) == Upto(t.supply)
    ensures AllReadable(t.lines, t.tokens) && Tidy(t.lines, t.tokens, t.supply)
    ensures RowsOf(t.lines, t.tokens) == RowsOf(s.lines, s.tokens) + [RowOf(l, t.tokens)]
    ensures AllStarted(Blocks(s.lines), t.tokens, t.index)
  {
    IdsGrow(s.lines, l, s.supply, n);
    RowsStay(s.lines, s.tokens, t.tokens);
    TidyStays(s.lines, s.tokens, s.supply, t.tokens, t.supply);
    StartedStay(Blocks(s.lines), s.tokens, t.tokens, s.index, t.index);
  }

  lemma RemarkBlocks(lines: seq<Line>, text: string)
    ensures Blocks(lines + [Remark(text)]) == Blocks(lines) && Lead(lines + [Remark(text)]) == Lead(lines)
  {
    var l := [Remark(text)];
    BlocksJoin(lines, l);
    LeadJoin(lines, l);
    assert l[1..] == [];
    ExtendNothing(Blocks(lines));
  }

  lemma HeaderBlocks(lines: seq<Line>, x: Id)
    ensures Blocks(lines + [Header(x)]) == Blocks(lines) + [Block(x, [])] && Lead(lines + [Header(x)]) == Lead(lines)
  {
    var l := [Header(x)];
    BlocksJoin(lines, l);
    LeadJoin(lines, l);
    assert l[1..] == [];
    ExtendNothing(Blocks(lines));
  }

  lemma ItemsBlocks(lines: seq<Line>, ids: seq<Id>)
    requires Blocks(lines) != []
    ensures var blocks := Blocks(lines); var last := blocks[|blocks| - 1];
      Blocks(lines + [Items(ids)]) == blocks[..|blocks| - 1] + [Block(last.section, last.ids + ids)]
    ensures Lead(lines + [Items(ids)]) == Lead(lines)
  {
    var l := [Items(ids)];
    BlocksJoin(lines, l);
    LeadJoin(lines, l);
    assert l[1..] == [] && ids + [] == ids;
  }

  lemma RemarkAppended(t: Store, s: Store, text: string, mode: T.Mode)
    requires Loading(s, mode) && Appends(t, s, Remark(text), 0)
    ensures Loading(t, mode)
  {
    AppendKeeps(t, s, Remark(text), 0, mode);
    RemarkBlocks(s.lines, text);
  }

  lemma SectionAppended(t: Store, s: Store, mode: T.Mode)
    requires Loading(s, mode) && Appends(t, s, Header(s.supply), 1)
    requires t.tokens[s.supply].kind.SectionName? && t.index[s.supply] == 1
    ensures Loading(t, T.Mode(true, false, false))
  {
    AppendKeeps(t, s, Header(s.supply), 1, mode);
    HeaderBlocks(s.lines, s.supply);
    OneMoreStarted(Blocks(s.lines), Block(s.supply, []), t.tokens, t.index);
  }

  lemma OneMoreStarted(blocks: seq<Block>, b: Block, tokens: Tokens, index: map<Id, int>)
    requires AllStarted(blocks, tokens, index) && Started(b, tokens, index)
    ensures AllStarted(blocks + [b], tokens, index)
  {}

  /** The tokens are new ones of one kind, numbered as tokens of that kind are behind `have` others. */
  predicate Numbered(ids: seq<Id>, have: nat, tokens: Tokens, index: map<Id, int>) {
    && ids != [] && Known(ids, tokens) && !tokens[ids[0]].kind.SectionName?
    && forall i :: 0 <= i < |ids| ==>
         && tokens[ids[i]].kind == tokens[ids[0]].kind && ids[i] in index
         && index[ids[i]] == (if tokens[ids[i]].kind.Vector? then have + i + 1 else 1)
  }

  /** Tokens of the kind of the section go to its end. */
  lemma ItemsAppended(t: Store, s: Store, ids: seq<Id>, mode: T.Mode)
    requires Loading(s, mode) && mode.section && Appends(t, s, Items(ids), |ids|)
    requires Numbered(ids, LastCount(s.lines), t.tokens, t.index)
    requires if t.tokens[ids[0]].kind.Scalar? then !mode.vector else !mode.scalar
    ensures Loading(t, if t.tokens[ids[0]].kind.Scalar? then mode.(scalar := true) else mode.(vector := true))
    ensures LastCount(t.lines) == LastCount(s.lines) + |ids|
  {
    var blocks := Blocks(s.lines);
    AppendKeeps(t, s, Items(ids), |ids|, mode);
    ItemsBlocks(s.lines, ids);
    var front, last := blocks[..|blocks| - 1], blocks[|blocks| - 1];
    assert Started(last, t.tokens, t.index);
    LastStarted(last, ids, t.tokens, t.index);
    assert AllStarted(front, t.tokens, t.index);
    OneMoreStarted(front, Block(last.section, last.ids + ids), t.tokens, t.index);
  }

  lemma LastStarted(b: Block, ids: seq<Id>, tokens: Tokens, index: map<Id, int>)
    requires Started(b, tokens, index) && Numbered(ids, |b.ids|, tokens, index)
    requires b.ids != [] ==> tokens[ids[0]].kind == tokens[b.ids[0]].kind
    ensures Started(Block(b.section, b.ids + ids), tokens, index)
  {
    var all := b.ids + ids;
    forall i | 0 <= i < |all|
      ensures all[i] in tokens && !tokens[all[i]].kind.SectionName? && tokens[all[i]].kind == tokens[all[0]].kind
      ensures all[i] in index && index[all[i]] == (if tokens[all[i]].kind.Vector? then i + 1 else 1)
    {
      if i >= |b.ids| {
        assert all[i] == ids[i - |b.ids|];
      } else {
        assert all[i] == b.ids[i];
      }
    }
  }

  /** How many tokens the last section has. */
  function LastCount(lines: seq<Line>): nat {
    var blocks := Blocks(lines);
    if blocks == [] then 0 else |blocks[|blocks| - 1].ids|
  }

  // ----- Where the sections are -----

  /** The places of the header lines. */
  function HeadsOf(lines: seq<Line>): seq<nat> {
    if lines == [] then []
    else
      var n := |lines| - 1;
      HeadsOf(lines[..n]) + (if lines[n].Header? then [n] else [])
  }

  /** Where the lines of section `i` end. */
  function EndOf(lines: seq<Line>, i: nat): nat {
    if i + 1 < |HeadsOf(lines)| then HeadsOf(lines)[i + 1] else |lines|
  }

  predicate NoHeader(lines: seq<Line>) {
    forall i :: 0 <= i < |lines| ==> !lines[i].Header?
  }

  lemma {:induction false} NoBlocks(lines: seq<Line>)
    requires NoHeader(lines)
    ensures Blocks(lines) == []
    decreases |lines|
  {
    if lines != [] {
      NoBlocks(lines[1..]);
    }
  }

  lemma LeadMore(a: seq<Line>, l: Line)
    requires NoHeader(a)
    ensures Lead(a + [l]) == Lead(a) + (if l.Items? then l.ids else [])
  {
    NoBlocks(a);
    LeadJoin(a, [l]);
    assert [l][1..] == [];
    if l.Items? {
      assert l.ids + [] == l.ids;
    }
  }

  /** Section `i` stretches from its header to its end. */
  predicate Spans(lines: seq<Line>, i: nat) {
    && i < |HeadsOf(lines)| == |Blocks(lines)|
    && var h, e := HeadsOf(lines)[i], EndOf(lines, i);
       && h < e <= |lines| && lines[h] == Header(Blocks(lines)[i].section)
       && NoHeader(lines[h + 1..e]) && Blocks(lines)[i].ids == Lead(lines[h + 1..e])
  }

  lemma {:induction false} HeadsFound(lines: seq<Line>)
    requires Lead(lines) == []
    ensures |HeadsOf(lines)| == |Blocks(lines)|
    ensures forall i :: 0 <= i < |Blocks(lines)| ==> Spans(lines, i)
    decreases |lines|
  {
    if lines != [] {
      var n := |lines| - 1;
      var front, l := lines[..n], lines[n];
      assert lines == front + [l];
      LeadJoin(front, [l]);
      HeadsFound(front);
      match l {
        case Header(x) => HeaderSpans(front, x);
        case Items(ids) => ItemsSpan(front, ids);
        case Remark(text) => RemarkSpans(front, text);
      }
    }
  }

  lemma HeaderSpans(front: seq<Line>, x: Id)
    requires |HeadsOf(front)| == |Blocks(front)| && forall i :: 0 <= i < |Blocks(front)| ==> Spans(front, i)
    ensures var lines := front + [Header(x)];
      |HeadsOf(lines)| == |Blocks(lines)| && forall i :: 0 <= i < |Blocks(lines)| ==> Spans(lines, i)
  {
    var lines := front + [Header(x)];
    assert lines[..|front|] == front;
    HeaderBlocks(front, x);
    assert HeadsOf(lines) == HeadsOf(front) + [|front|];
    forall i | 0 <= i < |Blocks(lines)|
      ensures Spans(lines, i)
    {
      if i < |Blocks(front)| {
        assert Spans(front, i);
        assert EndOf(lines, i) == EndOf(front, i);
        var h, e := HeadsOf(lines)[i], EndOf(lines, i);
        assert lines[h + 1..e] == front[h + 1..e];
      }
    }
  }

  lemma RemarkSpans(front: seq<Line>, text: string)
    requires |HeadsOf(front)| == |Blocks(front)| && forall i :: 0 <= i < |Blocks(front)| ==> Spans(front, i)
    ensures var lines := front + [Remark(text)];
      |HeadsOf(lines)| == |Blocks(lines)| && forall i :: 0 <= i < |Blocks(lines)| ==> Spans(lines, i)
  {
    var lines := front + [Remark(text)];
    assert lines[..|front|] == front;
    RemarkBlocks(front, text);
    assert HeadsOf(lines) == HeadsOf(front);
    forall i | 0 <= i < |Blocks(lines)|
      ensures Spans(lines, i)
    {
      assert Spans(front, i);
      SpanGrows(front, Remark(text), i);
    }
  }

  lemma ItemsSpan(front: seq<Line>, ids: seq<Id>)
    requires |HeadsOf(front)| == |Blocks(front)| && forall i :: 0 <= i < |Blocks(front)| ==> Spans(front, i)
    requires Lead(front + [Items(ids)]) == []
    ensures var lines := front + [Items(ids)];
      |HeadsOf(lines)| == |Blocks(lines)| && forall i :: 0 <= i < |Blocks(lines)| ==> Spans(lines, i)
  {
    var lines := front + [Items(ids)];
    assert lines[..|front|] == front;
    assert HeadsOf(lines) == HeadsOf(front);
    if Blocks(front) == [] {
      BlocksJoin(front, [Items(ids)]);
      assert [Items(ids)][1..] == [];
    } else {
      ItemsBlocks(front, ids);
      forall i | 0 <= i < |Blocks(lines)|
        ensures Spans(lines, i)
      {
        assert Spans(front, i);
        SpanGrows(front, Items(ids), i);
      }
    }
  }

  /** A line that is no header makes the last section longer and leaves the others. */
  lemma SpanGrows(front: seq<Line>, l: Line, i: nat)
    requires Spans(front, i) && !l.Header?
    ensures var lines, h := front + [l], HeadsOf(front)[i];
      && HeadsOf(lines) == HeadsOf(front)
      && NoHeader(lines[h + 1..EndOf(lines, i)]) && h < EndOf(lines, i) <= |lines| && lines[h] == front[h]
      && Lead(lines[h + 1..EndOf(lines, i)]) ==
         Lead(front[h + 1..EndOf(front, i)]) + (if i + 1 == |HeadsOf(front)| && l.Items? then l.ids else [])
  {
    var lines, h, e := front + [l], HeadsOf(front)[i], EndOf(front, i);
    HeadsStay(front, l);
    if i + 1 == |HeadsOf(front)| {
      EndMoves(front, l, h);
    } else {
      MiddleStays(front, l, h, e);
    }
  }

  lemma HeadsStay(front: seq<Line>, l: Line)
    requires !l.Header?
    ensures HeadsOf(front + [l]) == HeadsOf(front)
  {
    assert (front + [l])[..|front|] == front;
  }

  lemma EndMoves(front: seq<Line>, l: Line, h: nat)
    requires h < |front| && NoHeader(front[h + 1..]) && !l.Header?
    ensures var lines := front + [l];
      NoHeader(lines[h + 1..]) && Lead(lines[h + 1..]) == Lead(front[h + 1..]) + (if l.Items? then l.ids else [])
    ensures front[h + 1..|front|] == front[h + 1..] && (front + [l])[h + 1..|front| + 1] == (front + [l])[h + 1..]
  {
    assert (front + [l])[h + 1..] == front[h + 1..] + [l];
    LeadMore(front[h + 1..], l);
  }

  lemma MiddleStays(front: seq<Line>, l: Line, h: nat, e: nat)
    requires h < e <= |front|
    ensures (front + [l])[h + 1..e] == front[h + 1..e]
    ensures Lead((front + [l])[h + 1..e]) == Lead(front[h + 1..e]) + []
  {
    assert (front + [l])[h + 1..e] == front[h + 1..e];
  }
}
