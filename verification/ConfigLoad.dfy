/**
  Loading a configuration text (`CfgLoadConfiguration`, `lch/util/cconfig.c`): after the lines are read, the
  sections are found, counted and linked and the indices are computed.
 */
module ConfigLoad {
  import opened ConfigModel
  import opened ConfigEdits
  import opened ConfigLines
  import opened ConfigLoading
  import opened ConfigStore
  import R = ConfigReader
  import RT = ConfigRoundTrip
  import T = ConfigText

  // ----- Indices by counting -----

  /** The sections array: each header counts the earlier ones of its name. */
  method RankSections(c: Config)
    requires Known(c.sections, c.tokens) && Distinct(c.sections)
    requires forall i :: 0 <= i < |c.sections| ==>
      c.tokens[c.sections[i]].kind.SectionName? && c.sections[i] in c.index && c.index[c.sections[i]] == 1
    modifies c`index
    ensures Ranked(c.sections, c.tokens, c.fold, c.index)
    ensures c.index.Keys == old(c.index).Keys
    ensures forall y :: y in c.index && y !in c.sections ==> c.index[y] == old(c.index)[y]
  {
    var ids := c.sections;
    var j := 0;
    while j < |ids|
      invariant j <= |ids| && Numbering(ids, j, c.tokens, c.fold, c.index)
      invariant c.index.Keys == old(c.index).Keys
      invariant forall y :: y in c.index && y !in ids ==> c.index[y] == old(c.index)[y]
    {
      CountOne(c, ids, j);
      j := j + 1;
    }
  }

  /** The first `j` have their indices, the others still have 1. */
  predicate Numbering(ids: seq<Id>, j: nat, tokens: Tokens, fold: Fold, index: map<Id, int>)
    requires Known(ids, tokens) && j <= |ids|
  {
    && (forall i :: 0 <= i < j ==> RankedAt(ids, i, tokens, fold, index))
    && (forall i :: j <= i < |ids| ==> ids[i] in index && index[ids[i]] == 1)
  }

  method CountOne(c: Config, ids: seq<Id>, j: nat)
    requires Known(ids, c.tokens) && Distinct(ids) && j < |ids| && Numbering(ids, j, c.tokens, c.fold, c.index)
    requires forall i :: 0 <= i < |ids| ==> c.tokens[ids[i]].kind.SectionName?
    modifies c`index
    ensures Numbering(ids, j + 1, c.tokens, c.fold, c.index) && c.index.Keys == old(c.index).Keys
    ensures forall y :: y in c.index && y != ids[j] ==> c.index[y] == old(c.index)[y]
  {
    var k := 0;
    ghost var key := KeyOf(c.tokens[ids[j]], c.fold);
    while k < j
      invariant k <= j && c.index.Keys == old(c.index).Keys
      invariant c.index[ids[j]] == Count(ids[..k], c.tokens, c.fold, key) + 1
      invariant forall y :: y in c.index && y != ids[j] ==> c.index[y] == old(c.index)[y]
    {
      assert ids[..k + 1][..k] == ids[..k];
      if c.fold(c.tokens[ids[k]].name) == c.fold(c.tokens[ids[j]].name) {
        c.index := c.index[ids[j] := c.index[ids[j]] + 1];
      }
      k := k + 1;
    }
    forall i | 0 <= i < j
      ensures RankedAt(ids, i, c.tokens, c.fold, c.index)
    {
      assert old(RankedAt(ids, i, c.tokens, c.fold, c.index));
    }
  }

  /** The scalars of a section: each raises the later ones of its name. */
  method RankNames(c: Config, ids: seq<Id>)
    requires Known(ids, c.tokens) && Distinct(ids)
    requires forall i :: 0 <= i < |ids| ==> c.tokens[ids[i]].kind.Scalar? && ids[i] in c.index && c.index[ids[i]] == 1
    modifies c`index
    ensures Ranked(ids, c.tokens, c.fold, c.index)
    ensures c.index.Keys == old(c.index).Keys
    ensures forall y :: y in c.index && y !in ids ==> c.index[y] == old(c.index)[y]
  {
    var p := 0;
    while p < |ids|
      invariant p <= |ids| && Raised(ids, p, 0, c.tokens, c.fold, c.index)
      invariant c.index.Keys == old(c.index).Keys
      invariant forall y :: y in c.index && y !in ids ==> c.index[y] == old(c.index)[y]
    {
      RaiseLater(c, ids, p);
      p := p + 1;
    }
    RaisedIsRanked(ids, c.tokens, c.fold, c.index);
  }

  method RaiseLater(c: Config, ids: seq<Id>, p: nat)
    requires Known(ids, c.tokens) && Distinct(ids) && p < |ids| && Raised(ids, p, 0, c.tokens, c.fold, c.index)
    requires forall i :: 0 <= i < |ids| ==> c.tokens[ids[i]].kind.Scalar?
    modifies c`index
    ensures Raised(ids, p + 1, 0, c.tokens, c.fold, c.index) && c.index.Keys == old(c.index).Keys
    ensures forall y :: y in c.index && y !in ids ==> c.index[y] == old(c.index)[y]
  {
    var q := p + 1;
    NothingRaised(ids, p, c.tokens, c.fold, c.index);
    while q < |ids|
      invariant p < q <= |ids| && Raised(ids, p, q, c.tokens, c.fold, c.index)
      invariant c.index.Keys == old(c.index).Keys
      invariant forall y :: y in c.index && y !in ids ==> c.index[y] == old(c.index)[y]
    {
      RaiseOne(c, ids, p, q);
      q := q + 1;
    }
    AllRaised(ids, p, c.tokens, c.fold, c.index);
  }

  method RaiseOne(c: Config, ids: seq<Id>, p: nat, q: nat)
    requires Known(ids, c.tokens) && Distinct(ids) && p < q < |ids| && Raised(ids, p, q, c.tokens, c.fold, c.index)
    requires c.tokens[ids[p]].kind.Scalar? && c.tokens[ids[q]].kind.Scalar?
    modifies c`index
    ensures Raised(ids, p, q + 1, c.tokens, c.fold, c.index) && c.index.Keys == old(c.index).Keys
    ensures forall y :: y in c.index && y != ids[q] ==> c.index[y] == old(c.index)[y]
  {
    ghost var was := c.index;
    assert RaisedAt(ids, q, Seen(q, p, q), c.tokens, c.fold, was);
    if c.fold(c.tokens[ids[p]].name) == c.fold(c.tokens[ids[q]].name) {
      c.index := c.index[ids[q] := c.index[ids[q]] + 1];
    }
    OneRaised(ids, p, q, c.tokens, c.fold, was, c.index);
  }

  /** How many of the tokens before the `i`-th it has been compared with. */
  function Seen(i: nat, p: nat, q: nat): nat {
    if i <= p then i else if i < q then p + 1 else p
  }

  predicate RaisedAt(ids: seq<Id>, i: nat, n: nat, tokens: Tokens, fold: Fold, index: map<Id, int>)
    requires Known(ids, tokens)
  {
    && i < |ids| && n <= |ids| && ids[i] in index
    && index[ids[i]] == Count(ids[..n], tokens, fold, KeyOf(tokens[ids[i]], fold)) + 1
  }

  predicate Raised(ids: seq<Id>, p: nat, q: nat, tokens: Tokens, fold: Fold, index: map<Id, int>)
    requires Known(ids, tokens)
  {
    forall i :: 0 <= i < |ids| ==> RaisedAt(ids, i, Seen(i, p, q), tokens, fold, index)
  }

  lemma RaisedIsRanked(ids: seq<Id>, tokens: Tokens, fold: Fold, index: map<Id, int>)
    requires Known(ids, tokens) && Raised(ids, |ids|, 0, tokens, fold, index)
    ensures Ranked(ids, tokens, fold, index)
  {
    forall i | 0 <= i < |ids|
      ensures RankedAt(ids, i, tokens, fold, index)
    {
      assert RaisedAt(ids, i, Seen(i, |ids|, 0), tokens, fold, index);
    }
  }

  lemma NothingRaised(ids: seq<Id>, p: nat, tokens: Tokens, fold: Fold, index: map<Id, int>)
    requires Known(ids, tokens) && p < |ids| && Raised(ids, p, 0, tokens, fold, index)
    ensures Raised(ids, p, p + 1, tokens, fold, index)
  {
    var r := p + 1;
    forall i | 0 <= i < |ids|
      ensures RaisedAt(ids, i, Seen(i, p, r), tokens, fold, index)
    {
      assert RaisedAt(ids, i, Seen(i, p, 0), tokens, fold, index);
    }
  }

  lemma OneRaised(ids: seq<Id>, p: nat, q: nat, tokens: Tokens, fold: Fold, was: map<Id, int>, now: map<Id, int>)
    requires Known(ids, tokens) && Distinct(ids) && p < q < |ids| && Raised(ids, p, q, tokens, fold, was)
    requires var same := KeyOf(tokens[ids[p]], fold) == KeyOf(tokens[ids[q]], fold);
      ids[q] in was && now == if same then was[ids[q] := was[ids[q]] + 1] else was
    ensures Raised(ids, p, q + 1, tokens, fold, now)
  {
    assert ids[..p + 1][..p] == ids[..p];
    var r := q + 1;
    forall i | 0 <= i < |ids|
      ensures RaisedAt(ids, i, Seen(i, p, r), tokens, fold, now)
    {
      assert RaisedAt(ids, i, Seen(i, p, q), tokens, fold, was);
    }
  }

  lemma AllRaised(ids: seq<Id>, p: nat, tokens: Tokens, fold: Fold, index: map<Id, int>)
    requires Known(ids, tokens) && p < |ids| && Raised(ids, p, |ids|, tokens, fold, index)
    ensures Raised(ids, p + 1, 0, tokens, fold, index)
  {
    var r := p + 1;
    forall i | 0 <= i < |ids|
      ensures RaisedAt(ids, i, Seen(i, r, 0), tokens, fold, index)
    {
      assert RaisedAt(ids, i, Seen(i, p, |ids|), tokens, fold, index);
    }
  }

  // ----- Sections and chains -----

  /** Collects the header lines. */
  method FindSections(c: Config) returns (heads: seq<nat>)
    requires Lead(c.lines) == []
    modifies c`sections
    ensures heads == HeadsOf(c.lines) && c.sections == Headers(Blocks(c.lines))
  {
    heads := [];
    c.sections := [];
    var l := 0;
    while l < |c.lines|
      invariant l <= |c.lines| && heads == HeadsOf(c.lines[..l])
      invariant |c.sections| == |heads| && forall i :: 0 <= i < |heads| ==>
        heads[i] < |c.lines| && c.lines[heads[i]] == Header(c.sections[i])
    {
      assert c.lines[..l + 1][..l] == c.lines[..l];
      if c.lines[l].Header? {
        heads := heads + [l];
        c.sections := c.sections + [c.lines[l].section];
      }
      l := l + 1;
    }
    assert c.lines[..l] == c.lines;
    HeadsFound(c.lines);
    forall i | 0 <= i < |Blocks(c.lines)|
      ensures c.sections[i] == Blocks(c.lines)[i].section
    {
      assert Spans(c.lines, i);
    }
  }

  /** Follows the lines of each section and links its tokens. */
  method LinkChains(c: Config, heads: seq<nat>)
    requires Lead(c.lines) == [] && heads == HeadsOf(c.lines) && c.sections == Headers(Blocks(c.lines))
    requires Distinct(c.sections)
    modifies c`chain
    ensures Linked(c.lines, c.sections, c.chain)
  {
    HeadsFound(c.lines);
    var i := 0;
    while i < |heads|
      invariant i <= |heads| == |c.sections|
      invariant forall j :: 0 <= j < i ==>
        c.sections[j] in c.chain && c.chain[c.sections[j]] == Blocks(c.lines)[j].ids
    {
      assert Spans(c.lines, i);
      var ids := TokensFrom(c.lines, heads[i], if i + 1 < |heads| then heads[i + 1] else |c.lines|);
      assert forall j :: 0 <= j < i ==> c.sections[j] != c.sections[i];
      c.chain := c.chain[c.sections[i] := ids];
      i := i + 1;
    }
  }

  /** The tokens of the lines behind the header up to the next one. */
  method TokensFrom(lines: seq<Line>, h: nat, e: nat) returns (ids: seq<Id>)
    requires h < e <= |lines| && lines[h].Header? && NoHeader(lines[h + 1..e])
    ensures ids == Lead(lines[h + 1..e])
  {
    ids := [];
    var l := h;
    while l < e
      invariant h <= l <= e
      invariant ids == if l == h then [] else Lead(lines[h + 1..l])
    {
      if l > h {
        assert lines[h + 1..l + 1] == lines[h + 1..l] + [lines[l]];
        assert forall i :: h < i < l ==> lines[i] == lines[h + 1..e][i - h - 1];
        LeadMore(lines[h + 1..l], lines[l]);
      }
      if lines[l].Items? {
        ids := ids + lines[l].ids;
      }
      l := l + 1;
    }
  }

  /** What is known of the sections while the scalars get their indices, those of the first `n` done. */
  predicate Indexed(blocks: seq<Block>, n: nat, tokens: Tokens, fold: Fold, index: map<Id, int>) {
    && n <= |blocks|
    && (forall i :: 0 <= i < n ==> Known(blocks[i].ids, tokens) && Ranked(blocks[i].ids, tokens, fold, index))
    && (forall i :: n <= i < |blocks| ==> TokensStarted(blocks[i].ids, tokens, index))
  }

  /** The indices of all scalars. */
  method RankScalars(c: Config)
    requires Linked(c.lines, c.sections, c.chain) && Distinct(Flat(Blocks(c.lines)))
    requires Indexed(Blocks(c.lines), 0, c.tokens, c.fold, c.index)
    modifies c`index
    ensures Indexed(Blocks(c.lines), |Blocks(c.lines)|, c.tokens, c.fold, c.index)
    ensures c.index.Keys == old(c.index).Keys
    ensures forall y :: y in c.sections && y in c.index ==> c.index[y] == old(c.index)[y]
  {
    ghost var blocks := Blocks(c.lines);
    var i := 0;
    while i < |c.sections|
      invariant i <= |c.sections| == |blocks| && Indexed(blocks, i, c.tokens, c.fold, c.index)
      invariant c.index.Keys == old(c.index).Keys
      invariant forall y :: y in c.sections && y in c.index ==> c.index[y] == old(c.index)[y]
    {
      RankSection(c, i);
      i := i + 1;
    }
  }

  method RankSection(c: Config, i: nat)
    requires Linked(c.lines, c.sections, c.chain) && Distinct(Flat(Blocks(c.lines))) && i < |c.sections|
    requires Indexed(Blocks(c.lines), i, c.tokens, c.fold, c.index)
    modifies c`index
    ensures Indexed(Blocks(c.lines), i + 1, c.tokens, c.fold, c.index)
    ensures c.index.Keys == old(c.index).Keys
    ensures forall y :: y in c.sections && y in c.index ==> c.index[y] == old(c.index)[y]
  {
    ghost var blocks, was := Blocks(c.lines), c.index;
    var ids := c.chain[c.sections[i]];
    assert TokensStarted(ids, c.tokens, was);
    BlockApart(blocks, i);
    if ids == [] || !c.tokens[ids[0]].kind.Scalar? {
      VectorsRanked(ids, c.tokens, c.fold, c.index);
    } else {
      RankNames(c, ids);
    }
    OthersKept(blocks, i, c.tokens, c.fold, was, c.index);
  }

  lemma BlockApart(blocks: seq<Block>, i: nat)
    requires Distinct(Flat(blocks)) && i < |blocks|
    ensures Distinct(blocks[i].ids)
    ensures forall j :: 0 <= j < |blocks| ==> blocks[j].section !in blocks[i].ids
    ensures forall j, y :: 0 <= j < |blocks| && j != i && y in blocks[j].ids ==> y !in blocks[i].ids
  {
    WithinBlock(blocks, i);
    forall j | 0 <= j < |blocks| && j != i
      ensures blocks[j].section !in blocks[i].ids
    {
      NotBoth(blocks, i, j, blocks[j].section);
    }
    forall j, y | 0 <= j < |blocks| && j != i && y in blocks[j].ids
      ensures y !in blocks[i].ids
    {
      NotBoth(blocks, i, j, y);
    }
  }

  lemma {:induction false} WithinBlock(blocks: seq<Block>, i: nat)
    requires Distinct(Flat(blocks)) && i < |blocks|
    ensures Distinct(blocks[i].ids) && blocks[i].section !in blocks[i].ids
    decreases i
  {
    var first, rest := blocks[0], blocks[1..];
    DistinctParts([first.section] + first.ids, Flat(rest));
    if i == 0 {
      DistinctParts([first.section], first.ids);
    } else {
      WithinBlock(rest, i - 1);
    }
  }

  lemma NotBoth(blocks: seq<Block>, i: nat, j: nat, y: Id)
    requires Distinct(Flat(blocks)) && i < |blocks| && j < |blocks| && j != i
    requires y == blocks[j].section || y in blocks[j].ids
    ensures y !in blocks[i].ids
  {
    if y in blocks[i].ids {
      OneHome(blocks, i, j, y);
    }
  }

  lemma VectorsRanked(ids: seq<Id>, tokens: Tokens, fold: Fold, index: map<Id, int>)
    requires TokensStarted(ids, tokens, index) && (ids == [] || !tokens[ids[0]].kind.Scalar?)
    ensures Ranked(ids, tokens, fold, index)
  {
    forall i | 0 <= i < |ids|
      ensures RankedAt(ids, i, tokens, fold, index)
    {
      AllVectors(ids[..i], tokens, fold);
    }
  }

  lemma OthersKept(blocks: seq<Block>, i: nat, tokens: Tokens, fold: Fold, was: map<Id, int>, now: map<Id, int>)
    requires i < |blocks| && Indexed(blocks, i, tokens, fold, was)
    requires forall j, y :: 0 <= j < |blocks| && j != i && y in blocks[j].ids ==> y !in blocks[i].ids
    requires now.Keys == was.Keys && forall y :: y in now && y !in blocks[i].ids ==> now[y] == was[y]
    requires Known(blocks[i].ids, tokens) && Ranked(blocks[i].ids, tokens, fold, now)
    ensures Indexed(blocks, i + 1, tokens, fold, now)
  {
    forall j | 0 <= j < i
      ensures Known(blocks[j].ids, tokens) && Ranked(blocks[j].ids, tokens, fold, now)
    {
      RankSame(blocks[j].ids, tokens, tokens, fold, was, now);
    }
    forall j | i < j < |blocks|
      ensures TokensStarted(blocks[j].ids, tokens, now)
    {
      var ids := blocks[j].ids;
      assert forall k :: 0 <= k < |ids| ==> ids[k] in ids;
    }
  }

  // ----- The whole -----

  /** Once read, found, linked and indexed, the store is as the edits need it. */
  lemma LoadedGood(s: Store, fold: Fold, mode: T.Mode, before: map<Id, int>)
    requires Loading(s.(index := before), mode) && s.index.Keys == before.Keys
    requires Linked(s.lines, s.sections, s.chain)
    requires Known(s.sections, s.tokens) && Ranked(s.sections, s.tokens, fold, s.index)
    requires Indexed(Blocks(s.lines), |Blocks(s.lines)|, s.tokens, fold, s.index)
    ensures Good(s, fold)
  {
    var blocks := Blocks(s.lines);
    FlatUpto(s.lines, s.supply);
    forall i | 0 <= i < |blocks|
      ensures SaneBlock(blocks[i], s.tokens, fold, s.index)
    {
      assert Started(blocks[i], s.tokens, before);
    }
  }

  lemma FlatUpto(lines: seq<Line>, supply: nat)
    requires IdsOf(lines) == Upto(supply) && Lead(lines) == []
    ensures Distinct(Flat(Blocks(lines))) && Below(Flat(Blocks(lines)), supply)
  {
    IdsAreFlat(lines);
    assert [] + Flat(Blocks(lines)) == Flat(Blocks(lines));
  }

  /** Everything that follows the reading of the lines. */
  method LinkAll(c: Config, ghost mode: T.Mode)
    requires Loading(c.State(), mode)
    modifies c`sections, c`chain, c`index
    ensures c.Valid()
  {
    ghost var before := c.index;
    LinkSections(c, mode);
    RankTokens(c);
    LoadedGood(c.State(), c.fold, mode, before);
  }

  /** The sections are found, counted and linked. */
  method LinkSections(c: Config, ghost mode: T.Mode)
    requires Loading(c.State(), mode)
    modifies c`sections, c`chain, c`index
    ensures Linked(c.lines, c.sections, c.chain) && Distinct(Flat(Blocks(c.lines)))
    ensures Known(c.sections, c.tokens) && Ranked(c.sections, c.tokens, c.fold, c.index)
    ensures Indexed(Blocks(c.lines), 0, c.tokens, c.fold, c.index) && c.index.Keys == old(c.index).Keys
  {
    ghost var blocks, before := Blocks(c.lines), c.index;
    FlatUpto(c.lines, c.supply);
    HeadersDistinct(blocks);
    SectionsStarted(blocks, c.tokens, before);
    var heads := FindSections(c);
    RankSections(c);
    LinkChains(c, heads);
    TokensStillStarted(blocks, c.tokens, c.fold, before, c.index);
  }

  method RankTokens(c: Config)
    requires Linked(c.lines, c.sections, c.chain) && Distinct(Flat(Blocks(c.lines)))
    requires Known(c.sections, c.tokens) && Ranked(c.sections, c.tokens, c.fold, c.index)
    requires Indexed(Blocks(c.lines), 0, c.tokens, c.fold, c.index)
    modifies c`index
    ensures Ranked(c.sections, c.tokens, c.fold, c.index) && c.index.Keys == old(c.index).Keys
    ensures Indexed(Blocks(c.lines), |Blocks(c.lines)|, c.tokens, c.fold, c.index)
  {
    ghost var ranked := c.index;
    RankScalars(c);
    RankSame(c.sections, c.tokens, c.tokens, c.fold, ranked, c.index);
  }

  lemma SectionsStarted(blocks: seq<Block>, tokens: Tokens, index: map<Id, int>)
    requires AllStarted(blocks, tokens, index)
    ensures var h := Headers(blocks);
      Known(h, tokens) && forall i :: 0 <= i < |h| ==>
        tokens[h[i]].kind.SectionName? && h[i] in index && index[h[i]] == 1
  {
    forall i | 0 <= i < |blocks|
      ensures blocks[i].section in tokens && tokens[blocks[i].section].kind.SectionName?
      ensures blocks[i].section in index && index[blocks[i].section] == 1
    {
      assert Started(blocks[i], tokens, index);
    }
  }

  lemma TokensStillStarted(blocks: seq<Block>, tokens: Tokens, fold: Fold, was: map<Id, int>, now: map<Id, int>)
    requires AllStarted(blocks, tokens, was) && Distinct(Flat(blocks))
    requires now.Keys == was.Keys && forall y :: y in now && y !in Headers(blocks) ==> now[y] == was[y]
    ensures Indexed(blocks, 0, tokens, fold, now)
  {
    forall i | 0 <= i < |blocks|
      ensures TokensStarted(blocks[i].ids, tokens, now)
    {
      assert Started(blocks[i], tokens, was);
      BlockApart(blocks, i);
      var ids := blocks[i].ids;
      forall k | 0 <= k < |ids|
        ensures ids[k] !in Headers(blocks)
      {
        assert forall j :: 0 <= j < |blocks| ==> Headers(blocks)[j] == blocks[j].section && blocks[j].section !in ids;
      }
    }
  }

  // ----- The lines -----

  /** One token more, in no line yet. */
  method NewId(c: Config, t: Token, k: int) returns (x: Id)
    modifies c`tokens, c`index, c`supply
    ensures x == old(c.supply) && c.supply == x + 1
    ensures c.tokens == old(c.tokens)[x := t] && c.index == old(c.index)[x := k]
  {
    x := c.supply;
    c.tokens, c.index, c.supply := c.tokens[x := t], c.index[x := k], x + 1;
  }

  method AddRemark(c: Config, text: string, ghost mode: T.Mode)
    requires Loading(c.State(), mode)
    modifies c
    ensures Loading(c.State(), mode)
    ensures RowsOf(c.lines, c.tokens) == old(RowsOf(c.lines, c.tokens)) + [T.Remark(text)]
    ensures LastCount(c.lines) == old(LastCount(c.lines))
  {
    ghost var s := c.State();
    c.lines := c.lines + [Remark(text)];
    IdsOfOne(Remark(text));
    AppendKeeps(c.State(), s, Remark(text), 0, mode);
    RemarkAppended(c.State(), s, text, mode);
    RemarkBlocks(s.lines, text);
  }

  method AddHeader(c: Config, name: string, ghost mode: T.Mode)
    requires Loading(c.State(), mode)
    modifies c
    ensures Loading(c.State(), T.Mode(true, false, false))
    ensures RowsOf(c.lines, c.tokens) == old(RowsOf(c.lines, c.tokens)) + [T.Section(name)]
    ensures LastCount(c.lines) == 0
  {
    ghost var s := c.State();
    var x := NewId(c, Token(SectionName, name, ""), 1);
    c.lines := c.lines + [Header(x)];
    IdsOfOne(Header(x));
    AppendKeeps(c.State(), s, Header(x), 1, mode);
    SectionAppended(c.State(), s, mode);
    HeaderBlocks(s.lines, x);
  }

  method AddScalar(c: Config, name: string, value: string, ghost mode: T.Mode)
    requires Loading(c.State(), mode) && mode.section && !mode.vector
    modifies c
    ensures Loading(c.State(), mode.(scalar := true))
    ensures RowsOf(c.lines, c.tokens) == old(RowsOf(c.lines, c.tokens)) + [T.Scalar(name, value)]
  {
    ghost var s := c.State();
    var x := NewId(c, Token(Scalar, name, value), 1);
    c.lines := c.lines + [Items([x])];
    IdsOfOne(Items([x]));
    AppendKeeps(c.State(), s, Items([x]), 1, mode);
    ItemsAppended(c.State(), s, [x], mode);
  }

  /** The tokens of a line of values, numbered from `k` on. */
  method NewIds(c: Config, values: seq<string>, k: nat) returns (ids: seq<Id>)
    requires (forall y: nat :: y in c.tokens <==> y < c.supply) && c.index.Keys == c.tokens.Keys
    modifies c`tokens, c`index, c`supply
    ensures ids == Onward(old(c.supply), |values|) && c.supply == old(c.supply) + |values|
    ensures (forall y: nat :: y in c.tokens <==> y < c.supply) && c.index.Keys == c.tokens.Keys
    ensures Extends(c.tokens, old(c.tokens))
    ensures forall y :: y in old(c.index) ==> y in c.index && c.index[y] == old(c.index)[y]
    ensures forall i :: 0 <= i < |ids| ==>
      ids[i] in c.tokens && c.tokens[ids[i]] == Token(Vector, "", values[i]) && c.index[ids[i]] == k + i
  {
    ids := [];
    while |ids| < |values|
      invariant |ids| <= |values| && ids == Onward(old(c.supply), |ids|) && c.supply == old(c.supply) + |ids|
      invariant (forall y: nat :: y in c.tokens <==> y < c.supply) && c.index.Keys == c.tokens.Keys
      invariant Extends(c.tokens, old(c.tokens))
      invariant forall y :: y in old(c.index) ==> y in c.index && c.index[y] == old(c.index)[y]
      invariant forall i :: 0 <= i < |ids| ==>
        ids[i] in c.tokens && c.tokens[ids[i]] == Token(Vector, "", values[i]) && c.index[ids[i]] == k + i
    {
      var x := NewId(c, Token(Vector, "", values[|ids|]), k + |ids|);
      ids := ids + [x];
    }
  }

  method AddVectors(c: Config, values: seq<string>, k: nat, ghost mode: T.Mode)
    requires Loading(c.State(), mode) && mode.section && !mode.scalar && values != [] && k == LastCount(c.lines) + 1
    modifies c
    ensures Loading(c.State(), mode.(vector := true))
    ensures RowsOf(c.lines, c.tokens) == old(RowsOf(c.lines, c.tokens)) + [T.Vector(values)]
    ensures LastCount(c.lines) + 1 == k + |values|
  {
    ghost var s := c.State();
    var ids := NewIds(c, values, k);
    c.lines := c.lines + [Items(ids)];
    IdsOfOne(Items(ids));
    assert ids[0] in c.tokens;
    AppendKeeps(c.State(), s, Items(ids), |ids|, mode);
    assert ValuesOf(ids, c.tokens) == values;
    ItemsAppended(c.State(), s, ids, mode);
  }

  /** Adds the line a row stands for; the next vector token of the section will have index `next`. */
  method AddRow(c: Config, row: T.Row, k: nat, ghost mode: T.Mode) returns (next: nat)
    requires Loading(c.State(), mode) && T.Follows(mode, row) && (row.Vector? ==> row.values != [])
    requires mode.section && !mode.scalar ==> k == LastCount(c.lines) + 1
    modifies c
    ensures Loading(c.State(), T.ModeAfter(mode, row))
    ensures RowsOf(c.lines, c.tokens) == old(RowsOf(c.lines, c.tokens)) + [row]
    ensures var m := T.ModeAfter(mode, row); m.section && !m.scalar ==> next == LastCount(c.lines) + 1
  {
    next := k;
    match row {
      case Remark(text) => AddRemark(c, text, mode);
      case Section(name) =>
        AddHeader(c, name, mode);
        next := 1;
      case Scalar(name, value) => AddScalar(c, name, value, mode);
      case Vector(values) =>
        AddVectors(c, values, k, mode);
        next := k + |values|;
    }
  }

  /** Reads one piece and adds its line; none if it cannot be read or may not stand here. */
  method LoadLine(c: Config, piece: string, k: nat, mode: T.Mode) returns (row: T.Option<T.Row>, next: nat)
    requires Loading(c.State(), mode)
    requires mode.section && !mode.scalar ==> k == LastCount(c.lines) + 1
    modifies c
    ensures var read := T.ReadRow(T.Bare(piece));
      row == if read.None? || !T.Follows(mode, read.value) then T.None else read
    ensures row.Some? ==>
      && Loading(c.State(), T.ModeAfter(mode, row.value))
      && RowsOf(c.lines, c.tokens) == old(RowsOf(c.lines, c.tokens)) + [row.value]
      && var m := T.ModeAfter(mode, row.value); m.section && !m.scalar ==> next == LastCount(c.lines) + 1
  {
    var line := R.BareOf(piece);
    row := R.ReadLine(line);
    HasWords(piece);
    if row.None? || !T.Follows(mode, row.value) {
      return T.None, k;
    }
    next := AddRow(c, row.value, k, mode);
  }

  function ReadsOn(rows: seq<T.Row>, rest: T.Option<seq<T.Row>>): T.Option<seq<T.Row>> {
    if rest.None? then T.None else T.Some(rows + rest.value)
  }

  /** `CfgLoadConfiguration`, on a store just created. */
  method Load(c: Config, text: string) returns (ret: int)
    requires c.State() == EMPTY
    modifies c
    ensures ret == 0 || ret == -1
    ensures ret == 0 <==> T.Read(text).Some?
    ensures ret == 0 ==>
      c.Valid() && AllReadable(c.lines, c.tokens) && RowsOf(c.lines, c.tokens) == T.Read(text).value
  {
    NothingLoaded(c.fold);
    var ok;
    ghost var mode;
    ok, mode := LoadLines(c, text);
    if !ok {
      return -1;
    }
    LinkAll(c, mode);
    return 0;
  }

  /** The reading loop. */
  method LoadLines(c: Config, text: string) returns (ok: bool, ghost m: T.Mode)
    requires Loading(c.State(), T.START) && c.lines == []
    modifies c
    ensures ok <==> T.Read(text).Some?
    ensures ok ==> Loading(c.State(), m) && RowsOf(c.lines, c.tokens) == T.Read(text).value
  {
    var at, k, mode := 0, 1, T.START;
    ghost var rows: seq<T.Row>, rest, read := [], text, T.Read(text);
    ReadsNothing(read);
    while at < |text|
      invariant at <= |text| && rest == text[at..]
      invariant Loading(c.State(), mode) && rows == RowsOf(c.lines, c.tokens)
      invariant mode.section && !mode.scalar ==> k == LastCount(c.lines) + 1
      invariant read == ReadsOn(rows, T.ReadPieces(T.Pieces(rest), mode))
    {
      var n := R.PieceAt(text, at);
      ReadsOne(rows, rest, n, mode);
      assert rest[..n] == text[at..at + n] && rest[n..] == text[at + n..];
      var row;
      row, k := LoadLine(c, text[at..at + n], k, mode);
      if row.None? {
        return false, mode;
      }
      rows, rest := rows + [row.value], rest[n..];
      mode := T.ModeAfter(mode, row.value);
      at := at + n;
    }
    assert rest == "" && rows + [] == rows;
    return true, mode;
  }

  lemma ReadsNothing(read: T.Option<seq<T.Row>>)
    ensures ReadsOn([], read) == read
  {
    if read.Some? {
      assert [] + read.value == read.value;
    }
  }

  /** One piece of the text more. */
  lemma ReadsOne(rows: seq<T.Row>, rest: string, n: nat, mode: T.Mode)
    requires rest != "" && n == T.PieceLength(rest, T.BUFFER_SIZE - 1)
    ensures var row := T.ReadRow(T.Bare(rest[..n]));
      && ReadsOn(rows, T.ReadPieces(T.Pieces(rest), mode)) ==
           (if row.None? || !T.Follows(mode, row.value) then T.None
            else ReadsOn(rows + [row.value], T.ReadPieces(T.Pieces(rest[n..]), T.ModeAfter(mode, row.value))))
  {
    assert T.Pieces(rest)[1..] == T.Pieces(rest[n..]);
    var row := T.ReadRow(T.Bare(rest[..n]));
    if row.Some? && T.Follows(mode, row.value) {
      var more := T.ReadPieces(T.Pieces(rest[n..]), T.ModeAfter(mode, row.value));
      if more.Some? {
        assert rows + ([row.value] + more.value) == rows + [row.value] + more.value;
      }
    }
  }

  /** A line of vector tokens that is looked at has at least one. */
  lemma HasWords(piece: string)
    ensures var row := T.ReadRow(T.Bare(piece)); row.Some? && row.value.Vector? ==> row.value.values != []
  {
    var line := T.Bare(piece);
    var k := RT.TrimEndIs(T.Chomp(piece));
    var j := RT.TrimStartIs(line);
    if line != "" {
      assert line[|line| - 1] == T.Chomp(piece)[k - 1];
      if j > 0 {
        assert RT.AllBlank(line[..j]) && line[j - 1] == line[..j][j - 1];
      }
    }
  }
}
