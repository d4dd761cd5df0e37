/**
  Lines, sections and tokens of the configuration store of `lch/util/cconfig.c`.
 */
module ConfigModel {
  /** The identity of a token structure. */
  type Id = nat

  datatype Kind = SectionName | Scalar | Vector

  datatype Token = Token(kind: Kind, name: string, value: string)

  /** A line of the line list: a section header, a run of tokens, or a comment or blank line. */
  datatype Line = Header(section: Id) | Items(ids: seq<Id>) | Remark(text: string)

  // ----- The line list seen as sections -----

  /** A section: the token of its header and the tokens of its lines, in order. */
  datatype Block = Block(section: Id, ids: seq<Id>)

  /** The tokens before the first header. */
  function Lead(lines: seq<Line>): seq<Id> {
    if lines == [] || lines[0].Header? then []
    else (if lines[0].Items? then lines[0].ids else []) + Lead(lines[1..])
  }

  function Blocks(lines: seq<Line>): seq<Block> {
    if lines == [] then []
    else if lines[0].Header? then [Block(lines[0].section, Lead(lines[1..]))] + Blocks(lines[1..])
    else Blocks(lines[1..])
  }

  /** More tokens for the last section. */
  function Extend(blocks: seq<Block>, ids: seq<Id>): (r: seq<Block>)
    ensures |r| == |blocks|
  {
    if blocks == [] then []
    else
      var last := blocks[|blocks| - 1];
      blocks[..|blocks| - 1] + [Block(last.section, last.ids + ids)]
  }

  lemma {:induction false} LeadJoin(a: seq<Line>, b: seq<Line>)
    ensures Lead(a + b) == if Blocks(a) == [] then Lead(a) + Lead(b) else Lead(a)
    decreases |a|
  {
    if a == [] {
      assert a + b == b;
    } else {
      assert (a + b)[1..] == a[1..] + b;
      LeadJoin(a[1..], b);
    }
  }

  /** The sections of two parts: the first tokens of the second part go to the last section of the first. */
  lemma {:induction false} BlocksJoin(a: seq<Line>, b: seq<Line>)
    ensures Blocks(a + b) == Extend(Blocks(a), Lead(b)) + Blocks(b)
    decreases |a|
  {
    if a == [] {
      assert a + b == b;
    } else {
      assert (a + b)[1..] == a[1..] + b;
      BlocksJoin(a[1..], b);
      if a[0].Header? {
        LeadJoin(a[1..], b);
        ExtendBehind(Block(a[0].section, Lead(a[1..])), Blocks(a[1..]), Lead(b));
        JoinAgain([Block(a[0].section, Lead((a + b)[1..]))], Extend(Blocks(a[1..]), Lead(b)), Blocks(b));
      }
    }
  }

  lemma ExtendBehind(first: Block, rest: seq<Block>, ids: seq<Id>)
    ensures Extend([first] + rest, ids) ==
            if rest == [] then [Block(first.section, first.ids + ids)] else [first] + Extend(rest, ids)
  {}

  lemma JoinAgain(a: seq<Block>, b: seq<Block>, c: seq<Block>)
    ensures a + (b + c) == a + b + c
  {}

  lemma ExtendNothing(blocks: seq<Block>)
    ensures Extend(blocks, []) == blocks
  {
    if blocks != [] {
      var last := blocks[|blocks| - 1];
      assert last.ids + [] == last.ids;
      assert blocks == blocks[..|blocks| - 1] + [last];
    }
  }

  predicate Quiet(lines: seq<Line>) {
    forall i :: 0 <= i < |lines| ==> lines[i].Remark?
  }

  lemma {:induction false} QuietLead(lines: seq<Line>, more: seq<Line>)
    requires Quiet(lines)
    ensures Lead(lines + more) == Lead(more) && Blocks(lines + more) == Blocks(more)
    decreases |lines|
  {
    if lines == [] {
      assert lines + more == more;
    } else {
      assert (lines + more)[1..] == lines[1..] + more;
      QuietLead(lines[1..], more);
    }
  }

  // ----- Occurrences -----

  /** What counts as the same: all vector tokens of a section, and names that compare equal. */
  datatype Key = AnyVector | Named(folded: string)

  /** How names are compared: by what `fold` makes of them. */
  type Fold = string -> string

  function KeyOf(t: Token, fold: Fold): Key {
    if t.kind.Vector? then AnyVector else Named(fold(t.name))
  }

  type Tokens = map<Id, Token>

  predicate Known(ids: seq<Id>, tokens: Tokens) {
    forall i :: 0 <= i < |ids| ==> ids[i] in tokens
  }

  predicate Distinct(ids: seq<Id>) {
    forall i, j :: 0 <= i < j < |ids| ==> ids[i] != ids[j]
  }

  /** How many of the tokens have the key. */
  function Count(ids: seq<Id>, tokens: Tokens, fold: Fold, key: Key): nat
    requires Known(ids, tokens)
  {
    if ids == [] then 0
    else
      Count(ids[..|ids| - 1], tokens, fold, key) +
      (if KeyOf(tokens[ids[|ids| - 1]], fold) == key then 1 else 0)
  }

  /** The index of every token says the how-manieth with its key it is. */
  predicate Ranked(ids: seq<Id>, tokens: Tokens, fold: Fold, index: map<Id, int>)
    requires Known(ids, tokens)
  {
    forall i :: 0 <= i < |ids| ==> RankedAt(ids, i, tokens, fold, index)
  }

  lemma {:induction false} CountJoin(a: seq<Id>, b: seq<Id>, tokens: Tokens, fold: Fold, key: Key)
    requires Known(a, tokens) && Known(b, tokens)
    ensures Known(a + b, tokens)
    ensures Count(a + b, tokens, fold, key) == Count(a, tokens, fold, key) + Count(b, tokens, fold, key)
    decreases |b|
  {
    if b == [] {
      assert a + b == a;
    } else {
      assert (a + b)[..|a + b| - 1] == a + b[..|b| - 1];
      CountJoin(a, b[..|b| - 1], tokens, fold, key);
    }
  }

  /** Tokens that are not listed do not count. */
  lemma {:induction false} CountSame(ids: seq<Id>, tokens: Tokens, other: Tokens, fold: Fold, key: Key)
    requires Known(ids, tokens) && Known(ids, other)
    requires forall i :: 0 <= i < |ids| ==> KeyOf(tokens[ids[i]], fold) == KeyOf(other[ids[i]], fold)
    ensures Count(ids, tokens, fold, key) == Count(ids, other, fold, key)
  {
    if ids != [] {
      CountSame(ids[..|ids| - 1], tokens, other, fold, key);
    }
  }

  /** One token more counts for its own key only. */
  lemma CountAround(a: seq<Id>, x: Id, b: seq<Id>, tokens: Tokens, fold: Fold, key: Key)
    requires Known(a, tokens) && Known(b, tokens) && x in tokens
    ensures Known(a + [x] + b, tokens) && Known(a + b, tokens)
    ensures Count(a + [x] + b, tokens, fold, key) ==
            Count(a + b, tokens, fold, key) + (if KeyOf(tokens[x], fold) == key then 1 else 0)
  {
    CountJoin(a + [x], b, tokens, fold, key);
    CountJoin(a, [x], tokens, fold, key);
    CountJoin(a, b, tokens, fold, key);
    assert [x][..0] == [];
  }

  predicate RankedAt(ids: seq<Id>, i: nat, tokens: Tokens, fold: Fold, index: map<Id, int>)
    requires Known(ids, tokens) && i < |ids|
  {
    ids[i] in index && index[ids[i]] == Count(ids[..i], tokens, fold, KeyOf(tokens[ids[i]], fold)) + 1
  }

  lemma Parts(a: seq<Id>, x: Id, b: seq<Id>, tokens: Tokens)
    requires Known(a, tokens) && Known(b, tokens) && x in tokens
    ensures Known(a + b, tokens) && Known(a + [x] + b, tokens)
    ensures forall i :: 0 <= i < |a| ==> (a + b)[i] == a[i] && (a + [x] + b)[i] == a[i]
    ensures forall i :: 0 <= i < |a| ==> (a + b)[..i] == a[..i] && (a + [x] + b)[..i] == a[..i]
    ensures forall j :: 0 <= j < |b| ==> (a + b)[|a| + j] == b[j] && (a + [x] + b)[|a| + 1 + j] == b[j]
    ensures forall j :: 0 <= j < |b| ==>
      (a + b)[..|a| + j] == a + b[..j] && (a + [x] + b)[..|a| + 1 + j] == a + [x] + b[..j]
    ensures (a + [x] + b)[|a|] == x && (a + [x] + b)[..|a|] == a
  {}

  lemma Apart(a: seq<Id>, x: Id, b: seq<Id>)
    requires Distinct(a + [x] + b)
    ensures x !in a && x !in b && forall i :: 0 <= i < |a| ==> a[i] !in b
    ensures Distinct(a + b)
  {
    var all := a + [x] + b;
    assert all[|a|] == x;
    assert forall i :: 0 <= i < |a| ==> all[i] == a[i];
    forall j | 0 <= j < |b|
      ensures b[j] != x && b[j] !in a
    {
      assert all[|a| + 1 + j] == b[j];
    }
    forall i | 0 <= i < |a|
      ensures a[i] != x
    {
      assert all[i] == a[i];
    }
    forall i, j | 0 <= i < j < |a + b|
      ensures (a + b)[i] != (a + b)[j]
    {
      assert all[if i < |a| then i else i + 1] == (a + b)[i];
      assert all[if j < |a| then j else j + 1] == (a + b)[j];
    }
  }

  /** The indices of the tokens of `ids` with the key moved by `step`; other tokens of `ids` keep theirs. */
  predicate Moved(now: map<Id, int>, was: map<Id, int>, ids: seq<Id>, tokens: Tokens, fold: Fold, key: Key, step: int)
    requires Known(ids, tokens)
  {
    forall y :: y in ids && y in was ==>
      y in now && now[y] == was[y] + (if KeyOf(tokens[y], fold) == key then step else 0)
  }

  predicate Kept(now: map<Id, int>, was: map<Id, int>, ids: seq<Id>) {
    forall y :: y in ids && y in was ==> y in now && now[y] == was[y]
  }

  /** A new token between two parts: its index and the moved ones say the occurrences again. */
  lemma RankInsert(a: seq<Id>, x: Id, b: seq<Id>, tokens: Tokens, fold: Fold, was: map<Id, int>, now: map<Id, int>)
    requires Known(a, tokens) && Known(b, tokens) && x in tokens
    requires Known(a + b, tokens) && Ranked(a + b, tokens, fold, was)
    requires var key := KeyOf(tokens[x], fold);
      && Kept(now, was, a) && Moved(now, was, b, tokens, fold, key, 1)
      && x in now && now[x] == Count(a, tokens, fold, key) + 1
    ensures Known(a + [x] + b, tokens) && Ranked(a + [x] + b, tokens, fold, now)
  {
    Parts(a, x, b, tokens);
    forall i | 0 <= i < |a + [x] + b|
      ensures RankedAt(a + [x] + b, i, tokens, fold, now)
    {
      if i < |a| {
        assert RankedAt(a + b, i, tokens, fold, was);
      } else if i > |a| {
        RankBehind(a, x, b, i - |a| - 1, tokens, fold, was, now);
      }
    }
  }

  lemma RankBehind(a: seq<Id>, x: Id, b: seq<Id>, j: nat, tokens: Tokens, fold: Fold, was: map<Id, int>,
                   now: map<Id, int>)
    requires Known(a, tokens) && Known(b, tokens) && x in tokens && j < |b|
    requires Known(a + b, tokens) && Ranked(a + b, tokens, fold, was)
    requires Moved(now, was, b, tokens, fold, KeyOf(tokens[x], fold), 1)
    ensures Known(a + [x] + b, tokens) && RankedAt(a + [x] + b, |a| + 1 + j, tokens, fold, now)
  {
    Parts(a, x, b, tokens);
    assert RankedAt(a + b, |a| + j, tokens, fold, was);
    CountAround(a, x, b[..j], tokens, fold, KeyOf(tokens[b[j]], fold));
  }

  /** The same when a token goes. */
  lemma RankDelete(a: seq<Id>, x: Id, b: seq<Id>, tokens: Tokens, fold: Fold, was: map<Id, int>, now: map<Id, int>)
    requires Known(a, tokens) && Known(b, tokens) && x in tokens
    requires Known(a + [x] + b, tokens) && Ranked(a + [x] + b, tokens, fold, was)
    requires Kept(now, was, a) && Moved(now, was, b, tokens, fold, KeyOf(tokens[x], fold), -1)
    ensures Known(a + b, tokens) && Ranked(a + b, tokens, fold, now)
  {
    Parts(a, x, b, tokens);
    forall i | 0 <= i < |a + b|
      ensures RankedAt(a + b, i, tokens, fold, now)
    {
      if i < |a| {
        assert RankedAt(a + [x] + b, i, tokens, fold, was);
      } else {
        var j := i - |a|;
        assert RankedAt(a + [x] + b, |a| + 1 + j, tokens, fold, was);
        CountAround(a, x, b[..j], tokens, fold, KeyOf(tokens[b[j]], fold));
      }
    }
  }

  /** Other tokens and indices do not matter. */
  lemma RankSame(ids: seq<Id>, tokens: Tokens, other: Tokens, fold: Fold, was: map<Id, int>, now: map<Id, int>)
    requires Known(ids, tokens) && Ranked(ids, tokens, fold, was)
    requires forall y :: y in ids ==> y in other && KeyOf(other[y], fold) == KeyOf(tokens[y], fold)
    requires Kept(now, was, ids)
    ensures Known(ids, other) && Ranked(ids, other, fold, now)
  {
    forall i | 0 <= i < |ids|
      ensures RankedAt(ids, i, other, fold, now)
    {
      assert RankedAt(ids, i, tokens, fold, was);
      CountSame(ids[..i], tokens, other, fold, KeyOf(tokens[ids[i]], fold));
    }
  }

  // ----- The invariant -----

  /** All tokens of some sections, headers included. */
  function Flat(blocks: seq<Block>): seq<Id> {
    if blocks == [] then [] else [blocks[0].section] + blocks[0].ids + Flat(blocks[1..])
  }

  lemma {:induction false} FlatJoin(a: seq<Block>, b: seq<Block>)
    ensures Flat(a + b) == Flat(a) + Flat(b)
    decreases |a|
  {
    if a == [] {
      assert a + b == b;
    } else {
      assert (a + b)[1..] == a[1..] + b;
      FlatJoin(a[1..], b);
    }
  }

  function Headers(blocks: seq<Block>): (h: seq<Id>)
    ensures |h| == |blocks|
    ensures forall i :: 0 <= i < |blocks| ==> h[i] == blocks[i].section
  {
    seq(|blocks|, i requires 0 <= i < |blocks| => blocks[i].section)
  }

  /** The tokens of one section: all of one kind, each indexed by its occurrence. */
  predicate SaneBlock(b: Block, tokens: Tokens, fold: Fold, index: map<Id, int>) {
    && b.section in tokens && tokens[b.section].kind.SectionName?
    && Known(b.ids, tokens) && Ranked(b.ids, tokens, fold, index)
    && (forall i :: 0 <= i < |b.ids| ==>
          !tokens[b.ids[i]].kind.SectionName? && tokens[b.ids[i]].kind == tokens[b.ids[0]].kind)
  }

  predicate Below(ids: seq<Id>, supply: nat) {
    forall i :: 0 <= i < |ids| ==> ids[i] < supply
  }

  predicate Sane(blocks: seq<Block>, tokens: Tokens, fold: Fold, index: map<Id, int>, supply: nat) {
    && Distinct(Flat(blocks)) && Below(Flat(blocks), supply)
    && (forall i :: 0 <= i < |blocks| ==> SaneBlock(blocks[i], tokens, fold, index))
    && Known(Headers(blocks), tokens) && Ranked(Headers(blocks), tokens, fold, index)
  }

  /** The sections array and the chains say the same as the line list. */
  predicate Linked(lines: seq<Line>, sections: seq<Id>, chain: map<Id, seq<Id>>) {
    && Lead(lines) == []
    && sections == Headers(Blocks(lines))
    && forall i :: 0 <= i < |sections| ==>
         sections[i] in chain && chain[sections[i]] == Blocks(lines)[i].ids
  }

  /** A line of tokens is not empty, and a scalar has a line to itself. */
  predicate TidyLine(l: Line, tokens: Tokens, supply: nat) {
    l.Items? ==>
      && l.ids != [] && Known(l.ids, tokens) && Below(l.ids, supply)
      && (|l.ids| > 1 ==> tokens[l.ids[0]].kind.Vector?)
  }

  predicate Tidy(lines: seq<Line>, tokens: Tokens, supply: nat) {
    forall i :: 0 <= i < |lines| ==> TidyLine(lines[i], tokens, supply)
  }

  /** All of the store but the flags. */
  datatype Store = Store(
    lines: seq<Line>, sections: seq<Id>, chain: map<Id, seq<Id>>,
    tokens: Tokens, index: map<Id, int>, supply: Id)

  /** A store that has just been created. */
  const EMPTY := Store([], [], map[], map[], map[], 0)

  /** The invariant. */
  predicate Good(s: Store, fold: Fold) {
    && Linked(s.lines, s.sections, s.chain)
    && Sane(Blocks(s.lines), s.tokens, fold, s.index, s.supply)
    && Tidy(s.lines, s.tokens, s.supply)
    && (forall y :: y in s.index ==> y < s.supply)
  }

  lemma {:induction false} FlatHas(blocks: seq<Block>, m: nat, x: Id)
    requires m < |blocks| && (x == blocks[m].section || x in blocks[m].ids)
    ensures x in Flat(blocks)
    decreases |blocks|
  {
    if m > 0 {
      FlatHas(blocks[1..], m - 1, x);
    }
  }

  /** A token is in one section only. */
  lemma {:induction false} OneHome(blocks: seq<Block>, m: nat, n: nat, x: Id)
    requires Distinct(Flat(blocks)) && m < |blocks| && n < |blocks|
    requires x == blocks[m].section || x in blocks[m].ids
    requires x == blocks[n].section || x in blocks[n].ids
    ensures m == n
    decreases |blocks|
  {
    var first, rest := [blocks[0].section] + blocks[0].ids, Flat(blocks[1..]);
    assert Flat(blocks) == first + rest;
    DistinctParts(first, rest);
    assert m == 0 || n == 0 ==> x in first;
    if m == 0 && n > 0 {
      FlatHas(blocks[1..], n - 1, x);
    } else if n == 0 && m > 0 {
      FlatHas(blocks[1..], m - 1, x);
    } else if m > 0 {
      OneHome(blocks[1..], m - 1, n - 1, x);
    }
  }

  lemma DistinctParts(a: seq<Id>, b: seq<Id>)
    requires Distinct(a + b)
    ensures Distinct(a) && Distinct(b) && forall x :: x in a ==> x !in b
  {
    var all := a + b;
    assert forall i :: 0 <= i < |a| ==> all[i] == a[i];
    assert forall j :: 0 <= j < |b| ==> all[|a| + j] == b[j];
  }

  // ----- Looking up by occurrence -----

  /** The token compares equal and carries the index. */
  predicate Hit(x: Id, key: Key, k: int, tokens: Tokens, fold: Fold, index: map<Id, int>) {
    x in tokens && x in index && KeyOf(tokens[x], fold) == key && index[x] == k
  }

  /** Place `p` holds the `k`-th token with the key. */
  predicate Nth(ids: seq<Id>, p: nat, key: Key, k: int, tokens: Tokens, fold: Fold)
    requires Known(ids, tokens)
  {
    p < |ids| && KeyOf(tokens[ids[p]], fold) == key && Count(ids[..p], tokens, fold, key) + 1 == k
  }

  /** Finding by stored index is finding by occurrence. */
  lemma HitIsNth(ids: seq<Id>, p: nat, key: Key, k: int, tokens: Tokens, fold: Fold, index: map<Id, int>)
    requires Known(ids, tokens) && Ranked(ids, tokens, fold, index) && p < |ids|
    ensures Hit(ids[p], key, k, tokens, fold, index) <==> Nth(ids, p, key, k, tokens, fold)
  {
    assert RankedAt(ids, p, tokens, fold, index);
  }

  lemma {:induction false} CountGrows(ids: seq<Id>, p: nat, q: nat, tokens: Tokens, fold: Fold, key: Key)
    requires Known(ids, tokens) && p <= q <= |ids|
    ensures Count(ids[..p], tokens, fold, key) <= Count(ids[..q], tokens, fold, key)
  {
    CountJoin(ids[..p], ids[p..q], tokens, fold, key);
    assert ids[..p] + ids[p..q] == ids[..q];
  }

  /** There is at most one `k`-th occurrence. */
  lemma NthOnce(ids: seq<Id>, p: nat, q: nat, key: Key, k: int, tokens: Tokens, fold: Fold)
    requires Known(ids, tokens) && Nth(ids, p, key, k, tokens, fold) && Nth(ids, q, key, k, tokens, fold)
    ensures p == q
  {
    var lo, hi := if p < q then p else q, if p < q then q else p;
    if lo < hi {
      assert ids[..lo + 1][..lo] == ids[..lo];
      CountGrows(ids, lo + 1, hi, tokens, fold, key);
    }
  }

  /** Every occurrence up to the number there is can be found. */
  lemma {:induction false} NthExists(ids: seq<Id>, key: Key, k: int, tokens: Tokens, fold: Fold) returns (p: nat)
    requires Known(ids, tokens) && 1 <= k <= Count(ids, tokens, fold, key)
    ensures Nth(ids, p, key, k, tokens, fold)
    ensures p < |ids| && Count(ids[..p + 1], tokens, fold, key) == k
    decreases |ids|
  {
    var front := ids[..|ids| - 1];
    if k <= Count(front, tokens, fold, key) {
      p := NthExists(front, key, k, tokens, fold);
      assert front[..p] == ids[..p] && front[..p + 1] == ids[..p + 1];
    } else {
      p := |ids| - 1;
      assert ids[..p + 1] == ids;
    }
  }

  lemma CountThrough(ids: seq<Id>, p: nat, key: Key, k: int, tokens: Tokens, fold: Fold)
    requires Known(ids, tokens) && Nth(ids, p, key, k, tokens, fold)
    ensures Count(ids[..p + 1], tokens, fold, key) == k
  {
    assert ids[..p + 1][..p] == ids[..p];
  }

  /** Tokens with the key have smaller indices before the `k`-th of them and larger ones behind it. */
  lemma RankOrder(ids: seq<Id>, i: nat, j: nat, key: Key, k: int, tokens: Tokens, fold: Fold, index: map<Id, int>)
    requires Known(ids, tokens) && Ranked(ids, tokens, fold, index) && Nth(ids, i, key, k, tokens, fold)
    requires j < |ids| && KeyOf(tokens[ids[j]], fold) == key
    ensures ids[j] in index && (j < i ==> index[ids[j]] < k) && (j > i ==> index[ids[j]] > k)
  {
    assert RankedAt(ids, j, tokens, fold, index);
    if j < i {
      CountThrough(ids, j, key, index[ids[j]], tokens, fold);
      CountGrows(ids, j + 1, i, tokens, fold, key);
    } else if j > i {
      CountThrough(ids, i, key, k, tokens, fold);
      CountGrows(ids, i + 1, j, tokens, fold, key);
    }
  }
}
