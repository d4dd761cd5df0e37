/**
  The configuration store of `lch/util/cconfig.c` and its edits.
 */
module ConfigStore {
  import opened ConfigModel
  import opened ConfigEdits
  import opened ConfigLines
  import opened ConfigPlaces

  datatype Option<T> = None | Some(value: T)

  /** Place `i` of the array holds the `k`-th section of that name. */
  predicate IsSection(s: Store, fold: Fold, i: nat, name: string, k: int) {
    Known(s.sections, s.tokens) && Nth(s.sections, i, Named(fold(name)), k, s.tokens, fold)
  }

  lemma SectionHit(s: Store, fold: Fold, i: nat, name: string, k: int)
    requires Good(s, fold) && i < |s.sections|
    ensures s.sections[i] in s.tokens && s.sections[i] in s.index
    ensures IsSection(s, fold, i, name, k) <==>
            fold(s.tokens[s.sections[i]].name) == fold(name) && s.index[s.sections[i]] == k
  {
    HitIsNth(s.sections, i, Named(fold(name)), k, s.tokens, fold, s.index);
    assert RankedAt(s.sections, i, s.tokens, fold, s.index);
    assert SaneBlock(Blocks(s.lines)[i], s.tokens, fold, s.index);
  }

  /** What a token is asked for by: its name, or being a vector token. */
  function IdKey(id: Option<string>, fold: Fold): Key {
    if id.None? then AnyVector else Named(fold(id.value))
  }

  /** Place `p` of the chain of section `i` holds the `k`-th token of that name, or the `k`-th vector token. */
  predicate IsToken(s: Store, fold: Fold, i: nat, p: nat, id: Option<string>, k: int) {
    && i < |s.sections| && s.sections[i] in s.chain
    && Known(s.chain[s.sections[i]], s.tokens)
    && Nth(s.chain[s.sections[i]], p, IdKey(id, fold), k, s.tokens, fold)
  }

  /** Place `p` of section `i` holds what is asked for: in the `n`-th section of that name. */
  predicate Asked(s: Store, fold: Fold, i: nat, p: nat, section: string, n: int, id: Option<string>, k: int) {
    IsSection(s, fold, i, section, n) && IsToken(s, fold, i, p, id, k)
  }

  function ValueCount(c: seq<Id>, tokens: Tokens, fold: Fold, value: string): nat
    requires Known(c, tokens)
  {
    if c == [] then 0
    else
      ValueCount(c[..|c| - 1], tokens, fold, value) +
      (if fold(tokens[c[|c| - 1]].value) == fold(value) then 1 else 0)
  }

  /** The number of tokens of a section that answer to `id`; -1 for vector tokens of a section of scalars. */
  function TokenCount(s: Store, fold: Fold, i: nat, id: Option<string>): int
    requires Good(s, fold) && i < |s.sections|
  {
    ChainFacts(s, fold, i);
    var c := s.chain[s.sections[i]];
    if c == [] then 0
    else if id.None? then (if s.tokens[c[0]].kind.Vector? then |c| else -1)
    else if s.tokens[c[0]].kind.Scalar? then Count(c, s.tokens, fold, Named(fold(id.value)))
    else ValueCount(c, s.tokens, fold, id.value)
  }

  lemma SectionsKnown(s: Store, fold: Fold)
    requires Good(s, fold)
    ensures Known(s.sections, s.tokens) && Ranked(s.sections, s.tokens, fold, s.index)
  {}

  lemma {:induction false} AllVectors(c: seq<Id>, tokens: Tokens, fold: Fold)
    requires Known(c, tokens) && forall i :: 0 <= i < |c| ==> tokens[c[i]].kind.Vector?
    ensures Count(c, tokens, fold, AnyVector) == |c|
  {
    if c != [] {
      AllVectors(c[..|c| - 1], tokens, fold);
    }
  }

  /** A section is empty or holds tokens of that kind. */
  predicate SameKind(s: Store, i: nat, t: Token) {
    i < |s.sections| && s.sections[i] in s.chain &&
    (s.chain[s.sections[i]] != [] ==>
       s.chain[s.sections[i]][0] in s.tokens && s.tokens[s.chain[s.sections[i]][0]].kind == t.kind)
  }

  // ----- What becomes of the lines -----

  predicate StandsIn(lines: seq<Line>, ln: nat, j: nat, x: Id) {
    ln < |lines| && lines[ln].Items? && j < |lines[ln].ids| && lines[ln].ids[j] == x
  }

  /** A new line behind line `ln`. */
  function LineBehind(lines: seq<Line>, ln: nat, l: Line): seq<Line>
    requires ln < |lines|
  {
    lines[..ln + 1] + [l] + lines[ln + 1..]
  }

  /** A token joins line `ln` as its number `j`. */
  function LineJoined(lines: seq<Line>, ln: nat, j: nat, x: Id): seq<Line>
    requires ln < |lines| && lines[ln].Items? && j <= |lines[ln].ids|
  {
    lines[ln := Items(lines[ln].ids[..j] + [x] + lines[ln].ids[j..])]
  }

  /**
    A scalar gets a line behind that of the token before it, the first one behind the header; a vector joins the line of
    the token before it, or that of the first one in front.
   */
  ghost predicate TokenPlaced(now: seq<Line>, was: Store, i: nat, m: nat, x: Id, t: Token)
    requires i < |was.sections| && was.sections[i] in was.chain && m <= |was.chain[was.sections[i]]|
  {
    var c := was.chain[was.sections[i]];
    if m == 0 && (c == [] || t.kind.Scalar?) then
      exists h: nat :: h < |was.lines| && was.lines[h] == Header(was.sections[i]) &&
        now == LineBehind(was.lines, h, Items([x]))
    else
      var y := if m == 0 then c[0] else c[m - 1];
      exists ln: nat, j: nat :: StandsIn(was.lines, ln, j, y) && (m == 0 ==> j == 0) &&
        now == if t.kind.Scalar? then LineBehind(was.lines, ln, Items([x]))
               else LineJoined(was.lines, ln, if m == 0 then 0 else j + 1, x)
  }

  /** Nothing but remarks from `p` to `h`, and no remark right before. */
  predicate RemarksFrom(lines: seq<Line>, p: nat, h: nat) {
    p <= h <= |lines| && Quiet(lines[p..h]) && (p == 0 || !lines[p - 1].Remark?)
  }

  /** The header of a section is put before the remarks of the next one, or behind all lines but the last remarks. */
  ghost predicate HeaderPlaced(now: seq<Line>, was: Store, w: nat, x: Id) {
    exists p: nat, q: nat :: HeaderPlacedAt(now, was, w, x, p, q)
  }

  predicate HeaderPlacedAt(now: seq<Line>, was: Store, w: nat, x: Id, p: nat, q: nat) {
    && q <= |was.lines| && (if was.sections == [] then p == q else RemarksFrom(was.lines, p, q))
    && (if w < |was.sections| then q < |was.lines| && was.lines[q] == Header(was.sections[w]) else q == |was.lines|)
    && now == was.lines[..p] + [Header(x)] + was.lines[p..]
  }

  /** The header goes with the remarks before it and all lines up to the last tokens; the remarks behind stay. */
  ghost predicate SectionCut(now: seq<Line>, lines: seq<Line>, s: Id) {
    exists p: nat, h: nat, e: nat :: SectionAt(lines, s, p, h, e) && now == lines[..p] + lines[e..]
  }

  ghost predicate SectionAt(lines: seq<Line>, s: Id, p: nat, h: nat, e: nat) {
    RemarksFrom(lines, p, h) && h < |lines| && lines[h] == Header(s) && LastIs(lines, h, e)
  }

  /** From the header at `h` to `e` is a section without the remarks behind its last tokens. */
  ghost predicate LastIs(lines: seq<Line>, h: nat, e: nat) {
    && h < e <= |lines| && (forall k :: h < k < e ==> !lines[k].Header?)
    && (e == h + 1 || !lines[e - 1].Remark?)
    && exists next: nat :: RestIs(lines, e, next)
  }

  lemma NoHeaders(lines: seq<Line>, h: nat, e: nat)
    requires h < e <= |lines| && Blocks(lines[h + 1..e]) == []
    ensures forall k :: h < k < e ==> !lines[k].Header?
  {
    NoBlocks(lines[h + 1..e]);
    forall k | h < k < e
      ensures !lines[k].Header?
    {
      assert lines[k] == lines[h + 1..e][k - h - 1];
    }
  }

  predicate RestIs(lines: seq<Line>, e: nat, next: nat) {
    e <= next <= |lines| && Quiet(lines[e..next]) && (next == |lines| || lines[next].Header?)
  }

  lemma {:induction false} NoBlocks(lines: seq<Line>)
    requires Blocks(lines) == []
    ensures forall k :: 0 <= k < |lines| ==> !lines[k].Header?
    decreases |lines|
  {
    if lines != [] {
      NoBlocks(lines[1..]);
      forall k | 0 <= k < |lines|
        ensures !lines[k].Header?
      {
        assert k > 0 ==> lines[k] == lines[1..][k - 1];
      }
    }
  }

  /** Only one chain has changed: it has the new token behind its first `m`. */
  ghost predicate TokenInserted(s: Store, was: Store, i: nat, m: nat, x: Id, t: Token) {
    && s.sections == was.sections && i < |was.sections| && was.sections[i] in was.chain
    && m <= |was.chain[was.sections[i]]|
    && var c := was.chain[was.sections[i]];
       && s.chain == was.chain[was.sections[i] := c[..m] + [x] + c[m..]]
       && s.tokens == was.tokens[x := t] && x == was.supply
       && TokenPlaced(s.lines, was, i, m, x, t)
  }

  function IdKind(id: Option<string>): Kind {
    if id.None? then Vector else Scalar
  }

  function NewToken(id: Option<string>, value: string): Token {
    Token(IdKind(id), if id.None? then "" else id.value, value)
  }

  /** Behind the first `m` tokens of section `i` is behind the `where`-th that answers to `id`, or behind the last. */
  predicate Behind(s: Store, fold: Fold, i: nat, m: nat, id: Option<string>, where: int) {
    && Good(s, fold) && i < |s.sections| && s.sections[i] in s.chain
    && var c, count := s.chain[s.sections[i]], TokenCount(s, fold, i, id);
       && m <= |c| && Known(c[..m], s.tokens)
       && Count(c[..m], s.tokens, fold, IdKey(id, fold)) == (if where < 0 || where > count then count else where)
       && (m > 0 ==> c[m - 1] in s.tokens && KeyOf(s.tokens[c[m - 1]], fold) == IdKey(id, fold))
  }

  ghost predicate SectionInserted(s: Store, was: Store, where: int, name: string) {
    var w := if where < 0 || where > |was.sections| then |was.sections| else where;
    && s.sections == was.sections[..w] + [was.supply] + was.sections[w..]
    && s.chain == was.chain[was.supply := []]
    && s.tokens == was.tokens[was.supply := Token(SectionName, name, "")]
    && HeaderPlaced(s.lines, was, w, was.supply)
  }

  lemma LastVector(s: Store, fold: Fold, i: nat)
    requires Good(s, fold) && i < |s.sections| && s.sections[i] in s.chain
    requires var c := s.chain[s.sections[i]]; c != [] && c[0] in s.tokens && s.tokens[c[0]].kind.Vector?
    ensures var c := s.chain[s.sections[i]];
      c[|c| - 1] in s.index && s.index[c[|c| - 1]] == |c| && TokenCount(s, fold, i, None) == |c|
  {
    var c := s.chain[s.sections[i]];
    ChainFacts(s, fold, i);
    assert RankedAt(c, |c| - 1, s.tokens, fold, s.index);
    AllVectors(c[..|c| - 1], s.tokens, fold);
  }

  lemma OnlySection(s: Store, fold: Fold, i: nat, name: string, n: int)
    requires IsSection(s, fold, i, name, n)
    ensures forall j: nat :: IsSection(s, fold, j, name, n) ==> j == i
    ensures n != 0
  {
    forall j: nat | IsSection(s, fold, j, name, n)
      ensures j == i
    {
      NthOnce(s.sections, i, j, Named(fold(name)), n, s.tokens, fold);
    }
  }

  lemma CountByKind(s: Store, fold: Fold, i: nat, id: Option<string>, t: Token)
    requires Good(s, fold) && i < |s.sections| && t.kind == IdKind(id) && SameKind(s, i, t)
    ensures var c := s.chain[s.sections[i]];
      Known(c, s.tokens) && TokenCount(s, fold, i, id) == Count(c, s.tokens, fold, IdKey(id, fold))
  {
    ChainFacts(s, fold, i);
    if id.None? {
      AllVectors(s.chain[s.sections[i]], s.tokens, fold);
    }
  }

  lemma BehindThat(s: Store, fold: Fold, i: nat, m: nat, id: Option<string>, t: Token, at: int, where: int)
    requires Good(s, fold) && i < |s.sections| && t.kind == IdKind(id) && SameKind(s, i, t)
    requires var count := TokenCount(s, fold, i, id);
      count >= 0 && at == if where < 0 || where > count then count else where
    requires var c := s.chain[s.sections[i]];
      && m <= |c| && Known(c, s.tokens) && (at <= 0 ==> m == 0)
      && (1 <= at <= Count(c, s.tokens, fold, IdKey(id, fold)) ==>
            m > 0 && Nth(c, m - 1, IdKey(id, fold), at, s.tokens, fold))
    ensures Behind(s, fold, i, m, id, where)
  {
    CountByKind(s, fold, i, id, t);
    if at > 0 {
      CountThrough(s.chain[s.sections[i]], m - 1, IdKey(id, fold), at, s.tokens, fold);
    }
  }

  /** Only one chain has changed: it lacks the token at place `m`. */
  ghost predicate TokenDeleted(s: Store, was: Store, i: nat, m: nat) {
    && s.sections == was.sections && i < |was.sections| && was.sections[i] in was.chain
    && m < |was.chain[was.sections[i]]|
    && var c := was.chain[was.sections[i]];
       && s.chain == was.chain[was.sections[i] := c[..m] + c[m + 1..]]
       && s.tokens == was.tokens && s.supply == was.supply
       && exists ln: nat, j: nat :: StandsIn(was.lines, ln, j, c[m]) && s.lines == Cut(was.lines, ln, j)
  }

  /** The indices above `k` of the tokens of `ids` with the key are one less than before. */
  predicate Closed(now: map<Id, int>, was: map<Id, int>, ids: seq<Id>, tokens: Tokens, fold: Fold, key: Key, k: int) {
    && now.Keys == was.Keys
    && forall y :: y in was ==>
         now[y] == was[y] - (if y in ids && y in tokens && KeyOf(tokens[y], fold) == key && was[y] > k then 1 else 0)
  }

  class Config {
    /** How names are compared: the identity, or a fold to one case. */
    const fold: Fold
    /** The line list. */
    var lines: seq<Line>
    /** The array of section headers. */
    var sections: seq<Id>
    /** For each header the tokens reached from its first token through the section links. */
    var chain: map<Id, seq<Id>>
    var tokens: Tokens
    var index: map<Id, int>
    /** Addresses not yet handed out start here. */
    var supply: Id
    var dirty: bool

    /** Nothing loaded yet. */
    constructor (fold: Fold)
      ensures Valid() && State() == EMPTY && !dirty && this.fold == fold
    {
      this.fold := fold;
      lines, sections, chain, tokens, index, supply, dirty := [], [], map[], map[], map[], 0, false;
    }

    ghost function State(): Store
      reads this
    {
      Store(lines, sections, chain, tokens, index, supply)
    }

    ghost predicate Valid()
      reads this
    {
      Good(State(), fold)
    }

    /** The place of the `k`-th section of that name; the number of sections if there is none. */
    method FindSection(name: string, k: int) returns (i: nat)
      requires Valid()
      ensures i <= |sections| && (i < |sections| ==> IsSection(State(), fold, i, name, k))
      ensures i == |sections| ==> forall j :: 0 <= j < |sections| ==> !IsSection(State(), fold, j, name, k)
    {
      ghost var s := State();
      i := 0;
      while i < |sections|
        invariant i <= |sections|
        invariant forall j :: 0 <= j < i ==> !IsSection(s, fold, j, name, k)
      {
        SectionHit(s, fold, i, name, k);
        if fold(tokens[sections[i]].name) == fold(name) && index[sections[i]] == k {
          return;
        }
        i := i + 1;
      }
    }

    /** Move the indices of the tokens with the key by `step`. */
    method Bump(ids: seq<Id>, key: Key, step: int)
      requires Distinct(ids) && Known(ids, tokens) && forall y :: y in ids ==> y in index
      modifies `index
      ensures Bumped(index, old(index), ids, tokens, fold, key, step) && index.Keys == old(index.Keys)
    {
      var i := 0;
      while i < |ids|
        invariant i <= |ids| && index.Keys == old(index.Keys)
        invariant Bumped(index, old(index), ids[..i], tokens, fold, key, step)
      {
        if KeyOf(tokens[ids[i]], fold) == key {
          index := index[ids[i] := index[ids[i]] + step];
        }
        assert ids[..i + 1] == ids[..i] + [ids[i]];
        i := i + 1;
      }
      assert ids[..i] == ids;
    }

    /** The index of the last token with the key, 0 if there is none: how many there are. */
    method LastIndex(ids: seq<Id>, key: Key) returns (n: int)
      requires Known(ids, tokens) && Ranked(ids, tokens, fold, index)
      ensures n == Count(ids, tokens, fold, key)
    {
      n := 0;
      var i := 0;
      while i < |ids|
        invariant i <= |ids| && n == Count(ids[..i], tokens, fold, key)
      {
        assert RankedAt(ids, i, tokens, fold, index);
        assert ids[..i + 1][..i] == ids[..i];
        if KeyOf(tokens[ids[i]], fold) == key {
          n := index[ids[i]];
        }
        i := i + 1;
      }
      assert ids[..i] == ids;
    }

    /** The place of the header in the line list. */
    method HeaderLine(s: Id) returns (p: nat)
      requires Valid() && s in sections
      ensures p < |lines| && lines[p] == Header(s)
    {
      HeaderExists(lines, s);
      p := 0;
      while lines[p] != Header(s)
        invariant p < |lines| && exists q :: p <= q < |lines| && lines[q] == Header(s)
        decreases |lines| - p
      {
        p := p + 1;
      }
    }

    /** Where a section goes: before the header at `w`, or at the end, and before the remarks that lead up to it. */
    method SectionPlace(w: nat) returns (p: nat, ghost next: nat)
      requires Valid() && w <= |sections| && |sections| > 0
      ensures p <= |lines| && Lead(lines[p..]) == [] && |Blocks(lines[..p])| == w
      ensures RemarksFrom(lines, p, next)
      ensures if w < |sections| then next < |lines| && lines[next] == Header(sections[w]) else next == |lines|
    {
      var q := |lines|;
      if w < |sections| {
        q := HeaderLine(sections[w]);
        HeaderPlace(lines, q, w);
      } else {
        assert lines[..q] == lines && lines[q..] == [];
      }
      p, next := q, q;
      assert lines[p..q] == [];
      while p > 0 && lines[p - 1].Remark?
        invariant p <= q <= |lines| && Lead(lines[p..]) == [] && |Blocks(lines[..p])| == w && Quiet(lines[p..q])
      {
        RemarkBefore(lines, p);
        assert lines[p - 1..q] == [lines[p - 1]] + lines[p..q];
        p := p - 1;
      }
    }

    /** A new section becomes the one at place `where`, or the last. */
    method AddSection(name: string, where: int)
      requires Valid()
      modifies this
      ensures Valid() && dirty
      ensures var w := if where < 0 || where > |old(sections)| then |old(sections)| else where;
        && sections == old(sections)[..w] + [old(supply)] + old(sections)[w..]
        && chain == old(chain)[old(supply) := []]
        && tokens == old(tokens)[old(supply) := Token(SectionName, name, "")]
        && HeaderPlaced(lines, old(State()), w, old(supply))
    {
      var total := |sections|;
      var w := if where < 0 || where > total then total else where;
      var x, t := supply, Token(SectionName, name, "");
      var p := |lines|;
      ghost var next := p;
      if total > 0 {
        p, next := SectionPlace(w);
      } else {
        assert lines[..p] == lines && lines[p..] == [];
      }
      LinkSection(p, w, x, t);
      assert HeaderPlacedAt(lines, old(State()), w, x, p, next);
      dirty := true;
    }

    /** A new token between `a` and `b` counts one more than those of its key in `a`; those in `b` move up. */
    method IndexNew(a: seq<Id>, b: seq<Id>, x: Id, key: Key)
      requires Known(a, tokens) && Ranked(a, tokens, fold, index)
      requires Known(b, tokens) && Distinct(b) && forall y :: y in b ==> y in index
      requires forall y :: y in index ==> y < x
      modifies `index
      ensures Bumped(index, old(index), b, tokens, fold, key, 1)
      ensures x in index && index[x] == Count(a, tokens, fold, key) + 1
      ensures forall y :: y in index ==> y <= x
    {
      var j := LastIndex(a, key);
      Bump(b, key, 1);
      index := index[x := j + 1];
    }

    /** Put the header line at `p`, its place in the array at `w`, and give it and its followers their indices. */
    method LinkSection(p: nat, w: nat, x: Id, t: Token)
      requires Valid() && x == supply && t.kind.SectionName?
      requires p <= |lines| && Lead(lines[p..]) == [] && |Blocks(lines[..p])| == w <= |sections|
      modifies this
      ensures Valid() && dirty == old(dirty)
      ensures sections == old(sections)[..w] + [x] + old(sections)[w..]
      ensures chain == old(chain)[x := []] && tokens == old(tokens)[x := t] && supply == x + 1
      ensures lines == old(lines)[..p] + [Header(x)] + old(lines)[p..]
    {
      ghost var next := IndexSection(p, w, x, t);
      lines, sections, chain, tokens, supply :=
        lines[..p] + [Header(x)] + lines[p..], sections[..w] + [x] + sections[w..],
        chain[x := []], tokens[x := t], x + 1;
    }

    method IndexSection(p: nat, w: nat, x: Id, t: Token) returns (ghost next: Store)
      requires Valid() && x == supply && t.kind.SectionName?
      requires p <= |lines| && Lead(lines[p..]) == [] && |Blocks(lines[..p])| == w <= |sections|
      modifies `index
      ensures next == WithSection(old(State()), p, w, t, index) && Good(next, fold)
    {
      ghost var was := State();
      SectionParts(was, fold, p, w);
      IndexNew(sections[..w], sections[w..], x, KeyOf(t, fold));
      next := SectionAdded(was, fold, p, w, t, index);
    }

    /** A new token in the chain of section `i` between `chain[..m]` and the rest, the line list already found. */
    method LinkToken(i: nat, m: nat, x: Id, t: Token, now: seq<Line>)
      requires Valid() && i < |sections| && x == supply && !t.kind.SectionName?
      requires m <= |chain[sections[i]]|
      requires chain[sections[i]] != [] ==>
        chain[sections[i]][0] in tokens && t.kind == tokens[chain[sections[i]][0]].kind
      requires Takes(now, State(), i, m, x) && Tidy(now, tokens[x := t], x + 1)
      modifies this
      ensures Valid() && dirty == old(dirty) && sections == old(sections)
      ensures var c := old(chain[sections[i]]); chain == old(chain)[sections[i] := c[..m] + [x] + c[m..]]
      ensures tokens == old(tokens)[x := t] && supply == x + 1 && lines == now
    {
      ghost var was := State();
      var c := chain[sections[i]];
      ChainParts(was, fold, i, m);
      IndexNew(c[..m], c[m..], x, KeyOf(t, fold));
      TokenAdded(was, fold, i, m, t, now, index);
      lines := now;
      chain := chain[sections[i] := c[..m] + [x] + c[m..]];
      tokens := tokens[x := t];
      supply := x + 1;
    }

    /** The line that holds the token: what its line pointer says. */
    method TokenLine(t: Id) returns (ln: nat)
      requires exists q :: 0 <= q < |lines| && lines[q].Items? && t in lines[q].ids
      ensures ln < |lines| && lines[ln].Items? && t in lines[ln].ids
    {
      ln := 0;
      while !(lines[ln].Items? && t in lines[ln].ids)
        invariant ln < |lines| && exists q :: ln <= q < |lines| && lines[q].Items? && t in lines[q].ids
        decreases |lines| - ln
      {
        ln := ln + 1;
      }
    }

    /** The place of the token in its line. */
    method PlaceInLine(ids: seq<Id>, t: Id) returns (j: nat)
      requires t in ids
      ensures j < |ids| && ids[j] == t
    {
      j := 0;
      while ids[j] != t
        invariant j < |ids| && t in ids[j..]
        decreases |ids| - j
      {
        j := j + 1;
      }
    }

    /** Follow the chain to the token with the key and the index; the length of the chain if there is none. */
    method FindToken(i: nat, key: Key, k: int) returns (m: nat)
      requires Valid() && i < |sections|
      ensures m <= |chain[sections[i]]| && Known(chain[sections[i]], tokens)
      ensures m < |chain[sections[i]]| ==> Nth(chain[sections[i]], m, key, k, tokens, fold)
      ensures m == |chain[sections[i]]| ==>
        forall p :: 0 <= p < |chain[sections[i]]| ==> !Nth(chain[sections[i]], p, key, k, tokens, fold)
    {
      var c := chain[sections[i]];
      ChainFacts(State(), fold, i);
      m := 0;
      while m < |c|
        invariant m <= |c|
        invariant forall p :: 0 <= p < m ==> !Nth(c, p, key, k, tokens, fold)
      {
        HitIsNth(c, m, key, k, tokens, fold, index);
        assert RankedAt(c, m, tokens, fold, index);
        if KeyOf(tokens[c[m]], fold) == key && index[c[m]] == k {
          return;
        }
        m := m + 1;
      }
    }

    /** `CfgGetValue`. */
    method GetValue(section: string, id: Option<string>, k: int, n: int) returns (value: Option<string>)
      requires Valid()
      ensures value.Some? <==> exists i: nat, p: nat :: Asked(State(), fold, i, p, section, n, id, k)
      ensures forall i: nat, p: nat :: Asked(State(), fold, i, p, section, n, id, k) ==>
                value == Some(tokens[chain[sections[i]][p]].value)
    {
      var i := FindSection(section, n);
      ghost var s := State();
      if i == |sections| {
        return None;
      }
      ChainFacts(s, fold, i);
      var m := FindToken(i, IdKey(id, fold), k);
      forall j: nat, p: nat | Asked(s, fold, j, p, section, n, id, k)
        ensures j == i && m < |chain[sections[i]]| && p == m
      {
        NthOnce(sections, i, j, Named(fold(section)), n, tokens, fold);
        if m < |chain[sections[i]]| {
          NthOnce(chain[sections[i]], m, p, IdKey(id, fold), k, tokens, fold);
        }
      }
      if m == |chain[sections[i]]| {
        return None;
      }
      assert Asked(State(), fold, i, m, section, n, id, k);
      return Some(tokens[chain[sections[i]][m]].value);
    }

    /** `CfgGetCount`: how many sections of that name, or how many tokens of that name in one of them. */
    method GetCount(section: string, id: Option<string>, n: int) returns (count: int)
      requires Valid()
      ensures n == 0 ==> count == Count(sections, tokens, fold, Named(fold(section)))
      ensures n != 0 && (forall i: nat :: !IsSection(State(), fold, i, section, n)) ==> count == 0
      ensures forall i: nat :: n != 0 && IsSection(State(), fold, i, section, n) ==>
        count == TokenCount(State(), fold, i, id)
    {
      ghost var s := State();
      if n == 0 {
        SectionsKnown(s, fold);
        count := LastIndex(sections, Named(fold(section)));
        return;
      }
      var i := FindSection(section, n);
      if i == |sections| {
        return 0;
      }
      OnlySection(s, fold, i, section, n);
      count := SectionCount(i, id);
    }

    /** How many tokens of the section answer to `id`. */
    method SectionCount(i: nat, id: Option<string>) returns (count: int)
      requires Valid() && i < |sections|
      ensures count == TokenCount(State(), fold, i, id)
    {
      ghost var s := State();
      ChainFacts(s, fold, i);
      var c := chain[sections[i]];
      if c == [] {
        return 0;
      }
      if id.None? {
        if !tokens[c[0]].kind.Vector? {
          return -1;
        }
        LastVector(s, fold, i);
        return index[c[|c| - 1]];
      }
      if tokens[c[0]].kind.Scalar? {
        count := LastIndex(c, Named(fold(id.value)));
      } else {
        count := SameValues(c, id.value);
      }
    }

    /** How many tokens have a value that compares equal. */
    method SameValues(c: seq<Id>, value: string) returns (count: nat)
      requires Known(c, tokens)
      ensures count == ValueCount(c, tokens, fold, value)
    {
      count := 0;
      var i := 0;
      while i < |c|
        invariant i <= |c| && count == ValueCount(c[..i], tokens, fold, value)
      {
        assert c[..i + 1][..i] == c[..i];
        if fold(tokens[c[i]].value) == fold(value) {
          count := count + 1;
        }
        i := i + 1;
      }
      assert c[..i] == c;
    }

    /** A new line behind the header: the token becomes the first of section `i`. */
    method AddFirst(i: nat, x: Id, t: Token)
      requires Valid() && i < |sections| && x == supply && !t.kind.SectionName?
      requires SameKind(State(), i, t) && sections[i] in chain && (chain[sections[i]] == [] || t.kind.Scalar?)
      modifies this
      ensures Valid() && dirty == old(dirty) && TokenInserted(State(), old(State()), i, 0, x, t)
    {
      ghost var s := State();
      ChainFacts(s, fold, i);
      var p := HeaderLine(sections[i]);
      FirstTakes(s, fold, i, p, x);
      var now := lines[..p + 1] + [Items([x])] + lines[p + 1..];
      assert lines[..p + 1] + lines[p + 1..] == lines;
      TidyGrows(lines[..p + 1], Items([x]), lines[p + 1..], tokens, t, x);
      LinkToken(i, 0, x, t, now);
      assert old(lines)[p] == Header(old(sections)[i]) && now == LineBehind(old(lines), p, Items([x]));
    }

    /** The token joins the line of the first vector token. */
    method AddInFront(i: nat, x: Id, t: Token)
      requires Valid() && i < |sections| && x == supply && t.kind.Vector?
      requires SameKind(State(), i, t) && sections[i] in chain && chain[sections[i]] != []
      modifies this
      ensures Valid() && dirty == old(dirty) && TokenInserted(State(), old(State()), i, 0, x, t)
    {
      ghost var s := State();
      ChainFacts(s, fold, i);
      var first := chain[sections[i]][0];
      TokenHasLine(s, fold, i, first);
      var ln := TokenLine(first);
      ghost var k := InLineTakes(s, fold, i, ln, 0, first, x);
      FirstInLine(chain[sections[i]], lines[ln].ids, k);
      VectorLine(s, fold, i, ln, 0, x, t);
      LinkToken(i, 0, x, t, LineJoined(lines, ln, 0, x));
      assert StandsIn(old(lines), ln, 0, first);
    }

    /** The token joins the line of the vector token at place `m`, behind it. */
    method AddInLine(i: nat, m: nat, x: Id, t: Token)
      requires Valid() && i < |sections| && x == supply && t.kind.Vector?
      requires SameKind(State(), i, t) && sections[i] in chain && m < |chain[sections[i]]|
      modifies this
      ensures Valid() && dirty == old(dirty) && TokenInserted(State(), old(State()), i, m + 1, x, t)
    {
      ghost var s := State();
      ChainFacts(s, fold, i);
      var behind := chain[sections[i]][m];
      TokenHasLine(s, fold, i, behind);
      var ln := TokenLine(behind);
      var j := PlaceInLine(lines[ln].ids, behind);
      JoinsLine(s, fold, i, m, ln, j, x, t);
      LinkToken(i, m + 1, x, t, LineJoined(lines, ln, j + 1, x));
      assert StandsIn(old(lines), ln, j, behind);
    }

    /** A new line behind the line of the scalar at place `m`. */
    method AddBehind(i: nat, m: nat, x: Id, t: Token)
      requires Valid() && i < |sections| && x == supply && t.kind.Scalar?
      requires SameKind(State(), i, t) && sections[i] in chain && m < |chain[sections[i]]|
      modifies this
      ensures Valid() && dirty == old(dirty) && TokenInserted(State(), old(State()), i, m + 1, x, t)
    {
      ghost var s := State();
      ChainFacts(s, fold, i);
      var behind := chain[sections[i]][m];
      TokenHasLine(s, fold, i, behind);
      var ln := TokenLine(behind);
      ScalarLine(s, fold, i, ln, behind, t);
      ghost var k := BehindTakes(s, fold, i, ln, behind, x);
      var now := lines[..ln + 1] + [Items([x])] + lines[ln + 1..];
      TidyBehind(lines, ln, tokens, t, x);
      LinkToken(i, m + 1, x, t, now);
      assert StandsIn(old(lines), ln, 0, behind) && now == LineBehind(old(lines), ln, Items([x]));
    }

    /** `CfgAddToken`: a section, or a token behind the `where`-th of its name; 0 or, on error, -1. */
    method AddToken(section: string, where: int, id: Option<string>, value: Option<string>, n: int) returns (ret: int)
      requires Valid()
      modifies this
      ensures Valid() && (ret == 0 || ret == -1)
      ensures if ret == 0 then dirty else State() == old(State()) && dirty == old(dirty)
      ensures value.None? ==> ret == 0 && SectionInserted(State(), old(State()), where, section)
      ensures value.Some? ==>
        (ret == 0 <==> exists i: nat ::
           IsSection(old(State()), fold, i, section, n) && SameKind(old(State()), i, NewToken(id, value.value)))
      ensures value.Some? && ret == 0 ==>
        exists i: nat, m: nat :: IsSection(old(State()), fold, i, section, n)
          && Behind(old(State()), fold, i, m, id, where)
          && TokenInserted(State(), old(State()), i, m, old(supply), NewToken(id, value.value))
    {
      if value.None? {
        AddSection(section, where);
        return 0;
      }
      var t := NewToken(id, value.value);
      var count := GetCount(section, id, n);
      var at := if count == -1 then 0 else if where < 0 || where > count then count else where;
      var i := FindSection(section, n);
      if i == |sections| {
        return -1;
      }
      ghost var was := State();
      OnlySection(was, fold, i, section, n);
      ChainFacts(was, fold, i);
      var c := chain[sections[i]];
      if c != [] && tokens[c[0]].kind != t.kind {
        return -1;
      }
      var m := AddItem(i, id, t, at, where);
      assert IsSection(old(State()), fold, i, section, n) && SameKind(old(State()), i, NewToken(id, value.value));
      assert Behind(old(State()), fold, i, m, id, where);
      dirty := true;
      return 0;
    }

    /** The four ways a token gets its place. */
    method AddItem(i: nat, id: Option<string>, t: Token, at: int, ghost where: int) returns (m: nat)
      requires Valid() && i < |sections| && t.kind == IdKind(id) && (id.Some? ==> t.name == id.value)
      requires SameKind(State(), i, t)
      requires var count := TokenCount(State(), fold, i, id);
        count >= 0 && at == if where < 0 || where > count then count else where
      modifies this
      ensures Valid() && dirty == old(dirty) && Behind(old(State()), fold, i, m, id, where)
      ensures TokenInserted(State(), old(State()), i, m, old(supply), t)
    {
      ghost var was := State();
      m := ItemPlace(i, id, at);
      assert Behind(was, fold, i, m, id, where) by {
        BehindThat(was, fold, i, m, id, t, at, where);
      }
      AddAt(i, m, t);
    }

    /** The token becomes the first of its section or stands behind the one at place `m - 1`. */
    method AddAt(i: nat, m: nat, t: Token)
      requires Valid() && i < |sections| && !t.kind.SectionName? && SameKind(State(), i, t)
      requires sections[i] in chain && m <= |chain[sections[i]]|
      modifies this
      ensures Valid() && dirty == old(dirty) && TokenInserted(State(), old(State()), i, m, old(supply), t)
    {
      if m == 0 {
        if chain[sections[i]] == [] || t.kind.Scalar? {
          AddFirst(i, supply, t);
        } else {
          AddInFront(i, supply, t);
        }
      } else if t.kind.Vector? {
        AddInLine(i, m - 1, supply, t);
      } else {
        AddBehind(i, m - 1, supply, t);
      }
    }

    /** Behind the `at`-th token that answers to `id`, or in front. */
    method ItemPlace(i: nat, id: Option<string>, at: int) returns (m: nat)
      requires Valid() && i < |sections|
      ensures var c := chain[sections[i]];
        && m <= |c| && Known(c, tokens)
        && (at <= 0 ==> m == 0)
        && (1 <= at <= Count(c, tokens, fold, IdKey(id, fold)) ==>
              m > 0 && Nth(c, m - 1, IdKey(id, fold), at, tokens, fold))
    {
      ChainFacts(State(), fold, i);
      m := 0;
      if at > 0 {
        var p := FindToken(i, IdKey(id, fold), at);
        if p < |chain[sections[i]]| {
          m := p + 1;
        } else if at <= Count(chain[sections[i]], tokens, fold, IdKey(id, fold)) {
          ghost var q := NthExists(chain[sections[i]], IdKey(id, fold), at, tokens, fold);
        }
      }
    }

    /** `CfgDelToken`. */
    method DelToken(section: string, id: Option<string>, k: int, n: int) returns (ret: int)
      requires Valid()
      modifies this
      ensures Valid() && (ret == 0 || ret == -1)
      ensures if ret == 0 then dirty else State() == old(State()) && dirty == old(dirty)
      ensures ret == 0 <==> exists i: nat, p: nat :: Asked(old(State()), fold, i, p, section, n, id, k)
      ensures forall i: nat, p: nat :: Asked(old(State()), fold, i, p, section, n, id, k) ==>
                TokenDeleted(State(), old(State()), i, p)
    {
      ghost var was := State();
      var i := FindSection(section, n);
      if i == |sections| {
        return -1;
      }
      OnlySection(was, fold, i, section, n);
      ChainFacts(was, fold, i);
      var m := FindToken(i, IdKey(id, fold), k);
      if m == |chain[sections[i]]| {
        return -1;
      }
      forall j: nat, p: nat | Asked(was, fold, j, p, section, n, id, k)
        ensures j == i && p == m
      {
        NthOnce(chain[sections[i]], m, p, IdKey(id, fold), k, tokens, fold);
      }
      assert Asked(old(State()), fold, i, m, section, n, id, k);
      UnlinkToken(i, m);
      dirty := true;
      return 0;
    }

    /** Take the token out of its line and its chain and let its followers move up. */
    method UnlinkToken(i: nat, m: nat)
      requires Valid() && i < |sections| && sections[i] in chain && m < |chain[sections[i]]|
      modifies this
      ensures Valid() && dirty == old(dirty) && TokenDeleted(State(), old(State()), i, m)
    {
      var ln, j := LineOfToken(i, m);
      var now := Cut(lines, ln, j);
      ghost var next := IndexWithoutToken(i, m, now);
      var c := chain[sections[i]];
      lines, chain := now, chain[sections[i] := c[..m] + c[m + 1..]];
      assert StandsIn(old(lines), ln, j, c[m]);
    }

    /** Where the token at place `m` of the section stands in the line list. */
    method LineOfToken(i: nat, m: nat) returns (ln: nat, j: nat)
      requires Valid() && i < |sections| && sections[i] in chain && m < |chain[sections[i]]|
      ensures ln < |lines| && lines[ln].Items? && j < |lines[ln].ids| && lines[ln].ids[j] == chain[sections[i]][m]
      ensures Drops(Cut(lines, ln, j), State(), i, m) && Tidy(Cut(lines, ln, j), tokens, supply)
    {
      ghost var s := State();
      ChainFacts(s, fold, i);
      var c := chain[sections[i]];
      TokenHasLine(s, fold, i, c[m]);
      ln := TokenLine(c[m]);
      j := PlaceInLine(lines[ln].ids, c[m]);
      ghost var k := CutDrops(s, fold, i, ln, j);
      LineKinds(s, fold, i, ln, c[m]);
      CutTidy(lines, tokens, supply, ln, j);
      AllBut(c, m, k);
    }

    method IndexWithoutToken(i: nat, m: nat, now: seq<Line>) returns (ghost next: Store)
      requires Valid() && i < |sections| && sections[i] in chain && m < |chain[sections[i]]|
      requires Drops(now, State(), i, m) && Tidy(now, tokens, supply)
      modifies `index
      ensures next == WithoutToken(old(State()), i, m, now, index) && Good(next, fold)
    {
      ghost var was := State();
      var c := chain[sections[i]];
      assert Known(c, tokens) && Distinct(c[m + 1..]) && Known(c[m + 1..], tokens)
        && forall y :: y in c[m + 1..] ==> y in index by {
        ChainFacts(was, fold, i);
        ChainParts(was, fold, i, m + 1);
      }
      Bump(c[m + 1..], KeyOf(tokens[c[m]], fold), -1);
      next := TokenGone(was, fold, i, m, now, index);
    }

    /** `CfgSetValue`. */
    method SetValue(section: string, id: Option<string>, value: string, k: int, n: int) returns (ret: int)
      requires Valid()
      modifies this
      ensures Valid() && (ret == 0 || ret == -1)
      ensures ret == 0 <==> exists i: nat, p: nat :: Asked(old(State()), fold, i, p, section, n, id, k)
      ensures ret == -1 ==> State() == old(State())
      ensures dirty == (old(dirty) || State() != old(State()))
      ensures forall i: nat, p: nat :: Asked(old(State()), fold, i, p, section, n, id, k) ==>
        var x := old(chain)[old(sections)[i]][p];
        State() == if fold(old(tokens)[x].value) == fold(value) then old(State())
                   else old(State()).(tokens := old(tokens)[x := old(tokens)[x].(value := value)])
    {
      ghost var was := State();
      var i := FindSection(section, n);
      if i == |sections| {
        return -1;
      }
      OnlySection(was, fold, i, section, n);
      ChainFacts(was, fold, i);
      var m := FindToken(i, IdKey(id, fold), k);
      if m == |chain[sections[i]]| {
        return -1;
      }
      forall j: nat, p: nat | Asked(was, fold, j, p, section, n, id, k)
        ensures j == i && p == m
      {
        NthOnce(chain[sections[i]], m, p, IdKey(id, fold), k, tokens, fold);
      }
      assert Asked(old(State()), fold, i, m, section, n, id, k);
      var x := chain[sections[i]][m];
      if fold(tokens[x].value) != fold(value) {
        ValueSet(was, fold, x, value);
        tokens := tokens[x := tokens[x].(value := value)];
        dirty := true;
      }
      return 0;
    }

    /** The lines a section takes with it: the remarks before its header, and all up to its last token. */
    method SectionLines(i: nat) returns (p: nat, h: nat, e: nat)
      requires Valid() && i < |sections|
      ensures p <= h < e <= |lines| && lines[h] == Header(sections[i])
      ensures Quiet(lines[p..h]) && Blocks(lines[h + 1..e]) == [] && Lead(lines[e..]) == []
      ensures RemarksFrom(lines, p, h) && LastIs(lines, h, e)
    {
      h := HeaderLine(sections[i]);
      p := BeforeRemarks(h);
      HeaderPlace(lines, h, i);
      var next := NextHeader(i);
      BetweenHeaders(lines, h, next, i);
      NoHeaders(lines, h, next);
      e := LastOfSection(h, next);
      assert RestIs(lines, e, next);
    }

    method NextHeader(i: nat) returns (e: nat)
      requires Valid() && i < |sections|
      ensures e <= |lines| && Lead(lines[e..]) == [] && |Blocks(lines[..e])| == i + 1
      ensures e == |lines| || lines[e].Header?
    {
      e := |lines|;
      if i + 1 < |sections| {
        e := HeaderLine(sections[i + 1]);
        HeaderPlace(lines, e, i + 1);
      } else {
        assert lines[..e] == lines && lines[e..] == [];
      }
    }

    method BeforeRemarks(h: nat) returns (p: nat)
      requires h <= |lines|
      ensures p <= h && Quiet(lines[p..h]) && (p == 0 || !lines[p - 1].Remark?)
    {
      p := h;
      while p > 0 && lines[p - 1].Remark?
        invariant p <= h && Quiet(lines[p..h])
      {
        assert lines[p - 1..h] == [lines[p - 1]] + lines[p..h];
        p := p - 1;
      }
    }

    method LastOfSection(h: nat, next: nat) returns (e: nat)
      requires h < next <= |lines| && Blocks(lines[h + 1..next]) == [] && Lead(lines[next..]) == []
      ensures h < e <= next && Blocks(lines[h + 1..e]) == [] && Lead(lines[e..]) == []
      ensures (e == h + 1 || !lines[e - 1].Remark?) && Quiet(lines[e..next])
    {
      e := next;
      assert lines[e..next] == [];
      while e > h + 1 && lines[e - 1].Remark?
        invariant h < e <= next && Blocks(lines[h + 1..e]) == [] && Lead(lines[e..]) == [] && Quiet(lines[e..next])
      {
        assert lines[e - 1..next] == [lines[e - 1]] + lines[e..next];
        RemarkBefore(lines, e);
        assert lines[h + 1..e] == lines[h + 1..e - 1] + [lines[e - 1]];
        QuietEnd(lines[h + 1..e - 1], [lines[e - 1]]);
        e := e - 1;
      }
    }

    /** Indices above `k` of tokens with the key go down by one. */
    method CloseGap(ids: seq<Id>, key: Key, k: int)
      requires Distinct(ids) && Known(ids, tokens) && forall y :: y in ids ==> y in index
      modifies `index
      ensures Closed(index, old(index), ids, tokens, fold, key, k)
    {
      var j := 0;
      while j < |ids|
        invariant j <= |ids| && Closed(index, old(index), ids[..j], tokens, fold, key, k)
      {
        assert ids[j] !in ids[..j];
        if KeyOf(tokens[ids[j]], fold) == key && index[ids[j]] > k {
          index := index[ids[j] := index[ids[j]] - 1];
        }
        assert ids[..j + 1] == ids[..j] + [ids[j]];
        j := j + 1;
      }
      assert ids[..j] == ids;
    }

    /** `CfgDelSection`. */
    method DelSection(section: string, n: int) returns (ret: int)
      requires Valid()
      modifies this
      ensures Valid() && (ret == 0 || ret == -1)
      ensures ret == 0 <==> exists i: nat :: IsSection(old(State()), fold, i, section, n)
      ensures if ret == 0 then dirty else State() == old(State()) && dirty == old(dirty)
      ensures forall i: nat :: IsSection(old(State()), fold, i, section, n) ==>
        && sections == old(sections)[..i] + old(sections)[i + 1..]
        && chain == old(chain) - {old(sections)[i]} && tokens == old(tokens)
        && SectionCut(lines, old(lines), old(sections)[i])
    {
      ghost var was := State();
      var i := FindSection(section, n);
      if i == |sections| {
        return -1;
      }
      assert IsSection(old(State()), fold, i, section, n);
      OnlySection(was, fold, i, section, n);
      var p, h, e := SectionLines(i);
      assert SectionAt(lines, sections[i], p, h, e);
      UnlinkSection(i, p, h, e, Named(fold(section)), n);
      assert SectionCut(lines, old(lines), old(sections)[i]);
      dirty := true;
      return 0;
    }

    method UnlinkSection(i: nat, p: nat, h: nat, e: nat, key: Key, n: int)
      requires Valid() && i < |sections| && Known(sections, tokens) && Nth(sections, i, key, n, tokens, fold)
      requires p <= h < e <= |lines| && lines[h] == Header(sections[i])
      requires Quiet(lines[p..h]) && Blocks(lines[h + 1..e]) == [] && Lead(lines[e..]) == []
      modifies this
      ensures Valid() && dirty == old(dirty)
      ensures sections == old(sections)[..i] + old(sections)[i + 1..]
      ensures chain == old(chain) - {old(sections)[i]} && tokens == old(tokens)
      ensures lines == old(lines)[..p] + old(lines)[e..]
    {
      ghost var next := IndexWithoutSection(i, p, h, e, key, n);
      lines, sections, chain := lines[..p] + lines[e..], sections[..i] + sections[i + 1..], chain - {sections[i]};
    }

    method IndexWithoutSection(i: nat, p: nat, h: nat, e: nat, key: Key, n: int) returns (ghost next: Store)
      requires Valid() && i < |sections| && Known(sections, tokens) && Nth(sections, i, key, n, tokens, fold)
      requires p <= h < e <= |lines| && lines[h] == Header(sections[i])
      requires Quiet(lines[p..h]) && Blocks(lines[h + 1..e]) == [] && Lead(lines[e..]) == []
      modifies `index
      ensures next == WithoutSection(old(State()), i, p, e, index) && Good(next, fold)
    {
      ghost var was := State();
      var rest := sections[..i] + sections[i + 1..];
      assert Distinct(rest) && Known(rest, tokens) && forall y :: y in rest ==> y in index by {
        RestOfSections(was, fold, i);
      }
      CloseGap(rest, key, n);
      next := SectionGone(was, fold, i, p, h, e, key, n, index);
    }
  }

  /** The section array cut where the line list is cut. */
  lemma SplitSections(s: Store, fold: Fold, p: nat, w: nat)
    requires Good(s, fold) && p <= |s.lines| && Lead(s.lines[p..]) == [] && |Blocks(s.lines[..p])| == w
    ensures var pre, post := Blocks(s.lines[..p]), Blocks(s.lines[p..]);
      && Blocks(s.lines) == pre + post && w <= |s.sections|
      && s.sections[..w] == Headers(pre) && s.sections[w..] == Headers(post)
      && Known(s.sections[..w], s.tokens) && Ranked(s.sections[..w], s.tokens, fold, s.index)
      && Known(s.sections[w..], s.tokens) && Distinct(s.sections[w..])
      && forall y :: y in s.sections[w..] ==> y in s.index
  {
    var pre, post := Blocks(s.lines[..p]), Blocks(s.lines[p..]);
    assert s.lines == s.lines[..p] + s.lines[p..];
    BlocksJoin(s.lines[..p], s.lines[p..]);
    ExtendNothing(pre);
    HeadersJoin(pre, post);
    RankedParts(s.sections, w, s.tokens, fold, s.index);
    HeadersDistinct(pre + post);
    DistinctParts(Headers(pre), Headers(post));
  }

  lemma SectionParts(s: Store, fold: Fold, p: nat, w: nat)
    requires Good(s, fold) && p <= |s.lines| && Lead(s.lines[p..]) == [] && |Blocks(s.lines[..p])| == w <= |s.sections|
    ensures Known(s.sections[..w], s.tokens) && Ranked(s.sections[..w], s.tokens, fold, s.index)
    ensures Known(s.sections[w..], s.tokens) && Distinct(s.sections[w..])
    ensures forall y :: y in s.sections[w..] ==> y in s.index
    ensures forall y :: y in s.index ==> y < s.supply
  {
    SplitSections(s, fold, p, w);
  }

  lemma RankedParts(ids: seq<Id>, w: nat, tokens: Tokens, fold: Fold, index: map<Id, int>)
    requires Known(ids, tokens) && Ranked(ids, tokens, fold, index) && w <= |ids|
    ensures Known(ids[..w], tokens) && Ranked(ids[..w], tokens, fold, index)
    ensures Known(ids[w..], tokens) && forall y :: y in ids[w..] ==> y in index
  {
    forall i | 0 <= i < w
      ensures RankedAt(ids[..w], i, tokens, fold, index)
    {
      assert RankedAt(ids, i, tokens, fold, index);
      assert ids[..w][..i] == ids[..i];
    }
    forall i | w <= i < |ids|
      ensures ids[i] in index
    {
      assert RankedAt(ids, i, tokens, fold, index);
    }
  }

  lemma HeadersDistinct(blocks: seq<Block>)
    requires Distinct(Flat(blocks))
    ensures Distinct(Headers(blocks))
  {
    forall i, j | 0 <= i < j < |blocks|
      ensures blocks[i].section != blocks[j].section
    {
      if blocks[i].section == blocks[j].section {
        OneHome(blocks, i, j, blocks[i].section);
      }
    }
  }

  function WithSection(s: Store, p: nat, w: nat, t: Token, now: map<Id, int>): Store
    requires p <= |s.lines| && w <= |s.sections|
  {
    var x := s.supply;
    Store(s.lines[..p] + [Header(x)] + s.lines[p..], s.sections[..w] + [x] + s.sections[w..],
                 s.chain[x := []], s.tokens[x := t], now, x + 1)
  }

  lemma SectionAdded(s: Store, fold: Fold, p: nat, w: nat, t: Token, now: map<Id, int>) returns (next: Store)
    requires Good(s, fold) && p <= |s.lines| && Lead(s.lines[p..]) == [] && |Blocks(s.lines[..p])| == w <= |s.sections|
    requires t.kind.SectionName? && Bumped(now, s.index, s.sections[w..], s.tokens, fold, KeyOf(t, fold), 1)
    requires Known(s.sections[..w], s.tokens) && s.supply in now && forall y :: y in now ==> y <= s.supply
    requires now[s.supply] == Count(s.sections[..w], s.tokens, fold, KeyOf(t, fold)) + 1
    ensures next == WithSection(s, p, w, t, now) && Good(next, fold)
  {
    next := WithSection(s, p, w, t, now);
    var x, a, b := s.supply, s.lines[..p], s.lines[p..];
    var pre, post := Blocks(a), Blocks(b);
    assert s.lines == a + b;
    SplitSections(s, fold, p, w);
    InsertHeader(a, x, b);
    AddSection(pre, x, post, t, s.tokens, fold, s.index, now);
    HeadersAround(pre, Block(x, []), post);
    ChainGrows(s, fold, pre, Block(x, []), post);
    TidyGrows(a, Header(x), b, s.tokens, t, x);
  }

  /** Chains of the other sections stay. */
  lemma ChainGrows(s: Store, fold: Fold, pre: seq<Block>, c: Block, post: seq<Block>)
    requires Good(s, fold) && Blocks(s.lines) == pre + post && c.section == s.supply
    ensures var after, chain := pre + [c] + post, s.chain[c.section := c.ids];
      forall i :: 0 <= i < |after| ==> after[i].section in chain && chain[after[i].section] == after[i].ids
  {
    var before, after := pre + post, pre + [c] + post;
    HeadersInFlat(before);
    NewIsNew(Flat(before), s.supply);
    forall i | 0 <= i < |after| && i != |pre|
      ensures after[i].section in s.chain && s.chain[after[i].section] == after[i].ids && after[i].section != c.section
    {
      var j := if i < |pre| then i else i - 1;
      assert after[i] == before[j] && s.sections[j] == before[j].section;
    }
  }

  lemma TidyBehind(lines: seq<Line>, ln: nat, tokens: Tokens, t: Token, x: Id)
    requires Tidy(lines, tokens, x) && ln < |lines| && TidyLine(Items([x]), tokens[x := t], x + 1)
    ensures Tidy(lines[..ln + 1] + [Items([x])] + lines[ln + 1..], tokens[x := t], x + 1)
  {
    assert lines[..ln + 1] + lines[ln + 1..] == lines;
    TidyGrows(lines[..ln + 1], Items([x]), lines[ln + 1..], tokens, t, x);
  }

  lemma TidyGrows(a: seq<Line>, l: Line, b: seq<Line>, tokens: Tokens, t: Token, x: Id)
    requires Tidy(a + b, tokens, x) && TidyLine(l, tokens[x := t], x + 1)
    ensures Tidy(a + [l] + b, tokens[x := t], x + 1)
  {
    forall i | 0 <= i < |a + [l] + b| && i != |a|
      ensures TidyLine((a + [l] + b)[i], tokens[x := t], x + 1)
    {
      var j := if i < |a| then i else i - 1;
      assert (a + [l] + b)[i] == (a + b)[j];
      TidyKept((a + b)[j], tokens, t, x);
    }
  }

  lemma TidyKept(l: Line, tokens: Tokens, t: Token, x: Id)
    requires TidyLine(l, tokens, x)
    ensures TidyLine(l, tokens[x := t], x + 1)
  {}

  lemma {:induction false} HeaderExists(lines: seq<Line>, s: Id)
    requires s in Headers(Blocks(lines))
    ensures exists q :: 0 <= q < |lines| && lines[q] == Header(s)
    decreases |lines|
  {
    if lines != [] {
      if lines[0] != Header(s) {
        var i :| 0 <= i < |Blocks(lines)| && Headers(Blocks(lines))[i] == s;
        var j := if lines[0].Header? then i - 1 else i;
        assert Headers(Blocks(lines[1..]))[j] == s;
        HeaderExists(lines[1..], s);
        var q :| 0 <= q < |lines[1..]| && lines[1..][q] == Header(s);
        assert lines[q + 1] == Header(s);
      }
    }
  }

  /** The `w`-th header has `w` sections before it. */
  lemma HeaderPlace(lines: seq<Line>, q: nat, w: nat)
    requires q < |lines| && w < |Blocks(lines)| && lines[q] == Header(Blocks(lines)[w].section)
    requires Distinct(Flat(Blocks(lines)))
    ensures Lead(lines[q..]) == [] && |Blocks(lines[..q])| == w
  {
    var a, s, b := lines[..q], Blocks(lines)[w].section, lines[q + 1..];
    assert lines == a + [Header(s)] + b;
    AtHeader(a, s, b);
    assert Blocks(lines)[|Blocks(a)|].section == s;
    OneHome(Blocks(lines), w, |Blocks(a)|, s);
    assert lines[q..] == [Header(s)] + b;
  }

  lemma RemarkBefore(lines: seq<Line>, p: nat)
    requires 0 < p <= |lines| && lines[p - 1].Remark?
    ensures Lead(lines[p - 1..]) == Lead(lines[p..]) && Blocks(lines[..p - 1]) == Blocks(lines[..p])
  {
    assert lines[p - 1..][1..] == lines[p..];
    assert lines[..p] == lines[..p - 1] + [lines[p - 1]];
    QuietEnd(lines[..p - 1], [lines[p - 1]]);
  }

  /** The chain of a section is its block of the line list. */
  lemma ChainFacts(s: Store, fold: Fold, i: nat)
    requires Good(s, fold) && i < |s.sections|
    ensures s.sections[i] in s.chain
    ensures var c := s.chain[s.sections[i]];
      && Blocks(s.lines)[i] == Block(s.sections[i], c)
      && Known(c, s.tokens) && Ranked(c, s.tokens, fold, s.index) && Distinct(c)
      && SaneBlock(Blocks(s.lines)[i], s.tokens, fold, s.index)
      && forall y :: y in c ==> y < s.supply
  {
    var all := Blocks(s.lines);
    assert SaneBlock(all[i], s.tokens, fold, s.index);
    assert all == all[..i] + [all[i]] + all[i + 1..];
    PartsApart(all[..i], all[i], all[i + 1..]);
    HeadersInFlat(all);
    assert forall y :: y in all[i].ids ==> y in Flat(all);
  }

  lemma ChainParts(s: Store, fold: Fold, i: nat, m: nat)
    requires Good(s, fold) && i < |s.sections| && s.sections[i] in s.chain && m <= |s.chain[s.sections[i]]|
    ensures var c := s.chain[s.sections[i]];
      && Known(c[..m], s.tokens) && Ranked(c[..m], s.tokens, fold, s.index)
      && Known(c[m..], s.tokens) && Distinct(c[m..]) && (forall y :: y in c[m..] ==> y in s.index)
      && forall y :: y in s.index ==> y < s.supply
  {
    var c := s.chain[s.sections[i]];
    ChainFacts(s, fold, i);
    RankedParts(c, m, s.tokens, fold, s.index);
    assert c == c[..m] + c[m..];
    DistinctParts(c[..m], c[m..]);
  }

  lemma TokenAdded(s: Store, fold: Fold, i: nat, m: nat, t: Token, lines: seq<Line>, now: map<Id, int>)
    requires Good(s, fold) && i < |s.sections| && s.sections[i] in s.chain && m <= |s.chain[s.sections[i]]|
    requires var c := s.chain[s.sections[i]];
      && !t.kind.SectionName? && (c != [] ==> c[0] in s.tokens && t.kind == s.tokens[c[0]].kind)
      && Takes(lines, s, i, m, s.supply) && Tidy(lines, s.tokens[s.supply := t], s.supply + 1)
      && Bumped(now, s.index, c[m..], s.tokens, fold, KeyOf(t, fold), 1)
      && Known(c[..m], s.tokens) && s.supply in now && (forall y :: y in now ==> y <= s.supply)
      && now[s.supply] == Count(c[..m], s.tokens, fold, KeyOf(t, fold)) + 1
    ensures var x, c := s.supply, s.chain[s.sections[i]];
      Good(Store(lines, s.sections, s.chain[s.sections[i] := c[..m] + [x] + c[m..]], s.tokens[x := t], now, x + 1),
        fold)
  {
    var c := s.chain[s.sections[i]];
    ChainFacts(s, fold, i);
    BlockTakes(Blocks(s.lines), i, m, s.supply, t, s.tokens, fold, s.index, now);
    Relinked(s, fold, i, c[..m] + [s.supply] + c[m..]);
  }

  lemma BlockTakes(all: seq<Block>, i: nat, m: nat, x: Id, t: Token, tokens: Tokens, fold: Fold,
                   was: map<Id, int>, now: map<Id, int>)
    requires i < |all| && m <= |all[i].ids| && Sane(all, tokens, fold, was, x) && (forall y :: y in was ==> y < x)
    requires Known(all[i].ids, tokens) && !t.kind.SectionName?
    requires all[i].ids != [] ==> t.kind == tokens[all[i].ids[0]].kind
    requires Bumped(now, was, all[i].ids[m..], tokens, fold, KeyOf(t, fold), 1)
    requires x in now && now[x] == Count(all[i].ids[..m], tokens, fold, KeyOf(t, fold)) + 1
    ensures var c := all[i].ids;
      Sane(all[i := Block(all[i].section, c[..m] + [x] + c[m..])], tokens[x := t], fold, now, x + 1)
  {
    var pre, sec, c, post := all[..i], all[i].section, all[i].ids, all[i + 1..];
    assert c == c[..m] + c[m..];
    assert all == pre + [Block(sec, c[..m] + c[m..])] + post;
    AddToken(pre, sec, c[..m], c[m..], post, x, t, tokens, fold, was, now);
    ReplaceAt(pre, Block(sec, c), Block(sec, c[..m] + [x] + c[m..]), post);
  }

  /** Changing one chain with its block keeps arrays and chains in step with the lines. */
  lemma Relinked(s: Store, fold: Fold, i: nat, ids: seq<Id>)
    requires Good(s, fold) && i < |s.sections|
    ensures var all := Blocks(s.lines)[i := Block(s.sections[i], ids)];
      && s.sections == Headers(all)
      && forall j :: 0 <= j < |all| ==>
           && s.sections[j] in s.chain[s.sections[i] := ids]
           && s.chain[s.sections[i] := ids][s.sections[j]] == all[j].ids
  {
    HeadersDistinct(Blocks(s.lines));
    var all := Blocks(s.lines)[i := Block(s.sections[i], ids)];
    assert Headers(all) == Headers(Blocks(s.lines));
  }

  lemma TokenHasLine(s: Store, fold: Fold, i: nat, t: Id)
    requires Good(s, fold) && i < |s.sections| && t in Blocks(s.lines)[i].ids
    ensures exists q :: 0 <= q < |s.lines| && s.lines[q].Items? && t in s.lines[q].ids
  {
    var q := BlockLine(s.lines, i, t);
  }

  lemma {:induction false} BlockLine(lines: seq<Line>, i: nat, t: Id) returns (q: nat)
    requires i < |Blocks(lines)| && t in Blocks(lines)[i].ids
    ensures q < |lines| && lines[q].Items? && t in lines[q].ids
    decreases |lines|
  {
    if lines[0].Header? && i == 0 {
      q := LeadLine(lines[1..], t);
    } else {
      q := BlockLine(lines[1..], if lines[0].Header? then i - 1 else i, t);
    }
    q := q + 1;
  }

  lemma {:induction false} LeadLine(lines: seq<Line>, t: Id) returns (q: nat)
    requires t in Lead(lines)
    ensures q < |lines| && lines[q].Items? && t in lines[q].ids
    decreases |lines|
  {
    if lines[0].Items? && t in lines[0].ids {
      q := 0;
    } else {
      q := LeadLine(lines[1..], t);
      q := q + 1;
    }
  }

  lemma FirstInLine(c: seq<Id>, w: seq<Id>, k: nat)
    requires Distinct(c) && k + |w| <= |c| && c[k..k + |w|] == w && c != [] && c[0] in w
    ensures k == 0
  {
    var j :| 0 <= j < |w| && w[j] == c[0];
    assert c[k + j] == w[j];
  }

  lemma SamePlace(c: seq<Id>, w: seq<Id>, k: nat, j: nat, m: nat)
    requires Distinct(c) && k + |w| <= |c| && c[k..k + |w|] == w && j < |w| && m < |c| && w[j] == c[m]
    ensures k + j == m
  {
    assert c[k + j] == w[j];
  }

  /** Kinds in a line are kinds in the section. */
  lemma LineKind(s: Store, fold: Fold, i: nat, ln: nat, y: Id)
    requires Good(s, fold) && i < |s.sections| && ln < |s.lines| && s.lines[ln].Items?
    requires y in s.lines[ln].ids && y in Blocks(s.lines)[i].ids
    ensures s.lines[ln].ids[0] in s.tokens && y in s.tokens
    ensures s.tokens[s.lines[ln].ids[0]].kind == s.tokens[Blocks(s.lines)[i].ids[0]].kind
  {
    ChainFacts(s, fold, i);
    var k := LinePart(s, fold, i, ln, y);
    var w, c := s.lines[ln].ids, Blocks(s.lines)[i].ids;
    assert c[k] == w[0];
  }

  lemma LineKinds(s: Store, fold: Fold, i: nat, ln: nat, y: Id)
    requires Good(s, fold) && i < |s.sections| && ln < |s.lines| && s.lines[ln].Items?
    requires y in s.lines[ln].ids && y in Blocks(s.lines)[i].ids
    ensures forall z :: z in s.lines[ln].ids ==>
              z in s.tokens && s.tokens[z].kind == s.tokens[s.lines[ln].ids[0]].kind
  {
    ChainFacts(s, fold, i);
    var k := LinePart(s, fold, i, ln, y);
    var w, c := s.lines[ln].ids, Blocks(s.lines)[i].ids;
    forall j | 0 <= j < |w|
      ensures c[k + j] == w[j]
    {}
  }

  lemma VectorLine(s: Store, fold: Fold, i: nat, ln: nat, j: nat, x: Id, t: Token)
    requires Good(s, fold) && i < |s.sections| && ln < |s.lines| && s.lines[ln].Items? && j <= |s.lines[ln].ids|
    requires x == s.supply && t.kind.Vector?
    requires exists y :: y in s.lines[ln].ids && y in Blocks(s.lines)[i].ids
    requires Blocks(s.lines)[i].ids != [] && Blocks(s.lines)[i].ids[0] in s.tokens
    requires s.tokens[Blocks(s.lines)[i].ids[0]].kind.Vector?
    ensures var w := s.lines[ln].ids;
      Tidy(s.lines[ln := Items(w[..j] + [x] + w[j..])], s.tokens[x := t], x + 1)
  {
    var w := s.lines[ln].ids;
    var y :| y in w && y in Blocks(s.lines)[i].ids;
    LineKind(s, fold, i, ln, y);
    var now, more := s.lines[ln := Items(w[..j] + [x] + w[j..])], s.tokens[x := t];
    assert TidyLine(s.lines[ln], s.tokens, x);
    forall q | 0 <= q < |now|
      ensures TidyLine(now[q], more, x + 1)
    {
      if q != ln {
        TidyKept(s.lines[q], s.tokens, t, x);
      }
    }
  }

  lemma JoinsLine(s: Store, fold: Fold, i: nat, m: nat, ln: nat, j: nat, x: Id, t: Token)
    requires Good(s, fold) && i < |s.sections| && m < |Blocks(s.lines)[i].ids|
    requires ln < |s.lines| && s.lines[ln].Items? && j < |s.lines[ln].ids|
    requires s.lines[ln].ids[j] == Blocks(s.lines)[i].ids[m]
    requires x == s.supply && t.kind.Vector? && SameKind(s, i, t)
    ensures var w := s.lines[ln].ids;
      var now := s.lines[ln := Items(w[..j + 1] + [x] + w[j + 1..])];
      Takes(now, s, i, m + 1, x) && Tidy(now, s.tokens[x := t], x + 1)
  {
    JoinsPlace(s, fold, i, m, ln, j, x);
    ChainFacts(s, fold, i);
    assert s.lines[ln].ids[j] in s.lines[ln].ids && s.lines[ln].ids[j] in Blocks(s.lines)[i].ids;
    VectorLine(s, fold, i, ln, j + 1, x, t);
  }

  lemma JoinsPlace(s: Store, fold: Fold, i: nat, m: nat, ln: nat, j: nat, x: Id)
    requires Good(s, fold) && i < |s.sections| && m < |Blocks(s.lines)[i].ids|
    requires ln < |s.lines| && s.lines[ln].Items? && j < |s.lines[ln].ids|
    requires s.lines[ln].ids[j] == Blocks(s.lines)[i].ids[m]
    ensures var w := s.lines[ln].ids; Takes(s.lines[ln := Items(w[..j + 1] + [x] + w[j + 1..])], s, i, m + 1, x)
  {
    var c, w := Blocks(s.lines)[i].ids, s.lines[ln].ids;
    assert Distinct(c) && w[j] in w && w[j] in c by {
      ChainFacts(s, fold, i);
    }
    var k := InLineTakes(s, fold, i, ln, j + 1, w[j], x);
    SamePlace(c, w, k, j, m);
    assert k + (j + 1) == m + 1;
  }

  lemma ScalarLine(s: Store, fold: Fold, i: nat, ln: nat, y: Id, t: Token)
    requires Good(s, fold) && i < |s.sections| && ln < |s.lines| && s.lines[ln].Items?
    requires y in s.lines[ln].ids && y in Blocks(s.lines)[i].ids && SameKind(s, i, t) && t.kind.Scalar?
    ensures s.lines[ln] == Items([y])
  {
    LineKind(s, fold, i, ln, y);
    ChainFacts(s, fold, i);
    assert TidyLine(s.lines[ln], s.tokens, s.supply);
    assert |s.lines[ln].ids| == 1;
    assert s.lines[ln].ids == [s.lines[ln].ids[0]];
  }

  // ----- Deleting -----

  lemma AllBut(c: seq<Id>, m: nat, k: nat)
    requires Distinct(c) && m < |c| && k < |c| && c[k] == c[m]
    ensures k == m && Distinct(c[m + 1..]) && c == c[..m] + [c[m]] + c[m + 1..]
  {
    assert c == c[..m + 1] + c[m + 1..];
    DistinctParts(c[..m + 1], c[m + 1..]);
  }

  lemma CutTidy(lines: seq<Line>, tokens: Tokens, supply: nat, ln: nat, j: nat)
    requires Tidy(lines, tokens, supply) && ln < |lines| && lines[ln].Items? && j < |lines[ln].ids|
    requires forall y, z :: y in lines[ln].ids && z in lines[ln].ids && y in tokens && z in tokens ==>
               tokens[y].kind == tokens[z].kind
    ensures Tidy(Cut(lines, ln, j), tokens, supply)
  {
    var w, now := lines[ln].ids, Cut(lines, ln, j);
    assert TidyLine(lines[ln], tokens, supply);
    forall q | 0 <= q < |now|
      ensures TidyLine(now[q], tokens, supply)
    {
      if |w| == 1 {
        assert now[q] == lines[if q < ln then q else q + 1];
      } else if q == ln {
        var rest := w[..j] + w[j + 1..];
        assert forall i :: 0 <= i < |rest| ==> rest[i] == w[if i < j then i else i + 1];
      } else {
        assert now[q] == lines[q];
      }
    }
  }

  function WithoutToken(s: Store, i: nat, m: nat, lines: seq<Line>, now: map<Id, int>): Store
    requires i < |s.sections| && s.sections[i] in s.chain && m < |s.chain[s.sections[i]]|
  {
    var c := s.chain[s.sections[i]];
    Store(lines, s.sections, s.chain[s.sections[i] := c[..m] + c[m + 1..]], s.tokens, now, s.supply)
  }

  lemma TokenGone(s: Store, fold: Fold, i: nat, m: nat, lines: seq<Line>, now: map<Id, int>) returns (next: Store)
    requires Good(s, fold) && i < |s.sections| && s.sections[i] in s.chain && m < |s.chain[s.sections[i]]|
    requires var c := s.chain[s.sections[i]];
      && Drops(lines, s, i, m) && Tidy(lines, s.tokens, s.supply) && c[m] in s.tokens
      && Bumped(now, s.index, c[m + 1..], s.tokens, fold, KeyOf(s.tokens[c[m]], fold), -1)
      && forall y :: y in now ==> y < s.supply
    ensures next == WithoutToken(s, i, m, lines, now) && Good(next, fold)
  {
    next := WithoutToken(s, i, m, lines, now);
    var c := s.chain[s.sections[i]];
    ChainFacts(s, fold, i);
    BlockDrops(Blocks(s.lines), i, m, s.tokens, fold, s.index, now, s.supply);
    Relinked(s, fold, i, c[..m] + c[m + 1..]);
  }

  lemma BlockDrops(all: seq<Block>, i: nat, m: nat, tokens: Tokens, fold: Fold, was: map<Id, int>, now: map<Id, int>,
                   supply: nat)
    requires i < |all| && m < |all[i].ids| && Sane(all, tokens, fold, was, supply) && all[i].ids[m] in tokens
    requires Bumped(now, was, all[i].ids[m + 1..], tokens, fold, KeyOf(tokens[all[i].ids[m]], fold), -1)
    ensures var c := all[i].ids;
      Sane(all[i := Block(all[i].section, c[..m] + c[m + 1..])], tokens, fold, now, supply)
  {
    var pre, sec, c, post := all[..i], all[i].section, all[i].ids, all[i + 1..];
    assert c == c[..m] + [c[m]] + c[m + 1..];
    assert all == pre + [Block(sec, c[..m] + [c[m]] + c[m + 1..])] + post;
    DeleteToken(pre, sec, c[..m], c[m], c[m + 1..], post, tokens, fold, was, now, supply);
    ReplaceAt(pre, Block(sec, c), Block(sec, c[..m] + c[m + 1..]), post);
  }

  /** Values are nobody's business but the caller's. */
  lemma ValueSet(s: Store, fold: Fold, x: Id, value: string)
    requires Good(s, fold) && x in s.tokens
    ensures Good(s.(tokens := s.tokens[x := s.tokens[x].(value := value)]), fold)
  {
    var more, all := s.tokens[x := s.tokens[x].(value := value)], Blocks(s.lines);
    RankSame(Headers(all), s.tokens, more, fold, s.index, s.index);
    forall i | 0 <= i < |all|
      ensures SaneBlock(all[i], more, fold, s.index)
    {
      assert SaneBlock(all[i], s.tokens, fold, s.index);
      RankSame(all[i].ids, s.tokens, more, fold, s.index, s.index);
    }
    forall q | 0 <= q < |s.lines|
      ensures TidyLine(s.lines[q], more, s.supply)
    {
      assert TidyLine(s.lines[q], s.tokens, s.supply);
    }
  }

  lemma PrefixSections(lines: seq<Line>, e: nat, h: nat)
    requires e <= |lines| && h <= |lines|
    ensures e <= h ==> |Blocks(lines[..e])| <= |Blocks(lines[..h])|
  {
    if e <= h {
      assert lines[..h] == lines[..e] + lines[e..h];
      BlocksJoin(lines[..e], lines[e..h]);
    }
  }

  lemma BetweenHeaders(lines: seq<Line>, h: nat, e: nat, i: nat)
    requires h < |lines| && e <= |lines| && lines[h].Header?
    requires |Blocks(lines[..h])| == i && |Blocks(lines[..e])| == i + 1
    ensures h < e && Blocks(lines[h + 1..e]) == []
  {
    PrefixSections(lines, e, h);
    assert lines[..e] == lines[..h] + [Header(lines[h].section)] + lines[h + 1..e];
    AtHeader(lines[..h], lines[h].section, lines[h + 1..e]);
  }

  lemma RestOfSections(s: Store, fold: Fold, i: nat)
    requires Good(s, fold) && i < |s.sections|
    ensures var rest := s.sections[..i] + s.sections[i + 1..];
      && Distinct(rest) && Known(rest, s.tokens) && (forall y :: y in rest ==> y in s.index)
      && Distinct(s.sections)
      && s.sections == s.sections[..i] + [s.sections[i]] + s.sections[i + 1..]
  {
    var a, x, b := s.sections[..i], s.sections[i], s.sections[i + 1..];
    HeadersDistinct(Blocks(s.lines));
    assert s.sections == a + [x] + b;
    Apart(a, x, b);
    forall j | 0 <= j < |a + b|
      ensures (a + b)[j] in s.tokens && (a + b)[j] in s.index
    {
      var q := if j < |a| then j else j + 1;
      assert (a + b)[j] == s.sections[q];
      assert RankedAt(s.sections, q, s.tokens, fold, s.index);
    }
  }

  /** Above the index of the section that goes are just the indices of those behind it. */
  lemma GapIsBump(s: Store, fold: Fold, i: nat, key: Key, n: int, now: map<Id, int>)
    requires Good(s, fold) && i < |s.sections| && Nth(s.sections, i, key, n, s.tokens, fold)
    requires Closed(now, s.index, s.sections[..i] + s.sections[i + 1..], s.tokens, fold, key, n)
    ensures Bumped(now, s.index, s.sections[i + 1..], s.tokens, fold, key, -1)
  {
    var a, b := s.sections[..i], s.sections[i + 1..];
    RestOfSections(s, fold, i);
    Apart(a, s.sections[i], b);
    forall y | y in s.index
      ensures y in now && now[y] == s.index[y] +
        (if y in b && y in s.tokens && KeyOf(s.tokens[y], fold) == key then -1 else 0)
    {
      if y in s.tokens && KeyOf(s.tokens[y], fold) == key {
        GapAt(s, fold, i, key, n, y);
      }
    }
  }

  lemma GapAt(s: Store, fold: Fold, i: nat, key: Key, n: int, y: Id)
    requires Good(s, fold) && i < |s.sections| && Nth(s.sections, i, key, n, s.tokens, fold)
    requires y in s.index && y in s.tokens && KeyOf(s.tokens[y], fold) == key
    ensures y in s.sections[i + 1..] ==> s.index[y] > n
    ensures y in s.sections[..i] ==> s.index[y] < n
  {
    RankBeside(s.sections, i, key, n, s.tokens, fold, s.index, y);
  }

  lemma RankBeside(ids: seq<Id>, i: nat, key: Key, n: int, tokens: Tokens, fold: Fold, index: map<Id, int>, y: Id)
    requires Known(ids, tokens) && Ranked(ids, tokens, fold, index) && Nth(ids, i, key, n, tokens, fold)
    requires i < |ids| && y in index && y in tokens && KeyOf(tokens[y], fold) == key
    ensures (y in ids[i + 1..] ==> index[y] > n) && (y in ids[..i] ==> index[y] < n)
  {
    var a, b := ids[..i], ids[i + 1..];
    if y in b {
      var j :| 0 <= j < |b| && b[j] == y;
      assert ids[i + 1 + j] == y;
      RankOrder(ids, i, i + 1 + j, key, n, tokens, fold, index);
    }
    if y in a {
      var j :| 0 <= j < |a| && a[j] == y;
      assert ids[j] == y;
      RankOrder(ids, i, j, key, n, tokens, fold, index);
    }
  }

  function WithoutSection(s: Store, i: nat, p: nat, e: nat, now: map<Id, int>): Store
    requires i < |s.sections| && p <= e <= |s.lines|
  {
    Store(s.lines[..p] + s.lines[e..], s.sections[..i] + s.sections[i + 1..],
          s.chain - {s.sections[i]}, s.tokens, now, s.supply)
  }

  lemma SectionGone(s: Store, fold: Fold, i: nat, p: nat, h: nat, e: nat, key: Key, n: int, now: map<Id, int>)
    returns (next: Store)
    requires Good(s, fold) && i < |s.sections| && Nth(s.sections, i, key, n, s.tokens, fold)
    requires p <= h < e <= |s.lines| && s.lines[h] == Header(s.sections[i])
    requires Quiet(s.lines[p..h]) && Blocks(s.lines[h + 1..e]) == [] && Lead(s.lines[e..]) == []
    requires Closed(now, s.index, s.sections[..i] + s.sections[i + 1..], s.tokens, fold, key, n)
    ensures next == WithoutSection(s, i, p, e, now) && Good(next, fold)
  {
    next := WithoutSection(s, i, p, e, now);
    var pre, c, post := SectionParted(s, fold, i, p, h, e);
    GapIsBump(s, fold, i, key, n, now);
    DeleteSection(pre, c, post, s.tokens, fold, s.index, now, s.supply);
    HeadersJoin(pre, post);
    ChainShrinks(s, fold, i, pre, c, post);
    TidyRest(s.lines, p, e, s.tokens, s.supply);
  }

  /** The blocks before and behind the section whose lines go. */
  lemma SectionParted(s: Store, fold: Fold, i: nat, p: nat, h: nat, e: nat)
    returns (pre: seq<Block>, c: Block, post: seq<Block>)
    requires Good(s, fold) && i < |s.sections|
    requires p <= h < e <= |s.lines| && s.lines[h] == Header(s.sections[i])
    requires Quiet(s.lines[p..h]) && Blocks(s.lines[h + 1..e]) == [] && Lead(s.lines[e..]) == []
    ensures Blocks(s.lines) == pre + [c] + post && |pre| == i && c.section == s.sections[i]
    ensures s.sections[..i] == Headers(pre) && s.sections[i + 1..] == Headers(post)
    ensures Blocks(s.lines[..p] + s.lines[e..]) == pre + post && Lead(s.lines[..p] + s.lines[e..]) == []
    ensures c.section in s.tokens && KeyOf(s.tokens[c.section], fold) == Named(fold(s.tokens[c.section].name))
  {
    var x, a, b, all := s.sections[i], s.lines[..p], s.lines[e..], Blocks(s.lines);
    var body := s.lines[h + 1..e];
    assert s.lines == a + s.lines[p..h] + [Header(x)] + body + b;
    DeleteLines(a, s.lines[p..h], x, body, b);
    pre, c, post := Blocks(a), Block(x, Lead(body)), Blocks(b);
    assert all == pre + [c] + post && all[|pre|] == c;
    OneHome(all, i, |pre|, x);
    assert SaneBlock(all[i], s.tokens, fold, s.index);
    HeadersAround(pre, c, post);
  }

  lemma ChainShrinks(s: Store, fold: Fold, i: nat, pre: seq<Block>, c: Block, post: seq<Block>)
    requires Good(s, fold) && i < |s.sections| && |pre| == i && Blocks(s.lines) == pre + [c] + post
    ensures var after, chain := pre + post, s.chain - {c.section};
      forall j :: 0 <= j < |after| ==> after[j].section in chain && chain[after[j].section] == after[j].ids
  {
    var before, after := pre + [c] + post, pre + post;
    HeadersDistinct(before);
    forall j | 0 <= j < |after|
      ensures after[j].section in s.chain && s.chain[after[j].section] == after[j].ids && after[j].section != c.section
    {
      var q := if j < |pre| then j else j + 1;
      assert after[j] == before[q] && s.sections[q] == before[q].section;
      assert before[|pre|] == c && s.sections[|pre|] == c.section;
    }
  }

  lemma TidyRest(lines: seq<Line>, p: nat, e: nat, tokens: Tokens, supply: nat)
    requires Tidy(lines, tokens, supply) && p <= e <= |lines|
    ensures Tidy(lines[..p] + lines[e..], tokens, supply)
  {
    var now := lines[..p] + lines[e..];
    forall q | 0 <= q < |now|
      ensures TidyLine(now[q], tokens, supply)
    {
      assert now[q] == lines[if q < p then q else q - p + e];
    }
  }
}
