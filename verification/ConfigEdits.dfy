/**
  What the edits of `lch/util/cconfig.c` keep: identities stay distinct, kinds stay apart and indices
  go on saying the occurrences.
 */
module ConfigEdits {
  import opened ConfigModel

  /** Every index stays but those of the tokens of `ids` with the key, which move by `step`. */
  predicate Bumped(now: map<Id, int>, was: map<Id, int>, ids: seq<Id>, tokens: Tokens, fold: Fold, key: Key,
                   step: int) {
    forall y :: y in was ==>
      && y in now
      && now[y] == was[y] + (if y in ids && y in tokens && KeyOf(tokens[y], fold) == key then step else 0)
  }

  lemma BumpedKeeps(now: map<Id, int>, was: map<Id, int>, ids: seq<Id>, others: seq<Id>,
                    tokens: Tokens, fold: Fold, key: Key, step: int)
    requires Bumped(now, was, ids, tokens, fold, key, step) && forall y :: y in others ==> y !in ids
    ensures Kept(now, was, others)
  {}

  lemma BumpedMoves(now: map<Id, int>, was: map<Id, int>, ids: seq<Id>, tokens: Tokens, fold: Fold, key: Key, step: int)
    requires Bumped(now, was, ids, tokens, fold, key, step) && Known(ids, tokens)
    ensures Moved(now, was, ids, tokens, fold, key, step)
  {}

  lemma DistinctJoin(a: seq<Id>, b: seq<Id>)
    requires Distinct(a) && Distinct(b) && forall x :: x in a ==> x !in b
    ensures Distinct(a + b)
  {
    forall i, j | 0 <= i < j < |a + b|
      ensures (a + b)[i] != (a + b)[j]
    {
      if i < |a| {
        assert a[i] !in b;
        assert (a + b)[i] == a[i];
      }
    }
  }

  lemma DistinctInsert(a: seq<Id>, x: Id, b: seq<Id>)
    requires Distinct(a + b) && x !in a + b
    ensures Distinct(a + [x] + b)
  {
    DistinctParts(a, b);
    assert forall y :: y in a || y in b ==> y in a + b;
    DistinctJoin(a, [x]);
    DistinctJoin(a + [x], b);
  }

  /** A section that an edit does not touch stays sane. */
  lemma BlockKept(b: Block, tokens: Tokens, other: Tokens, fold: Fold, was: map<Id, int>, now: map<Id, int>)
    requires SaneBlock(b, tokens, fold, was) && Kept(now, was, b.ids)
    requires b.section in other && other[b.section] == tokens[b.section]
    requires forall y :: y in b.ids ==> y in other && other[y] == tokens[y]
    ensures SaneBlock(b, other, fold, now)
  {
    RankSame(b.ids, tokens, other, fold, was, now);
  }

  lemma HeadersJoin(a: seq<Block>, b: seq<Block>)
    ensures Headers(a + b) == Headers(a) + Headers(b)
  {}

  lemma HeadersAround(pre: seq<Block>, b: Block, post: seq<Block>)
    ensures Headers(pre + [b] + post) == Headers(pre) + [b.section] + Headers(post)
  {
    HeadersJoin(pre + [b], post);
    HeadersJoin(pre, [b]);
  }

  lemma FlatAround(pre: seq<Block>, b: Block, post: seq<Block>)
    ensures Flat(pre + [b] + post) == Flat(pre) + ([b.section] + b.ids) + Flat(post)
  {
    FlatJoin(pre + [b], post);
    FlatJoin(pre, [b]);
    assert [b][1..] == [];
    assert Flat([b]) == [b.section] + b.ids + [];
  }

  /** The three parts of the tokens have nothing in common. */
  lemma PartsApart(pre: seq<Block>, b: Block, post: seq<Block>)
    requires Distinct(Flat(pre + [b] + post))
    ensures Distinct([b.section] + b.ids) && b.section !in b.ids && Distinct(b.ids)
    ensures forall y :: y in Flat(pre) || y in Flat(post) ==> y != b.section && y !in b.ids
    ensures forall y :: y in Flat(pre) ==> y !in Flat(post)
  {
    FlatAround(pre, b, post);
    DistinctParts(Flat(pre) + ([b.section] + b.ids), Flat(post));
    DistinctParts(Flat(pre), [b.section] + b.ids);
    DistinctParts([b.section], b.ids);
    assert forall y :: y in Flat(pre) + ([b.section] + b.ids) <==> y in Flat(pre) || y == b.section || y in b.ids;
  }

  lemma {:induction false} HeadersInFlat(blocks: seq<Block>)
    ensures forall i :: 0 <= i < |blocks| ==> blocks[i].section in Flat(blocks)
    ensures forall i, y :: 0 <= i < |blocks| && y in blocks[i].ids ==> y in Flat(blocks)
    ensures forall y :: y in Headers(blocks) ==> y in Flat(blocks)
  {
    forall i | 0 <= i < |blocks|
      ensures blocks[i].section in Flat(blocks) && forall y :: y in blocks[i].ids ==> y in Flat(blocks)
    {
      FlatHas(blocks, i, blocks[i].section);
      forall y | y in blocks[i].ids
        ensures y in Flat(blocks)
      {
        FlatHas(blocks, i, y);
      }
    }
  }

  lemma {:induction false} HeaderIsNoItem(blocks: seq<Block>, i: nat, j: nat)
    requires Distinct(Flat(blocks)) && i < |blocks| && j < |blocks|
    ensures blocks[i].section !in blocks[j].ids
  {
    if blocks[i].section in blocks[j].ids {
      OneHome(blocks, i, j, blocks[i].section);
      var pre, post := blocks[..i], blocks[i + 1..];
      assert blocks == pre + [blocks[i]] + post;
      PartsApart(pre, blocks[i], post);
    }
  }

  // ----- Adding a token -----

  /** A new token `x` between the parts `p` and `q` of a section. */
  lemma AddToken(pre: seq<Block>, s: Id, p: seq<Id>, q: seq<Id>, post: seq<Block>, x: Id, t: Token,
                 tokens: Tokens, fold: Fold, was: map<Id, int>, now: map<Id, int>)
    requires Sane(pre + [Block(s, p + q)] + post, tokens, fold, was, x)
    requires !t.kind.SectionName? && (p + q != [] ==> (p + q)[0] in tokens && t.kind == tokens[(p + q)[0]].kind)
    requires Bumped(now, was, q, tokens, fold, KeyOf(t, fold), 1)
    requires Known(p, tokens) && x in now && now[x] == Count(p, tokens, fold, KeyOf(t, fold)) + 1
    ensures Sane(pre + [Block(s, p + [x] + q)] + post, tokens[x := t], fold, now, x + 1)
  {
    var b, c := Block(s, p + q), Block(s, p + [x] + q);
    var before, more := pre + [b] + post, tokens[x := t];
    NewIsNew(Flat(before), x);
    AddedFlat(pre, s, p, q, post, x);
    PartsApart(pre, b, post);
    assert before[|pre|] == b;
    HeadersInFlat(before);
    AddToBlock(b, c, p, x, q, t, tokens, fold, was, now);
    OthersKept(pre, b, post, q, x, t, tokens, fold, KeyOf(t, fold), 1, was, now);
    HeadersStay(before, |pre|, q, x, t, tokens, fold, KeyOf(t, fold), 1, was, now);
    Replaced(pre, b, c, post, more, fold, now);
  }

  lemma Replaced(pre: seq<Block>, b: Block, c: Block, post: seq<Block>, tokens: Tokens, fold: Fold, index: map<Id, int>)
    requires c.section == b.section && SaneBlock(c, tokens, fold, index)
    requires forall i :: 0 <= i < |pre + [b] + post| && i != |pre| ==>
      SaneBlock((pre + [b] + post)[i], tokens, fold, index)
    ensures forall i :: 0 <= i < |pre + [c] + post| ==> SaneBlock((pre + [c] + post)[i], tokens, fold, index)
    ensures Headers(pre + [c] + post) == Headers(pre + [b] + post)
  {
    HeadersAround(pre, b, post);
    HeadersAround(pre, c, post);
    forall i | 0 <= i < |pre + [c] + post| && i != |pre|
      ensures (pre + [c] + post)[i] == (pre + [b] + post)[i]
    {}
    assert (pre + [c] + post)[|pre|] == c;
  }

  lemma AddedFlat(pre: seq<Block>, s: Id, p: seq<Id>, q: seq<Id>, post: seq<Block>, x: Id)
    requires Distinct(Flat(pre + [Block(s, p + q)] + post)) && Below(Flat(pre + [Block(s, p + q)] + post), x)
    ensures Distinct(Flat(pre + [Block(s, p + [x] + q)] + post))
    ensures Below(Flat(pre + [Block(s, p + [x] + q)] + post), x + 1)
  {
    FlatAround(pre, Block(s, p + q), post);
    FlatAround(pre, Block(s, p + [x] + q), post);
    AddedIds(Flat(pre), s, p, x, q, Flat(post));
  }

  lemma AddedIds(a: seq<Id>, s: Id, p: seq<Id>, x: Id, q: seq<Id>, b: seq<Id>)
    requires Distinct(a + ([s] + (p + q)) + b) && Below(a + ([s] + (p + q)) + b, x)
    ensures Distinct(a + ([s] + (p + [x] + q)) + b) && Below(a + ([s] + (p + [x] + q)) + b, x + 1)
  {
    var front, back := a + [s] + p, q + b;
    assert a + ([s] + (p + q)) + b == front + back;
    assert a + ([s] + (p + [x] + q)) + b == front + [x] + back;
    NewIsNew(front + back, x);
    DistinctInsert(front, x, back);
    forall i | 0 <= i < |front + [x] + back|
      ensures (front + [x] + back)[i] < x + 1
    {
      if i != |front| {
        assert (front + [x] + back)[i] == (front + back)[if i < |front| then i else i - 1];
      }
    }
  }

  lemma NewIsNew(ids: seq<Id>, x: Id)
    requires Below(ids, x)
    ensures x !in ids
  {}

  lemma AddToBlock(b: Block, c: Block, p: seq<Id>, x: Id, q: seq<Id>, t: Token,
                   tokens: Tokens, fold: Fold, was: map<Id, int>, now: map<Id, int>)
    requires b.ids == p + q && c == Block(b.section, p + [x] + q) && SaneBlock(b, tokens, fold, was)
    requires Distinct(b.ids) && x !in b.ids && x != b.section
    requires !t.kind.SectionName? && (p + q != [] ==> t.kind == tokens[(p + q)[0]].kind)
    requires Bumped(now, was, q, tokens, fold, KeyOf(t, fold), 1)
    requires Known(p, tokens) && x in now && now[x] == Count(p, tokens, fold, KeyOf(t, fold)) + 1
    ensures SaneBlock(c, tokens[x := t], fold, now)
  {
    var more := tokens[x := t];
    DistinctParts(p, q);
    assert forall y :: y in p || y in q ==> y in p + q;
    assert Known(q, tokens) by {
      assert forall i :: 0 <= i < |q| ==> q[i] == (p + q)[|p| + i];
    }
    RankSame(p + q, tokens, more, fold, was, was);
    CountSame(p, tokens, more, fold, KeyOf(t, fold));
    BumpedKeeps(now, was, q, p, tokens, fold, KeyOf(t, fold), 1);
    assert Moved(now, was, q, more, fold, KeyOf(t, fold), 1);
    RankInsert(p, x, q, more, fold, was, now);
    Parts(p, x, q, more);
    forall i | 0 <= i < |c.ids|
      ensures !more[c.ids[i]].kind.SectionName? && more[c.ids[i]].kind == more[c.ids[0]].kind
    {
      assert p + q != [] ==> tokens[(p + q)[0]].kind == t.kind;
      if i < |p| {
        assert (p + q)[i] == c.ids[i];
      } else if i > |p| {
        assert (p + q)[i - 1] == c.ids[i];
      }
      if p != [] {
        assert (p + q)[0] == c.ids[0];
      }
    }
  }

  /** Sections before and after the one edited. */
  lemma OthersKept(pre: seq<Block>, b: Block, post: seq<Block>, q: seq<Id>, x: Id, t: Token,
                   tokens: Tokens, fold: Fold, key: Key, step: int, was: map<Id, int>, now: map<Id, int>)
    requires Distinct(Flat(pre + [b] + post)) && x !in Flat(pre + [b] + post)
    requires forall i :: 0 <= i < |pre + [b] + post| ==> SaneBlock((pre + [b] + post)[i], tokens, fold, was)
    requires (forall y :: y in q ==> y in b.ids) && Bumped(now, was, q, tokens, fold, key, step)
    ensures forall i :: 0 <= i < |pre + [b] + post| && i != |pre| ==>
              SaneBlock((pre + [b] + post)[i], tokens[x := t], fold, now)
  {
    var all := pre + [b] + post;
    HeadersInFlat(all);
    forall i | 0 <= i < |all| && i != |pre|
      ensures SaneBlock(all[i], tokens[x := t], fold, now)
    {
      forall y | y in all[i].ids
        ensures y !in q && y != x
      {
        if y in q {
          assert all[|pre|] == b;
          OneHome(all, i, |pre|, y);
        }
      }
      BumpedKeeps(now, was, q, all[i].ids, tokens, fold, key, step);
      BlockKept(all[i], tokens, tokens[x := t], fold, was, now);
    }
  }

  lemma HeadersStay(all: seq<Block>, m: nat, q: seq<Id>, x: Id, t: Token,
                    tokens: Tokens, fold: Fold, key: Key, step: int, was: map<Id, int>, now: map<Id, int>)
    requires m < |all| && Distinct(Flat(all)) && x !in Flat(all)
    requires Known(Headers(all), tokens) && Ranked(Headers(all), tokens, fold, was)
    requires (forall y :: y in q ==> y in all[m].ids) && Bumped(now, was, q, tokens, fold, key, step)
    ensures Known(Headers(all), tokens[x := t]) && Ranked(Headers(all), tokens[x := t], fold, now)
  {
    HeadersInFlat(all);
    forall i | 0 <= i < |all|
      ensures all[i].section !in q && all[i].section != x
    {
      HeaderIsNoItem(all, i, m);
    }
    BumpedKeeps(now, was, q, Headers(all), tokens, fold, key, step);
    RankSame(Headers(all), tokens, tokens[x := t], fold, was, now);
  }

  // ----- Deleting a token -----

  lemma DeleteToken(pre: seq<Block>, s: Id, p: seq<Id>, x: Id, q: seq<Id>, post: seq<Block>,
                    tokens: Tokens, fold: Fold, was: map<Id, int>, now: map<Id, int>, supply: nat)
    requires Sane(pre + [Block(s, p + [x] + q)] + post, tokens, fold, was, supply) && x in tokens
    requires Bumped(now, was, q, tokens, fold, KeyOf(tokens[x], fold), -1)
    ensures Sane(pre + [Block(s, p + q)] + post, tokens, fold, now, supply)
  {
    var b, c := Block(s, p + [x] + q), Block(s, p + q);
    var before := pre + [b] + post;
    assert before[|pre|] == b;
    DeletedFlat(pre, s, p, x, q, post, supply);
    PartsApart(pre, b, post);
    HeadersInFlat(before);
    assert forall y :: y in q ==> y in b.ids;
    DeleteFromBlock(b, c, p, x, q, tokens, fold, was, now);
    KeptWithout(before, |pre|, q, tokens, fold, KeyOf(tokens[x], fold), was, now);
    Replaced(pre, b, c, post, tokens, fold, now);
  }

  lemma DeletedFlat(pre: seq<Block>, s: Id, p: seq<Id>, x: Id, q: seq<Id>, post: seq<Block>, supply: nat)
    requires Distinct(Flat(pre + [Block(s, p + [x] + q)] + post))
    requires Below(Flat(pre + [Block(s, p + [x] + q)] + post), supply)
    ensures Distinct(Flat(pre + [Block(s, p + q)] + post)) && Below(Flat(pre + [Block(s, p + q)] + post), supply)
  {
    FlatAround(pre, Block(s, p + q), post);
    FlatAround(pre, Block(s, p + [x] + q), post);
    DeletedIds(Flat(pre), s, p, x, q, Flat(post), supply);
  }

  lemma DeletedIds(a: seq<Id>, s: Id, p: seq<Id>, x: Id, q: seq<Id>, b: seq<Id>, supply: nat)
    requires Distinct(a + ([s] + (p + [x] + q)) + b) && Below(a + ([s] + (p + [x] + q)) + b, supply)
    ensures Distinct(a + ([s] + (p + q)) + b) && Below(a + ([s] + (p + q)) + b, supply)
  {
    var front, back := a + [s] + p, q + b;
    assert a + ([s] + (p + q)) + b == front + back;
    assert a + ([s] + (p + [x] + q)) + b == front + [x] + back;
    Apart(front, x, back);
    BelowRest(front, x, back, supply);
  }

  lemma BelowRest(a: seq<Id>, x: Id, b: seq<Id>, supply: nat)
    requires Below(a + [x] + b, supply)
    ensures Below(a + b, supply)
  {
    forall i | 0 <= i < |a + b|
      ensures (a + b)[i] < supply
    {
      assert (a + b)[i] == (a + [x] + b)[if i < |a| then i else i + 1];
    }
  }

  lemma DeleteFromBlock(b: Block, c: Block, p: seq<Id>, x: Id, q: seq<Id>,
                        tokens: Tokens, fold: Fold, was: map<Id, int>, now: map<Id, int>)
    requires b.ids == p + [x] + q && c == Block(b.section, p + q) && SaneBlock(b, tokens, fold, was)
    requires Distinct(b.ids) && x in tokens
    requires Bumped(now, was, q, tokens, fold, KeyOf(tokens[x], fold), -1)
    ensures SaneBlock(c, tokens, fold, now)
  {
    Apart(p, x, q);
    assert forall i :: 0 <= i < |p| ==> p[i] == b.ids[i];
    assert forall i :: 0 <= i < |q| ==> q[i] == b.ids[|p| + 1 + i];
    BumpedKeeps(now, was, q, p, tokens, fold, KeyOf(tokens[x], fold), -1);
    BumpedMoves(now, was, q, tokens, fold, KeyOf(tokens[x], fold), -1);
    RankDelete(p, x, q, tokens, fold, was, now);
    Parts(p, x, q, tokens);
    forall i | 0 <= i < |c.ids|
      ensures !tokens[c.ids[i]].kind.SectionName? && tokens[c.ids[i]].kind == tokens[c.ids[0]].kind
    {
      assert c.ids[i] == b.ids[if i < |p| then i else i + 1];
      assert c.ids[0] == b.ids[if 0 < |p| then 0 else 1];
    }
  }

  lemma KeptWithout(all: seq<Block>, m: nat, q: seq<Id>, tokens: Tokens, fold: Fold, key: Key,
                    was: map<Id, int>, now: map<Id, int>)
    requires m < |all| && Distinct(Flat(all))
    requires forall i :: 0 <= i < |all| ==> SaneBlock(all[i], tokens, fold, was)
    requires Known(Headers(all), tokens) && Ranked(Headers(all), tokens, fold, was)
    requires (forall y :: y in q ==> y in all[m].ids) && Bumped(now, was, q, tokens, fold, key, -1)
    ensures forall i :: 0 <= i < |all| && i != m ==> SaneBlock(all[i], tokens, fold, now)
    ensures Ranked(Headers(all), tokens, fold, now)
  {
    forall i | 0 <= i < |all|
      ensures all[i].section !in q
    {
      HeaderIsNoItem(all, i, m);
    }
    BumpedKeeps(now, was, q, Headers(all), tokens, fold, key, -1);
    RankSame(Headers(all), tokens, tokens, fold, was, now);
    forall i | 0 <= i < |all| && i != m
      ensures SaneBlock(all[i], tokens, fold, now)
    {
      forall y | y in all[i].ids
        ensures y !in q
      {
        if y in q {
          OneHome(all, i, m, y);
        }
      }
      BumpedKeeps(now, was, q, all[i].ids, tokens, fold, key, -1);
      BlockKept(all[i], tokens, tokens, fold, was, now);
    }
  }

  // ----- Adding and deleting a section -----

  lemma AddSection(pre: seq<Block>, x: Id, post: seq<Block>, t: Token,
                   tokens: Tokens, fold: Fold, was: map<Id, int>, now: map<Id, int>)
    requires Sane(pre + post, tokens, fold, was, x) && t.kind.SectionName?
    requires Bumped(now, was, Headers(post), tokens, fold, KeyOf(t, fold), 1)
    requires Known(Headers(pre), tokens) && x in now
    requires now[x] == Count(Headers(pre), tokens, fold, KeyOf(t, fold)) + 1
    ensures Sane(pre + [Block(x, [])] + post, tokens[x := t], fold, now, x + 1)
  {
    var before, more, key := pre + post, tokens[x := t], KeyOf(t, fold);
    NewIsNew(Flat(before), x);
    FlatJoin(pre, post);
    FlatAround(pre, Block(x, []), post);
    AddedIds2(Flat(pre), x, Flat(post));
    HeadersInFlat(before);
    HeadersJoin(pre, post);
    HeaderAdded(pre, x, post, t, tokens, fold, was, now);
    HeadersAround(pre, Block(x, []), post);
    AllItemsKept(before, Headers(post), tokens, more, fold, key, 1, was, now);
    Inserted(pre, Block(x, []), post, more, fold, now);
  }

  lemma HeaderAdded(pre: seq<Block>, x: Id, post: seq<Block>, t: Token,
                    tokens: Tokens, fold: Fold, was: map<Id, int>, now: map<Id, int>)
    requires Distinct(Flat(pre + post)) && x !in Headers(pre) + Headers(post)
    requires Known(Headers(pre) + Headers(post), tokens) && Ranked(Headers(pre) + Headers(post), tokens, fold, was)
    requires Bumped(now, was, Headers(post), tokens, fold, KeyOf(t, fold), 1)
    requires Known(Headers(pre), tokens) && x in now
    requires now[x] == Count(Headers(pre), tokens, fold, KeyOf(t, fold)) + 1
    ensures Known(Headers(pre) + [x] + Headers(post), tokens[x := t])
    ensures Ranked(Headers(pre) + [x] + Headers(post), tokens[x := t], fold, now)
  {
    var h, k, more, key := Headers(pre), Headers(post), tokens[x := t], KeyOf(t, fold);
    assert forall i :: 0 <= i < |k| ==> k[i] == (h + k)[|h| + i];
    RankSame(h + k, tokens, more, fold, was, was);
    CountSame(h, tokens, more, fold, key);
    forall y | y in h
      ensures y !in k
    {
      HeaderOnce(pre, post, y);
    }
    BumpedKeeps(now, was, k, h, tokens, fold, key, 1);
    assert Moved(now, was, k, more, fold, key, 1);
    RankInsert(h, x, k, more, fold, was, now);
  }

  lemma AddedIds2(a: seq<Id>, x: Id, b: seq<Id>)
    requires Distinct(a + b) && Below(a + b, x)
    ensures Distinct(a + ([x] + []) + b) && Below(a + ([x] + []) + b, x + 1)
  {
    assert a + ([x] + []) + b == a + [x] + b;
    NewIsNew(a + b, x);
    DistinctInsert(a, x, b);
    forall i | 0 <= i < |a + [x] + b|
      ensures (a + [x] + b)[i] < x + 1
    {
      if i != |a| {
        assert (a + [x] + b)[i] == (a + b)[if i < |a| then i else i - 1];
      }
    }
  }

  lemma HeaderOnce(pre: seq<Block>, post: seq<Block>, y: Id)
    requires Distinct(Flat(pre + post)) && y in Headers(pre)
    ensures y !in Headers(post)
  {
    FlatJoin(pre, post);
    DistinctParts(Flat(pre), Flat(post));
    HeadersInFlat(pre);
    HeadersInFlat(post);
  }

  /** Moving indices of headers does not touch the tokens of a section. */
  lemma ItemsKept(all: seq<Block>, i: nat, headers: seq<Id>, tokens: Tokens, more: Tokens, fold: Fold, key: Key,
                  step: int,
                  was: map<Id, int>, now: map<Id, int>)
    requires i < |all| && Distinct(Flat(all)) && SaneBlock(all[i], tokens, fold, was)
    requires (forall y :: y in headers ==> y in Headers(all)) && Bumped(now, was, headers, tokens, fold, key, step)
    requires forall y :: y in Flat(all) && y in tokens ==> y in more && more[y] == tokens[y]
    ensures SaneBlock(all[i], more, fold, now)
  {
    HeadersInFlat(all);
    forall y | y in all[i].ids
      ensures y !in headers
    {
      if y in headers {
        var j :| 0 <= j < |all| && Headers(all)[j] == y;
        HeaderIsNoItem(all, j, i);
      }
    }
    BumpedKeeps(now, was, headers, all[i].ids, tokens, fold, key, step);
    BlockKept(all[i], tokens, more, fold, was, now);
  }

  lemma AllItemsKept(all: seq<Block>, headers: seq<Id>, tokens: Tokens, more: Tokens, fold: Fold, key: Key,
                     step: int,
                     was: map<Id, int>, now: map<Id, int>)
    requires Distinct(Flat(all)) && forall i :: 0 <= i < |all| ==> SaneBlock(all[i], tokens, fold, was)
    requires (forall y :: y in headers ==> y in Headers(all)) && Bumped(now, was, headers, tokens, fold, key, step)
    requires forall y :: y in Flat(all) && y in tokens ==> y in more && more[y] == tokens[y]
    ensures forall i :: 0 <= i < |all| ==> SaneBlock(all[i], more, fold, now)
  {
    forall i | 0 <= i < |all|
      ensures SaneBlock(all[i], more, fold, now)
    {
      ItemsKept(all, i, headers, tokens, more, fold, key, step, was, now);
    }
  }

  lemma Inserted(pre: seq<Block>, b: Block, post: seq<Block>, tokens: Tokens, fold: Fold, index: map<Id, int>)
    requires SaneBlock(b, tokens, fold, index)
    requires forall i :: 0 <= i < |pre + post| ==> SaneBlock((pre + post)[i], tokens, fold, index)
    ensures forall i :: 0 <= i < |pre + [b] + post| ==> SaneBlock((pre + [b] + post)[i], tokens, fold, index)
  {
    forall i | 0 <= i < |pre + [b] + post| && i != |pre|
      ensures SaneBlock((pre + [b] + post)[i], tokens, fold, index)
    {
      assert (pre + [b] + post)[i] == (pre + post)[if i < |pre| then i else i - 1];
    }
  }

  lemma DeleteSection(pre: seq<Block>, b: Block, post: seq<Block>,
                      tokens: Tokens, fold: Fold, was: map<Id, int>, now: map<Id, int>, supply: nat)
    requires Sane(pre + [b] + post, tokens, fold, was, supply) && b.section in tokens
    requires Bumped(now, was, Headers(post), tokens, fold, KeyOf(tokens[b.section], fold), -1)
    ensures Sane(pre + post, tokens, fold, now, supply)
  {
    var before := pre + [b] + post;
    FlatAround(pre, b, post);
    FlatJoin(pre, post);
    WithoutMiddle(Flat(pre), [b.section] + b.ids, Flat(post), supply);
    HeadersAround(pre, b, post);
    HeadersJoin(pre, post);
    HeaderGone(pre, b, post, tokens, fold, was, now);
    AllItemsKept(before, Headers(post), tokens, tokens, fold, KeyOf(tokens[b.section], fold), -1, was, now);
    Removed(pre, b, post, tokens, fold, now);
  }

  lemma Removed(pre: seq<Block>, b: Block, post: seq<Block>, tokens: Tokens, fold: Fold, index: map<Id, int>)
    requires forall i :: 0 <= i < |pre + [b] + post| ==> SaneBlock((pre + [b] + post)[i], tokens, fold, index)
    ensures forall i :: 0 <= i < |pre + post| ==> SaneBlock((pre + post)[i], tokens, fold, index)
  {
    forall i | 0 <= i < |pre + post|
      ensures SaneBlock((pre + post)[i], tokens, fold, index)
    {
      assert (pre + post)[i] == (pre + [b] + post)[if i < |pre| then i else i + 1];
    }
  }

  lemma HeaderGone(pre: seq<Block>, b: Block, post: seq<Block>,
                   tokens: Tokens, fold: Fold, was: map<Id, int>, now: map<Id, int>)
    requires Distinct(Flat(pre + [b] + post)) && b.section in tokens
    requires Known(Headers(pre) + [b.section] + Headers(post), tokens)
    requires Ranked(Headers(pre) + [b.section] + Headers(post), tokens, fold, was)
    requires Bumped(now, was, Headers(post), tokens, fold, KeyOf(tokens[b.section], fold), -1)
    ensures Known(Headers(pre) + Headers(post), tokens) && Ranked(Headers(pre) + Headers(post), tokens, fold, now)
  {
    var h, k, key := Headers(pre), Headers(post), KeyOf(tokens[b.section], fold);
    assert forall i :: 0 <= i < |h| ==> h[i] == (h + [b.section] + k)[i];
    assert forall i :: 0 <= i < |k| ==> k[i] == (h + [b.section] + k)[|h| + 1 + i];
    assert pre + [b] + post == pre + ([b] + post);
    HeadersJoin([b], post);
    forall y | y in h
      ensures y !in k
    {
      HeaderOnce(pre, [b] + post, y);
    }
    BumpedKeeps(now, was, k, h, tokens, fold, key, -1);
    BumpedMoves(now, was, k, tokens, fold, key, -1);
    RankDelete(h, b.section, k, tokens, fold, was, now);
  }

  lemma WithoutMiddle(a: seq<Id>, m: seq<Id>, b: seq<Id>, supply: nat)
    requires Distinct(a + m + b) && Below(a + m + b, supply)
    ensures Distinct(a + b) && Below(a + b, supply)
  {
    DistinctParts(a + m, b);
    DistinctParts(a, m);
    assert forall y :: y in a ==> y in a + m;
    DistinctJoin(a, b);
    forall i | 0 <= i < |a + b|
      ensures (a + b)[i] < supply
    {
      assert (a + b)[i] == (a + m + b)[if i < |a| then i else i + |m|];
    }
  }
}
