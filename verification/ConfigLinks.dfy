/**
  The links of the configuration store (`lch/util/cconfig.c`): the line list in both directions, the tokens of a line,
  the tokens of a section across its lines, and the line of each token.  Memory is one map for each field of the
  structures; lines and tokens are known by their addresses.
 */
module ConfigLinks {
  import opened ConfigModel
  import opened ConfigPlaces
  import opened ConfigStore
  import opened LinkedLists
  import D = ConfigDump

  /** The address of a line structure. */
  type LineId = nat

  datatype Links = Links(
    first: Pointer<LineId>,                  // the first line
    next: map<LineId, Pointer<LineId>>,
    prev: map<LineId, Pointer<LineId>>,
    quiet: set<LineId>,                      // lines whose token is a comment or blank
    token: map<LineId, Pointer<Id>>,         // the first token of the line
    etoken: map<LineId, Pointer<Id>>,        // of a header line: the first token of the section
    tnext: map<Id, Pointer<Id>>,             // the next token in the line
    snext: map<Id, Pointer<Id>>,             // the next token in the section
    tline: map<Id, LineId>)                  // the line of the token

  predicate LineOk(m: Links, l: LineId, line: Line) {
    match line
    case Remark(_) => l in m.quiet
    case Header(x) => l !in m.quiet && l in m.token && m.token[l] == To(x) && x in m.tline && m.tline[x] == l
    case Items(ids) =>
      && l !in m.quiet && l in m.token && List(m.tnext, m.token[l], ids)
      && forall y :: y in ids ==> y in m.tline && m.tline[y] == l
  }

  predicate LinesOk(m: Links, order: seq<LineId>, lines: seq<Line>) {
    |order| == |lines| && forall k: nat :: k < |lines| ==> LineOk(m, order[k], lines[k])
  }

  /** From the header line of the section, the section links go through its tokens. */
  predicate SectionOk(m: Links, x: Id, c: seq<Id>) {
    x in m.tline && m.tline[x] in m.etoken && List(m.snext, m.etoken[m.tline[x]], c)
  }

  predicate SectionsOk(m: Links, s: Store) {
    forall i: nat :: i < |s.sections| ==>
      s.sections[i] in s.chain && SectionOk(m, s.sections[i], s.chain[s.sections[i]])
  }

  /** The memory shows the store, its lines at the addresses `order`. */
  predicate Shows(m: Links, order: seq<LineId>, s: Store) {
    && List(m.next, m.first, order) && Back(m.prev, order)
    && LinesOk(m, order, s.lines) && SectionsOk(m, s)
  }

  // ----- What does not touch -----

  lemma LineKept(m: Links, now: Links, l: LineId, line: Line)
    requires LineOk(m, l, line)
    requires (l in now.quiet <==> l in m.quiet) && (l in m.token ==> l in now.token && now.token[l] == m.token[l])
    requires line.Header? ==> line.section in now.tline && now.tline[line.section] == l
    requires line.Items? ==> forall y :: y in line.ids ==>
      && y in now.tline && now.tline[y] == l
      && (y in m.tnext ==> y in now.tnext && now.tnext[y] == m.tnext[y])
    ensures LineOk(now, l, line)
  {
    if line.Items? {
      ListKept(m.tnext, now.tnext, m.token[l], line.ids);
    }
  }

  /** A token is in one line. */
  lemma OneLine(m: Links, order: seq<LineId>, lines: seq<Line>, j: nat, k: nat, y: Id)
    requires LinesOk(m, order, lines) && Unlike(order) && j < |lines| && k < |lines|
    requires lines[j].Items? && lines[k].Items? && y in lines[j].ids && y in lines[k].ids
    ensures j == k
  {
    assert LineOk(m, order[j], lines[j]) && LineOk(m, order[k], lines[k]);
  }

  /** The header of a section has a line. */
  lemma HeaderAt(m: Links, order: seq<LineId>, s: Store, fold: Fold, i: nat) returns (h: nat)
    requires Shows(m, order, s) && Good(s, fold) && i < |s.sections|
    ensures h < |s.lines| && s.lines[h] == Header(s.sections[i])
    ensures s.sections[i] in m.tline && order[h] == m.tline[s.sections[i]]
  {
    HeaderExists(s.lines, s.sections[i]);
    h :| 0 <= h < |s.lines| && s.lines[h] == Header(s.sections[i]);
    assert LineOk(m, order[h], s.lines[h]);
  }

  lemma OtherHeader(m: Links, order: seq<LineId>, s: Store, fold: Fold, i: nat, j: nat)
    requires Shows(m, order, s) && Good(s, fold) && i < |s.sections| && j < |s.sections|
    requires s.sections[i] in m.tline && s.sections[j] in m.tline && m.tline[s.sections[i]] == m.tline[s.sections[j]]
    ensures s.sections[i] == s.sections[j]
  {
    var h := HeaderAt(m, order, s, fold, i);
    var k := HeaderAt(m, order, s, fold, j);
  }

  /** Chains of different sections have no token in common, and none has a token of a later supply. */
  lemma OtherChain(s: Store, fold: Fold, i: nat, j: nat, y: Id)
    requires Good(s, fold) && i < |s.sections| && j < |s.sections|
    requires s.sections[i] in s.chain && s.sections[j] in s.chain
    requires y in s.chain[s.sections[i]] && y in s.chain[s.sections[j]]
    ensures s.sections[i] == s.sections[j]
  {
    OneHome(Blocks(s.lines), i, j, y);
  }

  /** Every token of the store is older than the next one. */
  lemma TokensBelow(s: Store, fold: Fold)
    requires Good(s, fold)
    ensures forall k, y :: 0 <= k < |s.lines| && s.lines[k].Items? && y in s.lines[k].ids ==> y < s.supply
    ensures forall i: nat :: i < |s.sections| && s.sections[i] in s.chain ==>
      s.sections[i] < s.supply && forall y :: y in s.chain[s.sections[i]] ==> y < s.supply
    ensures forall k :: 0 <= k < |s.lines| && s.lines[k].Header? ==> s.lines[k].section < s.supply
  {
    forall k, y | 0 <= k < |s.lines| && s.lines[k].Items? && y in s.lines[k].ids
      ensures y < s.supply
    {
      assert TidyLine(s.lines[k], s.tokens, s.supply);
    }
    forall i: nat | i < |s.sections| && s.sections[i] in s.chain
      ensures s.sections[i] < s.supply && forall y :: y in s.chain[s.sections[i]] ==> y < s.supply
    {
      ChainFacts(s, fold, i);
      FlatHas(Blocks(s.lines), i, s.sections[i]);
    }
    forall k | 0 <= k < |s.lines| && s.lines[k].Header?
      ensures s.lines[k].section < s.supply
    {
      var i := D.BlockOfHeader(s.lines, k);
      FlatHas(Blocks(s.lines), i, s.lines[k].section);
    }
  }

  // ----- The tokens of a section -----

  /** The links of one section changed, those of the others did not. */
  lemma SectionChanged(m: Links, now: Links, order: seq<LineId>, s: Store, t: Store, fold: Fold, i: nat, x: Id,
                       c: seq<Id>)
    requires Shows(m, order, s) && Good(s, fold) && i < |s.sections| && s.sections[i] in s.chain
    requires t.sections == s.sections && t.chain == s.chain[s.sections[i] := c]
    requires s.sections[i] in m.tline && SectionOk(now, s.sections[i], c)
    requires forall y :: y in m.tline && y < s.supply ==> y in now.tline && now.tline[y] == m.tline[y]
    requires forall l :: l in m.etoken && l != m.tline[s.sections[i]] ==>
      l in now.etoken && now.etoken[l] == m.etoken[l]
    requires forall y :: y in m.snext && y < s.supply && y !in s.chain[s.sections[i]] ==>
      y in now.snext && now.snext[y] == m.snext[y]
    ensures SectionsOk(now, t)
  {
    TokensBelow(s, fold);
    forall j: nat | j < |s.sections|
      ensures s.sections[j] in t.chain && SectionOk(now, s.sections[j], t.chain[s.sections[j]])
    {
      if s.sections[j] != s.sections[i] {
        OtherSection(m, now, order, s, fold, i, j);
      }
    }
  }

  lemma OtherSection(m: Links, now: Links, order: seq<LineId>, s: Store, fold: Fold, i: nat, j: nat)
    requires Shows(m, order, s) && Good(s, fold) && i < |s.sections| && j < |s.sections|
    requires s.sections[i] in s.chain && s.sections[j] != s.sections[i] && s.sections[i] in m.tline
    requires forall y :: y in m.tline && y < s.supply ==> y in now.tline && now.tline[y] == m.tline[y]
    requires forall l :: l in m.etoken && l != m.tline[s.sections[i]] ==>
      l in now.etoken && now.etoken[l] == m.etoken[l]
    requires forall y :: y in m.snext && y < s.supply && y !in s.chain[s.sections[i]] ==>
      y in now.snext && now.snext[y] == m.snext[y]
    ensures s.sections[j] in s.chain && SectionOk(now, s.sections[j], s.chain[s.sections[j]])
  {
    TokensBelow(s, fold);
    var sj := s.sections[j];
    assert SectionOk(m, sj, s.chain[sj]);
    if m.tline[sj] == m.tline[s.sections[i]] {
      OtherHeader(m, order, s, fold, i, j);
    }
    forall y | y in s.chain[sj]
      ensures y !in s.chain[s.sections[i]]
    {
      if y in s.chain[s.sections[i]] {
        OtherChain(s, fold, i, j, y);
      }
    }
    ListKept(m.snext, now.snext, m.etoken[m.tline[sj]], s.chain[sj]);
  }

  // ----- A new line -----

  /** The lines around a new one are as before. */
  lemma LinesAround(m: Links, now: Links, order: seq<LineId>, lines: seq<Line>, k: nat, l: LineId, line: Line)
    requires LinesOk(m, order, lines) && k < |lines| && LineOk(now, l, line)
    requires forall j: nat :: j < |lines| ==> LineOk(now, order[j], lines[j])
    ensures LinesOk(now, order[..k + 1] + [l] + order[k + 1..], LineBehind(lines, k, line))
  {
    var o, n := order[..k + 1] + [l] + order[k + 1..], LineBehind(lines, k, line);
    forall j: nat | j < |n|
      ensures LineOk(now, o[j], n[j])
    {
      if j <= k {
        assert o[j] == order[j] && n[j] == lines[j];
      } else if j > k + 1 {
        assert o[j] == order[j - 1] && n[j] == lines[j - 1];
      }
    }
  }

  /** The line `l` with the token `x` has been linked behind line `k`. */
  predicate Wedged(m: Links, now: Links, order: seq<LineId>, k: nat, l: LineId, x: Id)
    requires k < |order|
  {
    && (var o := order[..k + 1] + [l] + order[k + 1..]; List(now.next, now.first, o) && Back(now.prev, o))
    && now.quiet == m.quiet - {l} && now.token == m.token[l := To(x)]
    && now.tnext == m.tnext[x := Null] && now.tline == m.tline[x := l]
  }

  /** A line with a new token behind line `k`. */
  lemma TokenLineAdded(m: Links, now: Links, order: seq<LineId>, s: Store, fold: Fold, k: nat, l: LineId, x: Id)
    requires Shows(m, order, s) && Good(s, fold) && k < |order| && l !in order && x == s.supply
    requires now.quiet == m.quiet - {l} && now.token == m.token[l := To(x)]
    requires now.tnext == m.tnext[x := Null] && now.tline == m.tline[x := l]
    ensures LinesOk(now, order[..k + 1] + [l] + order[k + 1..], LineBehind(s.lines, k, Items([x])))
  {
    TokensBelow(s, fold);
    forall j: nat | j < |s.lines|
      ensures LineOk(now, order[j], s.lines[j])
    {
      assert LineOk(m, order[j], s.lines[j]);
      LineKept(m, now, order[j], s.lines[j]);
    }
    assert Follows(now.tnext, [x], 0);
    LinesAround(m, now, order, s.lines, k, l, Items([x]));
  }

  lemma PlaceFirst(t: Store, s: Store, i: nat, x: Id, tok: Token) returns (k: nat)
    requires TokenInserted(t, s, i, 0, x, tok) && (s.chain[s.sections[i]] == [] || tok.kind.Scalar?)
    ensures k < |s.lines| && s.lines[k] == Header(s.sections[i]) && t.lines == LineBehind(s.lines, k, Items([x]))
  {
    k :| k < |s.lines| && s.lines[k] == Header(s.sections[i]) && t.lines == LineBehind(s.lines, k, Items([x]));
  }

  /** Where a new token that is not the first of its kind of line finds its place. */
  lemma PlaceBeside(t: Store, s: Store, i: nat, n: nat, x: Id, tok: Token) returns (k: nat, j: nat)
    requires TokenInserted(t, s, i, n, x, tok)
    requires !(n == 0 && (s.chain[s.sections[i]] == [] || tok.kind.Scalar?))
    ensures var c := s.chain[s.sections[i]];
      && StandsIn(s.lines, k, j, if n == 0 then c[0] else c[n - 1]) && (n == 0 ==> j == 0)
      && t.lines == if tok.kind.Scalar? then LineBehind(s.lines, k, Items([x]))
                    else LineJoined(s.lines, k, if n == 0 then 0 else j + 1, x)
  {
    var c := s.chain[s.sections[i]];
    var y := if n == 0 then c[0] else c[n - 1];
    k, j :| StandsIn(s.lines, k, j, y) && (n == 0 ==> j == 0) &&
      t.lines == if tok.kind.Scalar? then LineBehind(s.lines, k, Items([x]))
                 else LineJoined(s.lines, k, if n == 0 then 0 else j + 1, x);
  }

  lemma FirstLine(m: Links, order: seq<LineId>, s: Store, t: Store, i: nat, x: Id, tok: Token) returns (k: nat)
    requires Shows(m, order, s) && TokenInserted(t, s, i, 0, x, tok)
    requires s.chain[s.sections[i]] == [] || tok.kind.Scalar?
    ensures k < |order| && s.sections[i] in m.tline && m.tline[s.sections[i]] == order[k] && order[k] in m.etoken
    ensures t.lines == LineBehind(s.lines, k, Items([x]))
  {
    k := PlaceFirst(t, s, i, x, tok);
    assert LineOk(m, order[k], s.lines[k]);
    assert SectionOk(m, s.sections[i], s.chain[s.sections[i]]);
  }

  /** The line and the place in it of the token behind which a new one goes, or before which if that is the first. */
  lemma LineOfPrevious(m: Links, order: seq<LineId>, s: Store, t: Store, i: nat, n: nat, x: Id, tok: Token)
    returns (k: nat, j: nat)
    requires Shows(m, order, s) && TokenInserted(t, s, i, n, x, tok)
    requires !(n == 0 && (s.chain[s.sections[i]] == [] || tok.kind.Scalar?))
    ensures var y := s.chain[s.sections[i]][if n == 0 then 0 else n - 1];
      && StandsIn(s.lines, k, j, y) && (n == 0 ==> j == 0)
      && y in m.tline && m.tline[y] == order[k] && y in m.tnext && y in m.snext && order[k] in m.token
    ensures s.sections[i] in m.tline && m.tline[s.sections[i]] in m.etoken
    ensures t.lines == if tok.kind.Scalar? then LineBehind(s.lines, k, Items([x]))
                       else LineJoined(s.lines, k, if n == 0 then 0 else j + 1, x)
  {
    k, j := PlaceBeside(t, s, i, n, x, tok);
    assert LineOk(m, order[k], s.lines[k]);
    assert SectionOk(m, s.sections[i], s.chain[s.sections[i]]);
    assert Follows(m.tnext, s.lines[k].ids, j);
    assert Follows(m.snext, s.chain[s.sections[i]], if n == 0 then 0 else n - 1);
  }

  /** The links after a token has become the first of its section. */
  lemma FirstShown(m: Links, now: Links, order: seq<LineId>, s: Store, t: Store, fold: Fold, i: nat, k: nat, x: Id,
                   l: LineId, tok: Token)
    requires Shows(m, order, s) && Good(s, fold) && TokenInserted(t, s, i, 0, x, tok) && l !in order
    requires k < |order| && s.sections[i] in m.tline && m.tline[s.sections[i]] == order[k] && order[k] in m.etoken
    requires t.lines == LineBehind(s.lines, k, Items([x]))
    requires Wedged(m, now, order, k, l, x)
    requires now.snext == m.snext[x := m.etoken[order[k]]] && now.etoken == m.etoken[order[k] := To(x)]
    ensures Shows(now, order[..k + 1] + [l] + order[k + 1..], t)
  {
    var c := s.chain[s.sections[i]];
    TokensBelow(s, fold);
    TokenLineAdded(m, now, order, s, fold, k, l, x);
    SectionFront(m, now, s.sections[i], c, x);
    assert c[..0] + [x] + c[0..] == [x] + c;
    SectionChanged(m, now, order, s, t, fold, i, x, [x] + c);
  }

  /** The links after a scalar has been put behind another. */
  lemma BehindShown(m: Links, now: Links, order: seq<LineId>, s: Store, t: Store, fold: Fold, i: nat, n: nat, k: nat,
                    x: Id, l: LineId, tok: Token)
    requires Shows(m, order, s) && Good(s, fold) && n > 0 && TokenInserted(t, s, i, n, x, tok) && l !in order
    requires k < |order| && t.lines == LineBehind(s.lines, k, Items([x]))
    requires Wedged(m, now, order, k, l, x) && now.etoken == m.etoken
    requires var y := s.chain[s.sections[i]][n - 1];
      y in m.snext && now.snext == m.snext[x := m.snext[y]][y := To(x)]
    ensures Shows(now, order[..k + 1] + [l] + order[k + 1..], t)
  {
    var c := s.chain[s.sections[i]];
    TokensBelow(s, fold);
    TokenLineAdded(m, now, order, s, fold, k, l, x);
    SectionBehind(m, now, s.sections[i], c, n, x);
    SectionChanged(m, now, order, s, t, fold, i, x, c[..n] + [x] + c[n..]);
  }

  lemma SectionBehind(m: Links, now: Links, section: Id, c: seq<Id>, n: nat, x: Id)
    requires SectionOk(m, section, c) && 0 < n <= |c| && x !in c && now.etoken == m.etoken
    requires section in now.tline && now.tline[section] == m.tline[section]
    requires c[n - 1] in m.snext && now.snext == m.snext[x := m.snext[c[n - 1]]][c[n - 1] := To(x)]
    ensures SectionOk(now, section, c[..n] + [x] + c[n..])
  {
    ListInsert(m.snext, m.etoken[m.tline[section]], c, n - 1, x);
  }

  lemma SectionFront(m: Links, now: Links, section: Id, c: seq<Id>, x: Id)
    requires SectionOk(m, section, c) && x !in c
    requires section in now.tline && now.tline[section] == m.tline[section]
    requires now.snext == m.snext[x := m.etoken[m.tline[section]]]
    requires now.etoken == m.etoken[m.tline[section] := To(x)]
    ensures SectionOk(now, section, [x] + c)
  {
    ListFront(m.snext, m.etoken[m.tline[section]], c, x);
  }

  // ----- A token that joins a line -----

  lemma LinesWith(m: Links, now: Links, order: seq<LineId>, lines: seq<Line>, k: nat, line: Line)
    requires LinesOk(m, order, lines) && k < |lines| && LineOk(now, order[k], line)
    requires forall j: nat :: j < |lines| && j != k ==> LineOk(now, order[j], lines[j])
    ensures LinesOk(now, order, lines[k := line])
  {}

  /** The lines without token `y` are as before when only links of `y` and of the new token changed. */
  lemma OtherLines(m: Links, now: Links, order: seq<LineId>, s: Store, fold: Fold, k: nat, y: Id, x: Id)
    requires Shows(m, order, s) && Good(s, fold) && x == s.supply
    requires k < |order| && s.lines[k].Items? && y in s.lines[k].ids && now.quiet == m.quiet
    requires forall l :: l in m.token && l != order[k] ==> l in now.token && now.token[l] == m.token[l]
    requires forall z :: z in m.tnext && z != y && z != x ==> z in now.tnext && now.tnext[z] == m.tnext[z]
    requires forall z :: z in m.tline && z != x ==> z in now.tline && now.tline[z] == m.tline[z]
    ensures forall j: nat :: j < |s.lines| && j != k ==> LineOk(now, order[j], s.lines[j])
  {
    TokensBelow(s, fold);
    forall j: nat | j < |s.lines| && j != k
      ensures LineOk(now, order[j], s.lines[j])
    {
      assert LineOk(m, order[j], s.lines[j]);
      if s.lines[j].Items? && y in s.lines[j].ids {
        OneLine(m, order, s.lines, j, k, y);
      }
      LineKept(m, now, order[j], s.lines[j]);
    }
  }

  /** The links after a vector token has become the first of its section. */
  lemma InFrontShown(m: Links, now: Links, order: seq<LineId>, s: Store, t: Store, fold: Fold, i: nat, k: nat, x: Id,
                     tok: Token)
    requires Shows(m, order, s) && Good(s, fold) && TokenInserted(t, s, i, 0, x, tok)
    requires s.chain[s.sections[i]] != [] && StandsIn(s.lines, k, 0, s.chain[s.sections[i]][0])
    requires t.lines == LineJoined(s.lines, k, 0, x) && s.sections[i] in m.tline
    requires now.next == m.next && now.prev == m.prev && now.first == m.first && now.quiet == m.quiet
    requires now.token == m.token[order[k] := To(x)] && now.tnext == m.tnext[x := To(s.chain[s.sections[i]][0])]
    requires now.tline == m.tline[x := order[k]] && m.tline[s.sections[i]] in m.etoken
    requires now.snext == m.snext[x := m.etoken[m.tline[s.sections[i]]]]
    requires now.etoken == m.etoken[m.tline[s.sections[i]] := To(x)]
    ensures Shows(now, order, t)
  {
    var c, ids := s.chain[s.sections[i]], s.lines[k].ids;
    TokensBelow(s, fold);
    OtherLines(m, now, order, s, fold, k, c[0], x);
    LineFront(m, now, order[k], ids, x);
    assert ids[..0] + [x] + ids[0..] == [x] + ids;
    LinesWith(m, now, order, s.lines, k, Items([x] + ids));
    SectionFront(m, now, s.sections[i], c, x);
    assert c[..0] + [x] + c[0..] == [x] + c;
    SectionChanged(m, now, order, s, t, fold, i, x, [x] + c);
  }

  lemma LineFront(m: Links, now: Links, l: LineId, ids: seq<Id>, x: Id)
    requires LineOk(m, l, Items(ids)) && ids != [] && x !in ids && now.quiet == m.quiet
    requires now.token == m.token[l := To(x)] && now.tnext == m.tnext[x := To(ids[0])] && now.tline == m.tline[x := l]
    ensures LineOk(now, l, Items([x] + ids))
  {
    ListFront(m.tnext, m.token[l], ids, x);
  }

  lemma LineBehindToken(m: Links, now: Links, l: LineId, ids: seq<Id>, j: nat, x: Id)
    requires LineOk(m, l, Items(ids)) && j < |ids| && x !in ids && now.quiet == m.quiet && now.token == m.token
    requires ids[j] in m.tnext && now.tnext == m.tnext[x := m.tnext[ids[j]]][ids[j] := To(x)]
    requires now.tline == m.tline[x := l]
    ensures LineOk(now, l, Items(ids[..j + 1] + [x] + ids[j + 1..]))
  {
    ListInsert(m.tnext, m.token[l], ids, j, x);
  }

  /** The links after a vector token has been put behind another. */
  lemma InLineShown(m: Links, now: Links, order: seq<LineId>, s: Store, t: Store, fold: Fold, i: nat, n: nat, k: nat,
                    j: nat, x: Id, tok: Token)
    requires Shows(m, order, s) && Good(s, fold) && n > 0 && TokenInserted(t, s, i, n, x, tok)
    requires var y := s.chain[s.sections[i]][n - 1];
      && StandsIn(s.lines, k, j, y) && y in m.tnext && y in m.snext
      && now.tnext == m.tnext[x := m.tnext[y]][y := To(x)] && now.snext == m.snext[x := m.snext[y]][y := To(x)]
    requires t.lines == LineJoined(s.lines, k, j + 1, x) && s.sections[i] in m.tline
    requires now.next == m.next && now.prev == m.prev && now.first == m.first && now.quiet == m.quiet
    requires now.token == m.token && now.etoken == m.etoken && now.tline == m.tline[x := order[k]]
    ensures Shows(now, order, t)
  {
    var c, ids := s.chain[s.sections[i]], s.lines[k].ids;
    TokensBelow(s, fold);
    OtherLines(m, now, order, s, fold, k, c[n - 1], x);
    assert LineOk(m, order[k], s.lines[k]);
    LineBehindToken(m, now, order[k], ids, j, x);
    LinesWith(m, now, order, s.lines, k, Items(ids[..j + 1] + [x] + ids[j + 1..]));
    SectionBehind(m, now, s.sections[i], c, n, x);
    SectionChanged(m, now, order, s, t, fold, i, x, c[..n] + [x] + c[n..]);
  }

  // ----- A token that goes -----

  /** Where a deleted token stands. */
  lemma DeletedPlace(m: Links, order: seq<LineId>, s: Store, t: Store, fold: Fold, i: nat, n: nat)
    returns (k: nat, j: nat)
    requires Shows(m, order, s) && Good(s, fold) && TokenDeleted(t, s, i, n)
    ensures var x := s.chain[s.sections[i]][n];
      && StandsIn(s.lines, k, j, x) && t.lines == Cut(s.lines, k, j) && k > 0
      && LineOk(m, order[k], s.lines[k]) && m.tline[x] == order[k] && x in m.tnext && x in m.snext
    ensures SectionOk(m, s.sections[i], s.chain[s.sections[i]])
  {
    var x := s.chain[s.sections[i]][n];
    k, j :| StandsIn(s.lines, k, j, x) && t.lines == Cut(s.lines, k, j);
    assert LineOk(m, order[k], s.lines[k]);
    assert TidyLine(s.lines[0], s.tokens, s.supply);
    assert SectionOk(m, s.sections[i], s.chain[s.sections[i]]);
    assert Follows(m.tnext, s.lines[k].ids, j);
    assert Follows(m.snext, s.chain[s.sections[i]], n);
  }

  /** The section links pass by the token at place `n`. */
  predicate PassesBy(m: Links, now: Links, section: Id, c: seq<Id>, n: nat)
    requires n < |c| && c[n] in m.snext && section in m.tline
  {
    if n == 0 then now.snext == m.snext && now.etoken == m.etoken[m.tline[section] := m.snext[c[0]]]
    else now.etoken == m.etoken && now.snext == m.snext[c[n - 1] := m.snext[c[n]]]
  }

  lemma SectionWithout(m: Links, now: Links, section: Id, c: seq<Id>, n: nat)
    requires SectionOk(m, section, c) && n < |c| && c[n] in m.snext && PassesBy(m, now, section, c, n)
    requires now.tline == m.tline
    ensures SectionOk(now, section, c[..n] + c[n + 1..])
  {
    if n == 0 {
      ListRemoveFirst(m.snext, m.etoken[m.tline[section]], c);
      assert c[..0] + c[1..] == c[1..];
    } else {
      ListRemove(m.snext, m.etoken[m.tline[section]], c, n);
    }
  }

  /** The links of the line pass by its token at place `j`. */
  predicate LinePasses(m: Links, now: Links, l: LineId, ids: seq<Id>, j: nat)
    requires j < |ids| && ids[j] in m.tnext
  {
    if j == 0 then now.tnext == m.tnext && now.token == m.token[l := m.tnext[ids[0]]]
    else now.token == m.token && now.tnext == m.tnext[ids[j - 1] := m.tnext[ids[j]]]
  }

  lemma LineWithout(m: Links, now: Links, l: LineId, ids: seq<Id>, j: nat)
    requires LineOk(m, l, Items(ids)) && j < |ids| && ids[j] in m.tnext && LinePasses(m, now, l, ids, j)
    requires now.tline == m.tline && now.quiet == m.quiet
    ensures LineOk(now, l, Items(ids[..j] + ids[j + 1..]))
    ensures now.token[l] == Null <==> |ids| == 1
  {
    if j == 0 {
      ListRemoveFirst(m.tnext, m.token[l], ids);
      assert ids[..0] + ids[1..] == ids[1..];
    } else {
      ListRemove(m.tnext, m.token[l], ids, j);
    }
  }

  /** Other lines when only links inside the line at place `k` changed. */
  lemma OthersKept(m: Links, now: Links, order: seq<LineId>, lines: seq<Line>, k: nat)
    requires LinesOk(m, order, lines) && Unlike(order) && k < |order| && lines[k].Items?
    requires now.quiet == m.quiet && now.tline == m.tline
    requires forall l :: l in m.token && l != order[k] ==> l in now.token && now.token[l] == m.token[l]
    requires forall z :: z in m.tnext && z !in lines[k].ids ==> z in now.tnext && now.tnext[z] == m.tnext[z]
    ensures forall j: nat :: j < |lines| && j != k ==> LineOk(now, order[j], lines[j])
  {
    forall j: nat | j < |lines| && j != k
      ensures LineOk(now, order[j], lines[j])
    {
      assert LineOk(m, order[j], lines[j]);
      if lines[j].Items? {
        forall y | y in lines[j].ids
          ensures y !in lines[k].ids
        {
          if y in lines[k].ids {
            OneLine(m, order, lines, j, k, y);
          }
        }
      }
      LineKept(m, now, order[j], lines[j]);
    }
  }

  lemma LinesLess(m: Links, order: seq<LineId>, lines: seq<Line>, p: nat, e: nat)
    requires |order| == |lines| && p <= e <= |lines|
    requires forall j: nat :: j < |lines| && !(p <= j < e) ==> LineOk(m, order[j], lines[j])
    ensures LinesOk(m, order[..p] + order[e..], lines[..p] + lines[e..])
  {
    var o, n := order[..p] + order[e..], lines[..p] + lines[e..];
    forall j: nat | j < |n|
      ensures LineOk(m, o[j], n[j])
    {
      var q := if j < p then j else e + j - p;
      assert o[j] == order[q] && n[j] == lines[q];
    }
  }

  /** The section links after a token is gone. */
  lemma DeletedChain(m: Links, now: Links, order: seq<LineId>, s: Store, t: Store, fold: Fold, i: nat, n: nat)
    requires Shows(m, order, s) && Good(s, fold) && TokenDeleted(t, s, i, n)
    requires var c := s.chain[s.sections[i]];
      c[n] in m.snext && s.sections[i] in m.tline && PassesBy(m, now, s.sections[i], c, n)
    requires now.tline == m.tline
    ensures SectionsOk(now, t)
  {
    var c := s.chain[s.sections[i]];
    assert SectionOk(m, s.sections[i], c);
    SectionWithout(m, now, s.sections[i], c, n);
    SectionChanged(m, now, order, s, t, fold, i, c[n], c[..n] + c[n + 1..]);
  }

  /** The links after a token is gone from a line that keeps others. */
  lemma ShortenedShown(m: Links, now: Links, order: seq<LineId>, s: Store, t: Store, fold: Fold, i: nat, n: nat,
                       k: nat, j: nat)
    requires Shows(m, order, s) && Good(s, fold) && TokenDeleted(t, s, i, n)
    requires var x := s.chain[s.sections[i]][n];
      && StandsIn(s.lines, k, j, x) && t.lines == Cut(s.lines, k, j) && x in m.tnext && x in m.snext
      && |s.lines[k].ids| > 1 && LinePasses(m, now, order[k], s.lines[k].ids, j)
      && s.sections[i] in m.tline && PassesBy(m, now, s.sections[i], s.chain[s.sections[i]], n)
    requires now.next == m.next && now.prev == m.prev && now.first == m.first
    requires now.quiet == m.quiet && now.tline == m.tline
    ensures Shows(now, order, t)
  {
    var ids := s.lines[k].ids;
    DeletedChain(m, now, order, s, t, fold, i, n);
    assert LineOk(m, order[k], s.lines[k]);
    OthersKept(m, now, order, s.lines, k);
    LineWithout(m, now, order[k], ids, j);
    LinesWith(m, now, order, s.lines, k, Items(ids[..j] + ids[j + 1..]));
  }

  /** The links after a token is gone with its line. */
  lemma RemovedShown(m: Links, now: Links, order: seq<LineId>, s: Store, t: Store, fold: Fold, i: nat, n: nat,
                     k: nat, j: nat)
    requires Shows(m, order, s) && Good(s, fold) && TokenDeleted(t, s, i, n)
    requires var x := s.chain[s.sections[i]][n];
      && StandsIn(s.lines, k, j, x) && t.lines == Cut(s.lines, k, j) && x in m.tnext && x in m.snext
      && |s.lines[k].ids| == 1
      && s.sections[i] in m.tline && PassesBy(m, now, s.sections[i], s.chain[s.sections[i]], n)
    requires var o := order[..k] + order[k + 1..]; List(now.next, now.first, o) && Back(now.prev, o)
    requires now.quiet == m.quiet && now.tline == m.tline && now.tnext == m.tnext
    requires forall l :: l in m.token && l != order[k] ==> l in now.token && now.token[l] == m.token[l]
    ensures Shows(now, order[..k] + order[k + 1..], t)
  {
    DeletedChain(m, now, order, s, t, fold, i, n);
    OthersKept(m, now, order, s.lines, k);
    LinesLess(now, order, s.lines, k, k + 1);
  }

  // ----- Sections -----

  /** The links with the header line of a new, empty section at place `p`. */
  lemma HeaderShown(m: Links, now: Links, order: seq<LineId>, s: Store, t: Store, fold: Fold, w: nat, p: nat, x: Id,
                    l: LineId)
    requires Shows(m, order, s) && Good(s, fold) && w <= |s.sections| && p <= |order| && x == s.supply && l !in order
    requires t.sections == s.sections[..w] + [x] + s.sections[w..] && t.chain == s.chain[x := []]
    requires t.lines == s.lines[..p] + [Header(x)] + s.lines[p..]
    requires var o := order[..p] + [l] + order[p..]; List(now.next, now.first, o) && Back(now.prev, o)
    requires now.quiet == m.quiet - {l} && now.token == m.token[l := To(x)] && now.tnext == m.tnext
    requires now.tline == m.tline[x := l] && now.etoken == m.etoken[l := Null] && now.snext == m.snext
    ensures Shows(now, order[..p] + [l] + order[p..], t)
  {
    HeaderLines(m, now, order, s, fold, p, x, l);
    HeaderSections(m, now, order, s, fold, x, l);
    forall j: nat | j < |t.sections|
      ensures t.sections[j] in t.chain && SectionOk(now, t.sections[j], t.chain[t.sections[j]])
    {
      if j != w {
        assert t.sections[j] == s.sections[if j < w then j else j - 1];
      }
    }
  }

  /** The line before which a header goes. */
  lemma TargetPlace(m: Links, order: seq<LineId>, s: Store, t: Store, fold: Fold, w: nat, p: nat, q: nat, x: Id)
    requires Shows(m, order, s) && Good(s, fold) && w <= |s.sections| && HeaderPlacedAt(t.lines, s, w, x, p, q)
    ensures p <= q <= |order| && t.lines == s.lines[..p] + [Header(x)] + s.lines[p..]
    ensures if s.sections == [] then p == q == |order| else RemarksFrom(s.lines, p, q) && order != []
    ensures if w < |s.sections|
      then s.sections[w] in m.tline && At(order, q) == To(m.tline[s.sections[w]])
      else At(order, q) == Null
  {
    if w < |s.sections| {
      assert LineOk(m, order[q], s.lines[q]);
    }
    if s.sections != [] {
      var h := HeaderAt(m, order, s, fold, 0);
    }
  }

  lemma HeaderLines(m: Links, now: Links, order: seq<LineId>, s: Store, fold: Fold, p: nat, x: Id, l: LineId)
    requires Shows(m, order, s) && Good(s, fold) && p <= |order| && x == s.supply && l !in order
    requires now.quiet == m.quiet - {l} && now.token == m.token[l := To(x)] && now.tnext == m.tnext
    requires now.tline == m.tline[x := l]
    ensures LinesOk(now, order[..p] + [l] + order[p..], s.lines[..p] + [Header(x)] + s.lines[p..])
  {
    var o, n := order[..p] + [l] + order[p..], s.lines[..p] + [Header(x)] + s.lines[p..];
    TokensBelow(s, fold);
    forall j: nat | j < |n|
      ensures LineOk(now, o[j], n[j])
    {
      if j != p {
        var q := if j < p then j else j - 1;
        assert o[j] == order[q] && n[j] == s.lines[q] && LineOk(m, order[q], s.lines[q]);
        LineKept(m, now, order[q], s.lines[q]);
      }
    }
  }

  lemma HeaderSections(m: Links, now: Links, order: seq<LineId>, s: Store, fold: Fold, x: Id, l: LineId)
    requires Shows(m, order, s) && Good(s, fold) && x == s.supply && l !in order
    requires now.tline == m.tline[x := l] && now.etoken == m.etoken[l := Null] && now.snext == m.snext
    ensures forall q: nat :: q < |s.sections| ==>
      && s.sections[q] in s.chain && s.sections[q] != x && SectionOk(now, s.sections[q], s.chain[s.sections[q]])
    ensures SectionOk(now, x, [])
  {
    TokensBelow(s, fold);
    forall q: nat | q < |s.sections|
      ensures s.sections[q] in s.chain && s.sections[q] != x && SectionOk(now, s.sections[q], s.chain[s.sections[q]])
    {
      assert SectionOk(m, s.sections[q], s.chain[s.sections[q]]);
      var h := HeaderAt(m, order, s, fold, q);
    }
  }

  /** The links without the lines from `p` to `e` of a section. */
  lemma CutShown(m: Links, now: Links, order: seq<LineId>, s: Store, t: Store, fold: Fold, i: nat, p: nat, e: nat)
    requires Shows(m, order, s) && Good(s, fold) && i < |s.sections| && p <= e <= |order|
    requires t.sections == s.sections[..i] + s.sections[i + 1..] && t.chain == s.chain - {s.sections[i]}
    requires t.lines == s.lines[..p] + s.lines[e..]
    requires var o := order[..p] + order[e..]; List(now.next, now.first, o) && Back(now.prev, o)
    requires now.quiet == m.quiet && now.token == m.token && now.tnext == m.tnext
    requires now.tline == m.tline && now.etoken == m.etoken && now.snext == m.snext
    ensures Shows(now, order[..p] + order[e..], t)
  {
    forall j: nat | j < |s.lines|
      ensures LineOk(now, order[j], s.lines[j])
    {
      assert LineOk(m, order[j], s.lines[j]);
    }
    LinesLess(now, order, s.lines, p, e);
    SectionsLess(m, now, order, s, t, fold, i);
  }

  lemma SectionsLess(m: Links, now: Links, order: seq<LineId>, s: Store, t: Store, fold: Fold, i: nat)
    requires Shows(m, order, s) && Good(s, fold) && i < |s.sections|
    requires t.sections == s.sections[..i] + s.sections[i + 1..] && t.chain == s.chain - {s.sections[i]}
    requires now.tline == m.tline && now.etoken == m.etoken && now.snext == m.snext
    ensures SectionsOk(now, t)
  {
    RestOfSections(s, fold, i);
    forall j: nat | j < |t.sections|
      ensures t.sections[j] in t.chain && SectionOk(now, t.sections[j], t.chain[t.sections[j]])
    {
      var q := if j < i then j else j + 1;
      assert t.sections[j] == s.sections[q] && s.sections[q] != s.sections[i];
      assert SectionOk(m, s.sections[q], s.chain[s.sections[q]]);
    }
  }

  /** The place of the next header, or the end. */
  lemma NextPlace(m: Links, order: seq<LineId>, s: Store, fold: Fold, i: nat, h: nat, e: nat) returns (next: nat)
    requires Shows(m, order, s) && Good(s, fold) && i < |s.sections|
    requires h < |s.lines| && s.lines[h] == Header(s.sections[i]) && LastIs(s.lines, h, e)
    ensures e <= next <= |order| && Quiet(s.lines[e..next])
    ensures if i + 1 < |s.sections|
      then s.sections[i + 1] in m.tline && next < |order| && order[next] == m.tline[s.sections[i + 1]]
      else next == |order|
  {
    var nx := |s.lines|;
    if i + 1 < |s.sections| {
      nx := HeaderAt(m, order, s, fold, i + 1);
    }
    NextHeaderPlace(s, fold, i, h, nx);
    next := nx;
    RestToNext(s.lines, h, e, nx);
  }

  /** The lines that go with a section, and the place of the next header. */
  lemma CutPlaces(m: Links, order: seq<LineId>, s: Store, fold: Fold, i: nat, p: nat, h: nat, e: nat) returns (nx: nat)
    requires Shows(m, order, s) && Good(s, fold) && i < |s.sections| && SectionAt(s.lines, s.sections[i], p, h, e)
    ensures s.sections[i] in m.tline && h < |order| && m.tline[s.sections[i]] == order[h] && p <= e <= nx <= |order|
    ensures Quiet(s.lines[e..nx]) && RemarksFrom(s.lines, p, h) && LastIs(s.lines, h, e)
    ensures if i + 1 < |s.sections|
      then s.sections[i + 1] in m.tline && At(order, nx) == To(m.tline[s.sections[i + 1]])
      else At(order, nx) == Null
  {
    assert LineOk(m, order[h], s.lines[h]);
    nx := NextPlace(m, order, s, fold, i, h, e);
  }

  lemma NextHeaderPlace(s: Store, fold: Fold, i: nat, h: nat, nx: nat)
    requires Good(s, fold) && i < |s.sections| && h < |s.lines| && s.lines[h] == Header(s.sections[i])
    requires if i + 1 < |s.sections| then nx < |s.lines| && s.lines[nx] == Header(s.sections[i + 1])
      else nx == |s.lines|
    ensures h < nx && forall k :: h < k < nx ==> !s.lines[k].Header?
  {
    HeaderPlace(s.lines, h, i);
    if i + 1 < |s.sections| {
      HeaderPlace(s.lines, nx, i + 1);
    } else {
      assert s.lines[..nx] == s.lines;
    }
    BetweenHeaders(s.lines, h, nx, i);
    NoHeaders(s.lines, h, nx);
  }

  lemma RestToNext(lines: seq<Line>, h: nat, e: nat, nx: nat)
    requires LastIs(lines, h, e) && h < nx <= |lines| && (nx == |lines| || lines[nx].Header?)
    requires forall k :: h < k < nx ==> !lines[k].Header?
    ensures e <= nx && Quiet(lines[e..nx])
  {
    var next: nat :| RestIs(lines, e, next);
    assert forall k :: e <= k < next ==> lines[k] == lines[e..next][k - e];
  }

  /** From a line that is not first back over quiet ones. */
  lemma QuietBefore(m: Links, order: seq<LineId>, s: Store, p: nat, q: nat, k: nat)
    requires Shows(m, order, s) && RemarksFrom(s.lines, p, q) && 0 < k <= q && p <= k
    ensures order[k - 1] in m.quiet <==> p < k
  {
    assert LineOk(m, order[k - 1], s.lines[k - 1]);
    if p < k {
      assert s.lines[k - 1] == s.lines[p..q][k - 1 - p];
    }
  }

  // ----- The memory -----

  class Memory {
    var first: Pointer<LineId>
    var next: map<LineId, Pointer<LineId>>
    var prev: map<LineId, Pointer<LineId>>
    var quiet: set<LineId>
    var token: map<LineId, Pointer<Id>>
    var etoken: map<LineId, Pointer<Id>>
    var tnext: map<Id, Pointer<Id>>
    var snext: map<Id, Pointer<Id>>
    var tline: map<Id, LineId>

    ghost function State(): Links
      reads this
    {
      Links(first, next, prev, quiet, token, etoken, tnext, snext, tline)
    }

    constructor ()
      ensures Shows(State(), [], EMPTY)
      ensures State() == Links(Null, map[], map[], {}, map[], map[], map[], map[], map[])
    {
      first, next, prev, quiet := Null, map[], map[], {};
      token, etoken, tnext, snext, tline := map[], map[], map[], map[], map[];
    }

    /** The line `l` goes behind the line `cur`. */
    method LinkLine(cur: LineId, l: LineId, ghost order: seq<LineId>, ghost k: nat)
      requires List(next, first, order) && Back(prev, order) && k < |order| && cur == order[k] && l !in order
      modifies this`next, this`prev
      ensures List(next, first, order[..k + 1] + [l] + order[k + 1..])
      ensures Back(prev, order[..k + 1] + [l] + order[k + 1..])
    {
      ListInsert(next, first, order, k, l);
      BackInsert(prev, order, k, l);
      prev := prev[l := To(cur)];
      var behind := next[cur];
      next := next[l := behind];
      if behind.To? {
        prev := prev[behind.address := To(l)];
      }
      next := next[cur := To(l)];
    }

    /** The structures of a new token in a line of its own. */
    method NewTokenLine(l: LineId, x: Id)
      modifies this`quiet, this`token, this`tnext, this`tline
      ensures quiet == old(quiet) - {l} && token == old(token)[l := To(x)]
      ensures tnext == old(tnext)[x := Null] && tline == old(tline)[x := l]
    {
      quiet, token := quiet - {l}, token[l := To(x)];
      tnext, tline := tnext[x := Null], tline[x := l];
    }

    method SnextBehind(y: Id, x: Id)
      requires y in snext && y != x
      modifies this`snext
      ensures snext == old(snext)[x := old(snext)[y]][y := To(x)]
    {
      snext := snext[x := snext[y]];
      snext := snext[y := To(x)];
    }

    method SnextFirst(header: LineId, x: Id)
      requires header in etoken
      modifies this`snext, this`etoken
      ensures snext == old(snext)[x := old(etoken)[header]] && etoken == old(etoken)[header := To(x)]
    {
      snext := snext[x := etoken[header]];
      etoken := etoken[header := To(x)];
    }

    method WedgeFirst(cur: LineId, l: LineId, x: Id, ghost order: seq<LineId>, ghost k: nat)
      requires List(next, first, order) && Back(prev, order) && k < |order| && cur == order[k] && l !in order
      requires cur in etoken
      modifies this
      ensures Wedged(old(State()), State(), order, k, l, x)
      ensures snext == old(snext)[x := old(etoken)[cur]] && etoken == old(etoken)[cur := To(x)]
    {
      LinkLine(cur, l, order, k);
      NewTokenLine(l, x);
      SnextFirst(cur, x);
    }

    method WedgeBehind(cur: LineId, y: Id, l: LineId, x: Id, ghost order: seq<LineId>, ghost k: nat)
      requires List(next, first, order) && Back(prev, order) && k < |order| && cur == order[k] && l !in order
      requires y in snext && y != x
      modifies this
      ensures Wedged(old(State()), State(), order, k, l, x)
      ensures snext == old(snext)[x := old(snext)[y]][y := To(x)] && etoken == old(etoken)
    {
      LinkLine(cur, l, order, k);
      NewTokenLine(l, x);
      SnextBehind(y, x);
    }

    /** The structures of a header line. */
    method NewHeaderLine(l: LineId, x: Id)
      modifies this`quiet, this`token, this`etoken, this`tline
      ensures quiet == old(quiet) - {l} && token == old(token)[l := To(x)]
      ensures etoken == old(etoken)[l := Null] && tline == old(tline)[x := l]
    {
      quiet, token := quiet - {l}, token[l := To(x)];
      etoken, tline := etoken[l := Null], tline[x := l];
    }

    /** A token becomes the first of its section, in a line behind the header. */
    method AddFirst(section: Id, x: Id, l: LineId, ghost order: seq<LineId>, ghost s: Store, ghost t: Store,
                    ghost fold: Fold, ghost i: nat, ghost tok: Token)
      returns (ghost now: seq<LineId>)
      requires Shows(State(), order, s) && Good(s, fold) && i < |s.sections| && s.sections[i] == section
      requires TokenInserted(t, s, i, 0, x, tok) && (s.chain[section] == [] || tok.kind.Scalar?)
      requires l !in order
      modifies this
      ensures Shows(State(), now, t) && forall o :: o in now ==> o in order || o == l
    {
      ghost var m := State();
      ghost var k := FirstLine(m, order, s, t, i, x, tok);
      var cur := tline[section];
      WedgeFirst(cur, l, x, order, k);
      now := order[..k + 1] + [l] + order[k + 1..];
      FirstShown(m, State(), order, s, t, fold, i, k, x, l, tok);
    }

    /** A scalar goes behind the scalar `y`, in a line behind its line. */
    method AddBehind(y: Id, x: Id, l: LineId, ghost order: seq<LineId>, ghost s: Store, ghost t: Store,
                     ghost fold: Fold, ghost i: nat, ghost n: nat, ghost tok: Token)
      returns (ghost now: seq<LineId>)
      requires Shows(State(), order, s) && Good(s, fold) && i < |s.sections|
      requires n > 0 && TokenInserted(t, s, i, n, x, tok) && tok.kind.Scalar? && y == s.chain[s.sections[i]][n - 1]
      requires l !in order
      modifies this
      ensures Shows(State(), now, t) && forall o :: o in now ==> o in order || o == l
    {
      ghost var m := State();
      ghost var k, j := LineOfPrevious(m, order, s, t, i, n, x, tok);
      var cur := tline[y];
      WedgeBehind(cur, y, l, x, order, k);
      now := order[..k + 1] + [l] + order[k + 1..];
      BehindShown(m, State(), order, s, t, fold, i, n, k, x, l, tok);
    }

    /** A vector token becomes the first of its section, in the line of the one that was. */
    method AddInFront(section: Id, x: Id, ghost order: seq<LineId>, ghost s: Store, ghost t: Store,
                      ghost fold: Fold, ghost i: nat, ghost tok: Token)
      requires Shows(State(), order, s) && Good(s, fold) && i < |s.sections| && s.sections[i] == section
      requires TokenInserted(t, s, i, 0, x, tok) && tok.kind.Vector? && s.chain[section] != []
      modifies this
      ensures Shows(State(), order, t)
    {
      ghost var m := State();
      ghost var k, j := LineOfPrevious(m, order, s, t, i, 0, x, tok);
      assert SectionOk(m, section, s.chain[section]);
      var header := tline[section];
      var cur := etoken[header].address;
      snext := snext[x := To(cur)];
      tnext := tnext[x := To(cur)];
      tline := tline[x := tline[cur]];
      token := token[tline[cur] := To(x)];
      etoken := etoken[header := To(x)];
      InFrontShown(m, State(), order, s, t, fold, i, k, x, tok);
    }

    /** A vector token goes behind the vector token `y`, in its line. */
    method AddInLine(y: Id, x: Id, ghost order: seq<LineId>, ghost s: Store, ghost t: Store,
                     ghost fold: Fold, ghost i: nat, ghost n: nat, ghost tok: Token)
      requires Shows(State(), order, s) && Good(s, fold) && i < |s.sections|
      requires n > 0 && TokenInserted(t, s, i, n, x, tok) && tok.kind.Vector? && y == s.chain[s.sections[i]][n - 1]
      modifies this
      ensures Shows(State(), order, t)
    {
      ghost var m := State();
      ghost var k, j := LineOfPrevious(m, order, s, t, i, n, x, tok);
      SnextBehind(y, x);
      tnext := tnext[x := tnext[y]];
      tline := tline[x := tline[y]];
      tnext := tnext[y := To(x)];
      InLineShown(m, State(), order, s, t, fold, i, n, k, j, x, tok);
    }

    /** The section links pass by the token `x`; on the way, `ptoken` is the token before, or the first itself. */
    method PassBy(section: Id, x: Id, ghost c: seq<Id>, ghost n: nat)
      requires SectionOk(State(), section, c) && n < |c| && c[n] == x && x in snext
      modifies this`snext, this`etoken
      ensures PassesBy(old(State()), State(), section, c, n)
    {
      var header := tline[section];
      var token := etoken[header];
      var ptoken := token;
      ghost var q: nat := 0;
      while token != To(x)
        invariant q <= n && token == At(c, q) && ptoken == At(c, if q == 0 then 0 else q - 1)
        decreases n - q
      {
        assert Follows(snext, c, q);
        ptoken := token;
        token := snext[token.address];
        q := q + 1;
      }
      assert q == n;
      if ptoken == token {
        etoken := etoken[header := snext[x]];
      } else {
        snext := snext[ptoken.address := snext[x]];
      }
    }

    /** The links of its line pass by the token `x`. */
    method PassInLine(x: Id, ghost ids: seq<Id>, ghost j: nat)
      requires x in tline && tline[x] in token && List(tnext, token[tline[x]], ids)
      requires j < |ids| && ids[j] == x && x in tnext
      modifies this`tnext, this`token
      ensures LinePasses(old(State()), State(), tline[x], ids, j)
    {
      var line := tline[x];
      if token[line] == To(x) {
        token := token[line := tnext[x]];
      } else {
        var pltoken := token[line].address;
        ghost var q: nat := 0;
        assert Follows(tnext, ids, 0);
        while tnext[pltoken] != To(x)
          invariant q < j && pltoken == ids[q] && pltoken in tnext
          decreases j - q
        {
          assert Follows(tnext, ids, q) && Follows(tnext, ids, q + 1);
          pltoken := tnext[pltoken].address;
          q := q + 1;
        }
        assert Follows(tnext, ids, q);
        tnext := tnext[pltoken := tnext[x]];
      }
    }

    /** The line, which is not the first, is taken out of the line list. */
    method UnlinkLine(l: LineId, ghost order: seq<LineId>, ghost k: nat)
      requires List(next, first, order) && Back(prev, order) && 0 < k < |order| && l == order[k]
      modifies this`next, this`prev
      ensures List(next, first, order[..k] + order[k + 1..]) && Back(prev, order[..k] + order[k + 1..])
    {
      ListRemove(next, first, order, k);
      BackRemove(prev, order, k, k + 1);
      assert Precedes(prev, order, k);
      var before, behind := prev[l], next[l];
      next := next[before.address := behind];
      if behind.To? {
        prev := prev[behind.address := before];
      }
    }

    /** The links of its section and those of its line pass by the token `x`. */
    method Pass(section: Id, x: Id, ghost c: seq<Id>, ghost n: nat, ghost ids: seq<Id>, ghost j: nat)
      requires SectionOk(State(), section, c) && n < |c| && c[n] == x && x in snext
      requires x in tline && tline[x] in token && List(tnext, token[tline[x]], ids)
      requires j < |ids| && ids[j] == x && x in tnext
      modifies this`snext, this`etoken, this`tnext, this`token
      ensures PassesBy(old(State()), State(), section, c, n) && LinePasses(old(State()), State(), tline[x], ids, j)
    {
      PassBy(section, x, c, n);
      PassInLine(x, ids, j);
    }

    /** A vector token goes, and its line with it if no other is left there. */
    method DelVector(section: Id, x: Id, ghost order: seq<LineId>, ghost s: Store, ghost t: Store, ghost fold: Fold,
                     ghost i: nat, ghost n: nat)
      returns (ghost now: seq<LineId>)
      requires Shows(State(), order, s) && Good(s, fold) && i < |s.sections| && s.sections[i] == section
      requires TokenDeleted(t, s, i, n) && s.chain[section][n] == x
      modifies this
      ensures Shows(State(), now, t) && forall o :: o in now ==> o in order
    {
      ghost var m := State();
      ghost var k, j := DeletedPlace(m, order, s, t, fold, i, n);
      var line := tline[x];
      Pass(section, x, s.chain[section], n, s.lines[k].ids, j);
      now := DropEmpty(line, m, order, s, t, fold, i, n, k, j);
    }

    /** The line is taken out if it has no token left. */
    method DropEmpty(line: LineId, ghost m: Links, ghost order: seq<LineId>, ghost s: Store, ghost t: Store,
                     ghost fold: Fold, ghost i: nat, ghost n: nat, ghost k: nat, ghost j: nat)
      returns (ghost now: seq<LineId>)
      requires Shows(m, order, s) && Good(s, fold) && TokenDeleted(t, s, i, n)
      requires var x := s.chain[s.sections[i]][n];
        && StandsIn(s.lines, k, j, x) && t.lines == Cut(s.lines, k, j) && x in m.tnext && x in m.snext && k > 0
        && order[k] == line && LinePasses(m, State(), line, s.lines[k].ids, j)
        && s.sections[i] in m.tline && PassesBy(m, State(), s.sections[i], s.chain[s.sections[i]], n)
      requires next == m.next && prev == m.prev && first == m.first && quiet == m.quiet && tline == m.tline
      modifies this`next, this`prev
      ensures Shows(State(), now, t) && forall o :: o in now ==> o in order
    {
      assert LineOk(m, order[k], s.lines[k]);
      LineWithout(m, State(), line, s.lines[k].ids, j);
      if token[line] == Null {
        UnlinkLine(line, order, k);
        now := order[..k] + order[k + 1..];
        RemovedShown(m, State(), order, s, t, fold, i, n, k, j);
      } else {
        now := order;
        ShortenedShown(m, State(), order, s, t, fold, i, n, k, j);
      }
    }

    /** A scalar goes with its line. */
    method DelScalar(section: Id, x: Id, ghost order: seq<LineId>, ghost s: Store, ghost t: Store, ghost fold: Fold,
                     ghost i: nat, ghost n: nat)
      returns (ghost now: seq<LineId>)
      requires Shows(State(), order, s) && Good(s, fold) && i < |s.sections| && s.sections[i] == section
      requires TokenDeleted(t, s, i, n) && s.chain[section][n] == x && x in s.tokens && s.tokens[x].kind.Scalar?
      modifies this
      ensures Shows(State(), now, t) && forall o :: o in now ==> o in order
    {
      ghost var m := State();
      ghost var k, j := DeletedPlace(m, order, s, t, fold, i, n);
      ScalarAlone(s, fold, i, k, x);
      UnlinkLine(tline[x], order, k);
      PassBy(section, x, s.chain[section], n);
      now := order[..k] + order[k + 1..];
      RemovedShown(m, State(), order, s, t, fold, i, n, k, j);
    }

    /**
      The header line of a new section: before the section whose line is `target`, and before the remarks there; at the
      end if it is the first section.
     */
    method AddSection(target: Pointer<LineId>, any: bool, x: Id, l: LineId, ghost order: seq<LineId>, ghost s: Store,
                      ghost t: Store, ghost fold: Fold, ghost w: nat, ghost p: nat, ghost q: nat)
      requires Shows(State(), order, s) && Good(s, fold) && w <= |s.sections| && x == s.supply && l !in order
      requires t.sections == s.sections[..w] + [x] + s.sections[w..] && t.chain == s.chain[x := []]
      requires HeaderPlacedAt(t.lines, s, w, x, p, q) && (any <==> s.sections != [])
      requires if w < |s.sections| then s.sections[w] in tline && target == To(tline[s.sections[w]]) else target == Null
      modifies this
      ensures Shows(State(), order[..p] + [l] + order[p..], t)
    {
      ghost var m := State();
      TargetPlace(m, order, s, t, fold, w, p, q, x);
      PlaceLine(target, any, l, order, s, p, q);
      NewHeaderLine(l, x);
      HeaderShown(m, State(), order, s, t, fold, w, p, x, l);
    }

    method PlaceLine(target: Pointer<LineId>, any: bool, l: LineId, ghost order: seq<LineId>, ghost s: Store,
                     ghost p: nat, ghost q: nat)
      requires Shows(State(), order, s) && l !in order && p <= q <= |order| && target == At(order, q)
      requires if any then RemarksFrom(s.lines, p, q) && order != [] else p == q == |order|
      modifies this`first, this`next, this`prev
      ensures List(next, first, order[..p] + [l] + order[p..]) && Back(prev, order[..p] + [l] + order[p..])
    {
      if first == Null || (any && first == target) {
        assert p == 0 && order[..0] + [l] + order[0..] == [l] + order;
        LinkFirst(l, order);
        return;
      }
      var cur := Before(target, order, q);
      if !any {
        LinkLine(cur, l, order, p - 1);
        return;
      }
      var behind := BackOver(cur, order, s, p, q);
      if behind == Null {
        assert p == 0 && order[..0] + [l] + order[0..] == [l] + order;
        LinkFirst(l, order);
      } else {
        LinkLine(behind.address, l, order, p - 1);
      }
    }

    method LinkFirst(l: LineId, ghost order: seq<LineId>)
      requires List(next, first, order) && Back(prev, order) && l !in order
      modifies this`first, this`next, this`prev
      ensures List(next, first, [l] + order) && Back(prev, [l] + order)
    {
      ListFront(next, first, order, l);
      BackFront(prev, order, l);
      next, prev := next[l := first], prev[l := Null];
      if first.To? {
        prev := prev[first.address := To(l)];
      }
      first := To(l);
    }

    /** The line before `target`, or the last one. */
    method Before(target: Pointer<LineId>, ghost order: seq<LineId>, ghost q: nat) returns (cur: LineId)
      requires List(next, first, order) && 0 < q <= |order| && target == At(order, q)
      ensures cur == order[q - 1]
    {
      cur := first.address;
      ghost var k: nat := 0;
      assert Follows(next, order, 0);
      while next[cur] != target
        invariant k < q && cur == order[k] && cur in next && next[cur] == At(order, k + 1)
        decreases q - k
      {
        cur := next[cur].address;
        k := k + 1;
        assert Follows(next, order, k);
      }
      SamePlaceIn(order, k + 1, q);
    }

    /** Back over comments and blank lines from the line before place `q`; null if there are only such lines. */
    method BackOver(cur: LineId, ghost order: seq<LineId>, ghost s: Store, ghost p: nat, ghost q: nat)
      returns (behind: Pointer<LineId>)
      requires Shows(State(), order, s) && 0 < q <= |order| && cur == order[q - 1] && RemarksFrom(s.lines, p, q)
      ensures behind == At(order, p - 1)
    {
      behind := To(cur);
      ghost var k := q;
      while behind.To? && behind.address in quiet
        invariant p <= k <= q && behind == At(order, k - 1)
        decreases k
      {
        QuietBefore(State(), order, s, p, q, k);
        assert Precedes(prev, order, k - 1);
        behind := prev[behind.address];
        k := k - 1;
      }
      if k > 0 {
        QuietBefore(State(), order, s, p, q, k);
      }
    }

    /** A section goes with the remarks before it; the lines from its last token to `target` stay. */
    method DelSection(section: Id, target: Pointer<LineId>, ghost order: seq<LineId>, ghost s: Store, ghost t: Store,
                      ghost fold: Fold, ghost i: nat, ghost p: nat, ghost h: nat, ghost e: nat)
      requires Shows(State(), order, s) && Good(s, fold) && i < |s.sections| && s.sections[i] == section
      requires SectionAt(s.lines, section, p, h, e) && t.lines == s.lines[..p] + s.lines[e..]
      requires t.sections == s.sections[..i] + s.sections[i + 1..] && t.chain == s.chain - {section}
      requires if i + 1 < |s.sections| then s.sections[i + 1] in tline && target == To(tline[s.sections[i + 1]])
        else target == Null
      modifies this
      ensures Shows(State(), order[..p] + order[e..], t)
    {
      ghost var m := State();
      ghost var nx := CutPlaces(m, order, s, fold, i, p, h, e);
      CutLines(tline[section], target, order, s, p, h, e, nx);
      CutShown(m, State(), order, s, t, fold, i, p, e);
    }

    method CutLines(line: LineId, target: Pointer<LineId>, ghost order: seq<LineId>, ghost s: Store, ghost p: nat,
                    ghost h: nat, ghost e: nat, ghost nx: nat)
      requires Shows(State(), order, s) && RemarksFrom(s.lines, p, h) && LastIs(s.lines, h, e)
      requires h < |order| && line == order[h] && e <= nx <= |order| && Quiet(s.lines[e..nx]) && target == At(order, nx)
      modifies this`first, this`next, this`prev
      ensures p <= e <= |order|
      ensures List(next, first, order[..p] + order[e..]) && Back(prev, order[..p] + order[e..])
    {
      assert Precedes(prev, order, h);
      var pline := prev[line];
      if pline.To? {
        pline := BackOver(pline.address, order, s, p, h);
      }
      var stopline := LastOf(line, target, order, s, h, e, nx);
      assert Follows(next, order, e - 1);
      Bridge(pline, next[stopline], order, p, e);
    }

    /** The lines from place `p` to `e` are left out of the line list. */
    method Bridge(pline: Pointer<LineId>, behind: Pointer<LineId>, ghost order: seq<LineId>, ghost p: nat, ghost e: nat)
      requires List(next, first, order) && Back(prev, order) && p <= e <= |order|
      requires pline == At(order, p - 1) && behind == At(order, e)
      modifies this`first, this`next, this`prev
      ensures List(next, first, order[..p] + order[e..]) && Back(prev, order[..p] + order[e..])
    {
      ListCut(next, first, order, p, e);
      BackRemove(prev, order, p, e);
      if pline.To? {
        next := next[pline.address := behind];
        if behind.To? {
          prev := prev[behind.address := pline];
        }
      } else {
        first := behind;
        if behind.To? {
          prev := prev[behind.address := Null];
        }
      }
    }

    /** The last line of the section that is no comment and not blank: from `target` back, no further than `line`. */
    method LastOf(line: LineId, target: Pointer<LineId>, ghost order: seq<LineId>, ghost s: Store, ghost h: nat,
                  ghost e: nat, ghost nx: nat)
      returns (stopline: LineId)
      requires Shows(State(), order, s) && h < |order| && line == order[h] && LastIs(s.lines, h, e)
      requires e <= nx <= |order| && Quiet(s.lines[e..nx]) && target == At(order, nx)
      ensures stopline == order[e - 1]
    {
      stopline := line;
      ghost var k := h;
      assert Follows(next, order, h);
      while next[stopline] != target
        invariant h <= k < nx && stopline == order[k] && stopline in next && next[stopline] == At(order, k + 1)
        decreases nx - k
      {
        if k + 1 == nx {
          assert false;
        }
        stopline := next[stopline].address;
        k := k + 1;
        assert Follows(next, order, k);
      }
      SamePlaceIn(order, k + 1, nx);
      while stopline != line && stopline in quiet
        invariant e - 1 <= k < nx && h <= k && stopline == order[k]
        decreases k
      {
        QuietBehind(State(), order, s, h, e, nx, k);
        assert Precedes(prev, order, k);
        stopline := prev[stopline].address;
        k := k - 1;
      }
      QuietBehind(State(), order, s, h, e, nx, k);
    }
  }

  lemma SamePlaceIn(order: seq<LineId>, j: nat, k: nat)
    requires Unlike(order) && 0 < j <= k <= |order| && At(order, j) == At(order, k)
    ensures j == k
  {}

  /** Between the last token of a section and the next header, lines are quiet; the one before is not. */
  lemma QuietBehind(m: Links, order: seq<LineId>, s: Store, h: nat, e: nat, nx: nat, k: nat)
    requires Shows(m, order, s) && LastIs(s.lines, h, e) && e <= nx <= |order| && Quiet(s.lines[e..nx])
    requires h <= k && e - 1 <= k < nx
    ensures k == h ==> e == h + 1
    ensures k > h ==> (order[k] in m.quiet <==> e <= k)
  {
    assert LineOk(m, order[k], s.lines[k]);
    if e <= k {
      assert s.lines[k] == s.lines[e..nx][k - e];
    }
  }

  lemma ScalarAlone(s: Store, fold: Fold, i: nat, k: nat, x: Id)
    requires Good(s, fold) && i < |s.sections| && s.sections[i] in s.chain && x in s.chain[s.sections[i]]
    requires k < |s.lines| && s.lines[k].Items? && x in s.lines[k].ids && x in s.tokens && s.tokens[x].kind.Scalar?
    ensures |s.lines[k].ids| == 1
  {
    LineKinds(s, fold, i, k, x);
    assert TidyLine(s.lines[k], s.tokens, s.supply);
  }
}
