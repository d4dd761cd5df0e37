/**
  How the loader of the configuration store (`lch/util/cconfig.c`) makes the links: lines and tokens are appended while
  the text is read; then each token is given its line, each header its first token, and the tokens of each section are
  linked across their lines.
 */
module ConfigThreads {
  import opened ConfigModel
  import opened ConfigLoading
  import opened ConfigStore
  import opened ConfigLinks
  import opened ConfigLines
  import opened ConfigPlaces
  import opened LinkedLists
  import D = ConfigDump

  // ----- The tokens of the lines -----

  /** The tokens of a line, but for those of comments and blank lines. */
  function TokensOf(line: Line): seq<Id> {
    match line
    case Remark(_) => []
    case Header(x) => [x]
    case Items(ids) => ids
  }

  function AllTokens(lines: seq<Line>): seq<Id> {
    if lines == [] then [] else TokensOf(lines[0]) + AllTokens(lines[1..])
  }

  /** All tokens stand in some section, in the order of the lines. */
  lemma {:induction false} TokensFlat(lines: seq<Line>)
    ensures AllTokens(lines) == Lead(lines) + Flat(Blocks(lines))
    decreases |lines|
  {
    if lines != [] {
      TokensFlat(lines[1..]);
      match lines[0] {
        case Remark(_) =>
        case Header(x) =>
          assert Flat(Blocks(lines)) == [x] + Lead(lines[1..]) + Flat(Blocks(lines)[1..]);
          assert Blocks(lines)[1..] == Blocks(lines[1..]);
        case Items(ids) =>
      }
    }
  }

  lemma {:induction false} TokensJoin(a: seq<Line>, b: seq<Line>)
    ensures AllTokens(a + b) == AllTokens(a) + AllTokens(b)
    decreases |a|
  {
    if a == [] {
      assert a + b == b;
    } else {
      assert (a + b)[1..] == a[1..] + b;
      TokensJoin(a[1..], b);
    }
  }

  /** The tokens of a line are in no earlier one, and in the line only once. */
  lemma TokensApart(lines: seq<Line>, k: nat)
    requires Distinct(AllTokens(lines)) && k < |lines|
    ensures Unlike(TokensOf(lines[k]))
    ensures forall j, y :: 0 <= j < k && y in TokensOf(lines[j]) ==> y !in TokensOf(lines[k])
  {
    TokensAround(lines, k);
    MiddleApart(AllTokens(lines[..k]), TokensOf(lines[k]), AllTokens(lines[k + 1..]));
    forall j, y | 0 <= j < k && y in TokensOf(lines[j])
      ensures y in AllTokens(lines[..k])
    {
      TokenIn(lines[..k], j, y);
    }
  }

  lemma TokensAround(lines: seq<Line>, k: nat)
    requires k < |lines|
    ensures AllTokens(lines) == AllTokens(lines[..k]) + (TokensOf(lines[k]) + AllTokens(lines[k + 1..]))
  {
    var rest := lines[k..];
    assert lines == lines[..k] + rest && rest[0] == lines[k] && rest[1..] == lines[k + 1..];
    TokensJoin(lines[..k], rest);
  }

  lemma MiddleApart(a: seq<Id>, t: seq<Id>, b: seq<Id>)
    requires Distinct(a + (t + b))
    ensures Unlike(t) && forall y :: y in a ==> y !in t
  {
    var s := a + (t + b);
    assert forall i :: 0 <= i < |t| ==> s[|a| + i] == t[i];
    assert forall i :: 0 <= i < |a| ==> s[i] == a[i];
  }

  lemma {:induction false} TokenIn(lines: seq<Line>, j: nat, y: Id)
    requires j < |lines| && y in TokensOf(lines[j])
    ensures y in AllTokens(lines)
    decreases j
  {
    if j > 0 {
      TokenIn(lines[1..], j - 1, y);
    }
  }

  // ----- Appending -----

  /** As read: the tokens of the line are linked, but do not know their line yet. */
  predicate LineLinked(m: Links, l: LineId, line: Line) {
    if line.Remark? then l in m.quiet
    else l !in m.quiet && l in m.token && List(m.tnext, m.token[l], TokensOf(line))
  }

  /** Lines have been appended at the addresses `order`; no section is linked. */
  ghost predicate Appended(m: Links, order: seq<LineId>, lines: seq<Line>) {
    && List(m.next, m.first, order) && Back(m.prev, order) && |order| == |lines|
    && (forall k: nat :: k < |lines| ==> LineLinked(m, order[k], lines[k]))
    && (forall k: nat :: k < |lines| ==> order[k] in m.etoken && m.etoken[order[k]] == Null)
    && (forall k: nat, y :: k < |lines| && y in TokensOf(lines[k]) ==> y in m.snext && m.snext[y] == Null)
  }

  /** Only what belongs to `changed` has changed. */
  predicate Others<T(==), U(==)>(now: map<T, U>, was: map<T, U>, changed: seq<T>) {
    forall y :: y in was && y !in changed ==> y in now && now[y] == was[y]
  }

  /** A new last line. */
  method AppendLine(mem: Memory, cur: Pointer<LineId>, l: LineId, ghost order: seq<LineId>)
    requires List(mem.next, mem.first, order) && Back(mem.prev, order) && l !in order
    requires cur == At(order, |order| - 1)
    modifies mem`first, mem`next, mem`prev, mem`etoken
    ensures List(mem.next, mem.first, order + [l]) && Back(mem.prev, order + [l])
    ensures mem.etoken == old(mem.etoken)[l := Null]
  {
    mem.next, mem.prev, mem.etoken := mem.next[l := Null], mem.prev[l := Null], mem.etoken[l := Null];
    ListKept(old(mem.next), mem.next, mem.first, order);
    BackAppend(old(mem.prev), order, l);
    if cur == Null {
      mem.first := To(l);
      ListOne(mem.next, l);
      assert order + [l] == [l];
    } else {
      ListAppend(mem.next, mem.first, order, l);
      mem.next := mem.next[cur.address := To(l)];
      mem.prev := mem.prev[l := cur];
      assert mem.prev == old(mem.prev)[l := cur];
    }
  }

  /** A new last token of the line `l`. */
  method AppendToken(mem: Memory, l: LineId, curtoken: Pointer<Id>, x: Id, ghost done: seq<Id>)
    requires curtoken == At(done, |done| - 1) && x !in done
    requires done != [] ==> l in mem.token && List(mem.tnext, mem.token[l], done)
    modifies mem`token, mem`tnext, mem`snext
    ensures l in mem.token && List(mem.tnext, mem.token[l], done + [x])
    ensures mem.snext == old(mem.snext)[x := Null]
    ensures Others(mem.token, old(mem.token), [l])
    ensures Others(mem.tnext, old(mem.tnext), done + [x])
  {
    mem.tnext, mem.snext := mem.tnext[x := Null], mem.snext[x := Null];
    if curtoken == Null {
      mem.token := mem.token[l := To(x)];
      ListOne(mem.tnext, x);
      assert done + [x] == [x];
    } else {
      ListKept(old(mem.tnext), mem.tnext, mem.token[l], done);
      ListAppend(mem.tnext, mem.token[l], done, x);
      mem.tnext := mem.tnext[curtoken.address := To(x)];
    }
  }

  /** The tokens of a new line. */
  method AppendTokens(mem: Memory, l: LineId, line: Line)
    requires Unlike(TokensOf(line)) && (!line.Remark? ==> TokensOf(line) != []) && l !in mem.quiet
    modifies mem`token, mem`tnext, mem`snext, mem`quiet
    ensures LineLinked(mem.State(), l, line)
    ensures mem.quiet == if line.Remark? then old(mem.quiet) + {l} else old(mem.quiet)
    ensures Others(mem.token, old(mem.token), [l])
    ensures Others(mem.tnext, old(mem.tnext), TokensOf(line))
    ensures forall y :: y in TokensOf(line) ==> y in mem.snext && mem.snext[y] == Null
    ensures Others(mem.snext, old(mem.snext), TokensOf(line))
  {
    if line.Remark? {
      mem.quiet := mem.quiet + {l};
      return;
    }
    var ids := TokensOf(line);
    var curtoken: Pointer<Id> := Null;
    var j := 0;
    while j < |ids|
      invariant j <= |ids| && curtoken == At(ids[..j], j - 1) && mem.quiet == old(mem.quiet)
      invariant j > 0 ==> l in mem.token && List(mem.tnext, mem.token[l], ids[..j])
      invariant Others(mem.token, old(mem.token), [l])
      invariant Others(mem.tnext, old(mem.tnext), ids)
      invariant forall y :: y in ids[..j] ==> y in mem.snext && mem.snext[y] == Null
      invariant Others(mem.snext, old(mem.snext), ids)
    {
      assert ids[..j + 1] == ids[..j] + [ids[j]];
      AppendToken(mem, l, curtoken, ids[j], ids[..j]);
      curtoken := To(ids[j]);
      j := j + 1;
    }
    assert ids[..j] == ids;
  }

  /** All lines are read; their addresses are the numbers in turn. */
  method AppendLines(mem: Memory, lines: seq<Line>) returns (ghost order: seq<LineId>)
    requires mem.State() == Links(Null, map[], map[], {}, map[], map[], map[], map[], map[])
    requires Distinct(AllTokens(lines)) && forall k :: 0 <= k < |lines| && lines[k].Items? ==> lines[k].ids != []
    modifies mem
    ensures Appended(mem.State(), order, lines) && forall o :: o in order ==> o < |lines|
    ensures mem.tline == old(mem.tline)
  {
    order := [];
    var curline: Pointer<LineId> := Null;
    var k: nat := 0;
    while k < |lines|
      invariant k <= |lines| && curline == At(order, k - 1) && mem.tline == old(mem.tline)
      invariant Appended(mem.State(), order, lines[..k]) && forall o :: o in order ==> o < k
      invariant forall l :: l in mem.quiet ==> l < k
    {
      TokensApart(lines, k);
      AppendOne(mem, curline, k, lines, order, k);
      order := order + [k];
      curline := To(k);
      k := k + 1;
    }
    assert lines[..k] == lines;
  }

  method AppendOne(mem: Memory, curline: Pointer<LineId>, l: LineId, lines: seq<Line>, ghost order: seq<LineId>, k: nat)
    requires k < |lines| && Appended(mem.State(), order, lines[..k]) && curline == At(order, k - 1)
    requires l !in order && l !in mem.quiet
    requires Unlike(TokensOf(lines[k])) && (lines[k].Items? ==> lines[k].ids != [])
    requires forall j, y :: 0 <= j < k && y in TokensOf(lines[j]) ==> y !in TokensOf(lines[k])
    modifies mem`first, mem`next, mem`prev, mem`etoken, mem`token, mem`tnext, mem`snext, mem`quiet
    ensures Appended(mem.State(), order + [l], lines[..k + 1])
    ensures forall o :: o in mem.quiet ==> o in old(mem.quiet) || o == l
  {
    ghost var m := mem.State();
    AppendLine(mem, curline, l, order);
    AppendTokens(mem, l, lines[k]);
    StillLinked(m, mem.State(), order, lines, k, l);
  }

  /** The lines read before are as they were. */
  lemma StillLinked(m: Links, now: Links, order: seq<LineId>, lines: seq<Line>, k: nat, l: LineId)
    requires k < |lines| && Appended(m, order, lines[..k]) && l !in order && LineLinked(now, l, lines[k])
    requires List(now.next, now.first, order + [l]) && Back(now.prev, order + [l])
    requires now.etoken == m.etoken[l := Null] && forall o :: o in now.quiet && o != l ==> o in m.quiet
    requires m.quiet <= now.quiet && Others(now.token, m.token, [l])
    requires Others(now.tnext, m.tnext, TokensOf(lines[k])) && Others(now.snext, m.snext, TokensOf(lines[k]))
    requires forall y :: y in TokensOf(lines[k]) ==> y in now.snext && now.snext[y] == Null
    requires forall j, y :: 0 <= j < k && y in TokensOf(lines[j]) ==> y !in TokensOf(lines[k])
    ensures Appended(now, order + [l], lines[..k + 1])
  {
    forall j: nat | j < k + 1
      ensures LineLinked(now, (order + [l])[j], lines[..k + 1][j])
    {
      if j < k {
        assert LineLinked(m, order[j], lines[..k][j]) && lines[..k][j] == lines[j];
        if !lines[j].Remark? {
          ListKept(m.tnext, now.tnext, m.token[order[j]], TokensOf(lines[j]));
        }
      }
    }
    var front := lines[..k + 1];
    forall j: nat, y | j < k + 1 && y in TokensOf(front[j])
      ensures y in now.snext && now.snext[y] == Null
    {
      if j < k {
        assert lines[..k][j] == front[j];
      }
    }
    forall j: nat | j < k + 1
      ensures (order + [l])[j] in now.etoken && now.etoken[(order + [l])[j]] == Null
    {
      if j < k {
        assert order[j] in m.etoken;
      }
    }
  }

  // ----- The line of each token -----

  /** The first loop behind the reading: each token within a line gets a pointer to the line. */
  method SetTokenLines(mem: Memory, ghost order: seq<LineId>, ghost lines: seq<Line>)
    requires Appended(mem.State(), order, lines) && Distinct(AllTokens(lines))
    modifies mem`tline
    ensures LinesOk(mem.State(), order, lines)
  {
    var curline := mem.first;
    ghost var k: nat := 0;
    while curline != Null
      invariant k <= |order| && curline == At(order, k) && OkUpTo(mem.State(), order, lines, k)
      invariant Appended(mem.State(), order, lines)
      decreases |order| - k
    {
      assert Follows(mem.next, order, k);
      SetNextLine(mem, curline.address, order, lines, k);
      curline := mem.next[curline.address];
      k := k + 1;
    }
  }

  predicate OkUpTo(m: Links, order: seq<LineId>, lines: seq<Line>, k: nat) {
    |order| == |lines| && k <= |lines| && forall j: nat :: j < k ==> LineOk(m, order[j], lines[j])
  }

  method SetNextLine(mem: Memory, l: LineId, ghost order: seq<LineId>, ghost lines: seq<Line>, ghost k: nat)
    requires Appended(mem.State(), order, lines) && Distinct(AllTokens(lines)) && OkUpTo(mem.State(), order, lines, k)
    requires k < |order| && l == order[k]
    modifies mem`tline
    ensures Appended(mem.State(), order, lines) && OkUpTo(mem.State(), order, lines, k + 1)
  {
    ghost var m := mem.State();
    TokensApart(lines, k);
    assert LineLinked(m, order[k], lines[k]);
    SetTokenLine(mem, l, lines[k]);
    LinesStay(m, mem.State(), order, lines, k);
    AppendedStays(m, mem.State(), order, lines);
  }

  lemma AppendedStays(m: Links, now: Links, order: seq<LineId>, lines: seq<Line>)
    requires Appended(m, order, lines) && now.(tline := m.tline) == m
    ensures Appended(now, order, lines)
  {
    forall k: nat | k < |lines|
      ensures LineLinked(now, order[k], lines[k])
    {
      assert LineLinked(m, order[k], lines[k]);
    }
  }

  method SetTokenLine(mem: Memory, l: LineId, ghost line: Line)
    requires LineLinked(mem.State(), l, line)
    modifies mem`tline
    ensures LineOk(mem.State(), l, line) && Others(mem.tline, old(mem.tline), TokensOf(line))
  {
    if l in mem.quiet {
      return;
    }
    ghost var ids := TokensOf(line);
    var curtoken := mem.token[l];
    ghost var q: nat := 0;
    while curtoken != Null
      invariant q <= |ids| && curtoken == At(ids, q)
      invariant forall j: nat :: j < q ==> ids[j] in mem.tline && mem.tline[ids[j]] == l
      invariant Others(mem.tline, old(mem.tline), ids)
      decreases |ids| - q
    {
      assert Follows(mem.tnext, ids, q);
      mem.tline := mem.tline[curtoken.address := l];
      curtoken := mem.tnext[curtoken.address];
      q := q + 1;
    }
  }

  lemma LinesStay(m: Links, now: Links, order: seq<LineId>, lines: seq<Line>, k: nat)
    requires |order| == |lines| && k < |lines| && now.tnext == m.tnext && now.token == m.token && now.quiet == m.quiet
    requires Others(now.tline, m.tline, TokensOf(lines[k]))
    requires forall j: nat :: j < k ==> LineOk(m, order[j], lines[j])
    requires forall j, y :: 0 <= j < k && y in TokensOf(lines[j]) ==> y !in TokensOf(lines[k])
    ensures forall j: nat :: j < k ==> LineOk(now, order[j], lines[j])
  {
    forall j: nat | j < k
      ensures LineOk(now, order[j], lines[j])
    {
      assert LineOk(m, order[j], lines[j]);
      assert forall y :: y in TokensOf(lines[j]) ==> y !in TokensOf(lines[k]);
      LineKept(m, now, order[j], lines[j]);
    }
  }

  // ----- The tokens of each section -----

  /** The kind of the first token tells a line of tokens. */
  predicate TellsItems(tokens: Tokens, lines: seq<Line>) {
    forall k :: 0 <= k < |lines| ==>
      match lines[k]
      case Remark(_) => true
      case Header(x) => x in tokens && tokens[x].kind.SectionName?
      case Items(ids) => ids != [] && ids[0] in tokens && !tokens[ids[0]].kind.SectionName?
  }

  method HasTokens(mem: Memory, tokens: Tokens, l: LineId, ghost line: Line) returns (yes: bool)
    requires LineOk(mem.State(), l, line) && TellsItems(tokens, [line])
    ensures yes <==> line.Items?
  {
    assert [line][0] == line;
    if l in mem.quiet {
      return false;
    }
    if line.Items? {
      assert mem.token[l] == To(line.ids[0]);
    }
    yes := !tokens[mem.token[l].address].kind.SectionName?;
  }

  /** From the header at `h` to the next one at `e` there is no other. */
  predicate Section(lines: seq<Line>, h: nat, e: nat) {
    h < e <= |lines| && lines[h].Header? && NoHeader(lines[h + 1..e])
  }

  lemma NoHeaderUpTo(lines: seq<Line>, h: nat, e: nat, k: nat)
    requires Section(lines, h, e) && h < k <= e
    ensures NoHeader(lines[h + 1..k])
  {
    var a, b := lines[h + 1..k], lines[h + 1..e];
    assert forall i :: 0 <= i < |a| ==> a[i] == b[i];
  }

  lemma LeadTo(lines: seq<Line>, h: nat, e: nat, k: nat)
    requires Section(lines, h, e) && h < k < e
    ensures Lead(lines[h + 1..k + 1]) == Lead(lines[h + 1..k]) + (if lines[k].Items? then lines[k].ids else [])
    ensures Lead(lines[h + 1..e]) == Lead(lines[h + 1..k]) + Lead(lines[k..e])
  {
    SplitAt(lines, h + 1, k, e);
    NoHeaderUpTo(lines, h, e, k);
    LeadMore(lines[h + 1..k], lines[k]);
    ConfigLoading.NoBlocks(lines[h + 1..k]);
    LeadJoin(lines[h + 1..k], lines[k..e]);
  }

  lemma SplitAt<T>(s: seq<T>, a: nat, k: nat, e: nat)
    requires a <= k < e <= |s|
    ensures s[a..k + 1] == s[a..k] + [s[k]] && s[a..e] == s[a..k] + s[k..e]
  {}

  /** The first token of a section: that of its first line of tokens. */
  method SetFirst(mem: Memory, tokens: Tokens, header: LineId, target: Pointer<LineId>, ghost order: seq<LineId>,
                  ghost lines: seq<Line>, ghost h: nat, ghost e: nat)
    requires List(mem.next, mem.first, order) && LinesOk(mem.State(), order, lines) && TellsItems(tokens, lines)
    requires Section(lines, h, e) && header == order[h] && target == At(order, e)
    requires header in mem.etoken && mem.etoken[header] == Null
    modifies mem`etoken
    ensures mem.etoken == old(mem.etoken)[header := At(Lead(lines[h + 1..e]), 0)]
  {
    var curline := To(header);
    ghost var k := h;
    while curline != target
      invariant h <= k <= e && curline == At(order, k) && mem.etoken == old(mem.etoken)
      invariant k > h ==> Lead(lines[h + 1..k]) == []
      decreases e - k
    {
      assert k < e;
      assert Follows(mem.next, order, k) && LineOk(mem.State(), order[k], lines[k]);
      var yes := HasTokens(mem, tokens, curline.address, lines[k]);
      if k > h {
        LeadTo(lines, h, e, k);
      }
      if yes {
        FirstOfLead(lines, h, e, k);
        mem.etoken := mem.etoken[header := mem.token[curline.address]];
        return;
      }
      curline := mem.next[curline.address];
      k := k + 1;
    }
    assert k == e;
    assert mem.etoken[header := Null] == mem.etoken;
  }

  lemma FirstOfLead(lines: seq<Line>, h: nat, e: nat, k: nat)
    requires Section(lines, h, e) && h < k < e && Lead(lines[h + 1..k]) == [] && lines[k].Items? && lines[k].ids != []
    ensures At(Lead(lines[h + 1..e]), 0) == To(lines[k].ids[0])
  {
    LeadTo(lines, h, e, k);
    assert lines[k..e][0] == lines[k];
    assert Lead(lines[h + 1..e]) == Lead(lines[k..e]);
  }

  /** The address of line `k` leads to that of the next. */
  lemma LineAhead(next: map<LineId, Pointer<LineId>>, first: Pointer<LineId>, order: seq<LineId>, k: nat, e: nat)
    requires List(next, first, order) && k <= e <= |order| && At(order, k) != At(order, e)
    ensures k < e && order[k] in next && At(order, k) == To(order[k]) && next[order[k]] == At(order, k + 1)
  {
    assert k < |order| && Follows(next, order, k);
  }

  /** The tokens of a section are linked, line by line. */
  method LinkTokens(mem: Memory, tokens: Tokens, header: LineId, target: Pointer<LineId>, ghost order: seq<LineId>,
                    ghost lines: seq<Line>, ghost h: nat, ghost e: nat)
    requires List(mem.next, mem.first, order) && LinesOk(mem.State(), order, lines) && TellsItems(tokens, lines)
    requires Section(lines, h, e) && header == order[h] && target == At(order, e)
    requires Unlike(Lead(lines[h + 1..e]))
    requires forall y :: y in Lead(lines[h + 1..e]) ==> y in mem.snext && mem.snext[y] == Null
    modifies mem`snext
    ensures List(mem.snext, At(Lead(lines[h + 1..e]), 0), Lead(lines[h + 1..e]))
    ensures Others(mem.snext, old(mem.snext), Lead(lines[h + 1..e]))
  {
    ghost var was := mem.snext;
    NoneJoined(was, lines, h, e);
    ghost var ptoken := LinkLines(mem, tokens, header, target, order, lines, h, e);
    AllJoined(mem.snext, was, ptoken, lines, h, e);
  }

  method LinkLines(mem: Memory, tokens: Tokens, header: LineId, target: Pointer<LineId>, ghost order: seq<LineId>,
                   ghost lines: seq<Line>, ghost h: nat, ghost e: nat)
    returns (ptoken: Pointer<Id>)
    requires List(mem.next, mem.first, order) && LinesOk(mem.State(), order, lines) && TellsItems(tokens, lines)
    requires Section(lines, h, e) && header == order[h] && target == At(order, e)
    requires Unlike(Lead(lines[h + 1..e])) && Joined(mem.snext, mem.snext, Null, lines, h, h, e)
    modifies mem`snext
    ensures Joined(mem.snext, old(mem.snext), ptoken, lines, h, e, e)
  {
    var curline := To(header);
    ptoken := Null;
    ghost var k, was := h, mem.snext;
    while curline != target
      invariant h <= k <= e && curline == At(order, k) && Joined(mem.snext, was, ptoken, lines, h, k, e)
      invariant LinesOk(mem.State(), order, lines)
      decreases e - k
    {
      LineAhead(mem.next, mem.first, order, k, e);
      ptoken := LinkLine(mem, tokens, curline.address, ptoken, order, lines, h, e, k, was);
      curline := mem.next[curline.address];
      k := k + 1;
    }
  }

  /** The tokens of a section before line `k`. */
  function LeadUpTo(lines: seq<Line>, h: nat, k: nat): seq<Id>
    requires h <= k <= |lines|
  {
    if k == h then [] else Lead(lines[h + 1..k])
  }

  /** The tokens of a section are linked as far as line `k`. */
  predicate Joined(snext: map<Id, Pointer<Id>>, was: map<Id, Pointer<Id>>, ptoken: Pointer<Id>, lines: seq<Line>,
                   h: nat, k: nat, e: nat) {
    h <= k <= e <= |lines| && h < e && Linking(snext, was, ptoken, LeadUpTo(lines, h, k), Lead(lines[h + 1..e]))
  }

  lemma NoneJoined(snext: map<Id, Pointer<Id>>, lines: seq<Line>, h: nat, e: nat)
    requires h < e <= |lines| && forall y :: y in Lead(lines[h + 1..e]) ==> y in snext && snext[y] == Null
    ensures Joined(snext, snext, Null, lines, h, h, e)
  {}

  lemma AllJoined(snext: map<Id, Pointer<Id>>, was: map<Id, Pointer<Id>>, ptoken: Pointer<Id>, lines: seq<Line>,
                  h: nat, e: nat)
    requires Joined(snext, was, ptoken, lines, h, e, e)
    ensures List(snext, At(Lead(lines[h + 1..e]), 0), Lead(lines[h + 1..e]))
    ensures Others(snext, was, Lead(lines[h + 1..e]))
  {}

  method LinkLine(mem: Memory, tokens: Tokens, l: LineId, before: Pointer<Id>, ghost order: seq<LineId>,
                  ghost lines: seq<Line>, ghost h: nat, ghost e: nat, ghost k: nat, ghost was: map<Id, Pointer<Id>>)
    returns (ptoken: Pointer<Id>)
    requires LinesOk(mem.State(), order, lines) && TellsItems(tokens, lines)
    requires Section(lines, h, e) && h <= k < e && l == order[k] && Unlike(Lead(lines[h + 1..e]))
    requires Joined(mem.snext, was, before, lines, h, k, e)
    modifies mem`snext
    ensures Joined(mem.snext, was, ptoken, lines, h, k + 1, e) && LinesOk(mem.State(), order, lines)
  {
    ghost var m := mem.State();
    assert LineOk(mem.State(), order[k], lines[k]);
    var yes := HasTokens(mem, tokens, l, lines[k]);
    if yes {
      ghost var done, all := LeadUpTo(lines, h, k), Lead(lines[h + 1..e]);
      LeadHas(lines, h, e, k, done);
      ptoken := LinkLineTokens(mem, mem.token[l], before, lines[k].ids, done, all, was);
    } else {
      LeadHasNot(lines, h, e, k);
      ptoken := before;
    }
    StillOk(m, mem.State(), order, lines);
  }

  /** The tokens linked so far, with `ptoken` the last; the others have no successor yet. */
  predicate Linking(snext: map<Id, Pointer<Id>>, was: map<Id, Pointer<Id>>, ptoken: Pointer<Id>, done: seq<Id>,
                    all: seq<Id>) {
    && List(snext, At(done, 0), done) && ptoken == At(done, |done| - 1)
    && (forall y :: y in all && y !in done ==> y in snext && snext[y] == Null)
    && Others(snext, was, all)
  }

  lemma LeadHas(lines: seq<Line>, h: nat, e: nat, k: nat, done: seq<Id>)
    requires Section(lines, h, e) && h <= k < e && lines[k].Items? && done == LeadUpTo(lines, h, k)
    ensures |done + lines[k].ids| <= |Lead(lines[h + 1..e])|
    ensures done + lines[k].ids == Lead(lines[h + 1..e])[..|done| + |lines[k].ids|]
    ensures LeadUpTo(lines, h, k + 1) == done + lines[k].ids
  {
    LeadTo(lines, h, e, k);
    assert lines[k..e][0] == lines[k];
    assert Lead(lines[h + 1..e]) == done + (lines[k].ids + Lead(lines[k..e][1..]));
  }

  lemma LeadHasNot(lines: seq<Line>, h: nat, e: nat, k: nat)
    requires Section(lines, h, e) && h <= k < e && !lines[k].Items?
    ensures LeadUpTo(lines, h, k + 1) == LeadUpTo(lines, h, k)
  {
    if k > h {
      LeadTo(lines, h, e, k);
    }
  }

  /** The tokens of one line go behind those of the lines before. */
  method LinkLineTokens(mem: Memory, start: Pointer<Id>, before: Pointer<Id>, ghost ids: seq<Id>, ghost done: seq<Id>,
                        ghost all: seq<Id>, ghost was: map<Id, Pointer<Id>>)
    returns (ptoken: Pointer<Id>)
    requires List(mem.tnext, start, ids) && ids != [] && Linking(mem.snext, was, before, done, all) && Unlike(all)
    requires |done + ids| <= |all| && done + ids == all[..|done| + |ids|]
    modifies mem`snext
    ensures Linking(mem.snext, was, ptoken, done + ids, all)
  {
    ptoken := before;
    var token := start;
    ghost var q: nat := 0;
    assert done + ids[..0] == done;
    while token != Null
      invariant q <= |ids| && token == At(ids, q) && Linking(mem.snext, was, ptoken, done + ids[..q], all)
      decreases |ids| - q
    {
      assert Follows(mem.tnext, ids, q);
      ghost var now := done + ids[..q];
      assert done + ids[..q + 1] == now + [ids[q]];
      NextOfAll(all, done, ids, q);
      LinkingNext(mem.snext, was, ptoken, now, all, ids[q]);
      if ptoken.To? {
        mem.snext := mem.snext[ptoken.address := token];
      }
      ptoken := token;
      token := mem.tnext[token.address];
      q := q + 1;
    }
    assert ids[..q] == ids;
  }

  lemma NextOfAll(all: seq<Id>, done: seq<Id>, ids: seq<Id>, q: nat)
    requires Unlike(all) && |done + ids| <= |all| && done + ids == all[..|done| + |ids|] && q < |ids|
    ensures ids[q] in all && ids[q] !in done + ids[..q]
    ensures forall y :: y in done + ids[..q] ==> y in all
  {
    var n := |done| + q;
    assert forall j :: 0 <= j < n ==> (done + ids[..q])[j] == all[j];
    assert ids[q] == (done + ids)[n] == all[n];
  }

  lemma LinkingNext(snext: map<Id, Pointer<Id>>, was: map<Id, Pointer<Id>>, ptoken: Pointer<Id>, done: seq<Id>,
                    all: seq<Id>, x: Id)
    requires Linking(snext, was, ptoken, done, all) && x in all && x !in done && forall y :: y in done ==> y in all
    ensures var now := if ptoken.To? then snext[ptoken.address := To(x)] else snext;
      Linking(now, was, To(x), done + [x], all)
  {
    if done == [] {
      ListOne(snext, x);
      assert done + [x] == [x];
    } else {
      ListAppend(snext, At(done, 0), done, x);
    }
  }

  // ----- All sections -----

  /** The header of section `j` is at line `heads[j]`, and its tokens reach to the next header. */
  ghost predicate Heads(lines: seq<Line>, sections: seq<Id>, heads: seq<nat>) {
    && |heads| == |sections|
    && forall j: nat :: j < |sections| ==>
      && Section(lines, heads[j], EndAt(lines, heads, j)) && lines[heads[j]] == Header(sections[j])
  }

  function EndAt(lines: seq<Line>, heads: seq<nat>, j: nat): nat {
    if j + 1 < |heads| then heads[j + 1] else |lines|
  }

  function Between(lines: seq<Line>, heads: seq<nat>, j: nat): seq<Id>
    requires j < |heads| && heads[j] < EndAt(lines, heads, j) <= |lines|
  {
    Lead(lines[heads[j] + 1..EndAt(lines, heads, j)])
  }

  lemma LineOfHeader(m: Links, order: seq<LineId>, lines: seq<Line>, sections: seq<Id>, heads: seq<nat>, j: nat)
    requires LinesOk(m, order, lines) && Heads(lines, sections, heads) && j < |sections|
    ensures Section(lines, heads[j], EndAt(lines, heads, j))
    ensures heads[j] < |order| && sections[j] in m.tline && m.tline[sections[j]] == order[heads[j]]
    ensures j + 1 < |sections| ==>
      sections[j + 1] in m.tline && At(order, EndAt(lines, heads, j)) == To(m.tline[sections[j + 1]])
    ensures j + 1 >= |sections| ==> At(order, EndAt(lines, heads, j)) == Null
  {
    assert Section(lines, heads[j], EndAt(lines, heads, j));
    assert LineOk(m, order[heads[j]], lines[heads[j]]);
    if j + 1 < |sections| {
      assert Section(lines, heads[j + 1], EndAt(lines, heads, j + 1));
      assert LineOk(m, order[heads[j + 1]], lines[heads[j + 1]]);
    }
  }

  /** The loop that sets the first token of each section. */
  method SetFirsts(mem: Memory, tokens: Tokens, sections: seq<Id>, ghost order: seq<LineId>, ghost lines: seq<Line>,
                   ghost heads: seq<nat>)
    requires List(mem.next, mem.first, order) && LinesOk(mem.State(), order, lines) && TellsItems(tokens, lines)
    requires Heads(lines, sections, heads) && Unlike(sections) && FirstsUpTo(mem.etoken, order, lines, heads, 0)
    modifies mem`etoken
    ensures LinesOk(mem.State(), order, lines) && FirstsUpTo(mem.etoken, order, lines, heads, |sections|)
  {
    var i: nat := 0;
    while i < |sections|
      invariant i <= |sections| && LinesOk(mem.State(), order, lines) && FirstsUpTo(mem.etoken, order, lines, heads, i)
    {
      SetFirstOf(mem, tokens, sections, i, order, lines, heads);
      i := i + 1;
    }
  }

  method SetFirstOf(mem: Memory, tokens: Tokens, sections: seq<Id>, i: nat, ghost order: seq<LineId>,
                    ghost lines: seq<Line>, ghost heads: seq<nat>)
    requires List(mem.next, mem.first, order) && LinesOk(mem.State(), order, lines) && TellsItems(tokens, lines)
    requires Heads(lines, sections, heads) && Unlike(sections) && i < |sections|
    requires FirstsUpTo(mem.etoken, order, lines, heads, i)
    modifies mem`etoken
    ensures LinesOk(mem.State(), order, lines) && FirstsUpTo(mem.etoken, order, lines, heads, i + 1)
  {
    ghost var m := mem.State();
    LineOfHeader(m, order, lines, sections, heads, i);
    var target := if i + 1 < |sections| then To(mem.tline[sections[i + 1]]) else Null;
    SetFirst(mem, tokens, mem.tline[sections[i]], target, order, lines, heads[i], EndAt(lines, heads, i));
    StillOk(m, mem.State(), order, lines);
    FirstsNext(m.etoken, mem.etoken, order, lines, sections, heads, i);
  }

  lemma FirstsNext(was: map<LineId, Pointer<Id>>, now: map<LineId, Pointer<Id>>, order: seq<LineId>, lines: seq<Line>,
                   sections: seq<Id>, heads: seq<nat>, i: nat)
    requires Unlike(order) && Unlike(sections) && Heads(lines, sections, heads) && |order| == |lines| && i < |sections|
    requires Section(lines, heads[i], EndAt(lines, heads, i)) && FirstsUpTo(was, order, lines, heads, i)
    requires now == was[order[heads[i]] := At(Between(lines, heads, i), 0)]
    ensures FirstsUpTo(now, order, lines, heads, i + 1)
  {
    HeadsApart(order, lines, sections, heads, i);
    forall j: nat | j < i + 1
      ensures FirstSet(now, order, lines, heads, j)
    {
      assert j < i ==> FirstSet(was, order, lines, heads, j);
    }
  }

  /** The first tokens of `i` sections are set. */
  ghost predicate FirstsUpTo(etoken: map<LineId, Pointer<Id>>, order: seq<LineId>, lines: seq<Line>, heads: seq<nat>,
                             i: nat) {
    && (forall j: nat :: j < i ==> FirstSet(etoken, order, lines, heads, j))
    && forall j: nat :: i <= j < |heads| ==>
      heads[j] < |order| && order[heads[j]] in etoken && etoken[order[heads[j]]] == Null
  }

  ghost predicate FirstSet(etoken: map<LineId, Pointer<Id>>, order: seq<LineId>, lines: seq<Line>, heads: seq<nat>,
                           j: nat) {
    && j < |heads| && heads[j] < EndAt(lines, heads, j) <= |lines| && heads[j] < |order|
    && order[heads[j]] in etoken && etoken[order[heads[j]]] == At(Between(lines, heads, j), 0)
  }

  lemma HeadsApart(order: seq<LineId>, lines: seq<Line>, sections: seq<Id>, heads: seq<nat>, i: nat)
    requires Unlike(order) && Unlike(sections) && Heads(lines, sections, heads) && |order| == |lines| && i < |sections|
    ensures forall j: nat :: j < |sections| && j != i ==>
      heads[j] < |order| && heads[i] < |order| && order[heads[j]] != order[heads[i]]
  {
    forall j: nat | j < |sections| && j != i
      ensures heads[j] < |order| && heads[i] < |order| && order[heads[j]] != order[heads[i]]
    {
      assert Section(lines, heads[j], EndAt(lines, heads, j)) && Section(lines, heads[i], EndAt(lines, heads, i));
      assert sections[j] != sections[i];
      assert heads[j] != heads[i];
    }
  }

  /** Links of lines and of sections do not matter for the tokens of the lines. */
  lemma StillOk(m: Links, now: Links, order: seq<LineId>, lines: seq<Line>)
    requires LinesOk(m, order, lines) && now.quiet == m.quiet && now.token == m.token
    requires now.tnext == m.tnext && now.tline == m.tline
    ensures LinesOk(now, order, lines)
  {
    forall k: nat | k < |lines|
      ensures LineOk(now, order[k], lines[k])
    {
      assert LineOk(m, order[k], lines[k]);
    }
  }

  /** The loop that links the tokens of each section. */
  method LinkSections(mem: Memory, tokens: Tokens, sections: seq<Id>, ghost order: seq<LineId>, ghost lines: seq<Line>,
                      ghost heads: seq<nat>)
    requires List(mem.next, mem.first, order) && LinesOk(mem.State(), order, lines) && TellsItems(tokens, lines)
    requires Heads(lines, sections, heads) && BlocksApart(lines, heads) && ChainsUpTo(mem.snext, lines, heads, 0)
    modifies mem`snext
    ensures LinesOk(mem.State(), order, lines) && ChainsUpTo(mem.snext, lines, heads, |sections|)
  {
    var i: nat := 0;
    while i < |sections|
      invariant i <= |sections| && LinesOk(mem.State(), order, lines) && ChainsUpTo(mem.snext, lines, heads, i)
    {
      LinkSection(mem, tokens, sections, i, order, lines, heads);
      i := i + 1;
    }
  }

  method LinkSection(mem: Memory, tokens: Tokens, sections: seq<Id>, i: nat, ghost order: seq<LineId>,
                     ghost lines: seq<Line>, ghost heads: seq<nat>)
    requires List(mem.next, mem.first, order) && LinesOk(mem.State(), order, lines) && TellsItems(tokens, lines)
    requires Heads(lines, sections, heads) && BlocksApart(lines, heads) && i < |sections|
    requires ChainsUpTo(mem.snext, lines, heads, i)
    modifies mem`snext
    ensures LinesOk(mem.State(), order, lines) && ChainsUpTo(mem.snext, lines, heads, i + 1)
  {
    ghost var m := mem.State();
    LineOfHeader(m, order, lines, sections, heads, i);
    var target := if i + 1 < |sections| then To(mem.tline[sections[i + 1]]) else Null;
    BlockFree(m.snext, lines, heads, i);
    LinkTokens(mem, tokens, mem.tline[sections[i]], target, order, lines, heads[i], EndAt(lines, heads, i));
    StillOk(m, mem.State(), order, lines);
    ChainsKept(m.snext, mem.snext, lines, heads, i);
  }

  /** The tokens of `i` sections are linked, those of the others are not. */
  ghost predicate ChainsUpTo(snext: map<Id, Pointer<Id>>, lines: seq<Line>, heads: seq<nat>, i: nat) {
    && (forall j: nat :: j < i ==> ChainSet(snext, lines, heads, j))
    && forall j: nat, y :: i <= j < |heads| && InBlock(lines, heads, j, y) ==> y in snext && snext[y] == Null
  }

  lemma BlockFree(snext: map<Id, Pointer<Id>>, lines: seq<Line>, heads: seq<nat>, i: nat)
    requires i < |heads| && heads[i] < EndAt(lines, heads, i) <= |lines| && ChainsUpTo(snext, lines, heads, i)
    ensures forall y :: y in Between(lines, heads, i) ==> y in snext && snext[y] == Null
  {
    forall y | y in Between(lines, heads, i)
      ensures y in snext && snext[y] == Null
    {
      assert InBlock(lines, heads, i, y);
    }
  }

  ghost predicate InBlock(lines: seq<Line>, heads: seq<nat>, j: nat, y: Id) {
    j < |heads| && heads[j] < EndAt(lines, heads, j) <= |lines| && y in Between(lines, heads, j)
  }

  /** Sections have no token in common, and none twice. */
  ghost predicate BlocksApart(lines: seq<Line>, heads: seq<nat>) {
    && (forall j: nat :: j < |heads| ==>
      heads[j] < EndAt(lines, heads, j) <= |lines| && Unlike(Between(lines, heads, j)))
    && (forall i: nat, j: nat, y :: InBlock(lines, heads, i, y) && InBlock(lines, heads, j, y) ==> i == j)
  }

  ghost predicate ChainSet(snext: map<Id, Pointer<Id>>, lines: seq<Line>, heads: seq<nat>, j: nat) {
    && j < |heads| && heads[j] < EndAt(lines, heads, j) <= |lines|
    && List(snext, At(Between(lines, heads, j), 0), Between(lines, heads, j))
  }

  lemma ChainsKept(was: map<Id, Pointer<Id>>, now: map<Id, Pointer<Id>>, lines: seq<Line>, heads: seq<nat>, i: nat)
    requires BlocksApart(lines, heads) && i < |heads| && ChainsUpTo(was, lines, heads, i)
    requires Others(now, was, Between(lines, heads, i)) && ChainSet(now, lines, heads, i)
    ensures ChainsUpTo(now, lines, heads, i + 1)
  {
    forall j: nat | j < i
      ensures ChainSet(now, lines, heads, j)
    {
      assert ChainSet(was, lines, heads, j);
      assert forall y :: y in Between(lines, heads, j) ==> InBlock(lines, heads, j, y);
      assert forall y :: y in Between(lines, heads, i) ==> InBlock(lines, heads, i, y);
      ListKept(was, now, At(Between(lines, heads, j), 0), Between(lines, heads, j));
    }
    forall j: nat, y | i < j < |heads| && InBlock(lines, heads, j, y)
      ensures y in now && now[y] == Null
    {
      assert y in Between(lines, heads, i) ==> InBlock(lines, heads, i, y);
    }
  }

  // ----- The store and its links -----

  lemma KindsTell(s: Store, fold: Fold)
    requires Good(s, fold)
    ensures TellsItems(s.tokens, s.lines)
  {
    forall k | 0 <= k < |s.lines|
      ensures match s.lines[k]
        case Remark(_) => true
        case Header(x) => x in s.tokens && s.tokens[x].kind.SectionName?
        case Items(ids) => ids != [] && ids[0] in s.tokens && !s.tokens[ids[0]].kind.SectionName?
    {
      if s.lines[k].Header? {
        var j := D.BlockOfHeader(s.lines, k);
        assert SaneBlock(Blocks(s.lines)[j], s.tokens, fold, s.index);
      } else if s.lines[k].Items? {
        ItemsTell(s, fold, k);
      }
    }
  }

  lemma ItemsTell(s: Store, fold: Fold, k: nat)
    requires Good(s, fold) && k < |s.lines| && s.lines[k].Items?
    ensures var ids := s.lines[k].ids; ids != [] && ids[0] in s.tokens && !s.tokens[ids[0]].kind.SectionName?
  {
    var a, w, b := s.lines[..k], s.lines[k].ids, s.lines[k + 1..];
    assert s.lines == a + [Items(w)] + b;
    assert TidyLine(s.lines[k], s.tokens, s.supply);
    HasHome(a, w, b);
    AtItems(a, w, b);
    var n := |Blocks(a)| - 1;
    var block := Blocks(s.lines)[n];
    assert block.ids == Blocks(a)[n].ids + (w + Lead(b));
    assert block.ids[|Blocks(a)[n].ids|] == w[0];
    assert SaneBlock(block, s.tokens, fold, s.index);
  }

  /** What the loops need to know of a loaded store. */
  lemma StoreHeads(s: Store, fold: Fold) returns (heads: seq<nat>)
    requires Good(s, fold)
    ensures Heads(s.lines, s.sections, heads) && BlocksApart(s.lines, heads) && Unlike(s.sections)
    ensures Distinct(AllTokens(s.lines))
    ensures forall j: nat :: j < |heads| ==>
      s.sections[j] in s.chain && s.chain[s.sections[j]] == Between(s.lines, heads, j)
  {
    heads := HeadsOf(s.lines);
    HeadsFound(s.lines);
    TokensFlat(s.lines);
    assert [] + Flat(Blocks(s.lines)) == Flat(Blocks(s.lines));
    HeadersDistinct(Blocks(s.lines));
    forall j: nat | j < |heads|
      ensures Section(s.lines, heads[j], EndAt(s.lines, heads, j)) && s.lines[heads[j]] == Header(s.sections[j])
      ensures Blocks(s.lines)[j].ids == Between(s.lines, heads, j) && Unlike(Between(s.lines, heads, j))
    {
      assert Spans(s.lines, j);
      ChainFacts(s, fold, j);
    }
    forall i: nat, j: nat, y | InBlock(s.lines, heads, i, y) && InBlock(s.lines, heads, j, y)
      ensures i == j
    {
      OneHome(Blocks(s.lines), i, j, y);
    }
  }

  /** Every token of a section stands in a line. */
  lemma {:induction false} LeadIn(lines: seq<Line>, y: Id) returns (k: nat)
    requires y in Lead(lines)
    ensures k < |lines| && lines[k].Items? && y in lines[k].ids
  {
    if lines[0].Items? && y in lines[0].ids {
      k := 0;
    } else {
      k := LeadIn(lines[1..], y);
      k := k + 1;
    }
  }

  lemma NoneLinked(m: Links, order: seq<LineId>, lines: seq<Line>, heads: seq<nat>)
    requires Appended(m, order, lines)
    ensures ChainsUpTo(m.snext, lines, heads, 0)
  {
    forall j: nat, y | j < |heads| && InBlock(lines, heads, j, y)
      ensures y in m.snext && m.snext[y] == Null
    {
      var h, e := heads[j], EndAt(lines, heads, j);
      var k := LeadIn(lines[h + 1..e], y);
      assert lines[h + 1..e][k] == lines[h + 1 + k] && y in TokensOf(lines[h + 1 + k]);
    }
  }

  lemma NoneSet(m: Links, order: seq<LineId>, lines: seq<Line>, sections: seq<Id>, heads: seq<nat>)
    requires Appended(m, order, lines) && Heads(lines, sections, heads)
    ensures FirstsUpTo(m.etoken, order, lines, heads, 0)
  {
    forall j: nat | j < |heads|
      ensures heads[j] < |order| && order[heads[j]] in m.etoken && m.etoken[order[heads[j]]] == Null
    {
      assert Section(lines, heads[j], EndAt(lines, heads, j));
    }
  }

  lemma AllLinked(m: Links, order: seq<LineId>, s: Store, fold: Fold, heads: seq<nat>)
    requires List(m.next, m.first, order) && Back(m.prev, order) && LinesOk(m, order, s.lines)
    requires Heads(s.lines, s.sections, heads) && FirstsUpTo(m.etoken, order, s.lines, heads, |heads|)
    requires ChainsUpTo(m.snext, s.lines, heads, |heads|)
    requires forall j: nat :: j < |heads| ==>
      heads[j] < EndAt(s.lines, heads, j) <= |s.lines|
      && s.sections[j] in s.chain && s.chain[s.sections[j]] == Between(s.lines, heads, j)
    ensures Shows(m, order, s)
  {
    forall j: nat | j < |s.sections|
      ensures SectionOk(m, s.sections[j], s.chain[s.sections[j]])
    {
      LineOfHeader(m, order, s.lines, s.sections, heads, j);
      assert FirstSet(m.etoken, order, s.lines, heads, j) && ChainSet(m.snext, s.lines, heads, j);
    }
  }

  /** The links of a loaded store: read line by line, then threaded by the loops behind the reading. */
  method Thread(c: Config) returns (mem: Memory, ghost order: seq<LineId>)
    requires c.Valid()
    ensures fresh(mem) && Shows(mem.State(), order, c.State()) && forall o :: o in order ==> o < |c.lines|
  {
    mem := new Memory();
    ghost var heads := StoreHeads(c.State(), c.fold);
    KindsTell(c.State(), c.fold);
    order := AppendLines(mem, c.lines);
    ThreadLoops(mem, c.tokens, c.sections, order, c.lines, heads);
    AllLinked(mem.State(), order, c.State(), c.fold, heads);
  }

  /** The loops behind the reading. */
  method ThreadLoops(mem: Memory, tokens: Tokens, sections: seq<Id>, ghost order: seq<LineId>, ghost lines: seq<Line>,
                     ghost heads: seq<nat>)
    requires Appended(mem.State(), order, lines) && TellsItems(tokens, lines) && Distinct(AllTokens(lines))
    requires Heads(lines, sections, heads) && BlocksApart(lines, heads) && Unlike(sections)
    modifies mem`tline, mem`etoken, mem`snext
    ensures LinesOk(mem.State(), order, lines) && FirstsUpTo(mem.etoken, order, lines, heads, |heads|)
    ensures ChainsUpTo(mem.snext, lines, heads, |heads|)
  {
    NoneLinked(mem.State(), order, lines, heads);
    NoneSet(mem.State(), order, lines, sections, heads);
    SetTokenLines(mem, order, lines);
    SetFirsts(mem, tokens, sections, order, lines, heads);
    LinkSections(mem, tokens, sections, order, lines, heads);
  }
}
