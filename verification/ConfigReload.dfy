/**
  A configuration that is dumped and loaded again (`lch/util/cconfig.c`): what a caller can see of it.
 */
module ConfigReload {
  import opened ConfigModel
  import opened ConfigLines
  import opened ConfigLoading
  import opened ConfigPlaces
  import opened ConfigStore
  import D = ConfigDump
  import L = ConfigLoad
  import RT = ConfigRoundTrip
  import T = ConfigText

  // ----- What a caller sees -----

  datatype TokenView = ScalarView(name: string, value: string, index: int) | VectorView(value: string, index: int)

  datatype SectionView = SectionView(name: string, index: int, tokens: seq<TokenView>)

  function TokenSeen(t: Token, index: int): TokenView {
    if t.kind.Scalar? then ScalarView(t.name, t.value, index) else VectorView(t.value, index)
  }

  /** The sections in order, each with its index and its tokens with theirs. */
  function View(s: Store, fold: Fold): (v: seq<SectionView>)
    requires Good(s, fold)
    ensures |v| == |s.sections|
  {
    seq(|s.sections|, i requires 0 <= i < |s.sections| => SectionSeen(s, fold, i))
  }

  function SectionSeen(s: Store, fold: Fold, i: nat): SectionView
    requires Good(s, fold) && i < |s.sections|
  {
    SectionHit(s, fold, i, "", 0);
    ChainFacts(s, fold, i);
    var x := s.sections[i];
    SectionView(s.tokens[x].name, s.index[x], TokensSeen(s.chain[x], s.tokens, fold, s.index))
  }

  function TokensSeen(ids: seq<Id>, tokens: Tokens, fold: Fold, index: map<Id, int>): seq<TokenView>
    requires Known(ids, tokens) && Ranked(ids, tokens, fold, index)
  {
    seq(|ids|, j requires 0 <= j < |ids| =>
      assert RankedAt(ids, j, tokens, fold, index);
      TokenSeen(tokens[ids[j]], index[ids[j]]))
  }

  // ----- The same seen in the rows of the text -----

  /** A section of the text and its tokens, one row each. */
  datatype Part = Part(name: string, rows: seq<T.Row>)

  predicate IsToken(row: T.Row) {
    row.Scalar? || row.Vector?
  }

  function PartLead(rows: seq<T.Row>): seq<T.Row> {
    if rows == [] || rows[0].Section? then []
    else (if IsToken(rows[0]) then [rows[0]] else []) + PartLead(rows[1..])
  }

  function Parts(rows: seq<T.Row>): seq<Part> {
    if rows == [] then []
    else if rows[0].Section? then [Part(rows[0].name, PartLead(rows[1..]))] + Parts(rows[1..])
    else Parts(rows[1..])
  }

  function RowOfToken(t: Token): T.Row {
    if t.kind.Scalar? then T.Scalar(t.name, t.value) else T.Vector([t.value])
  }

  function RowsOfTokens(ids: seq<Id>, tokens: Tokens): (rows: seq<T.Row>)
    requires Known(ids, tokens)
    ensures |rows| == |ids|
  {
    seq(|ids|, i requires 0 <= i < |ids| => RowOfToken(tokens[ids[i]]))
  }

  lemma {:induction false} TokensLead(a: seq<T.Row>, b: seq<T.Row>)
    requires forall i :: 0 <= i < |a| ==> IsToken(a[i])
    ensures PartLead(a + b) == a + PartLead(b) && Parts(a + b) == Parts(b)
    decreases |a|
  {
    if a == [] {
      assert a + b == b;
    } else {
      assert (a + b)[1..] == a[1..] + b;
      TokensLead(a[1..], b);
    }
  }

  /** A line of tokens holds one scalar or only vectors. */
  predicate Even(l: Line, tokens: Tokens) {
    Readable(l, tokens) &&
    (l.Items? ==>
       var kind := tokens[l.ids[0]].kind;
       && (kind.Scalar? ==> |l.ids| == 1)
       && forall i :: 0 <= i < |l.ids| ==> tokens[l.ids[i]].kind.Scalar? == kind.Scalar?)
  }

  /** One line, its tokens taken apart. */
  function LineRows(l: Line, tokens: Tokens): seq<T.Row>
    requires Readable(l, tokens)
  {
    match l
    case Items(ids) => RowsOfTokens(ids, tokens)
    case _ => [RowOf(l, tokens)]
  }

  lemma FirstLine(lines: seq<Line>, tokens: Tokens)
    requires lines != [] && AllReadable(lines, tokens) && Even(lines[0], tokens)
    ensures AllReadable(lines[1..], tokens)
    ensures T.Singles(RowsOf(lines, tokens)) == LineRows(lines[0], tokens) + T.Singles(RowsOf(lines[1..], tokens))
  {
    var rows := RowsOf(lines, tokens);
    assert rows[1..] == RowsOf(lines[1..], tokens);
    var l := lines[0];
    if l.Items? && !tokens[l.ids[0]].kind.Scalar? {
      assert T.OneEach(ValuesOf(l.ids, tokens)) == RowsOfTokens(l.ids, tokens);
    } else if l.Items? {
      assert RowsOfTokens(l.ids, tokens) == [RowOf(l, tokens)];
    }
  }

  /** The sections of the lines are the sections of their rows. */
  predicate SameParts(blocks: seq<Block>, tokens: Tokens, parts: seq<Part>) {
    && |blocks| == |parts|
    && forall i :: 0 <= i < |blocks| ==> SamePart(blocks[i], tokens, parts[i])
  }

  predicate SamePart(b: Block, tokens: Tokens, part: Part) {
    b.section in tokens && Known(b.ids, tokens) && part == Part(tokens[b.section].name, RowsOfTokens(b.ids, tokens))
  }

  /** The lines and the rows say the same. */
  predicate Agree(lines: seq<Line>, tokens: Tokens, rows: seq<T.Row>) {
    && Known(Lead(lines), tokens) && PartLead(rows) == RowsOfTokens(Lead(lines), tokens)
    && SameParts(Blocks(lines), tokens, Parts(rows))
  }

  lemma {:induction false} LinesToParts(lines: seq<Line>, tokens: Tokens)
    requires AllReadable(lines, tokens) && forall i :: 0 <= i < |lines| ==> Even(lines[i], tokens)
    ensures Agree(lines, tokens, T.Singles(RowsOf(lines, tokens)))
    decreases |lines|
  {
    if lines != [] {
      var l, rest := lines[0], lines[1..];
      FirstLine(lines, tokens);
      LinesToParts(rest, tokens);
      OneLineMore(l, rest, tokens, T.Singles(RowsOf(rest, tokens)));
      assert lines == [l] + rest;
    }
  }

  lemma OneLineMore(l: Line, rest: seq<Line>, tokens: Tokens, more: seq<T.Row>)
    requires Readable(l, tokens) && Agree(rest, tokens, more)
    ensures Agree([l] + rest, tokens, LineRows(l, tokens) + more)
  {
    assert ([l] + rest)[1..] == rest;
    match l {
      case Items(ids) => ItemsFirst(ids, rest, tokens, more);
      case Header(x) => HeaderFirst(x, rest, tokens, more);
      case Remark(text) => RemarkFirst(text, rest, tokens, more);
    }
  }

  lemma ItemsFirst(ids: seq<Id>, rest: seq<Line>, tokens: Tokens, more: seq<T.Row>)
    requires Known(ids, tokens) && Agree(rest, tokens, more)
    ensures Agree([Items(ids)] + rest, tokens, RowsOfTokens(ids, tokens) + more)
  {
    LeadOf(ids, rest);
    TokensLead(RowsOfTokens(ids, tokens), more);
    assert RowsOfTokens(ids + Lead(rest), tokens) == RowsOfTokens(ids, tokens) + RowsOfTokens(Lead(rest), tokens);
  }

  lemma RemarkFirst(text: string, rest: seq<Line>, tokens: Tokens, more: seq<T.Row>)
    requires Agree(rest, tokens, more)
    ensures Agree([Remark(text)] + rest, tokens, [T.Remark(text)] + more)
  {
    assert ([T.Remark(text)] + more)[1..] == more && ([Remark(text)] + rest)[1..] == rest;
    assert [] + Lead(rest) == Lead(rest) && [] + PartLead(more) == PartLead(more);
  }

  lemma HeaderFirst(x: Id, rest: seq<Line>, tokens: Tokens, more: seq<T.Row>)
    requires x in tokens && Agree(rest, tokens, more)
    ensures Agree([Header(x)] + rest, tokens, [T.Section(tokens[x].name)] + more)
  {
    assert ([T.Section(tokens[x].name)] + more)[1..] == more;
    assert ([Header(x)] + rest)[1..] == rest;
    var blocks, parts := Blocks(rest), Parts(more);
    var b, p := Block(x, Lead(rest)), Part(tokens[x].name, PartLead(more));
    assert SamePart(b, tokens, p);
    forall i | 0 <= i < |[b] + blocks|
      ensures SamePart(([b] + blocks)[i], tokens, ([p] + parts)[i])
    {
      if i > 0 {
        assert SamePart(blocks[i - 1], tokens, parts[i - 1]);
      }
    }
  }

  lemma EvenLine(s: Store, fold: Fold, i: nat)
    requires Good(s, fold) && AllReadable(s.lines, s.tokens) && i < |s.lines|
    ensures Even(s.lines[i], s.tokens)
  {
    assert Readable(s.lines[i], s.tokens) && TidyLine(s.lines[i], s.tokens, s.supply);
    if s.lines[i].Items? {
      var w := s.lines[i].ids;
      var n := HomeOf(s.lines, i);
      assert w[0] in w;
      LineKinds(s, fold, n, i, w[0]);
    }
  }

  lemma HomeOf(lines: seq<Line>, i: nat) returns (n: nat)
    requires i < |lines| && lines[i].Items? && lines[i].ids != [] && Lead(lines) == []
    ensures n < |Blocks(lines)| && lines[i].ids[0] in Blocks(lines)[n].ids
  {
    var a, w, b := lines[..i], lines[i].ids, lines[i + 1..];
    assert lines[i] == Items(w) && lines == a + [Items(w)] + b;
    HasHome(a, w, b);
    InLine(a, w, b);
    n := |Blocks(a)| - 1;
    var last := Blocks(a)[n];
    assert Blocks(lines)[n] == Block(last.section, last.ids + (w + Lead(b)));
    assert (last.ids + (w + Lead(b)))[|last.ids|] == w[0];
  }

  // ----- Indices from names -----

  function CountKeys(keys: seq<Key>, key: Key): nat {
    if keys == [] then 0
    else CountKeys(keys[..|keys| - 1], key) + (if keys[|keys| - 1] == key then 1 else 0)
  }

  function KeysOf(ids: seq<Id>, tokens: Tokens, fold: Fold): (keys: seq<Key>)
    requires Known(ids, tokens)
    ensures |keys| == |ids|
  {
    seq(|ids|, i requires 0 <= i < |ids| => KeyOf(tokens[ids[i]], fold))
  }

  lemma {:induction false} CountIsKeys(ids: seq<Id>, tokens: Tokens, fold: Fold, key: Key)
    requires Known(ids, tokens)
    ensures Count(ids, tokens, fold, key) == CountKeys(KeysOf(ids, tokens, fold), key)
    decreases |ids|
  {
    if ids != [] {
      var front := ids[..|ids| - 1];
      CountIsKeys(front, tokens, fold, key);
      assert KeysOf(ids, tokens, fold)[..|ids| - 1] == KeysOf(front, tokens, fold);
    }
  }

  /** The index of a token says how many of the keys before its own are the same. */
  lemma IndexIsCount(ids: seq<Id>, j: nat, tokens: Tokens, fold: Fold, index: map<Id, int>, keys: seq<Key>)
    requires Known(ids, tokens) && j < |ids| && RankedAt(ids, j, tokens, fold, index) &&
      keys == KeysOf(ids, tokens, fold)
    ensures index[ids[j]] == CountKeys(keys[..j], keys[j]) + 1
  {
    CountIsKeys(ids[..j], tokens, fold, keys[j]);
    assert KeysOf(ids[..j], tokens, fold) == keys[..j];
  }

  function KeyOfRow(row: T.Row, fold: Fold): Key {
    if row.Scalar? then Named(fold(row.name)) else AnyVector
  }

  function RowKeys(rows: seq<T.Row>, fold: Fold): (keys: seq<Key>)
    ensures |keys| == |rows|
  {
    seq(|rows|, i requires 0 <= i < |rows| => KeyOfRow(rows[i], fold))
  }

  function NameKeys(parts: seq<Part>, fold: Fold): (keys: seq<Key>)
    ensures |keys| == |parts|
  {
    seq(|parts|, i requires 0 <= i < |parts| => Named(fold(parts[i].name)))
  }

  function RowSeen(row: T.Row, index: int): TokenView
    requires row.Scalar? || (row.Vector? && row.values != [])
  {
    if row.Scalar? then ScalarView(row.name, row.value, index) else VectorView(row.values[0], index)
  }

  predicate SingleTokens(rows: seq<T.Row>) {
    forall i :: 0 <= i < |rows| ==> rows[i].Scalar? || (rows[i].Vector? && rows[i].values != [])
  }

  function RowsSeen(rows: seq<T.Row>, fold: Fold): (v: seq<TokenView>)
    requires SingleTokens(rows)
    ensures |v| == |rows|
  {
    var keys := RowKeys(rows, fold);
    seq(|rows|, j requires 0 <= j < |rows| => RowSeen(rows[j], CountKeys(keys[..j], keys[j]) + 1))
  }

  function PartSeen(parts: seq<Part>, fold: Fold, i: nat): SectionView
    requires i < |parts| && SingleTokens(parts[i].rows)
  {
    var keys := NameKeys(parts, fold);
    SectionView(parts[i].name, CountKeys(keys[..i], keys[i]) + 1, RowsSeen(parts[i].rows, fold))
  }

  /** What the text says, counted by occurrence. */
  function PartsSeen(parts: seq<Part>, fold: Fold): (v: seq<SectionView>)
    requires forall i :: 0 <= i < |parts| ==> SingleTokens(parts[i].rows)
    ensures |v| == |parts|
  {
    seq(|parts|, i requires 0 <= i < |parts| => PartSeen(parts, fold, i))
  }

  lemma TokensSeenRows(ids: seq<Id>, tokens: Tokens, fold: Fold, index: map<Id, int>)
    requires Known(ids, tokens) && Ranked(ids, tokens, fold, index)
    requires forall i :: 0 <= i < |ids| ==> !tokens[ids[i]].kind.SectionName?
    ensures var rows := RowsOfTokens(ids, tokens);
      SingleTokens(rows) && TokensSeen(ids, tokens, fold, index) == RowsSeen(rows, fold)
  {
    var rows, keys := RowsOfTokens(ids, tokens), KeysOf(ids, tokens, fold);
    assert keys == RowKeys(rows, fold);
    forall j | 0 <= j < |ids|
      ensures TokensSeen(ids, tokens, fold, index)[j] == RowsSeen(rows, fold)[j]
    {
      assert RankedAt(ids, j, tokens, fold, index);
      IndexIsCount(ids, j, tokens, fold, index, keys);
    }
  }

  /** What a caller sees of a store is what its text says. */
  lemma ViewIsText(s: Store, fold: Fold)
    requires Good(s, fold)
    ensures AllReadable(s.lines, s.tokens)
    ensures var parts := Parts(T.Singles(RowsOf(s.lines, s.tokens)));
      && (forall i :: 0 <= i < |parts| ==> SingleTokens(parts[i].rows))
      && View(s, fold) == PartsSeen(parts, fold)
  {
    D.GoodReadable(s, fold);
    forall i | 0 <= i < |s.lines|
      ensures Even(s.lines[i], s.tokens)
    {
      EvenLine(s, fold, i);
    }
    LinesToParts(s.lines, s.tokens);
    var parts := Parts(T.Singles(RowsOf(s.lines, s.tokens)));
    forall i | 0 <= i < |parts|
      ensures SingleTokens(parts[i].rows)
      ensures SectionSeen(s, fold, i) == PartSeen(parts, fold, i)
    {
      SectionIsPart(s, fold, parts, i);
    }
  }

  lemma SectionIsPart(s: Store, fold: Fold, parts: seq<Part>, i: nat)
    requires Good(s, fold) && SameParts(Blocks(s.lines), s.tokens, parts) && i < |parts|
    ensures SingleTokens(parts[i].rows) && SectionSeen(s, fold, i) == PartSeen(parts, fold, i)
  {
    var blocks := Blocks(s.lines);
    assert SamePart(blocks[i], s.tokens, parts[i]);
    SectionHit(s, fold, i, "", 0);
    ChainFacts(s, fold, i);
    var x := s.sections[i];
    TokensSeenRows(s.chain[x], s.tokens, fold, s.index);
    SectionsKnown(s, fold);
    NamesAreKeys(s, fold, parts);
    assert RankedAt(s.sections, i, s.tokens, fold, s.index);
    IndexIsCount(s.sections, i, s.tokens, fold, s.index, NameKeys(parts, fold));
  }

  lemma NamesAreKeys(s: Store, fold: Fold, parts: seq<Part>)
    requires Good(s, fold) && SameParts(Blocks(s.lines), s.tokens, parts) && Known(s.sections, s.tokens)
    ensures NameKeys(parts, fold) == KeysOf(s.sections, s.tokens, fold)
  {
    forall i | 0 <= i < |parts|
      ensures NameKeys(parts, fold)[i] == KeysOf(s.sections, s.tokens, fold)[i]
    {
      assert SamePart(Blocks(s.lines)[i], s.tokens, parts[i]);
      assert SaneBlock(Blocks(s.lines)[i], s.tokens, fold, s.index);
    }
  }

  /** Stores whose texts differ only in how vectors are wrapped look the same. */
  lemma SameText(s: Store, t: Store, fold: Fold)
    requires Good(s, fold) && Good(t, fold) && AllReadable(s.lines, s.tokens) && AllReadable(t.lines, t.tokens)
    requires T.Singles(RowsOf(s.lines, s.tokens)) == T.Singles(RowsOf(t.lines, t.tokens))
    ensures View(s, fold) == View(t, fold)
  {
    ViewIsText(s, fold);
    ViewIsText(t, fold);
  }

  // ----- Tokens stand where they may -----

  predicate NoEmptyVector(rows: seq<T.Row>) {
    forall i :: 0 <= i < |rows| ==> rows[i].Vector? ==> rows[i].values != []
  }

  lemma {:induction false} EachInOrder(values: seq<string>, rest: seq<T.Row>, mode: T.Mode)
    requires values != []
    ensures T.InOrder(T.OneEach(values) + rest, mode) <==>
            mode.section && !mode.scalar && T.InOrder(rest, mode.(vector := true))
    decreases |values|
  {
    var each := T.OneEach(values);
    assert (each + rest)[1..] == T.OneEach(values[1..]) + rest;
    if |values| == 1 {
      assert T.OneEach(values[1..]) + rest == rest;
    } else {
      EachInOrder(values[1..], rest, mode.(vector := true));
    }
  }

  lemma {:induction false} SinglesInOrder(rows: seq<T.Row>, mode: T.Mode)
    requires NoEmptyVector(rows)
    ensures T.InOrder(T.Singles(rows), mode) <==> T.InOrder(rows, mode)
    decreases |rows|
  {
    if rows != [] {
      var row, rest := rows[0], rows[1..];
      SinglesInOrder(rest, T.ModeAfter(mode, row));
      if row.Vector? {
        EachInOrder(row.values, T.Singles(rest), mode);
      } else {
        assert ([row] + T.Singles(rest))[1..] == T.Singles(rest);
      }
    }
  }

  /** The tokens are of one kind, one that may follow. */
  predicate MayFollow(mode: T.Mode, ids: seq<Id>, tokens: Tokens) {
    && Known(ids, tokens)
    && forall i :: 0 <= i < |ids| ==>
         && mode.section && !tokens[ids[i]].kind.SectionName? && tokens[ids[i]].kind == tokens[ids[0]].kind
         && (if tokens[ids[i]].kind.Scalar? then !mode.vector else !mode.scalar)
  }

  lemma RestMayFollow(mode: T.Mode, ids: seq<Id>, more: seq<Id>, tokens: Tokens)
    requires ids != [] && MayFollow(mode, ids + more, tokens)
    ensures Known(ids, tokens) && !tokens[ids[0]].kind.SectionName?
    ensures var scalar := tokens[ids[0]].kind.Scalar?;
      && mode.section && (if scalar then !mode.vector else !mode.scalar)
      && MayFollow(if scalar then mode.(scalar := true) else mode.(vector := true), more, tokens)
  {
    var all := ids + more;
    assert forall i :: 0 <= i < |ids| ==> all[i] == ids[i];
    assert forall i :: 0 <= i < |more| ==> all[|ids| + i] == more[i];
  }

  lemma {:induction false} LinesInOrder(lines: seq<Line>, tokens: Tokens, mode: T.Mode)
    requires AllReadable(lines, tokens) && MayFollow(mode, Lead(lines), tokens)
    requires forall b :: b in Blocks(lines) ==> MayFollow(T.Mode(true, false, false), b.ids, tokens)
    ensures T.InOrder(RowsOf(lines, tokens), mode)
    decreases |lines|
  {
    if lines != [] {
      var l, rest := lines[0], lines[1..];
      var rows := RowsOf(lines, tokens);
      assert rows[1..] == RowsOf(rest, tokens) && rows[0] == RowOf(l, tokens) && Readable(l, tokens);
      match l {
        case Items(ids) => RestMayFollow(mode, ids, Lead(rest), tokens);
        case Header(x) =>
          assert Blocks(lines) == [Block(x, Lead(rest))] + Blocks(rest);
          assert Block(x, Lead(rest)) in Blocks(lines);
        case Remark(_) => assert Lead(lines) == Lead(rest);
      }
      LinesInOrder(rest, tokens, T.ModeAfter(mode, rows[0]));
    }
  }

  lemma GoodInOrder(s: Store, fold: Fold)
    requires Good(s, fold)
    ensures AllReadable(s.lines, s.tokens) && T.InOrder(RowsOf(s.lines, s.tokens), T.START)
    ensures NoEmptyVector(RowsOf(s.lines, s.tokens))
  {
    D.GoodReadable(s, fold);
    forall b | b in Blocks(s.lines)
      ensures MayFollow(T.Mode(true, false, false), b.ids, s.tokens)
    {
      assert SaneBlock(b, s.tokens, fold, s.index);
    }
    LinesInOrder(s.lines, s.tokens, T.START);
    forall i | 0 <= i < |s.lines|
      ensures var row := RowOf(s.lines[i], s.tokens); row.Vector? ==> row.values != []
    {
      assert Readable(s.lines[i], s.tokens);
    }
  }

  lemma ShownNotEmpty(lines: seq<T.Written>)
    requires RT.AllShown(lines)
    ensures NoEmptyVector(T.RowsOf(lines))
  {
    forall i | 0 <= i < |lines|
      ensures lines[i].row.Vector? ==> lines[i].row.values != []
    {
      assert RT.Shown(lines[i]);
    }
  }

  /** The text of any store comes back exactly when its lines are short and its names and values are clean. */
  lemma StoreRoundTrip(s: Store, fold: Fold, fixed: int)
    requires Good(s, fold)
    ensures AllReadable(s.lines, s.tokens)
    ensures var rows := RowsOf(s.lines, s.tokens);
      var lines := T.WriteRows(rows, fixed);
      && (T.Read(T.Text(lines)) == T.Some(T.RowsOf(lines)) <==> RT.AllOneLine(lines) && RT.AllClean(T.RowsOf(lines)))
      && T.Singles(T.RowsOf(lines)) == T.Singles(rows)
  {
    GoodInOrder(s, fold);
    var rows := RowsOf(s.lines, s.tokens);
    var lines := T.WriteRows(rows, fixed);
    RT.RoundTrip(rows, fixed);
    RT.WriteKeeps(rows, fixed);
    ShownNotEmpty(lines);
    SinglesInOrder(rows, T.START);
    SinglesInOrder(T.RowsOf(lines), T.START);
  }

  /** Dump a configuration and load the text into a new one: the same sections, tokens and indices come back. */
  method Reload(c: Config, fixed: int) returns (d: Config, ret: int)
    requires c.Valid()
    modifies c`dirty
    ensures c.Valid() && c.State() == old(c.State()) && AllReadable(c.lines, c.tokens)
    ensures var lines := T.WriteRows(RowsOf(c.lines, c.tokens), fixed);
      RT.AllOneLine(lines) && RT.AllClean(T.RowsOf(lines)) ==>
        && ret == 0 && d.Valid() && d.fold == c.fold && View(d.State(), c.fold) == View(c.State(), c.fold)
        && AllReadable(d.lines, d.tokens) && RowsOf(d.lines, d.tokens) == T.RowsOf(lines)
  {
    var text := D.Dump(c, fixed);
    ghost var s := c.State();
    StoreRoundTrip(s, c.fold, fixed);
    d := new Config(c.fold);
    ret := L.Load(d, text);
    if ret == 0 && RowsOf(d.lines, d.tokens) == T.RowsOf(T.WriteRows(RowsOf(s.lines, s.tokens), fixed)) {
      SameText(d.State(), s, c.fold);
    }
  }
}
