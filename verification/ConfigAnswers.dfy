/**
  What `CfgGetValue` of `lch/util/cconfig.c` answers, said by the rows of the text alone: go to the section of that
  name, the n-th of them, and there to the k-th token.
 */
module ConfigAnswers {
  import opened ConfigModel
  import opened ConfigLoading
  import opened ConfigStore
  import opened ConfigReload
  import V = ConfigReload
  import S = ConfigStore
  import D = ConfigDump
  import T = ConfigText
  import Y = ConfigTyped

  // ----- The answer in the text -----

  function Wanted(rows: seq<T.Row>, fold: Fold, section: string, n: int, id: Option<string>, k: int): Option<string>
    decreases |rows|
  {
    if rows == [] then None
    else if rows[0].Section? && fold(rows[0].name) == fold(section) then
      if n == 1 then WantedHere(rows[1..], fold, id, k) else Wanted(rows[1..], fold, section, n - 1, id, k)
    else Wanted(rows[1..], fold, section, n, id, k)
  }

  /** In the rows up to the next section: a scalar of that name, or a vector token if no name is asked for. */
  function WantedHere(rows: seq<T.Row>, fold: Fold, id: Option<string>, k: int): Option<string>
    decreases |rows|
  {
    if rows == [] || rows[0].Section? then None
    else if rows[0].Scalar? && id.Some? && fold(rows[0].name) == fold(id.value) then
      if k == 1 then Some(rows[0].value) else WantedHere(rows[1..], fold, id, k - 1)
    else if rows[0].Vector? && id.None? then
      if 1 <= k <= |rows[0].values| then Some(rows[0].values[k - 1])
      else WantedHere(rows[1..], fold, id, k - |rows[0].values|)
    else WantedHere(rows[1..], fold, id, k)
  }

  // ----- Vectors taken apart -----

  lemma {:induction false} EachHere(values: seq<string>, rest: seq<T.Row>, fold: Fold, id: Option<string>, k: int)
    ensures WantedHere(T.OneEach(values) + rest, fold, id, k) ==
      if id.Some? then WantedHere(rest, fold, id, k)
      else if 1 <= k <= |values| then Some(values[k - 1])
      else WantedHere(rest, fold, id, k - |values|)
    decreases |values|
  {
    if values == [] {
      assert T.OneEach(values) + rest == rest;
    } else {
      assert (T.OneEach(values) + rest)[1..] == T.OneEach(values[1..]) + rest;
      EachHere(values[1..], rest, fold, id, if id.Some? then k else k - 1);
    }
  }

  lemma {:induction false} SinglesHere(rows: seq<T.Row>, fold: Fold, id: Option<string>, k: int)
    ensures WantedHere(T.Singles(rows), fold, id, k) == WantedHere(rows, fold, id, k)
    decreases |rows|
  {
    if rows != [] && !rows[0].Section? {
      var rest := T.Singles(rows[1..]);
      if rows[0].Vector? {
        EachHere(rows[0].values, rest, fold, id, k);
        SinglesHere(rows[1..], fold, id, if id.Some? then k else k - |rows[0].values|);
      } else {
        assert ([rows[0]] + rest)[1..] == rest;
        SinglesHere(rows[1..], fold, id, k - 1);
        SinglesHere(rows[1..], fold, id, k);
      }
    }
  }

  lemma {:induction false} EachAnywhere(values: seq<string>, rest: seq<T.Row>, fold: Fold, section: string, n: int,
                                        id: Option<string>, k: int)
    ensures Wanted(T.OneEach(values) + rest, fold, section, n, id, k) == Wanted(rest, fold, section, n, id, k)
    decreases |values|
  {
    if values == [] {
      assert T.OneEach(values) + rest == rest;
    } else {
      assert (T.OneEach(values) + rest)[1..] == T.OneEach(values[1..]) + rest;
      EachAnywhere(values[1..], rest, fold, section, n, id, k);
    }
  }

  lemma {:induction false} SinglesWanted(rows: seq<T.Row>, fold: Fold, section: string, n: int, id: Option<string>,
                                         k: int)
    ensures Wanted(T.Singles(rows), fold, section, n, id, k) == Wanted(rows, fold, section, n, id, k)
    decreases |rows|
  {
    if rows != [] {
      var rest := T.Singles(rows[1..]);
      SinglesWanted(rows[1..], fold, section, n, id, k);
      if rows[0].Vector? {
        EachAnywhere(rows[0].values, rest, fold, section, n, id, k);
      } else {
        assert ([rows[0]] + rest)[1..] == rest;
        SinglesWanted(rows[1..], fold, section, n - 1, id, k);
        SinglesHere(rows[1..], fold, id, k);
      }
    }
  }

  // ----- Sections taken apart -----

  function WantedPart(parts: seq<Part>, fold: Fold, section: string, n: int, id: Option<string>, k: int):
    Option<string>
  {
    if parts == [] then None
    else if fold(parts[0].name) == fold(section) then
      if n == 1 then WantedHere(parts[0].rows, fold, id, k) else WantedPart(parts[1..], fold, section, n - 1, id, k)
    else WantedPart(parts[1..], fold, section, n, id, k)
  }

  lemma {:induction false} LeadWanted(rows: seq<T.Row>, fold: Fold, id: Option<string>, k: int)
    ensures WantedHere(PartLead(rows), fold, id, k) == WantedHere(rows, fold, id, k)
    decreases |rows|
  {
    if rows != [] && !rows[0].Section? {
      var lead := PartLead(rows[1..]);
      if V.IsToken(rows[0]) {
        assert ([rows[0]] + lead)[1..] == lead;
        LeadWanted(rows[1..], fold, id, k - 1);
        if rows[0].Vector? {
          LeadWanted(rows[1..], fold, id, k - |rows[0].values|);
        }
      } else {
        assert [] + lead == lead;
      }
      LeadWanted(rows[1..], fold, id, k);
    }
  }

  lemma {:induction false} PartsWanted(rows: seq<T.Row>, fold: Fold, section: string, n: int, id: Option<string>,
                                       k: int)
    ensures WantedPart(V.Parts(rows), fold, section, n, id, k) == Wanted(rows, fold, section, n, id, k)
    decreases |rows|
  {
    if rows != [] {
      PartsWanted(rows[1..], fold, section, n, id, k);
      if rows[0].Section? {
        var part, more := Part(rows[0].name, PartLead(rows[1..])), V.Parts(rows[1..]);
        assert ([part] + more)[1..] == more;
        PartsWanted(rows[1..], fold, section, n - 1, id, k);
        LeadWanted(rows[1..], fold, id, k);
      }
    }
  }

  // ----- The store answers as the text does -----

  /** The parts have the names of these tokens. */
  predicate Names(parts: seq<Part>, ids: seq<Id>, tokens: Tokens, fold: Fold) {
    && |parts| == |ids| && Known(ids, tokens)
    && forall i: nat :: i < |ids| ==> KeyOf(tokens[ids[i]], fold) == Named(fold(parts[i].name))
  }

  /** From place `j` on, nothing is the `n`-th of the key. */
  predicate NoneFrom(ids: seq<Id>, j: nat, key: Key, n: int, tokens: Tokens, fold: Fold)
    requires Known(ids, tokens)
  {
    forall i: nat :: j <= i < |ids| ==> !Nth(ids, i, key, n, tokens, fold)
  }

  /** `w` is the answer at the `n`-th place of the key from `j` on; `at` has the answers of all places. */
  predicate Tells(ids: seq<Id>, j: nat, key: Key, n: int, tokens: Tokens, fold: Fold, at: seq<Option<string>>,
                  w: Option<string>)
    requires Known(ids, tokens) && |at| == |ids|
  {
    && (forall i: nat :: j <= i < |ids| && Nth(ids, i, key, n, tokens, fold) ==> w == at[i])
    && (NoneFrom(ids, j, key, n, tokens, fold) ==> w == None)
  }

  /** One place is looked at; if it is not the one asked for, the answer is that of the places behind. */
  lemma TellsStep(ids: seq<Id>, j: nat, key: Key, n: int, tokens: Tokens, fold: Fold, at: seq<Option<string>>,
                  w: Option<string>, later: Option<string>)
    requires Known(ids, tokens) && |at| == |ids| && j < |ids| && Tells(ids, j + 1, key, n, tokens, fold, at, later)
    requires w == if Nth(ids, j, key, n, tokens, fold) then at[j] else later
    ensures Tells(ids, j, key, n, tokens, fold, at, w)
  {
    forall i: nat | j < i < |ids| && Nth(ids, i, key, n, tokens, fold)
      ensures w == at[i]
    {
      if Nth(ids, j, key, n, tokens, fold) {
        NthOnce(ids, i, j, key, n, tokens, fold);
      }
    }
    assert NoneFrom(ids, j, key, n, tokens, fold) ==> NoneFrom(ids, j + 1, key, n, tokens, fold);
  }

  function PartAnswers(parts: seq<Part>, fold: Fold, id: Option<string>, k: int): (at: seq<Option<string>>)
    ensures |at| == |parts|
  {
    seq(|parts|, i requires 0 <= i < |parts| => WantedHere(parts[i].rows, fold, id, k))
  }

  /** From section `j` on, with the sections of that name before it counted. */
  lemma {:induction false} SectionFound(ids: seq<Id>, tokens: Tokens, fold: Fold, parts: seq<Part>, j: nat,
                                        section: string, n: int, id: Option<string>, k: int)
    requires Names(parts, ids, tokens, fold) && j <= |ids|
    ensures KnownFront(ids, tokens, j)
    ensures var key := Named(fold(section));
      Tells(ids, j, key, n, tokens, fold, PartAnswers(parts, fold, id, k),
            WantedPart(parts[j..], fold, section, n - Count(ids[..j], tokens, fold, key), id, k))
    decreases |ids| - j
  {
    if j < |ids| {
      var key, at := Named(fold(section)), PartAnswers(parts, fold, id, k);
      SectionFound(ids, tokens, fold, parts, j + 1, section, n, id, k);
      assert parts[j..][1..] == parts[j + 1..] && parts[j..][0] == parts[j];
      CountOn(ids, j, tokens, fold, key);
      var now, later := n - Count(ids[..j], tokens, fold, key), n - Count(ids[..j + 1], tokens, fold, key);
      TellsStep(ids, j, key, n, tokens, fold, at, WantedPart(parts[j..], fold, section, now, id, k),
                WantedPart(parts[j + 1..], fold, section, later, id, k));
    }
  }

  predicate KnownFront(ids: seq<Id>, tokens: Tokens, j: nat) {
    j <= |ids| && Known(ids[..j], tokens)
  }

  lemma CountOn(ids: seq<Id>, j: nat, tokens: Tokens, fold: Fold, key: Key)
    requires Known(ids, tokens) && j < |ids|
    ensures Count(ids[..j + 1], tokens, fold, key) ==
      Count(ids[..j], tokens, fold, key) + if KeyOf(tokens[ids[j]], fold) == key then 1 else 0
  {
    assert ids[..j + 1][..j] == ids[..j];
  }

  function ValuesAt(ids: seq<Id>, tokens: Tokens): (at: seq<Option<string>>)
    requires Known(ids, tokens)
    ensures |at| == |ids|
  {
    seq(|ids|, i requires 0 <= i < |ids| => Some(tokens[ids[i]].value))
  }

  lemma {:induction false} TokenFound(ids: seq<Id>, tokens: Tokens, fold: Fold, j: nat, id: Option<string>, k: int)
    requires Known(ids, tokens) && j <= |ids| && forall i :: 0 <= i < |ids| ==> !tokens[ids[i]].kind.SectionName?
    ensures KnownFront(ids, tokens, j)
    ensures var key := IdKey(id, fold);
      Tells(ids, j, key, k, tokens, fold, ValuesAt(ids, tokens),
            WantedHere(RowsOfTokens(ids, tokens)[j..], fold, id, k - Count(ids[..j], tokens, fold, key)))
    decreases |ids| - j
  {
    if j < |ids| {
      var key, rows, at := IdKey(id, fold), RowsOfTokens(ids, tokens), ValuesAt(ids, tokens);
      TokenFound(ids, tokens, fold, j + 1, id, k);
      assert rows[j..][1..] == rows[j + 1..] && rows[j..][0] == RowOfToken(tokens[ids[j]]);
      CountOn(ids, j, tokens, fold, key);
      var now, later := k - Count(ids[..j], tokens, fold, key), k - Count(ids[..j + 1], tokens, fold, key);
      TellsStep(ids, j, key, k, tokens, fold, at, WantedHere(rows[j..], fold, id, now),
                WantedHere(rows[j + 1..], fold, id, later));
    }
  }

  /** In any valid store there is an answer exactly if there is one in its text, and it is that one. */
  lemma AnswerIsWanted(s: Store, fold: Fold, section: string, n: int, id: Option<string>, k: int)
    requires Good(s, fold)
    ensures AllReadable(s.lines, s.tokens)
    ensures var w := Wanted(RowsOf(s.lines, s.tokens), fold, section, n, id, k);
      && (w.Some? <==> exists i: nat, p: nat :: Asked(s, fold, i, p, section, n, id, k))
      && forall i: nat, p: nat :: Asked(s, fold, i, p, section, n, id, k) ==>
           w == Some(s.tokens[s.chain[s.sections[i]][p]].value)
  {
    var parts := PartsOfStore(s, fold);
    var rows := RowsOf(s.lines, s.tokens);
    SinglesWanted(rows, fold, section, n, id, k);
    PartsWanted(T.Singles(rows), fold, section, n, id, k);
    SectionFound(s.sections, s.tokens, fold, parts, 0, section, n, id, k);
    assert parts[0..] == parts && s.sections[..0] == [];
    PartTells(s, fold, parts, section, n, id, k, WantedPart(parts, fold, section, n, id, k));
  }

  lemma PartTells(s: Store, fold: Fold, parts: seq<Part>, section: string, n: int, id: Option<string>, k: int,
                  w: Option<string>)
    requires Good(s, fold) && SameParts(Blocks(s.lines), s.tokens, parts) && Names(parts, s.sections, s.tokens, fold)
    requires Tells(s.sections, 0, Named(fold(section)), n, s.tokens, fold, PartAnswers(parts, fold, id, k), w)
    ensures w.Some? <==> exists j: nat, p: nat :: Asked(s, fold, j, p, section, n, id, k)
    ensures forall j: nat, p: nat :: Asked(s, fold, j, p, section, n, id, k) ==>
      w == Some(s.tokens[s.chain[s.sections[j]][p]].value)
  {
    if i: nat :| i < |parts| && IsSection(s, fold, i, section, n) {
      ChainFound(s, fold, parts, i, id, k);
      OnlySection(s, fold, i, section, n);
      assert w == PartAnswers(parts, fold, id, k)[i];
      AnswerThere(s, fold, i, w, section, n, id, k);
    } else {
      NoSection(s, fold, section, n, id, k);
    }
  }

  lemma AnswerThere(s: Store, fold: Fold, i: nat, w: Option<string>, section: string, n: int, id: Option<string>,
                    k: int)
    requires Here(s, fold, i, w, id, k) && IsSection(s, fold, i, section, n)
    requires forall j: nat :: IsSection(s, fold, j, section, n) ==> j == i
    ensures w.Some? <==> exists j: nat, p: nat :: Asked(s, fold, j, p, section, n, id, k)
    ensures forall j: nat, p: nat :: Asked(s, fold, j, p, section, n, id, k) ==>
      w == Some(s.tokens[s.chain[s.sections[j]][p]].value)
  {
    if w.Some? {
      var p: nat :| S.IsToken(s, fold, i, p, id, k);
      assert Asked(s, fold, i, p, section, n, id, k);
    }
  }

  lemma NoSection(s: Store, fold: Fold, section: string, n: int, id: Option<string>, k: int)
    requires Known(s.sections, s.tokens) && forall i: nat :: i < |s.sections| ==> !IsSection(s, fold, i, section, n)
    ensures NoneFrom(s.sections, 0, Named(fold(section)), n, s.tokens, fold)
    ensures forall i: nat, p: nat :: !Asked(s, fold, i, p, section, n, id, k)
  {
    forall i: nat | i < |s.sections|
      ensures !Nth(s.sections, i, Named(fold(section)), n, s.tokens, fold)
    {
      assert !IsSection(s, fold, i, section, n);
    }
  }

  /** The answer in section `i` is `w`. */
  ghost predicate Here(s: Store, fold: Fold, i: nat, w: Option<string>, id: Option<string>, k: int) {
    && (w.Some? <==> exists p: nat :: S.IsToken(s, fold, i, p, id, k))
    && forall p: nat :: S.IsToken(s, fold, i, p, id, k) ==> w == Some(s.tokens[s.chain[s.sections[i]][p]].value)
  }

  lemma ChainFound(s: Store, fold: Fold, parts: seq<Part>, i: nat, id: Option<string>, k: int)
    requires Good(s, fold) && i < |s.sections| && |parts| == |s.sections|
    requires SameParts(Blocks(s.lines), s.tokens, parts)
    ensures Here(s, fold, i, WantedHere(parts[i].rows, fold, id, k), id, k)
  {
    ChainFacts(s, fold, i);
    var c := s.chain[s.sections[i]];
    assert SamePart(Blocks(s.lines)[i], s.tokens, parts[i]);
    ChainWanted(c, s.tokens, fold, id, k);
    assert forall p: nat :: S.IsToken(s, fold, i, p, id, k) <==> Nth(c, p, IdKey(id, fold), k, s.tokens, fold);
  }

  lemma ChainWanted(c: seq<Id>, tokens: Tokens, fold: Fold, id: Option<string>, k: int)
    requires Known(c, tokens) && forall i :: 0 <= i < |c| ==> !tokens[c[i]].kind.SectionName?
    ensures Tells(c, 0, IdKey(id, fold), k, tokens, fold, ValuesAt(c, tokens),
                  WantedHere(RowsOfTokens(c, tokens), fold, id, k))
  {
    TokenFound(c, tokens, fold, 0, id, k);
    assert RowsOfTokens(c, tokens)[0..] == RowsOfTokens(c, tokens) && c[..0] == [];
  }

  lemma PartsOfStore(s: Store, fold: Fold) returns (parts: seq<Part>)
    requires Good(s, fold)
    ensures AllReadable(s.lines, s.tokens) && parts == V.Parts(T.Singles(RowsOf(s.lines, s.tokens)))
    ensures |parts| == |s.sections| && SameParts(Blocks(s.lines), s.tokens, parts) && Known(s.sections, s.tokens)
    ensures Names(parts, s.sections, s.tokens, fold)
  {
    D.GoodReadable(s, fold);
    forall i | 0 <= i < |s.lines|
      ensures Even(s.lines[i], s.tokens)
    {
      EvenLine(s, fold, i);
    }
    LinesToParts(s.lines, s.tokens);
    parts := V.Parts(T.Singles(RowsOf(s.lines, s.tokens)));
    SectionsKnown(s, fold);
    forall i: nat | i < |parts|
      ensures KeyOf(s.tokens[s.sections[i]], fold) == Named(fold(parts[i].name))
    {
      ChainFacts(s, fold, i);
      assert SamePart(Blocks(s.lines)[i], s.tokens, parts[i]);
    }
  }

  // ----- The program -----

  /** `CfgGetValue` on any valid store answers as the text of the store does. */
  method Answer(c: Config, section: string, n: int, id: Option<string>, k: int) returns (value: Option<string>)
    requires c.Valid()
    ensures AllReadable(c.lines, c.tokens)
    ensures value == Wanted(RowsOf(c.lines, c.tokens), c.fold, section, n, id, k)
  {
    AnswerIsWanted(c.State(), c.fold, section, n, id, k);
    value := c.GetValue(section, id, k, n);
  }

  /** A text is loaded as it was typed, and a value asked for. */
  method AnswerTyped(fold: Fold, es: seq<Y.Entry>, section: string, n: int, id: Option<string>, k: int)
    returns (value: Option<string>)
    requires Y.AllEntered(es) && Y.Placed(Y.EntryRows(es))
    ensures value == Wanted(Y.EntryRows(es), fold, section, n, id, k)
  {
    var c, ret := Y.LoadTyped(fold, es);
    value := Answer(c, section, n, id, k);
  }
}
