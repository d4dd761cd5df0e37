/**
  What the edits of `lch/util/cconfig.c` do to the answers: for each name in each section the values in order, as the
  text lists them, with one put in, taken out or changed.
 */
module ConfigEffects {
  import opened ConfigModel
  import opened ConfigLoading
  import opened ConfigStore
  import opened ConfigAnswers
  import opened ConfigEdits
  import D = ConfigDump
  import T = ConfigText

  // ----- The values of a name -----

  /** The values of that name in the `n`-th section of the other, in the order of the text. */
  function Listed(rows: seq<T.Row>, fold: Fold, section: string, n: int, id: Option<string>): seq<string>
    decreases |rows|
  {
    if rows == [] then []
    else if rows[0].Section? && fold(rows[0].name) == fold(section) then
      if n == 1 then ListedHere(rows[1..], fold, id) else Listed(rows[1..], fold, section, n - 1, id)
    else Listed(rows[1..], fold, section, n, id)
  }

  function ListedHere(rows: seq<T.Row>, fold: Fold, id: Option<string>): seq<string>
    decreases |rows|
  {
    if rows == [] || rows[0].Section? then []
    else
      (if rows[0].Scalar? && id.Some? && fold(rows[0].name) == fold(id.value) then [rows[0].value]
       else if rows[0].Vector? && id.None? then rows[0].values
       else []) + ListedHere(rows[1..], fold, id)
  }

  function At(values: seq<string>, k: int): Option<string> {
    if 1 <= k <= |values| then Some(values[k - 1]) else None
  }

  lemma AtBehind(a: seq<string>, b: seq<string>, k: int)
    ensures At(a + b, k) == if 1 <= k <= |a| then Some(a[k - 1]) else if k < 1 then None else At(b, k - |a|)
  {}

  lemma {:induction false} HereIsListed(rows: seq<T.Row>, fold: Fold, id: Option<string>, k: int)
    ensures WantedHere(rows, fold, id, k) == if k < 1 then None else At(ListedHere(rows, fold, id), k)
    decreases |rows|
  {
    if rows != [] && !rows[0].Section? {
      var rest := ListedHere(rows[1..], fold, id);
      HereIsListed(rows[1..], fold, id, k);
      if rows[0].Scalar? && id.Some? && fold(rows[0].name) == fold(id.value) {
        HereIsListed(rows[1..], fold, id, k - 1);
        AtBehind([rows[0].value], rest, k);
      } else if rows[0].Vector? && id.None? {
        HereIsListed(rows[1..], fold, id, k - |rows[0].values|);
        AtBehind(rows[0].values, rest, k);
      } else {
        assert [] + rest == rest;
      }
    }
  }

  /** The answer for `k` is the `k`-th of the list. */
  lemma {:induction false} WantedIsListed(rows: seq<T.Row>, fold: Fold, section: string, n: int, id: Option<string>,
                                          k: int)
    ensures Wanted(rows, fold, section, n, id, k) == At(Listed(rows, fold, section, n, id), k)
    decreases |rows|
  {
    if rows != [] {
      WantedIsListed(rows[1..], fold, section, n, id, k);
      WantedIsListed(rows[1..], fold, section, n - 1, id, k);
      HereIsListed(rows[1..], fold, id, k);
    }
  }

  // ----- The values of a chain -----

  /** The values of the tokens with that key. */
  function Answers(c: seq<Id>, tokens: Tokens, fold: Fold, key: Key): seq<string>
    requires Known(c, tokens)
  {
    if c == [] then []
    else
      var last := c[|c| - 1];
      Answers(c[..|c| - 1], tokens, fold, key) + if KeyOf(tokens[last], fold) == key then [tokens[last].value] else []
  }

  lemma {:induction false} AnswersCount(c: seq<Id>, tokens: Tokens, fold: Fold, key: Key)
    requires Known(c, tokens)
    ensures |Answers(c, tokens, fold, key)| == Count(c, tokens, fold, key)
    decreases |c|
  {
    if c != [] {
      AnswersCount(c[..|c| - 1], tokens, fold, key);
    }
  }

  lemma {:induction false} AnswersJoin(a: seq<Id>, b: seq<Id>, tokens: Tokens, fold: Fold, key: Key)
    requires Known(a, tokens) && Known(b, tokens)
    ensures Known(a + b, tokens)
    ensures Answers(a + b, tokens, fold, key) == Answers(a, tokens, fold, key) + Answers(b, tokens, fold, key)
    decreases |b|
  {
    if b == [] {
      assert a + b == a;
      assert Answers(a, tokens, fold, key) + [] == Answers(a, tokens, fold, key);
    } else {
      var front, last := b[..|b| - 1], b[|b| - 1];
      AnswersJoin(a, front, tokens, fold, key);
      assert (a + b)[..|a + b| - 1] == a + front && (a + b)[|a + b| - 1] == last;
    }
  }

  /** The `k`-th token of the key has the `k`-th value. */
  lemma NthAnswer(c: seq<Id>, p: nat, key: Key, k: int, tokens: Tokens, fold: Fold)
    requires Known(c, tokens) && Nth(c, p, key, k, tokens, fold)
    ensures At(Answers(c, tokens, fold, key), k) == Some(tokens[c[p]].value)
  {
    var a, b := c[..p], c[p + 1..];
    assert c == (a + [c[p]]) + b;
    AnswersJoin(a + [c[p]], b, tokens, fold, key);
    AnswersJoin(a, [c[p]], tokens, fold, key);
    assert [c[p]][..0] == [];
    AnswersCount(a, tokens, fold, key);
  }

  lemma {:induction false} SomeNth(c: seq<Id>, key: Key, k: int, tokens: Tokens, fold: Fold) returns (p: nat)
    requires Known(c, tokens) && 1 <= k <= |Answers(c, tokens, fold, key)|
    ensures Nth(c, p, key, k, tokens, fold)
    decreases |c|
  {
    var last := |c| - 1;
    AnswersCount(c[..last], tokens, fold, key);
    if k <= |Answers(c[..last], tokens, fold, key)| {
      p := SomeNth(c[..last], key, k, tokens, fold);
      assert c[..last][..p] == c[..p];
    } else {
      p := last;
    }
  }

  /** In a valid store the list of the text is that of the chain; without such a section it is empty. */
  lemma ListedIsChain(s: Store, fold: Fold, i: nat, section: string, n: int, id: Option<string>)
    requires Good(s, fold) && IsSection(s, fold, i, section, n)
    ensures AllReadable(s.lines, s.tokens) && s.sections[i] in s.chain && Known(s.chain[s.sections[i]], s.tokens)
    ensures Listed(RowsOf(s.lines, s.tokens), fold, section, n, id) ==
      Answers(s.chain[s.sections[i]], s.tokens, fold, IdKey(id, fold))
  {
    ChainFacts(s, fold, i);
    AnswerIsWanted(s, fold, section, n, id, 0);
    var a := Listed(RowsOf(s.lines, s.tokens), fold, section, n, id);
    var b := Answers(s.chain[s.sections[i]], s.tokens, fold, IdKey(id, fold));
    forall k: int
      ensures At(a, k) == At(b, k)
    {
      SameAnswer(s, fold, i, section, n, id, k);
    }
    SameLists(a, b);
  }

  lemma SameLists(a: seq<string>, b: seq<string>)
    requires forall k: int :: At(a, k) == At(b, k)
    ensures a == b
  {
    assert At(a, |a| + 1) == At(b, |a| + 1) && At(a, |b| + 1) == At(b, |b| + 1);
    assert At(a, |a|) == At(b, |a|) && At(a, |b|) == At(b, |b|);
    forall i | 0 <= i < |a| && i < |b|
      ensures a[i] == b[i]
    {
      assert At(a, i + 1) == At(b, i + 1);
    }
  }

  lemma SameAnswer(s: Store, fold: Fold, i: nat, section: string, n: int, id: Option<string>, k: int)
    requires Good(s, fold) && IsSection(s, fold, i, section, n) && AllReadable(s.lines, s.tokens)
    requires s.sections[i] in s.chain && Known(s.chain[s.sections[i]], s.tokens)
    ensures At(Listed(RowsOf(s.lines, s.tokens), fold, section, n, id), k) ==
      At(Answers(s.chain[s.sections[i]], s.tokens, fold, IdKey(id, fold)), k)
  {
    var c, key := s.chain[s.sections[i]], IdKey(id, fold);
    AnswerIsWanted(s, fold, section, n, id, k);
    WantedIsListed(RowsOf(s.lines, s.tokens), fold, section, n, id, k);
    OnlySection(s, fold, i, section, n);
    if 1 <= k <= |Answers(c, s.tokens, fold, key)| {
      var p := SomeNth(c, key, k, s.tokens, fold);
      assert Asked(s, fold, i, p, section, n, id, k);
      NthAnswer(c, p, key, k, s.tokens, fold);
    } else if j: nat, p: nat :| Asked(s, fold, j, p, section, n, id, k) {
      NthAnswer(c, p, key, k, s.tokens, fold);
    }
  }

  // ----- One token more, fewer or changed -----

  lemma {:induction false} AnswersSame(c: seq<Id>, tokens: Tokens, other: Tokens, fold: Fold, key: Key)
    requires Known(c, tokens) && Known(c, other) && forall y :: y in c ==> other[y] == tokens[y]
    ensures Answers(c, other, fold, key) == Answers(c, tokens, fold, key)
    decreases |c|
  {
    if c != [] {
      AnswersSame(c[..|c| - 1], tokens, other, fold, key);
    }
  }

  lemma AnswersAround(a: seq<Id>, x: Id, b: seq<Id>, tokens: Tokens, fold: Fold, key: Key)
    requires Known(a, tokens) && x in tokens && Known(b, tokens)
    ensures Known(a + [x] + b, tokens)
    ensures Answers(a + [x] + b, tokens, fold, key) ==
      Answers(a, tokens, fold, key) + (if KeyOf(tokens[x], fold) == key then [tokens[x].value] else []) +
      Answers(b, tokens, fold, key)
  {
    AnswersJoin(a + [x], b, tokens, fold, key);
    AnswersJoin(a, [x], tokens, fold, key);
    assert [x][..0] == [];
  }

  lemma AnswersSplit(c: seq<Id>, m: nat, tokens: Tokens, fold: Fold, key: Key)
    requires Known(c, tokens) && m <= |c|
    ensures Known(c[..m], tokens) && Known(c[m..], tokens)
    ensures var l, n := Answers(c, tokens, fold, key), Count(c[..m], tokens, fold, key);
      n <= |l| && Answers(c[..m], tokens, fold, key) == l[..n] && Answers(c[m..], tokens, fold, key) == l[n..]
  {
    assert c[..m] + c[m..] == c;
    AnswersJoin(c[..m], c[m..], tokens, fold, key);
    AnswersCount(c[..m], tokens, fold, key);
  }

  /** The section stays where it is when only tokens that are no sections come and go. */
  lemma SectionStays(was: Store, now: Store, fold: Fold, j: nat, section: string, n: int)
    requires Good(was, fold) && Good(now, fold) && now.sections == was.sections
    requires forall y :: y in was.sections ==> y in was.tokens && y in now.tokens && now.tokens[y] == was.tokens[y]
    ensures IsSection(now, fold, j, section, n) <==> IsSection(was, fold, j, section, n)
  {
    if j < |was.sections| {
      CountSame(was.sections[..j], was.tokens, now.tokens, fold, Named(fold(section)));
    }
  }

  lemma SectionsOld(s: Store, fold: Fold)
    requires Good(s, fold)
    ensures forall y :: y in s.sections ==> y in s.tokens && y < s.supply
  {
    HeadersInFlat(Blocks(s.lines));
    SectionsKnown(s, fold);
  }

  /** A value is put in behind the `where`-th of its name, or behind the last; no other list changes. */
  lemma AddedListed(was: Store, now: Store, fold: Fold, i: nat, m: nat, section: string, n: int, id: Option<string>,
                    value: string, where: int)
    requires Good(was, fold) && Good(now, fold) && IsSection(was, fold, i, section, n)
    requires Behind(was, fold, i, m, id, where) && SameKind(was, i, NewToken(id, value))
    requires TokenInserted(now, was, i, m, was.supply, NewToken(id, value))
    ensures AllReadable(was.lines, was.tokens) && AllReadable(now.lines, now.tokens)
    ensures var l := Listed(RowsOf(was.lines, was.tokens), fold, section, n, id);
      var at := if where < 0 || where > |l| then |l| else where;
      Listed(RowsOf(now.lines, now.tokens), fold, section, n, id) == l[..at] + [value] + l[at..]
  {
    var c, x, key := was.chain[was.sections[i]], was.supply, IdKey(id, fold);
    ChainFacts(was, fold, i);
    SectionsOld(was, fold);
    SectionStays(was, now, fold, i, section, n);
    ListedIsChain(was, fold, i, section, n, id);
    ListedIsChain(now, fold, i, section, n, id);
    CountByKind(was, fold, i, id, NewToken(id, value));
    AnswersCount(c, was.tokens, fold, key);
    AnswersSplit(c, m, was.tokens, fold, key);
    InsertedAnswers(c, m, x, was.tokens, NewToken(id, value), fold, key);
  }

  lemma InsertedAnswers(c: seq<Id>, m: nat, x: Id, tokens: Tokens, t: Token, fold: Fold, key: Key)
    requires Known(c, tokens) && x !in c && m <= |c| && KeyOf(t, fold) == key
    ensures Known(c[..m] + [x] + c[m..], tokens[x := t])
    ensures Answers(c[..m] + [x] + c[m..], tokens[x := t], fold, key) ==
      Answers(c[..m], tokens, fold, key) + [t.value] + Answers(c[m..], tokens, fold, key)
  {
    AnswersAround(c[..m], x, c[m..], tokens[x := t], fold, key);
    AnswersSame(c[..m], tokens, tokens[x := t], fold, key);
    AnswersSame(c[m..], tokens, tokens[x := t], fold, key);
  }

  /** The `k`-th value of the name is taken out. */
  lemma DeletedListed(was: Store, now: Store, fold: Fold, i: nat, p: nat, section: string, n: int, id: Option<string>,
                      k: int)
    requires Good(was, fold) && Good(now, fold) && Asked(was, fold, i, p, section, n, id, k)
    requires TokenDeleted(now, was, i, p)
    ensures AllReadable(was.lines, was.tokens) && AllReadable(now.lines, now.tokens)
    ensures var l := Listed(RowsOf(was.lines, was.tokens), fold, section, n, id);
      1 <= k <= |l| && Listed(RowsOf(now.lines, now.tokens), fold, section, n, id) == l[..k - 1] + l[k..]
  {
    var c, key := was.chain[was.sections[i]], IdKey(id, fold);
    ChainFacts(was, fold, i);
    SectionsOld(was, fold);
    SectionStays(was, now, fold, i, section, n);
    ListedIsChain(was, fold, i, section, n, id);
    ListedIsChain(now, fold, i, section, n, id);
    TakenOut(c, p, was.tokens, fold, key, k);
  }

  lemma TakenOut(c: seq<Id>, p: nat, tokens: Tokens, fold: Fold, key: Key, k: int)
    requires Known(c, tokens) && Nth(c, p, key, k, tokens, fold)
    ensures Known(c[..p] + c[p + 1..], tokens)
    ensures var l := Answers(c, tokens, fold, key);
      1 <= k <= |l| && Answers(c[..p] + c[p + 1..], tokens, fold, key) == l[..k - 1] + l[k..]
  {
    AnswersSplit(c, p, tokens, fold, key);
    AnswersSplit(c, p + 1, tokens, fold, key);
    CountThrough(c, p, key, k, tokens, fold);
    AnswersJoin(c[..p], c[p + 1..], tokens, fold, key);
  }

  /** The `k`-th value of the name is changed. */
  lemma ChangedListed(was: Store, now: Store, fold: Fold, i: nat, p: nat, section: string, n: int, id: Option<string>,
                      k: int, value: string)
    requires Good(was, fold) && Good(now, fold) && Asked(was, fold, i, p, section, n, id, k)
    requires was.chain[was.sections[i]][p] in was.tokens
    requires var x := was.chain[was.sections[i]][p];
      now == was.(tokens := was.tokens[x := was.tokens[x].(value := value)])
    ensures AllReadable(was.lines, was.tokens) && AllReadable(now.lines, now.tokens)
    ensures var l := Listed(RowsOf(was.lines, was.tokens), fold, section, n, id);
      1 <= k <= |l| && Listed(RowsOf(now.lines, now.tokens), fold, section, n, id) == l[k - 1 := value]
  {
    var c, key := was.chain[was.sections[i]], IdKey(id, fold);
    var x := c[p];
    ChainFacts(was, fold, i);
    SectionNoToken(was, fold, i, p);
    SectionsOld(was, fold);
    SectionStays(was, now, fold, i, section, n);
    ListedIsChain(was, fold, i, section, n, id);
    ListedIsChain(now, fold, i, section, n, id);
    Exchanged(c, p, was.tokens, value, fold, key, k);
  }

  lemma SectionNoToken(s: Store, fold: Fold, i: nat, p: nat)
    requires Good(s, fold) && i < |s.sections| && s.sections[i] in s.chain && p < |s.chain[s.sections[i]]|
    ensures s.chain[s.sections[i]][p] !in s.sections
  {
    ChainFacts(s, fold, i);
    forall j | 0 <= j < |s.sections|
      ensures s.sections[j] != s.chain[s.sections[i]][p]
    {
      ChainFacts(s, fold, j);
    }
  }

  lemma Exchanged(c: seq<Id>, p: nat, tokens: Tokens, value: string, fold: Fold, key: Key, k: int)
    requires Known(c, tokens) && Distinct(c) && Nth(c, p, key, k, tokens, fold)
    ensures var more := tokens[c[p] := tokens[c[p]].(value := value)]; var l := Answers(c, tokens, fold, key);
      Known(c, more) && 1 <= k <= |l| && Answers(c, more, fold, key) == l[k - 1 := value]
  {
    AnswersSplit(c, p, tokens, fold, key);
    AnswersSplit(c, p + 1, tokens, fold, key);
    CountThrough(c, p, key, k, tokens, fold);
    ExchangedAround(c, p, tokens, value, fold, key);
    var l := Answers(c, tokens, fold, key);
    assert l[..k - 1] + [value] + l[k..] == l[k - 1 := value];
  }

  lemma ExchangedAround(c: seq<Id>, p: nat, tokens: Tokens, value: string, fold: Fold, key: Key)
    requires Known(c, tokens) && Distinct(c) && p < |c|
    ensures var more := tokens[c[p] := tokens[c[p]].(value := value)];
      && Known(c, more)
      && Answers(c, more, fold, key) ==
         Answers(c[..p], tokens, fold, key) + (if KeyOf(tokens[c[p]], fold) == key then [value] else []) +
         Answers(c[p + 1..], tokens, fold, key)
  {
    var x := c[p];
    var more := tokens[x := tokens[x].(value := value)];
    AnswersAround(c[..p], x, c[p + 1..], more, fold, key);
    assert c[..p] + [x] + c[p + 1..] == c;
    AnswersSame(c[..p], tokens, more, fold, key);
    AnswersSame(c[p + 1..], tokens, more, fold, key);
  }

  // ----- All other lists -----

  /** In section `i` only the tokens of one key have changed, in the other sections none. */
  ghost predicate OneKeyChanged(was: Store, now: Store, fold: Fold, i: nat, key: Key) {
    && now.sections == was.sections && i < |was.sections|
    && (forall y :: y in was.sections ==> y in was.tokens && y in now.tokens && now.tokens[y] == was.tokens[y])
    && (forall j: nat :: j < |was.sections| && j != i ==> ChainStays(was, now, was.sections[j]))
    && was.sections[i] in was.chain && was.sections[i] in now.chain
    && Known(was.chain[was.sections[i]], was.tokens) && Known(now.chain[was.sections[i]], now.tokens)
    && forall other: Key :: other != key ==>
         Answers(now.chain[was.sections[i]], now.tokens, fold, other) ==
         Answers(was.chain[was.sections[i]], was.tokens, fold, other)
  }

  ghost predicate ChainStays(was: Store, now: Store, x: Id) {
    && x in was.chain && x in now.chain && now.chain[x] == was.chain[x]
    && Known(was.chain[x], was.tokens) && Known(was.chain[x], now.tokens)
    && forall y :: y in was.chain[x] ==> now.tokens[y] == was.tokens[y]
  }

  /** Only the list of that name in that section can have changed. */
  lemma OtherListed(was: Store, now: Store, fold: Fold, i: nat, section: string, n: int, id: Option<string>,
                    section2: string, n2: int, id2: Option<string>)
    requires Good(was, fold) && Good(now, fold) && IsSection(was, fold, i, section, n)
    requires OneKeyChanged(was, now, fold, i, IdKey(id, fold))
    requires !(fold(section2) == fold(section) && n2 == n && IdKey(id2, fold) == IdKey(id, fold))
    ensures AllReadable(was.lines, was.tokens) && AllReadable(now.lines, now.tokens)
    ensures Listed(RowsOf(now.lines, now.tokens), fold, section2, n2, id2) ==
      Listed(RowsOf(was.lines, was.tokens), fold, section2, n2, id2)
  {
    D.GoodReadable(was, fold);
    D.GoodReadable(now, fold);
    if j: nat :| IsSection(was, fold, j, section2, n2) {
      SectionStays(was, now, fold, j, section2, n2);
      ListedIsChain(was, fold, j, section2, n2, id2);
      ListedIsChain(now, fold, j, section2, n2, id2);
      if j != i {
        assert ChainStays(was, now, was.sections[j]);
        AnswersSame(was.chain[was.sections[j]], was.tokens, now.tokens, fold, IdKey(id2, fold));
      }
    } else {
      forall j: nat
        ensures !IsSection(now, fold, j, section2, n2)
      {
        SectionStays(was, now, fold, j, section2, n2);
      }
      NothingListed(was, fold, section2, n2, id2);
      NothingListed(now, fold, section2, n2, id2);
    }
  }

  lemma NothingListed(s: Store, fold: Fold, section: string, n: int, id: Option<string>)
    requires Good(s, fold) && forall j: nat :: !IsSection(s, fold, j, section, n)
    ensures AllReadable(s.lines, s.tokens) && Listed(RowsOf(s.lines, s.tokens), fold, section, n, id) == []
  {
    AnswerIsWanted(s, fold, section, n, id, 1);
    WantedIsListed(RowsOf(s.lines, s.tokens), fold, section, n, id, 1);
  }

  /** The chains of the other sections, when one chain changes and no old token does. */
  lemma OthersStay(was: Store, now: Store, fold: Fold, i: nat)
    requires Good(was, fold) && i < |was.sections| && was.sections[i] in now.chain
    requires now.chain == was.chain[was.sections[i] := now.chain[was.sections[i]]]
    requires forall y :: y in was.tokens && y < was.supply ==> y in now.tokens && now.tokens[y] == was.tokens[y]
    ensures forall j: nat :: j < |was.sections| && j != i ==> ChainStays(was, now, was.sections[j])
  {
    forall j: nat | j < |was.sections| && j != i
      ensures ChainStays(was, now, was.sections[j])
    {
      ChainFacts(was, fold, j);
      SectionsDiffer(was, fold, i, j);
      OldKnown(was.chain[was.sections[j]], was.tokens, now.tokens, was.supply);
    }
  }

  lemma OldKnown(c: seq<Id>, tokens: Tokens, more: Tokens, supply: nat)
    requires Known(c, tokens) && forall y :: y in c ==> y < supply
    requires forall y :: y in tokens && y < supply ==> y in more && more[y] == tokens[y]
    ensures Known(c, more) && forall y :: y in c ==> more[y] == tokens[y]
  {
    forall q | 0 <= q < |c|
      ensures c[q] in more && more[c[q]] == tokens[c[q]]
    {
      assert c[q] in c;
    }
  }

  lemma AddedElsewhere(was: Store, now: Store, fold: Fold, i: nat, m: nat, id: Option<string>, t: Token)
    requires Good(was, fold) && Good(now, fold) && TokenInserted(now, was, i, m, was.supply, t)
    requires KeyOf(t, fold) == IdKey(id, fold)
    ensures OneKeyChanged(was, now, fold, i, IdKey(id, fold))
  {
    var c, x := was.chain[was.sections[i]], was.supply;
    SectionsOld(was, fold);
    ChainFacts(was, fold, i);
    OthersStay(was, now, fold, i);
    forall other: Key | other != IdKey(id, fold)
      ensures Known(c[..m] + [x] + c[m..], now.tokens)
      ensures Answers(c[..m] + [x] + c[m..], now.tokens, fold, other) == Answers(c, was.tokens, fold, other)
    {
      AddedOther(c, m, x, was.tokens, t, fold, other);
    }
  }

  lemma AddedOther(c: seq<Id>, m: nat, x: Id, tokens: Tokens, t: Token, fold: Fold, other: Key)
    requires Known(c, tokens) && x !in c && m <= |c| && KeyOf(t, fold) != other
    ensures Known(c[..m] + [x] + c[m..], tokens[x := t])
    ensures Answers(c[..m] + [x] + c[m..], tokens[x := t], fold, other) == Answers(c, tokens, fold, other)
  {
    var a, b, more := c[..m], c[m..], tokens[x := t];
    WithoutOther(a, x, b, more, fold, other);
    assert c == a + b;
    AnswersJoin(a, b, tokens, fold, other);
    AnswersSame(a + b, tokens, more, fold, other);
  }

  /** A token of another key adds nothing. */
  lemma WithoutOther(a: seq<Id>, x: Id, b: seq<Id>, tokens: Tokens, fold: Fold, other: Key)
    requires Known(a, tokens) && x in tokens && Known(b, tokens) && KeyOf(tokens[x], fold) != other
    ensures Known(a + [x] + b, tokens) && Known(a + b, tokens)
    ensures Answers(a + [x] + b, tokens, fold, other) == Answers(a + b, tokens, fold, other)
  {
    AnswersAround(a, x, b, tokens, fold, other);
    AnswersJoin(a, b, tokens, fold, other);
    assert Answers(a, tokens, fold, other) + [] == Answers(a, tokens, fold, other);
  }

  lemma DeletedOther(c: seq<Id>, p: nat, tokens: Tokens, fold: Fold, other: Key)
    requires Known(c, tokens) && p < |c| && KeyOf(tokens[c[p]], fold) != other
    ensures Known(c[..p] + c[p + 1..], tokens)
    ensures Answers(c[..p] + c[p + 1..], tokens, fold, other) == Answers(c, tokens, fold, other)
  {
    WithoutOther(c[..p], c[p], c[p + 1..], tokens, fold, other);
    assert c[..p] + [c[p]] + c[p + 1..] == c;
  }

  lemma ChangedOther(c: seq<Id>, p: nat, tokens: Tokens, value: string, fold: Fold, other: Key)
    requires Known(c, tokens) && Distinct(c) && p < |c| && KeyOf(tokens[c[p]], fold) != other
    ensures var more := tokens[c[p] := tokens[c[p]].(value := value)];
      Known(c, more) && Answers(c, more, fold, other) == Answers(c, tokens, fold, other)
  {
    ExchangedAround(c, p, tokens, value, fold, other);
    AnswersAround(c[..p], c[p], c[p + 1..], tokens, fold, other);
    assert c[..p] + [c[p]] + c[p + 1..] == c;
  }

  lemma SectionsDiffer(s: Store, fold: Fold, i: nat, j: nat)
    requires Good(s, fold) && i < |s.sections| && j < |s.sections| && i != j
    ensures s.sections[i] != s.sections[j]
  {
    HeadersDistinct(Blocks(s.lines));
  }

  lemma DeletedElsewhere(was: Store, now: Store, fold: Fold, i: nat, p: nat, key: Key)
    requires Good(was, fold) && Good(now, fold) && TokenDeleted(now, was, i, p)
    requires was.chain[was.sections[i]][p] in was.tokens
    requires KeyOf(was.tokens[was.chain[was.sections[i]][p]], fold) == key
    ensures OneKeyChanged(was, now, fold, i, key)
  {
    var c := was.chain[was.sections[i]];
    SectionsOld(was, fold);
    ChainFacts(was, fold, i);
    OthersStay(was, now, fold, i);
    forall other: Key | other != key
      ensures Known(c[..p] + c[p + 1..], now.tokens)
      ensures Answers(c[..p] + c[p + 1..], now.tokens, fold, other) == Answers(c, was.tokens, fold, other)
    {
      DeletedOther(c, p, was.tokens, fold, other);
    }
  }

  lemma ChangedElsewhere(was: Store, now: Store, fold: Fold, i: nat, p: nat, key: Key, value: string)
    requires Good(was, fold) && Good(now, fold) && i < |was.sections| && was.sections[i] in was.chain
    requires p < |was.chain[was.sections[i]]| && was.chain[was.sections[i]][p] in was.tokens
    requires var x := was.chain[was.sections[i]][p];
      && now == was.(tokens := was.tokens[x := was.tokens[x].(value := value)])
      && KeyOf(was.tokens[x], fold) == key
    ensures OneKeyChanged(was, now, fold, i, key)
  {
    var c := was.chain[was.sections[i]];
    SectionsOld(was, fold);
    ChainFacts(was, fold, i);
    SectionNoToken(was, fold, i, p);
    forall j: nat | j < |was.sections| && j != i
      ensures ChainStays(was, now, was.sections[j])
    {
      ChainFacts(was, fold, j);
      NotInOther(was, fold, i, j, p);
    }
    forall other: Key | other != key
      ensures Known(c, now.tokens) && Answers(c, now.tokens, fold, other) == Answers(c, was.tokens, fold, other)
    {
      ChangedOther(c, p, was.tokens, value, fold, other);
    }
  }

  lemma NotInOther(s: Store, fold: Fold, i: nat, j: nat, p: nat)
    requires Good(s, fold) && i < |s.sections| && j < |s.sections| && i != j
    requires s.sections[i] in s.chain && s.sections[j] in s.chain && p < |s.chain[s.sections[i]]|
    ensures s.chain[s.sections[i]][p] !in s.chain[s.sections[j]]
  {
    ChainFacts(s, fold, i);
    ChainFacts(s, fold, j);
    if s.chain[s.sections[i]][p] in s.chain[s.sections[j]] {
      OneHome(Blocks(s.lines), i, j, s.chain[s.sections[i]][p]);
    }
  }

  /** Another name, or another section. */
  predicate Elsewhere(fold: Fold, section: string, n: int, id: Option<string>, section2: string, n2: int,
                      id2: Option<string>) {
    || fold(section2) != fold(section) || n2 != n || id2.Some? != id.Some?
    || (id.Some? && fold(id2.value) != fold(id.value))
  }

  lemma AllOthers(was: Store, now: Store, fold: Fold, i: nat, section: string, n: int, id: Option<string>)
    requires Good(was, fold) && Good(now, fold) && IsSection(was, fold, i, section, n)
    requires OneKeyChanged(was, now, fold, i, IdKey(id, fold))
    ensures AllReadable(was.lines, was.tokens) && AllReadable(now.lines, now.tokens)
    ensures forall section2, n2, id2 :: Elsewhere(fold, section, n, id, section2, n2, id2) ==>
      Listed(RowsOf(now.lines, now.tokens), fold, section2, n2, id2) ==
      Listed(RowsOf(was.lines, was.tokens), fold, section2, n2, id2)
  {
    D.GoodReadable(was, fold);
    D.GoodReadable(now, fold);
    forall section2, n2, id2 | Elsewhere(fold, section, n, id, section2, n2, id2)
      ensures Listed(RowsOf(now.lines, now.tokens), fold, section2, n2, id2) ==
        Listed(RowsOf(was.lines, was.tokens), fold, section2, n2, id2)
    {
      OtherListed(was, now, fold, i, section, n, id, section2, n2, id2);
    }
  }

  // ----- The program -----

  /** `CfgAddToken` for a value: it is put into its list. */
  method AddValue(c: Config, section: string, where: int, id: Option<string>, value: string, n: int)
    returns (ret: int)
    requires c.Valid()
    modifies c
    ensures c.Valid() && AllReadable(c.lines, c.tokens)
    ensures old(AllReadable(c.lines, c.tokens)) && (ret == 0 || ret == -1)
    ensures var was, now := old(RowsOf(c.lines, c.tokens)), RowsOf(c.lines, c.tokens);
      if ret == -1 then now == was
      else
        var l := Listed(was, c.fold, section, n, id); var at := if where < 0 || where > |l| then |l| else where;
        Listed(now, c.fold, section, n, id) == l[..at] + [value] + l[at..]
    ensures var was, now := old(RowsOf(c.lines, c.tokens)), RowsOf(c.lines, c.tokens);
      forall section2, n2, id2 :: Elsewhere(c.fold, section, n, id, section2, n2, id2) ==>
        Listed(now, c.fold, section2, n2, id2) == Listed(was, c.fold, section2, n2, id2)
  {
    ghost var was := c.State();
    D.GoodReadable(was, c.fold);
    ret := c.AddToken(section, where, id, Some(value), n);
    ghost var now := c.State();
    D.GoodReadable(now, c.fold);
    if ret == 0 {
      ghost var i: nat, m: nat :| IsSection(was, c.fold, i, section, n) && Behind(was, c.fold, i, m, id, where)
        && TokenInserted(now, was, i, m, was.supply, NewToken(id, value));
      ghost var j: nat :| IsSection(was, c.fold, j, section, n) && SameKind(was, j, NewToken(id, value));
      OnlySection(was, c.fold, i, section, n);
      AddedListed(was, now, c.fold, i, m, section, n, id, value, where);
      AddedElsewhere(was, now, c.fold, i, m, id, NewToken(id, value));
      AllOthers(was, now, c.fold, i, section, n, id);
    }
  }

  /** `CfgDelToken`: the value is taken out of its list. */
  method DelValue(c: Config, section: string, id: Option<string>, k: int, n: int) returns (ret: int)
    requires c.Valid()
    modifies c
    ensures c.Valid() && AllReadable(c.lines, c.tokens)
    ensures old(AllReadable(c.lines, c.tokens)) && (ret == 0 || ret == -1)
    ensures var was, now := old(RowsOf(c.lines, c.tokens)), RowsOf(c.lines, c.tokens);
      var l := Listed(was, c.fold, section, n, id);
      if ret == -1 then now == was && (k < 1 || k > |l|)
      else 1 <= k <= |l| && Listed(now, c.fold, section, n, id) == l[..k - 1] + l[k..]
    ensures var was, now := old(RowsOf(c.lines, c.tokens)), RowsOf(c.lines, c.tokens);
      forall section2, n2, id2 :: Elsewhere(c.fold, section, n, id, section2, n2, id2) ==>
        Listed(now, c.fold, section2, n2, id2) == Listed(was, c.fold, section2, n2, id2)
  {
    ghost var was := c.State();
    D.GoodReadable(was, c.fold);
    AnswerIsWanted(was, c.fold, section, n, id, k);
    WantedIsListed(RowsOf(was.lines, was.tokens), c.fold, section, n, id, k);
    ret := c.DelToken(section, id, k, n);
    ghost var now := c.State();
    D.GoodReadable(now, c.fold);
    if ret == 0 {
      ghost var i: nat, p: nat :| Asked(was, c.fold, i, p, section, n, id, k);
      DeletedListed(was, now, c.fold, i, p, section, n, id, k);
      DeletedElsewhere(was, now, c.fold, i, p, IdKey(id, c.fold));
      AllOthers(was, now, c.fold, i, section, n, id);
    }
  }

  /** `CfgSetValue`: the value is changed in its list, unless the old one compares equal. */
  method SetValue(c: Config, section: string, id: Option<string>, value: string, k: int, n: int) returns (ret: int)
    requires c.Valid()
    modifies c
    ensures c.Valid() && AllReadable(c.lines, c.tokens)
    ensures old(AllReadable(c.lines, c.tokens)) && (ret == 0 || ret == -1)
    ensures var was, now := old(RowsOf(c.lines, c.tokens)), RowsOf(c.lines, c.tokens);
      var l := Listed(was, c.fold, section, n, id);
      if ret == -1 then now == was && (k < 1 || k > |l|)
      else
        && 1 <= k <= |l|
        && Listed(now, c.fold, section, n, id) == if c.fold(l[k - 1]) == c.fold(value) then l else l[k - 1 := value]
    ensures var was, now := old(RowsOf(c.lines, c.tokens)), RowsOf(c.lines, c.tokens);
      forall section2, n2, id2 :: Elsewhere(c.fold, section, n, id, section2, n2, id2) ==>
        Listed(now, c.fold, section2, n2, id2) == Listed(was, c.fold, section2, n2, id2)
  {
    ghost var was := c.State();
    D.GoodReadable(was, c.fold);
    AnswerIsWanted(was, c.fold, section, n, id, k);
    WantedIsListed(RowsOf(was.lines, was.tokens), c.fold, section, n, id, k);
    ret := c.SetValue(section, id, value, k, n);
    ghost var now := c.State();
    D.GoodReadable(now, c.fold);
    if ret == 0 {
      ghost var i: nat, p: nat :| Asked(was, c.fold, i, p, section, n, id, k);
      ChainFacts(was, c.fold, i);
      ghost var x := was.chain[was.sections[i]][p];
      if c.fold(was.tokens[x].value) != c.fold(value) {
        ChangedListed(was, now, c.fold, i, p, section, n, id, k, value);
        ChangedElsewhere(was, now, c.fold, i, p, IdKey(id, c.fold), value);
        AllOthers(was, now, c.fold, i, section, n, id);
      }
    }
  }

  // ----- Counting -----

  /** How many sections of that name the text has. */
  function SectionsNamed(rows: seq<T.Row>, fold: Fold, name: string): nat {
    if rows == [] then 0
    else (if rows[0].Section? && fold(rows[0].name) == fold(name) then 1 else 0) + SectionsNamed(rows[1..], fold, name)
  }

  /** How many of the values compare equal to `v`. */
  function Equals(values: seq<string>, fold: Fold, v: string): nat {
    if values == [] then 0
    else Equals(values[..|values| - 1], fold, v) + if fold(values[|values| - 1]) == fold(v) then 1 else 0
  }

  /** The header tokens among the tokens of the lines. */
  lemma {:induction false} NamedIsCount(lines: seq<Line>, tokens: Tokens, fold: Fold, name: string)
    requires AllReadable(lines, tokens) && Known(Headers(Blocks(lines)), tokens)
    requires forall x :: x in Headers(Blocks(lines)) ==> !tokens[x].kind.Vector?
    ensures SectionsNamed(RowsOf(lines, tokens), fold, name) ==
      Count(Headers(Blocks(lines)), tokens, fold, Named(fold(name)))
    decreases |lines|
  {
    if lines != [] {
      var rest := lines[1..];
      assert RowsOf(lines, tokens)[1..] == RowsOf(rest, tokens);
      HeadersFirst(lines);
      if lines[0].Header? {
        OneHeaderMore(lines[0].section, Headers(Blocks(rest)), tokens, fold, Named(fold(name)));
      }
      NamedIsCount(rest, tokens, fold, name);
    }
  }

  lemma HeadersFirst(lines: seq<Line>)
    requires lines != []
    ensures var rest := Headers(Blocks(lines[1..]));
      Headers(Blocks(lines)) == if lines[0].Header? then [lines[0].section] + rest else rest
  {}

  lemma OneHeaderMore(x: Id, rest: seq<Id>, tokens: Tokens, fold: Fold, key: Key)
    requires Known([x] + rest, tokens)
    ensures Known(rest, tokens) && x in tokens && x in [x] + rest && forall y :: y in rest ==> y in [x] + rest
    ensures Count([x] + rest, tokens, fold, key) ==
      (if KeyOf(tokens[x], fold) == key then 1 else 0) + Count(rest, tokens, fold, key)
  {
    assert ([x] + rest)[0] == x && forall i :: 0 <= i < |rest| ==> rest[i] == ([x] + rest)[i + 1];
    CountJoin([x], rest, tokens, fold, key);
    assert [x][..0] == [];
  }

  lemma {:induction false} EqualsIsCount(c: seq<Id>, tokens: Tokens, fold: Fold, v: string)
    requires Known(c, tokens) && forall i :: 0 <= i < |c| ==> tokens[c[i]].kind.Vector?
    ensures ValueCount(c, tokens, fold, v) == Equals(Answers(c, tokens, fold, AnyVector), fold, v)
    decreases |c|
  {
    if c != [] {
      var front := Answers(c[..|c| - 1], tokens, fold, AnyVector);
      EqualsIsCount(c[..|c| - 1], tokens, fold, v);
      assert (front + [tokens[c[|c| - 1]].value])[..|front|] == front;
    }
  }

  lemma {:induction false} NoAnswers(c: seq<Id>, tokens: Tokens, fold: Fold, key: Key)
    requires Known(c, tokens) && forall i :: 0 <= i < |c| ==> KeyOf(tokens[c[i]], fold) != key
    ensures Answers(c, tokens, fold, key) == []
    decreases |c|
  {
    if c != [] {
      NoAnswers(c[..|c| - 1], tokens, fold, key);
    }
  }

  /** What `TokenCount` counts, said by the lists. */
  lemma CountListed(s: Store, fold: Fold, i: nat, section: string, n: int, id: Option<string>)
    requires Good(s, fold) && IsSection(s, fold, i, section, n)
    ensures AllReadable(s.lines, s.tokens)
    ensures var rows := RowsOf(s.lines, s.tokens);
      var vectors := Listed(rows, fold, section, n, None);
      if id.Some? then
        TokenCount(s, fold, i, id) == |Listed(rows, fold, section, n, id)| + Equals(vectors, fold, id.value)
      else if HasScalars(rows, fold, section, n) then TokenCount(s, fold, i, id) == -1
      else TokenCount(s, fold, i, id) == |vectors|
  {
    var c := s.chain[s.sections[i]];
    ChainFacts(s, fold, i);
    ListedIsChain(s, fold, i, section, n, None);
    ListedIsChain(s, fold, i, section, n, id);
    AnswersCount(c, s.tokens, fold, IdKey(id, fold));
    if c != [] && s.tokens[c[0]].kind.Vector? {
      AllVectors(c, s.tokens, fold);
      AnswersCount(c, s.tokens, fold, AnyVector);
      VectorsOnly(s, fold, i, section, n);
      if id.Some? {
        EqualsIsCount(c, s.tokens, fold, id.value);
        NoAnswers(c, s.tokens, fold, IdKey(id, fold));
      }
    } else if c != [] {
      NoAnswers(c, s.tokens, fold, AnyVector);
      ScalarsThere(s, fold, i, section, n);
    } else {
      VectorsOnly(s, fold, i, section, n);
    }
  }

  /** The section has a scalar of some name. */
  ghost predicate HasScalars(rows: seq<T.Row>, fold: Fold, section: string, n: int) {
    exists name: string :: Listed(rows, fold, section, n, Some(name)) != []
  }

  lemma VectorsOnly(s: Store, fold: Fold, i: nat, section: string, n: int)
    requires Good(s, fold) && IsSection(s, fold, i, section, n) && s.sections[i] in s.chain
    requires var c := s.chain[s.sections[i]];
      Known(c, s.tokens) && forall q :: 0 <= q < |c| ==> s.tokens[c[q]].kind.Vector?
    ensures AllReadable(s.lines, s.tokens) && !HasScalars(RowsOf(s.lines, s.tokens), fold, section, n)
  {
    D.GoodReadable(s, fold);
    forall name: string
      ensures Listed(RowsOf(s.lines, s.tokens), fold, section, n, Some(name)) == []
    {
      ListedIsChain(s, fold, i, section, n, Some(name));
      NoAnswers(s.chain[s.sections[i]], s.tokens, fold, Named(fold(name)));
    }
  }

  lemma ScalarsThere(s: Store, fold: Fold, i: nat, section: string, n: int)
    requires Good(s, fold) && IsSection(s, fold, i, section, n) && s.sections[i] in s.chain
    requires var c := s.chain[s.sections[i]];
      c != [] && Known(c, s.tokens) && s.tokens[c[0]].kind.Scalar?
    ensures AllReadable(s.lines, s.tokens) && HasScalars(RowsOf(s.lines, s.tokens), fold, section, n)
  {
    var c := s.chain[s.sections[i]];
    var name := s.tokens[c[0]].name;
    ListedIsChain(s, fold, i, section, n, Some(name));
    assert c[..0] == [] && Nth(c, 0, Named(fold(name)), 1, s.tokens, fold);
    NthAnswer(c, 0, Named(fold(name)), 1, s.tokens, fold);
  }

  /** `CfgGetCount`, said by the text: sections of a name, or values of a name in one of them. */
  method CountValues(c: Config, section: string, id: Option<string>, n: int) returns (count: int)
    requires c.Valid()
    ensures AllReadable(c.lines, c.tokens)
    ensures var rows := RowsOf(c.lines, c.tokens); var vectors := Listed(rows, c.fold, section, n, None);
      if n == 0 then count == SectionsNamed(rows, c.fold, section)
      else if id.Some? then
        count == |Listed(rows, c.fold, section, n, id)| + Equals(vectors, c.fold, id.value)
      else if HasScalars(rows, c.fold, section, n) then count == -1
      else count == |vectors|
  {
    ghost var s := c.State();
    D.GoodReadable(s, c.fold);
    count := c.GetCount(section, id, n);
    if n == 0 {
      SectionsCounted(s, c.fold, section);
    } else {
      forall i: nat | IsSection(s, c.fold, i, section, n)
        ensures count == TokenCount(s, c.fold, i, id)
      {
        assert IsSection(c.State(), c.fold, i, section, n);
      }
      ValuesCounted(s, c.fold, section, n, id, count);
    }
  }

  lemma SectionsCounted(s: Store, fold: Fold, section: string)
    requires Good(s, fold)
    ensures AllReadable(s.lines, s.tokens) && Known(s.sections, s.tokens)
    ensures Count(s.sections, s.tokens, fold, Named(fold(section))) ==
      SectionsNamed(RowsOf(s.lines, s.tokens), fold, section)
  {
    D.GoodReadable(s, fold);
    SectionsKnown(s, fold);
    forall x | x in s.sections
      ensures !s.tokens[x].kind.Vector?
    {
      var i :| 0 <= i < |s.sections| && s.sections[i] == x;
      ChainFacts(s, fold, i);
    }
    NamedIsCount(s.lines, s.tokens, fold, section);
  }

  lemma ValuesCounted(s: Store, fold: Fold, section: string, n: int, id: Option<string>, count: int)
    requires Good(s, fold) && ((forall i: nat :: !IsSection(s, fold, i, section, n)) ==> count == 0)
    requires forall i: nat :: IsSection(s, fold, i, section, n) ==> count == TokenCount(s, fold, i, id)
    ensures AllReadable(s.lines, s.tokens)
    ensures var rows := RowsOf(s.lines, s.tokens); var vectors := Listed(rows, fold, section, n, None);
      if id.Some? then count == |Listed(rows, fold, section, n, id)| + Equals(vectors, fold, id.value)
      else if HasScalars(rows, fold, section, n) then count == -1
      else count == |vectors|
  {
    if i: nat :| IsSection(s, fold, i, section, n) {
      CountListed(s, fold, i, section, n, id);
    } else {
      NothingListed(s, fold, section, n, None);
      NothingListed(s, fold, section, n, id);
      NoScalars(s, fold, section, n);
    }
  }

  lemma NoScalars(s: Store, fold: Fold, section: string, n: int)
    requires Good(s, fold) && forall j: nat :: !IsSection(s, fold, j, section, n)
    ensures AllReadable(s.lines, s.tokens) && !HasScalars(RowsOf(s.lines, s.tokens), fold, section, n)
  {
    D.GoodReadable(s, fold);
    forall name: string
      ensures Listed(RowsOf(s.lines, s.tokens), fold, section, n, Some(name)) == []
    {
      NothingListed(s, fold, section, n, Some(name));
    }
  }
}
