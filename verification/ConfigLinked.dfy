/**
  The configuration store and its links side by side (`lch/util/cconfig.c`): each edit changes both, and after any run
  of edits the links still show the store.
 */
module ConfigLinked {
  import opened ConfigModel
  import opened ConfigStore
  import opened ConfigLinks
  import opened LinkedLists
  import opened ConfigRuns
  import L = ConfigLoad
  import H = ConfigThreads
  import X = ConfigText

  /** The links show the store, its lines at the addresses `order`, all below `l`. */
  ghost predicate Both(c: Config, mem: Memory, order: seq<LineId>, l: LineId)
    reads c, mem
  {
    c.Valid() && Shows(mem.State(), order, c.State()) && forall o :: o in order ==> o < l
  }

  /** There is only one place behind the `where`-th token. */
  lemma BehindOnce(s: Store, fold: Fold, i: nat, m: nat, n: nat, id: Option<string>, where: int)
    requires Behind(s, fold, i, m, id, where) && Behind(s, fold, i, n, id, where)
    ensures m == n
  {
    var c, key := s.chain[s.sections[i]], IdKey(id, fold);
    if m < n {
      BehindOrder(c, s.tokens, fold, key, m, n);
    } else if n < m {
      BehindOrder(c, s.tokens, fold, key, n, m);
    }
  }

  lemma BehindOrder(c: seq<Id>, tokens: Tokens, fold: Fold, key: Key, m: nat, n: nat)
    requires m < n <= |c| && Known(c[..m], tokens) && Known(c[..n], tokens)
    requires c[n - 1] in tokens && KeyOf(tokens[c[n - 1]], fold) == key
    ensures Count(c[..m], tokens, fold, key) < Count(c[..n], tokens, fold, key)
  {
    assert c[..n] == c[..n - 1] + [c[n - 1]];
    assert forall k :: 0 <= k < n - 1 ==> c[..n - 1][k] == c[..n][k];
    CountJoin(c[..n - 1], [c[n - 1]], tokens, fold, key);
    assert c[..n - 1] == c[..m] + c[m..n - 1];
    CountJoin(c[..m], c[m..n - 1], tokens, fold, key);
  }

  /** The line of the section at place `w`, or null behind the last. */
  method LineOfSection(c: Config, mem: Memory, w: nat, ghost order: seq<LineId>, ghost l: LineId)
    returns (target: Pointer<LineId>)
    requires Both(c, mem, order, l)
    ensures if w < |c.sections| then c.sections[w] in mem.tline && target == To(mem.tline[c.sections[w]])
      else target == Null
  {
    if w < |c.sections| {
      ghost var h := HeaderAt(mem.State(), order, c.State(), c.fold, w);
      target := To(mem.tline[c.sections[w]]);
    } else {
      target := Null;
    }
  }

  /** A new section in the store and in the line list. */
  method AddSection(c: Config, mem: Memory, section: string, where: int, l: LineId, ghost order: seq<LineId>)
    returns (ghost now: seq<LineId>)
    requires Both(c, mem, order, l)
    modifies c, mem
    ensures Both(c, mem, now, l + 1) && SectionInserted(c.State(), old(c.State()), where, section)
  {
    ghost var s := c.State();
    var w := if where < 0 || where > |c.sections| then |c.sections| else where;
    var target := LineOfSection(c, mem, w, order, l);
    var any, x := |c.sections| > 0, c.supply;
    c.AddSection(section, where);
    ghost var p, q := HeaderPlace(c.lines, s, w, x);
    mem.AddSection(target, any, x, l, order, s, c.State(), c.fold, w, p, q);
    now := order[..p] + [l] + order[p..];
    WithBelow(order, p, l);
  }

  lemma WithBelow(order: seq<LineId>, p: nat, l: LineId)
    requires p <= |order| && forall o :: o in order ==> o < l
    ensures forall o :: o in order[..p] + [l] + order[p..] ==> o < l + 1
  {
    PartsBelow(order, p, p, l);
    assert forall o :: o in order[..p] + [l] + order[p..] ==> o == l || o in order[..p] + order[p..];
  }

  lemma PartsBelow(order: seq<LineId>, p: nat, e: nat, l: LineId)
    requires p <= e <= |order| && forall o :: o in order ==> o < l
    ensures forall o :: o in order[..p] + order[e..] ==> o < l
  {
    assert forall o :: o in order[..p] ==> o in order;
    assert forall o :: o in order[e..] ==> o in order;
  }

  lemma HeaderPlace(now: seq<Line>, was: Store, w: nat, x: Id) returns (p: nat, q: nat)
    requires HeaderPlaced(now, was, w, x)
    ensures HeaderPlacedAt(now, was, w, x, p, q)
  {
    p, q :| HeaderPlacedAt(now, was, w, x, p, q);
  }

  lemma CutPlace(now: seq<Line>, lines: seq<Line>, section: Id) returns (p: nat, h: nat, e: nat)
    requires SectionCut(now, lines, section)
    ensures SectionAt(lines, section, p, h, e) && now == lines[..p] + lines[e..] && p <= e <= |lines|
  {
    p, h, e :| SectionAt(lines, section, p, h, e) && now == lines[..p] + lines[e..];
  }

  /** The links for a new token at place `m` of section `i`. */
  method LinkToken(mem: Memory, section: Id, y: Id, empty: bool, vector: bool, x: Id, l: LineId,
                   ghost order: seq<LineId>, ghost s: Store, ghost t: Store, ghost fold: Fold, ghost i: nat, m: nat,
                   ghost tok: Token)
    returns (ghost now: seq<LineId>)
    requires Shows(mem.State(), order, s) && Good(s, fold) && i < |s.sections| && s.sections[i] == section
    requires TokenInserted(t, s, i, m, x, tok) && (vector <==> tok.kind.Vector?) && !tok.kind.SectionName?
    requires (empty <==> s.chain[section] == []) && (m > 0 ==> y == s.chain[section][m - 1])
    requires forall o :: o in order ==> o < l
    modifies mem
    ensures Shows(mem.State(), now, t) && forall o :: o in now ==> o < l + 1
  {
    if m == 0 {
      if empty || !vector {
        now := mem.AddFirst(section, x, l, order, s, t, fold, i, tok);
      } else {
        mem.AddInFront(section, x, order, s, t, fold, i, tok);
        now := order;
      }
    } else if vector {
      mem.AddInLine(y, x, order, s, t, fold, i, m, tok);
      now := order;
    } else {
      now := mem.AddBehind(y, x, l, order, s, t, fold, i, m, tok);
    }
  }

  /** A new token in the store and in the links. */
  method AddItem(c: Config, mem: Memory, section: string, where: int, id: Option<string>, value: string, n: int,
                 l: LineId, ghost order: seq<LineId>)
    returns (ret: int, ghost now: seq<LineId>)
    requires Both(c, mem, order, l)
    modifies c, mem
    ensures Both(c, mem, now, l + 1)
    ensures ret == 0 <==> exists i: nat ::
      IsSection(old(c.State()), c.fold, i, section, n) && SameKind(old(c.State()), i, NewToken(id, value))
  {
    var count := c.GetCount(section, id, n);
    var at := if count == -1 then 0 else if where < 0 || where > count then count else where;
    var i := c.FindSection(section, n);
    if i == |c.sections| {
      ret := c.AddToken(section, where, id, Some(value), n);
      now := order;
      return;
    }
    ret, now := AddTo(c, mem, section, where, id, value, n, i, at, l, order);
  }

  /** Where a token goes: behind `y`, the `at`-th of its name along the links, or in front. */
  method PlaceInLinks(c: Config, mem: Memory, i: nat, id: Option<string>, ghost value: string, ghost where: int,
                      at: int, ghost order: seq<LineId>, ghost l: LineId)
    returns (m: nat, y: Id, empty: bool)
    requires Both(c, mem, order, l) && i < |c.sections|
    requires var count := TokenCount(c.State(), c.fold, i, id);
      at == if count == -1 then 0 else if where < 0 || where > count then count else where
    ensures c.sections[i] in c.chain
    ensures var ch, key := c.chain[c.sections[i]], IdKey(id, c.fold);
      && m <= |ch| && Known(ch, c.tokens) && (at <= 0 ==> m == 0) && (empty <==> ch == [])
      && (1 <= at <= Count(ch, c.tokens, c.fold, key) ==> m > 0 && Nth(ch, m - 1, key, at, c.tokens, c.fold))
      && (SameKind(c.State(), i, NewToken(id, value)) && m > 0 ==> y == ch[m - 1])
  {
    ghost var s := c.State();
    ChainFacts(s, c.fold, i);
    m := c.ItemPlace(i, id, at);
    var p, q := FindToken(c, mem, i, IdKey(id, c.fold), at, order, l);
    assert SectionOk(mem.State(), c.sections[i], c.chain[c.sections[i]]);
    empty := mem.etoken[mem.tline[c.sections[i]]] == Null;
    y := if p.To? then p.address else 0;
    if SameKind(s, i, NewToken(id, value)) {
      FoundThere(s, c.fold, i, id, value, at, where, m, q);
    }
  }

  /** The same for a section that is there. */
  method AddTo(c: Config, mem: Memory, section: string, where: int, id: Option<string>, value: string, n: int, i: nat,
               at: int, l: LineId, ghost order: seq<LineId>)
    returns (ret: int, ghost now: seq<LineId>)
    requires Both(c, mem, order, l) && IsSection(c.State(), c.fold, i, section, n) && i < |c.sections|
    requires var count := TokenCount(c.State(), c.fold, i, id);
      at == if count == -1 then 0 else if where < 0 || where > count then count else where
    modifies c, mem
    ensures Both(c, mem, now, l + 1)
    ensures ret == 0 <==> exists j: nat ::
      IsSection(old(c.State()), c.fold, j, section, n) && SameKind(old(c.State()), j, NewToken(id, value))
  {
    ghost var s := c.State();
    var sec, x := c.sections[i], c.supply;
    var m, y, empty := PlaceInLinks(c, mem, i, id, value, where, at, order, l);
    ret := c.AddToken(section, where, id, Some(value), n);
    now := order;
    if ret == 0 {
      ghost var tok := NewToken(id, value);
      assert Somewhere(c.State(), s, c.fold, section, n, id, value, where);
      OnlySection(s, c.fold, i, section, n);
      SamePlace(s, c.State(), c.fold, i, m, section, n, id, value, at, where);
      now := LinkToken(mem, sec, y, empty, id.None?, x, l, order, s, c.State(), c.fold, i, m, tok);
    }
  }

  /** The token found along the links is the one behind which the new one goes. */
  lemma FoundThere(s: Store, fold: Fold, i: nat, id: Option<string>, value: string, at: int, where: int, m: nat, q: nat)
    requires Good(s, fold) && i < |s.sections| && SameKind(s, i, NewToken(id, value)) && s.sections[i] in s.chain
    requires var count := TokenCount(s, fold, i, id);
      at == if count == -1 then 0 else if where < 0 || where > count then count else where
    requires var c, key := s.chain[s.sections[i]], IdKey(id, fold);
      && m <= |c| && q <= |c| && Known(c, s.tokens) && (at <= 0 ==> m == 0)
      && (1 <= at <= Count(c, s.tokens, fold, key) ==> m > 0 && Nth(c, m - 1, key, at, s.tokens, fold))
      && (q < |c| ==> Nth(c, q, key, at, s.tokens, fold))
      && (q == |c| ==> forall p :: 0 <= p < |c| ==> !Nth(c, p, key, at, s.tokens, fold))
    ensures m > 0 ==> q == m - 1
  {
    CountByKind(s, fold, i, id, NewToken(id, value));
    if m > 0 && q < |s.chain[s.sections[i]]| {
      NthOnce(s.chain[s.sections[i]], q, m - 1, IdKey(id, fold), at, s.tokens, fold);
    }
  }

  /** A token has been put into the section behind the `where`-th one. */
  ghost predicate Somewhere(t: Store, s: Store, fold: Fold, section: string, n: int, id: Option<string>, value: string,
                            where: int) {
    exists j: nat, k: nat ::
      && IsSection(s, fold, j, section, n) && Behind(s, fold, j, k, id, where)
      && TokenInserted(t, s, j, k, s.supply, NewToken(id, value))
  }

  /** The place found beforehand is the one that the token got. */
  lemma SamePlace(s: Store, t: Store, fold: Fold, i: nat, m: nat, section: string, n: int, id: Option<string>,
                  value: string, at: int, where: int)
    requires Good(s, fold) && IsSection(s, fold, i, section, n) && SameKind(s, i, NewToken(id, value))
    requires var count := TokenCount(s, fold, i, id);
      at == if count == -1 then 0 else if where < 0 || where > count then count else where
    requires var c := s.chain[s.sections[i]];
      && m <= |c| && Known(c, s.tokens) && (at <= 0 ==> m == 0)
      && (1 <= at <= Count(c, s.tokens, fold, IdKey(id, fold)) ==>
            m > 0 && Nth(c, m - 1, IdKey(id, fold), at, s.tokens, fold))
    requires Somewhere(t, s, fold, section, n, id, value, where)
    ensures TokenInserted(t, s, i, m, s.supply, NewToken(id, value))
  {
    var j: nat, k: nat :| IsSection(s, fold, j, section, n) && Behind(s, fold, j, k, id, where)
      && TokenInserted(t, s, j, k, s.supply, NewToken(id, value));
    OnlySection(s, fold, i, section, n);
    CountByKind(s, fold, i, id, NewToken(id, value));
    BehindThat(s, fold, i, m, id, NewToken(id, value), at, where);
    BehindOnce(s, fold, i, m, k, id, where);
  }

  /** The token of a name with an index: from the header's `etoken` along `snext`, or null. */
  method FindToken(c: Config, mem: Memory, i: nat, key: Key, k: int, ghost order: seq<LineId>, ghost l: LineId)
    returns (p: Pointer<Id>, ghost m: nat)
    requires Both(c, mem, order, l) && i < |c.sections|
    ensures var ch := c.chain[c.sections[i]];
      && m <= |ch| && Known(ch, c.tokens) && p == At(ch, m)
      && (m < |ch| ==> Nth(ch, m, key, k, c.tokens, c.fold))
      && (m == |ch| ==> forall q :: 0 <= q < |ch| ==> !Nth(ch, q, key, k, c.tokens, c.fold))
  {
    ghost var ch := c.chain[c.sections[i]];
    ChainFacts(c.State(), c.fold, i);
    assert SectionOk(mem.State(), c.sections[i], ch);
    p, m := mem.etoken[mem.tline[c.sections[i]]], 0;
    while p != Null
      invariant m <= |ch| && p == At(ch, m)
      invariant forall q :: 0 <= q < m ==> !Nth(ch, q, key, k, c.tokens, c.fold)
      decreases |ch| - m
    {
      HitIsNth(ch, m, key, k, c.tokens, c.fold, c.index);
      assert RankedAt(ch, m, c.tokens, c.fold, c.index);
      if KeyOf(c.tokens[p.address], c.fold) == key && c.index[p.address] == k {
        return;
      }
      assert Follows(mem.snext, ch, m);
      p, m := mem.snext[p.address], m + 1;
    }
  }

  /** `CfgGetValue` along the links. */
  method GetValue(c: Config, mem: Memory, section: string, id: Option<string>, k: int, n: int,
                  ghost order: seq<LineId>, ghost l: LineId)
    returns (value: Option<string>)
    requires Both(c, mem, order, l)
    ensures value.Some? <==> exists i: nat, q: nat :: Asked(c.State(), c.fold, i, q, section, n, id, k)
    ensures forall i: nat, q: nat :: Asked(c.State(), c.fold, i, q, section, n, id, k) ==>
              value == Some(c.tokens[c.chain[c.sections[i]][q]].value)
  {
    var i := c.FindSection(section, n);
    if i == |c.sections| {
      return None;
    }
    OnlySection(c.State(), c.fold, i, section, n);
    var p, m := FindToken(c, mem, i, IdKey(id, c.fold), k, order, l);
    if p == Null {
      return None;
    }
    value := Some(c.tokens[p.address].value);
    assert Asked(c.State(), c.fold, i, m, section, n, id, k);
    forall j: nat, q: nat | Asked(c.State(), c.fold, j, q, section, n, id, k)
      ensures j == i && q == m
    {
      NthOnce(c.chain[c.sections[i]], m, q, IdKey(id, c.fold), k, c.tokens, c.fold);
    }
  }

  method DelToken(c: Config, mem: Memory, section: string, id: Option<string>, k: int, n: int, ghost order: seq<LineId>,
                  ghost l: LineId)
    returns (ret: int, ghost now: seq<LineId>)
    requires Both(c, mem, order, l)
    modifies c, mem
    ensures Both(c, mem, now, l)
    ensures ret == 0 <==> exists i: nat, p: nat :: Asked(old(c.State()), c.fold, i, p, section, n, id, k)
  {
    ghost var s := c.State();
    now := order;
    var i := c.FindSection(section, n);
    if i == |c.sections| {
      ret := c.DelToken(section, id, k, n);
      return;
    }
    ChainFacts(s, c.fold, i);
    var p, m := FindToken(c, mem, i, IdKey(id, c.fold), k, order, l);
    var sec := c.sections[i];
    if p == Null {
      OnlySection(s, c.fold, i, section, n);
      ret := c.DelToken(section, id, k, n);
      return;
    }
    assert Asked(s, c.fold, i, m, section, n, id, k);
    var x := p.address;
    var scalar := c.tokens[x].kind.Scalar?;
    ret := c.DelToken(section, id, k, n);
    if scalar {
      now := mem.DelScalar(sec, x, order, s, c.State(), c.fold, i, m);
    } else {
      now := mem.DelVector(sec, x, order, s, c.State(), c.fold, i, m);
    }
  }

  method DelSection(c: Config, mem: Memory, section: string, n: int, ghost order: seq<LineId>, ghost l: LineId)
    returns (ret: int, ghost now: seq<LineId>)
    requires Both(c, mem, order, l)
    modifies c, mem
    ensures Both(c, mem, now, l)
    ensures ret == 0 <==> exists i: nat :: IsSection(old(c.State()), c.fold, i, section, n)
  {
    ghost var s := c.State();
    now := order;
    var i := c.FindSection(section, n);
    if i == |c.sections| {
      ret := c.DelSection(section, n);
      return;
    }
    var sec := c.sections[i];
    OnlySection(s, c.fold, i, section, n);
    var target := LineOfSection(c, mem, i + 1, order, l);
    ret := c.DelSection(section, n);
    ghost var p, h, e := CutPlace(c.lines, s.lines, sec);
    mem.DelSection(sec, target, order, s, c.State(), c.fold, i, p, h, e);
    now := order[..p] + order[e..];
    PartsBelow(order, p, e, l);
  }

  /** One edit; a new line gets the address `l`. */
  method ApplyBoth(c: Config, mem: Memory, edit: Edit, l: LineId, ghost order: seq<LineId>)
    returns (ghost now: seq<LineId>)
    requires Both(c, mem, order, l)
    modifies c, mem
    ensures Both(c, mem, now, l + 1)
  {
    var ret: int;
    match edit {
      case AddToken(section, where, id, value, n) =>
        if value.None? {
          now := AddSection(c, mem, section, where, l, order);
        } else {
          ret, now := AddItem(c, mem, section, where, id, value.value, n, l, order);
        }
      case DelToken(section, id, k, n) => ret, now := DelToken(c, mem, section, id, k, n, order, l);
      case SetValue(section, id, text, k, n) =>
        ret := c.SetValue(section, id, text, k, n);
        now := order;
      case DelSection(section, n) => ret, now := DelSection(c, mem, section, n, order, l);
    }
  }

  /** After any run of edits the links go through the lines and tokens of the store, and through nothing else. */
  method RunBoth(c: Config, mem: Memory, edits: seq<Edit>, l0: LineId, ghost order: seq<LineId>)
    returns (ghost now: seq<LineId>)
    requires Both(c, mem, order, l0)
    modifies c, mem
    ensures Both(c, mem, now, l0 + |edits|)
  {
    now := order;
    var i := 0;
    while i < |edits|
      invariant i <= |edits| && Both(c, mem, now, l0 + i)
    {
      now := ApplyBoth(c, mem, edits[i], l0 + i, now);
      i := i + 1;
    }
  }

  /** A text is loaded and threaded, then edits follow in any order: the links show the store to the end. */
  method RunLinked(fold: Fold, text: string, edits: seq<Edit>)
    returns (c: Config, mem: Memory, ret: int, ghost order: seq<LineId>)
    ensures fresh(c) && fresh(mem) && (ret == 0 <==> X.Read(text).Some?)
    ensures ret == 0 ==> c.Valid() && Shows(mem.State(), order, c.State())
  {
    c := new Config(fold);
    mem := new Memory();
    order := [];
    ret := L.Load(c, text);
    if ret == 0 {
      mem, order := H.Thread(c);
      order := RunBoth(c, mem, edits, |c.lines|, order);
    }
  }
}
