/**
  What changing the line list of `lch/util/cconfig.c` does to the sections it is made of.
 */
module ConfigLines {
  import opened ConfigModel

  /** A header in the middle ends one section and starts the next. */
  lemma AtHeader(a: seq<Line>, s: Id, b: seq<Line>)
    ensures Blocks(a + [Header(s)] + b) == Blocks(a) + [Block(s, Lead(b))] + Blocks(b)
    ensures Lead(a + [Header(s)] + b) == Lead(a)
  {
    var tail := [Header(s)] + b;
    assert tail[1..] == b;
    assert a + [Header(s)] + b == a + tail;
    BlocksJoin(a, tail);
    LeadJoin(a, tail);
    ExtendNothing(Blocks(a));
    assert Lead(a) + [] == Lead(a);
  }

  /** Tokens in the middle go to the section before them. */
  lemma AtItems(a: seq<Line>, ids: seq<Id>, b: seq<Line>)
    ensures Blocks(a + [Items(ids)] + b) == Extend(Blocks(a), ids + Lead(b)) + Blocks(b)
    ensures Blocks(a) != [] ==> Lead(a + [Items(ids)] + b) == Lead(a)
  {
    var tail := [Items(ids)] + b;
    assert tail[1..] == b;
    assert a + [Items(ids)] + b == a + tail;
    BlocksJoin(a, tail);
    LeadJoin(a, tail);
  }

  lemma LeadOf(ids: seq<Id>, b: seq<Line>)
    ensures Lead([Items(ids)] + b) == ids + Lead(b) && Blocks([Items(ids)] + b) == Blocks(b)
  {
    assert ([Items(ids)] + b)[1..] == b;
  }

  lemma LastBlock(blocks: seq<Block>, more: seq<Id>)
    requires blocks != []
    ensures var last := blocks[|blocks| - 1];
      Extend(blocks, more) == blocks[..|blocks| - 1] + [Block(last.section, last.ids + more)]
  {}

  /** A new section in front of lines that start with no token. */
  lemma InsertHeader(a: seq<Line>, x: Id, b: seq<Line>)
    requires Lead(b) == [] && Lead(a + b) == []
    ensures Blocks(a + b) == Blocks(a) + Blocks(b)
    ensures Blocks(a + [Header(x)] + b) == Blocks(a) + [Block(x, [])] + Blocks(b)
    ensures Lead(a + [Header(x)] + b) == []
  {
    AtHeader(a, x, b);
    BlocksJoin(a, b);
    LeadJoin(a, b);
    ExtendNothing(Blocks(a));
    assert Lead(a) + [] == Lead(a);
  }

  /** A new line of one token right behind a header. */
  lemma InsertFirst(a: seq<Line>, s: Id, x: Id, b: seq<Line>)
    ensures Blocks(a + [Header(s)] + b) == Blocks(a) + [Block(s, Lead(b))] + Blocks(b)
    ensures Blocks(a + [Header(s)] + ([Items([x])] + b)) == Blocks(a) + [Block(s, [x] + Lead(b))] + Blocks(b)
    ensures Lead(a + [Header(s)] + ([Items([x])] + b)) == Lead(a) == Lead(a + [Header(s)] + b)
  {
    AtHeader(a, s, b);
    AtHeader(a, s, [Items([x])] + b);
    LeadOf([x], b);
  }

  lemma InLine(a: seq<Line>, w: seq<Id>, b: seq<Line>)
    requires Blocks(a) != []
    ensures var last := Blocks(a)[|Blocks(a)| - 1];
      Blocks(a + [Items(w)] + b) ==
        Blocks(a)[..|Blocks(a)| - 1] + [Block(last.section, last.ids + (w + Lead(b)))] + Blocks(b)
    ensures Lead(a + [Items(w)] + b) == Lead(a)
  {
    AtItems(a, w, b);
    LastBlock(Blocks(a), w + Lead(b));
  }

  lemma Regroup(c: seq<Id>, u: seq<Id>, v: seq<Id>, l: seq<Id>)
    ensures c + (u + v + l) == (c + u) + (v + l)
  {}

  /** A token put into a line between `u` and `v`. */
  lemma InsertInLine(a: seq<Line>, u: seq<Id>, x: Id, v: seq<Id>, b: seq<Line>)
    requires Blocks(a) != []
    ensures var n := |Blocks(a)| - 1;
      var s, p, q := Blocks(a)[n].section, Blocks(a)[n].ids + u, v + Lead(b);
      && Blocks(a + [Items(u + v)] + b) == Blocks(a)[..n] + [Block(s, p + q)] + Blocks(b)
      && Blocks(a + [Items(u + [x] + v)] + b) == Blocks(a)[..n] + [Block(s, p + [x] + q)] + Blocks(b)
    ensures Lead(a + [Items(u + v)] + b) == Lead(a + [Items(u + [x] + v)] + b) == Lead(a)
  {
    var c := Blocks(a)[|Blocks(a)| - 1].ids;
    InLine(a, u + v, b);
    InLine(a, u + [x] + v, b);
    Regroup(c, u, v, Lead(b));
    Regroup(c, u + [x], v, Lead(b));
    assert c + (u + [x]) == c + u + [x];
  }

  /** A new line of one token behind a line of tokens. */
  lemma InsertBehind(a: seq<Line>, u: seq<Id>, x: Id, b: seq<Line>)
    requires Blocks(a) != []
    ensures Blocks(a + [Items(u)] + ([Items([x])] + b)) == Blocks(a + [Items(u + [x])] + b)
    ensures Lead(a + [Items(u)] + ([Items([x])] + b)) == Lead(a + [Items(u + [x])] + b)
  {
    AtItems(a, u, [Items([x])] + b);
    AtItems(a, u + [x], b);
    LeadOf([x], b);
    assert u + ([x] + Lead(b)) == u + [x] + Lead(b);
  }

  /** A line without tokens might as well not be there. */
  lemma EmptyLine(a: seq<Line>, b: seq<Line>)
    ensures Blocks(a + [Items([])] + b) == Blocks(a + b) && Lead(a + [Items([])] + b) == Lead(a + b)
  {
    var tail := [Items([])] + b;
    LeadOf([], b);
    assert a + [Items([])] + b == a + tail;
    BlocksJoin(a, tail);
    BlocksJoin(a, b);
    LeadJoin(a, tail);
    LeadJoin(a, b);
    assert [] + Lead(b) == Lead(b);
  }

  /** Cutting out a section with the remarks before it and all its tokens. */
  lemma DeleteLines(a: seq<Line>, r: seq<Line>, s: Id, body: seq<Line>, b: seq<Line>)
    requires Quiet(r) && Blocks(body) == [] && Lead(b) == [] && Lead(a + r + [Header(s)] + body + b) == []
    ensures Blocks(a + r + [Header(s)] + body + b) == Blocks(a) + [Block(s, Lead(body))] + Blocks(b)
    ensures Blocks(a + b) == Blocks(a) + Blocks(b) && Lead(a + b) == []
  {
    var front := a + r;
    QuietEnd(a, r);
    TailOf(body, b);
    AtHeader(front, s, body + b);
    assert front + [Header(s)] + body + b == front + [Header(s)] + (body + b);
    Neighbours(a, b);
  }

  lemma TailOf(body: seq<Line>, b: seq<Line>)
    requires Blocks(body) == [] && Lead(b) == []
    ensures Blocks(body + b) == Blocks(b) && Lead(body + b) == Lead(body)
  {
    BlocksJoin(body, b);
    LeadJoin(body, b);
    assert Lead(body) + [] == Lead(body);
    assert [] + Blocks(b) == Blocks(b);
  }

  lemma Neighbours(a: seq<Line>, b: seq<Line>)
    requires Lead(a) == [] && Lead(b) == []
    ensures Blocks(a + b) == Blocks(a) + Blocks(b) && Lead(a + b) == []
  {
    BlocksJoin(a, b);
    LeadJoin(a, b);
    ExtendNothing(Blocks(a));
  }

  lemma QuietEnd(a: seq<Line>, r: seq<Line>)
    requires Quiet(r)
    ensures Blocks(a + r) == Blocks(a) && Lead(a + r) == Lead(a)
  {
    BlocksJoin(a, r);
    LeadJoin(a, r);
    QuietLead(r, []);
    assert r + [] == r;
    ExtendNothing(Blocks(a));
    assert Lead(a) + [] == Lead(a);
    assert Blocks(a) + [] == Blocks(a);
  }
}
