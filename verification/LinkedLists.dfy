/**
  Lists linked by pointers: which nodes a list goes through, and what the usual changes of links do to it.  Memory is
  a map from the address of a node to the pointer it holds.
 */
module LinkedLists {
  datatype Pointer<T> = Null | To(address: T)

  // ----- Lists -----

  function At<T>(s: seq<T>, k: int): Pointer<T> {
    if 0 <= k < |s| then To(s[k]) else Null
  }

  predicate Unlike<T(==)>(s: seq<T>) {
    forall j, k :: 0 <= j < k < |s| ==> s[j] != s[k]
  }

  predicate Follows<T(==)>(next: map<T, Pointer<T>>, s: seq<T>, k: nat)
    requires k < |s|
  {
    s[k] in next && next[s[k]] == At(s, k + 1)
  }

  /** The list that starts at `first` goes through exactly these nodes. */
  predicate List<T(==)>(next: map<T, Pointer<T>>, first: Pointer<T>, s: seq<T>) {
    Unlike(s) && first == At(s, 0) && forall k: nat :: k < |s| ==> Follows(next, s, k)
  }

  predicate Precedes<T(==)>(prev: map<T, Pointer<T>>, s: seq<T>, k: nat)
    requires k < |s|
  {
    s[k] in prev && prev[s[k]] == At(s, k - 1)
  }

  predicate Back<T(==)>(prev: map<T, Pointer<T>>, s: seq<T>) {
    forall k: nat :: k < |s| ==> Precedes(prev, s, k)
  }

  lemma UnlikeInsert<T>(a: seq<T>, x: T, b: seq<T>)
    requires Unlike(a + b) && x !in a && x !in b
    ensures Unlike(a + [x] + b)
  {
    var s, t := a + b, a + [x] + b;
    forall j, k | 0 <= j < k < |t|
      ensures t[j] != t[k]
    {
      assert j < |a| ==> t[j] == s[j];
      assert j > |a| ==> t[j] == s[j - 1];
      assert k < |a| ==> t[k] == s[k];
      assert k > |a| ==> t[k] == s[k - 1];
    }
  }

  /** A node is put behind the one at place `k`. */
  lemma ListInsert<T>(next: map<T, Pointer<T>>, first: Pointer<T>, s: seq<T>, k: nat, x: T)
    requires List(next, first, s) && k < |s| && x !in s
    ensures Follows(next, s, k)
    ensures List(next[x := next[s[k]]][s[k] := To(x)], first, s[..k + 1] + [x] + s[k + 1..])
  {
    assert Follows(next, s, k);
    var now, t := next[x := next[s[k]]][s[k] := To(x)], s[..k + 1] + [x] + s[k + 1..];
    assert s[..k + 1] + s[k + 1..] == s;
    UnlikeInsert(s[..k + 1], x, s[k + 1..]);
    forall j: nat | j < |t|
      ensures Follows(now, t, j)
    {
      if j <= k {
        assert Follows(next, s, j);
      } else if j > k + 1 {
        assert Follows(next, s, j - 1);
      }
    }
  }

  lemma ListFront<T>(next: map<T, Pointer<T>>, first: Pointer<T>, s: seq<T>, x: T)
    requires List(next, first, s) && x !in s
    ensures List(next[x := first], To(x), [x] + s)
  {
    var now, t := next[x := first], [x] + s;
    assert [] + s == s && [] + [x] + s == t;
    UnlikeInsert([], x, s);
    forall j: nat | j < |t|
      ensures Follows(now, t, j)
    {
      if j > 0 {
        assert Follows(next, s, j - 1);
      }
    }
  }

  lemma UnlikeRemove<T>(s: seq<T>, k: nat)
    requires Unlike(s) && k < |s|
    ensures Unlike(s[..k] + s[k + 1..]) && s[k] !in s[..k] + s[k + 1..]
  {}

  /** The node at place `k`, not the first, is taken out. */
  lemma ListRemove<T>(next: map<T, Pointer<T>>, first: Pointer<T>, s: seq<T>, k: nat)
    requires List(next, first, s) && 0 < k < |s|
    ensures Follows(next, s, k)
    ensures List(next[s[k - 1] := next[s[k]]], first, s[..k] + s[k + 1..])
  {
    assert Follows(next, s, k);
    var now, t := next[s[k - 1] := next[s[k]]], s[..k] + s[k + 1..];
    UnlikeRemove(s, k);
    forall j: nat | j < |t|
      ensures Follows(now, t, j)
    {
      if j < k {
        assert Follows(next, s, j);
      } else {
        assert Follows(next, s, j + 1);
      }
    }
  }

  lemma ListRemoveFirst<T>(next: map<T, Pointer<T>>, first: Pointer<T>, s: seq<T>)
    requires List(next, first, s) && s != []
    ensures Follows(next, s, 0) && List(next, next[s[0]], s[1..])
  {
    assert Follows(next, s, 0);
    forall j: nat | j < |s| - 1
      ensures Follows(next, s[1..], j)
    {
      assert Follows(next, s, j + 1);
    }
  }

  /** What happens to other nodes does not matter. */
  lemma ListKept<T>(next: map<T, Pointer<T>>, now: map<T, Pointer<T>>, first: Pointer<T>, s: seq<T>)
    requires List(next, first, s) && forall x :: x in s ==> x in next ==> x in now && now[x] == next[x]
    ensures List(now, first, s)
  {
    forall k: nat | k < |s|
      ensures Follows(now, s, k)
    {
      assert Follows(next, s, k);
    }
  }

  lemma BackInsert<T>(prev: map<T, Pointer<T>>, s: seq<T>, k: nat, x: T)
    requires Back(prev, s) && Unlike(s) && k < |s| && x !in s
    ensures var t := s[..k + 1] + [x] + s[k + 1..];
      Back(if k + 1 < |s| then prev[x := To(s[k])][s[k + 1] := To(x)] else prev[x := To(s[k])], t)
  {
    var t := s[..k + 1] + [x] + s[k + 1..];
    var now := if k + 1 < |s| then prev[x := To(s[k])][s[k + 1] := To(x)] else prev[x := To(s[k])];
    forall j: nat | j < |t|
      ensures Precedes(now, t, j)
    {
      if j <= k {
        assert Precedes(prev, s, j);
      } else if j > k + 1 {
        assert Precedes(prev, s, j - 1);
      }
    }
  }

  lemma BackFront<T>(prev: map<T, Pointer<T>>, s: seq<T>, x: T)
    requires Back(prev, s) && Unlike(s) && x !in s
    ensures Back(if s != [] then prev[x := Null][s[0] := To(x)] else prev[x := Null], [x] + s)
  {
    var now := if s != [] then prev[x := Null][s[0] := To(x)] else prev[x := Null];
    forall j: nat | j < |[x] + s|
      ensures Precedes(now, [x] + s, j)
    {
      if j > 0 {
        assert Precedes(prev, s, j - 1);
      }
    }
  }

  /** A run of nodes from `p` to `e` is taken out. */
  lemma BackRemove<T>(prev: map<T, Pointer<T>>, s: seq<T>, p: nat, e: nat)
    requires Back(prev, s) && Unlike(s) && p <= e <= |s|
    ensures Back(if e < |s| then prev[s[e] := At(s, p - 1)] else prev, s[..p] + s[e..])
  {
    var now, t := if e < |s| then prev[s[e] := At(s, p - 1)] else prev, s[..p] + s[e..];
    forall j: nat | j < |t|
      ensures Precedes(now, t, j)
    {
      if j < p {
        assert Precedes(prev, s, j);
      } else {
        assert Precedes(prev, s, e + j - p);
      }
    }
  }

  lemma ListCut<T>(next: map<T, Pointer<T>>, first: Pointer<T>, s: seq<T>, p: nat, e: nat)
    requires List(next, first, s) && p <= e <= |s|
    ensures List(if p > 0 then next[s[p - 1] := At(s, e)] else next, if p > 0 then first else At(s, e), s[..p] + s[e..])
  {
    var t := s[..p] + s[e..];
    var now := if p > 0 then next[s[p - 1] := At(s, e)] else next;
    forall j: nat | j < |t|
      ensures Follows(now, t, j)
    {
      if j < p {
        assert Follows(next, s, j);
      } else {
        assert Follows(next, s, e + j - p);
      }
    }
  }

  /** A node with no successor goes behind the last. */
  lemma ListAppend<T>(next: map<T, Pointer<T>>, first: Pointer<T>, s: seq<T>, x: T)
    requires List(next, first, s) && s != [] && x !in s && x in next && next[x] == Null
    ensures List(next[s[|s| - 1] := To(x)], first, s + [x])
  {
    var now, t := next[s[|s| - 1] := To(x)], s + [x];
    forall k: nat | k < |t|
      ensures Follows(now, t, k)
    {
      if k < |s| {
        assert Follows(next, s, k);
      }
    }
  }

  lemma ListOne<T>(next: map<T, Pointer<T>>, x: T)
    requires x in next && next[x] == Null
    ensures List(next, To(x), [x])
  {
    assert Follows(next, [x], 0);
  }

  lemma BackAppend<T>(prev: map<T, Pointer<T>>, s: seq<T>, x: T)
    requires Back(prev, s) && x !in s
    ensures Back(prev[x := At(s, |s| - 1)], s + [x])
  {
    var now, t := prev[x := At(s, |s| - 1)], s + [x];
    forall k: nat | k < |t|
      ensures Precedes(now, t, k)
    {
      if k < |s| {
        assert Precedes(prev, s, k);
      }
    }
  }
}
