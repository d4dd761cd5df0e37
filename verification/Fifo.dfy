/**
  `lch/util/fifo.c`: a ring of pointers with one producer and one consumer.
 */
module Fifo {
  import opened Ring

  // ----- Interleavings: each access to r, w or a slot is a step -----

  /** `fifo_push` has tested for room, then stored into the slot, then sets w. */
  datatype Pusher = Out | HasRoom(data: nat) | Stored(data: nat)

  /** `fifo_pop` has seen an element, then loaded it, then sets r. */
  datatype Popper = Off | HasItem | Loaded(data: nat)

  datatype State = State(
    elements: seq<nat>, r: nat, w: nat, pusher: Pusher, popper: Popper,
    pushed: seq<nat>,  // every value pushed, oldest first
    popped: seq<nat>)  // every value popped, oldest first

  datatype Action = TestRoom(data: nat) | StoreSlot | SetW | TestItem | LoadSlot | SetR

  predicate Sized(s: State) {
    |s.elements| > 1 && s.r < |s.elements| && s.w < |s.elements|
  }

  predicate Allowed(s: State, a: Action) {
    match a
    case TestRoom(_) => s.pusher.Out?
    case StoreSlot => s.pusher.HasRoom?
    case SetW => s.pusher.Stored?
    case TestItem => s.popper.Off?
    case LoadSlot => s.popper.HasItem?
    case SetR => s.popper.Loaded?
  }

  function Do(s: State, a: Action): State
    requires Sized(s) && Allowed(s, a)
  {
    var n := |s.elements|;
    match a
    case TestRoom(data) => s.(pusher := if Next(s.w, n) == s.r then Out else HasRoom(data))
    case StoreSlot => s.(elements := s.elements[s.w := s.pusher.data], pusher := Stored(s.pusher.data))
    case SetW => s.(w := Next(s.w, n), pushed := s.pushed + [s.pusher.data], pusher := Out)
    case TestItem => s.(popper := if s.r == s.w then Off else HasItem)
    case LoadSlot => s.(popper := Loaded(s.elements[s.r]))
    case SetR => s.(r := Next(s.r, n), popped := s.popped + [s.popper.data], popper := Off)
  }

  function Waiting(s: State): nat
    requires Sized(s)
  {
    Count(s.r, s.w, |s.elements|)
  }

  predicate Inv(s: State) {
    && Sized(s)
    && |s.pushed| == |s.popped| + Waiting(s)
    && s.popped == s.pushed[..|s.popped|]
    && (forall k :: 0 <= k < Waiting(s) ==>
          s.elements[At(s.r, k, |s.elements|)] == s.pushed[|s.popped| + k])
    && (s.pusher.Out? || Waiting(s) + 2 <= |s.elements|)
    && (s.pusher.Stored? ==> s.elements[s.w] == s.pusher.data)
    && (s.popper.Off? || Waiting(s) > 0)
    && (s.popper.Loaded? ==> s.popper.data == s.pushed[|s.popped|])
  }

  lemma StepKeepsInv(s: State, a: Action)
    requires Inv(s) && Allowed(s, a)
    ensures Inv(Do(s, a))
  {
    match a
    case SetW => SetWKeeps(s);
    case LoadSlot => assert s.elements[At(s.r, 0, |s.elements|)] == s.pushed[|s.popped|];
    case SetR => SetRKeeps(s);
    case _ =>
  }

  lemma SetWKeeps(s: State)
    requires Inv(s) && s.pusher.Stored?
    ensures Inv(Do(s, SetW))
  {
    CountUnique(s.r, Waiting(s) + 1, |s.elements|);
  }

  lemma SetRKeeps(s: State)
    requires Inv(s) && s.popper.Loaded?
    ensures Inv(Do(s, SetR))
  {
    var t, n := Do(s, SetR), |s.elements|;
    CountShift(s.r, s.w, 1, n);
    forall k | 0 <= k < Waiting(t)
      ensures t.elements[At(t.r, k, n)] == t.pushed[|t.popped| + k]
    {
      AtShift(s.r, 1, k, n);
    }
  }

  predicate Runs(s: State, actions: seq<Action>)
    decreases |actions|
  {
    actions == [] || (Sized(s) && Allowed(s, actions[0]) && Runs(Do(s, actions[0]), actions[1..]))
  }

  function After(s: State, actions: seq<Action>): State
    requires Runs(s, actions)
    decreases |actions|
  {
    if actions == [] then s else After(Do(s, actions[0]), actions[1..])
  }

  lemma {:induction false} RunKeepsInv(s: State, actions: seq<Action>)
    requires Inv(s) && Runs(s, actions)
    ensures Inv(After(s, actions))
    decreases |actions|
  {
    if actions != [] {
      StepKeepsInv(s, actions[0]);
      RunKeepsInv(Do(s, actions[0]), actions[1..]);
    }
  }

  /** Whatever the interleaving, what was popped is the front of what was pushed; the rest waits. */
  lemma FirstInFirstOut(s: State, actions: seq<Action>)
    requires |s.elements| > 1 && s.r == s.w == 0 && s.pushed == s.popped == [] && s.pusher.Out? && s.popper.Off?
    requires Runs(s, actions)
    ensures var t := After(s, actions);
      && Sized(t) && |t.pushed| == |t.popped| + Waiting(t) && Waiting(t) <= |t.elements| - 1
      && t.popped == t.pushed[..|t.popped|]
  {
    RunKeepsInv(s, actions);
  }

  /** A push finds no room exactly if size - 1 values wait, a pop nothing exactly if none does. */
  lemma RefusalsAreExact(s: State, data: nat)
    requires Inv(s)
    ensures Waiting(s) == |s.pushed| - |s.popped| <= |s.elements| - 1
    ensures s.pusher.Out? ==>
      (Do(s, TestRoom(data)).pusher == if |s.pushed| - |s.popped| == |s.elements| - 1 then Out else HasRoom(data))
    ensures s.popper.Off? ==> (Do(s, TestItem).popper == if s.pushed == s.popped then Off else HasItem)
    ensures s.pusher.Stored? ==> Do(s, SetW).pushed == s.pushed + [s.pusher.data]
    ensures s.popper.Loaded? ==> Do(s, SetR).popped == s.popped + [s.pushed[|s.popped|]]
  {
    assert s.pushed[..|s.pushed|] == s.pushed;
  }

  // ----- The operations, each run to its end -----

  class Queue {
    const size: nat
    const elements: array<object?>
    var r: nat
    var w: nat

    ghost predicate Valid()
      reads this, elements
    {
      size > 1 && elements.Length == size && r < size && w < size
    }

    ghost function Contents(): seq<object?>
      requires Valid()
      reads this, elements
    {
      Held(elements[..], r, Count(r, w, size))
    }

    constructor (size: nat)
      requires size > 1
      ensures Valid() && this.size == size && Contents() == [] && fresh(elements)
    {
      this.size := size;
      elements := new object?[size](_ => null);
      r, w := 0, 0;
    }

    method Push(data: object?) returns (ret: int)
      requires Valid()
      modifies elements, `w
      ensures Valid()
      ensures ret == if data != null && |old(Contents())| < size - 1 then 0 else -1
      ensures Contents() == if ret == 0 then old(Contents()) + [data] else old(Contents())
    {
      if data != null {
        var nw := w + 1;
        if nw == size {
          nw := 0;
        }
        if nw != r {
          ghost var was := Contents();
          forall k | 0 <= k < |was|
            ensures At(r, k, size) != w
          {
            AtInjective(r, k, |was|, size);
          }
          elements[w] := data;
          w := nw;
          assert Contents()[..|was|] == was;
          return 0;
        }
      }
      return -1;
    }

    method Pop() returns (p: object?)
      requires Valid()
      modifies `r
      ensures Valid()
      ensures if old(Contents()) == [] then p == null && Contents() == []
              else old(Contents()) == [p] + Contents()
    {
      var next := r;
      if next != w {
        p := elements[next];
        next := next + 1;
        if next == size {
          next := 0;
        }
        r := next;
        return p;
      }
      return null;
    }

    method Clear()
      requires Valid()
      modifies `r
      ensures Valid() && Contents() == []
    {
      r := w;
    }

    method GetCnt() returns (n: nat)
      requires Valid()
      ensures n == |Contents()| < size
    {
      if r <= w {
        n := w - r;
      } else {
        n := size - (r - w);
      }
    }
  }
}
