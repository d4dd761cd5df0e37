/**
  One producer and one consumer of `lch/util/pfifo.c`, interleaved access by access under sequential
  consistency.  The slots of the ring hold blocks of memory; the producer may replace the block of the
  slot it is about to fill by a larger one, and the consumer works on the block of the oldest slot
  until it commits the read.
 */
module PfifoRuns {
  import opened Ring

  type Block = nat
  type Value = seq<int>

  /** Where `pfifo_write` and its caller stand. */
  datatype Producer =
    | Idle
    | Asked(psize: nat)                  // next index computed from w, r not read yet
    | Room(psize: nat)                   // r read: the ring is not full
    | Holding(psize: nat, spare: Block)  // a larger block is allocated
    | Dropped(psize: nat, spare: Block)  // the old block of the slot is freed
    | Filling(psize: nat, block: Block)  // the block is returned; the caller writes into it

  /** Where `pfifo_read`, `pfifo_clear` and their caller stand. */
  datatype Consumer =
    | Resting
    | Seen                     // r differs from w
    | Peeked(block: Block)     // the block is returned; the caller reads it
    | Clearing(target: nat)    // w read, r not yet set

  datatype State = State(
    avpsize: nat, elements: seq<Block>, r: nat, w: nat,
    size: map<Block, nat>, content: map<Block, Value>,
    producer: Producer, consumer: Consumer,
    sent: seq<Value>,   // every value committed and not rolled back, oldest first
    head: nat,          // how many of them are read or cleared
    got: seq<nat>,      // which of them were read
    out: seq<Value>)    // the values the consumer saw when it committed each read

  datatype Action =
    | AskWrite(psize: nat)
    | TestFull
    | UseSlot
    | Allocate(block: Block)
    | AllocateFails
    | FreeOld
    | Install
    | Store(value: Value)
    | CommitWrite
    | Rollback
    | Forget
    | TestEmpty
    | Peek
    | CommitRead
    | Leave
    | StartClear
    | FinishClear

  predicate Allowed(s: State, a: Action) {
    match a
    case AskWrite(psize) => s.producer.Idle?
    case TestFull => s.producer.Asked?
    case UseSlot => s.producer.Room? && s.producer.psize <= s.avpsize
    case Allocate(block) => s.producer.Room? && s.producer.psize > s.avpsize && block !in s.size
    case AllocateFails => s.producer.Room? && s.producer.psize > s.avpsize
    case FreeOld => s.producer.Holding?
    case Install => s.producer.Dropped?
    case Store(value) => s.producer.Filling? && |value| <= s.producer.psize
    case CommitWrite => s.producer.Filling?
    case Rollback => s.producer.Idle?
    case Forget => s.producer.Filling?
    case TestEmpty => s.consumer.Resting?
    case Peek => s.consumer.Seen?
    case CommitRead => s.consumer.Peeked?
    case Leave => s.consumer.Peeked?
    case StartClear => s.consumer.Resting?
    case FinishClear => s.consumer.Clearing?
  }

  /** Shapes only: what an action needs to be defined. */
  predicate Sized(s: State) {
    s.r < |s.elements| && s.w < |s.elements| && |s.elements| > 1
  }

  function Held(s: State): nat
    requires Sized(s)
  {
    Count(s.r, s.w, |s.elements|)
  }

  function Do(s: State, a: Action): State
    requires Sized(s) && Allowed(s, a)
    requires a.CommitWrite? ==> s.producer.block in s.content
    requires a.CommitRead? ==> s.consumer.block in s.content
    requires a.FinishClear? ==> s.consumer.target < |s.elements|
  {
    var n := |s.elements|;
    match a
    case AskWrite(psize) => s.(producer := Asked(psize))
    case TestFull => s.(producer := if Next(s.w, n) == s.r then Idle else Room(s.producer.psize))
    case UseSlot => s.(producer := Filling(s.producer.psize, s.elements[s.w]))
    case Allocate(block) =>
      s.(size := s.size[block := s.producer.psize], content := s.content[block := []],
         producer := Holding(s.producer.psize, block))
    case AllocateFails => s.(producer := Idle)
    case FreeOld =>
      s.(size := s.size - {s.elements[s.w]}, content := s.content - {s.elements[s.w]},
         producer := Dropped(s.producer.psize, s.producer.spare))
    case Install =>
      s.(elements := s.elements[s.w := s.producer.spare],
         producer := Filling(s.producer.psize, s.producer.spare))
    case Store(value) => s.(content := s.content[s.producer.block := value])
    case CommitWrite =>
      s.(w := Next(s.w, n), sent := s.sent + [s.content[s.producer.block]], producer := Idle)
    case Rollback =>
      s.(w := Prev(s.w, n), sent := if s.sent == [] then [] else s.sent[..|s.sent| - 1])
    case Forget => s.(producer := Idle)
    case TestEmpty => s.(consumer := if s.r == s.w then Resting else Seen)
    case Peek => s.(consumer := Peeked(s.elements[s.r]))
    case CommitRead =>
      s.(r := Next(s.r, n), head := s.head + 1, got := s.got + [s.head],
         out := s.out + [s.content[s.consumer.block]], consumer := Resting)
    case Leave => s.(consumer := Resting)
    case StartClear => s.(consumer := Clearing(s.w))
    case FinishClear =>
      s.(r := s.consumer.target, head := s.head + Count(s.r, s.consumer.target, n), consumer := Resting)
  }

  // ----- The invariant -----

  /** Indices and counts agree. */
  predicate Counted(s: State) {
    Sized(s) && s.head <= |s.sent| && Held(s) == |s.sent| - s.head
  }

  /** The slot whose block the producer has freed and not yet replaced. */
  predicate Gap(s: State, i: nat) {
    s.producer.Dropped? && i == s.w
  }

  /** Every slot but the gap has its own live block, no smaller than the average size. */
  predicate Slots(s: State) {
    && (forall i, j :: 0 <= i < j < |s.elements| ==> s.elements[i] != s.elements[j])
    && (forall i :: 0 <= i < |s.elements| && !Gap(s, i) ==>
          s.elements[i] in s.size && s.size[s.elements[i]] >= s.avpsize)
  }

  predicate Memory(s: State) {
    && s.size.Keys == s.content.Keys
    && (forall b :: b in s.size ==> |s.content[b]| <= s.size[b])
  }

  /** The blocks between r and w hold what was committed, in order. */
  predicate Ordered(s: State)
    requires Counted(s)
  {
    forall k :: 0 <= k < Held(s) ==>
      var b := s.elements[At(s.r, k, |s.elements|)];
      b in s.content && s.content[b] == s.sent[s.head + k]
  }

  predicate ProducerOk(s: State)
    requires Sized(s)
  {
    match s.producer
    case Idle => true
    case Asked(_) => true
    case Room(_) => Held(s) + 2 <= |s.elements|
    case Holding(psize, b) =>
      Held(s) + 2 <= |s.elements| && psize > s.avpsize && b in s.size && s.size[b] >= psize && b !in s.elements
    case Dropped(psize, b) =>
      Held(s) + 2 <= |s.elements| && psize > s.avpsize && b in s.size && s.size[b] >= psize && b !in s.elements
    case Filling(psize, b) =>
      Held(s) + 2 <= |s.elements| && b == s.elements[s.w] && b in s.size && s.size[b] >= psize
  }

  predicate ConsumerOk(s: State)
    requires Sized(s)
  {
    match s.consumer
    case Resting => true
    case Seen => Held(s) > 0
    case Peeked(b) => Held(s) > 0 && b == s.elements[s.r]
    case Clearing(t) => t < |s.elements| && Count(s.r, t, |s.elements|) <= Held(s)
  }

  /** The values read are some of those committed, each at most once, in order. */
  predicate ReadInOrder(s: State) {
    && (forall i, j :: 0 <= i < j < |s.got| ==> s.got[i] < s.got[j])
    && |s.out| == |s.got| && s.head <= |s.sent|
    && (forall i :: 0 <= i < |s.got| ==> s.got[i] < s.head && s.out[i] == s.sent[s.got[i]])
  }

  predicate Inv(s: State) {
    Counted(s) && Slots(s) && Memory(s) && Ordered(s) && ProducerOk(s) && ConsumerOk(s) && ReadInOrder(s)
  }

  predicate TouchesMemory(a: Action) {
    a.Allocate? || a.FreeOld? || a.Install? || a.Store?
  }

  predicate MovesRing(a: Action) {
    a.CommitWrite? || a.Rollback? || a.CommitRead? || a.FinishClear?
  }

  /** Tests and returns change neither the ring nor the memory. */
  lemma LocalKeeps(s: State, a: Action)
    requires Inv(s) && Allowed(s, a) && !TouchesMemory(a) && !MovesRing(a)
    ensures Inv(Do(s, a))
  {}

  /** What the producer allocates, frees and fills is never a block that holds a committed value. */
  lemma MemoryKeeps(s: State, a: Action)
    requires Inv(s) && Allowed(s, a) && TouchesMemory(a)
    ensures Inv(Do(s, a))
  {}

  lemma CommitWriteKeeps(s: State)
    requires Inv(s) && s.producer.Filling?
    ensures Inv(Do(s, CommitWrite))
  {}

  /** The last commit can be undone: its value is held, and the consumer has not come to it. */
  predicate CanUndo(s: State)
    requires Sized(s)
  {
    && Held(s) > 0
    && (s.consumer.Seen? || s.consumer.Peeked? ==> Held(s) > 1)
    && (s.consumer.Clearing? ==>
          s.consumer.target < |s.elements| && Count(s.r, s.consumer.target, |s.elements|) < Held(s))
  }

  /** A rollback is safe exactly when the consumer has not come to the value it takes back. */
  lemma RollbackExact(s: State)
    requires Inv(s) && s.producer.Idle?
    ensures Inv(Do(s, Rollback)) <==> CanUndo(s)
  {
    var t, n := Do(s, Rollback), |s.elements|;
    if Held(s) > 0 {
      CountUnique(s.r, Held(s) - 1, n);
      assert t.w == At(s.r, Held(s) - 1, n);
      forall k | 0 <= k < Held(t)
        ensures var b := t.elements[At(t.r, k, n)]; b in t.content && t.content[b] == t.sent[t.head + k]
      {
        assert s.elements[At(s.r, k, n)] in s.content;
      }
    } else {
      assert Held(t) == n - 1;
    }
  }

  lemma PeekedIsOldest(s: State)
    requires Inv(s) && s.consumer.Peeked?
    ensures s.consumer.block in s.content && s.head < |s.sent|
    ensures s.content[s.consumer.block] == s.sent[s.head]
  {
    assert s.elements[At(s.r, 0, |s.elements|)] == s.consumer.block;
  }

  /** Taking `j` elements off the front leaves the others in order. */
  lemma OrderedAfter(s: State, t: State, j: nat)
    requires Counted(s) && Ordered(s) && j <= Held(s)
    requires t.elements == s.elements && t.w == s.w && t.content == s.content && t.sent == s.sent
    requires t.r == At(s.r, j, |s.elements|) && t.head == s.head + j
    ensures Counted(t) && Ordered(t)
  {
    CountShift(s.r, s.w, j, |s.elements|);
    forall k | 0 <= k < Held(t)
      ensures var b := t.elements[At(t.r, k, |t.elements|)]; b in t.content && t.content[b] == t.sent[t.head + k]
    {
      AtShift(s.r, j, k, |s.elements|);
      assert s.elements[At(s.r, j + k, |s.elements|)] in s.content;
    }
  }

  lemma CommitReadKeeps(s: State)
    requires Inv(s) && s.consumer.Peeked?
    ensures s.consumer.block in s.content && Inv(Do(s, CommitRead))
  {
    PeekedIsOldest(s);
    OrderedAfter(s, Do(s, CommitRead), 1);
  }

  lemma FinishClearKeeps(s: State)
    requires Inv(s) && s.consumer.Clearing?
    ensures Inv(Do(s, FinishClear))
  {
    OrderedAfter(s, Do(s, FinishClear), Count(s.r, s.consumer.target, |s.elements|));
  }

  /** An action is defined in a state that satisfies the invariant. */
  predicate Can(s: State, a: Action) {
    && Sized(s) && Allowed(s, a)
    && (a.CommitWrite? ==> s.producer.block in s.content)
    && (a.CommitRead? ==> s.consumer.block in s.content)
    && (a.FinishClear? ==> s.consumer.target < |s.elements|)
  }

  lemma StepKeepsInv(s: State, a: Action)
    requires Inv(s) && Allowed(s, a) && (a.Rollback? ==> CanUndo(s))
    ensures Can(s, a) && Inv(Do(s, a))
  {
    match a
    case CommitWrite => CommitWriteKeeps(s);
    case Rollback => RollbackExact(s);
    case CommitRead => CommitReadKeeps(s);
    case FinishClear => FinishClearKeeps(s);
    case _ => if TouchesMemory(a) { MemoryKeeps(s, a); } else { LocalKeeps(s, a); }
  }

  // ----- Runs -----

  /** As `pfifo_open` leaves it: `n` blocks of the average size. */
  predicate Opened(s: State) {
    && |s.elements| > 1 && s.r == s.w == s.head == 0 && s.sent == [] && s.got == [] && s.out == []
    && s.producer.Idle? && s.consumer.Resting? && Slots(s) && Memory(s)
  }

  /** `pfifo_open`: an empty ring of different blocks, each of the average size, is opened and keeps the invariant. */
  lemma OpenedRing(blocks: seq<Block>, avpsize: nat)
    requires |blocks| > 1 && forall i, j :: 0 <= i < j < |blocks| ==> blocks[i] != blocks[j]
    ensures var size := map b | b in blocks :: avpsize; var content := map b | b in blocks :: [];
      var s := State(avpsize, blocks, 0, 0, size, content, Idle, Resting, [], 0, [], []);
      Opened(s) && Inv(s) && Held(s) == 0
  {}

  /** A sequence of actions, each allowed when its turn comes. */
  predicate Runs(s: State, actions: seq<Action>)
    decreases |actions|
  {
    actions == [] || (Can(s, actions[0]) && Runs(Do(s, actions[0]), actions[1..]))
  }

  function After(s: State, actions: seq<Action>): State
    requires Runs(s, actions)
    decreases |actions|
  {
    if actions == [] then s else After(Do(s, actions[0]), actions[1..])
  }

  /** Every rollback of the run is safe when its turn comes. */
  predicate Careful(s: State, actions: seq<Action>)
    requires Runs(s, actions)
    decreases |actions|
  {
    actions == [] || ((actions[0].Rollback? ==> CanUndo(s)) && Careful(Do(s, actions[0]), actions[1..]))
  }

  lemma {:induction false} RunKeepsInv(s: State, actions: seq<Action>)
    requires Inv(s) && Runs(s, actions) && Careful(s, actions)
    ensures Inv(After(s, actions))
    decreases |actions|
  {
    if actions != [] {
      StepKeepsInv(s, actions[0]);
      RunKeepsInv(Do(s, actions[0]), actions[1..]);
    }
  }

  /** However the two sides interleave, the values read are values committed, each once and in order. */
  lemma ReadsAreOrdered(s: State, actions: seq<Action>)
    requires Opened(s) && Runs(s, actions) && Careful(s, actions)
    ensures var t := After(s, actions);
      && |t.out| == |t.got| <= |t.sent|
      && (forall i :: 0 <= i < |t.got| ==> t.got[i] < |t.sent| && t.out[i] == t.sent[t.got[i]])
      && (forall i, j :: 0 <= i < j < |t.got| ==> t.got[i] < t.got[j])
  {
    RunKeepsInv(s, actions);
    var t := After(s, actions);
    Increasing(t.got, |t.sent|);
  }

  lemma {:induction false} Increasing(got: seq<nat>, n: nat)
    requires forall i, j :: 0 <= i < j < |got| ==> got[i] < got[j]
    requires forall i :: 0 <= i < |got| ==> got[i] < n
    ensures |got| <= n
    decreases |got|
  {
    if got != [] {
      Increasing(got[..|got| - 1], got[|got| - 1]);
    }
  }

  lemma {:induction false} NoGaps(s: State, actions: seq<Action>)
    requires Inv(s) && Runs(s, actions) && Careful(s, actions)
    requires !s.consumer.Clearing? && |s.got| == s.head
    requires forall i :: 0 <= i < |actions| ==> !actions[i].StartClear?
    ensures var t := After(s, actions); !t.consumer.Clearing? && |t.got| == t.head
    decreases |actions|
  {
    if actions != [] {
      StepKeepsInv(s, actions[0]);
      NoGaps(Do(s, actions[0]), actions[1..]);
    }
  }

  /** Without a clear nothing is lost either: what was read is exactly the front of what was committed. */
  lemma NothingLost(s: State, actions: seq<Action>)
    requires Opened(s) && Runs(s, actions) && Careful(s, actions)
    requires forall i :: 0 <= i < |actions| ==> !actions[i].StartClear?
    ensures var t := After(s, actions);
      && Sized(t) && |t.sent| == |t.out| + Held(t) && t.out == t.sent[..|t.out|]
  {
    RunKeepsInv(s, actions);
    NoGaps(s, actions);
    var t := After(s, actions);
    Dense(t.got);
  }

  /** As many increasing numbers as fit below their count are all of them. */
  lemma {:induction false} Dense(got: seq<nat>)
    requires forall i, j :: 0 <= i < j < |got| ==> got[i] < got[j]
    requires forall i :: 0 <= i < |got| ==> got[i] < |got|
    ensures forall i :: 0 <= i < |got| ==> got[i] == i
  {
    if got != [] {
      var front := got[..|got| - 1];
      forall i | 0 <= i < |front|
        ensures front[i] < |front|
      {
        assert got[i] < got[|got| - 1];
      }
      Dense(front);
      assert forall i :: 0 <= i < |front| ==> got[i] == front[i];
      if |got| > 1 {
        assert got[|got| - 2] == |got| - 2;
      }
    }
  }

  // ----- What the two sides may rely on -----

  predicate ByProducer(a: Action) {
    !(a.TestEmpty? || a.Peek? || a.CommitRead? || a.Leave? || a.StartClear? || a.FinishClear?)
  }

  /** While the consumer looks at a block, nothing the producer does frees it, writes it or takes it out of its slot. */
  lemma PeekedIsSafe(s: State, a: Action)
    requires Inv(s) && Allowed(s, a) && ByProducer(a) && s.consumer.Peeked? && (a.Rollback? ==> CanUndo(s))
    ensures Can(s, a)
    ensures var b, t := s.consumer.block, Do(s, a);
      && t.consumer == s.consumer && b in t.size && b in s.content && t.content[b] == s.content[b] == s.sent[s.head]
      && t.r == s.r && t.elements[t.r] == b
  {
    PeekedIsOldest(s);
    StepKeepsInv(s, a);
    assert s.w == At(s.r, Held(s), |s.elements|) != s.r;
  }

  /** While the producer fills a block, it is live, large enough, and out of the consumer's reach. */
  lemma FillingIsSafe(s: State, a: Action)
    requires Inv(s) && Allowed(s, a) && !ByProducer(a) && s.producer.Filling?
    ensures Can(s, a)
    ensures var b, t := s.producer.block, Do(s, a);
      && t.producer == s.producer && b in t.size && t.size[b] >= s.producer.psize && t.size[b] >= t.avpsize
      && b in s.content && t.content[b] == s.content[b]
      && (t.consumer.Peeked? ==> t.consumer.block != b)
  {
    StepKeepsInv(s, a);
  }

  /** Rolled back under the eyes of the consumer, a block it has peeked is handed out to be written. */
  lemma RollbackBreaks(s: State, value: Value)
    requires Opened(s) && |s.elements| == 2 && s.avpsize >= |value|
    ensures var run := [AskWrite(|value|), TestFull, UseSlot, Store(value), CommitWrite, TestEmpty, Peek,
                        Rollback, AskWrite(|value|), TestFull, UseSlot];
      && Runs(s, run)
      && var t := After(s, run); t.producer.Filling? && t.consumer == Peeked(t.producer.block)
  {
    var write := [AskWrite(|value|), TestFull, UseSlot];
    var front := write + [Store(value), CommitWrite] + [TestEmpty, Peek];
    PeekedAfter(s, value);
    UndoneAfter(After(s, front), |value|);
    RunsJoin(s, front, [Rollback] + write);
    assert front + ([Rollback] + write) ==
      [AskWrite(|value|), TestFull, UseSlot, Store(value), CommitWrite, TestEmpty, Peek,
       Rollback, AskWrite(|value|), TestFull, UseSlot];
  }

  lemma PeekedAfter(s: State, value: Value)
    requires Opened(s) && |s.elements| == 2 && s.avpsize >= |value|
    ensures var run := [AskWrite(|value|), TestFull, UseSlot] + [Store(value), CommitWrite] + [TestEmpty, Peek];
      && Runs(s, run)
      && var t := After(s, run);
         && t.elements == s.elements && t.avpsize == s.avpsize && t.r == 0 && t.w == 1
         && t.producer.Idle? && t.consumer == Peeked(s.elements[0])
  {
    var write, commit := [AskWrite(|value|), TestFull, UseSlot], [Store(value), CommitWrite];
    UsesSlot(s, |value|);
    Commits(After(s, write), value);
    RunsJoin(s, write, commit);
    Peeks(After(s, write + commit));
    RunsJoin(s, write + commit, [TestEmpty, Peek]);
  }

  lemma UndoneAfter(t: State, psize: nat)
    requires |t.elements| == 2 && t.r == 0 && t.w == 1 && t.producer.Idle? && psize <= t.avpsize
    ensures var run := [Rollback] + [AskWrite(psize), TestFull, UseSlot];
      && Runs(t, run) && After(t, run).producer == Filling(psize, t.elements[0]) && After(t, run).consumer == t.consumer
  {
    First(t, Rollback, [AskWrite(psize), TestFull, UseSlot]);
    UsesSlot(Do(t, Rollback), psize);
  }

  lemma Commits(s: State, value: Value)
    requires Sized(s) && s.producer.Filling? && |value| <= s.producer.psize
    ensures var run := [Store(value), CommitWrite];
      Runs(s, run) && After(s, run) ==
        s.(content := s.content[s.producer.block := value], w := Next(s.w, |s.elements|),
           sent := s.sent + [value], producer := Idle)
  {
    First(s, Store(value), [CommitWrite]);
    First(Do(s, Store(value)), CommitWrite, []);
  }

  lemma Peeks(s: State)
    requires Sized(s) && s.consumer.Resting? && s.r != s.w
    ensures var run := [TestEmpty, Peek];
      Runs(s, run) && After(s, run) == s.(consumer := Peeked(s.elements[s.r]))
  {
    First(s, TestEmpty, [Peek]);
    First(s.(consumer := Seen), Peek, []);
  }

  /** A write into the slot at w of a ring that is not full. */
  lemma UsesSlot(s: State, psize: nat)
    requires Sized(s) && s.producer.Idle? && psize <= s.avpsize && Next(s.w, |s.elements|) != s.r
    ensures var write := [AskWrite(psize), TestFull, UseSlot];
      Runs(s, write) && After(s, write) == s.(producer := Filling(psize, s.elements[s.w]))
  {
    var s1 := s.(producer := Asked(psize));
    var s2 := s.(producer := Room(psize));
    First(s2, UseSlot, []);
    First(s1, TestFull, [UseSlot]);
    First(s, AskWrite(psize), [TestFull, UseSlot]);
  }

  lemma First(s: State, a: Action, rest: seq<Action>)
    requires Can(s, a)
    ensures Runs(s, [a] + rest) <==> Runs(Do(s, a), rest)
    ensures Runs(Do(s, a), rest) ==> After(s, [a] + rest) == After(Do(s, a), rest)
  {
    assert ([a] + rest)[1..] == rest;
  }

  lemma {:induction false} RunsJoin(s: State, a: seq<Action>, b: seq<Action>)
    requires Runs(s, a) && Runs(After(s, a), b)
    ensures Runs(s, a + b) && After(s, a + b) == After(After(s, a), b)
    decreases |a|
  {
    if a == [] {
      assert a + b == b;
    } else {
      RunsJoin(Do(s, a[0]), a[1..], b);
      assert (a + b)[1..] == a[1..] + b;
    }
  }

  /** Only the producer lets the count grow, only the consumer lets it shrink: each may trust it one way. */
  lemma CountTrust(s: State, a: Action)
    requires Inv(s) && Can(s, a) && !a.Rollback?
    ensures Sized(Do(s, a))
    ensures !ByProducer(a) ==> Held(Do(s, a)) <= Held(s)
    ensures ByProducer(a) ==> Held(Do(s, a)) >= Held(s)
  {
    StepKeepsInv(s, a);
  }

  /** A write is refused for want of room exactly when size - 1 values are held, a read exactly when none is. */
  lemma RefusalsAreExact(s: State)
    requires Inv(s)
    ensures Held(s) <= |s.elements| - 1
    ensures s.producer.Asked? ==> (Do(s, TestFull).producer.Idle? <==> Held(s) == |s.elements| - 1)
    ensures s.consumer.Resting? ==> (Do(s, TestEmpty).consumer.Resting? <==> s.head == |s.sent|)
    ensures s.producer.Room? ==> (Allowed(s, UseSlot) <==> !Allowed(s, AllocateFails))
  {
  }
}
