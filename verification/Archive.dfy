/**
  The archive writer of `lch/util/archive.c`: a few open files, one for each period of time.  A file bears the
  suffix of a part while it is open, unless the archive writes directly; names are formed from the start of the
  period, and files from earlier runs are taken up again.
 */
module Archive {
  import opened Arithmetic

  datatype Option<T> = None | Some(value: T)

  /** Times are unsigned 32-bit seconds. */
  const WORD := 0x1_0000_0000

  const MAX_CONCURRENT_OPENED_FILES := 32

  const TIMET_HISTORY_NUM := 128

  // ----- Files -----

  datatype Name = Part(start: nat) | Real(start: nat)

  type Files<D> = map<Name, seq<D>>

  /** `rename`: it fails where there is nothing to rename, and replaces what has the new name. */
  function Rename<D>(fs: Files<D>, from: Name, to: Name): Files<D> {
    if from in fs then (map name | name in fs && name != from :: fs[name])[to := fs[from]] else fs
  }

  /** `fopen(name, "ab")`. */
  function Opened<D>(fs: Files<D>, name: Name): Files<D> {
    if name in fs then fs else fs[name := []]
  }

  /** What the archive holds for the period that starts at `t`. */
  function Kept<D>(fs: Files<D>, direct: bool, t: nat): seq<D> {
    if Real(t) in fs then fs[Real(t)]
    else if Part(t) in fs && !direct then fs[Part(t)]
    else []
  }

  function NameFor(direct: bool, t: nat): Name {
    if direct then Real(t) else Part(t)
  }

  /** What opening the file of a period does to the files, whether or not `fopen` succeeds at last. */
  function Reopened<D>(fs: Files<D>, direct: bool, t: nat, opens: bool): Files<D> {
    var moved := if direct then fs else Rename(fs, Real(t), Part(t));
    if opens then Opened(moved, NameFor(direct, t)) else moved
  }

  function Closed<D>(fs: Files<D>, direct: bool, t: nat): Files<D> {
    if direct then fs else Rename(fs, Part(t), Real(t))
  }

  lemma ReopenKeeps<D>(fs: Files<D>, direct: bool, t: nat, opens: bool)
    ensures forall u: nat :: Kept(Reopened(fs, direct, t, opens), direct, u) == Kept(fs, direct, u)
  {}

  /** Nothing is lost by closing a part next to which there is no finished file. */
  lemma CloseKeeps<D>(fs: Files<D>, direct: bool, t: nat)
    requires !direct ==> !(Part(t) in fs && Real(t) in fs)
    ensures forall u: nat :: Kept(Closed(fs, direct, t), direct, u) == Kept(fs, direct, u)
  {}

  // ----- What is lost -----

  /** A part beside a finished file: two files for one period. */
  predicate Beside<D>(fs: Files<D>, t: nat) {
    Part(t) in fs && Real(t) in fs
  }

  function At<D>(fs: Files<D>, name: Name): seq<D> {
    if name in fs then fs[name] else []
  }

  /** All that is on disk for the period, the finished file first. */
  function Disk<D>(fs: Files<D>, t: nat): seq<D> {
    At(fs, Real(t)) + At(fs, Part(t))
  }

  /** Opening a period again loses a file exactly if it had two, and loses data exactly if the part held any. */
  lemma ReopenExactly<D>(fs: Files<D>, t: nat)
    ensures |Reopened(fs, false, t, false)| == |fs| <==> !Beside(fs, t)
    ensures forall opens: bool ::
      (forall u: nat :: Disk(Reopened(fs, false, t, opens), u) == Disk(fs, u)) <==>
        !(Beside(fs, t) && fs[Part(t)] != [])
  {
    RenameCount(fs, Real(t), Part(t));
    forall opens: bool
      ensures (forall u: nat :: Disk(Reopened(fs, false, t, opens), u) == Disk(fs, u)) <==>
        !(Beside(fs, t) && fs[Part(t)] != [])
    {
      ReopenedDisk(fs, t, opens);
      Shorter(At(fs, Real(t)), At(fs, Part(t)));
      assert Disk(Reopened(fs, false, t, opens), t) == if Beside(fs, t) then fs[Real(t)] else Disk(fs, t);
    }
  }

  /** Finishing a period loses a file exactly if it had two, and loses data exactly if the finished one held any. */
  lemma CloseExactly<D>(fs: Files<D>, t: nat)
    ensures |Closed(fs, false, t)| == |fs| <==> !Beside(fs, t)
    ensures (forall u: nat :: Disk(Closed(fs, false, t), u) == Disk(fs, u)) <==>
      !(Beside(fs, t) && fs[Real(t)] != [])
  {
    RenameCount(fs, Part(t), Real(t));
    ClosedDisk(fs, t);
    Shorter(At(fs, Real(t)), At(fs, Part(t)));
    assert Disk(Closed(fs, false, t), t) == if Beside(fs, t) then fs[Part(t)] else Disk(fs, t);
  }

  /** A part left behind next to a finished file is lost when the period is opened again. */
  lemma StalePartLost<D>(fs: Files<D>, t: nat, opens: bool)
    requires Beside(fs, t)
    ensures var next := Reopened(fs, false, t, opens);
      Real(t) !in next && Part(t) in next && next[Part(t)] == fs[Real(t)]
  {}

  lemma Shorter<D>(a: seq<D>, b: seq<D>)
    ensures (a == a + b <==> b == []) && (b == a + b <==> a == [])
  {
    assert |a + b| == |a| + |b|;
    assert b == [] ==> a + b == a;
    assert a == [] ==> a + b == b;
  }

  lemma RenameCount<D>(fs: Files<D>, from: Name, to: Name)
    requires from != to
    ensures |Rename(fs, from, to)| == |fs| - if from in fs && to in fs then 1 else 0
  {
    if from in fs {
      var next := Rename(fs, from, to);
      assert next.Keys == fs.Keys - {from} + {to};
      assert |next| == |next.Keys| && |fs| == |fs.Keys|;
      assert to in fs ==> fs.Keys - {from} + {to} == fs.Keys - {from};
    }
  }

  /** A part beside a finished file gives way to it. */
  lemma ReopenedDisk<D>(fs: Files<D>, t: nat, opens: bool)
    ensures forall u: nat ::
      Disk(Reopened(fs, false, t, opens), u) == if u == t && Beside(fs, t) then fs[Real(t)] else Disk(fs, u)
    ensures forall u: nat :: Beside(Reopened(fs, false, t, opens), u) <==> Beside(fs, u) && u != t
  {
    var next := Reopened(fs, false, t, opens);
    forall u: nat
      ensures Disk(next, u) == if u == t && Beside(fs, t) then fs[Real(t)] else Disk(fs, u)
      ensures Beside(next, u) <==> Beside(fs, u) && u != t
    {
      if u == t {
        NoFront(At(next, Part(t)));
        NoFront(At(fs, Part(t)));
        NoEnd(At(fs, Real(t)));
      }
    }
  }

  lemma ClosedDisk<D>(fs: Files<D>, t: nat)
    ensures forall u: nat ::
      Disk(Closed(fs, false, t), u) == if u == t && Beside(fs, t) then fs[Part(t)] else Disk(fs, u)
    ensures forall u: nat :: Beside(Closed(fs, false, t), u) <==> Beside(fs, u) && u != t
  {
    var next := Closed(fs, false, t);
    forall u: nat
      ensures Disk(next, u) == if u == t && Beside(fs, t) then fs[Part(t)] else Disk(fs, u)
      ensures Beside(next, u) <==> Beside(fs, u) && u != t
    {
      if u == t {
        NoEnd(At(next, Real(t)));
        NoFront(At(fs, Part(t)));
        NoEnd(At(fs, Real(t)));
      }
    }
  }

  /** On disk once the period `t` has been opened again. */
  function OnceOpened<D>(fs: Files<D>, t: nat, u: nat): seq<D> {
    if u == t && Beside(fs, t) then fs[Real(t)] else Disk(fs, u)
  }

  ghost predicate OpenedAgain<D>(before: Files<D>, after: Files<D>, t: nat) {
    forall u: nat ::
      && Disk(after, u) == OnceOpened(before, t, u) && (Beside(after, u) <==> Beside(before, u) && u != t)
      && (Beside(after, u) ==> after[Real(u)] == before[Real(u)])
  }

  ghost predicate SameDisk<D>(before: Files<D>, after: Files<D>) {
    forall u: nat ::
      && Disk(after, u) == Disk(before, u) && (Beside(after, u) <==> Beside(before, u))
      && (Beside(after, u) ==> after[Real(u)] == before[Real(u)])
  }

  lemma ClosedSame<D>(fs: Files<D>, t: nat)
    requires !Beside(fs, t)
    ensures SameDisk(fs, Closed(fs, false, t))
  {
    ClosedDisk(fs, t);
  }

  lemma OpenedAfter<D>(a: Files<D>, b: Files<D>, t: nat, opens: bool)
    requires SameDisk(a, b)
    ensures OpenedAgain(a, Reopened(b, false, t, opens), t)
  {
    ReopenedDisk(b, t, opens);
    assert Beside(b, t) <==> Beside(a, t);
  }

  /** The period `t` was opened again if it was not open, and `more` was appended to its part. */
  ghost predicate WrittenTo<D>(before: Files<D>, after: Files<D>, t: nat, more: seq<D>) {
    forall u: nat ::
      && Disk(after, u) == OnceOpened(before, t, u) + (if u == t then more else [])
      && (Beside(after, u) <==> Beside(before, u) && u != t)
      && (Beside(after, u) ==> after[Real(u)] == before[Real(u)])
  }

  lemma NothingWritten<D>(before: Files<D>, after: Files<D>, t: nat)
    requires OpenedAgain(before, after, t)
    ensures WrittenTo(before, after, t, [])
  {
    forall u: nat
      ensures Disk(after, u) == OnceOpened(before, t, u) + []
    {
      NoEnd(Disk(after, u));
    }
  }

  lemma WriteLands<D>(before: Files<D>, fs: Files<D>, t: nat, d: D)
    requires OpenedAgain(before, fs, t) && Part(t) in fs && Real(t) !in fs
    ensures WrittenTo(before, fs[Part(t) := fs[Part(t)] + [d]], t, [d])
  {
    var after := fs[Part(t) := fs[Part(t)] + [d]];
    forall u: nat
      ensures Disk(after, u) == OnceOpened(before, t, u) + (if u == t then [d] else [])
      ensures Beside(after, u) <==> Beside(before, u) && u != t
      ensures Beside(after, u) ==> after[Real(u)] == before[Real(u)]
    {
      assert Disk(fs, u) == OnceOpened(before, t, u);
      if u == t {
        NoFront(fs[Part(t)]);
        NoFront(fs[Part(t)] + [d]);
      } else {
        NoEnd(Disk(fs, u));
      }
    }
  }

  /** A period that is open has one file. */
  lemma OpenAlready<D>(fs: Files<D>, t: nat)
    requires !Beside(fs, t)
    ensures OpenedAgain(fs, fs, t)
  {}

  lemma NoFront<D>(a: seq<D>)
    ensures [] + a == a
  {}

  lemma NoEnd<D>(a: seq<D>)
    ensures a + [] == a
  {}

  // ----- Periods -----

  /** `archive_matched_timet`: the end of the period is an unsigned int, too. */
  function Matched(a: nat, period: nat, b: nat): bool {
    b >= a && b < (a + period) % WORD
  }

  /** The start of the period of `t`. */
  function Start(t: nat, period: nat): (s: nat)
    requires period > 0
    ensures s <= t
  {
    t - t % period
  }

  predicate Aligned(t: nat, period: nat) {
    0 < period < WORD && t < WORD && t % period == 0
  }

  /** The period ends before the clock does. */
  predicate Ends(t: nat, period: nat) {
    t + period < WORD
  }

  lemma StartAligned(t: nat, period: nat)
    requires 0 < period < WORD && t < WORD
    ensures Aligned(Start(t, period), period)
  {
    DivMod(Start(t, period), t / period, period, 0);
  }

  /** Starts of periods match when they are the same and the period ends before the clock does. */
  lemma MatchedAligned(a: nat, period: nat, b: nat)
    requires Aligned(a, period) && Aligned(b, period)
    ensures Matched(a, period, b) <==> a == b && Ends(a, period)
  {
    if a < b {
      NextStart(a, period, b);
    }
    assert !Ends(a, period) ==> (a + period) % WORD == a + period - WORD;
  }

  lemma NextStart(a: nat, period: nat, b: nat)
    requires Aligned(a, period) && Aligned(b, period) && a < b
    ensures a + period <= b
  {
    var m, n := a / period, b / period;
    assert a == m * period && b == n * period;
    TimesGrows(m + 1, n, period);
  }

  // ----- Slots -----

  /** A slot that is open, and for which period. */
  predicate Holds(fp: seq<Option<Name>>, timet: seq<nat>, j: nat, t: nat) {
    j < |fp| && j < |timet| && fp[j].Some? && timet[j] == t
  }

  /** Two open slots are for different periods, unless the period is the one in which the clock ends. */
  ghost predicate Distinct(fp: seq<Option<Name>>, timet: seq<nat>, period: nat) {
    forall j: nat, k: nat, t: nat :: j != k && Holds(fp, timet, j, t) && Holds(fp, timet, k, t) ==> !Ends(t, period)
  }

  /** The slot is free, or all are open and none is for an earlier period. */
  ghost predicate IsOldest(fp: seq<Option<Name>>, timet: seq<nat>, oldest: nat, n: nat) {
    && oldest < n <= |fp| == |timet|
    && (fp[oldest].Some? ==> forall j: nat :: j < n ==> fp[j].Some? && timet[oldest] <= timet[j])
  }

  /** An open file is the one its slot says, and is there. */
  ghost predicate Backed<D>(fp: seq<Option<Name>>, timet: seq<nat>, fs: Files<D>, direct: bool, period: nat) {
    forall j: nat, t: nat :: Holds(fp, timet, j, t) ==>
      && fp[j] == Some(NameFor(direct, t))
      && FileFor(fs, direct, t, period)
  }

  /** While a part is open there is no finished file beside it. */
  predicate FileFor<D>(fs: Files<D>, direct: bool, t: nat, period: nat) {
    if direct then Real(t) in fs
    else !(Part(t) in fs && Real(t) in fs) && (Ends(t, period) ==> Part(t) in fs)
  }

  lemma OpenBacks<D>(fp: seq<Option<Name>>, timet: seq<nat>, fs: Files<D>, direct: bool, period: nat,
                     i: nat, t: nat, opens: bool)
    requires Backed(fp, timet, fs, direct, period) && i < |fp| == |timet| && fp[i] == None
    ensures var next := Reopened(fs, direct, t, opens);
      && Backed(fp, timet, next, direct, period)
      && (opens ==> Backed(fp[i := Some(NameFor(direct, t))], timet[i := t], next, direct, period))
  {}

  lemma CloseBacks<D>(fp: seq<Option<Name>>, timet: seq<nat>, fs: Files<D>, direct: bool, period: nat, i: nat)
    requires Backed(fp, timet, fs, direct, period) && Distinct(fp, timet, period)
    requires i < |fp| == |timet| && fp[i].Some?
    ensures Backed(fp[i := None], timet, Closed(fs, direct, timet[i]), direct, period)
  {
    forall j: nat, t: nat | Holds(fp[i := None], timet, j, t)
      ensures fp[j] == Some(NameFor(direct, t)) && FileFor(Closed(fs, direct, timet[i]), direct, t, period)
    {
      assert j != i && Holds(fp, timet, j, t) && Holds(fp, timet, i, timet[i]);
    }
  }

  lemma CloseDistinct(fp: seq<Option<Name>>, timet: seq<nat>, period: nat, i: nat)
    requires Distinct(fp, timet, period) && i < |fp|
    ensures Distinct(fp[i := None], timet, period)
    ensures forall j: nat, t: nat :: Holds(fp[i := None], timet, j, t) ==> Holds(fp, timet, j, t)
  {
    var closed := fp[i := None];
    forall j: nat, t: nat | Holds(closed, timet, j, t)
      ensures Holds(fp, timet, j, t)
    {
      assert j != i;
    }
    forall j: nat, k: nat, t: nat | j != k && Holds(closed, timet, j, t) && Holds(closed, timet, k, t)
      ensures !Ends(t, period)
    {
      assert Holds(fp, timet, j, t) && Holds(fp, timet, k, t);
    }
  }

  lemma OpenDistinct(fp: seq<Option<Name>>, timet: seq<nat>, period: nat, i: nat, t: nat, name: Name)
    requires Distinct(fp, timet, period) && i < |fp| == |timet| && fp[i] == None
    requires Ends(t, period) ==> forall j: nat :: !Holds(fp, timet, j, t)
    ensures Distinct(fp[i := Some(name)], timet[i := t], period)
  {
    var fp', timet' := fp[i := Some(name)], timet[i := t];
    forall j: nat, k: nat, u: nat | j != k && Holds(fp', timet', j, u) && Holds(fp', timet', k, u)
      ensures !Ends(u, period)
    {
      if j == i {
        assert Holds(fp, timet, k, u);
      } else if k == i {
        assert Holds(fp, timet, j, u);
      } else {
        assert Holds(fp, timet, j, u) && Holds(fp, timet, k, u);
      }
    }
  }

  /** A slot is open for the period, and found by the search. */
  ghost predicate IsOpen(fp: seq<Option<Name>>, timet: seq<nat>, t: nat, period: nat) {
    Ends(t, period) && exists j: nat :: Holds(fp, timet, j, t)
  }

  /** The slots after a period has been looked for and its file opened where that was needed. */
  ghost predicate Prepared(fp: seq<Option<Name>>, timet: seq<nat>, fp': seq<Option<Name>>, timet': seq<nat>,
                           oldest: nat, direct: bool, period: nat, t: nat, opens: bool, i: int) {
    if IsOpen(fp, timet, t, period) then
      i >= 0 && Holds(fp, timet, i, t) && fp' == fp && timet' == timet
    else
      && oldest < |fp| == |timet|
      && fp' == fp[oldest := if opens then Some(NameFor(direct, t)) else None]
      && timet' == (if opens then timet[oldest := t] else timet)
      && i == (if opens then oldest else -1)
  }

  /** In the period in which the clock ends every write opens a file, and two slots come to hold the period. */
  lemma EndOfClock(fp: seq<Option<Name>>, timet: seq<nat>, fp': seq<Option<Name>>, timet': seq<nat>, oldest: nat,
                   direct: bool, period: nat, t: nat, i: int, j: nat)
    requires Prepared(fp, timet, fp', timet', oldest, direct, period, t, true, i)
    requires !Ends(t, period) && Holds(fp, timet, j, t) && j != oldest
    ensures i == oldest && Holds(fp', timet', j, t) && Holds(fp', timet', oldest, t)
  {}

  /** The file of an open period, and the only one with what is kept for it. */
  predicate Writable<D>(fs: Files<D>, direct: bool, t: nat) {
    NameFor(direct, t) in fs && (!direct ==> Real(t) !in fs)
  }

  lemma WriteKeeps<D>(fs: Files<D>, direct: bool, t: nat, d: D)
    requires Writable(fs, direct, t)
    ensures var name := NameFor(direct, t);
      forall u: nat ::
        Kept(fs[name := fs[name] + [d]], direct, u) == Kept(fs, direct, u) + (if u == t then [d] else [])
  {}

  class Archive<D> {
    const period: nat
    const concurrent: nat
    const direct: bool

    /** The file system. */
    var fs: Files<D>
    var oldest: nat
    const fp: array<Option<Name>>
    const timet: array<nat>
    const th: array<nat>
    var thptr: nat
    var cnt: nat

    ghost predicate Sane()
      reads this, fp, timet, th
    {
      && 0 < period < WORD && 1 <= concurrent <= MAX_CONCURRENT_OPENED_FILES && oldest < concurrent
      && fp.Length == timet.Length == MAX_CONCURRENT_OPENED_FILES && th.Length == TIMET_HISTORY_NUM
      && timet != th && thptr < TIMET_HISTORY_NUM
      && (forall j: nat :: j < timet.Length ==> Aligned(timet[j], period))
      && (forall j: nat :: j < th.Length ==> Aligned(th[j], period))
      && (forall j: nat :: concurrent <= j < fp.Length ==> fp[j] == None)
      && Distinct(fp[..], timet[..], period)
      && Backed(fp[..], timet[..], fs, direct, period)
    }

    ghost predicate Valid()
      reads this, fp, timet, th
    {
      Sane() && IsOldest(fp[..], timet[..], oldest, concurrent)
    }

    /** An archive for a period in minutes. */
    constructor (minutes: nat, concurrent: nat, direct: bool, fs: Files<D>)
      requires 1 <= minutes && 60 * minutes < WORD / 2 && 1 <= concurrent <= MAX_CONCURRENT_OPENED_FILES
      ensures Valid() && this.fs == fs && period == 60 * minutes && this.concurrent == concurrent
      ensures this.direct == direct && cnt == 0 && forall j: nat :: j < fp.Length ==> fp[j] == None
      ensures fresh(fp) && fresh(timet) && fresh(th)
    {
      period := 60 * minutes;
      this.concurrent, this.direct, this.fs := concurrent, direct, fs;
      oldest, thptr, cnt := 0, 0, 0;
      fp := new Option<Name>[MAX_CONCURRENT_OPENED_FILES](_ => None);
      timet := new nat[MAX_CONCURRENT_OPENED_FILES](_ => 0);
      th := new nat[TIMET_HISTORY_NUM](_ => 0);
    }

    /** The first open slot for the period; none is found for the period in which the clock ends. */
    method FindOpen(t: nat) returns (i: int)
      requires Sane() && Aligned(t, period)
      ensures i >= 0 ==> Ends(t, period) && i < concurrent && Holds(fp[..], timet[..], i, t)
      ensures i < 0 ==> Ends(t, period) ==> forall j: nat :: !Holds(fp[..], timet[..], j, t)
    {
      i := 0;
      while i < concurrent
        invariant 0 <= i <= concurrent
        invariant Ends(t, period) ==> forall j: nat :: j < i ==> !Holds(fp[..], timet[..], j, t)
      {
        MatchedAligned(timet[i], period, t);
        if fp[i].Some? && Matched(timet[i], period, t) {
          return i;
        }
        i := i + 1;
      }
      i := -1;
    }

    /** The history of periods: one that is found there is the same, any other is added. */
    method Remember(t: nat) returns (t': nat)
      requires Sane() && Aligned(t, period)
      modifies this`thptr, th
      ensures Sane() && t' == t
    {
      t' := t;
      var j: nat := thptr;
      ghost var left := TIMET_HISTORY_NUM;
      while true
        invariant j < TIMET_HISTORY_NUM && Sane() && t' == t && thptr == old(thptr)
        invariant left == if j <= thptr then TIMET_HISTORY_NUM - (thptr - j) else j - thptr
        decreases left
        modifies {}
      {
        MatchedAligned(th[j], period, t);
        if Matched(th[j], period, t') {
          t' := th[j];
          return;
        }
        j := if j == 0 then TIMET_HISTORY_NUM - 1 else j - 1;
        left := left - 1;
        if j == thptr {
          break;
        }
      }
      thptr := if thptr + 1 == TIMET_HISTORY_NUM then 0 else thptr + 1;
      th[thptr] := t';
    }

    /** The first free slot, or the first of the open ones with the least start. */
    method LocateOldest()
      requires Sane()
      modifies this`oldest
      ensures Valid()
    {
      var least, j := WORD - 1, 0;
      while j < concurrent
        invariant j <= concurrent && Sane()
        invariant forall k: nat :: k < j ==> fp[k].Some? && least <= timet[k]
        invariant timet[oldest] == least || least == WORD - 1
      {
        if fp[j] == None {
          oldest := j;
          return;
        }
        if timet[j] < least {
          least := timet[j];
          oldest := j;
        }
        j := j + 1;
      }
    }

    /** `archive_open_new_file`. */
    method OpenNewFile(i: nat, t: nat, opens: bool) returns (ret: int)
      requires Sane() && i < concurrent && fp[i] == None && Aligned(t, period)
      requires Ends(t, period) ==> forall j: nat :: !Holds(fp[..], timet[..], j, t)
      modifies this`fs, fp, timet
      ensures Sane() && ret == (if opens then 0 else -1) && (opens ==> Writable(fs, direct, t))
      ensures fs == Reopened(old(fs), direct, t, opens)
      ensures fp[..] == if opens then old(fp[..])[i := Some(NameFor(direct, t))] else old(fp[..])
      ensures timet[..] == if opens then old(timet[..])[i := t] else old(timet[..])
    {
      OpenBacks(fp[..], timet[..], fs, direct, period, i, t, opens);
      OpenDistinct(fp[..], timet[..], period, i, t, NameFor(direct, t));
      fs := Reopened(fs, direct, t, opens);
      if !opens {
        return -1;
      }
      fp[i] := Some(NameFor(direct, t));
      timet[i] := t;
      ret := 0;
    }

    /** A file is closed, and a part gets the name of a finished file. */
    method CloseFile(i: nat)
      requires Sane() && i < fp.Length && fp[i].Some?
      modifies this`fs, fp
      ensures Sane() && fs == Closed(old(fs), direct, timet[i]) && fp[..] == old(fp[..])[i := None]
      ensures forall j: nat, t: nat :: Holds(fp[..], timet[..], j, t) ==> Holds(old(fp[..]), timet[..], j, t)
      ensures forall u: nat :: Kept(fs, direct, u) == Kept(old(fs), direct, u)
      ensures !direct ==> SameDisk(old(fs), fs)
    {
      assert Holds(fp[..], timet[..], i, timet[i]);
      CloseDistinct(fp[..], timet[..], period, i);
      CloseKeeps(fs, direct, timet[i]);
      CloseBacks(fp[..], timet[..], fs, direct, period, i);
      if !direct {
        ClosedSame(fs, timet[i]);
      }
      fs := Closed(fs, direct, timet[i]);
      fp[i] := None;
    }

    /**
      `archive_prepare_file`: the slot with the file for the period.  Only the slot of the oldest file changes, and
      that only if no slot is open for the period.
     */
    method PrepareFile(t: nat, opens: bool) returns (i: int)
      requires Valid() && Aligned(t, period)
      modifies this`fs, this`oldest, this`thptr, fp, timet, th
      ensures Valid()
      ensures Prepared(old(fp[..]), old(timet[..]), fp[..], timet[..], old(oldest), direct, period, t, opens, i)
      ensures i >= 0 ==> Holds(fp[..], timet[..], i, t) && Writable(fs, direct, t)
      ensures forall u: nat :: Kept(fs, direct, u) == Kept(old(fs), direct, u)
      ensures !direct ==> OpenedAgain(old(fs), fs, t)
    {
      i := FindOpen(t);
      if i >= 0 {
        if !direct {
          OpenAlready(fs, t);
        }
        return;
      }
      i := ReplaceOldest(t, opens);
    }

    /** The oldest file gives way to the file for the period. */
    method ReplaceOldest(t: nat, opens: bool) returns (i: int)
      requires Valid() && Aligned(t, period)
      requires Ends(t, period) ==> forall j: nat :: !Holds(fp[..], timet[..], j, t)
      modifies this`fs, this`oldest, this`thptr, fp, timet, th
      ensures Valid() && i == if opens then old(oldest) else -1
      ensures fp[..] == old(fp[..])[old(oldest) := if opens then Some(NameFor(direct, t)) else None]
      ensures timet[..] == if opens then old(timet[..])[old(oldest) := t] else old(timet[..])
      ensures opens ==> Writable(fs, direct, t)
      ensures forall u: nat :: Kept(fs, direct, u) == Kept(old(fs), direct, u)
      ensures !direct ==> OpenedAgain(old(fs), fs, t)
    {
      i := oldest;
      if fp[i].Some? {
        CloseFile(i);
      }
      var start := Remember(t);
      ReopenKeeps(fs, direct, start, opens);
      if !direct {
        OpenedAfter(old(fs), fs, t, opens);
      }
      var ret := OpenNewFile(i, start, opens);
      if ret < 0 {
        return -1;
      }
      LocateOldest();
    }

    /**
      `archive_write`: the output goes to the file for the period of `t`.  `opens` says whether a file that has to
      be opened can be, `output` is what `format_output` returns.
     */
    method Write(t: nat, d: D, opens: bool, output: int) returns (ret: int, written: bool)
      requires Valid() && t < WORD
      modifies this`fs, this`oldest, this`thptr, this`cnt, fp, timet, th
      ensures Valid()
      ensures ret == if written then output else -1
      ensures cnt == old(cnt) + if written then 1 else 0
      ensures written <==> opens || IsOpen(old(fp[..]), old(timet[..]), Start(t, period), period)
      ensures exists i: int :: Prepared(old(fp[..]), old(timet[..]), fp[..], timet[..], old(oldest), direct, period,
        Start(t, period), opens, i)
      ensures forall u: nat ::
        Kept(fs, direct, u) == Kept(old(fs), direct, u) + (if written && u == Start(t, period) then [d] else [])
      ensures !direct ==> WrittenTo(old(fs), fs, Start(t, period), if written then [d] else [])
    {
      var start := Start(t, period);
      StartAligned(t, period);
      var i := PrepareFile(start, opens);
      if i < 0 {
        if !direct {
          NothingWritten(old(fs), fs, start);
        }
        return -1, false;
      }
      cnt := cnt + 1;
      WriteKeeps(fs, direct, start, d);
      if !direct {
        WriteLands(old(fs), fs, start, d);
      }
      var name := NameFor(direct, start);
      fs := fs[name := fs[name] + [d]];
      ret, written := output, true;
    }

    /** `archive_close`: every file is closed, and no part is left of a period whose file was open. */
    method Close()
      requires Valid()
      modifies this`fs, fp
      ensures Valid() && forall j: nat :: j < fp.Length ==> fp[j] == None
      ensures !direct ==> forall j: nat :: j < fp.Length && old(fp[j]).Some? ==> Part(timet[j]) !in fs
      ensures forall u: nat :: Kept(fs, direct, u) == Kept(old(fs), direct, u)
      ensures !direct ==> SameDisk(old(fs), fs)
    {
      var i := 0;
      while i < fp.Length
        invariant i <= fp.Length && Sane()
        invariant forall j: nat :: j < fp.Length ==> fp[j] == if j < i then None else old(fp[j])
        invariant !direct ==> forall j: nat :: j < i && old(fp[j]).Some? ==> Part(timet[j]) !in fs
        invariant forall u: nat :: Kept(fs, direct, u) == Kept(old(fs), direct, u)
        invariant !direct ==> SameDisk(old(fs), fs)
      {
        if fp[i].Some? {
          CloseFile(i);
        }
        i := i + 1;
      }
    }

    /** The archive after a run of writes: every period holds what was written for it, in order. */
    method Run(requests: seq<Request<D>>) returns (written: seq<bool>)
      requires Valid() && forall k :: 0 <= k < |requests| ==> requests[k].time < WORD
      modifies this`fs, this`oldest, this`thptr, this`cnt, fp, timet, th
      ensures Valid() && |written| == |requests|
      ensures forall k :: 0 <= k < |requests| && requests[k].opens ==> written[k]
      ensures forall u: nat :: Kept(fs, direct, u) == Kept(old(fs), direct, u) + Landed(requests, written, period, u)
      ensures !direct ==> RanOver(old(fs), fs, requests, written, period)
      ensures !direct ==>
        ((forall u: nat :: Disk(fs, u) == Disk(old(fs), u) + Landed(requests, written, period, u)) <==>
          forall k :: 0 <= k < |requests| ==>
            var t := Start(requests[k].time, period); !(Beside(old(fs), t) && old(fs)[Part(t)] != []))
    {
      written := [];
      if !direct {
        NoneYet(fs, period);
      }
      while |written| < |requests|
        invariant |written| <= |requests| && Valid() && Landing(old(fs), requests, written)
        invariant !direct ==> RanOver(old(fs), fs, requests[..|written|], written, period)
        invariant forall k :: 0 <= k < |written| && requests[k].opens ==> written[k]
      {
        written := RunNext(requests, written, old(fs));
      }
      assert requests[..|written|] == requests;
      if !direct {
        LostExactly(old(fs), fs, requests, written, period);
      }
    }

    ghost predicate Landing(before: Files<D>, requests: seq<Request<D>>, written: seq<bool>)
      requires period > 0 && |written| <= |requests|
      reads this
    {
      forall u: nat ::
        Kept(fs, direct, u) == Kept(before, direct, u) + Landed(requests[..|written|], written, period, u)
    }

    method RunNext(requests: seq<Request<D>>, written: seq<bool>, ghost before: Files<D>)
      returns (written': seq<bool>)
      requires Valid() && |written| < |requests| && requests[|written|].time < WORD
      requires Landing(before, requests, written)
      requires !direct ==> RanOver(before, fs, requests[..|written|], written, period)
      modifies this`fs, this`oldest, this`thptr, this`cnt, fp, timet, th
      ensures Valid() && |written'| == |written| + 1 && written'[..|written|] == written
      ensures requests[|written|].opens ==> written'[|written|]
      ensures Landing(before, requests, written')
      ensures !direct ==> RanOver(before, fs, requests[..|written'|], written', period)
    {
      var request := requests[|written|];
      var ret, ok := Write(request.time, request.data, request.opens, 0);
      forall u: nat
        ensures Kept(fs, direct, u) ==
          Kept(before, direct, u) + Landed(requests[..|written| + 1], written + [ok], period, u)
      {
        LandedNext(requests, written, ok, period, u, Kept(before, direct, u));
        assert Kept(fs, direct, u) == Kept(old(fs), direct, u) + LandedAt(request, ok, period, u);
      }
      if !direct {
        RanNext(before, old(fs), fs, requests, written, ok, period);
      }
      written' := written + [ok];
    }
  }

  /**
    `archive_open`: none without a path, a prefix, a suffix or a function that writes (`formats`), and none for a
    quota, a period or a number of files out of range.
   */
  method OpenArchive<D>(path: Option<string>, prefix: Option<string>, suffix: Option<string>, formats: bool,
                        quota: int, minutes: int, concurrent: int, direct: bool, fs: Files<D>)
    returns (h: Archive?<D>)
    requires 60 * minutes < WORD / 2
    ensures h == null <==>
      || path == None || prefix == None || suffix == None || !formats
      || quota < 0 || quota > 99 || concurrent < 1 || concurrent > 32 || minutes < 1
    ensures h != null ==> fresh(h) && h.Valid() && h.fs == fs && h.direct == direct
    ensures h != null ==> h.period == 60 * minutes && h.concurrent == concurrent && h.cnt == 0
  {
    if path == None || prefix == None || suffix == None || quota < 0 || quota > 99 ||
       concurrent < 1 || concurrent > MAX_CONCURRENT_OPENED_FILES || !formats {
      return null;
    }
    if minutes < 1 {
      return null;
    }
    h := new Archive<D>(minutes, concurrent, direct, fs);
  }

  /** One write, and whether a file could be opened for it. */
  datatype Request<D> = Request(time: nat, data: D, opens: bool)

  function LandedAt<D>(request: Request<D>, ok: bool, period: nat, u: nat): seq<D>
    requires period > 0
  {
    if ok && u == Start(request.time, period) then [request.data] else []
  }

  /** What of the writes belongs to the period that starts at `u`. */
  function Landed<D>(requests: seq<Request<D>>, written: seq<bool>, period: nat, u: nat): seq<D>
    requires |requests| == |written| && period > 0
  {
    if requests == [] then [] else
      var n := |requests| - 1;
      Landed(requests[..n], written[..n], period, u) + LandedAt(requests[n], written[n], period, u)
  }

  lemma LandedNext<D>(requests: seq<Request<D>>, written: seq<bool>, ok: bool, period: nat, u: nat, before: seq<D>)
    requires |written| < |requests| && period > 0
    ensures before + Landed(requests[..|written| + 1], written + [ok], period, u) ==
      before + Landed(requests[..|written|], written, period, u) + LandedAt(requests[|written|], ok, period, u)
  {
    assert requests[..|written| + 1][..|written|] == requests[..|written|];
    assert (written + [ok])[..|written|] == written;
    JoinThree(before, Landed(requests[..|written|], written, period, u), LandedAt(requests[|written|], ok, period, u));
  }

  /** Has a write for the period been asked for? */
  function Touched<D>(requests: seq<Request<D>>, period: nat, u: nat): bool
    requires period > 0
  {
    exists k :: 0 <= k < |requests| && Start(requests[k].time, period) == u
  }

  /** What is on disk after a run: parts beside finished files are gone where a write was asked for, no others. */
  function OnceTouched<D>(before: Files<D>, requests: seq<Request<D>>, period: nat, u: nat): seq<D>
    requires period > 0
  {
    if Touched(requests, period, u) && Beside(before, u) then before[Real(u)] else Disk(before, u)
  }

  ghost predicate RanOver<D>(before: Files<D>, after: Files<D>, requests: seq<Request<D>>, written: seq<bool>,
                             period: nat)
    requires |requests| == |written| && period > 0
  {
    forall u: nat ::
      && Disk(after, u) == OnceTouched(before, requests, period, u) + Landed(requests, written, period, u)
      && (Beside(after, u) <==> Beside(before, u) && !Touched(requests, period, u))
      && (Beside(after, u) ==> after[Real(u)] == before[Real(u)])
  }

  lemma NoneYet<D>(fs: Files<D>, period: nat)
    requires period > 0
    ensures RanOver(fs, fs, [], [], period)
  {
    forall u: nat
      ensures Disk(fs, u) == OnceTouched(fs, [], period, u) + Landed([], [], period, u)
    {
      NoEnd(Disk(fs, u));
    }
  }

  lemma TouchedNext<D>(requests: seq<Request<D>>, n: nat, period: nat, u: nat)
    requires n < |requests| && period > 0
    ensures Touched(requests[..n + 1], period, u) <==>
      Touched(requests[..n], period, u) || u == Start(requests[n].time, period)
  {
    var a, b := requests[..n], requests[..n + 1];
    if Touched(b, period, u) {
      var k :| 0 <= k < |b| && Start(b[k].time, period) == u;
      assert k < n ==> a[k] == b[k];
    }
    if Touched(a, period, u) {
      var k :| 0 <= k < |a| && Start(a[k].time, period) == u;
      assert a[k] == b[k];
    }
    assert b[n] == requests[n];
  }

  lemma RanNext<D>(before: Files<D>, was: Files<D>, fs: Files<D>, requests: seq<Request<D>>, written: seq<bool>,
                   ok: bool, period: nat)
    requires |written| < |requests| && period > 0
    requires RanOver(before, was, requests[..|written|], written, period)
    requires WrittenTo(was, fs, Start(requests[|written|].time, period), if ok then [requests[|written|].data] else [])
    ensures RanOver(before, fs, requests[..|written| + 1], written + [ok], period)
  {
    var n := |written|;
    var t := Start(requests[n].time, period);
    forall u: nat
      ensures Disk(fs, u) == OnceTouched(before, requests[..n + 1], period, u) +
        Landed(requests[..n + 1], written + [ok], period, u)
      ensures Beside(fs, u) <==> Beside(before, u) && !Touched(requests[..n + 1], period, u)
      ensures Beside(fs, u) ==> fs[Real(u)] == before[Real(u)]
    {
      TouchedNext(requests, n, period, u);
      assert requests[..n + 1][..n] == requests[..n] && (written + [ok])[..n] == written;
      if u == t {
        if Beside(was, t) {
          NotLandedYet(requests[..n], written, period, u);
        }
        LandedThen(OnceTouched(before, requests[..n + 1], period, u), Landed(requests[..n], written, period, u),
          LandedAt(requests[n], ok, period, u));
      } else {
        LandedThen(Disk(was, u), [], []);
        LandedThen(OnceTouched(before, requests[..n + 1], period, u), Landed(requests[..n], written, period, u), []);
      }
    }
  }

  lemma LandedThen<D>(a: seq<D>, b: seq<D>, c: seq<D>)
    ensures a + b + c == a + (b + c)
    ensures b == [] ==> a + b == a
    ensures c == [] ==> b + c == b
  {}

  /** Nothing is written for a period that was not asked for. */
  lemma {:induction false} NotLandedYet<D>(requests: seq<Request<D>>, written: seq<bool>, period: nat, u: nat)
    requires |requests| == |written| && period > 0 && !Touched(requests, period, u)
    ensures Landed(requests, written, period, u) == []
    decreases |requests|
  {
    if requests != [] {
      var n := |requests| - 1;
      assert forall k :: 0 <= k < n ==> requests[..n][k] == requests[k];
      NotLandedYet(requests[..n], written[..n], period, u);
    }
  }

  /** A run keeps all that was on disk exactly if no part with data stood beside a finished file it writes for. */
  lemma LostExactly<D>(before: Files<D>, after: Files<D>, requests: seq<Request<D>>, written: seq<bool>, period: nat)
    requires |requests| == |written| && period > 0 && RanOver(before, after, requests, written, period)
    ensures (forall u: nat :: Disk(after, u) == Disk(before, u) + Landed(requests, written, period, u)) <==>
      forall k :: 0 <= k < |requests| ==>
        var t := Start(requests[k].time, period); !(Beside(before, t) && before[Part(t)] != [])
  {
    forall u: nat
      ensures Disk(after, u) == Disk(before, u) + Landed(requests, written, period, u) <==>
        !(Touched(requests, period, u) && Beside(before, u) && before[Part(u)] != [])
    {
      LostAt(At(before, Real(u)), At(before, Part(u)), Landed(requests, written, period, u));
    }
    forall k | 0 <= k < |requests|
      ensures Touched(requests, period, Start(requests[k].time, period))
    {}
  }

  lemma LostAt<D>(whole: seq<D>, part: seq<D>, landed: seq<D>)
    ensures whole + landed == whole + part + landed <==> part == []
  {
    assert |whole + landed| == |whole| + |landed| && |whole + part + landed| == |whole| + |part| + |landed|;
    assert part == [] ==> whole + part == whole;
  }

  lemma JoinThree<T>(a: seq<T>, b: seq<T>, c: seq<T>)
    ensures a + b + c == a + (b + c)
  {}
}
