/**
  Frames cut out of a byte stream, as `lch/adapter/adapter_snipermgt.c` does it.
  A frame is a command byte 1..4, two bytes the check ignores, a 16-bit length (high byte first) and
  that many bytes of payload.
 */
module SniperStream {
  type byte = b: int | 0 <= b < 256

  const HEADER := 5

  predicate Command(b: byte) {
    b == 1 || b == 2 || b == 3 || b == 4
  }

  function Announced(w: seq<byte>): nat
    requires |w| >= HEADER
  {
    var high: int := w[3];
    high * 256 + w[4]
  }

  /** What the check says of the bytes held: wait (0), skip a byte (negative), or the payload length. */
  function Verify(w: seq<byte>): (len: int)
    ensures len > 0 ==> |w| >= HEADER + len
    ensures len < 0 ==> |w| >= HEADER
  {
    if |w| < HEADER then 0
    else if !Command(w[0]) then -1
    else if Announced(w) <= |w| - HEADER then Announced(w)
    else 0
  }

  // ----- The reference: what a stream is cut into -----

  /** The frames of a stream, the number of bytes skipped between them, and what is still waiting. */
  datatype Cut = Cut(frames: seq<seq<byte>>, skipped: nat, rest: seq<byte>)

  function CutOf(s: seq<byte>): Cut
    decreases |s|
  {
    var len := Verify(s);
    if len == 0 then Cut([], 0, s)
    else if len < 0 then
      var c := CutOf(s[1..]);
      c.(skipped := c.skipped + 1)
    else
      var c := CutOf(s[HEADER + len..]);
      c.(frames := [s[..HEADER + len]] + c.frames)
  }

  /** One cut followed by another. */
  function Then(a: Cut, b: Cut): Cut {
    Cut(a.frames + b.frames, a.skipped + b.skipped, b.rest)
  }

  function Total(frames: seq<seq<byte>>): nat {
    if frames == [] then 0 else |frames[0]| + Total(frames[1..])
  }

  /** How many bytes one round of the loop takes off the front. */
  function StepLength(s: seq<byte>): (n: nat)
    requires Verify(s) != 0
    ensures 0 < n <= |s|
  {
    if Verify(s) < 0 then 1 else HEADER + Verify(s)
  }

  /** What one round of the loop adds to the cut. */
  function StepCut(s: seq<byte>): Cut
    requires Verify(s) != 0
  {
    if Verify(s) < 0 then Cut([], 1, s[1..]) else Cut([s[..StepLength(s)]], 0, s[StepLength(s)..])
  }

  lemma OneStep(s: seq<byte>)
    requires Verify(s) != 0
    ensures CutOf(s) == Then(StepCut(s), CutOf(s[StepLength(s)..]))
  {}

  lemma ThenThen(a: Cut, b: Cut, c: Cut)
    ensures Then(Then(a, b), c) == Then(a, Then(b, c))
  {
    assert a.frames + b.frames + c.frames == a.frames + (b.frames + c.frames);
  }

  /** A round moves what it takes from what is to be cut to what has been. */
  lemma Advance(s: seq<byte>, done: Cut, held: seq<byte>)
    requires Verify(held) != 0 && CutOf(s) == Then(done, CutOf(held))
    ensures CutOf(s) == Then(Then(done, StepCut(held)), CutOf(held[StepLength(held)..]))
  {
    OneStep(held);
    ThenThen(done, StepCut(held), CutOf(held[StepLength(held)..]));
  }

  lemma FromNothing(s: seq<byte>, c: Cut)
    ensures Then(Cut([], 0, s), c) == c
  {
    assert [] + c.frames == c.frames;
  }

  lemma Finished(done: Cut, held: seq<byte>)
    requires Verify(held) == 0
    ensures Then(done, CutOf(held)) == done.(rest := held)
  {
    assert done.frames + [] == done.frames;
  }

  /** More bytes do not change a decision already taken. */
  lemma VerifyStable(s: seq<byte>, more: seq<byte>)
    requires Verify(s) != 0
    ensures Verify(s + more) == Verify(s)
  {}

  lemma StepStable(s: seq<byte>, more: seq<byte>)
    requires Verify(s) != 0
    ensures CutOf(s + more) == Then(StepCut(s), CutOf(s[StepLength(s)..] + more))
  {
    var n := StepLength(s);
    VerifyStable(s, more);
    OneStep(s + more);
    assert (s + more)[n..] == s[n..] + more;
    assert (s + more)[..n] == s[..n];
  }

  /** Cutting what is there and then the rest with more is cutting it all at once. */
  lemma {:induction false} CutInTwo(s: seq<byte>, more: seq<byte>)
    ensures CutOf(s + more) == Then(CutOf(s), CutOf(CutOf(s).rest + more))
    decreases |s|
  {
    if Verify(s) != 0 {
      var n := StepLength(s);
      CutInTwo(s[n..], more);
      OneStep(s);
      StepStable(s, more);
      ThenThen(StepCut(s), CutOf(s[n..]), CutOf(CutOf(s).rest + more));
    } else {
      assert Then(Cut([], 0, s), CutOf(s + more)) == CutOf(s + more);
    }
  }

  /** No byte is lost or invented. */
  lemma {:induction false} CutConserves(s: seq<byte>)
    ensures Total(CutOf(s).frames) + CutOf(s).skipped + |CutOf(s).rest| == |s|
    decreases |s|
  {
    var len := Verify(s);
    if len < 0 {
      CutConserves(s[1..]);
    } else if len > 0 {
      CutConserves(s[HEADER + len..]);
    }
  }

  lemma {:induction false} RestWaits(s: seq<byte>)
    ensures Verify(CutOf(s).rest) == 0
    decreases |s|
  {
    var len := Verify(s);
    if len != 0 {
      RestWaits(s[if len < 0 then 1 else HEADER + len..]);
    }
  }

  // ----- Packets: the same stream in any pieces -----

  function Joined(chunks: seq<seq<byte>>): seq<byte> {
    if chunks == [] then [] else chunks[0] + Joined(chunks[1..])
  }

  /** The cut after the packets arrive one by one, each drained before the next. */
  function Fed(rest: seq<byte>, chunks: seq<seq<byte>>): Cut
    decreases |chunks|
  {
    if chunks == [] then Cut([], 0, rest)
    else
      var c := CutOf(rest + chunks[0]);
      Then(c, Fed(c.rest, chunks[1..]))
  }

  /** However a stream is split into packets, the frames, the skipped bytes and the backlog are the same. */
  lemma {:induction false} FedIsCut(rest: seq<byte>, chunks: seq<seq<byte>>)
    requires Verify(rest) == 0
    ensures Fed(rest, chunks) == CutOf(rest + Joined(chunks))
    decreases |chunks|
  {
    if chunks == [] {
      assert rest + [] == rest;
    } else {
      var held := rest + chunks[0];
      RestWaits(held);
      FedIsCut(CutOf(held).rest, chunks[1..]);
      CutInTwo(held, Joined(chunks[1..]));
      assert rest + Joined(chunks) == held + Joined(chunks[1..]);
    }
  }

  lemma ChunksDoNotMatter(chunks: seq<seq<byte>>, others: seq<seq<byte>>)
    requires Joined(chunks) == Joined(others)
    ensures Fed([], chunks) == Fed([], others)
  {
    FedIsCut([], chunks);
    FedIsCut([], others);
  }

  // ----- Senders: what is framed is what comes out -----

  /** What is sent: a command, two bytes that the receiver does not look at, and a payload. */
  datatype Message = Message(cmd: byte, a: byte, b: byte, payload: seq<byte>)

  predicate Sendable(m: Message) {
    1 <= m.cmd <= 4 && |m.payload| < 65536
  }

  /** The bytes of a message: the length of the payload goes before it, high byte first. */
  function Frame(m: Message): seq<byte>
    requires Sendable(m)
  {
    [m.cmd, m.a, m.b, |m.payload| / 256, |m.payload| % 256] + m.payload
  }

  predicate AllSendable(ms: seq<Message>) {
    forall i :: 0 <= i < |ms| ==> Sendable(ms[i])
  }

  function Frames(ms: seq<Message>): seq<seq<byte>>
    requires AllSendable(ms)
  {
    seq(|ms|, i requires 0 <= i < |ms| => Frame(ms[i]))
  }

  predicate NoneEmpty(ms: seq<Message>) {
    forall i :: 0 <= i < |ms| ==> ms[i].payload != []
  }

  lemma FrameFirst(m: Message, tail: seq<byte>)
    requires Sendable(m) && m.payload != []
    ensures CutOf(Frame(m) + tail) == Then(Cut([Frame(m)], 0, []), CutOf(tail))
  {
    var f := Frame(m);
    var s := f + tail;
    assert s[0] == m.cmd && s[3] == |m.payload| / 256 && s[4] == |m.payload| % 256;
    assert Announced(s) == |m.payload| && Verify(s) == |f| - HEADER;
    assert s[..|f|] == f && s[|f|..] == tail;
    OneStep(s);
  }

  lemma {:induction false} FramesComeOut(ms: seq<Message>, more: seq<byte>)
    requires AllSendable(ms) && NoneEmpty(ms)
    ensures CutOf(Joined(Frames(ms)) + more) == Then(Cut(Frames(ms), 0, []), CutOf(more))
    decreases |ms|
  {
    if ms == [] {
      assert Joined(Frames(ms)) + more == more;
    } else {
      var tail := Joined(Frames(ms[1..])) + more;
      FramesComeOut(ms[1..], more);
      FirstFrame(ms);
      Associate(Frame(ms[0]), Joined(Frames(ms[1..])), more);
      FrameFirst(ms[0], tail);
      ThenThen(Cut([Frame(ms[0])], 0, []), Cut(Frames(ms[1..]), 0, []), CutOf(more));
    }
  }

  lemma FirstFrame(ms: seq<Message>)
    requires AllSendable(ms) && ms != []
    ensures Frames(ms) == [Frame(ms[0])] + Frames(ms[1..])
    ensures Joined(Frames(ms)) == Frame(ms[0]) + Joined(Frames(ms[1..]))
  {
    assert Frames(ms)[1..] == Frames(ms[1..]);
  }

  lemma Associate(a: seq<byte>, b: seq<byte>, c: seq<byte>)
    ensures a + b + c == a + (b + c)
  {}

  /** Of a frame that has not come to its end, nothing is cut and nothing is skipped. */
  lemma FrontWaits(m: Message, k: nat)
    requires Sendable(m) && k < |Frame(m)|
    ensures CutOf(Frame(m)[..k]) == Cut([], 0, Frame(m)[..k])
  {
    var w := Frame(m)[..k];
    if k >= HEADER {
      assert w[0] == m.cmd && w[3] == |m.payload| / 256 && w[4] == |m.payload| % 256;
      assert Announced(w) == |m.payload|;
    }
  }

  /** Bytes that are no command are skipped one by one as long as a header's worth follows. */
  lemma {:induction false} NoiseIsSkipped(noise: seq<byte>, s: seq<byte>)
    requires forall k :: 0 <= k < |noise| ==> noise[k] < 1 || noise[k] > 4
    requires |s| >= HEADER - 1
    ensures CutOf(noise + s) == Then(Cut([], |noise|, []), CutOf(s))
    decreases |noise|
  {
    if noise == [] {
      assert noise + s == s;
    } else {
      assert (noise + s)[1..] == noise[1..] + s;
      NoiseIsSkipped(noise[1..], s);
    }
  }

  // ----- Every stream: what comes out is what was sent -----

  /** The stretches between the frames, then what waits. */
  function Woven(gaps: seq<seq<byte>>, frames: seq<seq<byte>>, rest: seq<byte>): seq<byte>
    requires |gaps| == |frames| + 1
    decreases |frames|
  {
    if frames == [] then gaps[0] + rest else gaps[0] + (frames[0] + Woven(gaps[1..], frames[1..], rest))
  }

  /** Bytes of which none is a command. */
  predicate Noise(gap: seq<byte>) {
    forall k :: 0 <= k < |gap| ==> gap[k] < 1 || gap[k] > 4
  }

  predicate AllNoise(gaps: seq<seq<byte>>) {
    forall i :: 0 <= i < |gaps| ==> Noise(gaps[i])
  }

  /** Any stream at all is the frames that come out of it, each one of a message, the skipped bytes and the backlog. */
  lemma {:induction false} CutSpells(s: seq<byte>) returns (gaps: seq<seq<byte>>, ms: seq<Message>)
    ensures AllSendable(ms) && NoneEmpty(ms) && CutOf(s).frames == Frames(ms)
    ensures |gaps| == |ms| + 1 && s == Woven(gaps, Frames(ms), CutOf(s).rest)
    ensures AllNoise(gaps) && CutOf(s).skipped == Total(gaps)
    decreases |s|
  {
    var len := Verify(s);
    if len == 0 {
      gaps, ms := [[]], [];
    } else if len < 0 {
      gaps, ms := CutSpells(s[1..]);
      LongerGap(s[0], gaps, Frames(ms), CutOf(s).rest);
      gaps := gaps[0 := [s[0]] + gaps[0]];
    } else {
      var n := HEADER + len;
      gaps, ms := CutSpells(s[n..]);
      var m := Unframed(s[..n]);
      FrameSpelled(m, gaps, ms, CutOf(s).rest);
      gaps, ms := [[]] + gaps, [m] + ms;
      assert s == s[..n] + s[n..];
    }
  }

  lemma FrameSpelled(m: Message, gaps: seq<seq<byte>>, ms: seq<Message>, rest: seq<byte>)
    requires Sendable(m) && m.payload != [] && AllSendable(ms) && NoneEmpty(ms)
    requires |gaps| == |ms| + 1 && AllNoise(gaps)
    ensures AllSendable([m] + ms) && NoneEmpty([m] + ms) && Frames([m] + ms) == [Frame(m)] + Frames(ms)
    ensures AllNoise([[]] + gaps) && Total([[]] + gaps) == Total(gaps)
    ensures Woven([[]] + gaps, Frames([m] + ms), rest) == Frame(m) + Woven(gaps, Frames(ms), rest)
  {
    assert ([m] + ms)[1..] == ms && ([[]] + gaps)[1..] == gaps;
    FirstFrame([m] + ms);
    assert Frames([m] + ms)[1..] == Frames(ms);
    assert [] + (Frame(m) + Woven(gaps, Frames(ms), rest)) == Frame(m) + Woven(gaps, Frames(ms), rest);
  }

  lemma LongerGap(c: byte, gaps: seq<seq<byte>>, frames: seq<seq<byte>>, rest: seq<byte>)
    requires |gaps| == |frames| + 1 && AllNoise(gaps) && (c < 1 || c > 4)
    ensures var more := gaps[0 := [c] + gaps[0]];
      && AllNoise(more) && Total(more) == Total(gaps) + 1
      && Woven(more, frames, rest) == [c] + Woven(gaps, frames, rest)
  {
    var more := gaps[0 := [c] + gaps[0]];
    assert more[1..] == gaps[1..];
    assert Noise(gaps[0]);
    Associate([c], gaps[0], if frames == [] then rest else frames[0] + Woven(gaps[1..], frames[1..], rest));
  }

  lemma Unframed(f: seq<byte>) returns (m: Message)
    requires Verify(f) > 0 && |f| == HEADER + Verify(f)
    ensures Sendable(m) && m.payload != [] && Frame(m) == f
  {
    m := Message(f[0], f[1], f[2], f[5..]);
    assert |m.payload| == Announced(f);
  }

  // ----- Backlog -----

  /** A complete header that announces no payload. */
  predicate EmptyFrame(w: seq<byte>) {
    |w| >= 5 && 1 <= w[0] <= 4 && w[3] == 0 && w[4] == 0
  }

  /** What waits after a drain is less than one frame of the longest kind, unless it starts with an empty frame. */
  lemma BacklogBound(s: seq<byte>)
    ensures |CutOf(s).rest| < HEADER + 65535 || EmptyFrame(CutOf(s).rest)
  {
    RestWaits(s);
  }

  /** An empty frame is read as "wait": everything behind it stays where it is, whatever arrives. */
  lemma EmptyFrameStalls(w: seq<byte>, more: seq<byte>)
    requires EmptyFrame(w)
    ensures CutOf(w + more) == Cut([], 0, w + more)
  {}

  lemma {:induction false} JoinedParts(a: seq<seq<byte>>, b: seq<seq<byte>>)
    ensures Joined(a + b) == Joined(a) + Joined(b)
    decreases |a|
  {
    if a == [] {
      assert a + b == b;
    } else {
      assert (a + b)[1..] == a[1..] + b;
      JoinedParts(a[1..], b);
    }
  }

  /** Frames come out up to the first empty one, which stays with all that follows it. */
  lemma StallsAt(ms: seq<Message>, k: nat, more: seq<byte>)
    requires AllSendable(ms) && k < |ms| && ms[k].payload == [] && NoneEmpty(ms[..k])
    ensures var frames := Frames(ms);
      CutOf(Joined(frames) + more) == Cut(frames[..k], 0, Joined(frames[k..]) + more)
  {
    var frames := Frames(ms);
    assert frames[..k] == Frames(ms[..k]);
    JoinedAround(frames, k, more);
    FramesComeOut(ms[..k], Joined(frames[k..]) + more);
    EmptyFrameStalls(frames[k], Joined(frames[k..][1..]) + more);
    assert frames[..k] + [] == frames[..k];
  }

  lemma JoinedAround(frames: seq<seq<byte>>, k: nat, more: seq<byte>)
    requires k < |frames|
    ensures Joined(frames) + more == Joined(frames[..k]) + (Joined(frames[k..]) + more)
    ensures Joined(frames[k..]) + more == frames[k] + (Joined(frames[k..][1..]) + more)
  {
    var front, tail := frames[..k], frames[k..];
    assert frames == front + tail;
    JoinedParts(front, tail);
    Associate(Joined(front), Joined(tail), more);
    assert Joined(tail) == tail[0] + Joined(tail[1..]);
    Associate(tail[0], Joined(tail[1..]), more);
  }

  /** A run of frames comes out whole if and only if none of them is empty. */
  lemma FramesExactly(ms: seq<Message>)
    requires AllSendable(ms)
    ensures CutOf(Joined(Frames(ms))) == Cut(Frames(ms), 0, []) <==> NoneEmpty(ms)
  {
    var frames := Frames(ms);
    assert Joined(frames) + [] == Joined(frames);
    if NoneEmpty(ms) {
      FramesComeOut(ms, []);
      assert frames + [] == frames;
    } else {
      var k := FirstEmpty(ms);
      StallsAt(ms, k, []);
      assert |frames[..k]| < |frames|;
    }
  }

  lemma {:induction false} FirstEmpty(ms: seq<Message>) returns (k: nat)
    requires !NoneEmpty(ms)
    ensures k < |ms| && ms[k].payload == [] && NoneEmpty(ms[..k])
    decreases |ms|
  {
    if ms[0].payload == [] {
      k := 0;
    } else {
      var i :| 0 <= i < |ms| && ms[i].payload == [];
      assert ms[1..][i - 1] == ms[i];
      k := FirstEmpty(ms[1..]);
      k := k + 1;
      assert ms[..k] == [ms[0]] + ms[1..][..k - 1];
    }
  }

  /** While a run of frames with payload arrives, no empty frame waits. */
  lemma {:induction false} FrontOfRun(ms: seq<Message>, s: seq<byte>)
    requires AllSendable(ms) && NoneEmpty(ms) && s <= Joined(Frames(ms))
    ensures !EmptyFrame(CutOf(s).rest)
    decreases |ms|
  {
    if ms != [] {
      var f := Frame(ms[0]);
      FirstFrame(ms);
      if |s| < |f| {
        assert s == f[..|s|];
        FrontWaits(ms[0], |s|);
      } else {
        assert s == f + s[|f|..] && s[|f|..] <= Joined(Frames(ms[1..]));
        FrameFirst(ms[0], s[|f|..]);
        FrontOfRun(ms[1..], s[|f|..]);
      }
    }
  }

  const BUFSZ := 384 * 1024

  /** No packet of up to 327677 bytes overflows the buffer unless an empty frame blocks it. */
  lemma PacketFits(stream: seq<byte>, packet: seq<byte>)
    requires !EmptyFrame(CutOf(stream).rest)
    requires |packet| <= BUFSZ - HEADER - 65534
    ensures |CutOf(stream).rest| + |packet| <= BUFSZ
  {
    BacklogBound(stream);
  }

  // ----- The connection -----

  /** What becomes of one frame: either allocation fails, or the queue refuses it, or it is queued. */
  datatype Fate = NoMemory | Refused | Queued

  function FateAt(fates: seq<Fate>, k: nat): Fate {
    if k < |fates| then fates[k] else Queued
  }

  /** The frames of `frames` that reach the queue, the first of them being the `k`-th of the call. */
  function Kept(frames: seq<seq<byte>>, fates: seq<Fate>, k: nat): seq<seq<byte>>
    decreases |frames|
  {
    if frames == [] then []
    else (if FateAt(fates, k).Queued? then [frames[0]] else []) + Kept(frames[1..], fates, k + 1)
  }

  /** The bytes of the frames for which no memory was found. */
  function Lost(frames: seq<seq<byte>>, fates: seq<Fate>, k: nat): nat
    decreases |frames|
  {
    if frames == [] then 0
    else (if FateAt(fates, k).NoMemory? then |frames[0]| else 0) + Lost(frames[1..], fates, k + 1)
  }

  function Handled(frames: seq<seq<byte>>, fates: seq<Fate>, k: nat): nat
    decreases |frames|
  {
    if frames == [] then 0
    else (if FateAt(fates, k).NoMemory? then 0 else |frames[0]|) + Handled(frames[1..], fates, k + 1)
  }

  /** The number of frames that found memory. */
  function Accepted(frames: seq<seq<byte>>, fates: seq<Fate>, k: nat): nat
    decreases |frames|
  {
    if frames == [] then 0
    else (if FateAt(fates, k).NoMemory? then 0 else 1) + Accepted(frames[1..], fates, k + 1)
  }

  lemma {:induction false} LostAndHandled(frames: seq<seq<byte>>, fates: seq<Fate>, k: nat)
    ensures Lost(frames, fates, k) + Handled(frames, fates, k) == Total(frames)
    decreases |frames|
  {
    if frames != [] {
      LostAndHandled(frames[1..], fates, k + 1);
    }
  }

  lemma {:induction false} AllKept(frames: seq<seq<byte>>, k: nat)
    ensures Kept(frames, [], k) == frames && Lost(frames, [], k) == 0
    decreases |frames|
  {
    if frames != [] {
      AllKept(frames[1..], k + 1);
    }
  }

  lemma {:induction false} AllAccepted(frames: seq<seq<byte>>, k: nat)
    ensures Accepted(frames, [], k) == |frames|
    decreases |frames|
  {
    if frames != [] {
      AllAccepted(frames[1..], k + 1);
    }
  }

  /** What is held, queued and skipped follows from the bytes that arrived. */
  ghost predicate History(stream: seq<byte>, clean: bool, held: seq<byte>, queue: seq<seq<byte>>, bad: nat) {
    var c := CutOf(stream);
    held == c.rest && (clean ==> queue == c.frames && bad == c.skipped)
  }

  lemma HistoryGrows(stream: seq<byte>, clean: bool, held: seq<byte>, queue: seq<seq<byte>>, bad: nat,
                     data: seq<byte>, fates: seq<Fate>)
    requires History(stream, clean, held, queue, bad)
    ensures var c := CutOf(held + data);
      History(stream + data, clean && fates == [], c.rest,
              queue + Kept(c.frames, fates, 0), bad + c.skipped + Lost(c.frames, fates, 0))
  {
    CutInTwo(stream, data);
    AllKept(CutOf(held + data).frames, 0);
  }

  class Connection {
    const buf: array<byte>
    var datapos: nat
    var datalen: nat
    var discardedByte: nat
    var okByte: nat
    var okPkt: nat
    /** The packets pushed for this connection, oldest first. */
    var queue: seq<seq<byte>>
    /** Every byte that ever arrived. */
    ghost var received: nat
    /** The bytes that arrived since the buffer last overflowed. */
    ghost var stream: seq<byte>
    /** No overflow, no allocation failure and no refused packet so far. */
    ghost var clean: bool

    ghost predicate Valid()
      reads this, buf
    {
      && Counted()
      && History(stream, clean, Held(), queue, discardedByte)
    }

    /** Every byte received is accounted for. */
    ghost predicate Counted()
      reads this
    {
      datapos + datalen <= buf.Length && received == discardedByte + okByte + datalen
    }

    ghost function Held(): seq<byte>
      requires datapos + datalen <= buf.Length
      reads this, buf
    {
      buf[datapos..datapos + datalen]
    }

    constructor (bufsz: nat)
      ensures Valid() && fresh(buf) && buf.Length == bufsz && Held() == [] && queue == []
      ensures discardedByte == okByte == okPkt == received == 0
      ensures stream == [] && clean
    {
      buf := new byte[bufsz];
      datapos, datalen := 0, 0;
      discardedByte, okByte, okPkt := 0, 0, 0;
      queue := [];
      received := 0;
      stream, clean := [], true;
    }

    /** Move the waiting bytes to the front and put the new ones behind them. */
    method Append(data: seq<byte>)
      requires datapos + datalen <= buf.Length && datalen + |data| <= buf.Length
      modifies buf, `datapos, `datalen
      ensures datapos == 0 && datalen == old(datalen) + |data|
      ensures Held() == old(Held()) + data
    {
      if datapos > 0 && datalen > 0 {
        forall i | 0 <= i < datalen {
          buf[i] := buf[datapos + i];
        }
      }
      datapos := 0;
      assert buf[..datalen] == old(Held());
      forall i | 0 <= i < |data| {
        buf[datalen + i] := data[i];
      }
      datalen := datalen + |data|;
      assert buf[..datalen] == old(Held()) + data;
    }

    method Process(data: seq<byte>, fates: seq<Fate>)
      requires Valid()
      modifies this, buf
      ensures Valid() && received == old(received) + |data|
      ensures var fits := old(datalen) + |data| <= buf.Length;
        && stream == (if fits then old(stream) + data else [])
        && clean == (old(clean) && fits && fates == [])
      ensures old(datalen) + |data| > buf.Length ==>
        && Held() == [] && queue == old(queue) && okPkt == old(okPkt) && okByte == old(okByte)
        && discardedByte == old(discardedByte) + old(datalen) + |data|
      ensures old(datalen) + |data| <= buf.Length ==>
        var c := CutOf(old(Held()) + data);
        && Held() == c.rest
        && Reached(c, fates, old(queue), old(okPkt), old(okByte), old(discardedByte))
    {
      if datalen + |data| > buf.Length {
        DropAll(data);
      } else {
        Take(data, fates);
      }
    }

    /** Too much is waiting: give up what is held and what arrived. */
    method DropAll(data: seq<byte>)
      requires Valid()
      modifies this
      ensures Valid() && Held() == [] && received == old(received) + |data| && stream == [] && !clean
      ensures queue == old(queue) && okPkt == old(okPkt) && okByte == old(okByte)
      ensures discardedByte == old(discardedByte) + old(datalen) + |data|
    {
      received := received + |data|;
      datapos := 0;
      discardedByte := discardedByte + |data| + datalen;
      datalen := 0;
      stream, clean := [], false;
    }

    method Take(data: seq<byte>, fates: seq<Fate>)
      requires Valid() && datalen + |data| <= buf.Length
      modifies this, buf
      ensures Valid() && received == old(received) + |data|
      ensures stream == old(stream) + data && clean == (old(clean) && fates == [])
      ensures Held() == CutOf(old(Held()) + data).rest
      ensures Reached(CutOf(old(Held()) + data), fates, old(queue), old(okPkt), old(okByte), old(discardedByte))
    {
      ghost var s, whole, held, q, bad := stream, clean, Held(), queue, discardedByte;
      Feed(data, fates);
      Drain(fates);
      HistoryGrows(s, whole, held, q, bad, data, fates);
    }

    /** The bytes go behind those held. */
    method Feed(data: seq<byte>, ghost fates: seq<Fate>)
      requires Counted() && datalen + |data| <= buf.Length
      modifies buf, `datapos, `datalen, `received, `stream, `clean
      ensures Counted() && Held() == old(Held()) + data && received == old(received) + |data|
      ensures stream == old(stream) + data && clean == (old(clean) && fates == [])
    {
      received := received + |data|;
      stream := stream + data;
      clean := clean && fates == [];
      Append(data);
    }

    /** Take frames off the front and skip stray bytes until the check says to wait. */
    method Drain(fates: seq<Fate>)
      requires Counted()
      modifies `datapos, `datalen, `discardedByte, `okByte, `okPkt, `queue
      ensures Counted() && Held() == CutOf(old(Held())).rest
      ensures Reached(CutOf(old(Held())), fates, old(queue), old(okPkt), old(okByte), old(discardedByte))
    {
      ghost var s, q, pkts, ok, bad := Held(), queue, okPkt, okByte, discardedByte;
      ghost var done := Cut([], 0, s);
      FromNothing(s, CutOf(s));
      var k := 0;
      var len := Check();
      while len != 0
        invariant Counted()
        invariant k == |done.frames| && len == Verify(Held())
        invariant CutOf(s) == Then(done, CutOf(Held()))
        invariant Reached(done, fates, q, pkts, ok, bad)
        decreases datalen
      {
        ghost var held := Held();
        k := Round(len, fates, k, done, q, pkts, ok, bad);
        Advance(s, done, held);
        done := Then(done, StepCut(held));
        len := Check();
      }
      Finished(done, Held());
    }

    /** Queue and counters as the frames and skipped bytes of `c` leave them. */
    ghost predicate Reached(c: Cut, fates: seq<Fate>, q: seq<seq<byte>>, pkts: nat, ok: nat, bad: nat)
      reads this
    {
      && queue == q + Kept(c.frames, fates, 0)
      && okPkt == pkts + Accepted(c.frames, fates, 0)
      && okByte == ok + Handled(c.frames, fates, 0)
      && discardedByte == bad + c.skipped + Lost(c.frames, fates, 0)
    }

    /** One round of the loop: skip a byte or take a frame. */
    method Round(len: int, fates: seq<Fate>, k: nat, ghost done: Cut,
                 ghost q: seq<seq<byte>>, ghost pkts: nat, ghost ok: nat, ghost bad: nat)
      returns (next: nat)
      requires Counted() && len == Verify(Held()) && len != 0
      requires k == |done.frames| && Reached(done, fates, q, pkts, ok, bad)
      modifies `datapos, `datalen, `discardedByte, `okByte, `okPkt, `queue
      ensures Counted() && datalen < old(datalen)
      ensures Held() == old(Held())[StepLength(old(Held()))..]
      ensures Reached(Then(done, StepCut(old(Held()))), fates, q, pkts, ok, bad)
      ensures next == |Then(done, StepCut(old(Held()))).frames|
    {
      if len < 0 {
        Skip();
        assert done.frames + [] == done.frames;
        next := k;
      } else {
        OneMoreFrame(done.frames, Held()[..HEADER + len], fates);
        Handle(HEADER + len, FateAt(fates, k));
        next := k + 1;
      }
    }

    method Skip()
      requires datapos + datalen <= buf.Length && datalen > 0
      modifies `datapos, `datalen, `discardedByte
      ensures datapos + datalen <= buf.Length && datalen == old(datalen) - 1
      ensures Held() == old(Held())[1..] && discardedByte == old(discardedByte) + 1
    {
      datapos := datapos + 1;
      datalen := datalen - 1;
      discardedByte := discardedByte + 1;
    }

    method Handle(n: nat, fate: Fate)
      requires datapos + datalen <= buf.Length && n <= datalen
      modifies `datapos, `datalen, `discardedByte, `okByte, `okPkt, `queue
      ensures datapos + datalen <= buf.Length && datalen == old(datalen) - n
      ensures Held() == old(Held())[n..]
      ensures queue == old(queue) + (if fate.Queued? then [old(Held())[..n]] else [])
      ensures discardedByte == old(discardedByte) + (if fate.NoMemory? then n else 0)
      ensures okByte == old(okByte) + (if fate.NoMemory? then 0 else n)
      ensures okPkt == old(okPkt) + (if fate.NoMemory? then 0 else 1)
    {
      assert buf[datapos..datapos + n] == Held()[..n];
      match fate {
        case NoMemory =>
          discardedByte := discardedByte + n;
        case Refused =>
          okPkt := okPkt + 1;
          okByte := okByte + n;
        case Queued =>
          queue := queue + [buf[datapos..datapos + n]];
          okPkt := okPkt + 1;
          okByte := okByte + n;
      }
      datapos := datapos + n;
      datalen := datalen - n;
    }

    method Check() returns (len: int)
      requires datapos + datalen <= buf.Length
      ensures len == Verify(Held())
    {
      len := Verify(buf[datapos..datapos + datalen]);
    }
  }

  /** Packets, none too large, of a run of messages with payload: each message is queued as it was framed. */
  method Receive(packets: seq<seq<byte>>, ghost ms: seq<Message>) returns (c: Connection)
    requires AllSendable(ms) && NoneEmpty(ms) && Joined(packets) == Joined(Frames(ms))
    requires forall i :: 0 <= i < |packets| ==> |packets[i]| <= BUFSZ - HEADER - 65534
    ensures fresh(c) && c.Valid() && c.queue == Frames(ms) && c.Held() == []
    ensures c.okPkt == |ms| && c.okByte == |Joined(packets)| && c.discardedByte == 0
  {
    c := new Connection(BUFSZ);
    var i := 0;
    assert packets[..0] == [];
    while i < |packets|
      invariant i <= |packets| && fresh(c) && fresh(c.buf) && c.buf.Length == BUFSZ && Arrived(c, packets[..i])
    {
      ReceiveOne(c, packets, i, ms);
      i := i + 1;
    }
    assert packets[..i] == packets && Joined(packets) + [] == Joined(packets);
    FramesExactly(ms);
  }

  method ReceiveOne(c: Connection, packets: seq<seq<byte>>, i: nat, ghost ms: seq<Message>)
    requires AllSendable(ms) && NoneEmpty(ms) && Joined(packets) == Joined(Frames(ms)) && i < |packets|
    requires |packets[i]| <= BUFSZ - HEADER - 65534 && c.buf.Length == BUFSZ && Arrived(c, packets[..i])
    modifies c, c.buf
    ensures Arrived(c, packets[..i + 1])
  {
    ArrivedOne(packets, i, ms);
    PacketFits(c.stream, packets[i]);
    ghost var frames := CutOf(c.Held() + packets[i]).frames;
    AllKept(frames, 0);
    AllAccepted(frames, 0);
    c.Process(packets[i], []);
  }

  /** All of these packets arrived, and nothing was lost. */
  ghost predicate Arrived(c: Connection, packets: seq<seq<byte>>)
    reads c, c.buf
  {
    && c.Valid() && c.clean && c.stream == Joined(packets) && c.received == |c.stream| && c.okPkt == |c.queue|
  }

  lemma ArrivedOne(packets: seq<seq<byte>>, i: nat, ms: seq<Message>)
    requires AllSendable(ms) && NoneEmpty(ms) && Joined(packets) == Joined(Frames(ms)) && i < |packets|
    ensures Joined(packets[..i + 1]) == Joined(packets[..i]) + packets[i]
    ensures !EmptyFrame(CutOf(Joined(packets[..i])).rest)
  {
    JoinedNext(packets, i);
    JoinedFront(packets, i);
    FrontOfRun(ms, Joined(packets[..i]));
  }

  lemma JoinedNext(packets: seq<seq<byte>>, i: nat)
    requires i < |packets|
    ensures Joined(packets[..i + 1]) == Joined(packets[..i]) + packets[i]
  {
    assert packets[..i + 1] == packets[..i] + [packets[i]];
    JoinedParts(packets[..i], [packets[i]]);
    assert Joined([packets[i]]) == packets[i] + [];
  }

  lemma JoinedFront(packets: seq<seq<byte>>, i: nat)
    requires i <= |packets|
    ensures Joined(packets[..i]) <= Joined(packets)
  {
    assert packets == packets[..i] + packets[i..];
    JoinedParts(packets[..i], packets[i..]);
  }

  lemma OneMoreFrame(frames: seq<seq<byte>>, f: seq<byte>, fates: seq<Fate>)
    ensures var fate := FateAt(fates, |frames|);
      && Kept(frames + [f], fates, 0) == Kept(frames, fates, 0) + (if fate.Queued? then [f] else [])
      && Lost(frames + [f], fates, 0) == Lost(frames, fates, 0) + (if fate.NoMemory? then |f| else 0)
      && Handled(frames + [f], fates, 0) == Handled(frames, fates, 0) + (if fate.NoMemory? then 0 else |f|)
      && Accepted(frames + [f], fates, 0) == Accepted(frames, fates, 0) + (if fate.NoMemory? then 0 else 1)
  {
    OneMoreFrom(frames, f, fates, 0);
  }

  lemma {:induction false} OneMoreFrom(frames: seq<seq<byte>>, f: seq<byte>, fates: seq<Fate>, k: nat)
    ensures var fate := FateAt(fates, k + |frames|);
      && Kept(frames + [f], fates, k) == Kept(frames, fates, k) + (if fate.Queued? then [f] else [])
      && Lost(frames + [f], fates, k) == Lost(frames, fates, k) + (if fate.NoMemory? then |f| else 0)
      && Handled(frames + [f], fates, k) == Handled(frames, fates, k) + (if fate.NoMemory? then 0 else |f|)
      && Accepted(frames + [f], fates, k) == Accepted(frames, fates, k) + (if fate.NoMemory? then 0 else 1)
    decreases |frames|
  {
    if frames != [] {
      assert (frames + [f])[1..] == frames[1..] + [f];
      OneMoreFrom(frames[1..], f, fates, k + 1);
    }
  }
}
