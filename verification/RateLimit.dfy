/** The receiver's fixed-window rate limiter and the sender that smooths a SYNC answer for it. */
module RateLimit {

  datatype Limits = Limits(maxMsgs: nat, maxBytes: nat)
  const RECEIVER := Limits(200, 262144)

  /** What the limiter remembers; `started` is false until the first frame. */
  datatype Window = Window(started: bool, start: real, msgs: nat, bytes: nat)
  const FRESH_WINDOW := Window(false, 0.0, 0, 0)

  datatype Frame = Frame(time: real, bytes: nat)

  function Charge(limits: Limits, w: Window, f: Frame): (Window, bool) {
    var base := if !w.started || f.time - w.start >= 1.0 then Window(true, f.time, 0, 0) else w;
    var next := Window(true, base.start, base.msgs + 1, base.bytes + f.bytes);
    (next, next.msgs <= limits.maxMsgs && next.bytes <= limits.maxBytes)
  }

  class RateLimiter {
    const limits: Limits
    var initialized: bool
    var windowStart: real
    var msgs: nat
    var bytes: nat

    ghost function State(): Window
      reads this
    {
      Window(initialized, windowStart, msgs, bytes)
    }

    constructor (limits: Limits)
      ensures this.limits == limits && State() == FRESH_WINDOW
    {
      this.limits := limits;
      initialized, windowStart, msgs, bytes := false, 0.0, 0, 0;
    }

    method ChargeFrame(now: real, frameBytes: nat) returns (ok: bool)
      modifies this
      ensures (State(), ok) == Charge(limits, old(State()), Frame(now, frameBytes))
    {
      if !initialized || now - windowStart >= 1.0 {
        windowStart, msgs, bytes, initialized := now, 0, 0, true;
      }
      bytes := bytes + frameBytes;
      msgs := msgs + 1;
      ok := msgs <= limits.maxMsgs && bytes <= limits.maxBytes;
    }
  }

  // ---- How much gets through in one second ---------------------------------------------------

  ghost function ChargeAll(limits: Limits, frames: seq<Frame>): Window {
    if frames == [] then FRESH_WINDOW
    else Charge(limits, ChargeAll(limits, frames[..|frames| - 1]), frames[|frames| - 1]).0
  }

  ghost predicate InSecond(f: Frame, a: real) {
    a <= f.time < a + 1.0
  }

  /** Number and bytes of the frames accepted in the half-open second starting at `a`. */
  ghost function Passed(limits: Limits, frames: seq<Frame>, a: real): (nat, nat) {
    if frames == [] then (0, 0)
    else
      var before, f := frames[..|frames| - 1], frames[|frames| - 1];
      var (m, b) := Passed(limits, before, a);
      if InSecond(f, a) && Charge(limits, ChargeAll(limits, before), f).1 then (m + 1, b + f.bytes) else (m, b)
  }

  ghost predicate TimeMonotone(frames: seq<Frame>) {
    forall i, j :: 0 <= i < j < |frames| ==> frames[i].time <= frames[j].time
  }

  /** Counts split into the current window and the windows before it. */
  datatype Split = Split(nowMsgs: nat, nowBytes: nat, pastMsgs: nat, pastBytes: nat)

  ghost predicate SplitOk(limits: Limits, w: Window, x: Split, a: real, last: real) {
    && x.nowMsgs <= w.msgs && x.nowBytes <= w.bytes && x.nowMsgs <= limits.maxMsgs && x.nowBytes <= limits.maxBytes
    && (x.nowMsgs == 0 ==> x.nowBytes == 0) && (x.pastMsgs == 0 ==> x.pastBytes == 0)
    && (x.nowMsgs > 0 ==> last >= a) && (x.nowMsgs + x.pastMsgs > 0 ==> w.started)
    && ( || x.pastMsgs == 0
         || (w.start >= a && x.pastMsgs <= limits.maxMsgs && x.pastBytes <= limits.maxBytes)
         || (w.start >= a + 1.0 && x.nowMsgs == 0
             && x.pastMsgs <= 2 * limits.maxMsgs && x.pastBytes <= 2 * limits.maxBytes))
  }

  ghost function SplitAfter(limits: Limits, w: Window, x: Split, f: Frame, a: real): Split {
    var y := if !w.started || f.time - w.start >= 1.0
             then Split(0, 0, x.pastMsgs + x.nowMsgs, x.pastBytes + x.nowBytes) else x;
    if InSecond(f, a) && Charge(limits, w, f).1 then y.(nowMsgs := y.nowMsgs + 1, nowBytes := y.nowBytes + f.bytes) else y
  }

  lemma SplitStep(limits: Limits, w: Window, x: Split, f: Frame, a: real, last: real)
    requires SplitOk(limits, w, x, a, last) && last <= f.time && (w.started ==> w.start <= last)
    ensures SplitOk(limits, Charge(limits, w, f).0, SplitAfter(limits, w, x, f, a), a, f.time)
    ensures Charge(limits, w, f).0.start <= f.time
    ensures
      var y, passed := SplitAfter(limits, w, x, f, a), InSecond(f, a) && Charge(limits, w, f).1;
      && y.nowMsgs + y.pastMsgs == x.nowMsgs + x.pastMsgs + (if passed then 1 else 0)
      && y.nowBytes + y.pastBytes == x.nowBytes + x.pastBytes + (if passed then f.bytes else 0)
  {
  }

  lemma {:induction false} Splits(limits: Limits, frames: seq<Frame>, a: real) returns (x: Split)
    requires TimeMonotone(frames)
    ensures
      var w := ChargeAll(limits, frames);
      if frames == [] then w == FRESH_WINDOW && x == Split(0, 0, 0, 0)
      else w.start <= frames[|frames| - 1].time && SplitOk(limits, w, x, a, frames[|frames| - 1].time)
    ensures Passed(limits, frames, a) == (x.nowMsgs + x.pastMsgs, x.nowBytes + x.pastBytes)
  {
    if frames == [] {
      x := Split(0, 0, 0, 0);
    } else {
      var before, f := frames[..|frames| - 1], frames[|frames| - 1];
      var y := Splits(limits, before, a);
      var w := ChargeAll(limits, before);
      var t := if before == [] then f.time else before[|before| - 1].time;
      SplitStep(limits, w, y, f, a, t);
      x := SplitAfter(limits, w, y, f, a);
    }
  }

  /** In any half-open second, at most twice the limits get through, whatever the frames. */
  lemma AtMostTwiceTheLimit(limits: Limits, frames: seq<Frame>, a: real)
    requires TimeMonotone(frames)
    ensures Passed(limits, frames, a).0 <= 2 * limits.maxMsgs
    ensures Passed(limits, frames, a).1 <= 2 * limits.maxBytes
  {
    var _ := Splits(limits, frames, a);
  }

  // ---- Smoothing a SYNC answer ---------------------------------------------------------------

  const SYNC_SAFE_MSGS: nat := 150
  const SYNC_SAFE_BYTES: nat := 196608
  const MAX_WIRE: nat := 65540

  /** The sender's own window; sends are instantaneous, so its clock stands at the window's start. */
  datatype Sender = Sender(windowStart: real, msgs: nat, bytes: nat)

  predicate MustWait(s: Sender, size: nat) {
    s.msgs + 1 > SYNC_SAFE_MSGS || s.bytes + size > SYNC_SAFE_BYTES
  }

  function SendOne(s: Sender, size: nat): Sender {
    if MustWait(s, size) then Sender(s.windowStart + 1.0, 1, size)
    else Sender(s.windowStart, s.msgs + 1, s.bytes + size)
  }

  function Smoothed(s: Sender, sizes: seq<nat>): seq<Frame>
    decreases |sizes|
  {
    if sizes == [] then []
    else
      var next := SendOne(s, sizes[0]);
      [Frame(next.windowStart, sizes[0])] + Smoothed(next, sizes[1..])
  }

  function SenderAfter(s: Sender, sizes: seq<nat>): Sender
    decreases |sizes|
  {
    if sizes == [] then s else SenderAfter(SendOne(s, sizes[0]), sizes[1..])
  }

  function AnswerFrom(s: Sender, sizes: seq<nat>, doneSize: nat): seq<Frame> {
    Smoothed(s, sizes) + [Frame(SenderAfter(s, sizes).windowStart, doneSize)]
  }

  function Answer(sizes: seq<nat>, doneSize: nat, startTime: real): seq<Frame> {
    AnswerFrom(Sender(startTime, 0, 0), sizes, doneSize)
  }

  /**
   Sends every message and then SYNC_DONE, waiting for the next second when a window is full; the
   queue takes `room` messages before it closes, and then sending stops.
   */
  method StreamSyncResponse(sizes: seq<nat>, doneSize: nat, startTime: real, room: nat) returns (sent: seq<Frame>)
    ensures
      var all := Answer(sizes, doneSize, startTime);
      sent == if room < |all| then all[..room] else all
  {
    sent := [];
    var now := startTime;
    var windowStart, msgs: nat, bytes: nat := now, 0, 0;
    ghost var all := Answer(sizes, doneSize, startTime);
    for i := 0 to |sizes|
      invariant now == windowStart && |sent| <= room
      invariant sent + AnswerFrom(Sender(windowStart, msgs, bytes), sizes[i..], doneSize) == all
    {
      var size := sizes[i];
      NextSend(Sender(windowStart, msgs, bytes), sizes, i, doneSize, sent);
      if msgs + 1 > SYNC_SAFE_MSGS || bytes + size > SYNC_SAFE_BYTES {
        var elapsed := now - windowStart;
        if elapsed < 1.0 {
          now := now + (1.0 - elapsed);
        }
        windowStart, msgs, bytes := now, 0, 0;
      }
      if |sent| == room {
        return;
      }
      sent := sent + [Frame(now, size)];
      msgs := msgs + 1;
      bytes := bytes + size;
    }
    assert sizes[|sizes|..] == [];
    LastSend(Sender(windowStart, msgs, bytes), doneSize, sent);
    if |sent| < room {
      sent := sent + [Frame(now, doneSize)];
    }
  }

  /** The answer is complete and in order, never goes back in time, and SYNC_DONE comes last. */
  lemma AnswerComplete(sizes: seq<nat>, doneSize: nat, startTime: real)
    ensures
      var sent := Answer(sizes, doneSize, startTime);
      && |sent| == |sizes| + 1 && sent[|sizes|].bytes == doneSize && TimeMonotone(sent)
      && forall i :: 0 <= i < |sizes| ==> sent[i].bytes == sizes[i]
  {
    SmoothedInOrder(Sender(startTime, 0, 0), sizes);
  }

  lemma {:induction false} NextSend(s: Sender, sizes: seq<nat>, i: nat, doneSize: nat, sent: seq<Frame>)
    requires i < |sizes|
    ensures
      var next := SendOne(s, sizes[i]);
      var all := sent + AnswerFrom(s, sizes[i..], doneSize);
      && |sent| < |all| && all[..|sent|] == sent
      && all == sent + [Frame(next.windowStart, sizes[i])] + AnswerFrom(next, sizes[i + 1..], doneSize)
  {
    assert sizes[i..][0] == sizes[i] && sizes[i..][1..] == sizes[i + 1..];
    AnswerTail(s, sizes[i..], doneSize);
  }

  lemma {:induction false} LastSend(s: Sender, doneSize: nat, sent: seq<Frame>)
    ensures
      var all := sent + AnswerFrom(s, [], doneSize);
      all == sent + [Frame(s.windowStart, doneSize)] && all[..|sent|] == sent
  {
  }

  lemma {:induction false} SmoothedInOrder(s: Sender, sizes: seq<nat>)
    ensures
      var frames, end := Smoothed(s, sizes), SenderAfter(s, sizes).windowStart;
      && |frames| == |sizes| && TimeMonotone(frames) && s.windowStart <= end
      && (forall i :: 0 <= i < |sizes| ==> frames[i].bytes == sizes[i] && s.windowStart <= frames[i].time <= end)
    decreases |sizes|
  {
    if sizes != [] {
      SmoothedInOrder(SendOne(s, sizes[0]), sizes[1..]);
    }
  }

  /** The receiver's counts are covered by the sender's plus what it had counted before. */
  ghost predicate Follows(s: Sender, r: Window, delay: real, extraMsgs: nat, extraBytes: nat) {
    && r.start <= s.windowStart + delay
    && r.msgs <= s.msgs + extraMsgs && r.bytes <= s.bytes + extraBytes
    && s.msgs <= SYNC_SAFE_MSGS && s.bytes <= SYNC_SAFE_BYTES
  }

  /** When the frames arrive, each after its own delay. */
  ghost function Arrivals(frames: seq<Frame>, delays: seq<real>): seq<Frame>
    requires |delays| == |frames|
  {
    seq(|frames|, i requires 0 <= i < |frames| => Frame(frames[i].time + delays[i], frames[i].bytes))
  }

  /** No arriving frame trips the limiter. */
  ghost predicate NeverTrips(limits: Limits, r: Window, arrivals: seq<Frame>)
    decreases |arrivals|
  {
    arrivals == [] ||
    (Charge(limits, r, arrivals[0]).1 && NeverTrips(limits, Charge(limits, r, arrivals[0]).0, arrivals[1..]))
  }

  ghost predicate Within(delays: seq<real>, least: real, jitter: real) {
    forall i :: 0 <= i < |delays| ==> least <= delays[i] <= least + jitter
  }

  lemma ArrivalsTail(frames: seq<Frame>, delays: seq<real>)
    requires |delays| == |frames| > 0
    ensures Arrivals(frames, delays)[0] == Frame(frames[0].time + delays[0], frames[0].bytes)
    ensures Arrivals(frames, delays)[1..] == Arrivals(frames[1..], delays[1..])
  {
  }

  lemma OneSendFollows(s: Sender, size: nat, r: Window, delay: real, extraMsgs: nat, extraBytes: nat)
    requires Follows(s, r, delay, extraMsgs, extraBytes) && size <= MAX_WIRE
    requires SYNC_SAFE_MSGS + extraMsgs <= RECEIVER.maxMsgs && SYNC_SAFE_BYTES + extraBytes <= RECEIVER.maxBytes
    ensures
      var s' := SendOne(s, size);
      var (r', ok) := Charge(RECEIVER, r, Frame(s'.windowStart + delay, size));
      ok && Follows(s', r', delay, extraMsgs, extraBytes)
  {
  }

  lemma {:induction false} AnswerTail(s: Sender, sizes: seq<nat>, doneSize: nat)
    requires sizes != []
    ensures
      var s' := SendOne(s, sizes[0]);
      AnswerFrom(s, sizes, doneSize) == [Frame(s'.windowStart, sizes[0])] + AnswerFrom(s', sizes[1..], doneSize)
  {
  }

  lemma {:induction false} AnswerSize(s: Sender, sizes: seq<nat>, doneSize: nat)
    ensures |AnswerFrom(s, sizes, doneSize)| == |sizes| + 1
  {
    SmoothedInOrder(s, sizes);
  }

  lemma {:induction false} SmoothedPasses(
    s: Sender, sizes: seq<nat>, doneSize: nat, r: Window, delay: real, delays: seq<real>, extraMsgs: nat, extraBytes: nat)
    requires Follows(s, r, delay, extraMsgs, extraBytes) && |delays| == |AnswerFrom(s, sizes, doneSize)| && Within(delays, delay, 0.0)
    requires forall i :: 0 <= i < |sizes| ==> sizes[i] <= MAX_WIRE
    requires SYNC_SAFE_MSGS + 1 + extraMsgs <= RECEIVER.maxMsgs
    requires SYNC_SAFE_BYTES + doneSize + extraBytes <= RECEIVER.maxBytes
    ensures NeverTrips(RECEIVER, r, Arrivals(AnswerFrom(s, sizes, doneSize), delays))
    decreases |sizes|
  {
    var frames := AnswerFrom(s, sizes, doneSize);
    AnswerSize(s, sizes, doneSize);
    ArrivalsTail(frames, delays);
    if sizes == [] {
      assert frames == [Frame(s.windowStart, doneSize)] && frames[1..] == [];
      assert Arrivals(frames[1..], delays[1..]) == [];
    } else {
      AnswerTail(s, sizes, doneSize);
      var s' := SendOne(s, sizes[0]);
      OneSendFollows(s, sizes[0], r, delay, extraMsgs, extraBytes);
      var r' := Charge(RECEIVER, r, Arrivals(frames, delays)[0]).0;
      assert frames[1..] == AnswerFrom(s', sizes[1..], doneSize);
      SmoothedPasses(s', sizes[1..], doneSize, r', delay, delays[1..], extraMsgs, extraBytes);
    }
  }

  /**
   A receiver that may have counted up to 49 messages, and the bytes that remain, in a window begun
   before the answer arrives.
   */
  ghost predicate HasRoom(r: Window, arrival: real, doneSize: nat) {
    && SYNC_SAFE_BYTES + doneSize <= RECEIVER.maxBytes
    && (r.started ==> r.start <= arrival && r.msgs <= 49 && SYNC_SAFE_BYTES + doneSize + r.bytes <= RECEIVER.maxBytes)
  }

  ghost predicate SizesOk(sizes: seq<nat>) {
    forall i :: 0 <= i < |sizes| ==> sizes[i] <= MAX_WIRE
  }

  /**
   A SYNC answer of any length, frames within the 64KB limit, every frame delayed equally: whatever
   the phase of the receiver's window, no frame of the answer trips the limiter.
   */
  lemma SmootherMeetsLimiter(sizes: seq<nat>, doneSize: nat, startTime: real, delay: real, delays: seq<real>, r: Window)
    requires SizesOk(sizes) && HasRoom(r, startTime + delay, doneSize)
    requires |delays| == |Answer(sizes, doneSize, startTime)| && Within(delays, delay, 0.0)
    ensures NeverTrips(RECEIVER, r, Arrivals(Answer(sizes, doneSize, startTime), delays))
  {
    var s := Sender(startTime, 0, 0);
    var arrivals := Arrivals(Answer(sizes, doneSize, startTime), delays);
    if r.started {
      SmoothedPasses(s, sizes, doneSize, r, delay, delays, r.msgs, r.bytes);
    } else {
      var r' := Window(false, startTime + delay, 0, 0);
      SmoothedPasses(s, sizes, doneSize, r', delay, delays, 0, 0);
      assert Charge(RECEIVER, r, arrivals[0]) == Charge(RECEIVER, r', arrivals[0]);
    }
  }

  // ---- Unequal delays ------------------------------------------------------------------------

  /** No answer ever trips the limiter when delays vary by up to `jitter` and frames arrive in order. */
  ghost predicate ToleratesJitter(least: real, jitter: real) {
    forall sizes, doneSize, startTime, delays, r ::
      && SizesOk(sizes) && |delays| == |Answer(sizes, doneSize, startTime)| && Within(delays, least, jitter)
      && TimeMonotone(Arrivals(Answer(sizes, doneSize, startTime), delays)) && HasRoom(r, startTime + least, doneSize)
      ==> NeverTrips(RECEIVER, r, Arrivals(Answer(sizes, doneSize, startTime), delays))
  }

  /** Within one window of the limiter, only so many frames pass. */
  lemma {:induction false} OneWindowFills(limits: Limits, w: Window, arrivals: seq<Frame>)
    requires NeverTrips(limits, w, arrivals) && w.started && arrivals != []
    requires forall i :: 0 <= i < |arrivals| ==> arrivals[i].time - w.start < 1.0
    ensures w.msgs + |arrivals| <= limits.maxMsgs
    decreases |arrivals|
  {
    var next := Charge(limits, w, arrivals[0]).0;
    if |arrivals| > 1 {
      OneWindowFills(limits, next, arrivals[1..]);
    }
  }

  const SMALL: nat := 100

  ghost predicate Small(s: Sender, sizes: seq<nat>) {
    && (forall i :: 0 <= i < |sizes| ==> sizes[i] == SMALL)
    && s.msgs <= SYNC_SAFE_MSGS && s.bytes == SMALL * s.msgs
  }

  /** Small messages fill a sender window by their number. */
  lemma {:induction false} SentInWindow(s: Sender, sizes: seq<nat>, i: nat)
    requires Small(s, sizes) && i < |sizes| && s.msgs + i < 2 * SYNC_SAFE_MSGS
    ensures |Smoothed(s, sizes)| == |sizes|
    ensures Smoothed(s, sizes)[i].time == if s.msgs + i < SYNC_SAFE_MSGS then s.windowStart else s.windowStart + 1.0
    decreases i
  {
    SmoothedInOrder(s, sizes);
    if i > 0 {
      SentInWindow(SendOne(s, sizes[0]), sizes[1..], i - 1);
    }
  }

  /** The first sender window is late by `jitter`, the rest of the answer is not. */
  function LateFirstWindow(least: real, jitter: real, n: nat): seq<real> {
    seq(n, i => if i < SYNC_SAFE_MSGS then least + jitter else least)
  }

  /** Two full sender windows and SYNC_DONE arrive within one second. */
  lemma LateWindowArrivals(least: real, jitter: real, doneSize: nat)
    requires 0.0 < jitter <= 1.0
    ensures
      var sizes := seq(2 * SYNC_SAFE_MSGS, _ => SMALL);
      var sent := Answer(sizes, doneSize, 0.0);
      && |sent| == 2 * SYNC_SAFE_MSGS + 1
      && var arrivals := Arrivals(sent, LateFirstWindow(least, jitter, |sent|));
         && TimeMonotone(arrivals) && arrivals[0].time == least + jitter
         && forall i :: 0 <= i < |arrivals| ==> arrivals[i].time - arrivals[0].time < 1.0
  {
    var sizes := seq(2 * SYNC_SAFE_MSGS, _ => SMALL);
    var s := Sender(0.0, 0, 0);
    var sent := Answer(sizes, doneSize, 0.0);
    AnswerComplete(sizes, doneSize, 0.0);
    forall i | 0 <= i < |sizes| ensures sent[i].time == if i < SYNC_SAFE_MSGS then 0.0 else 1.0 {
      SentInWindow(s, sizes, i);
    }
    SmallSenderAfter(s, sizes);
  }

  /** The sender's window after two windows' worth of small messages. */
  lemma SmallSenderAfter(s: Sender, sizes: seq<nat>)
    requires s == Sender(0.0, 0, 0) && |sizes| == 2 * SYNC_SAFE_MSGS && Small(s, sizes)
    ensures SenderAfter(s, sizes).windowStart == 1.0
  {
    LastSent(s, sizes);
    SentInWindow(s, sizes, |sizes| - 1);
  }

  lemma {:induction false} LastSent(s: Sender, sizes: seq<nat>)
    requires sizes != []
    ensures |Smoothed(s, sizes)| == |sizes| && SenderAfter(s, sizes).windowStart == Smoothed(s, sizes)[|sizes| - 1].time
    decreases |sizes|
  {
    SmoothedInOrder(s, sizes);
    if |sizes| > 1 {
      LastSent(SendOne(s, sizes[0]), sizes[1..]);
    } else {
      assert sizes[1..] == [];
    }
  }

  /** However little later the first window arrives, it shares the receiver's window with the second. */
  lemma LateWindowTrips(least: real, jitter: real, doneSize: nat)
    requires 0.0 < jitter <= 1.0
    ensures
      var sent := Answer(seq(2 * SYNC_SAFE_MSGS, _ => SMALL), doneSize, 0.0);
      |sent| == 2 * SYNC_SAFE_MSGS + 1 && !NeverTrips(RECEIVER, FRESH_WINDOW, Arrivals(sent, LateFirstWindow(least, jitter, |sent|)))
  {
    LateWindowArrivals(least, jitter, doneSize);
    var sent := Answer(seq(2 * SYNC_SAFE_MSGS, _ => SMALL), doneSize, 0.0);
    var arrivals := Arrivals(sent, LateFirstWindow(least, jitter, |sent|));
    if NeverTrips(RECEIVER, FRESH_WINDOW, arrivals) {
      OneWindowFills(RECEIVER, Charge(RECEIVER, FRESH_WINDOW, arrivals[0]).0, arrivals[1..]);
    }
  }

  /** Equal delays are exactly what the smoother needs: any variation at all can make an answer trip. */
  lemma JitterExact(least: real, jitter: real)
    requires jitter >= 0.0
    ensures ToleratesJitter(least, jitter) <==> jitter == 0.0
  {
    if jitter == 0.0 {
      forall sizes, doneSize, startTime, delays, r |
        && SizesOk(sizes) && |delays| == |Answer(sizes, doneSize, startTime)| && Within(delays, least, jitter)
        && TimeMonotone(Arrivals(Answer(sizes, doneSize, startTime), delays)) && HasRoom(r, startTime + least, doneSize)
        ensures NeverTrips(RECEIVER, r, Arrivals(Answer(sizes, doneSize, startTime), delays))
      {
        SmootherMeetsLimiter(sizes, doneSize, startTime, least, delays, r);
      }
    } else {
      var j := if jitter <= 1.0 then jitter else 1.0;
      LateWindowArrivals(least, j, 0);
      LateWindowTrips(least, j, 0);
      var sizes := seq(2 * SYNC_SAFE_MSGS, _ => SMALL);
      var delays := LateFirstWindow(least, j, 2 * SYNC_SAFE_MSGS + 1);
      assert SizesOk(sizes) && Within(delays, least, jitter) && HasRoom(FRESH_WINDOW, 0.0 + least, 0);
      assert !NeverTrips(RECEIVER, FRESH_WINDOW, Arrivals(Answer(sizes, 0, 0.0), delays));
    }
  }
}
