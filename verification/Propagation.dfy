/**
 How often one node floods the same event on.  The repository's protocol model asks for at most
 once; the bound here is exact for the code, in terms of the clock settings alone.
 */
module Propagation {
  import opened Events
  import opened EventStore
  import opened Ingest
  import Listing
  import Text

  /** What can happen to a node, with the node's clock. */
  datatype Op = Receive(event: Event, source: string, now: nat) | Local(event: Event, now: nat) | Maintain(now: nat)

  function Step(cfg: NodeConfig, st: NodeState, op: Op): NodeState {
    match op
    case Receive(e, source, now) => IngestEvent(cfg, st, e, source, now).0
    case Local(e, now) => PublishLocal(cfg, st, e, now).0
    case Maintain(now) => SweepNode(cfg, st, now)
  }

  ghost function After(cfg: NodeConfig, ops: seq<Op>): NodeState {
    if ops == [] then EMPTY_NODE
    else Step(cfg, After(cfg, ops[..|ops| - 1]), ops[|ops| - 1])
  }

  ghost predicate ClockMonotone(ops: seq<Op>) {
    forall i, j :: 0 <= i < j < |ops| ==> ops[i].now <= ops[j].now
  }

  ghost predicate IsReflood(cfg: NodeConfig, st: NodeState, op: Op, e: Event) {
    op.Receive? && op.event.id == e.id && IngestEvent(cfg, st, op.event, op.source, op.now).1.Reflood?
  }

  /** How many operations of the run hand an event with this id back for flooding. */
  ghost function Refloods(cfg: NodeConfig, ops: seq<Op>, e: Event): nat {
    if ops == [] then 0
    else
      var before := ops[..|ops| - 1];
      Refloods(cfg, before, e) + if IsReflood(cfg, After(cfg, before), ops[|ops| - 1], e) then 1 else 0
  }

  /** Equal ids mean equal events, for the event that is counted. */
  ghost predicate OnlyEventWithItsId(ops: seq<Op>, e: Event) {
    forall i :: 0 <= i < |ops| && ops[i].Receive? && ops[i].event.id == e.id ==> ops[i].event == e
  }

  ghost predicate StillRemembered(cfg: NodeConfig, st: NodeState, e: Event, since: nat, now: nat) {
    (e.id in st.seen && st.seen[e.id] >= since) || now > since + Retention(cfg.store)
  }

  /** A reflood at `now` needs the id forgotten, the event fresh and not too far in the future. */
  lemma RefloodNeeds(cfg: NodeConfig, st: NodeState, op: Op, e: Event)
    requires IsReflood(cfg, st, op, e) && op.event == e
    ensures e.id !in Purge(st.seen, op.now, Retention(cfg.store))
    ensures cfg.accepts(e) && e.createdAt <= op.now + cfg.maxClockSkew
    ensures op.now <= e.createdAt + cfg.store.freshnessWindow
    ensures e.id in Step(cfg, st, op).seen && Step(cfg, st, op).seen[e.id] == op.now
  {
  }

  /** What the checks refuse leaves no trace, not even in the duplicate memory. */
  lemma RefusedLeavesNoTrace(cfg: NodeConfig, st: NodeState, e: Event, source: string, now: nat)
    requires !cfg.accepts(e) || e.createdAt > now + cfg.maxClockSkew
    ensures IngestEvent(cfg, st, e, source, now) == (st, Refused)
  {
  }

  /** A node's own event that comes back is not flooded again, even if the store could not keep it. */
  lemma EchoIsDropped(cfg: NodeConfig, st: NodeState, e: Event, source: string, now: nat)
    ensures !IngestEvent(cfg, PublishLocal(cfg, st, e, now).0, e, source, now).1.Reflood?
  {
  }

  lemma MemoryKept(cfg: NodeConfig, st: NodeState, op: Op, e: Event, since: nat, now: nat)
    requires StillRemembered(cfg, st, e, since, now) && now <= op.now
    ensures StillRemembered(cfg, Step(cfg, st, op), e, since, op.now)
  {
  }

  lemma Multiples(k: int, r: nat)
    ensures k >= 1 ==> k * r >= r
    ensures k >= 2 ==> k * r >= 2 * r
    ensures (k + 1) * r == k * r + r
  {
  }

  /** `n` refloods from `first` to `last`, with the clock now at `now`. */
  ghost predicate Spaced(cfg: NodeConfig, st: NodeState, e: Event, n: nat, first: nat, last: nat, now: nat) {
    n > 0 ==>
      && first + (n - 1) * (Retention(cfg.store) + 1) <= last
      && e.createdAt <= first + cfg.maxClockSkew
      && last <= e.createdAt + cfg.store.freshnessWindow
      && StillRemembered(cfg, st, e, last, now)
  }

  lemma SpacedStep(cfg: NodeConfig, st: NodeState, op: Op, e: Event, n: nat, first: nat, last: nat, now: nat)
    requires Spaced(cfg, st, e, n, first, last, now) && now <= op.now
    requires op.Receive? && op.event.id == e.id ==> op.event == e
    ensures IsReflood(cfg, st, op, e) ==>
              Spaced(cfg, Step(cfg, st, op), e, n + 1, if n == 0 then op.now else first, op.now, op.now)
    ensures !IsReflood(cfg, st, op, e) ==> Spaced(cfg, Step(cfg, st, op), e, n, first, last, op.now)
  {
    Multiples(n - 1, Retention(cfg.store) + 1);
    if IsReflood(cfg, st, op, e) {
      RefloodNeeds(cfg, st, op, e);
    } else if n > 0 {
      MemoryKept(cfg, st, op, e, last, now);
    }
  }

  function Clock(ops: seq<Op>): nat {
    if ops == [] then 0 else ops[|ops| - 1].now
  }

  /** The operation that floods first, the time of the last one, and how far apart they must be. */
  lemma {:induction false} Spacing(cfg: NodeConfig, ops: seq<Op>, e: Event) returns (first: nat, last: nat)
    requires ClockMonotone(ops) && OnlyEventWithItsId(ops, e)
    ensures Refloods(cfg, ops, e) > 0 ==> first < |ops| && IsReflood(cfg, After(cfg, ops[..first]), ops[first], e)
    ensures Refloods(cfg, ops, e) > 0 ==>
              Spaced(cfg, After(cfg, ops), e, Refloods(cfg, ops, e), ops[first].now, last, Clock(ops))
  {
    first, last := 0, 0;
    if ops != [] {
      var before, op := ops[..|ops| - 1], ops[|ops| - 1];
      first, last := Spacing(cfg, before, e);
      var n := Refloods(cfg, before, e);
      assert Clock(before) <= op.now;
      if n > 0 {
        assert before[..first] == ops[..first];
        SpacedStep(cfg, After(cfg, before), op, e, n, ops[first].now, last, Clock(before));
      } else {
        first := |ops| - 1;
        SpacedStep(cfg, After(cfg, before), op, e, 0, op.now, 0, Clock(before));
      }
      if IsReflood(cfg, After(cfg, before), op, e) {
        last := op.now;
      }
    }
  }

  lemma OneFewer(n: int, r: int)
    ensures (n - 1) * (r + 1) == (n - 2) * r + r + n - 1
  {
  }

  /**
   Whatever is received, published, replaced, evicted or swept in between, flooding an event on `n`
   times needs `n - 1` full retention periods inside the time it is acceptable at all.
   */
  lemma PropagationBound(cfg: NodeConfig, ops: seq<Op>, e: Event)
    requires ClockMonotone(ops) && OnlyEventWithItsId(ops, e)
    ensures
      var n := Refloods(cfg, ops, e);
      && (n > 0 ==> (n - 1) * (Retention(cfg.store) + 1) <= cfg.store.freshnessWindow + cfg.maxClockSkew)
      && (n > 1 ==> (n - 2) * Retention(cfg.store) < cfg.maxClockSkew)
  {
    var _, _ := Spacing(cfg, ops, e);
    OneFewer(Refloods(cfg, ops, e), Retention(cfg.store));
  }

  /** At most twice when the allowed skew is at most the retention, as with the default settings. */
  lemma {:induction false} AtMostTwice(cfg: NodeConfig, ops: seq<Op>, e: Event)
    requires ClockMonotone(ops) && OnlyEventWithItsId(ops, e)
    requires cfg.maxClockSkew <= Retention(cfg.store)
    ensures Refloods(cfg, ops, e) <= 2
  {
    PropagationBound(cfg, ops, e);
    AtMostSkew(Refloods(cfg, ops, e), Retention(cfg.store), cfg.maxClockSkew);
  }

  lemma AtMostSkew(n: nat, r: nat, skew: nat)
    requires (n > 1 ==> (n - 2) * r < skew) && skew <= r
    ensures n <= 2
  {
    Multiples(n - 2, r);
  }

  /** At most once for an event that is not dated after the moment it is first flooded on. */
  lemma AtMostOnceUnlessFutureDated(cfg: NodeConfig, ops: seq<Op>, e: Event)
    requires ClockMonotone(ops) && OnlyEventWithItsId(ops, e)
    requires forall i :: 0 <= i < |ops| && IsReflood(cfg, After(cfg, ops[..i]), ops[i], e) ==> e.createdAt <= ops[i].now
    ensures Refloods(cfg, ops, e) <= 1
  {
    var first, last := Spacing(cfg, ops, e);
    Multiples(Refloods(cfg, ops, e) - 1, Retention(cfg.store) + 1);
  }

  // ---- The bound is attained -----------------------------------------------------------------

  /** One publisher's channel, the peer its events come from and when they start to, and the ids they happen to have. */
  datatype Publisher = Publisher(pubkey: nat, channel: string, source: string, start: nat, ids: nat -> nat)

  /** Event number 0 is the recurring one, number `i + 1` that of round `i`, while rounds are possible. */
  ghost predicate Used(cfg: NodeConfig, w: Publisher, i: nat) {
    i == 0 || LastsUntil(cfg, w, i - 1)
  }

  ghost predicate DistinctIds(cfg: NodeConfig, w: Publisher) {
    forall i, j :: Used(cfg, w, i) && Used(cfg, w, j) && w.ids(i) == w.ids(j) ==> i == j
  }

  /** Created as far in the future as the clock check allows at the start, and acceptable all along. */
  function Recurring(cfg: NodeConfig, w: Publisher): Event {
    Event(w.ids(0), CHANNEL_KIND, w.pubkey, w.start + cfg.maxClockSkew, Some(w.channel),
          Some(w.start + cfg.maxClockSkew + cfg.store.freshnessWindow), false)
  }

  /** Replaces the recurring event in round `i`, one second into it, and expires at once. */
  function ShortLived(cfg: NodeConfig, w: Publisher, i: nat): Event {
    Event(w.ids(i + 1), CHANNEL_KIND, w.pubkey, w.start + cfg.maxClockSkew + 1, Some(w.channel), Some(RoundTime(cfg, w, i) + 1), false)
  }

  ghost predicate AcceptsEvents(cfg: NodeConfig, w: Publisher) {
    && DistinctIds(cfg, w) && cfg.accepts(Recurring(cfg, w))
    && forall i :: LastsUntil(cfg, w, i) ==> cfg.accepts(ShortLived(cfg, w, i))
  }

  function RoundTime(cfg: NodeConfig, w: Publisher, i: nat): nat {
    w.start + i * (Retention(cfg.store) + 1)
  }

  ghost predicate LastsUntil(cfg: NodeConfig, w: Publisher, i: nat) {
    RoundTime(cfg, w, i) <= w.start + cfg.store.freshnessWindow + cfg.maxClockSkew
  }

  /** The operations of round `i`. */
  function FloodOp(cfg: NodeConfig, w: Publisher, i: nat): Op {
    Receive(Recurring(cfg, w), w.source, RoundTime(cfg, w, i))
  }

  function DisplaceOp(cfg: NodeConfig, w: Publisher, i: nat): Op {
    Receive(ShortLived(cfg, w, i), w.source, RoundTime(cfg, w, i) + 1)
  }

  function SweepOp(cfg: NodeConfig, w: Publisher, i: nat): Op {
    Maintain(RoundTime(cfg, w, i) + 2)
  }

  ghost function Rounds(cfg: NodeConfig, w: Publisher, n: nat): seq<Op> {
    if n == 0 then []
    else Rounds(cfg, w, n - 1) + [FloodOp(cfg, w, n - 1)] + [DisplaceOp(cfg, w, n - 1)] + [SweepOp(cfg, w, n - 1)]
  }

  lemma RoundsApart(cfg: NodeConfig, w: Publisher, i: nat)
    ensures w.start <= RoundTime(cfg, w, i)
    ensures RoundTime(cfg, w, i + 1) == RoundTime(cfg, w, i) + Retention(cfg.store) + 1
  {
    Multiples(i, Retention(cfg.store) + 1);
  }

  lemma {:induction false} AfterOp(cfg: NodeConfig, ops: seq<Op>, op: Op)
    ensures After(cfg, ops + [op]) == Step(cfg, After(cfg, ops), op)
  {
    assert (ops + [op])[..|ops|] == ops;
  }

  lemma {:induction false} AppendedOp(cfg: NodeConfig, ops: seq<Op>, op: Op, e: Event)
    ensures After(cfg, ops + [op]) == Step(cfg, After(cfg, ops), op)
    ensures Refloods(cfg, ops + [op], e)
         == Refloods(cfg, ops, e) + if IsReflood(cfg, After(cfg, ops), op, e) then 1 else 0
  {
    assert (ops + [op])[..|ops|] == ops;
  }

  ghost predicate AtMost(m: Entries, e: Event)
    requires e.d.Some?
  {
    m == map[] || m == map[KeyOf(e) := e]
  }

  /** A new key always counts as stored, even if a quota or capacity of zero evicts it at once. */
  lemma FirstOfItsKey(cfg: StoreConfig, e: Event, now: nat)
    requires e.d.Some? && Fresh(cfg, e, now)
    ensures InsertInto(cfg, map[], e, now).1.Stored? && AtMost(InsertInto(cfg, map[], e, now).0, e)
  {
    var m: Entries := map[];
    var m' := StoreNew(cfg, m, e);
    assert forall k :: k in m' ==> k == KeyOf(e) && m'[k] == e;
    if KeyOf(e) in m' {
      assert m' == map[KeyOf(e) := e];
    } else {
      assert m' == map[];
    }
  }

  /** Before round `i`: nothing is held, the recurring id is old, and the later ids are new. */
  ghost predicate Ready(cfg: NodeConfig, w: Publisher, st: NodeState, i: nat) {
    && st.entries == map[]
    && (w.ids(0) in st.seen ==> st.seen[w.ids(0)] + Retention(cfg.store) < RoundTime(cfg, w, i))
    && forall j :: j > i && Used(cfg, w, j) ==> w.ids(j) !in st.seen
  }

  /** In round `i`: the recurring id was seen at its start, and the later ids are new. */
  ghost predicate Seen(cfg: NodeConfig, w: Publisher, st: NodeState, i: nat, later: nat) {
    && (w.ids(0) in st.seen ==> st.seen[w.ids(0)] == RoundTime(cfg, w, i))
    && forall j :: j > later && Used(cfg, w, j) ==> w.ids(j) !in st.seen
  }

  /** After the first operation of round `i`, and after the second. */
  ghost predicate Flooded(cfg: NodeConfig, w: Publisher, st: NodeState, i: nat) {
    Seen(cfg, w, st, i, i) && AtMost(st.entries, Recurring(cfg, w))
  }

  ghost predicate Displaced(cfg: NodeConfig, w: Publisher, st: NodeState, i: nat) {
    Seen(cfg, w, st, i, i + 1) && AtMost(st.entries, ShortLived(cfg, w, i))
  }

  lemma RecurringIsFlooded(cfg: NodeConfig, w: Publisher, st: NodeState, i: nat)
    requires AcceptsEvents(cfg, w) && Ready(cfg, w, st, i) && LastsUntil(cfg, w, i)
    ensures
      var op := FloodOp(cfg, w, i);
      IsReflood(cfg, st, op, Recurring(cfg, w)) && Flooded(cfg, w, Step(cfg, st, op), i)
  {
    var e, t := Recurring(cfg, w), RoundTime(cfg, w, i);
    RoundsApart(cfg, w, i);
    assert Fresh(cfg.store, e, t);
    assert e.id !in Purge(st.seen, t, Retention(cfg.store));
    FirstOfItsKey(cfg.store, e, t);
  }

  lemma ShortLivedInserted(cfg: NodeConfig, w: Publisher, m: Entries, i: nat)
    requires DistinctIds(cfg, w) && AtMost(m, Recurring(cfg, w)) && LastsUntil(cfg, w, i)
    ensures AtMost(InsertInto(cfg.store, m, ShortLived(cfg, w, i), RoundTime(cfg, w, i) + 1).0, ShortLived(cfg, w, i))
  {
    var e, f, t := Recurring(cfg, w), ShortLived(cfg, w, i), RoundTime(cfg, w, i);
    IdsDiffer(cfg, w, i);
    assert Fresh(cfg.store, f, t + 1) && KeyOf(e) == KeyOf(f) && Newer(f, e) && e.id != f.id;
    FirstOfItsKey(cfg.store, f, t + 1);
    if m != map[] {
      assert map[KeyOf(e) := e][KeyOf(f) := f] == map[KeyOf(f) := f];
    }
  }

  lemma ShortLivedTakesItsPlace(cfg: NodeConfig, w: Publisher, st: NodeState, i: nat)
    requires AcceptsEvents(cfg, w) && Flooded(cfg, w, st, i) && LastsUntil(cfg, w, i)
    ensures Displaced(cfg, w, Step(cfg, st, DisplaceOp(cfg, w, i)), i)
  {
    var t := RoundTime(cfg, w, i);
    RoundsApart(cfg, w, i);
    ShortLivedInserted(cfg, w, st.entries, i);
    assert Used(cfg, w, i + 1) && w.ids(i + 1) !in Purge(st.seen, t + 1, Retention(cfg.store));
  }

  lemma ShortLivedIsSwept(cfg: NodeConfig, w: Publisher, st: NodeState, i: nat)
    requires Displaced(cfg, w, st, i)
    ensures Ready(cfg, w, Step(cfg, st, SweepOp(cfg, w, i)), i + 1)
  {
    var t := RoundTime(cfg, w, i);
    RoundsApart(cfg, w, i);
    assert !Fresh(cfg.store, ShortLived(cfg, w, i), t + 2);
    assert Sweep(cfg.store, st.entries, t + 2) == map[];
  }

  lemma {:induction false} RoundFloods(cfg: NodeConfig, w: Publisher, ops: seq<Op>, i: nat)
    requires AcceptsEvents(cfg, w) && Ready(cfg, w, After(cfg, ops), i) && LastsUntil(cfg, w, i)
    ensures
      var ops' := ops + [FloodOp(cfg, w, i)];
      && Refloods(cfg, ops', Recurring(cfg, w)) == Refloods(cfg, ops, Recurring(cfg, w)) + 1
      && Flooded(cfg, w, After(cfg, ops'), i)
  {
    AppendedOp(cfg, ops, FloodOp(cfg, w, i), Recurring(cfg, w));
    RecurringIsFlooded(cfg, w, After(cfg, ops), i);
  }

  lemma IdsDiffer(cfg: NodeConfig, w: Publisher, i: nat)
    requires DistinctIds(cfg, w) && LastsUntil(cfg, w, i)
    ensures ShortLived(cfg, w, i).id != Recurring(cfg, w).id
  {
    assert Used(cfg, w, 0) && Used(cfg, w, i + 1);
  }

  lemma {:induction false} OtherIdsDoNotCount(cfg: NodeConfig, ops: seq<Op>, op: Op, e: Event)
    requires op.Receive? ==> op.event.id != e.id
    ensures Refloods(cfg, ops + [op], e) == Refloods(cfg, ops, e)
  {
    AppendedOp(cfg, ops, op, e);
  }

  lemma {:induction false} RoundDisplaces(cfg: NodeConfig, w: Publisher, ops: seq<Op>, i: nat)
    requires AcceptsEvents(cfg, w) && Flooded(cfg, w, After(cfg, ops), i) && LastsUntil(cfg, w, i)
    ensures Displaced(cfg, w, After(cfg, ops + [DisplaceOp(cfg, w, i)]), i)
  {
    AfterOp(cfg, ops, DisplaceOp(cfg, w, i));
    ShortLivedTakesItsPlace(cfg, w, After(cfg, ops), i);
  }

  lemma {:induction false} RoundEmpties(cfg: NodeConfig, w: Publisher, ops: seq<Op>, i: nat)
    requires Displaced(cfg, w, After(cfg, ops), i)
    ensures
      var ops' := ops + [SweepOp(cfg, w, i)];
      && Refloods(cfg, ops', Recurring(cfg, w)) == Refloods(cfg, ops, Recurring(cfg, w))
      && Ready(cfg, w, After(cfg, ops'), i + 1)
  {
    AppendedOp(cfg, ops, SweepOp(cfg, w, i), Recurring(cfg, w));
    ShortLivedIsSwept(cfg, w, After(cfg, ops), i);
  }

  /** `ops` floods the event `n` times and leaves the node ready for round `i`. */
  ghost predicate Done(cfg: NodeConfig, w: Publisher, ops: seq<Op>, n: nat, i: nat) {
    Refloods(cfg, ops, Recurring(cfg, w)) == n && Ready(cfg, w, After(cfg, ops), i)
  }

  lemma {:induction false} OneRound(cfg: NodeConfig, w: Publisher, ops: seq<Op>, n: nat, i: nat)
    requires AcceptsEvents(cfg, w) && Done(cfg, w, ops, n, i) && LastsUntil(cfg, w, i)
    ensures Done(cfg, w, ops + [FloodOp(cfg, w, i)] + [DisplaceOp(cfg, w, i)] + [SweepOp(cfg, w, i)], n + 1, i + 1)
  {
    RoundFloods(cfg, w, ops, i);
    var ops1 := ops + [FloodOp(cfg, w, i)];
    IdsDiffer(cfg, w, i);
    OtherIdsDoNotCount(cfg, ops1, DisplaceOp(cfg, w, i), Recurring(cfg, w));
    RoundDisplaces(cfg, w, ops1, i);
    RoundEmpties(cfg, w, ops1 + [DisplaceOp(cfg, w, i)], i);
  }

  ghost predicate AllBy(ops: seq<Op>, t: nat) {
    forall i :: 0 <= i < |ops| ==> ops[i].now <= t
  }

  lemma {:induction false} OneRoundClock(cfg: NodeConfig, w: Publisher, ops: seq<Op>, i: nat)
    requires ClockMonotone(ops) && OnlyEventWithItsId(ops, Recurring(cfg, w)) && AllBy(ops, RoundTime(cfg, w, i))
    requires DistinctIds(cfg, w) && LastsUntil(cfg, w, i)
    ensures
      var ops' := ops + [FloodOp(cfg, w, i)] + [DisplaceOp(cfg, w, i)] + [SweepOp(cfg, w, i)];
      ClockMonotone(ops') && OnlyEventWithItsId(ops', Recurring(cfg, w)) && AllBy(ops', RoundTime(cfg, w, i + 1))
  {
    RoundsApart(cfg, w, i);
    IdsDiffer(cfg, w, i);
  }

  lemma {:induction false} RoundsClock(cfg: NodeConfig, w: Publisher, n: nat)
    requires DistinctIds(cfg, w) && (n > 0 ==> LastsUntil(cfg, w, n - 1))
    ensures ClockMonotone(Rounds(cfg, w, n)) && OnlyEventWithItsId(Rounds(cfg, w, n), Recurring(cfg, w))
    ensures AllBy(Rounds(cfg, w, n), RoundTime(cfg, w, n))
  {
    if n > 0 {
      if n > 1 { RoundsApart(cfg, w, n - 2); }
      RoundsClock(cfg, w, n - 1);
      OneRoundClock(cfg, w, Rounds(cfg, w, n - 1), n - 1);
    }
  }

  lemma {:induction false} RoundsDone(cfg: NodeConfig, w: Publisher, n: nat)
    requires AcceptsEvents(cfg, w) && (n > 0 ==> LastsUntil(cfg, w, n - 1))
    ensures Done(cfg, w, Rounds(cfg, w, n), n, n)
  {
    if n > 0 {
      if n > 1 { RoundsApart(cfg, w, n - 2); }
      RoundsDone(cfg, w, n - 1);
      OneRound(cfg, w, Rounds(cfg, w, n - 1), n - 1, n - 1);
    }
  }

  /** As long as the recurring event is acceptable, every round floods it once more. */
  lemma {:induction false} RoundsRefloodOnceEach(cfg: NodeConfig, w: Publisher, n: nat)
    requires AcceptsEvents(cfg, w) && (n > 0 ==> LastsUntil(cfg, w, n - 1))
    ensures Refloods(cfg, Rounds(cfg, w, n), Recurring(cfg, w)) == n
  {
    RoundsDone(cfg, w, n);
  }

  ghost predicate SomeRunRefloods(cfg: NodeConfig, n: nat) {
    exists ops, e :: ClockMonotone(ops) && OnlyEventWithItsId(ops, e) && Refloods(cfg, ops, e) == n
  }

  /** The bound is exact: `n` refloods happen in some run if and only if the settings leave room for them. */
  lemma PropagationBoundExact(cfg: NodeConfig, w: Publisher, n: nat)
    requires AcceptsEvents(cfg, w) && n > 0
    ensures SomeRunRefloods(cfg, n) <==>
            (n - 1) * (Retention(cfg.store) + 1) <= cfg.store.freshnessWindow + cfg.maxClockSkew
  {
    if (n - 1) * (Retention(cfg.store) + 1) <= cfg.store.freshnessWindow + cfg.maxClockSkew {
      RoundsRefloodOnceEach(cfg, w, n);
      RoundsClock(cfg, w, n);
    }
    if SomeRunRefloods(cfg, n) {
      var ops, e :| ClockMonotone(ops) && OnlyEventWithItsId(ops, e) && Refloods(cfg, ops, e) == n;
      PropagationBound(cfg, ops, e);
    }
  }

  /**
   The protocol model's bound of one is met by every run exactly when the acceptance window does
   not outlast the duplicate memory.
   */
  lemma AtMostOnceExact(cfg: NodeConfig, w: Publisher)
    requires AcceptsEvents(cfg, w)
    ensures (forall ops, e :: ClockMonotone(ops) && OnlyEventWithItsId(ops, e) ==> Refloods(cfg, ops, e) <= 1)
            <==> cfg.store.freshnessWindow + cfg.maxClockSkew <= Retention(cfg.store)
  {
    PropagationBoundExact(cfg, w, 2);
    if cfg.store.freshnessWindow + cfg.maxClockSkew <= Retention(cfg.store) {
      forall ops, e | ClockMonotone(ops) && OnlyEventWithItsId(ops, e) ensures Refloods(cfg, ops, e) <= 1 {
        PropagationBound(cfg, ops, e);
        Multiples(Refloods(cfg, ops, e) - 1, Retention(cfg.store) + 1);
      }
    }
  }

  // ---- The events of the witness are ones a receiver accepts ---------------------------------

  /** Tags with which a receiver's format and content checks pass and the store sees exactly this event. */
  ghost predicate Receivable(e: Event, tags: seq<Listing.Tag>, socket: Listing.SocketText) {
    && Listing.FormatOk(e.kind, tags) && Listing.FromTags(tags, socket).Ok?
    && e == Listing.StoreView(e.id, e.pubkey, e.createdAt, tags)
  }

  /** Any live listing, written with the expiration of one's choice. */
  function TagsFor(l: Listing.ChannelListing, e: Event): seq<Listing.Tag> {
    Listing.ToTags(l, SatSub(Expiration(e), EXPIRATION_OFFSET))
  }

  lemma WrittenIsSeen(l: Listing.ChannelListing, e: Event, t: nat)
    requires t + EXPIRATION_OFFSET <= Text.U64_MAX && l.status == Listing.Live
    requires e == Event(e.id, CHANNEL_KIND, e.pubkey, e.createdAt, Some(l.channelId), Some(t + EXPIRATION_OFFSET), false)
    ensures e == Listing.StoreView(e.id, e.pubkey, e.createdAt, Listing.ToTags(l, t))
  {
    Listing.SeenByStore(l, e.id, e.pubkey, e.createdAt, t);
  }

  lemma WrittenIsReceivable(l: Listing.ChannelListing, e: Event, socket: Listing.SocketText)
    requires Listing.Publishable(l, socket) && l.status == Listing.Live
    requires e.kind == CHANNEL_KIND && e.d == Some(l.channelId) && !e.ended
    requires e.expirationTag.Some? && EXPIRATION_OFFSET <= e.expirationTag.value <= Text.U64_MAX
    ensures Receivable(e, TagsFor(l, e), socket)
  {
    var t := Expiration(e) - EXPIRATION_OFFSET;
    Listing.FormatAccepted(l, t, socket);
    Listing.ListingReadsBack(l, t, socket);
    WrittenIsSeen(l, e, t);
  }

  /** The receiver accepts what passes the format and content checks and is signed; `signed` is the id and signature check. */
  ghost predicate AcceptsSigned(cfg: NodeConfig, socket: Listing.SocketText, signed: Event -> bool) {
    forall e, tags :: Receivable(e, tags, socket) && signed(e) ==> cfg.accepts(e)
  }

  /** The publisher has signed the events of the run. */
  ghost predicate SignsEvents(cfg: NodeConfig, w: Publisher, signed: Event -> bool) {
    && DistinctIds(cfg, w) && signed(Recurring(cfg, w))
    && forall i :: LastsUntil(cfg, w, i) ==> signed(ShortLived(cfg, w, i))
  }

  /**
   Such a receiver accepts the run's events, for any publishable live listing of the channel and any
   clock from ten minutes after the epoch on.
   */
  lemma ReceiverAcceptsEvents(
    cfg: NodeConfig, w: Publisher, l: Listing.ChannelListing, socket: Listing.SocketText, signed: Event -> bool)
    requires AcceptsSigned(cfg, socket, signed) && SignsEvents(cfg, w, signed)
    requires Listing.Publishable(l, socket) && l.status == Listing.Live && l.channelId == w.channel
    requires w.start >= EXPIRATION_OFFSET && w.start + cfg.maxClockSkew + cfg.store.freshnessWindow < Text.U64_MAX
    ensures AcceptsEvents(cfg, w)
  {
    WrittenIsReceivable(l, Recurring(cfg, w), socket);
    forall i | LastsUntil(cfg, w, i) ensures cfg.accepts(ShortLived(cfg, w, i)) {
      RoundsApart(cfg, w, i);
      WrittenIsReceivable(l, ShortLived(cfg, w, i), socket);
    }
  }

  /** So with the default settings such a receiver can be made to flood one event twice. */
  lemma TwiceByDefault(
    cfg: NodeConfig, w: Publisher, l: Listing.ChannelListing, socket: Listing.SocketText, signed: Event -> bool)
    requires AcceptsSigned(cfg, socket, signed) && SignsEvents(cfg, w, signed)
    requires Listing.Publishable(l, socket) && l.status == Listing.Live && l.channelId == w.channel
    requires EXPIRATION_OFFSET <= w.start && w.start + 900 < Text.U64_MAX
    requires cfg.store.freshnessWindow == 600 && cfg.maxClockSkew == 300
    ensures Refloods(cfg, Rounds(cfg, w, 2), Recurring(cfg, w)) == 2
    ensures ClockMonotone(Rounds(cfg, w, 2)) && OnlyEventWithItsId(Rounds(cfg, w, 2), Recurring(cfg, w))
  {
    ReceiverAcceptsEvents(cfg, w, l, socket, signed);
    RoundsApart(cfg, w, 0);
    RoundsRefloodOnceEach(cfg, w, 2);
    RoundsClock(cfg, w, 2);
  }
}
