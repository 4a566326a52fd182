/** The viewer's channel list: live, fresh, unmuted, newest first. */
module ChannelView {
  import opened Events
  import opened EventStore
  import opened Ingest

  datatype MuteEntry = MutePubkey(pubkey: nat) | MuteChannel(channel: string)
  datatype MuteSet = MuteSet(pubkeys: set<nat>, channels: set<string>)

  predicate IsMuted(mutes: MuteSet, e: Event) {
    e.pubkey in mutes.pubkeys || (e.d.Some? && e.d.value in mutes.channels)
  }

  /** Either kind of entry hides a row; neither has priority. */
  method CollectMutes(entries: seq<MuteEntry>) returns (mutes: MuteSet)
    ensures forall e: Event :: IsMuted(mutes, e) <==>
              MutePubkey(e.pubkey) in entries || (e.d.Some? && MuteChannel(e.d.value) in entries)
  {
    mutes := MuteSet({}, {});
    for i := 0 to |entries|
      invariant forall p :: p in mutes.pubkeys <==> MutePubkey(p) in entries[..i]
      invariant forall c :: c in mutes.channels <==> MuteChannel(c) in entries[..i]
    {
      assert entries[..i + 1] == entries[..i] + [entries[i]];
      match entries[i]
      case MutePubkey(p) => mutes := mutes.(pubkeys := mutes.pubkeys + {p});
      case MuteChannel(c) => mutes := mutes.(channels := mutes.channels + {c});
    }
    assert entries[..|entries|] == entries;
  }

  datatype Row = Row(event: Event, channel: string, sourcePeers: seq<string>)

  function RowOf(e: Event, sources: SourceMap): Row
    requires e.d.Some?
  {
    Row(e, e.d.value, if KeyOf(e) in sources then sources[KeyOf(e)] else [])
  }

  predicate TextLeq(a: string, b: string) {
    a == "" || (b != "" && (a[0] < b[0] || (a[0] == b[0] && TextLeq(a[1..], b[1..]))))
  }

  lemma TextOrder(a: string, b: string, c: string)
    ensures TextLeq(a, b) || TextLeq(b, a)
    ensures TextLeq(a, b) && TextLeq(b, c) ==> TextLeq(a, c)
  {
    if a != "" && b != "" {
      if c != "" {
        TextOrder(a[1..], b[1..], c[1..]);
      } else {
        TextOrder(a[1..], b[1..], "");
      }
    }
  }

  /** Newest first; ties by author, then by channel. */
  predicate RowLeq(a: Row, b: Row) {
    || a.event.createdAt > b.event.createdAt
    || (a.event.createdAt == b.event.createdAt
        && (a.event.pubkey < b.event.pubkey || (a.event.pubkey == b.event.pubkey && TextLeq(a.channel, b.channel))))
  }

  ghost predicate SortedRows(rows: seq<Row>) {
    forall i, j :: 0 <= i < j < |rows| ==> RowLeq(rows[i], rows[j])
  }

  ghost predicate EachOnce(rows: seq<Row>) {
    forall i, j :: 0 <= i < j < |rows| ==> rows[i] != rows[j]
  }

  /** Channels are in alphabetical order: a proper prefix comes first, else the first difference decides. */
  lemma {:induction false} Alphabetical(common: string, a: string, b: string)
    ensures TextLeq(common, common + a)
    ensures a != "" && b != "" && a[0] < b[0] ==> TextLeq(common + a, common + b) && !TextLeq(common + b, common + a)
    ensures a != "" ==> !TextLeq(common + a, common)
    decreases |common|
  {
    if common == "" {
      assert common + a == a && common + b == b;
    } else {
      Alphabetical(common[1..], a, b);
      assert (common + a)[1..] == common[1..] + a && (common + b)[1..] == common[1..] + b;
    }
  }

  method InsertRow(rows: seq<Row>, row: Row) returns (out: seq<Row>)
    requires SortedRows(rows) && EachOnce(rows) && row !in rows
    ensures SortedRows(out) && EachOnce(out)
    ensures forall r :: r in out <==> r in rows || r == row
  {
    var i := 0;
    while i < |rows| && RowLeq(rows[i], row)
      invariant i <= |rows| && forall j :: 0 <= j < i ==> RowLeq(rows[j], row)
    {
      i := i + 1;
    }
    out := rows[..i] + [row] + rows[i..];
    forall j | i <= j < |rows| ensures RowLeq(row, rows[j]) {
      TextOrder(rows[i].channel, row.channel, row.channel);
      TextOrder(row.channel, rows[i].channel, rows[j].channel);
    }
    assert forall r :: r in rows <==> r in rows[..i] || r in rows[i..] by {
      assert rows == rows[..i] + rows[i..];
    }
  }

  /** `parses` stands for reading the listing back from the tags, which verified events pass. */
  predicate Shown(e: Event, mutes: MuteSet, parses: Event -> bool) {
    e.d.Some? && !IsMuted(mutes, e) && parses(e)
  }

  method Aggregate(events: set<Event>, sources: SourceMap, mutes: MuteSet, parses: Event -> bool) returns (rows: seq<Row>)
    ensures SortedRows(rows) && EachOnce(rows)
    ensures forall r :: r in rows <==> r.event in events && Shown(r.event, mutes, parses) && r == RowOf(r.event, sources)
  {
    rows := [];
    var rest := events;
    ghost var done: set<Event> := {};
    while rest != {}
      invariant rest <= events && SortedRows(rows) && EachOnce(rows)
      invariant done == set e | e in events - rest && Shown(e, mutes, parses)
      invariant forall r :: r in rows <==> r.event in done && r == RowOf(r.event, sources)
      decreases rest
    {
      var e :| e in rest;
      rest := rest - {e};
      if Shown(e, mutes, parses) {
        rows := InsertRow(rows, RowOf(e, sources));
        done := done + {e};
      }
    }
    assert events - rest == events;
  }

  /** The list at time `now`: one row per visible held event, newest first. */
  method Snapshot(state: IngestState, entries: seq<MuteEntry>, parses: Event -> bool, now: nat)
    returns (rows: seq<Row>, mutes: MuteSet)
    requires state.Valid()
    ensures forall e: Event :: IsMuted(mutes, e) <==>
              MutePubkey(e.pubkey) in entries || (e.d.Some? && MuteChannel(e.d.value) in entries)
    ensures SortedRows(rows) && EachOnce(rows)
    ensures
      var live := LiveFreshEvents(state.cfg.store, state.store.entries, now);
      forall r :: r in rows <==>
        r.event in live && Shown(r.event, mutes, parses) && r == RowOf(r.event, state.sources)
  {
    mutes := CollectMutes(entries);
    rows := Aggregate(LiveFreshEvents(state.cfg.store, state.store.entries, now), state.sources, mutes, parses);
  }
}

/** What the list shows over time, as insertions and sweeps go on and the clock advances. */
module ViewOverTime {
  import opened Events
  import opened EventStore
  import opened Merging
  import opened Ingest
  import opened ChannelView

  datatype Op = Offer(event: Event, now: nat) | SweepAt(now: nat)

  ghost function After(cfg: StoreConfig, ops: seq<Op>): Entries {
    if ops == [] then map[]
    else
      var before := After(cfg, ops[..|ops| - 1]);
      match ops[|ops| - 1]
      case Offer(e, now) => InsertInto(cfg, before, e, now).0
      case SweepAt(now) => Sweep(cfg, before, now)
  }

  ghost function Offered(ops: seq<Op>): set<Event> {
    set i | 0 <= i < |ops| && ops[i].Offer? :: ops[i].event
  }

  function Clock(ops: seq<Op>): nat {
    if ops == [] then 0 else ops[|ops| - 1].now
  }

  ghost predicate ClockMonotone(ops: seq<Op>) {
    forall i, j :: 0 <= i < j < |ops| ==> ops[i].now <= ops[j].now
  }

  /** The last moment at which the event is fresh. */
  function Limit(cfg: StoreConfig, e: Event): nat {
    if Expiration(e) < e.createdAt + cfg.freshnessWindow then Expiration(e) else e.createdAt + cfg.freshnessWindow
  }

  lemma FreshUntilLimit(cfg: StoreConfig, e: Event, now: nat)
    ensures Fresh(cfg, e, now) <==> now <= Limit(cfg, e)
  {
  }

  /** No live event of the key outlives a newer one. */
  ghost predicate ExpiryFollowsAt(cfg: StoreConfig, s: set<Event>, k: Key) {
    forall e, f :: e in s && f in s && e.d.Some? && f.d.Some? && KeyOf(e) == k == KeyOf(f) && !e.ended && Newer(f, e) ==>
      Limit(cfg, e) <= Limit(cfg, f)
  }

  ghost predicate ExpiryFollowsOrder(cfg: StoreConfig, s: set<Event>) {
    forall k :: ExpiryFollowsAt(cfg, s, k)
  }

  /** No offer of the run makes the quota or the capacity take anything away. */
  ghost predicate EvictsNothing(cfg: StoreConfig, ops: seq<Op>) {
    if ops == [] then true
    else
      var before, op := ops[..|ops| - 1], ops[|ops| - 1];
      EvictsNothing(cfg, before) && (op.Offer? ==> Unevicted(cfg, After(cfg, before), op.event, op.now))
  }

  ghost predicate Quiet(cfg: StoreConfig, ops: seq<Op>) {
    UniqueIds(Offered(ops)) && ClockMonotone(ops) && EvictsNothing(cfg, ops)
  }

  /** What should be visible: the winners of everything ever offered that are live and still fresh. */
  ghost function Visible(cfg: StoreConfig, offered: set<Event>, now: nat): set<Event> {
    set w | w in Winners(offered) && LiveFresh(cfg, w, now)
  }

  ghost predicate Accounted(cfg: StoreConfig, m: Entries, offered: set<Event>, f: Event, t: nat) {
    Covers(m, f) || exists x :: x in offered && SameKeyNotOlder(x, f) && t > Limit(cfg, x)
  }

  ghost predicate ViewInv(cfg: StoreConfig, m: Entries, offered: set<Event>, t: nat) {
    && StoreInv(m) && m.Values <= offered
    && forall f :: f in offered && f.d.Some? ==> Accounted(cfg, m, offered, f, t)
  }

  lemma OfferMerges(cfg: StoreConfig, m: Entries, e: Event, now: nat)
    requires StoreInv(m) && UniqueIds(m.Values + {e}) && Unevicted(cfg, m, e, now)
    ensures
      var m' := InsertInto(cfg, m, e, now).0;
      && StoreInv(m') && m'.Values <= m.Values + {e}
      && (forall x :: Covers(m, x) ==> Covers(m', x))
      && (e.d.Some? ==> Covers(m', e) || now > Limit(cfg, e))
  {
    if e.d.Some? {
      FreshUntilLimit(cfg, e, now);
      if Fresh(cfg, e, now) {
        InsertMerges(cfg, m, e, now);
        MergeCovers(m, e);
      }
    }
  }

  lemma OfferKeepsInv(cfg: StoreConfig, m: Entries, offered: set<Event>, t: nat, e: Event, now: nat)
    requires ViewInv(cfg, m, offered, t) && UniqueIds(offered + {e}) && Unevicted(cfg, m, e, now) && t <= now
    ensures ViewInv(cfg, InsertInto(cfg, m, e, now).0, offered + {e}, now)
  {
    OfferMerges(cfg, m, e, now);
    AccountedLater(cfg, m, InsertInto(cfg, m, e, now).0, offered, t, e, now);
  }

  lemma AccountedLater(cfg: StoreConfig, m: Entries, m': Entries, offered: set<Event>, t: nat, e: Event, now: nat)
    requires ViewInv(cfg, m, offered, t) && t <= now && StoreInv(m') && m'.Values <= m.Values + {e}
    requires forall x :: Covers(m, x) ==> Covers(m', x)
    requires e.d.Some? ==> Covers(m', e) || now > Limit(cfg, e)
    ensures ViewInv(cfg, m', offered + {e}, now)
  {
    forall f | f in offered + {e} && f.d.Some? ensures Accounted(cfg, m', offered + {e}, f, now) {
      if f in offered && !Covers(m, f) {
        var x :| x in offered && SameKeyNotOlder(x, f) && t > Limit(cfg, x);
        assert x in offered + {e};
      } else if f == e {
        assert SameKeyNotOlder(e, e) && e in offered + {e};
      }
    }
  }

  lemma SweepKeepsViewInv(cfg: StoreConfig, m: Entries, offered: set<Event>, t: nat, now: nat)
    requires ViewInv(cfg, m, offered, t) && t <= now
    ensures ViewInv(cfg, Sweep(cfg, m, now), offered, now)
  {
    SweepKeepsInv(cfg, m, now);
    forall f | f in offered && f.d.Some? ensures Accounted(cfg, Sweep(cfg, m, now), offered, f, now) {
      assert Accounted(cfg, m, offered, f, t);
      if Covers(m, f) {
        var h := m[KeyOf(f)];
        HeldAtKey(m, h);
        FreshUntilLimit(cfg, h, now);
        if !Fresh(cfg, h, now) {
          assert h in offered && SameKeyNotOlder(h, f);
        }
      }
    }
  }

  lemma {:induction false} RunKeepsInv(cfg: StoreConfig, ops: seq<Op>)
    requires Quiet(cfg, ops)
    ensures ViewInv(cfg, After(cfg, ops), Offered(ops), Clock(ops))
  {
    if ops != [] {
      var before, op := ops[..|ops| - 1], ops[|ops| - 1];
      LastOp(ops);
      RunKeepsInv(cfg, before);
      match op
      case Offer(e, now) => OfferKeepsInv(cfg, After(cfg, before), Offered(before), Clock(before), e, now);
      case SweepAt(now) => SweepKeepsViewInv(cfg, After(cfg, before), Offered(before), Clock(before), now);
    }
  }

  lemma LastOp(ops: seq<Op>)
    requires ops != []
    ensures
      var before, op := ops[..|ops| - 1], ops[|ops| - 1];
      && Offered(ops) == Offered(before) + (if op.Offer? then {op.event} else {})
      && (ClockMonotone(ops) ==> ClockMonotone(before) && Clock(before) <= op.now)
  {
    var before, op := ops[..|ops| - 1], ops[|ops| - 1];
    forall e | e in Offered(ops) ensures e in Offered(before) + (if op.Offer? then {op.event} else {}) {
      var i :| 0 <= i < |ops| && ops[i].Offer? && ops[i].event == e;
      if i < |before| { assert before[i].event == e; }
    }
    forall e | e in Offered(before) ensures e in Offered(ops) {
      var i :| 0 <= i < |before| && before[i].Offer? && before[i].event == e;
      assert ops[i].event == e;
    }
    if op.Offer? { assert ops[|ops| - 1].event in Offered(ops); }
  }

  lemma InvShowsWinner(cfg: StoreConfig, m: Entries, offered: set<Event>, t: nat, now: nat, e: Event)
    requires ViewInv(cfg, m, offered, t) && UniqueIds(offered) && t <= now
    requires e.d.Some? ==> ExpiryFollowsAt(cfg, offered, KeyOf(e))
    ensures e in LiveFreshEvents(cfg, m, now) <==> e in Visible(cfg, offered, now)
  {
    HeldAtKey(m, e);
    FreshUntilLimit(cfg, e, now);
    if e in LiveFreshEvents(cfg, m, now) {
      var w := WinnerOfKey(offered, KeyOf(e));
      WinnerAccounted(cfg, m, offered, w, t);
    } else if e in Visible(cfg, offered, now) {
      WinnerAccounted(cfg, m, offered, e, t);
      HeldAtKey(m, m[KeyOf(e)]);
    }
  }

  lemma WinnerAccounted(cfg: StoreConfig, m: Entries, offered: set<Event>, w: Event, t: nat)
    requires UniqueIds(offered) && w in Winners(offered) && Accounted(cfg, m, offered, w, t)
    ensures Covers(m, w) || t > Limit(cfg, w)
  {
  }

  /** Over any run without evictions, the live and fresh events held are exactly those that should be visible. */
  lemma ViewRefines(cfg: StoreConfig, ops: seq<Op>, now: nat)
    requires Quiet(cfg, ops) && ExpiryFollowsOrder(cfg, Offered(ops)) && Clock(ops) <= now
    ensures LiveFreshEvents(cfg, After(cfg, ops), now) == Visible(cfg, Offered(ops), now)
  {
    forall e ensures e in LiveFreshEvents(cfg, After(cfg, ops), now) <==> e in Visible(cfg, Offered(ops), now) {
      if e.d.Some? { assert ExpiryFollowsAt(cfg, Offered(ops), KeyOf(e)); }
      RunKeepsInv(cfg, ops);
      InvShowsWinner(cfg, After(cfg, ops), Offered(ops), Clock(ops), now, e);
    }
  }

  /** What publishers write meets the condition under every configuration. */
  lemma StandardExpiry(cfg: StoreConfig, s: set<Event>)
    requires forall e :: e in s ==> Expiration(e) == e.createdAt + EXPIRATION_OFFSET
    ensures ExpiryFollowsOrder(cfg, s)
  {
  }

  /** A run whose offers would all fit into the store at once evicts nothing. */
  lemma {:induction false} RoomIsQuiet(cfg: StoreConfig, all: set<Event>, ops: seq<Op>)
    requires UniqueIds(all) && Offered(ops) <= all && ClockMonotone(ops) && Room(cfg, all)
    ensures Quiet(cfg, ops) && StoreInv(After(cfg, ops)) && After(cfg, ops).Values <= all
  {
    if ops != [] {
      var before, op := ops[..|ops| - 1], ops[|ops| - 1];
      LastOp(ops);
      RoomIsQuiet(cfg, all, before);
      match op
      case Offer(e, now) =>
        RoomEvictsNothing(cfg, After(cfg, before), all, e, now);
        RunKeepsInv(cfg, ops);
      case SweepAt(now) =>
        SweepKeepsInv(cfg, After(cfg, before), now);
    }
  }

  // ---- Exactly when --------------------------------------------------------------------------

  ghost predicate AlwaysRefines(cfg: StoreConfig, all: set<Event>) {
    forall ops, now :: Quiet(cfg, ops) && Offered(ops) <= all && Clock(ops) <= now ==>
      LiveFreshEvents(cfg, After(cfg, ops), now) == Visible(cfg, Offered(ops), now)
  }

  /** The newer event arrives just in time, is swept when it is over, and then the older one arrives. */
  function Outlived(cfg: StoreConfig, e: Event, f: Event): seq<Op> {
    var t := Limit(cfg, f);
    [Offer(f, t), SweepAt(t + 1), Offer(e, t + 1)]
  }

  lemma OutlivedRun(cfg: StoreConfig, e: Event, f: Event)
    requires e.d.Some? && f.d.Some? && Limit(cfg, f) < Limit(cfg, e) && cfg.storeMax > 0 && cfg.maxPerPubkey > 0
    ensures EvictsNothing(cfg, Outlived(cfg, e, f)) && After(cfg, Outlived(cfg, e, f)) == map[KeyOf(e) := e]
  {
    var t := Limit(cfg, f);
    var ops1 := [Offer(f, t)];
    var ops2 := ops1 + [SweepAt(t + 1)];
    var ops3 := ops2 + [Offer(e, t + 1)];
    assert ops1[..0] == [] && ops2[..1] == ops1 && ops3[..2] == ops2;
    assert ops3 == Outlived(cfg, e, f);
    FreshUntilLimit(cfg, f, t);
    FreshUntilLimit(cfg, f, t + 1);
    FreshUntilLimit(cfg, e, t + 1);
    FirstIsHeld(cfg, f, t);
    assert EvictsNothing(cfg, []) && After(cfg, []) == map[];
    assert EvictsNothing(cfg, ops1) && After(cfg, ops1) == map[KeyOf(f) := f];
    assert EvictsNothing(cfg, ops2) && After(cfg, ops2) == Sweep(cfg, map[KeyOf(f) := f], t + 1) == map[];
    FirstIsHeld(cfg, e, t + 1);
    assert EvictsNothing(cfg, ops3);
  }

  /**
   A newer event that expires early lets an older live one reappear.  If the newer one can be received
   at all (its date is within the skew while it is fresh), so can both offers of the run.
   */
  lemma Reappears(cfg: StoreConfig, e: Event, f: Event, skew: nat)
    requires UniqueIds({e, f}) && e.d.Some? && f.d.Some? && cfg.storeMax > 0 && cfg.maxPerPubkey > 0
    requires KeyOf(e) == KeyOf(f) && !e.ended && Newer(f, e) && Limit(cfg, f) < Limit(cfg, e)
    ensures
      var ops := Outlived(cfg, e, f);
      && Quiet(cfg, ops) && Offered(ops) == {e, f}
      && e in LiveFreshEvents(cfg, After(cfg, ops), Clock(ops)) && e !in Visible(cfg, Offered(ops), Clock(ops))
      && (f.createdAt <= Limit(cfg, f) + skew ==>
            forall i :: 0 <= i < |ops| && ops[i].Offer? ==> ops[i].event.createdAt <= ops[i].now + skew)
  {
    var ops := Outlived(cfg, e, f);
    OutlivedRun(cfg, e, f);
    FreshUntilLimit(cfg, e, Clock(ops));
    assert ops[0].event == f && ops[2].event == e;
    assert Offered(ops) == {e, f};
    assert After(cfg, ops)[KeyOf(e)] in LiveFreshEvents(cfg, After(cfg, ops), Clock(ops));
    assert e !in Winners(Offered(ops));
  }

  /** A store without any room holds nothing: a run that evicts nothing offers it nothing fresh. */
  lemma {:induction false} NoRoomNothingHeld(cfg: StoreConfig, ops: seq<Op>)
    requires (cfg.storeMax == 0 || cfg.maxPerPubkey == 0) && EvictsNothing(cfg, ops) && ClockMonotone(ops)
    ensures After(cfg, ops) == map[]
    ensures forall e :: e in Offered(ops) && e.d.Some? ==> Clock(ops) > Limit(cfg, e)
  {
    if ops != [] {
      var before, op := ops[..|ops| - 1], ops[|ops| - 1];
      LastOp(ops);
      NoRoomNothingHeld(cfg, before);
      if op.Offer? && op.event.d.Some? {
        FreshUntilLimit(cfg, op.event, op.now);
        NoRoomEvicts(cfg, op.event);
      }
    }
  }

  /**
   The view is right in every run over `all` that evicts nothing if and only if expiry follows the
   replacement order (or the store cannot hold anything).
   */
  lemma ViewRefinesExactly(cfg: StoreConfig, all: set<Event>)
    requires UniqueIds(all)
    ensures AlwaysRefines(cfg, all) <==> ExpiryFollowsOrder(cfg, all) || cfg.storeMax == 0 || cfg.maxPerPubkey == 0
  {
    if cfg.storeMax == 0 || cfg.maxPerPubkey == 0 {
      NoRoomRefines(cfg, all);
    } else if ExpiryFollowsOrder(cfg, all) {
      OrderRefines(cfg, all);
    } else {
      var k :| !ExpiryFollowsAt(cfg, all, k);
      var e, f :| e in all && f in all && e.d.Some? && f.d.Some? && KeyOf(e) == k == KeyOf(f) && !e.ended && Newer(f, e)
                  && Limit(cfg, e) > Limit(cfg, f);
      Reappears(cfg, e, f, 0);
      var ops := Outlived(cfg, e, f);
      assert Offered(ops) <= all;
      assert LiveFreshEvents(cfg, After(cfg, ops), Clock(ops)) != Visible(cfg, Offered(ops), Clock(ops));
    }
  }

  lemma OrderRefines(cfg: StoreConfig, all: set<Event>)
    requires ExpiryFollowsOrder(cfg, all)
    ensures AlwaysRefines(cfg, all)
  {
    forall ops, now | Quiet(cfg, ops) && Offered(ops) <= all && Clock(ops) <= now
      ensures LiveFreshEvents(cfg, After(cfg, ops), now) == Visible(cfg, Offered(ops), now)
    {
      forall k ensures ExpiryFollowsAt(cfg, Offered(ops), k) { assert ExpiryFollowsAt(cfg, all, k); }
      ViewRefines(cfg, ops, now);
    }
  }

  lemma NoRoomRefines(cfg: StoreConfig, all: set<Event>)
    requires cfg.storeMax == 0 || cfg.maxPerPubkey == 0
    ensures AlwaysRefines(cfg, all)
  {
    forall ops, now | Quiet(cfg, ops) && Offered(ops) <= all && Clock(ops) <= now
      ensures LiveFreshEvents(cfg, After(cfg, ops), now) == Visible(cfg, Offered(ops), now)
    {
      NoRoomNothingHeld(cfg, ops);
      forall e | e in Visible(cfg, Offered(ops), now) ensures false { FreshUntilLimit(cfg, e, now); }
    }
  }

  /**
   Once an ended event has been offered and nothing newer was ever offered under its key, the
   channel is never listed again: no order of arrival, no repeat and no sweep brings it back.
   */
  lemma EndedStaysDown(cfg: StoreConfig, ops: seq<Op>, last: Event, now: nat)
    requires Quiet(cfg, ops) && Clock(ops) <= now
    requires last in Offered(ops) && last.d.Some? && last.ended && ExpiryFollowsAt(cfg, Offered(ops), KeyOf(last))
    requires forall e :: e in Offered(ops) && e.d.Some? && KeyOf(e) == KeyOf(last) ==> e == last || Newer(last, e)
    ensures forall e :: e in LiveFreshEvents(cfg, After(cfg, ops), now) ==> e.d.Some? && KeyOf(e) != KeyOf(last)
  {
    RunKeepsInv(cfg, ops);
    forall e | e in LiveFreshEvents(cfg, After(cfg, ops), now) ensures e.d.Some? && KeyOf(e) != KeyOf(last) {
      HeldAtKey(After(cfg, ops), e);
      if KeyOf(e) == KeyOf(last) {
        InvShowsWinner(cfg, After(cfg, ops), Offered(ops), Clock(ops), now, e);
      }
    }
  }

  // ---- The list itself -----------------------------------------------------------------------

  /** The winner of its key over everything offered, live and fresh, not muted and readable. */
  ghost predicate Listed(cfg: StoreConfig, offered: set<Event>, w: Event, muted: seq<MuteEntry>, parses: Event -> bool, now: nat) {
    && w in Visible(cfg, offered, now) && w.d.Some? && parses(w)
    && MutePubkey(w.pubkey) !in muted && MuteChannel(w.d.value) !in muted
  }

  /**
   What the viewer sees after any run without evictions: exactly one row for each unmuted key whose
   winner over everything ever offered is live and fresh, newest first.
   */
  method ListAfterRun(state: IngestState, ghost ops: seq<Op>, muted: seq<MuteEntry>, parses: Event -> bool, now: nat)
    returns (rows: seq<Row>)
    requires state.Valid() && state.store.entries == After(state.cfg.store, ops)
    requires Quiet(state.cfg.store, ops) && ExpiryFollowsOrder(state.cfg.store, Offered(ops)) && Clock(ops) <= now
    ensures SortedRows(rows)
    ensures forall i, j :: 0 <= i < j < |rows| ==> rows[i].event.createdAt >= rows[j].event.createdAt
    ensures forall i, j :: 0 <= i < j < |rows| && rows[i].event.createdAt == rows[j].event.createdAt ==>
              rows[i].event.pubkey < rows[j].event.pubkey
              || (rows[i].event.pubkey == rows[j].event.pubkey && TextLeq(rows[i].channel, rows[j].channel))
    ensures forall r :: r in rows ==> r.event.d == Some(r.channel)
    ensures forall r :: r in rows && KeyOf(r.event) in state.sources ==> r.sourcePeers == state.sources[KeyOf(r.event)]
    ensures forall r :: r in rows <==>
              Listed(state.cfg.store, Offered(ops), r.event, muted, parses, now) && r == RowOf(r.event, state.sources)
    ensures forall i, j :: 0 <= i < j < |rows| ==>
              rows[i].event.d.Some? && rows[j].event.d.Some? && KeyOf(rows[i].event) != KeyOf(rows[j].event)
  {
    ViewRefines(state.cfg.store, ops, now);
    var mutes;
    rows, mutes := Snapshot(state, muted, parses, now);
    forall i, j | 0 <= i < j < |rows|
      ensures rows[i].event.d.Some? && rows[j].event.d.Some? && KeyOf(rows[i].event) != KeyOf(rows[j].event)
    {
      var a, b := rows[i], rows[j];
      assert a in rows && b in rows;
      if KeyOf(a.event) == KeyOf(b.event) {
        WinnersUnique(Offered(ops), a.event, b.event);
      }
    }
  }
}
