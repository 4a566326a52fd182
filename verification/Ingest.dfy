/** One node of the gossip network: duplicate suppression, storage, and what is flooded on. */
module Ingest {
  import opened Events
  import opened Selection
  import opened EventStore

  const DEDUP_MIN_RETENTION: nat := 600

  /**
   `accepts` stands for the receiver's checks that look only at the event: size, id and signature,
   tag format, content ranges and proof of work.
   */
  datatype NodeConfig = NodeConfig(store: StoreConfig, maxClockSkew: nat, accepts: Event -> bool)

  function Retention(cfg: StoreConfig): nat {
    if cfg.freshnessWindow > DEDUP_MIN_RETENTION then cfg.freshnessWindow else DEDUP_MIN_RETENTION
  }

  /** When each remembered event id was first seen. */
  type Seen = map<nat, nat>

  function Purge(seen: Seen, now: nat, retention: nat): Seen {
    map i | i in seen && SatSub(now, seen[i]) <= retention :: seen[i]
  }

  function Remember(seen: Seen, id: nat, now: nat, retention: nat): (Seen, bool) {
    var kept := Purge(seen, now, retention);
    if id in kept then (kept, true) else (kept[id := now], false)
  }

  type SourceMap = map<Key, seq<string>>

  datatype NodeState = NodeState(entries: Entries, seen: Seen, sources: SourceMap)
  const EMPTY_NODE := NodeState(map[], map[], map[])

  datatype IngestResult = Refused | Dropped | Reflood(event: Event)

  function SetSource(sources: SourceMap, e: Event, peers: seq<string>): SourceMap {
    if e.d.Some? then sources[KeyOf(e) := peers] else sources
  }

  /** A received event: verify, suppress duplicates, store; flood on only what was stored. */
  function IngestEvent(cfg: NodeConfig, st: NodeState, e: Event, source: string, now: nat): (NodeState, IngestResult)
  {
    if !cfg.accepts(e) || e.createdAt > now + cfg.maxClockSkew then (st, Refused)
    else
      var (seen, known) := Remember(st.seen, e.id, now, Retention(cfg.store));
      if known then (st.(seen := seen), Dropped)
      else
        var (entries, outcome) := InsertInto(cfg.store, st.entries, e, now);
        if ShouldPropagate(outcome)
        then (NodeState(entries, seen, SetSource(st.sources, e, [source])), Reflood(e))
        else (NodeState(entries, seen, st.sources), Dropped)
  }

  /** An event of this node's own: no verification, and a known id does not stop it. */
  function PublishLocal(cfg: NodeConfig, st: NodeState, e: Event, now: nat): (NodeState, InsertOutcome)
  {
    var (seen, known) := Remember(st.seen, e.id, now, Retention(cfg.store));
    var (entries, outcome) := InsertInto(cfg.store, st.entries, e, now);
    (NodeState(entries, seen, if ShouldPropagate(outcome) then SetSource(st.sources, e, []) else st.sources), outcome)
  }

  function SweepNode(cfg: NodeConfig, st: NodeState, now: nat): NodeState {
    var entries := Sweep(cfg.store, st.entries, now);
    var live := set e | e in LiveFreshEvents(cfg.store, entries, now) && e.d.Some? :: KeyOf(e);
    NodeState(entries, st.seen,
              if |entries| < |st.entries| then map k | k in st.sources && k in live :: st.sources[k] else st.sources)
  }

  /** The events that answer a SYNC request, before ordering. */
  function SyncSet(cfg: NodeConfig, m: Entries, since: int, now: nat): set<Event> {
    var floor := SatSub(now, cfg.store.freshnessWindow);
    var lower := if since > floor then since else floor;
    set e | e in LiveFreshEvents(cfg.store, m, now) && e.createdAt >= lower
  }

  /** What a SYNC request is answered: what is held, live, fresh, unexpired and not older than asked for. */
  ghost predicate Answers(cfg: NodeConfig, m: Entries, since: int, now: nat, e: Event) {
    && e in m.Values && !e.ended && now <= Expiration(e)
    && now <= e.createdAt + cfg.store.freshnessWindow && since <= e.createdAt
  }

  lemma SyncAnswers(cfg: NodeConfig, m: Entries, since: int, now: nat, e: Event)
    requires WellKeyed(m)
    ensures e in SyncSet(cfg, m, since, now) <==> Answers(cfg, m, since, now, e)
  {
    HeldAtKey(m, e);
  }

  // ---- Capacity ------------------------------------------------------------------------------

  lemma OldestExists(xs: set<Event>) returns (v: Event)
    requires xs != {}
    ensures v in xs && Oldest(v, xs)
    decreases |xs|
  {
    var y :| y in xs;
    v := y;
    if xs - {y} != {} {
      var r := OldestExists(xs - {y});
      if Newer(y, r) { v := r; }
    }
    forall x | x in xs ensures !Newer(v, x) { assert x == y || x in xs - {y}; }
  }

  ghost predicate Oldest(v: Event, xs: set<Event>) {
    forall x :: x in xs ==> !Newer(v, x)
  }

  lemma TopIsSmall(n: nat, xs: set<Event>)
    requires UniqueIds(xs)
    ensures |Top(n, xs)| <= n
  {
    if Top(n, xs) != {} {
      var v := OldestExists(Top(n, xs));
      SubsetSize(Top(n, xs) - {v}, Above(xs, v));
    }
  }

  lemma CapacityKept(cfg: StoreConfig, m: Entries, e: Event, now: nat)
    requires StoreInv(m) && |m| <= cfg.storeMax
    ensures |InsertInto(cfg, m, e, now).0| <= cfg.storeMax
  {
    InsertCases(cfg, m, e, now);
    if InsertInto(cfg, m, e, now).1.Stored? {
      NewIdIsUnique(m, e);
      StoreNewIsSmall(cfg, m, e);
    }
  }

  lemma InsertCases(cfg: StoreConfig, m: Entries, e: Event, now: nat)
    ensures
      var (m', o) := InsertInto(cfg, m, e, now);
      if o.Stored? then
        e.d.Some? && KeyOf(e) !in m && m' == StoreNew(cfg, m, e) && forall k :: k in m ==> m[k].id != e.id
      else |m'| == |m|
  {
    if e.d.Some? && KeyOf(e) in m {
      assert m[KeyOf(e) := e].Keys == m.Keys;
    }
  }

  lemma NewIdIsUnique(m: Entries, e: Event)
    requires StoreInv(m) && forall k :: k in m ==> m[k].id != e.id
    ensures UniqueIds(m.Values + {e})
  {
    forall x | x in m.Values ensures x.id != e.id { HeldAtKey(m, x); }
  }

  lemma StoreNewIsSmall(cfg: StoreConfig, m: Entries, e: Event)
    requires WellKeyed(m) && e.d.Some? && KeyOf(e) !in m && UniqueIds(m.Values + {e})
    ensures |StoreNew(cfg, m, e)| <= cfg.storeMax
  {
    StoreNewValues(cfg, m, e);
    SizeOfValues(StoreNew(cfg, m, e));
    TopIsSmall(cfg.storeMax, QuotaFor(cfg.maxPerPubkey, e.pubkey, m.Values + {e}));
  }

  lemma SweepCapacity(cfg: StoreConfig, m: Entries, now: nat)
    ensures |Sweep(cfg, m, now)| <= |m|
  {
    SubsetSize(Sweep(cfg, m, now).Keys, m.Keys);
  }

  // ---- The node object -----------------------------------------------------------------------

  class DedupCache {
    const retention: nat
    var seen: Seen

    constructor (freshnessWindow: nat)
      ensures seen == map[]
      ensures retention == Retention(StoreConfig(freshnessWindow, 0, 0))
    {
      retention := if freshnessWindow > DEDUP_MIN_RETENTION then freshnessWindow else DEDUP_MIN_RETENTION;
      seen := map[];
    }

    method PurgeExpired(now: nat)
      modifies this
      ensures seen == Purge(old(seen), now, retention)
    {
      seen := map i | i in seen && SatSub(now, seen[i]) <= retention :: seen[i];
    }

    method CheckAndInsert(id: nat, now: nat) returns (known: bool)
      modifies this
      ensures (seen, known) == Remember(old(seen), id, now, retention)
    {
      PurgeExpired(now);
      known := id in seen;
      if !known {
        seen := seen[id := now];
      }
    }
  }

  class IngestState {
    const cfg: NodeConfig
    const store: Store
    const dedup: DedupCache
    var sources: SourceMap

    ghost predicate Valid()
      reads this, store
    {
      store.Valid() && store.cfg == cfg.store && |store.entries| <= cfg.store.storeMax
      && dedup.retention == Retention(cfg.store)
    }

    ghost function State(): NodeState
      reads this, store, dedup
    {
      NodeState(store.entries, dedup.seen, sources)
    }

    constructor (cfg: NodeConfig)
      ensures Valid() && State() == EMPTY_NODE && this.cfg == cfg
      ensures fresh(store) && fresh(dedup)
    {
      this.cfg := cfg;
      store := new Store(cfg.store);
      dedup := new DedupCache(cfg.store.freshnessWindow);
      sources := map[];
    }

    method Ingest(e: Event, source: string, now: nat) returns (r: IngestResult)
      requires Valid()
      modifies this, store, dedup
      ensures Valid()
      ensures (State(), r) == IngestEvent(cfg, old(State()), e, source, now)
    {
      if !cfg.accepts(e) || e.createdAt > now + cfg.maxClockSkew {
        return Refused;
      }
      var known := dedup.CheckAndInsert(e.id, now);
      if known {
        return Dropped;
      }
      CapacityKept(cfg.store, store.entries, e, now);
      var outcome := store.Insert(e, now);
      if ShouldPropagate(outcome) {
        sources := SetSource(sources, e, [source]);
        return Reflood(e);
      }
      return Dropped;
    }

    method Publish(e: Event, now: nat) returns (outcome: InsertOutcome)
      requires Valid()
      modifies this, store, dedup
      ensures Valid()
      ensures (State(), outcome) == PublishLocal(cfg, old(State()), e, now)
    {
      var _ := dedup.CheckAndInsert(e.id, now);
      CapacityKept(cfg.store, store.entries, e, now);
      outcome := store.Insert(e, now);
      if ShouldPropagate(outcome) {
        sources := SetSource(sources, e, []);
      }
    }

    method SweepStale(now: nat) returns (removed: nat)
      requires Valid()
      modifies this, store
      ensures Valid() && State() == SweepNode(cfg, old(State()), now)
      ensures removed == |old(store.entries)| - |store.entries|
    {
      SweepCapacity(cfg.store, store.entries, now);
      removed := store.SweepStale(now);
      if removed > 0 {
        var live := set e | e in LiveFreshEvents(cfg.store, store.entries, now) && e.d.Some? :: KeyOf(e);
        sources := map k | k in sources && k in live :: sources[k];
      }
    }

    /** The SYNC answer, oldest first: everything live and fresh from `since` on, nothing cut off. */
    method SyncEvents(since: int, now: nat) returns (out: seq<Event>)
      requires Valid()
      ensures Ascending(out)
      ensures forall e :: e in out <==> Answers(cfg, store.entries, since, now, e)
    {
      var selected := SyncSet(cfg, store.entries, since, now);
      assert selected <= store.entries.Values by {
        forall e | e in selected ensures e in store.entries.Values { HeldAtKey(store.entries, e); }
      }
      out := SortAscending(selected);
      SizeOfValues(store.entries);
      SubsetSize(selected, store.entries.Values);
      out := Truncate(out, cfg.store.storeMax);
      forall e ensures e in out <==> Answers(cfg, store.entries, since, now, e) {
        SyncAnswers(cfg, store.entries, since, now, e);
        assert e in out <==> e in Elements(out);
      }
    }
  }

  function Truncate(s: seq<Event>, n: nat): seq<Event> {
    if |s| > n then s[..n] else s
  }

  ghost predicate Ascending(s: seq<Event>) {
    forall i, j :: 0 <= i < j < |s| ==> Newer(s[j], s[i])
  }

  ghost predicate Precedes(s: seq<Event>, rest: set<Event>) {
    forall i, x :: 0 <= i < |s| && x in rest ==> Newer(x, s[i])
  }

  lemma AppendOldest(out: seq<Event>, rest: set<Event>, v: Event)
    requires Ascending(out) && Precedes(out, rest) && UniqueIds(rest) && v in rest && Oldest(v, rest)
    ensures Ascending(out + [v]) && Precedes(out + [v], rest - {v})
    ensures Elements(out + [v]) == Elements(out) + {v}
  {
    forall x | x in rest - {v} ensures Newer(x, v) { assert !Newer(v, x); }
  }

  method SortAscending(s: set<Event>) returns (out: seq<Event>)
    requires UniqueIds(s)
    ensures Elements(out) == s && |out| == |s| && Ascending(out)
  {
    out := [];
    var rest := s;
    while rest != {}
      invariant rest <= s && Elements(out) == s - rest && |out| == |s| - |rest|
      invariant Ascending(out) && Precedes(out, rest)
      decreases rest
    {
      var oldest := OldestOf(rest);
      AppendOldest(out, rest, oldest);
      rest := rest - {oldest};
      out := out + [oldest];
    }
  }

  lemma OldestSoFar(v: Event, xs: set<Event>, x: Event)
    requires v in xs && Oldest(v, xs)
    ensures Oldest(if Newer(v, x) then x else v, xs + {x})
  {
    forall y | y in xs ensures !Newer(v, y) {}
  }

  method OldestOf(s: set<Event>) returns (oldest: Event)
    requires s != {}
    ensures oldest in s && Oldest(oldest, s)
  {
    oldest :| oldest in s;
    var others := s - {oldest};
    while others != {}
      invariant others <= s && oldest in s - others && Oldest(oldest, s - others)
      decreases others
    {
      var x :| x in others;
      OldestSoFar(oldest, s - others, x);
      assert s - (others - {x}) == s - others + {x};
      others := others - {x};
      if Newer(oldest, x) { oldest := x; }
    }
  }

  /** The hub: one node's state and the send queues of its established connections. */
  class GossipHub {
    const state: IngestState
    var queues: map<nat, seq<Event>>

    ghost predicate Valid()
      reads this, state, state.store
    {
      state.Valid()
    }

    constructor (cfg: NodeConfig)
      ensures Valid() && queues == map[] && state.cfg == cfg && state.State() == EMPTY_NODE
    {
      state := new IngestState(cfg);
      queues := map[];
    }

    /** Appends the event to every queue but the excluded connection's. */
    method Broadcast(e: Event, exclude: Option<nat>)
      modifies this
      ensures queues == Flooded(old(queues), e, exclude) && queues.Keys == old(queues).Keys
      ensures forall c :: c in queues && exclude != Some(c) ==> queues[c] == old(queues)[c] + [e]
      ensures forall c :: c in queues && exclude == Some(c) ==> queues[c] == old(queues)[c]
    {
      var rest := queues.Keys;
      while rest != {}
        invariant rest <= queues.Keys == old(queues).Keys
        invariant forall c :: c in queues ==>
          queues[c] == if c in rest then old(queues)[c] else Flooded(old(queues), e, exclude)[c]
        decreases rest
      {
        var c :| c in rest;
        rest := rest - {c};
        if exclude != Some(c) {
          queues := queues[c := queues[c] + [e]];
        }
      }
    }

    method OnEvent(e: Event, source: string, conn: nat, now: nat) returns (r: IngestResult)
      requires Valid()
      modifies this, state, state.store, state.dedup
      ensures Valid()
      ensures (state.State(), r) == IngestEvent(state.cfg, old(state.State()), e, source, now)
      ensures queues.Keys == old(queues).Keys
      ensures forall c :: c in queues ==> queues[c] == old(queues)[c] + if r.Reflood? && c != conn then [e] else []
    {
      r := state.Ingest(e, source, now);
      if r.Reflood? {
        Broadcast(e, Some(conn));
      }
    }

    method Publish(e: Event, now: nat) returns (outcome: InsertOutcome)
      requires Valid()
      modifies this, state, state.store, state.dedup
      ensures Valid()
      ensures (state.State(), outcome) == PublishLocal(state.cfg, old(state.State()), e, now)
      ensures queues.Keys == old(queues).Keys
      ensures forall c :: c in queues ==> queues[c] == old(queues)[c] + if ShouldPropagate(outcome) then [e] else []
    {
      outcome := state.Publish(e, now);
      if ShouldPropagate(outcome) {
        Broadcast(e, None);
      }
    }
  }

  function Flooded(queues: map<nat, seq<Event>>, e: Event, exclude: Option<nat>): map<nat, seq<Event>> {
    map c | c in queues :: if exclude == Some(c) then queues[c] else queues[c] + [e]
  }
}
