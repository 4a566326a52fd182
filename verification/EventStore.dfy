/**
 The local replacement store: one event per key, last write wins, a quota per pubkey and a global
 capacity.  `InsertInto` and `Sweep` say what the class methods compute; the theorem at the end says
 what a store holds after any sequence of insertions.
 */
module EventStore {
  import opened Events
  import opened Selection

  datatype StoreConfig = StoreConfig(freshnessWindow: nat, storeMax: nat, maxPerPubkey: nat)

  datatype RejectReason = DuplicateId | NotNewer | Expired | Stale | Malformed
  datatype InsertOutcome = Stored | Replaced | Rejected(reason: RejectReason)

  predicate ShouldPropagate(o: InsertOutcome) {
    o.Stored? || o.Replaced?
  }

  /** Neither expired nor outside the freshness window. */
  predicate Fresh(cfg: StoreConfig, e: Event, now: nat) {
    now <= Expiration(e) && SatSub(now, e.createdAt) <= cfg.freshnessWindow
  }

  predicate LiveFresh(cfg: StoreConfig, e: Event, now: nat) {
    !e.ended && Fresh(cfg, e, now)
  }

  type Entries = map<Key, Event>

  /** Every event is filed under its own key. */
  ghost predicate WellKeyed(m: Entries) {
    forall k :: k in m ==> m[k].d.Some? && KeyOf(m[k]) == k
  }

  ghost predicate StoreInv(m: Entries) {
    WellKeyed(m) && UniqueIds(m.Values)
  }

  function KeepOnly(m: Entries, kept: set<Event>): Entries {
    map k | k in m && m[k] in kept :: m[k]
  }

  function InsertInto(cfg: StoreConfig, m: Entries, e: Event, now: nat): (Entries, InsertOutcome) {
    if e.d.None? then (m, Rejected(Malformed))
    else if exists k :: k in m && m[k].id == e.id then (m, Rejected(DuplicateId))
    else if now > Expiration(e) then (m, Rejected(Expired))
    else if SatSub(now, e.createdAt) > cfg.freshnessWindow then (m, Rejected(Stale))
    else if KeyOf(e) in m then
      if Newer(e, m[KeyOf(e)]) then (m[KeyOf(e) := e], Replaced) else (m, Rejected(NotNewer))
    else (StoreNew(cfg, m, e), Stored)
  }

  /** A new key: add the event, then apply its pubkey's quota, then the capacity. */
  function StoreNew(cfg: StoreConfig, m: Entries, e: Event): Entries
    requires e.d.Some?
  {
    var added := m[KeyOf(e) := e];
    var quota := KeepOnly(added, QuotaFor(cfg.maxPerPubkey, e.pubkey, added.Values));
    KeepOnly(quota, Top(cfg.storeMax, quota.Values))
  }

  function Sweep(cfg: StoreConfig, m: Entries, now: nat): Entries {
    map k | k in m && Fresh(cfg, m[k], now) :: m[k]
  }

  function LiveFreshEvents(cfg: StoreConfig, m: Entries, now: nat): set<Event> {
    set k | k in m && LiveFresh(cfg, m[k], now) :: m[k]
  }

  // ---- Facts about entry maps ----------------------------------------------------------------

  lemma HeldAtKey(m: Entries, e: Event)
    requires WellKeyed(m)
    ensures e in m.Values <==> e.d.Some? && KeyOf(e) in m && m[KeyOf(e)] == e
  {
  }

  lemma ValuesAfterAdding(m: Entries, e: Event)
    requires WellKeyed(m) && e.d.Some?
    ensures WellKeyed(m[KeyOf(e) := e])
    ensures KeyOf(e) !in m ==> m[KeyOf(e) := e].Values == m.Values + {e}
    ensures KeyOf(e) in m ==> m[KeyOf(e) := e].Values == m.Values - {m[KeyOf(e)]} + {e}
  {
    var k, m' := KeyOf(e), m[KeyOf(e) := e];
    forall x ensures x in m'.Values <==> x == e || (x in m.Values && x.d.Some? && KeyOf(x) != k) {
      HeldAtKey(m', x);
      HeldAtKey(m, x);
    }
    if k in m {
      forall x | x in m.Values && x != m[k] ensures x.d.Some? && KeyOf(x) != k {
        HeldAtKey(m, x);
      }
    } else {
      forall x | x in m.Values ensures x.d.Some? && KeyOf(x) != k {
        HeldAtKey(m, x);
      }
    }
  }

  lemma ValuesAfterKeeping(m: Entries, kept: set<Event>)
    requires WellKeyed(m)
    ensures WellKeyed(KeepOnly(m, kept))
    ensures KeepOnly(m, kept).Values == m.Values * kept
  {
    forall x ensures x in KeepOnly(m, kept).Values <==> x in m.Values && x in kept {
      HeldAtKey(m, x);
      HeldAtKey(KeepOnly(m, kept), x);
    }
  }

  lemma ValuesAfterRemoving(m: Entries, k: Key)
    requires WellKeyed(m) && k in m
    ensures WellKeyed(m - {k}) && (m - {k}).Values == m.Values - {m[k]}
  {
    forall x ensures x in (m - {k}).Values <==> x in m.Values && x != m[k] {
      HeldAtKey(m, x);
      HeldAtKey(m - {k}, x);
    }
  }

  lemma SizeOfValues(m: Entries)
    requires WellKeyed(m)
    ensures |m.Values| == |m|
    decreases |m|
  {
    if m != map[] {
      var k :| k in m;
      ValuesAfterRemoving(m, k);
      SizeOfValues(m - {k});
      assert m.Keys == (m - {k}).Keys + {k};
      HeldAtKey(m, m[k]);
    }
  }

  lemma PubkeyCount(m: Entries, p: nat)
    requires WellKeyed(m)
    ensures |set k | k in m && m[k].pubkey == p| == |OfPubkey(m.Values, p)|
  {
    var mine := KeepOnly(m, OfPubkey(m.Values, p));
    ValuesAfterKeeping(m, OfPubkey(m.Values, p));
    SizeOfValues(mine);
    assert mine.Values == OfPubkey(m.Values, p);
    assert mine.Keys == set k | k in m && m[k].pubkey == p;
  }

  lemma EqualValuesEqualEntries(a: Entries, b: Entries)
    requires WellKeyed(a) && WellKeyed(b) && a.Values == b.Values
    ensures a == b
  {
    forall k | k in a ensures k in b && b[k] == a[k] { HeldAtKey(a, a[k]); HeldAtKey(b, a[k]); }
    forall k | k in b ensures k in a && a[k] == b[k] { HeldAtKey(b, b[k]); HeldAtKey(a, b[k]); }
  }

  /** Every insertion keeps the store well keyed and its ids distinct. */
  lemma InsertKeepsInv(cfg: StoreConfig, m: Entries, e: Event, now: nat)
    requires StoreInv(m)
    ensures StoreInv(InsertInto(cfg, m, e, now).0)
  {
    var (m', o) := InsertInto(cfg, m, e, now);
    if ShouldPropagate(o) {
      ValuesAfterAdding(m, e);
      var added := m[KeyOf(e) := e];
      forall x | x in m.Values ensures x.id != e.id { HeldAtKey(m, x); }
      if o.Stored? {
        var quota := KeepOnly(added, QuotaFor(cfg.maxPerPubkey, e.pubkey, added.Values));
        ValuesAfterKeeping(added, QuotaFor(cfg.maxPerPubkey, e.pubkey, added.Values));
        ValuesAfterKeeping(quota, Top(cfg.storeMax, quota.Values));
      }
    }
  }

  lemma SweepKeepsInv(cfg: StoreConfig, m: Entries, now: nat)
    requires StoreInv(m)
    ensures StoreInv(Sweep(cfg, m, now)) && Sweep(cfg, m, now).Values <= m.Values
  {
    forall x | x in Sweep(cfg, m, now).Values ensures x in m.Values { HeldAtKey(m, x); }
  }

  // ---- The store object ----------------------------------------------------------------------

  class Store {
    const cfg: StoreConfig
    var entries: Entries
    /** The ids of the held events, consulted before anything else is decided. */
    var ids: set<nat>

    ghost predicate Valid()
      reads this
    {
      StoreInv(entries) && ids == set e | e in entries.Values :: e.id
    }

    constructor (cfg: StoreConfig)
      ensures Valid() && this.cfg == cfg && entries == map[]
    {
      this.cfg := cfg;
      entries := map[];
      ids := {};
    }

    method Insert(e: Event, now: nat) returns (outcome: InsertOutcome)
      requires Valid()
      modifies this
      ensures Valid()
      ensures (entries, outcome) == InsertInto(cfg, old(entries), e, now)
    {
      InsertKeepsInv(cfg, entries, e, now);
      assert e.id in ids <==> exists k :: k in entries && entries[k].id == e.id by {
        IdsAreHeldIds(e.id);
      }
      if e.d.None? { return Rejected(Malformed); }
      if e.id in ids { return Rejected(DuplicateId); }
      if now > Expiration(e) { return Rejected(Expired); }
      if SatSub(now, e.createdAt) > cfg.freshnessWindow { return Rejected(Stale); }
      var key := KeyOf(e);
      ValuesAfterAdding(entries, e);
      if key in entries {
        if !Newer(e, entries[key]) { return Rejected(NotNewer); }
        HeldAtKey(entries, entries[key]);
        ids := ids - {entries[key].id} + {e.id};
        entries := entries[key := e];
        return Replaced;
      }
      ids := ids + {e.id};
      entries := entries[key := e];
      EnforcePubkeyQuota(e.pubkey);
      EnforceCapacity();
      return Stored;
    }

    lemma IdsAreHeldIds(id: nat)
      requires Valid()
      ensures id in ids <==> exists k :: k in entries && entries[k].id == id
    {
      if id in ids {
        var e :| e in entries.Values && e.id == id;
        HeldAtKey(entries, e);
      }
      if k :| k in entries && entries[k].id == id {
        HeldAtKey(entries, entries[k]);
      }
    }

    method RemoveKey(key: Key)
      requires Valid()
      modifies this
      ensures Valid() && entries == old(entries) - {key}
    {
      if key in entries {
        ValuesAfterRemoving(entries, key);
        HeldAtKey(entries, entries[key]);
        ids := ids - {entries[key].id};
        entries := entries - {key};
      }
    }

    /** The key of the oldest of the given entries: smallest `createdAt`, then smallest id. */
    method OldestAmong(keys: set<Key>) returns (victim: Option<Key>)
      requires Valid() && keys <= entries.Keys
      ensures victim.None? <==> keys == {}
      ensures victim.Some? ==> victim.value in keys
      ensures victim.Some? ==> forall k :: k in keys ==> !Newer(entries[victim.value], entries[k])
    {
      victim := None;
      var rest := keys;
      while rest != {}
        invariant rest <= keys
        invariant victim.None? <==> rest == keys
        invariant victim.Some? ==> victim.value in keys
        invariant victim.Some? ==> forall k :: k in keys - rest ==> !Newer(entries[victim.value], entries[k])
        decreases rest
      {
        var k :| k in rest;
        rest := rest - {k};
        if victim.None? || Newer(entries[victim.value], entries[k]) {
          victim := Some(k);
        }
      }
    }

    method EnforcePubkeyQuota(p: nat)
      requires Valid()
      modifies this
      ensures Valid()
      ensures entries == KeepOnly(old(entries), QuotaFor(cfg.maxPerPubkey, p, old(entries).Values))
    {
      var mine := set k | k in entries && entries[k].pubkey == p;
      while |mine| > cfg.maxPerPubkey
        invariant Valid()
        invariant mine == set k | k in entries && entries[k].pubkey == p
        invariant KeepOnly(entries, QuotaFor(cfg.maxPerPubkey, p, entries.Values))
               == KeepOnly(old(entries), QuotaFor(cfg.maxPerPubkey, p, old(entries).Values))
        decreases |entries|
      {
        var victim := OldestAmong(mine);
        QuotaStep(cfg, entries, p, victim.value);
        assert entries.Keys == (entries - {victim.value}).Keys + {victim.value};
        RemoveKey(victim.value);
        mine := set k | k in entries && entries[k].pubkey == p;
      }
      PubkeyCount(entries, p);
      TopOfFew(cfg.maxPerPubkey, OfPubkey(entries.Values, p));
      assert KeepOnly(entries, QuotaFor(cfg.maxPerPubkey, p, entries.Values)) == entries;
    }

    method EnforceCapacity()
      requires Valid()
      modifies this
      ensures Valid()
      ensures entries == KeepOnly(old(entries), Top(cfg.storeMax, old(entries).Values))
    {
      while |entries| > cfg.storeMax
        invariant Valid()
        invariant KeepOnly(entries, Top(cfg.storeMax, entries.Values))
               == KeepOnly(old(entries), Top(cfg.storeMax, old(entries).Values))
        decreases |entries|
      {
        var victim := OldestAmong(entries.Keys);
        CapacityStep(cfg, entries, victim.value);
        assert entries.Keys == (entries - {victim.value}).Keys + {victim.value};
        RemoveKey(victim.value);
      }
      SizeOfValues(entries);
      TopOfFew(cfg.storeMax, entries.Values);
      assert KeepOnly(entries, Top(cfg.storeMax, entries.Values)) == entries;
    }

    /** Removes what is stale or expired; an ended event stays until then. */
    method SweepStale(now: nat) returns (removed: nat)
      requires Valid()
      modifies this
      ensures Valid() && entries == Sweep(cfg, old(entries), now)
      ensures removed == |old(entries)| - |entries|
    {
      var victims := StaleKeys(cfg, entries, now);
      removed := |victims|;
      while victims != {}
        invariant Valid() && victims == StaleKeys(cfg, entries, now)
        invariant Sweep(cfg, entries, now) == Sweep(cfg, old(entries), now)
        invariant removed - |victims| == |old(entries)| - |entries|
        decreases victims
      {
        var k :| k in victims;
        SweepStep(cfg, entries, now, k);
        RemoveKey(k);
        victims := victims - {k};
      }
      SweepDone(cfg, entries, now);
    }
  }

  function StaleKeys(cfg: StoreConfig, m: Entries, now: nat): set<Key> {
    set k | k in m && !Fresh(cfg, m[k], now)
  }

  lemma SweepStep(cfg: StoreConfig, m: Entries, now: nat, k: Key)
    requires k in StaleKeys(cfg, m, now)
    ensures Sweep(cfg, m - {k}, now) == Sweep(cfg, m, now)
    ensures StaleKeys(cfg, m - {k}, now) == StaleKeys(cfg, m, now) - {k}
    ensures |m - {k}| == |m| - 1
  {
    assert m.Keys == (m - {k}).Keys + {k};
  }

  lemma SweepDone(cfg: StoreConfig, m: Entries, now: nat)
    requires StaleKeys(cfg, m, now) == {}
    ensures Sweep(cfg, m, now) == m
  {
    forall k | k in m ensures Fresh(cfg, m[k], now) {
      assert k !in StaleKeys(cfg, m, now);
    }
  }

  lemma QuotaStep(cfg: StoreConfig, m: Entries, p: nat, k: Key)
    requires StoreInv(m) && k in m && m[k].pubkey == p
    requires |set j | j in m && m[j].pubkey == p| > cfg.maxPerPubkey
    requires forall j :: j in m && m[j].pubkey == p ==> !Newer(m[k], m[j])
    ensures KeepOnly(m - {k}, QuotaFor(cfg.maxPerPubkey, p, (m - {k}).Values))
         == KeepOnly(m, QuotaFor(cfg.maxPerPubkey, p, m.Values))
  {
    var q, v := cfg.maxPerPubkey, m[k];
    var mine := OfPubkey(m.Values, p);
    PubkeyCount(m, p);
    ValuesAfterRemoving(m, k);
    HeldAtKey(m, v);
    forall x | x in mine ensures !Newer(v, x) { HeldAtKey(m, x); }
    TopWithoutOldest(q, mine, v);
    assert OfPubkey((m - {k}).Values, p) == mine - {v};
    assert v !in Top(q, mine - {v});
  }

  lemma CapacityStep(cfg: StoreConfig, m: Entries, k: Key)
    requires StoreInv(m) && k in m && |m| > cfg.storeMax
    requires forall j :: j in m ==> !Newer(m[k], m[j])
    ensures KeepOnly(m - {k}, Top(cfg.storeMax, (m - {k}).Values))
         == KeepOnly(m, Top(cfg.storeMax, m.Values))
  {
    SizeOfValues(m);
    ValuesAfterRemoving(m, k);
    HeldAtKey(m, m[k]);
    forall x | x in m.Values ensures !Newer(m[k], x) { HeldAtKey(m, x); }
    TopWithoutOldest(cfg.storeMax, m.Values, m[k]);
    assert m[k] !in Top(cfg.storeMax, m.Values - {m[k]});
  }

  // ---- What a bounded store holds ------------------------------------------------------------

  ghost function Elements(offers: seq<Event>): set<Event> {
    set e | e in offers
  }

  /** The events of `s` that last-write-wins keeps: none of the same key is newer. */
  ghost function Winners(s: set<Event>): set<Event> {
    set e | e in s && e.d.Some? && forall f :: f in s && f.d.Some? && KeyOf(f) == KeyOf(e) ==> !Newer(f, e)
  }

  ghost function Eligible(cfg: StoreConfig, s: set<Event>, now: nat): set<Event> {
    set e | e in s && e.d.Some? && Fresh(cfg, e, now)
  }

  ghost function InsertAll(cfg: StoreConfig, offers: seq<Event>, now: nat): Entries {
    if offers == [] then map[]
    else InsertInto(cfg, InsertAll(cfg, offers[..|offers| - 1], now), offers[|offers| - 1], now).0
  }

  ghost function StoreSpec(cfg: StoreConfig, s: set<Event>, now: nat): set<Event> {
    Bounded(cfg.maxPerPubkey, cfg.storeMax, Winners(Eligible(cfg, s, now)))
  }

  lemma WinnerOfKey(s: set<Event>, k: Key) returns (w: Event)
    requires UniqueIds(s)
    requires exists e :: e in s && e.d.Some? && KeyOf(e) == k
    ensures w in Winners(s) && KeyOf(w) == k
    ensures forall e :: e in s && e.d.Some? && KeyOf(e) == k ==> e == w || Newer(w, e)
    decreases |s|
  {
    var e :| e in s && e.d.Some? && KeyOf(e) == k;
    if x :| x in s - {e} && x.d.Some? && KeyOf(x) == k {
      w := WinnerOfKey(s - {e}, k);
      if Newer(e, w) { w := e; }
    } else {
      w := e;
    }
  }

  lemma WinnersUnique(s: set<Event>, a: Event, b: Event)
    requires UniqueIds(s) && a in Winners(s) && b in Winners(s) && KeyOf(a) == KeyOf(b)
    ensures a == b
  {
  }

  lemma WinnersWithNewcomer(s: set<Event>, e: Event)
    requires UniqueIds(s + {e}) && e.d.Some?
    requires forall f :: f in s ==> f.d.Some?
    ensures (forall f :: f in s ==> KeyOf(f) != KeyOf(e)) ==> Winners(s + {e}) == Winners(s) + {e}
    ensures forall w :: w in Winners(s) && KeyOf(w) == KeyOf(e) ==>
              Winners(s + {e}) == if Newer(e, w) then Winners(s) - {w} + {e} else Winners(s)
  {
    forall w | w in Winners(s) && KeyOf(w) == KeyOf(e)
      ensures Winners(s + {e}) == if Newer(e, w) then Winners(s) - {w} + {e} else Winners(s)
    {
      assert forall f :: f in s && KeyOf(f) == KeyOf(w) ==> f == w || Newer(w, f);
    }
  }

  /** One insertion into a store that meets its specification makes it meet the next one. */
  lemma InsertMeetsSpec(cfg: StoreConfig, m: Entries, s: set<Event>, e: Event, now: nat)
    requires StoreInv(m) && UniqueIds(s + {e})
    requires m.Values == StoreSpec(cfg, s, now)
    ensures InsertInto(cfg, m, e, now).0.Values == StoreSpec(cfg, s + {e}, now)
  {
    var elig := Eligible(cfg, s, now);
    if e.d.None? || !Fresh(cfg, e, now) {
      assert Eligible(cfg, s + {e}, now) == elig;
    } else {
      assert Eligible(cfg, s + {e}, now) == elig + {e};
      if exists j :: j in m && m[j].id == e.id {
        var j :| j in m && m[j].id == e.id;
        HeldAtKey(m, m[j]);
        assert e == m[j] && elig + {e} == elig;
      } else if KeyOf(e) in m {
        KnownKeyMeetsSpec(cfg, m, elig, e);
      } else {
        NewKeyMeetsSpec(cfg, m, elig, e);
      }
    }
  }

  lemma KnownKeyMeetsSpec(cfg: StoreConfig, m: Entries, elig: set<Event>, e: Event)
    requires StoreInv(m) && UniqueIds(elig + {e}) && e.d.Some? && KeyOf(e) in m
    requires forall f :: f in elig ==> f.d.Some?
    requires m.Values == Bounded(cfg.maxPerPubkey, cfg.storeMax, Winners(elig))
    ensures Bounded(cfg.maxPerPubkey, cfg.storeMax, Winners(elig + {e}))
         == (if Newer(e, m[KeyOf(e)]) then m[KeyOf(e) := e] else m).Values
  {
    var prev := m[KeyOf(e)];
    HeldAtKey(m, prev);
    WinnersWithNewcomer(elig, e);
    if Newer(e, prev) {
      ValuesAfterAdding(m, e);
      ReplaceKept(cfg.maxPerPubkey, cfg.storeMax, Winners(elig), prev, e);
    }
  }

  lemma NewKeyMeetsSpec(cfg: StoreConfig, m: Entries, elig: set<Event>, e: Event)
    requires StoreInv(m) && UniqueIds(elig + {e}) && e.d.Some? && KeyOf(e) !in m
    requires forall f :: f in elig ==> f.d.Some?
    requires m.Values == Bounded(cfg.maxPerPubkey, cfg.storeMax, Winners(elig))
    ensures Bounded(cfg.maxPerPubkey, cfg.storeMax, Winners(elig + {e})) == StoreNew(cfg, m, e).Values
  {
    StoredValues(cfg, m, Winners(elig), e);
    WinnersWithNewcomer(elig, e);
    if exists f :: f in elig && KeyOf(f) == KeyOf(e) {
      var prev := WinnerOfKey(elig, KeyOf(e));
      HeldAtKey(m, prev);
      LateComer(cfg.maxPerPubkey, cfg.storeMax, Winners(elig), prev, e);
    }
  }

  lemma StoreNewValues(cfg: StoreConfig, m: Entries, e: Event)
    requires WellKeyed(m) && e.d.Some? && KeyOf(e) !in m
    ensures WellKeyed(StoreNew(cfg, m, e))
    ensures StoreNew(cfg, m, e).Values == Top(cfg.storeMax, QuotaFor(cfg.maxPerPubkey, e.pubkey, m.Values + {e}))
  {
    var added := m[KeyOf(e) := e];
    ValuesAfterAdding(m, e);
    var within := QuotaFor(cfg.maxPerPubkey, e.pubkey, added.Values);
    ValuesAfterKeeping(added, within);
    assert added.Values * within == within;
    ValuesAfterKeeping(KeepOnly(added, within), Top(cfg.storeMax, within));
    assert within * Top(cfg.storeMax, within) == Top(cfg.storeMax, within);
  }

  lemma StoredValues(cfg: StoreConfig, m: Entries, w: set<Event>, e: Event)
    requires WellKeyed(m) && UniqueIds(w + {e}) && e.d.Some? && KeyOf(e) !in m
    requires m.Values == Bounded(cfg.maxPerPubkey, cfg.storeMax, w)
    ensures StoreNew(cfg, m, e).Values == Bounded(cfg.maxPerPubkey, cfg.storeMax, w + {e})
  {
    StoreNewValues(cfg, m, e);
    OneQuotaIsEnough(cfg.maxPerPubkey, cfg.storeMax, w, e);
    PathIndependence(cfg.maxPerPubkey, cfg.storeMax, w, e);
  }

  /** A key whose winner was evicted: a newcomer takes the winner's place, an older event none. */
  lemma LateComer(q: nat, n: nat, w: set<Event>, prev: Event, e: Event)
    requires UniqueIds(w + {e}) && prev in w && prev !in Bounded(q, n, w)
    requires prev.pubkey == e.pubkey
    ensures Newer(e, prev) ==> Bounded(q, n, w - {prev} + {e}) == Bounded(q, n, w + {e})
    ensures !Newer(e, prev) ==> Bounded(q, n, w) == Bounded(q, n, w + {e})
  {
    if prev in Bounded(q, n, w + {e}) {
      Heritage(q, n, w, e, prev);
    }
    if Newer(e, prev) {
      Outcast(q, n, w + {e}, prev);
      assert w + {e} - {prev} == w - {prev} + {e};
    } else if e != prev && e !in w {
      var all := w + {e};
      if e in Bounded(q, n, all) {
        RankStrict(OfPubkey(all, e.pubkey), prev, e);
        RankStrict(QuotaSelect(q, all), prev, e);
      }
      Outcast(q, n, all, e);
      assert all - {e} == w;
    } else {
      assert w + {e} == w;
    }
  }

  /**
   At a fixed clock, any insertions in any order and with any repeats leave exactly the newest
   `storeMax` of the newest `maxPerPubkey` per pubkey of the last-write-wins winners.
   */
  lemma {:induction false} BoundedStore(cfg: StoreConfig, offers: seq<Event>, now: nat)
    requires UniqueIds(Elements(offers))
    ensures StoreInv(InsertAll(cfg, offers, now))
    ensures InsertAll(cfg, offers, now).Values == StoreSpec(cfg, Elements(offers), now)
  {
    if offers != [] {
      var init, e := offers[..|offers| - 1], offers[|offers| - 1];
      assert Elements(offers) == Elements(init) + {e};
      BoundedStore(cfg, init, now);
      InsertMeetsSpec(cfg, InsertAll(cfg, init, now), Elements(init), e, now);
      InsertKeepsInv(cfg, InsertAll(cfg, init, now), e, now);
    }
  }

  /** Hence the order and the repeats do not matter. */
  lemma BoundedStoreOrderFree(cfg: StoreConfig, a: seq<Event>, b: seq<Event>, now: nat)
    requires UniqueIds(Elements(a)) && Elements(a) == Elements(b)
    ensures InsertAll(cfg, a, now) == InsertAll(cfg, b, now)
  {
    BoundedStore(cfg, a, now);
    BoundedStore(cfg, b, now);
    EqualValuesEqualEntries(InsertAll(cfg, a, now), InsertAll(cfg, b, now));
  }

  /** Last write wins: of two events of a key the later stays, and of two equally old ones that with the larger id. */
  lemma LaterThenLargerIdWins(cfg: StoreConfig, e: Event, f: Event, now: nat)
    requires e.d.Some? && f.d.Some? && KeyOf(e) == KeyOf(f) && e.id != f.id && Fresh(cfg, e, now) && Fresh(cfg, f, now)
    requires e.createdAt < f.createdAt || (e.createdAt == f.createdAt && e.id < f.id)
    requires cfg.storeMax > 0 && cfg.maxPerPubkey > 0
    ensures InsertAll(cfg, [e, f], now) == InsertAll(cfg, [f, e], now) == map[KeyOf(f) := f]
  {
    assert Elements([e, f]) == {e, f} && Elements([f, e]) == {e, f};
    BoundedStore(cfg, [e, f], now);
    BoundedStoreOrderFree(cfg, [e, f], [f, e], now);
    WinnerOfTwo(cfg, e, f, now);
    KeepsOne(cfg.maxPerPubkey, cfg.storeMax, f);
    OneHeld(InsertAll(cfg, [e, f], now), f);
  }

  lemma WinnerOfTwo(cfg: StoreConfig, e: Event, f: Event, now: nat)
    requires e.d.Some? && f.d.Some? && KeyOf(e) == KeyOf(f) && Fresh(cfg, e, now) && Fresh(cfg, f, now)
    requires e.createdAt < f.createdAt || (e.createdAt == f.createdAt && e.id < f.id)
    ensures Winners(Eligible(cfg, {e, f}, now)) == {f}
  {
    assert Eligible(cfg, {e, f}, now) == {e, f};
  }

  lemma OneHeld(m: Entries, f: Event)
    requires StoreInv(m) && f.d.Some? && m.Values == {f}
    ensures m == map[KeyOf(f) := f]
  {
    var one: Entries := map[KeyOf(f) := f];
    assert one[KeyOf(f)] in one.Values && one.Values == {f};
    EqualValuesEqualEntries(m, one);
  }

  lemma KeepsOne(q: nat, n: nat, f: Event)
    requires q > 0 && n > 0
    ensures Bounded(q, n, {f}) == {f}
  {
    TopOfFew(q, {f});
    assert OfPubkey({f}, f.pubkey) == {f};
    assert QuotaSelect(q, {f}) == {f};
    TopOfFew(n, {f});
  }

  /** Why an event is not stored: no `d`, an id held already, over, too old, or not newer, in this order. */
  lemma ReasonsInOrder(cfg: StoreConfig, m: Entries, e: Event, now: nat)
    ensures
      var (m', o) := InsertInto(cfg, m, e, now);
      var held := exists k :: k in m && m[k].id == e.id;
      && (o == Rejected(Malformed) <==> e.d.None?)
      && (o == Rejected(DuplicateId) <==> e.d.Some? && held)
      && (o == Rejected(Expired) <==> e.d.Some? && !held && now > Expiration(e))
      && (o == Rejected(Stale) <==> e.d.Some? && !held && now <= Expiration(e) && now > e.createdAt + cfg.freshnessWindow)
      && (o == Rejected(NotNewer) <==> e.d.Some? && !held && Fresh(cfg, e, now) && KeyOf(e) in m && !Newer(e, m[KeyOf(e)]))
      && (o.Rejected? ==> m' == m)
  {
  }
}
