/** Insertions that evict nothing: each is a plain last-write-wins merge. */
module Merging {
  import opened Events
  import opened Selection
  import opened EventStore

  /** If the event is stored under a new key, neither the quota nor the capacity takes anything away. */
  ghost predicate Unevicted(cfg: StoreConfig, m: Entries, e: Event, now: nat) {
    InsertInto(cfg, m, e, now).1.Stored? ==> e.d.Some? && InsertInto(cfg, m, e, now).0 == m[KeyOf(e) := e]
  }

  /** The limits leave room for all the keys of `all` at once. */
  ghost predicate Room(cfg: StoreConfig, all: set<Event>) {
    |Keys(all)| <= cfg.storeMax && forall p :: |Keys(OfPubkey(all, p))| <= cfg.maxPerPubkey
  }

  ghost function Keys(all: set<Event>): set<Key> {
    set e | e in all && e.d.Some? :: KeyOf(e)
  }

  ghost predicate Covers(m: Entries, e: Event) {
    e.d.Some? && KeyOf(e) in m && !Newer(e, m[KeyOf(e)])
  }

  ghost predicate SameKeyNotOlder(a: Event, b: Event) {
    a.d.Some? && b.d.Some? && KeyOf(a) == KeyOf(b) && !Newer(b, a)
  }

  ghost function Merge(m: Entries, e: Event): Entries
    requires e.d.Some?
  {
    if Covers(m, e) then m else m[KeyOf(e) := e]
  }

  lemma FewEnough(cfg: StoreConfig, m: Entries, all: set<Event>, p: nat)
    requires WellKeyed(m) && m.Values <= all && Room(cfg, all)
    ensures |m.Values| <= cfg.storeMax && |OfPubkey(m.Values, p)| <= cfg.maxPerPubkey
  {
    var mine := set k | k in m && m[k].pubkey == p;
    forall k | k in m ensures m[k] in all { HeldAtKey(m, m[k]); }
    forall k | k in m ensures k in Keys(all) { assert m[k] in all; }
    forall k | k in mine ensures k in Keys(OfPubkey(all, p)) { assert m[k] in OfPubkey(all, p); }
    SizeOfValues(m);
    SubsetSize(m.Keys, Keys(all));
    PubkeyCount(m, p);
    SubsetSize(mine, Keys(OfPubkey(all, p)));
  }

  lemma NothingEvicted(cfg: StoreConfig, m: Entries, all: set<Event>, e: Event)
    requires StoreInv(m) && m.Values <= all && Room(cfg, all)
    requires e in all && e.d.Some? && KeyOf(e) !in m
    ensures StoreNew(cfg, m, e) == m[KeyOf(e) := e]
  {
    var added := m[KeyOf(e) := e];
    ValuesAfterAdding(m, e);
    FewEnough(cfg, added, all, e.pubkey);
    StoreNewValues(cfg, m, e);
    TopOfFew(cfg.maxPerPubkey, OfPubkey(added.Values, e.pubkey));
    TopOfFew(cfg.storeMax, added.Values);
    assert QuotaFor(cfg.maxPerPubkey, e.pubkey, added.Values) == added.Values;
    EqualValuesEqualEntries(StoreNew(cfg, m, e), added);
  }

  /** With room for all events ever inserted, nothing is evicted. */
  lemma RoomEvictsNothing(cfg: StoreConfig, m: Entries, all: set<Event>, e: Event, now: nat)
    requires StoreInv(m) && m.Values <= all && e in all && Room(cfg, all)
    ensures Unevicted(cfg, m, e, now)
  {
    if e.d.Some? && KeyOf(e) !in m {
      NothingEvicted(cfg, m, all, e);
    }
  }

  lemma FirstIsHeld(cfg: StoreConfig, e: Event, now: nat)
    requires e.d.Some? && Fresh(cfg, e, now) && cfg.storeMax > 0 && cfg.maxPerPubkey > 0
    ensures InsertInto(cfg, map[], e, now).0 == map[KeyOf(e) := e]
  {
    var m: Entries := map[];
    var all := {e};
    assert Keys(all) == {KeyOf(e)};
    forall p ensures |Keys(OfPubkey(all, p))| <= cfg.maxPerPubkey { SubsetSize(Keys(OfPubkey(all, p)), {KeyOf(e)}); }
    NothingEvicted(cfg, m, all, e);
  }

  lemma NoRoomEvicts(cfg: StoreConfig, e: Event)
    requires (cfg.storeMax == 0 || cfg.maxPerPubkey == 0) && e.d.Some?
    ensures StoreNew(cfg, map[], e) == map[]
  {
    var m: Entries := map[];
    var m' := StoreNew(cfg, m, e);
    StoreNewValues(cfg, m, e);
    assert m.Values + {e} == {e};
    SizeOfValues(m');
  }

  lemma InsertMerges(cfg: StoreConfig, m: Entries, e: Event, now: nat)
    requires StoreInv(m) && UniqueIds(m.Values + {e}) && Unevicted(cfg, m, e, now)
    requires e.d.Some? && Fresh(cfg, e, now)
    ensures InsertInto(cfg, m, e, now).0 == Merge(m, e)
    ensures ShouldPropagate(InsertInto(cfg, m, e, now).1) <==> !Covers(m, e)
    ensures StoreInv(Merge(m, e)) && Merge(m, e).Values <= m.Values + {e}
  {
    InsertKeepsInv(cfg, m, e, now);
    ValuesAfterAdding(m, e);
    if j :| j in m && m[j].id == e.id {
      HeldAtKey(m, m[j]);
      assert m[j] == e;
    }
  }

  lemma MergeCovers(m: Entries, e: Event)
    requires e.d.Some?
    ensures Covers(Merge(m, e), e)
    ensures forall x :: Covers(m, x) ==> Covers(Merge(m, e), x)
  {
  }
}
