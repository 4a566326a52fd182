/** Where a listed channel came from: what the viewer is told is the peer that brought the event held. */
module Sources {
  import opened Events
  import opened EventStore
  import opened Ingest
  import opened Propagation

  /** The last event stored under the key in the run, and from whom: one peer, or nobody for an own event. */
  ghost function LastStored(cfg: NodeConfig, ops: seq<Op>, k: Key): Option<(Event, seq<string>)> {
    if ops == [] then None
    else
      var before := ops[..|ops| - 1];
      var st := After(cfg, before);
      match ops[|ops| - 1]
      case Receive(e, source, now) =>
        if e.d.Some? && KeyOf(e) == k && IngestEvent(cfg, st, e, source, now).1.Reflood? then Some((e, [source]))
        else LastStored(cfg, before, k)
      case Local(e, now) =>
        if e.d.Some? && KeyOf(e) == k && ShouldPropagate(PublishLocal(cfg, st, e, now).1) then Some((e, []))
        else LastStored(cfg, before, k)
      case Maintain(_) => LastStored(cfg, before, k)
  }

  /** What is held under a key is what was stored there last, and unless it is an ended event its source is known. */
  ghost predicate Told(st: NodeState, k: Key, last: Option<(Event, seq<string>)>) {
    k in st.entries ==>
      && last.Some? && st.entries[k] == last.value.0
      && (!st.entries[k].ended ==> k in st.sources && st.sources[k] == last.value.1)
  }

  /** An insertion changes what is held under no key but the event's own, though it may take it away. */
  lemma InsertAtOwnKey(cfg: StoreConfig, m: Entries, e: Event, now: nat, k: Key)
    ensures
      var (m', o) := InsertInto(cfg, m, e, now);
      && (ShouldPropagate(o) ==> e.d.Some?)
      && (k in m' ==> if ShouldPropagate(o) && KeyOf(e) == k then m'[k] == e else k in m && m'[k] == m[k])
  {
  }

  lemma ReceiveTells(cfg: NodeConfig, st: NodeState, e: Event, source: string, now: nat, k: Key, last: Option<(Event, seq<string>)>)
    requires Told(st, k, last)
    ensures
      var (st', r) := IngestEvent(cfg, st, e, source, now);
      Told(st', k, if e.d.Some? && KeyOf(e) == k && r.Reflood? then Some((e, [source])) else last)
  {
    InsertAtOwnKey(cfg.store, st.entries, e, now, k);
  }

  lemma LocalTells(cfg: NodeConfig, st: NodeState, e: Event, now: nat, k: Key, last: Option<(Event, seq<string>)>)
    requires Told(st, k, last)
    ensures
      var (st', o) := PublishLocal(cfg, st, e, now);
      Told(st', k, if e.d.Some? && KeyOf(e) == k && ShouldPropagate(o) then Some((e, [])) else last)
  {
    InsertAtOwnKey(cfg.store, st.entries, e, now, k);
  }

  /** Maintenance forgets the sources of what is no longer listed, and of nothing else. */
  lemma MaintainTells(cfg: NodeConfig, st: NodeState, now: nat, k: Key, last: Option<(Event, seq<string>)>)
    requires Told(st, k, last) && StoreInv(st.entries)
    ensures Told(SweepNode(cfg, st, now), k, last)
  {
    SweepKeepsInv(cfg.store, st.entries, now);
    var entries := Sweep(cfg.store, st.entries, now);
    if k in entries && !entries[k].ended {
      HeldAtKey(entries, entries[k]);
      assert entries[k] in LiveFreshEvents(cfg.store, entries, now);
    }
  }

  lemma {:induction false} RunIsStoreInv(cfg: NodeConfig, ops: seq<Op>)
    ensures StoreInv(After(cfg, ops).entries)
  {
    if ops != [] {
      var before := ops[..|ops| - 1];
      RunIsStoreInv(cfg, before);
      match ops[|ops| - 1]
      case Receive(e, _, now) => InsertKeepsInv(cfg.store, After(cfg, before).entries, e, now);
      case Local(e, now) => InsertKeepsInv(cfg.store, After(cfg, before).entries, e, now);
      case Maintain(now) => SweepKeepsInv(cfg.store, After(cfg, before).entries, now);
    }
  }

  /** In any run of a node: a live event's source is the peer it was stored from, or nobody if it is the node's own. */
  lemma {:induction false} SourcesAreTrue(cfg: NodeConfig, ops: seq<Op>, k: Key)
    ensures Told(After(cfg, ops), k, LastStored(cfg, ops, k))
  {
    if ops != [] {
      var before := ops[..|ops| - 1];
      var st, last := After(cfg, before), LastStored(cfg, before, k);
      SourcesAreTrue(cfg, before, k);
      RunIsStoreInv(cfg, before);
      match ops[|ops| - 1]
      case Receive(e, source, now) => ReceiveTells(cfg, st, e, source, now, k, last);
      case Local(e, now) => LocalTells(cfg, st, e, now, k, last);
      case Maintain(now) => MaintainTells(cfg, st, now, k, last);
    }
  }

  /** Sources do not pile up: a sweep that removes something leaves only those of listed channels. */
  lemma OnlyListedSourcesLeft(cfg: NodeConfig, st: NodeState, now: nat, k: Key)
    requires StoreInv(st.entries) && |Sweep(cfg.store, st.entries, now)| < |st.entries|
    requires k in SweepNode(cfg, st, now).sources
    ensures k in st.entries && !st.entries[k].ended && Fresh(cfg.store, st.entries[k], now) && SweepNode(cfg, st, now).sources[k] == st.sources[k]
  {
    var entries := Sweep(cfg.store, st.entries, now);
    SweepKeepsInv(cfg.store, st.entries, now);
    var e :| e in LiveFreshEvents(cfg.store, entries, now) && e.d.Some? && KeyOf(e) == k;
    HeldAtKey(entries, e);
  }
}
