/** Flooding dies out: with no new publishes or SYNCs, deliveries use up a finite budget. */
module Quiescence {
  import opened Events
  import opened EventStore
  import opened Ingest
  import opened GossipNetwork

  /** A transmission that is still possible: a link whose sender has not seen the id yet. */
  datatype Slot = Slot(from: Node, to: Node, id: nat)

  ghost function Remembered(top: Topology, s: Net, n: Node, now: nat): Seen
    requires n in top.cfgs && n in s.nodes
  {
    Purge(s.nodes[n].seen, now, Retention(top.cfgs[n].store))
  }

  ghost function Budget(top: Topology, ids: set<nat>, s: Net, now: nat): set<Slot> {
    set l, id | l in top.links && id in ids && l.0 in top.cfgs && l.0 in s.nodes && id !in Remembered(top, s, l.0, now)
      :: Slot(l.0, l.1, id)
  }

  ghost function AllSlots(links: set<(Node, Node)>, ids: set<nat>): set<Slot> {
    set l, id | l in links && id in ids :: Slot(l.0, l.1, id)
  }

  ghost predicate IdsCover(ids: set<nat>, s: Net) {
    forall msg :: msg in s.flight ==> msg.event.id in ids
  }

  lemma InSlots(links: set<(Node, Node)>, ids: set<nat>, x: Slot)
    ensures x in AllSlots(links, ids) <==> (x.from, x.to) in links && x.id in ids
  {
  }

  lemma SlotsSplit(links: set<(Node, Node)>, ids: set<nat>, id: nat)
    requires id in ids
    ensures |AllSlots(links, ids)| == |AllSlots(links, ids - {id})| + |AllSlots(links, {id})|
  {
    var a, b := AllSlots(links, ids - {id}), AllSlots(links, {id});
    forall x ensures x in AllSlots(links, ids) <==> x in a || x in b {
      InSlots(links, ids, x);
      InSlots(links, ids - {id}, x);
      InSlots(links, {id}, x);
    }
    assert AllSlots(links, ids) == a + b && a !! b;
  }

  lemma SlotCount(links: set<(Node, Node)>, ids: set<nat>)
    ensures |AllSlots(links, ids)| == |links| * |ids|
    decreases |ids|
  {
    if ids == {} {
      assert AllSlots(links, ids) == {};
    } else {
      var id :| id in ids;
      SlotCount(links, ids - {id});
      SlotsOfOneId(links, id);
      SlotsSplit(links, ids, id);
      assert |links| * |ids| == |links| * |ids - {id}| + |links|;
    }
  }

  lemma SlotsOfOneId(links: set<(Node, Node)>, id: nat)
    ensures |AllSlots(links, {id})| == |links|
    decreases |links|
  {
    if links == {} {
      assert AllSlots(links, {id}) == {};
    } else {
      var l :| l in links;
      SlotsOfOneId(links - {l}, id);
      assert AllSlots(links, {id}) == AllSlots(links - {l}, {id}) + {Slot(l.0, l.1, id)};
      assert Slot(l.0, l.1, id) !in AllSlots(links - {l}, {id});
    }
  }

  lemma FloodSize(top: Topology, n: Node, e: Event, except: Option<Node>)
    ensures |Flood(top, n, e, except)| <= |AllSlots(set l | l in top.links && l.0 == n, {e.id})|
  {
    var msgs := set m | m in Peers(top, n) && Some(m) != except :: Msg(n, m, e);
    var slots := AllSlots(set l | l in top.links && l.0 == n, {e.id});
    forall msg | msg in msgs ensures Slot(msg.from, msg.to, msg.event.id) in slots {
      assert (n, msg.to) in top.links;
    }
    Injection(msgs, slots, n, e);
  }

  lemma Injection(msgs: set<Msg>, slots: set<Slot>, n: Node, e: Event)
    requires forall msg :: msg in msgs ==> msg.from == n && msg.event == e
    requires forall msg :: msg in msgs ==> Slot(msg.from, msg.to, msg.event.id) in slots
    ensures |msgs| <= |slots|
    decreases |msgs|
  {
    if msgs != {} {
      var msg :| msg in msgs;
      Injection(msgs - {msg}, slots - {Slot(msg.from, msg.to, msg.event.id)}, n, e);
    }
  }

  lemma PurgeTwice(seen: Seen, now: nat, retention: nat, id: nat)
    ensures Purge(Purge(seen, now, retention), now, retention) == Purge(seen, now, retention)
    ensures Purge(Purge(seen, now, retention)[id := now], now, retention) == Purge(seen, now, retention)[id := now]
  {
  }

  /** After a delivery the node remembers the id if it floods, and forgets nothing. */
  lemma MemoryAfterIngest(cfg: NodeConfig, st: NodeState, e: Event, now: nat)
    ensures
      var (st', r) := IngestEvent(cfg, st, e, "peer", now);
      var ret := Retention(cfg.store);
      var before, after := Purge(st.seen, now, ret), Purge(st'.seen, now, ret);
      && before.Keys <= after.Keys
      && (r.Reflood? ==> e.id !in before && e.id in after)
  {
    PurgeTwice(st.seen, now, Retention(cfg.store), e.id);
  }

  lemma InBudget(top: Topology, ids: set<nat>, s: Net, now: nat, x: Slot)
    ensures x in Budget(top, ids, s, now) <==>
            && (x.from, x.to) in top.links && x.id in ids && x.from in top.cfgs && x.from in s.nodes
            && x.id !in Remembered(top, s, x.from, now)
  {
  }

  /** The delivery's node forgets nothing, and remembers the id if it floods. */
  ghost predicate MemoryGrows(top: Topology, s: Net, msg: Msg, st: NodeState, reflood: bool, now: nat)
    requires msg.to in top.cfgs && msg.to in s.nodes
  {
    var before, after := Remembered(top, s, msg.to, now), Purge(st.seen, now, Retention(top.cfgs[msg.to].store));
    before.Keys <= after.Keys && (reflood ==> msg.event.id !in before && msg.event.id in after)
  }

  lemma BudgetAfter(top: Topology, ids: set<nat>, s: Net, msg: Msg, st: NodeState, reflood: bool, now: nat, x: Slot)
    requires msg.to in top.cfgs && msg.to in s.nodes && MemoryGrows(top, s, msg, st, reflood, now)
    ensures
      var b' := Budget(top, ids, Delivered(top, s, msg, st, reflood), now);
      && (x in b' ==> x in Budget(top, ids, s, now))
      && (reflood && x.from == msg.to && x.id == msg.event.id ==> x !in b')
  {
    InBudget(top, ids, s, now, x);
    InBudget(top, ids, Delivered(top, s, msg, st, reflood), now, x);
  }

  lemma BudgetSpent(top: Topology, ids: set<nat>, s: Net, msg: Msg, st: NodeState, reflood: bool, now: nat)
    requires msg.to in top.cfgs && msg.to in s.nodes && MemoryGrows(top, s, msg, st, reflood, now)
    requires msg.event.id in ids
    ensures
      var spent := if reflood then AllSlots(set l | l in top.links && l.0 == msg.to, {msg.event.id}) else {};
      |Budget(top, ids, Delivered(top, s, msg, st, reflood), now)| + |spent| <= |Budget(top, ids, s, now)|
  {
    var b, b' := Budget(top, ids, s, now), Budget(top, ids, Delivered(top, s, msg, st, reflood), now);
    var out := set l | l in top.links && l.0 == msg.to;
    var spent := if reflood then AllSlots(out, {msg.event.id}) else {};
    forall x ensures (x in b' ==> x in b) && (x in spent ==> x in b && x !in b') {
      BudgetAfter(top, ids, s, msg, st, reflood, now, x);
      InSlots(out, {msg.event.id}, x);
      InBudget(top, ids, s, now, x);
    }
    SubsetSize(b' + spent, b);
  }

  lemma DeliveryUsesBudget(top: Topology, ids: set<nat>, s: Net, msg: Msg, now: nat)
    requires IdsCover(ids, s) && Enabled(top, s, Deliver(msg, now))
    ensures IdsCover(ids, Apply(top, s, Deliver(msg, now)))
    ensures
      var s' := Apply(top, s, Deliver(msg, now));
      |s'.flight| + |Budget(top, ids, s', now)| < |s.flight| + |Budget(top, ids, s, now)|
  {
    var cfg, st := top.cfgs[msg.to], s.nodes[msg.to];
    MemoryAfterIngest(cfg, st, msg.event, now);
    var r := IngestEvent(cfg, st, msg.event, "peer", now);
    BudgetSpent(top, ids, s, msg, r.0, r.1.Reflood?, now);
    FloodSize(top, msg.to, msg.event, Some(msg.from));
    assert Apply(top, s, Deliver(msg, now)) == Delivered(top, s, msg, r.0, r.1.Reflood?);
    forall m | m in Apply(top, s, Deliver(msg, now)).flight ensures m.event.id in ids {
      InFlood(top, msg.to, msg.event, Some(msg.from), m);
    }
  }

  ghost function DeliverAll(top: Topology, s: Net, msgs: seq<Msg>, now: nat): Net
    decreases |msgs|
  {
    if msgs == [] then s else DeliverAll(top, Apply(top, s, Deliver(msgs[0], now)), msgs[1..], now)
  }

  /** Each message of the list is in flight when its turn comes. */
  ghost predicate AllEnabled(top: Topology, s: Net, msgs: seq<Msg>, now: nat)
    decreases |msgs|
  {
    msgs == [] ||
    (Enabled(top, s, Deliver(msgs[0], now)) && AllEnabled(top, Apply(top, s, Deliver(msgs[0], now)), msgs[1..], now))
  }

  lemma {:induction false} DeliveriesUseBudget(top: Topology, ids: set<nat>, s: Net, msgs: seq<Msg>, now: nat)
    requires IdsCover(ids, s) && AllEnabled(top, s, msgs, now)
    ensures
      var s' := DeliverAll(top, s, msgs, now);
      |msgs| + |s'.flight| + |Budget(top, ids, s', now)| <= |s.flight| + |Budget(top, ids, s, now)|
    decreases |msgs|
  {
    if msgs != [] {
      DeliveryUsesBudget(top, ids, s, msgs[0], now);
      DeliveriesUseBudget(top, ids, Apply(top, s, Deliver(msgs[0], now)), msgs[1..], now);
    }
  }

  /**
   From any state whatsoever, at an unchanged clock: however deliveries are scheduled, the messages
   sent while flooding on (those now in flight plus those delivered, less those in flight at the
   start) number at most the event ids in flight times the directed links.  So a schedule of
   deliveries cannot go on longer than that, and one that stops only when nothing is in flight ends.
   */
  lemma FloodingTerminates(top: Topology, s: Net, ids: set<nat>, msgs: seq<Msg>, now: nat)
    requires IdsCover(ids, s) && AllEnabled(top, s, msgs, now)
    ensures |msgs| + |DeliverAll(top, s, msgs, now).flight| <= |s.flight| + |top.links| * |ids|
  {
    DeliveriesUseBudget(top, ids, s, msgs, now);
    SlotCount(top.links, ids);
    SubsetSize(Budget(top, ids, s, now), AllSlots(top.links, ids));
  }

  /** Some schedule does reach silence: while anything is in flight, a delivery is enabled. */
  lemma ReachesSilence(top: Topology, s: Net, ids: set<nat>, now: nat) returns (msgs: seq<Msg>)
    requires IdsCover(ids, s)
    requires s.nodes.Keys == top.cfgs.Keys
    requires ValidTopology(top) && forall msg :: msg in s.flight ==> msg.to in top.cfgs
    ensures AllEnabled(top, s, msgs, now) && DeliverAll(top, s, msgs, now).flight == multiset{}
    decreases |s.flight| + |Budget(top, ids, s, now)|
  {
    if s.flight == multiset{} {
      msgs := [];
    } else {
      var msg :| msg in s.flight;
      DeliveryUsesBudget(top, ids, s, msg, now);
      var s' := Apply(top, s, Deliver(msg, now));
      forall m | m in s'.flight ensures m.to in top.cfgs {
        InFlood(top, msg.to, msg.event, Some(msg.from), m);
      }
      assert s'.nodes.Keys == s.nodes.Keys;
      var rest := ReachesSilence(top, s', ids, now);
      msgs := [msg] + rest;
      assert msgs[1..] == rest;
    }
  }
}
