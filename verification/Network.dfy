/**
 The gossip network: any number of nodes, fixed symmetric links, messages in flight as a multiset.
 Every step runs the node functions of module Ingest.
 */
module GossipNetwork {
  import opened Events
  import opened Selection
  import opened EventStore
  import opened Ingest
  import opened Merging

  type Node = nat
  datatype Msg = Msg(from: Node, to: Node, event: Event)
  datatype Topology = Topology(cfgs: map<Node, NodeConfig>, links: set<(Node, Node)>)

  /** `entered` is history: at which node which event was published or came in from outside. */
  datatype Net = Net(nodes: map<Node, NodeState>, flight: multiset<Msg>, entered: set<(Node, Event)>)

  ghost predicate ValidTopology(top: Topology) {
    forall l :: l in top.links ==> l.0 in top.cfgs && l.1 in top.cfgs && (l.1, l.0) in top.links
  }

  function Peers(top: Topology, n: Node): set<Node> {
    set l | l in top.links && l.0 == n :: l.1
  }

  /** One message to every peer except the one the event came from. */
  function Flood(top: Topology, n: Node, e: Event, except: Option<Node>): multiset<Msg> {
    multiset(set m | m in Peers(top, n) && Some(m) != except :: Msg(n, m, e))
  }

  /** `Inject` is an event received over a connection to somebody outside, say a bad peer replaying old events. */
  datatype Step =
    | Publish(node: Node, event: Event, now: nat)
    | Inject(node: Node, event: Event, now: nat)
    | Deliver(msg: Msg, now: nat)
    | Sync(asker: Node, answerer: Node, since: int, now: nat)
    | Maintain(node: Node, now: nat)

  /** A step that is not enabled changes nothing. */
  ghost predicate Enabled(top: Topology, s: Net, step: Step) {
    match step
    case Publish(n, _, _) => n in top.cfgs && n in s.nodes
    case Inject(n, _, _) => n in top.cfgs && n in s.nodes
    case Deliver(msg, _) => msg in s.flight && msg.to in top.cfgs && msg.to in s.nodes
    case Sync(a, b, _, _) => (b, a) in top.links && b in top.cfgs && b in s.nodes
    case Maintain(n, _) => n in top.cfgs && n in s.nodes
  }

  ghost function Apply(top: Topology, s: Net, step: Step): Net {
    if !Enabled(top, s, step) then s
    else
      match step
      case Publish(n, e, now) =>
        var (st, outcome) := PublishLocal(top.cfgs[n], s.nodes[n], e, now);
        Announced(top, s, n, e, st, ShouldPropagate(outcome))
      case Inject(n, e, now) =>
        var (st, r) := IngestEvent(top.cfgs[n], s.nodes[n], e, "peer", now);
        Announced(top, s, n, e, st, r.Reflood?)
      case Deliver(msg, now) =>
        var (st, r) := IngestEvent(top.cfgs[msg.to], s.nodes[msg.to], msg.event, "peer", now);
        Delivered(top, s, msg, st, r.Reflood?)
      case Sync(a, b, since, now) =>
        var events := SyncSet(top.cfgs[b], s.nodes[b].entries, since, now);
        s.(flight := s.flight + multiset(set e | e in events :: Msg(b, a, e)))
      case Maintain(n, now) =>
        s.(nodes := s.nodes[n := SweepNode(top.cfgs[n], s.nodes[n], now)])
  }

  ghost function Announced(top: Topology, s: Net, n: Node, e: Event, st: NodeState, propagate: bool): Net {
    Net(s.nodes[n := st],
        s.flight + (if propagate then Flood(top, n, e, None) else multiset{}),
        s.entered + {(n, e)})
  }

  ghost function Delivered(top: Topology, s: Net, msg: Msg, st: NodeState, reflood: bool): Net {
    Net(s.nodes[msg.to := st],
        s.flight - multiset{msg} + (if reflood then Flood(top, msg.to, msg.event, Some(msg.from)) else multiset{}),
        s.entered)
  }

  ghost function Start(top: Topology): Net {
    Net(map n | n in top.cfgs :: EMPTY_NODE, multiset{}, {})
  }

  ghost function Run(top: Topology, steps: seq<Step>): Net {
    if steps == [] then Start(top)
    else Apply(top, Run(top, steps[..|steps| - 1]), steps[|steps| - 1])
  }

  // ---- The setting of the convergence theorem ------------------------------------------------

  ghost predicate Insertable(cfg: NodeConfig, e: Event, now: nat) {
    e.d.Some? && Fresh(cfg.store, e, now)
  }

  /** A received event passes the node's checks, or the node has it or a newer one already. */
  ghost predicate Welcome(cfg: NodeConfig, m: Entries, e: Event, now: nat) {
    Covers(m, e) || (Insertable(cfg, e, now) && cfg.accepts(e) && e.createdAt <= now + cfg.maxClockSkew)
  }

  /** Events are fresh when they are published, received or looked at by maintenance, unless they are outdated. */
  ghost predicate Calm(top: Topology, all: set<Event>, s: Net, step: Step) {
    Enabled(top, s, step) ==>
      match step
      case Publish(n, e, now) => e in all && Insertable(top.cfgs[n], e, now)
      case Inject(n, e, now) => e in all && Welcome(top.cfgs[n], s.nodes[n].entries, e, now)
      case Deliver(msg, now) => Welcome(top.cfgs[msg.to], s.nodes[msg.to].entries, msg.event, now)
      case Sync(_, _, _, _) => true
      case Maintain(n, now) => forall k :: k in s.nodes[n].entries ==> Fresh(top.cfgs[n].store, s.nodes[n].entries[k], now)
  }

  /** The step makes no node evict anything. */
  ghost predicate EvictsNothing(top: Topology, s: Net, step: Step) {
    Enabled(top, s, step) ==>
      match step
      case Publish(n, e, now) => Unevicted(top.cfgs[n].store, s.nodes[n].entries, e, now)
      case Inject(n, e, now) => Unevicted(top.cfgs[n].store, s.nodes[n].entries, e, now)
      case Deliver(msg, now) => Unevicted(top.cfgs[msg.to].store, s.nodes[msg.to].entries, msg.event, now)
      case _ => true
  }

  /** Events stay fresh while they matter, and nothing is evicted. */
  ghost predicate CalmRun(top: Topology, all: set<Event>, steps: seq<Step>) {
    if steps == [] then ValidTopology(top) && UniqueIds(all)
    else
      var before, step := steps[..|steps| - 1], steps[|steps| - 1];
      && CalmRun(top, all, before)
      && Calm(top, all, Run(top, before), step) && EvictsNothing(top, Run(top, before), step)
  }

  // ---- A node absorbs an event ---------------------------------------------------------------

  /** What a node needs to remember correctly: every remembered id is of a covered event. */
  ghost predicate NodeOk(st: NodeState, all: set<Event>) {
    && StoreInv(st.entries) && st.entries.Values <= all
    && forall e :: e in all && e.id in st.seen ==> Covers(st.entries, e)
  }

  /** An event the node covers is neither stored nor flooded, whatever its date. */
  lemma CoveredIsDropped(cfg: NodeConfig, st: NodeState, e: Event, now: nat)
    requires Covers(st.entries, e)
    ensures
      var (st', r) := IngestEvent(cfg, st, e, "peer", now);
      st'.entries == st.entries && !r.Reflood?
  {
  }

  lemma IngestMerges(cfg: NodeConfig, st: NodeState, all: set<Event>, e: Event, now: nat)
    requires NodeOk(st, all) && UniqueIds(all) && Unevicted(cfg.store, st.entries, e, now)
    requires e in all && Welcome(cfg, st.entries, e, now)
    ensures
      var (st', r) := IngestEvent(cfg, st, e, "peer", now);
      st'.entries == Merge(st.entries, e) && (r.Reflood? <==> !Covers(st.entries, e)) && NodeOk(st', all)
  {
    if Covers(st.entries, e) {
      CoveredIsDropped(cfg, st, e, now);
    } else {
      InsertMerges(cfg.store, st.entries, e, now);
    }
    NodeMerges(st, IngestEvent(cfg, st, e, "peer", now).0, all, e);
  }

  lemma NodeMerges(st: NodeState, st': NodeState, all: set<Event>, e: Event)
    requires NodeOk(st, all) && UniqueIds(all) && e in all && e.d.Some?
    requires st'.entries == Merge(st.entries, e) && StoreInv(st'.entries) && st'.entries.Values <= st.entries.Values + {e}
    requires forall id :: id in st'.seen ==> id in st.seen || id == e.id
    ensures NodeOk(st', all)
  {
    MergeCovers(st.entries, e);
  }

  lemma PublishMerges(cfg: NodeConfig, st: NodeState, all: set<Event>, e: Event, now: nat)
    requires NodeOk(st, all) && UniqueIds(all) && Unevicted(cfg.store, st.entries, e, now)
    requires e in all && Insertable(cfg, e, now)
    ensures
      var (st', o) := PublishLocal(cfg, st, e, now);
      st'.entries == Merge(st.entries, e) && (ShouldPropagate(o) <==> !Covers(st.entries, e)) && NodeOk(st', all)
  {
    InsertMerges(cfg.store, st.entries, e, now);
    NodeMerges(st, PublishLocal(cfg, st, e, now).0, all, e);
  }

  lemma NothingSwept(cfg: NodeConfig, st: NodeState, now: nat)
    requires forall k :: k in st.entries ==> Fresh(cfg.store, st.entries[k], now)
    ensures SweepNode(cfg, st, now) == st
  {
    assert Sweep(cfg.store, st.entries, now) == st.entries;
  }

  // ---- The network invariant -----------------------------------------------------------------

  ghost predicate NodesOk(top: Topology, all: set<Event>, s: Net) {
    s.nodes.Keys == top.cfgs.Keys && forall n :: n in s.nodes ==> NodeOk(s.nodes[n], all)
  }

  /** Messages travel along links, and their sender holds the event or a newer one. */
  ghost predicate FlightOk(top: Topology, all: set<Event>, s: Net) {
    forall msg :: msg in s.flight ==>
      && (msg.from, msg.to) in top.links && msg.from in s.nodes && msg.to in s.nodes
      && msg.event in all && Covers(s.nodes[msg.from].entries, msg.event)
  }

  ghost predicate OnItsWay(s: Net, m: Node, e: Event) {
    exists msg :: msg in s.flight && msg.to == m && SameKeyNotOlder(msg.event, e)
  }

  /** What a node holds, each of its peers covers already or has coming. */
  ghost predicate LinksOk(top: Topology, s: Net) {
    forall n, m, k :: (n, m) in top.links && n in s.nodes && m in s.nodes && k in s.nodes[n].entries ==>
      Covers(s.nodes[m].entries, s.nodes[n].entries[k]) || OnItsWay(s, m, s.nodes[n].entries[k])
  }

  ghost predicate EnteredOk(all: set<Event>, s: Net) {
    forall p :: p in s.entered ==> p.0 in s.nodes && p.1 in all && Covers(s.nodes[p.0].entries, p.1)
  }

  ghost predicate NetInv(top: Topology, all: set<Event>, s: Net) {
    NodesOk(top, all, s) && FlightOk(top, all, s) && LinksOk(top, s) && EnteredOk(all, s)
  }

  /**
   One node merges one event: a message may be consumed for it, and unless the event was covered
   already the node floods it to every peer except possibly one that covers it.
   */
  ghost predicate Absorbed(top: Topology, s: Net, s': Net, n: Node, e: Event, used: multiset<Msg>, except: Option<Node>)
    requires e.d.Some?
  {
    && n in s.nodes && s'.nodes.Keys == s.nodes.Keys
    && (forall x :: x in s.nodes && x != n ==> s'.nodes[x] == s.nodes[x])
    && s'.nodes[n].entries == Merge(s.nodes[n].entries, e)
    && used <= s.flight && (forall msg :: msg in used ==> msg.to == n && msg.event == e)
    && s'.flight == s.flight - used + (if Covers(s.nodes[n].entries, e) then multiset{} else Flood(top, n, e, except))
    && (except.Some? ==> except.value in s.nodes && Covers(s.nodes[except.value].entries, e))
  }

  lemma InFlood(top: Topology, n: Node, e: Event, except: Option<Node>, msg: Msg)
    ensures msg in Flood(top, n, e, except) <==>
            msg.from == n && msg.event == e && (n, msg.to) in top.links && Some(msg.to) != except
  {
  }

  lemma CoverageGrows(top: Topology, s: Net, s': Net, n: Node, e: Event, used: multiset<Msg>, except: Option<Node>)
    requires e.d.Some? && Absorbed(top, s, s', n, e, used, except)
    ensures Covers(s'.nodes[n].entries, e)
    ensures forall x, y :: x in s.nodes && Covers(s.nodes[x].entries, y) ==> Covers(s'.nodes[x].entries, y)
  {
    MergeCovers(s.nodes[n].entries, e);
  }

  lemma AbsorbedFlight(top: Topology, all: set<Event>, s: Net, s': Net, n: Node, e: Event, used: multiset<Msg>, except: Option<Node>)
    requires e.d.Some? && Absorbed(top, s, s', n, e, used, except)
    requires FlightOk(top, all, s) && e in all && ValidTopology(top) && s.nodes.Keys == top.cfgs.Keys
    ensures FlightOk(top, all, s')
  {
    CoverageGrows(top, s, s', n, e, used, except);
    forall msg | msg in s'.flight
      ensures (msg.from, msg.to) in top.links && msg.from in s'.nodes && msg.to in s'.nodes
      ensures msg.event in all && Covers(s'.nodes[msg.from].entries, msg.event)
    {
      InFlood(top, n, e, except, msg);
      assert msg in s.flight || (msg.from == n && msg.event == e && (n, msg.to) in top.links);
    }
  }

  lemma StillOnItsWay(top: Topology, s: Net, s': Net, n: Node, e: Event, used: multiset<Msg>, except: Option<Node>, m: Node, w: Event)
    requires e.d.Some? && Absorbed(top, s, s', n, e, used, except) && m in s.nodes && w.d.Some?
    requires Covers(s.nodes[m].entries, w) || OnItsWay(s, m, w)
    ensures Covers(s'.nodes[m].entries, w) || OnItsWay(s', m, w)
  {
    CoverageGrows(top, s, s', n, e, used, except);
    if !Covers(s.nodes[m].entries, w) {
      var msg :| msg in s.flight && msg.to == m && SameKeyNotOlder(msg.event, w);
      if msg in used {
        assert m == n && msg.event == e;
      } else {
        assert msg in s'.flight;
      }
    }
  }

  lemma AbsorbedLinks(top: Topology, s: Net, s': Net, n: Node, e: Event, used: multiset<Msg>, except: Option<Node>)
    requires e.d.Some? && Absorbed(top, s, s', n, e, used, except) && LinksOk(top, s)
    requires forall x :: x in s.nodes ==> WellKeyed(s.nodes[x].entries)
    ensures LinksOk(top, s')
  {
    CoverageGrows(top, s, s', n, e, used, except);
    forall x, m, k | (x, m) in top.links && x in s'.nodes && m in s'.nodes && k in s'.nodes[x].entries
      ensures Covers(s'.nodes[m].entries, s'.nodes[x].entries[k]) || OnItsWay(s', m, s'.nodes[x].entries[k])
    {
      var w := s'.nodes[x].entries[k];
      if k in s.nodes[x].entries && s.nodes[x].entries[k] == w {
        StillOnItsWay(top, s, s', n, e, used, except, m, w);
      } else {
        assert x == n && w == e && !Covers(s.nodes[n].entries, e);
        if except != Some(m) {
          InFlood(top, n, e, except, Msg(n, m, e));
          assert Msg(n, m, e) in s'.flight;
        }
      }
    }
  }

  lemma AbsorbedInv(top: Topology, all: set<Event>, s: Net, s': Net, n: Node, e: Event, used: multiset<Msg>, except: Option<Node>)
    requires e.d.Some? && Absorbed(top, s, s', n, e, used, except)
    requires NetInv(top, all, s) && e in all && ValidTopology(top)
    requires NodeOk(s'.nodes[n], all)
    requires s'.entered == s.entered || s'.entered == s.entered + {(n, e)}
    ensures NetInv(top, all, s')
  {
    AbsorbedEntered(top, all, s, s', n, e, used, except);
    AbsorbedFlight(top, all, s, s', n, e, used, except);
    AbsorbedLinks(top, s, s', n, e, used, except);
  }

  lemma AbsorbedEntered(top: Topology, all: set<Event>, s: Net, s': Net, n: Node, e: Event, used: multiset<Msg>, except: Option<Node>)
    requires e.d.Some? && Absorbed(top, s, s', n, e, used, except) && EnteredOk(all, s) && e in all
    requires s'.entered == s.entered || s'.entered == s.entered + {(n, e)}
    ensures EnteredOk(all, s')
  {
    CoverageGrows(top, s, s', n, e, used, except);
  }

  // ---- Every step keeps it -------------------------------------------------------------------

  lemma AnnouncedIsAbsorption(top: Topology, s: Net, n: Node, e: Event, st: NodeState, propagate: bool)
    requires n in s.nodes && e.d.Some? && st.entries == Merge(s.nodes[n].entries, e)
    requires propagate <==> !Covers(s.nodes[n].entries, e)
    ensures Absorbed(top, s, Announced(top, s, n, e, st, propagate), n, e, multiset{}, None)
  {
  }

  lemma PublishIsAbsorption(top: Topology, all: set<Event>, s: Net, n: Node, e: Event, now: nat)
    requires NodesOk(top, all, s) && UniqueIds(all) && n in top.cfgs && e in all
    requires EvictsNothing(top, s, Publish(n, e, now)) && Insertable(top.cfgs[n], e, now)
    ensures Absorbed(top, s, Apply(top, s, Publish(n, e, now)), n, e, multiset{}, None)
    ensures NodeOk(Apply(top, s, Publish(n, e, now)).nodes[n], all)
  {
    PublishMerges(top.cfgs[n], s.nodes[n], all, e, now);
    var r := PublishLocal(top.cfgs[n], s.nodes[n], e, now);
    AnnouncedIsAbsorption(top, s, n, e, r.0, ShouldPropagate(r.1));
    assert Apply(top, s, Publish(n, e, now)) == Announced(top, s, n, e, r.0, ShouldPropagate(r.1));
  }

  lemma InjectIsAbsorption(top: Topology, all: set<Event>, s: Net, n: Node, e: Event, now: nat)
    requires NodesOk(top, all, s) && UniqueIds(all) && n in top.cfgs && e in all
    requires EvictsNothing(top, s, Inject(n, e, now)) && Welcome(top.cfgs[n], s.nodes[n].entries, e, now)
    ensures Absorbed(top, s, Apply(top, s, Inject(n, e, now)), n, e, multiset{}, None)
    ensures NodeOk(Apply(top, s, Inject(n, e, now)).nodes[n], all)
  {
    IngestMerges(top.cfgs[n], s.nodes[n], all, e, now);
    var r := IngestEvent(top.cfgs[n], s.nodes[n], e, "peer", now);
    AnnouncedIsAbsorption(top, s, n, e, r.0, r.1.Reflood?);
    assert Apply(top, s, Inject(n, e, now)) == Announced(top, s, n, e, r.0, r.1.Reflood?);
  }

  lemma DeliveredIsAbsorption(top: Topology, all: set<Event>, s: Net, msg: Msg, st: NodeState, reflood: bool)
    requires FlightOk(top, all, s) && msg in s.flight && msg.event.d.Some?
    requires st.entries == Merge(s.nodes[msg.to].entries, msg.event)
    requires reflood <==> !Covers(s.nodes[msg.to].entries, msg.event)
    ensures Absorbed(top, s, Delivered(top, s, msg, st, reflood), msg.to, msg.event, multiset{msg}, Some(msg.from))
  {
  }

  lemma DeliverIsAbsorption(top: Topology, all: set<Event>, s: Net, msg: Msg, now: nat)
    requires NodesOk(top, all, s) && FlightOk(top, all, s) && UniqueIds(all) && msg in s.flight
    requires EvictsNothing(top, s, Deliver(msg, now))
    requires Welcome(top.cfgs[msg.to], s.nodes[msg.to].entries, msg.event, now)
    ensures msg.event in all
    ensures Absorbed(top, s, Apply(top, s, Deliver(msg, now)), msg.to, msg.event, multiset{msg}, Some(msg.from))
    ensures NodeOk(Apply(top, s, Deliver(msg, now)).nodes[msg.to], all)
  {
    var cfg, st := top.cfgs[msg.to], s.nodes[msg.to];
    IngestMerges(cfg, st, all, msg.event, now);
    var r := IngestEvent(cfg, st, msg.event, "peer", now);
    DeliveredIsAbsorption(top, all, s, msg, r.0, r.1.Reflood?);
    assert Apply(top, s, Deliver(msg, now)) == Delivered(top, s, msg, r.0, r.1.Reflood?);
  }

  lemma MaintainChangesNothing(top: Topology, s: Net, n: Node, now: nat)
    requires n in top.cfgs && n in s.nodes
    requires forall k :: k in s.nodes[n].entries ==> Fresh(top.cfgs[n].store, s.nodes[n].entries[k], now)
    ensures Apply(top, s, Maintain(n, now)) == s
  {
    NothingSwept(top.cfgs[n], s.nodes[n], now);
    assert s.nodes[n := s.nodes[n]] == s.nodes;
  }

  /** SYNC only adds messages, each carrying what the answering node holds. */
  lemma SyncMessages(top: Topology, s: Net, step: Step, msg: Msg)
    requires step.Sync? && Enabled(top, s, step)
    ensures Apply(top, s, step).nodes == s.nodes && Apply(top, s, step).entered == s.entered
    ensures msg in s.flight ==> msg in Apply(top, s, step).flight
    ensures msg in Apply(top, s, step).flight && msg !in s.flight ==>
              && msg.from == step.answerer && msg.to == step.asker
              && msg.event in s.nodes[step.answerer].entries.Values
  {
  }

  lemma SyncKeepsInv(top: Topology, all: set<Event>, s: Net, s': Net, step: Step)
    requires NetInv(top, all, s) && step.Sync? && ValidTopology(top) && Enabled(top, s, step)
    requires s' == Apply(top, s, step)
    ensures NetInv(top, all, s')
  {
    SyncMessages(top, s, step, Msg(0, 0, Event(0, 0, 0, 0, None, None, false)));
    SyncFlight(top, all, s, s', step);
    forall msg | msg in s.flight ensures msg in s'.flight { SyncMessages(top, s, step, msg); }
    MoreInFlight(top, s, s');
  }

  lemma MoreInFlight(top: Topology, s: Net, s': Net)
    requires LinksOk(top, s) && s'.nodes == s.nodes && forall msg :: msg in s.flight ==> msg in s'.flight
    ensures LinksOk(top, s')
  {
    forall m, w | OnItsWay(s, m, w) ensures OnItsWay(s', m, w) {
      var msg :| msg in s.flight && msg.to == m && SameKeyNotOlder(msg.event, w);
      assert msg in s'.flight;
    }
  }

  lemma SyncFlight(top: Topology, all: set<Event>, s: Net, s': Net, step: Step)
    requires NodesOk(top, all, s) && FlightOk(top, all, s) && step.Sync? && ValidTopology(top) && Enabled(top, s, step)
    requires s' == Apply(top, s, step)
    ensures FlightOk(top, all, s')
  {
    forall msg | msg in s'.flight
      ensures (msg.from, msg.to) in top.links && msg.from in s'.nodes && msg.to in s'.nodes
      ensures msg.event in all && Covers(s'.nodes[msg.from].entries, msg.event)
    {
      SyncMessages(top, s, step, msg);
      if msg !in s.flight {
        HeldAtKey(s.nodes[step.answerer].entries, msg.event);
      }
    }
  }

  lemma StepKeepsInv(top: Topology, all: set<Event>, s: Net, step: Step)
    requires NetInv(top, all, s) && ValidTopology(top) && UniqueIds(all) && Calm(top, all, s, step)
    requires EvictsNothing(top, s, step)
    ensures NetInv(top, all, Apply(top, s, step))
  {
    if Enabled(top, s, step) {
      var s' := Apply(top, s, step);
      match step
      case Publish(n, e, now) =>
        PublishIsAbsorption(top, all, s, n, e, now);
        AbsorbedInv(top, all, s, s', n, e, multiset{}, None);
      case Inject(n, e, now) =>
        InjectIsAbsorption(top, all, s, n, e, now);
        AbsorbedInv(top, all, s, s', n, e, multiset{}, None);
      case Deliver(msg, now) =>
        DeliverIsAbsorption(top, all, s, msg, now);
        AbsorbedInv(top, all, s, s', msg.to, msg.event, multiset{msg}, Some(msg.from));
      case Sync(_, _, _, _) => SyncKeepsInv(top, all, s, s', step);
      case Maintain(n, now) => MaintainChangesNothing(top, s, n, now);
    }
  }

  lemma {:induction false} CalmPrefix(top: Topology, all: set<Event>, steps: seq<Step>, i: nat)
    requires CalmRun(top, all, steps) && i <= |steps|
    ensures CalmRun(top, all, steps[..i])
    decreases |steps|
  {
    if i < |steps| {
      CalmPrefix(top, all, steps[..|steps| - 1], i);
      assert steps[..|steps| - 1][..i] == steps[..i];
    } else {
      assert steps[..i] == steps;
    }
  }

  lemma {:induction false} CalmSetting(top: Topology, all: set<Event>, steps: seq<Step>)
    requires CalmRun(top, all, steps)
    ensures ValidTopology(top) && UniqueIds(all)
    decreases |steps|
  {
    if steps != [] {
      CalmSetting(top, all, steps[..|steps| - 1]);
    }
  }

  lemma {:induction false} RunInv(top: Topology, all: set<Event>, steps: seq<Step>)
    requires CalmRun(top, all, steps)
    ensures NetInv(top, all, Run(top, steps))
    decreases |steps|
  {
    if steps != [] {
      RunInv(top, all, steps[..|steps| - 1]);
      CalmSetting(top, all, steps);
      StepKeepsInv(top, all, Run(top, steps[..|steps| - 1]), steps[|steps| - 1]);
    }
  }

  /** A run in which every node has room for all the keys evicts nothing. */
  lemma {:induction false} RoomIsCalm(top: Topology, all: set<Event>, steps: seq<Step>)
    requires ValidTopology(top) && UniqueIds(all) && forall n :: n in top.cfgs ==> Room(top.cfgs[n].store, all)
    requires forall i :: 0 <= i < |steps| ==> Calm(top, all, Run(top, steps[..i]), steps[i])
    ensures CalmRun(top, all, steps)
    decreases |steps|
  {
    if steps != [] {
      var before := steps[..|steps| - 1];
      forall i | 0 <= i < |before| ensures Calm(top, all, Run(top, before[..i]), before[i]) {
        assert before[..i] == steps[..i];
      }
      RoomIsCalm(top, all, before);
      RunInv(top, all, before);
      RoomStep(top, all, Run(top, before), steps[|steps| - 1]);
    }
  }

  lemma RoomStep(top: Topology, all: set<Event>, s: Net, step: Step)
    requires NetInv(top, all, s) && Calm(top, all, s, step) && forall n :: n in top.cfgs ==> Room(top.cfgs[n].store, all)
    ensures EvictsNothing(top, s, step)
  {
    if Enabled(top, s, step) {
      match step
      case Publish(n, e, now) => RoomEvictsNothing(top.cfgs[n].store, s.nodes[n].entries, all, e, now);
      case Inject(n, e, now) => RoomEvictsNothing(top.cfgs[n].store, s.nodes[n].entries, all, e, now);
      case Deliver(msg, now) => RoomEvictsNothing(top.cfgs[msg.to].store, s.nodes[msg.to].entries, all, msg.event, now);
      case _ =>
    }
  }
}
