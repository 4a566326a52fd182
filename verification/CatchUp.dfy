/** What SYNC is for: a node that asks a peer learns everything live that the peer holds. */
module CatchUp {
  import opened Events
  import opened EventStore
  import opened Ingest
  import opened Merging
  import opened GossipNetwork

  /** Any state of the network, also one in which nodes have just come in empty. */
  ghost predicate Sound(top: Topology, all: set<Event>, s: Net) {
    NodesOk(top, all, s) && FlightSound(top, all, s)
  }

  ghost predicate FlightSound(top: Topology, all: set<Event>, s: Net) {
    forall msg :: msg in s.flight ==> msg.event in all && msg.to in top.cfgs
  }

  ghost function RunFrom(top: Topology, s: Net, steps: seq<Step>): Net {
    if steps == [] then s else Apply(top, RunFrom(top, s, steps[..|steps| - 1]), steps[|steps| - 1])
  }

  ghost predicate CalmFrom(top: Topology, all: set<Event>, s: Net, steps: seq<Step>) {
    if steps == [] then true
    else
      var before, step := steps[..|steps| - 1], steps[|steps| - 1];
      var t := RunFrom(top, s, before);
      CalmFrom(top, all, s, before) && Calm(top, all, t, step) && EvictsNothing(top, t, step)
  }

  /** Nothing covered is uncovered, and a message leaves the network only by being learned. */
  ghost predicate Learns(s: Net, s': Net) {
    KeepsCovering(s, s') && NothingLost(s, s')
  }

  ghost predicate KeepsCovering(s: Net, s': Net) {
    && s'.nodes.Keys == s.nodes.Keys
    && forall n, e :: n in s.nodes && Covers(s.nodes[n].entries, e) ==> Covers(s'.nodes[n].entries, e)
  }

  ghost predicate NothingLost(s: Net, s': Net) {
    forall msg :: msg in s.flight ==>
      msg in s'.flight || (msg.to in s'.nodes && Covers(s'.nodes[msg.to].entries, msg.event))
  }

  lemma OneNodeMerges(top: Topology, all: set<Event>, s: Net, s': Net, n: Node, e: Event, st: NodeState)
    requires NodesOk(top, all, s) && n in s.nodes && e.d.Some? && s'.nodes == s.nodes[n := st]
    requires st.entries == Merge(s.nodes[n].entries, e) && NodeOk(st, all)
    ensures NodesOk(top, all, s') && KeepsCovering(s, s') && Covers(s'.nodes[n].entries, e)
  {
    MergeCovers(s.nodes[n].entries, e);
  }

  lemma FloodIsSound(top: Topology, all: set<Event>, s: Net, s': Net, n: Node, e: Event, except: Option<Node>)
    requires FlightSound(top, all, s) && ValidTopology(top) && e in all
    requires forall msg :: msg in s'.flight ==> msg in s.flight || msg in Flood(top, n, e, except)
    ensures FlightSound(top, all, s')
  {
    forall msg | msg in s'.flight ensures msg.event in all && msg.to in top.cfgs {
      InFlood(top, n, e, except, msg);
    }
  }

  lemma EntryLearns(top: Topology, all: set<Event>, s: Net, n: Node, e: Event, st: NodeState, propagate: bool)
    requires Sound(top, all, s) && ValidTopology(top) && n in s.nodes && e in all && e.d.Some?
    requires st.entries == Merge(s.nodes[n].entries, e) && NodeOk(st, all)
    ensures
      var s' := Announced(top, s, n, e, st, propagate);
      Sound(top, all, s') && Learns(s, s')
  {
    var s' := Announced(top, s, n, e, st, propagate);
    OneNodeMerges(top, all, s, s', n, e, st);
    FloodIsSound(top, all, s, s', n, e, None);
    assert NothingLost(s, s');
  }

  lemma DeliveryLearns(top: Topology, all: set<Event>, s: Net, msg: Msg, st: NodeState, reflood: bool)
    requires Sound(top, all, s) && ValidTopology(top) && msg in s.flight && msg.event.d.Some?
    requires st.entries == Merge(s.nodes[msg.to].entries, msg.event) && NodeOk(st, all)
    ensures
      var s' := Delivered(top, s, msg, st, reflood);
      Sound(top, all, s') && Learns(s, s')
  {
    var s' := Delivered(top, s, msg, st, reflood);
    OneNodeMerges(top, all, s, s', msg.to, msg.event, st);
    FloodIsSound(top, all, s, s', msg.to, msg.event, Some(msg.from));
    OneTaken(s, s', msg, if reflood then Flood(top, msg.to, msg.event, Some(msg.from)) else multiset{});
  }

  lemma OneTaken(s: Net, s': Net, msg: Msg, added: multiset<Msg>)
    requires s'.flight == s.flight - multiset{msg} + added
    requires msg.to in s'.nodes && Covers(s'.nodes[msg.to].entries, msg.event)
    ensures NothingLost(s, s')
  {
    forall m | m in s.flight && m != msg ensures m in s'.flight {
      assert m in s.flight - multiset{msg};
    }
  }

  lemma SyncLearns(top: Topology, all: set<Event>, s: Net, step: Step)
    requires Sound(top, all, s) && ValidTopology(top) && step.Sync? && Enabled(top, s, step)
    ensures Sound(top, all, Apply(top, s, step)) && Learns(s, Apply(top, s, step))
  {
    var s' := Apply(top, s, step);
    SyncMessages(top, s, step, Msg(0, 0, Event(0, 0, 0, 0, None, None, false)));
    forall msg | msg in s'.flight ensures msg.event in all && msg.to in top.cfgs {
      SyncMessages(top, s, step, msg);
    }
    forall msg | msg in s.flight ensures msg in s'.flight {
      SyncMessages(top, s, step, msg);
    }
  }

  lemma StepLearns(top: Topology, all: set<Event>, s: Net, step: Step)
    requires Sound(top, all, s) && ValidTopology(top) && UniqueIds(all)
    requires Calm(top, all, s, step) && EvictsNothing(top, s, step)
    ensures Sound(top, all, Apply(top, s, step)) && Learns(s, Apply(top, s, step))
  {
    if Enabled(top, s, step) {
      match step
      case Publish(n, e, now) =>
        PublishMerges(top.cfgs[n], s.nodes[n], all, e, now);
        var r := PublishLocal(top.cfgs[n], s.nodes[n], e, now);
        EntryLearns(top, all, s, n, e, r.0, ShouldPropagate(r.1));
      case Inject(n, e, now) =>
        IngestMerges(top.cfgs[n], s.nodes[n], all, e, now);
        var r := IngestEvent(top.cfgs[n], s.nodes[n], e, "peer", now);
        EntryLearns(top, all, s, n, e, r.0, r.1.Reflood?);
      case Deliver(msg, now) =>
        IngestMerges(top.cfgs[msg.to], s.nodes[msg.to], all, msg.event, now);
        var r := IngestEvent(top.cfgs[msg.to], s.nodes[msg.to], msg.event, "peer", now);
        DeliveryLearns(top, all, s, msg, r.0, r.1.Reflood?);
      case Sync(_, _, _, _) => SyncLearns(top, all, s, step);
      case Maintain(n, now) => MaintainChangesNothing(top, s, n, now);
    }
  }

  lemma {:induction false} StillLearned(top: Topology, all: set<Event>, s: Net, steps: seq<Step>, msg: Msg)
    requires Sound(top, all, s) && ValidTopology(top) && UniqueIds(all) && CalmFrom(top, all, s, steps)
    requires msg in s.flight
    ensures
      var t := RunFrom(top, s, steps);
      Sound(top, all, t) && (msg in t.flight || (msg.to in t.nodes && Covers(t.nodes[msg.to].entries, msg.event)))
    decreases |steps|
  {
    if steps != [] {
      var before := steps[..|steps| - 1];
      StillLearned(top, all, s, before, msg);
      StepLearns(top, all, RunFrom(top, s, before), steps[|steps| - 1]);
    }
  }

  /** A SYNC step sends exactly what the answerer holds that is live, fresh and not older than asked for. */
  lemma SyncSends(top: Topology, s: Net, a: Node, b: Node, since: int, now: nat, e: Event)
    requires (b, a) in top.links && b in top.cfgs && b in s.nodes && WellKeyed(s.nodes[b].entries)
    requires Answers(top.cfgs[b], s.nodes[b].entries, since, now, e)
    ensures Msg(b, a, e) in Apply(top, s, Sync(a, b, since, now)).flight
  {
    SyncAnswers(top.cfgs[b], s.nodes[b].entries, since, now, e);
  }

  /**
   From any state, whatever happens after the answerer has answered: once its message with an event
   is no longer under way, the asker has that event or a newer one.
   */
  lemma SyncCatchesUp(top: Topology, all: set<Event>, s: Net, a: Node, b: Node, since: int, now: nat, steps: seq<Step>, e: Event)
    requires Sound(top, all, s) && ValidTopology(top) && UniqueIds(all) && (b, a) in top.links
    requires CalmFrom(top, all, Apply(top, s, Sync(a, b, since, now)), steps)
    requires b in top.cfgs && Answers(top.cfgs[b], s.nodes[b].entries, since, now, e)
    ensures
      var t := RunFrom(top, Apply(top, s, Sync(a, b, since, now)), steps);
      Msg(b, a, e) in t.flight || (a in t.nodes && Covers(t.nodes[a].entries, e))
  {
    SyncSends(top, s, a, b, since, now, e);
    SyncLearns(top, all, s, Sync(a, b, since, now));
    StillLearned(top, all, Apply(top, s, Sync(a, b, since, now)), steps, Msg(b, a, e));
  }

  /** From when a node asks: the start of its freshness window. */
  function SyncReqSince(now: nat, freshnessWindow: nat): int {
    SatSub(now, freshnessWindow)
  }

  /** So asking leaves out nothing fresh: a node with nothing left under way to it has all the answerer's live events. */
  lemma AskerHasEverythingLive(top: Topology, all: set<Event>, s: Net, a: Node, b: Node, now: nat, steps: seq<Step>, e: Event)
    requires Sound(top, all, s) && ValidTopology(top) && UniqueIds(all) && (b, a) in top.links && b in top.cfgs
    requires
      var asked := Sync(a, b, SyncReqSince(now, top.cfgs[b].store.freshnessWindow), now);
      && CalmFrom(top, all, Apply(top, s, asked), steps)
      && forall msg :: msg in RunFrom(top, Apply(top, s, asked), steps).flight ==> msg.to != a
    requires e in s.nodes[b].entries.Values && !e.ended && Fresh(top.cfgs[b].store, e, now)
    ensures
      var t := RunFrom(top, Apply(top, s, Sync(a, b, SyncReqSince(now, top.cfgs[b].store.freshnessWindow), now)), steps);
      a in t.nodes && Covers(t.nodes[a].entries, e)
  {
    SyncCatchesUp(top, all, s, a, b, SyncReqSince(now, top.cfgs[b].store.freshnessWindow), now, steps, e);
  }
}
