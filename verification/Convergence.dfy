/** What calm runs of the network reach: monotone stores, and agreement once nothing is in flight. */
module Convergence {
  import opened Events
  import opened EventStore
  import opened Ingest
  import opened Merging
  import opened GossipNetwork

  // ---- Stores never go back ------------------------------------------------------------------

  ghost predicate NotBehind(a: Entries, b: Entries) {
    forall k :: k in a ==> k in b && !Newer(a[k], b[k])
  }

  lemma NotBehindTransitive(a: Entries, b: Entries, c: Entries)
    requires NotBehind(a, b) && NotBehind(b, c)
    ensures NotBehind(a, c)
  {
    forall k | k in a ensures k in c && !Newer(a[k], c[k]) {
      assert k in b && !Newer(a[k], b[k]);
    }
  }

  lemma MergeNotBehind(top: Topology, s: Net, s': Net, n: Node, e: Event, used: multiset<Msg>, except: Option<Node>, x: Node)
    requires e.d.Some? && Absorbed(top, s, s', n, e, used, except) && x in s.nodes
    ensures NotBehind(s.nodes[x].entries, s'.nodes[x].entries)
  {
  }

  lemma StepNotBehind(top: Topology, all: set<Event>, s: Net, s': Net, step: Step, n: Node)
    requires NetInv(top, all, s) && UniqueIds(all) && Calm(top, all, s, step)
    requires EvictsNothing(top, s, step)
    requires n in s.nodes && n in s'.nodes && s' == Apply(top, s, step)
    ensures NotBehind(s.nodes[n].entries, s'.nodes[n].entries)
  {
    if Enabled(top, s, step) {
      match step
      case Publish(m, e, now) =>
        PublishIsAbsorption(top, all, s, m, e, now);
        MergeNotBehind(top, s, s', m, e, multiset{}, None, n);
      case Inject(m, e, now) =>
        InjectIsAbsorption(top, all, s, m, e, now);
        MergeNotBehind(top, s, s', m, e, multiset{}, None, n);
      case Deliver(msg, now) =>
        DeliverIsAbsorption(top, all, s, msg, now);
        MergeNotBehind(top, s, s', msg.to, msg.event, multiset{msg}, Some(msg.from), n);
      case Sync(_, _, _, _) =>
      case Maintain(m, now) => MaintainChangesNothing(top, s, m, now);
    }
  }

  lemma NodeExists(top: Topology, all: set<Event>, steps: seq<Step>, n: Node)
    requires CalmRun(top, all, steps) && n in top.cfgs
    ensures n in Run(top, steps).nodes
  {
    RunInv(top, all, steps);
  }

  /** In a calm run no node's event for a key is ever followed by an older one or by none. */
  lemma {:induction false} StoreMonotonic(top: Topology, all: set<Event>, steps: seq<Step>, i: nat, n: Node)
    requires CalmRun(top, all, steps) && i <= |steps| && n in top.cfgs
    ensures n in Run(top, steps[..i]).nodes && n in Run(top, steps).nodes
    ensures NotBehind(Run(top, steps[..i]).nodes[n].entries, Run(top, steps).nodes[n].entries)
    decreases |steps|
  {
    if i == |steps| {
      assert steps[..i] == steps;
      NodeExists(top, all, steps, n);
    } else {
      var init := steps[..|steps| - 1];
      CalmPrefix(top, all, steps, |steps| - 1);
      StoreMonotonic(top, all, init, i, n);
      assert init[..i] == steps[..i];
      LastStepNotBehind(top, all, steps, n);
      NotBehindTransitive(Run(top, steps[..i]).nodes[n].entries, Run(top, init).nodes[n].entries,
                          Run(top, steps).nodes[n].entries);
    }
  }

  lemma LastStepNotBehind(top: Topology, all: set<Event>, steps: seq<Step>, n: Node)
    requires CalmRun(top, all, steps) && steps != [] && n in top.cfgs
    ensures n in Run(top, steps[..|steps| - 1]).nodes && n in Run(top, steps).nodes
    ensures NotBehind(Run(top, steps[..|steps| - 1]).nodes[n].entries, Run(top, steps).nodes[n].entries)
  {
    var init := steps[..|steps| - 1];
    CalmPrefix(top, all, steps, |steps| - 1);
    CalmSetting(top, all, steps);
    RunInv(top, all, init);
    NodeExists(top, all, steps, n);
    StepNotBehind(top, all, Run(top, init), Run(top, steps), steps[|steps| - 1], n);
  }

  // ---- Where events come from ----------------------------------------------------------------

  ghost predicate Closed(top: Topology, c: set<Node>) {
    c <= top.cfgs.Keys && forall l :: l in top.links && l.0 in c ==> l.1 in c
  }

  ghost function EnteredIn(s: Net, c: set<Node>): set<Event> {
    set p | p in s.entered && p.0 in c :: p.1
  }

  /** Inside a closed set of nodes, only what entered the network there is held or in flight. */
  ghost predicate OriginOk(c: set<Node>, s: Net) {
    && (forall n, k :: n in c && n in s.nodes && k in s.nodes[n].entries ==> s.nodes[n].entries[k] in EnteredIn(s, c))
    && (forall msg :: msg in s.flight && msg.to in c ==> msg.event in EnteredIn(s, c))
  }

  lemma AbsorbedOrigin(top: Topology, c: set<Node>, s: Net, s': Net, n: Node, e: Event, used: multiset<Msg>, except: Option<Node>)
    requires e.d.Some? && Absorbed(top, s, s', n, e, used, except)
    requires ValidTopology(top) && Closed(top, c) && OriginOk(c, s)
    requires s.entered <= s'.entered && (n in c ==> e in EnteredIn(s', c))
    ensures OriginOk(c, s')
  {
    assert EnteredIn(s, c) <= EnteredIn(s', c);
    forall msg | msg in s'.flight && msg.to in c ensures msg.event in EnteredIn(s', c) {
      InFlood(top, n, e, except, msg);
      if msg !in s.flight {
        assert (msg.to, n) in top.links;
      }
    }
  }

  lemma EntryKeepsOrigin(top: Topology, c: set<Node>, s: Net, s': Net, n: Node, e: Event)
    requires e.d.Some? && Absorbed(top, s, s', n, e, multiset{}, None)
    requires ValidTopology(top) && Closed(top, c) && OriginOk(c, s)
    requires s'.entered == s.entered + {(n, e)}
    ensures OriginOk(c, s')
  {
    assert (n, e) in s'.entered;
    AbsorbedOrigin(top, c, s, s', n, e, multiset{}, None);
  }

  lemma PublishKeepsOrigin(top: Topology, all: set<Event>, c: set<Node>, s: Net, n: Node, e: Event, now: nat)
    requires NodesOk(top, all, s) && ValidTopology(top) && UniqueIds(all) && n in top.cfgs && e in all
    requires EvictsNothing(top, s, Publish(n, e, now)) && Insertable(top.cfgs[n], e, now)
    requires Closed(top, c) && OriginOk(c, s)
    ensures OriginOk(c, Apply(top, s, Publish(n, e, now)))
  {
    PublishIsAbsorption(top, all, s, n, e, now);
    EntryKeepsOrigin(top, c, s, Apply(top, s, Publish(n, e, now)), n, e);
  }

  lemma InjectKeepsOrigin(top: Topology, all: set<Event>, c: set<Node>, s: Net, n: Node, e: Event, now: nat)
    requires NodesOk(top, all, s) && ValidTopology(top) && UniqueIds(all) && n in top.cfgs && e in all
    requires EvictsNothing(top, s, Inject(n, e, now)) && Welcome(top.cfgs[n], s.nodes[n].entries, e, now)
    requires Closed(top, c) && OriginOk(c, s)
    ensures OriginOk(c, Apply(top, s, Inject(n, e, now)))
  {
    InjectIsAbsorption(top, all, s, n, e, now);
    EntryKeepsOrigin(top, c, s, Apply(top, s, Inject(n, e, now)), n, e);
  }

  lemma DeliverKeepsOrigin(top: Topology, all: set<Event>, c: set<Node>, s: Net, msg: Msg, now: nat)
    requires NodesOk(top, all, s) && FlightOk(top, all, s) && ValidTopology(top) && UniqueIds(all) && msg in s.flight
    requires EvictsNothing(top, s, Deliver(msg, now))
    requires Welcome(top.cfgs[msg.to], s.nodes[msg.to].entries, msg.event, now)
    requires Closed(top, c) && OriginOk(c, s)
    ensures OriginOk(c, Apply(top, s, Deliver(msg, now)))
  {
    DeliverIsAbsorption(top, all, s, msg, now);
    AbsorbedOrigin(top, c, s, Apply(top, s, Deliver(msg, now)), msg.to, msg.event, multiset{msg}, Some(msg.from));
  }

  lemma StepKeepsOrigin(top: Topology, all: set<Event>, c: set<Node>, s: Net, step: Step)
    requires NetInv(top, all, s) && ValidTopology(top) && UniqueIds(all) && Calm(top, all, s, step)
    requires EvictsNothing(top, s, step)
    requires Closed(top, c) && OriginOk(c, s)
    ensures OriginOk(c, Apply(top, s, step))
  {
    if Enabled(top, s, step) {
      var s' := Apply(top, s, step);
      match step
      case Publish(n, e, now) =>
        PublishKeepsOrigin(top, all, c, s, n, e, now);
      case Inject(n, e, now) =>
        InjectKeepsOrigin(top, all, c, s, n, e, now);
      case Deliver(msg, now) =>
        DeliverKeepsOrigin(top, all, c, s, msg, now);
      case Sync(_, _, _, _) => SyncKeepsOrigin(top, c, s, s', step);
      case Maintain(n, now) => MaintainChangesNothing(top, s, n, now);
    }
  }

  lemma SyncKeepsOrigin(top: Topology, c: set<Node>, s: Net, s': Net, step: Step)
    requires step.Sync? && Enabled(top, s, step) && s' == Apply(top, s, step)
    requires ValidTopology(top) && Closed(top, c) && OriginOk(c, s)
    ensures OriginOk(c, s')
  {
    SyncMessages(top, s, step, Msg(0, 0, Event(0, 0, 0, 0, None, None, false)));
    forall msg | msg in s'.flight && msg.to in c ensures msg.event in EnteredIn(s', c) {
      SyncMessages(top, s, step, msg);
      if msg !in s.flight {
        assert (step.asker, step.answerer) in top.links;
      }
    }
  }

  lemma {:induction false} RunOrigin(top: Topology, all: set<Event>, c: set<Node>, steps: seq<Step>)
    requires CalmRun(top, all, steps) && Closed(top, c)
    ensures OriginOk(c, Run(top, steps))
  {
    if steps != [] {
      var init := steps[..|steps| - 1];
      CalmPrefix(top, all, steps, |steps| - 1);
      RunOrigin(top, all, c, init);
      CalmSetting(top, all, steps);
      RunInv(top, all, init);
      StepKeepsOrigin(top, all, c, Run(top, init), steps[|steps| - 1]);
    }
  }

  // ---- Agreement -----------------------------------------------------------------------------

  ghost predicate Path(top: Topology, p: seq<Node>) {
    |p| > 0 && forall i :: 0 <= i < |p| - 1 ==> (p[i], p[i + 1]) in top.links
  }

  ghost predicate Connects(top: Topology, p: seq<Node>, a: Node, b: Node) {
    Path(top, p) && p[0] == a && p[|p| - 1] == b
  }

  ghost predicate Connected(top: Topology, c: set<Node>) {
    forall a, b :: a in c && b in c ==> exists p :: Connects(top, p, a, b)
  }

  lemma QuietLinkAgrees(top: Topology, all: set<Event>, s: Net, n: Node, m: Node)
    requires NetInv(top, all, s) && UniqueIds(all) && ValidTopology(top)
    requires s.flight == multiset{} && (n, m) in top.links
    ensures n in s.nodes && m in s.nodes && s.nodes[n].entries == s.nodes[m].entries
  {
    var a, b := s.nodes[n].entries, s.nodes[m].entries;
    forall k | k in a ensures k in b && b[k] == a[k] {
      assert Covers(b, a[k]);
      assert Covers(a, b[k]);
      HeldAtKey(a, a[k]);
      HeldAtKey(b, b[k]);
    }
    forall k | k in b ensures k in a {
      assert Covers(a, b[k]);
    }
  }

  lemma {:induction false} QuietPathAgrees(top: Topology, all: set<Event>, s: Net, p: seq<Node>)
    requires NetInv(top, all, s) && UniqueIds(all) && ValidTopology(top)
    requires s.flight == multiset{} && Path(top, p) && p[0] in s.nodes
    ensures p[|p| - 1] in s.nodes && s.nodes[p[|p| - 1]].entries == s.nodes[p[0]].entries
    decreases |p|
  {
    if |p| > 1 {
      assert (p[0], p[0 + 1]) in top.links;
      QuietLinkAgrees(top, all, s, p[0], p[1]);
      var rest := p[1..];
      forall i | 0 <= i < |rest| - 1 ensures (rest[i], rest[i + 1]) in top.links {
        assert (p[i + 1], p[i + 1 + 1]) in top.links;
      }
      QuietPathAgrees(top, all, s, rest);
    }
  }

  lemma EverythingEnteredIsCovered(top: Topology, all: set<Event>, c: set<Node>, s: Net, n: Node, e: Event)
    requires NetInv(top, all, s) && UniqueIds(all) && ValidTopology(top) && s.flight == multiset{}
    requires Closed(top, c) && Connected(top, c) && n in c && e in EnteredIn(s, c)
    ensures Covers(s.nodes[n].entries, e) && e in all
  {
    var o: (Node, Event) :| o in s.entered && o.0 in c && o.1 == e;
    var p :| Connects(top, p, o.0, n);
    QuietPathAgrees(top, all, s, p);
  }

  /**
   Any number of nodes on fixed symmetric links, starting empty; any interleaving of publishing,
   delivery, SYNC, maintenance and reception from outside that evicts nothing and in which events
   stay fresh while they matter: when nothing is in flight, every node of a connected component
   holds, per key, exactly the last-write-wins winner of everything that entered the component.
   */
  lemma Converges(top: Topology, all: set<Event>, steps: seq<Step>, c: set<Node>, n: Node)
    requires CalmRun(top, all, steps) && Closed(top, c) && Connected(top, c) && n in c
    requires Run(top, steps).flight == multiset{}
    ensures
      var s := Run(top, steps);
      n in s.nodes && WellKeyed(s.nodes[n].entries) && s.nodes[n].entries.Values == Winners(EnteredIn(s, c))
  {
    CalmSetting(top, all, steps);
    RunInv(top, all, steps);
    RunOrigin(top, all, c, steps);
    NodeExists(top, all, steps, n);
    HeldHasEntered(c, Run(top, steps), n);
    SilentNodeHoldsWinners(top, all, c, Run(top, steps), n);
  }

  // ---- Replays -------------------------------------------------------------------------------

  /** Everything the nodes of `c` published in the run. */
  ghost function PublishedIn(steps: seq<Step>, c: set<Node>): set<Event> {
    set i | 0 <= i < |steps| && steps[i].Publish? && steps[i].node in c :: steps[i].event
  }

  /** What comes into `c` from outside had been published in `c` before. */
  ghost predicate OnlyReplays(steps: seq<Step>, c: set<Node>) {
    forall i :: 0 <= i < |steps| && steps[i].Inject? && steps[i].node in c ==> steps[i].event in PublishedIn(steps[..i], c)
  }

  lemma LastPublished(steps: seq<Step>, c: set<Node>)
    requires steps != []
    ensures
      var before, step := steps[..|steps| - 1], steps[|steps| - 1];
      && PublishedIn(steps, c) == PublishedIn(before, c) + (if step.Publish? && step.node in c then {step.event} else {})
      && (OnlyReplays(steps, c) ==>
            OnlyReplays(before, c) && (step.Inject? && step.node in c ==> step.event in PublishedIn(before, c)))
  {
    var before, step := steps[..|steps| - 1], steps[|steps| - 1];
    forall e | e in PublishedIn(steps, c)
      ensures e in PublishedIn(before, c) + (if step.Publish? && step.node in c then {step.event} else {})
    {
      var i :| 0 <= i < |steps| && steps[i].Publish? && steps[i].node in c && steps[i].event == e;
      if i < |before| { assert before[i].event == e; }
    }
    forall e | e in PublishedIn(before, c) ensures e in PublishedIn(steps, c) {
      var i :| 0 <= i < |before| && before[i].Publish? && before[i].node in c && before[i].event == e;
      assert steps[i].event == e;
    }
    if step.Publish? && step.node in c { assert steps[|steps| - 1].event in PublishedIn(steps, c); }
    if OnlyReplays(steps, c) {
      forall i | 0 <= i < |before| && before[i].Inject? && before[i].node in c
        ensures before[i].event in PublishedIn(before[..i], c)
      {
        assert before[..i] == steps[..i] && before[i] == steps[i];
      }
    }
  }

  lemma {:induction false} ReplaysAddNothing(top: Topology, all: set<Event>, steps: seq<Step>, c: set<Node>)
    requires CalmRun(top, all, steps) && Closed(top, c) && OnlyReplays(steps, c)
    ensures EnteredIn(Run(top, steps), c) == PublishedIn(steps, c)
    decreases |steps|
  {
    if steps != [] {
      var before, step := steps[..|steps| - 1], steps[|steps| - 1];
      LastPublished(steps, c);
      CalmPrefix(top, all, steps, |steps| - 1);
      ReplaysAddNothing(top, all, before, c);
      RunInv(top, all, before);
      EnteredAfter(top, Run(top, before), step, c);
    }
  }

  lemma EnteredAfter(top: Topology, s: Net, step: Step, c: set<Node>)
    requires s.nodes.Keys == top.cfgs.Keys && c <= top.cfgs.Keys
    ensures EnteredIn(Apply(top, s, step), c)
         == EnteredIn(s, c) + if (step.Publish? || step.Inject?) && step.node in c then {step.event} else {}
  {
    var s' := Apply(top, s, step);
    var added := if (step.Publish? || step.Inject?) && step.node in c then {step.event} else {};
    forall e ensures e in EnteredIn(s', c) <==> e in EnteredIn(s, c) || e in added {
      if e in EnteredIn(s, c) {
        var p :| p in s.entered && p.0 in c && p.1 == e;
        assert p in s'.entered;
      }
      if e in added {
        assert (step.node, e) in s'.entered;
      }
    }
  }

  /** Bad peers may replay as they like: the component still agrees on the winners of what its nodes published. */
  lemma ConvergesDespiteReplays(top: Topology, all: set<Event>, steps: seq<Step>, c: set<Node>, n: Node)
    requires CalmRun(top, all, steps) && Closed(top, c) && Connected(top, c) && n in c
    requires Run(top, steps).flight == multiset{} && OnlyReplays(steps, c)
    ensures
      var s := Run(top, steps);
      n in s.nodes && WellKeyed(s.nodes[n].entries) && s.nodes[n].entries.Values == Winners(PublishedIn(steps, c))
  {
    Converges(top, all, steps, c, n);
    ReplaysAddNothing(top, all, steps, c);
  }

  lemma SilentNodeHoldsWinners(top: Topology, all: set<Event>, c: set<Node>, s: Net, n: Node)
    requires NetInv(top, all, s) && UniqueIds(all) && ValidTopology(top) && s.flight == multiset{}
    requires Closed(top, c) && Connected(top, c) && n in c && n in s.nodes
    requires forall k :: k in s.nodes[n].entries ==> s.nodes[n].entries[k] in EnteredIn(s, c)
    ensures n in s.nodes && WellKeyed(s.nodes[n].entries)
    ensures s.nodes[n].entries.Values == Winners(EnteredIn(s, c))
  {
    AllEnteredCovered(top, all, c, s, n);
    CoverageIsWinning(s.nodes[n].entries, EnteredIn(s, c));
  }

  lemma HeldHasEntered(c: set<Node>, s: Net, n: Node)
    requires OriginOk(c, s) && n in c && n in s.nodes
    ensures forall k :: k in s.nodes[n].entries ==> s.nodes[n].entries[k] in EnteredIn(s, c)
  {
  }

  lemma AllEnteredCovered(top: Topology, all: set<Event>, c: set<Node>, s: Net, n: Node)
    requires NetInv(top, all, s) && UniqueIds(all) && ValidTopology(top) && s.flight == multiset{}
    requires Closed(top, c) && Connected(top, c) && n in c
    ensures n in s.nodes && WellKeyed(s.nodes[n].entries) && UniqueIds(EnteredIn(s, c))
    ensures forall e :: e in EnteredIn(s, c) ==> Covers(s.nodes[n].entries, e)
  {
    forall e | e in EnteredIn(s, c) ensures Covers(s.nodes[n].entries, e) && e in all {
      EverythingEnteredIsCovered(top, all, c, s, n, e);
    }
  }

  lemma CoverageIsWinning(m: Entries, published: set<Event>)
    requires WellKeyed(m) && UniqueIds(published)
    requires forall k :: k in m ==> m[k] in published
    requires forall e :: e in published ==> Covers(m, e)
    ensures m.Values == Winners(published)
  {
    forall e ensures e in m.Values <==> e in Winners(published) {
      HeldAtKey(m, e);
      if e in Winners(published) {
        var x := m[KeyOf(e)];
        assert x in published && !Newer(x, e) && !Newer(e, x);
      }
    }
  }
}
