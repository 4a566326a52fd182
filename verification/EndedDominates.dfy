/** From the publisher's log to the viewer's list: an ended session stays ended. */
module EndedDominates {
  import opened Events
  import opened EventStore
  import PersonaLock
  import opened ViewOverTime

  /** The signed event for one entry of the publisher's log. */
  ghost predicate Signs(e: Event, x: PersonaLock.Emitted) {
    && e.kind == CHANNEL_KIND && e.pubkey == x.pubkey && e.createdAt == x.createdAt
    && e.d == Some(x.channel) && e.ended == x.ended && Expiration(e) == e.createdAt + EXPIRATION_OFFSET
  }

  ghost predicate SignsLog(events: seq<Event>, log: seq<PersonaLock.Emitted>) {
    |events| == |log| && forall i :: 0 <= i < |log| ==> Signs(events[i], log[i])
  }

  /** Every event of `offered` under the key of event `j` belongs to the same announce session. */
  ghost predicate OneSessionUnderKey(offered: set<Event>, events: seq<Event>, log: seq<PersonaLock.Emitted>, j: nat)
    requires SignsLog(events, log) && j < |log|
  {
    forall e :: e in offered && e.d.Some? && KeyOf(e) == KeyOf(events[j]) ==>
      exists i :: 0 <= i < |log| && events[i] == e && PersonaLock.SameSession(log[i], log[j])
  }

  /** The session's last event. */
  ghost predicate Final(log: seq<PersonaLock.Emitted>, j: nat) {
    j < |log| && forall i :: j < i < |log| ==> !PersonaLock.SameSession(log[j], log[i])
  }

  /** On a channel without an assignment every ended event is its session's last. */
  lemma EndedIsFinal(steps: seq<PersonaLock.Step>, j: nat)
    requires j < |PersonaLock.Run(steps).log| && PersonaLock.Run(steps).log[j].ended
    requires PersonaLock.NeverAssigned(steps, PersonaLock.Run(steps).log[j].channel)
    ensures Final(PersonaLock.Run(steps).log, j)
  {
    var log := PersonaLock.Run(steps).log;
    forall i | j < i < |log| ensures !PersonaLock.SameSession(log[j], log[i]) {
      if PersonaLock.SameSession(log[j], log[i]) {
        PersonaLock.OnePersonaPerSession(steps, log[j].channel, j, i);
      }
    }
  }

  lemma FinalIsNewest(steps: seq<PersonaLock.Step>, events: seq<Event>, i: nat, j: nat)
    requires SignsLog(events, PersonaLock.Run(steps).log) && i < |events| && Final(PersonaLock.Run(steps).log, j)
    requires PersonaLock.SameSession(PersonaLock.Run(steps).log[i], PersonaLock.Run(steps).log[j])
    ensures Expiration(events[i]) == events[i].createdAt + EXPIRATION_OFFSET
    ensures i == j || Newer(events[j], events[i])
  {
    var log := PersonaLock.Run(steps).log;
    assert Signs(events[i], log[i]) && Signs(events[j], log[j]);
    if i < j {
      PersonaLock.RisingTimes(steps, i, j);
    }
  }

  /**
   In any interleaving of publishers and persona changes, assignments included, take a session whose
   last event is an ended one.  A store that was offered it, with any other events of that session
   under that key before or after and anything under other keys, in any order and with any sweeps
   but no eviction, never lists the channel under that key again.
   */
  lemma EndedSessionStaysEnded(
    cfg: StoreConfig, steps: seq<PersonaLock.Step>, events: seq<Event>, j: nat, ops: seq<Op>, now: nat)
    requires SignsLog(events, PersonaLock.Run(steps).log) && Final(PersonaLock.Run(steps).log, j) && events[j].ended
    requires Quiet(cfg, ops) && Clock(ops) <= now && events[j] in Offered(ops)
    requires OneSessionUnderKey(Offered(ops), events, PersonaLock.Run(steps).log, j)
    ensures forall e :: e in LiveFreshEvents(cfg, After(cfg, ops), now) ==> e.d.Some? && KeyOf(e) != KeyOf(events[j])
  {
    var log := PersonaLock.Run(steps).log;
    forall e | e in Offered(ops) && e.d.Some? && KeyOf(e) == KeyOf(events[j])
      ensures Expiration(e) == e.createdAt + EXPIRATION_OFFSET && (e == events[j] || Newer(events[j], e))
    {
      var i :| 0 <= i < |log| && events[i] == e && PersonaLock.SameSession(log[i], log[j]);
      FinalIsNewest(steps, events, i, j);
    }
    EndedStaysDown(cfg, ops, events[j], now);
  }

  /** What a publisher sends is fresh at its clock, in its own store and in every other with that clock. */
  lemma SentIsFresh(cfg: StoreConfig, steps: seq<PersonaLock.Step>, step: PersonaLock.Step, e: Event)
    requires |PersonaLock.Next(PersonaLock.Run(steps), step).log| > |PersonaLock.Run(steps).log|
    requires Signs(e, PersonaLock.Next(PersonaLock.Run(steps), step).log[|PersonaLock.Run(steps).log|])
    ensures step.Advance? && Fresh(cfg, e, step.clock)
  {
    PersonaLock.DatedByTheClock(steps, step);
  }
}
