/**
 The publish engine, the identity manager and the set of channels on the air as objects.  Each
 method, run on its own, is a run of the step machine in `PersonaLock`.
 */
module PublishEngine {
  import opened Events
  import opened PersonaLock

  /** What one call meets outside: the database, the key store, signing, and the clock. */
  datatype Outside = Outside(
    storeOk: bool, usable: bool, formerSigns: bool, signs: bool, formerClock: nat, clock: nat)

  predicate SelectedUsable(personas: map<Pubkey, PersonaState>, selected: Option<Pubkey>, usable: bool) {
    selected.Some? && selected.value in personas && personas[selected.value].Active? && usable
  }

  ghost function ChanceAt(s: State, pc: Pc, out: Outside): Chance {
    match pc
    case Signing(EndFormer(_, _), _) => if out.formerSigns then Succeeds else Fails
    case Signing(_, _) => if out.signs then Succeeds else Fails
    case _ =>
      if !out.storeOk then Fails else if SelectedUsable(s.personas, s.selected, out.usable) then Succeeds else Declines
  }

  ghost function ClockAt(pc: Pc, out: Outside): nat {
    if pc.Signing? && pc.purpose.EndFormer? then out.formerClock else out.clock
  }

  ghost function Go(s: State, c: Channel, out: Outside): State {
    AdvanceChannel(s, c, ChanceAt(s, PcOf(s, c), out), ClockAt(PcOf(s, c), out))
  }

  ghost function StepsLeft(pc: Pc): nat {
    match pc
    case Idle => 0
    case Checked(_) => 8
    case Resolved(_, _) => 7
    case Signing(EndFormer(_, _), _) => 6
    case Sent(EndFormer(_, _), _, _) => 5
    case Signing(_, _) => 4
    case Sent(_, _, _) => 3
    case RollingBack => 1
    case FinishResolving => 5
    case Forgetting => 2
    case Releasing => 1
  }

  /** The rest of a call, with nobody acting in between. */
  ghost function RunOut(s: State, c: Channel, out: Outside): State
    decreases StepsLeft(PcOf(s, c))
  {
    if PcOf(s, c).Idle? then s else RunOut(Go(s, c, out), c, out)
  }

  ghost function Call(s: State, c: Channel, ending: bool, out: Outside): State {
    RunOut(Next(s, Start(c, ending)), c, out)
  }

  ghost function Quiet(s: State): State {
    s.(pcs := map[])
  }

  // ---- A call keeps what every step keeps ----------------------------------------------------

  lemma {:induction false} RunOutEnds(s: State, c: Channel, out: Outside, other: Channel)
    ensures PcOf(RunOut(s, c, out), c).Idle?
    ensures other != c ==> PcOf(RunOut(s, c, out), other) == PcOf(s, other)
    decreases StepsLeft(PcOf(s, c))
  {
    if !PcOf(s, c).Idle? {
      GoesOn(s, c, out, other);
      RunOutEnds(Go(s, c, out), c, out, other);
    }
  }

  lemma {:induction false} RunOutKeepsSession(s: State, c: Channel, out: Outside, other: Channel)
    requires SessionInv(s, other)
    ensures SessionInv(RunOut(s, c, out), other)
    decreases StepsLeft(PcOf(s, c))
  {
    if !PcOf(s, c).Idle? {
      GoesOn(s, c, out, other);
      StepKeepsSession(s, Advance(c, ChanceAt(s, PcOf(s, c), out), ClockAt(PcOf(s, c), out)), other);
      RunOutKeepsSession(Go(s, c, out), c, out, other);
    }
  }

  lemma {:induction false} RunOutKeepsInv(s: State, c: Channel, out: Outside, other: Channel)
    requires LockInv(s, other)
    ensures LockInv(RunOut(s, c, out), other)
    decreases StepsLeft(PcOf(s, c))
  {
    if !PcOf(s, c).Idle? {
      GoesOn(s, c, out, other);
      StepKeepsInv(s, Advance(c, ChanceAt(s, PcOf(s, c), out), ClockAt(PcOf(s, c), out)), other);
      RunOutKeepsInv(Go(s, c, out), c, out, other);
    }
  }

  lemma GoesOn(s: State, c: Channel, out: Outside, other: Channel)
    ensures Go(s, c, out) == Next(s, Advance(c, ChanceAt(s, PcOf(s, c), out), ClockAt(PcOf(s, c), out)))
    ensures other != c ==> PcOf(Go(s, c, out), other) == PcOf(s, other)
  {
  }

  lemma QuietKeepsInv(s: State, c: Channel)
    requires SessionInv(s, c) && PcOf(s, c).Idle?
    ensures SessionInv(Quiet(s), c) && (LockInv(s, c) ==> LockInv(Quiet(s), c))
  {
    OthersKeepSession(s, Quiet(s), c);
    if LockInv(s, c) { OthersKeepInv(s, Quiet(s), c); }
  }

  /** A whole call keeps both invariants of every channel. */
  lemma CallKeepsInv(s: State, c: Channel, ending: bool, out: Outside, other: Channel)
    requires SessionInv(s, other) && s.pcs == map[]
    ensures SessionInv(Quiet(Call(s, c, ending, out)), other)
    ensures LockInv(s, other) ==> LockInv(Quiet(Call(s, c, ending, out)), other)
  {
    var started := Next(s, Start(c, ending));
    RunOutEnds(started, c, out, other);
    StepKeepsSession(s, Start(c, ending), other);
    RunOutKeepsSession(started, c, out, other);
    if LockInv(s, other) {
      StepKeepsInv(s, Start(c, ending), other);
      RunOutKeepsInv(started, c, out, other);
    }
    QuietKeepsInv(Call(s, c, ending, out), other);
  }

  // ---- What a call does, in one piece --------------------------------------------------------

  ghost function ResolutionIn(s: State, c: Channel, out: Outside): Resolution {
    if !out.storeOk then StoreError
    else if c in s.assignments && s.assignments[c] in s.personas then Persona(s.assignments[c])
    else if SelectedUsable(s.personas, s.selected, out.usable) then Persona(s.selected.value)
    else Unresolved
  }

  ghost function AfterSignAndSend(s: State, c: Channel, pk: Pubkey, ended: bool, signs: bool, clock: nat): State {
    var t := NextCreatedAt(s, c, clock);
    if !signs then s
    else s.(log := s.log + [Emitted(c, SessionOf(s, c), pk, t, ended)], states := s.states[c := Published(pk, t)])
  }

  ghost function AfterRelease(s: State, c: Channel): State {
    s.(broadcasting := s.broadcasting - {c}, sessions := s.sessions[c := SessionOf(s, c) + 1])
  }

  /** A first listing that cannot be signed gives its reservation back. */
  ghost function AfterSigningList(s: State, c: Channel, pk: Pubkey, first: bool, out: Outside): State {
    var t := AfterSignAndSend(s, c, pk, false, out.signs, out.clock);
    if !out.signs && first then AfterRelease(t, c) else t
  }

  ghost function AfterListAs(s: State, c: Channel, pk: Pubkey, first: bool, out: Outside): State {
    if c in s.states && s.states[c].persona != pk
    then AfterSigningList(AfterSignAndSend(s, c, s.states[c].persona, true, out.formerSigns, out.formerClock), c, pk, first, out)
    else AfterSigningList(s, c, pk, first, out)
  }

  ghost function AfterListing(s: State, c: Channel, out: Outside): State {
    var first, r := c !in s.states, ResolutionIn(s, c, out);
    if !r.Persona? then s
    else AfterListAs(s.(broadcasting := if first then s.broadcasting + {c} else s.broadcasting), c, r.pubkey, first, out)
  }

  ghost function AfterForgetting(s: State, c: Channel): State {
    AfterRelease(s.(states := s.states - {c}), c)
  }

  ghost function AfterEnding(s: State, c: Channel, out: Outside): State {
    var r := if c in s.states then Persona(s.states[c].persona) else ResolutionIn(s, c, out);
    match r
    case StoreError => s
    case Unresolved => AfterForgetting(s, c)
    case Persona(pk) => AfterForgetting(AfterSignAndSend(s, c, pk, true, out.signs, out.clock), c)
  }

  lemma ReleasesAtEnd(s: State, c: Channel, out: Outside)
    requires PcOf(s, c).RollingBack? || PcOf(s, c).Releasing?
    ensures Quiet(RunOut(s, c, out)) == AfterRelease(Quiet(s), c)
  {
    assert RunOut(Go(s, c, out), c, out) == Go(s, c, out);
  }

  lemma SendsAndRecords(s: State, c: Channel, out: Outside) returns (t: State)
    requires PcOf(s, c).Signing?
    ensures
      var purpose := PcOf(s, c).purpose;
      var ok, clock := if purpose.EndFormer? then out.formerSigns else out.signs, ClockAt(PcOf(s, c), out);
      && RunOut(s, c, out) == RunOut(t, c, out) && PcOf(t, c) == AfterSigning(purpose, ok)
      && Quiet(t) == AfterSignAndSend(Quiet(s), c, PcOf(s, c).pubkey, !purpose.List?, ok, clock)
  {
    t := Sends(s, c, out);
    if PcOf(t, c).Sent? {
      t := Records(t, c, out);
    }
  }

  lemma Sends(s: State, c: Channel, out: Outside) returns (t: State)
    requires PcOf(s, c).Signing?
    ensures
      var purpose, pk, clock := PcOf(s, c).purpose, PcOf(s, c).pubkey, ClockAt(PcOf(s, c), out);
      var ok, at := if purpose.EndFormer? then out.formerSigns else out.signs, NextCreatedAt(s, c, clock);
      && RunOut(s, c, out) == RunOut(t, c, out)
      && PcOf(t, c) == (if ok then Sent(purpose, pk, at) else AfterSigning(purpose, false))
      && Quiet(t) == if ok then Quiet(s).(log := s.log + [Emitted(c, SessionOf(s, c), pk, at, !purpose.List?)]) else Quiet(s)
  {
    t := Go(s, c, out);
  }

  lemma Records(s: State, c: Channel, out: Outside) returns (t: State)
    requires PcOf(s, c).Sent?
    ensures
      var purpose, pk, at := PcOf(s, c).purpose, PcOf(s, c).pubkey, PcOf(s, c).createdAt;
      && RunOut(s, c, out) == RunOut(t, c, out) && PcOf(t, c) == AfterSigning(purpose, true)
      && Quiet(t) == Quiet(s).(states := s.states[c := Published(pk, at)])
  {
    t := Go(s, c, out);
  }

  lemma ListSigned(s: State, c: Channel, out: Outside)
    requires PcOf(s, c).Signing? && PcOf(s, c).purpose.List?
    ensures Quiet(RunOut(s, c, out)) == AfterSigningList(Quiet(s), c, PcOf(s, c).pubkey, PcOf(s, c).purpose.first, out)
  {
    var t := SendsAndRecords(s, c, out);
    if PcOf(t, c).RollingBack? {
      ReleasesAtEnd(t, c, out);
    }
  }

  lemma ListedAs(s: State, c: Channel, out: Outside)
    requires PcOf(s, c).Resolved?
    ensures Quiet(RunOut(s, c, out)) == AfterListAs(Quiet(s), c, PcOf(s, c).pubkey, PcOf(s, c).first, out)
  {
    var t := Go(s, c, out);
    assert RunOut(s, c, out) == RunOut(t, c, out);
    if PcOf(t, c).purpose.EndFormer? {
      t := SendsAndRecords(t, c, out);
    }
    ListSigned(t, c, out);
  }

  /** A listing call is `AfterListing`. */
  lemma ListingIsCall(s: State, c: Channel, out: Outside)
    requires s.pcs == map[]
    ensures Quiet(Call(s, c, false, out)) == AfterListing(s, c, out)
  {
    var t := ListingResolves(s, c, out);
    if PcOf(t, c).Resolved? {
      ListedAs(t, c, out);
    }
  }

  lemma ListingResolves(s: State, c: Channel, out: Outside) returns (t: State)
    requires s.pcs == map[]
    ensures Call(s, c, false, out) == RunOut(t, c, out)
    ensures
      var first, r := c !in s.states, ResolutionIn(s, c, out);
      if r.Persona?
      then PcOf(t, c) == Resolved(first, r.pubkey)
        && Quiet(t) == s.(broadcasting := if first then s.broadcasting + {c} else s.broadcasting)
      else PcOf(t, c).Idle? && Quiet(t) == s
  {
    t := Go(Next(s, Start(c, false)), c, out);
  }

  lemma ForgetsAtEnd(s: State, c: Channel, out: Outside)
    requires PcOf(s, c).Forgetting?
    ensures Quiet(RunOut(s, c, out)) == AfterForgetting(Quiet(s), c)
  {
    ReleasesAtEnd(Go(s, c, out), c, out);
  }

  lemma FinishSigned(s: State, c: Channel, out: Outside)
    requires PcOf(s, c).Signing? && PcOf(s, c).purpose.Finish?
    ensures Quiet(RunOut(s, c, out))
            == AfterForgetting(AfterSignAndSend(Quiet(s), c, PcOf(s, c).pubkey, true, out.signs, out.clock), c)
  {
    var t := SendsAndRecords(s, c, out);
    ForgetsAtEnd(t, c, out);
  }

  /** An ending call is `AfterEnding`. */
  lemma EndingIsCall(s: State, c: Channel, out: Outside)
    requires s.pcs == map[]
    ensures Quiet(Call(s, c, true, out)) == AfterEnding(s, c, out)
  {
    var t := Next(s, Start(c, true));
    if PcOf(t, c).FinishResolving? {
      assert RunOut(t, c, out) == RunOut(Go(t, c, out), c, out);
      t := Go(t, c, out);
    }
    if PcOf(t, c).Forgetting? {
      ForgetsAtEnd(t, c, out);
    } else if PcOf(t, c).Signing? {
      FinishSigned(t, c, out);
    }
  }

  /** So no call of the engine breaks the record, the times or the lock of any channel. */
  lemma EngineKeepsLock(s: State, c: Channel, out: Outside, other: Channel)
    requires SessionInv(s, other) && s.pcs == map[]
    ensures SessionInv(AfterListing(s, c, out), other) && SessionInv(AfterEnding(s, c, out), other)
    ensures LockInv(s, other) ==> LockInv(AfterListing(s, c, out), other) && LockInv(AfterEnding(s, c, out), other)
  {
    ListingIsCall(s, c, out);
    CallKeepsInv(s, c, false, out, other);
    EndingIsCall(s, c, out);
    CallKeepsInv(s, c, true, out, other);
  }

  /**
   Only an assignment can split a session: a listing call for a listed channel signs with another
   persona exactly when another one is resolved and can sign.
   */
  lemma SamePersonaExactly(s: State, c: Channel, out: Outside)
    requires c in s.states
    ensures
      var log, r := AfterListing(s, c, out).log, ResolutionIn(s, c, out);
      && s.log <= log
      && ((exists i :: |s.log| <= i < |log| && log[i].pubkey != s.states[c].persona)
          <==> r.Persona? && r.pubkey != s.states[c].persona && out.signs)
  {
    var log, r := AfterListing(s, c, out).log, ResolutionIn(s, c, out);
    if r.Persona? && r.pubkey != s.states[c].persona && out.signs {
      assert log[|log| - 1].pubkey == r.pubkey;
    }
  }

  // ---- What a call means ---------------------------------------------------------------------

  /** The persona that must sign: the assigned one while it exists, else the selected one while it is active and usable. */
  ghost predicate MustSign(s: State, c: Channel, usable: bool, pk: Pubkey) {
    if c in s.assignments && s.assignments[c] in s.personas then s.assignments[c] == pk
    else s.selected == Some(pk) && pk in s.personas && s.personas[pk] == Active && usable
  }

  ghost function LastSent(s: State, t: State): Option<Emitted> {
    if |t.log| > |s.log| then Some(t.log[|t.log| - 1]) else None
  }

  /** A listing call sends a live event by the persona that must sign, and puts the channel on the air. */
  lemma ListingSends(s: State, c: Channel, out: Outside, pk: Pubkey)
    requires MustSign(s, c, out.usable, pk) && out.storeOk && out.signs
    ensures
      var t := AfterListing(s, c, out);
      var x := LastSent(s, t);
      && x.Some? && x.value.channel == c && x.value.session == SessionOf(s, c) && x.value.pubkey == pk && !x.value.ended
      && c in t.states && t.states[c] == Published(pk, x.value.createdAt)
      && t.broadcasting == (if c in s.states then s.broadcasting else s.broadcasting + {c})
      && |t.log| - |s.log| == (if c in s.states && s.states[c].persona != pk && out.formerSigns then 2 else 1)
  {
  }

  /** Before the first event of a new persona comes the ended event of the former one. */
  lemma FormerIsEnded(s: State, c: Channel, out: Outside, pk: Pubkey)
    requires MustSign(s, c, out.usable, pk) && out.storeOk && out.signs && out.formerSigns
    requires c in s.states && s.states[c].persona != pk
    ensures
      var log := AfterListing(s, c, out).log;
      && |log| == |s.log| + 2 && log[|s.log|].ended && log[|s.log|].pubkey == s.states[c].persona
      && log[|s.log|].channel == c && log[|s.log|].createdAt < log[|s.log| + 1].createdAt
  {
  }

  /** With nobody to sign, or no database, nothing happens at all. */
  lemma HeldBack(s: State, c: Channel, out: Outside)
    requires !out.storeOk || forall pk :: !MustSign(s, c, out.usable, pk)
    ensures AfterListing(s, c, out) == s
  {
    ResolvedMustSign(s, c, out);
  }

  lemma ResolvedMustSign(s: State, c: Channel, out: Outside)
    ensures ResolutionIn(s, c, out).Persona? ==> out.storeOk && MustSign(s, c, out.usable, ResolutionIn(s, c, out).pubkey)
  {
  }

  /** A first listing that cannot be signed leaves nothing on the air. */
  lemma FailedFirstListing(s: State, c: Channel, out: Outside)
    requires c !in s.states && c !in s.broadcasting && !out.signs
    ensures
      var t := AfterListing(s, c, out);
      t.log == s.log && t.states == s.states && t.broadcasting == s.broadcasting
  {
  }

  /** Ending a listed channel sends one ended event by the persona that listed it and takes it off the air. */
  lemma EndingSends(s: State, c: Channel, out: Outside)
    requires c in s.states
    ensures
      var t := AfterEnding(s, c, out);
      && c !in t.states && t.broadcasting == s.broadcasting - {c}
      && (if out.signs then
            |t.log| == |s.log| + 1 && t.log[|s.log|].ended && t.log[|s.log|].channel == c
            && t.log[|s.log|].pubkey == s.states[c].persona && t.log[|s.log|].createdAt > s.states[c].lastCreatedAt
          else t.log == s.log)
  {
  }

  /** Ending a channel that was never listed still tells the network, if there is somebody to sign. */
  lemma EndingUnlistedSends(s: State, c: Channel, out: Outside, pk: Pubkey)
    requires c !in s.states && MustSign(s, c, out.usable, pk) && out.storeOk && out.signs
    ensures
      var t := AfterEnding(s, c, out);
      && c !in t.states && t.broadcasting == s.broadcasting - {c} && |t.log| == |s.log| + 1
      && t.log[|s.log|].ended && t.log[|s.log|].channel == c && t.log[|s.log|].pubkey == pk
  {
  }

  // ---- The objects ---------------------------------------------------------------------------

  datatype Reply = Done | NotFound | NotSelectable | Unusable | BroadcastingLocked
  datatype Resolution = Persona(pubkey: Pubkey) | Unresolved | StoreError
  datatype PublishReply = Issued | Held | Failed

  class BroadcastState {
    var channels: set<Channel>

    constructor ()
      ensures channels == {}
    {
      channels := {};
    }

    /** Resolves the persona and, if there is one, reserves the channel under the same lock. */
    method ReserveAndReadSelected(identity: IdentityManager, c: Channel, storeOk: bool, usable: bool) returns (r: Resolution)
      modifies this
      ensures r == identity.PersonaForChannel(c, storeOk, usable)
      ensures channels == if r.Persona? then old(channels) + {c} else old(channels)
    {
      r := identity.PersonaForChannel(c, storeOk, usable);
      if r.Persona? {
        channels := channels + {c};
      }
    }

    method Release(c: Channel)
      modifies this
      ensures channels == old(channels) - {c}
    {
      channels := channels - {c};
    }
  }

  class IdentityManager {
    const broadcast: BroadcastState
    var personas: map<Pubkey, PersonaState>
    var selected: Option<Pubkey>
    var assignments: map<Channel, Pubkey>

    constructor (broadcast: BroadcastState)
      ensures this.broadcast == broadcast && personas == map[] && selected == None && assignments == map[]
    {
      this.broadcast := broadcast;
      personas, selected, assignments := map[], None, map[];
    }

    ghost function View(): State
      reads this, broadcast
    {
      State(personas, selected, assignments, broadcast.channels, map[], map[], map[], [])
    }

    /** The assigned persona while it exists, else the selected one if it exists, is active and usable. */
    function PersonaForChannel(c: Channel, storeOk: bool, usable: bool): Resolution
      reads this
    {
      if !storeOk then StoreError
      else if c in assignments && assignments[c] in personas then Persona(assignments[c])
      else if SelectedUsable(personas, selected, usable) then Persona(selected.value)
      else Unresolved
    }

    method Select(pk: Pubkey, usable: bool) returns (r: Reply)
      modifies this
      ensures View() == if r.Done? then Next(old(View()), PersonaLock.Select(pk)) else old(View())
      ensures r.Done? <==> pk in old(personas) && old(personas)[pk].Active? && usable && broadcast.channels == {}
      ensures selected == (if r.Done? then Some(pk) else old(selected)) && personas == old(personas) && assignments == old(assignments)
    {
      if pk !in personas {
        return NotFound;
      }
      if !personas[pk].Active? {
        return NotSelectable;
      }
      if !usable {
        return Unusable;
      }
      if broadcast.channels != {} {
        return BroadcastingLocked;
      }
      selected := Some(pk);
      return Done;
    }

    method SetState(pk: Pubkey, state: PersonaState) returns (r: Reply)
      modifies this
      ensures View() == Next(old(View()), if state.Archived? then Archive(pk) else Activate(pk))
      ensures r.Done? <==> pk in old(personas) && !(state.Archived? && broadcast.channels != {} && selected == Some(pk))
      ensures personas == (if r.Done? then old(personas)[pk := state] else old(personas))
      ensures selected == old(selected) && assignments == old(assignments)
    {
      if state.Archived? && broadcast.channels != {} && selected == Some(pk) {
        return BroadcastingLocked;
      }
      if pk !in personas {
        return NotFound;
      }
      personas := personas[pk := state];
      return Done;
    }

    method Delete(pk: Pubkey, usable: bool) returns (r: Reply)
      modifies this
      ensures View() == if usable then Next(old(View()), PersonaLock.Delete(pk)) else old(View())
      ensures r.Done? <==> usable && pk in old(personas) && !(broadcast.channels != {} && selected == Some(pk))
      ensures personas == (if r.Done? then old(personas) - {pk} else old(personas)) && selected == old(selected)
      ensures r.Done? ==> forall c :: (c in assignments <==> c in old(assignments) && old(assignments)[c] != pk)
      ensures r.Done? ==> forall c :: c in assignments ==> assignments[c] == old(assignments)[c]
      ensures !r.Done? ==> assignments == old(assignments)
    {
      if !usable {
        return Unusable;
      }
      if broadcast.channels != {} && selected == Some(pk) {
        return BroadcastingLocked;
      }
      if pk !in personas {
        return NotFound;
      }
      personas := personas - {pk};
      assignments := map c | c in assignments && assignments[c] != pk :: assignments[c];
      return Done;
    }

    method AssignChannel(c: Channel, pk: Pubkey) returns (r: Reply)
      modifies this
      ensures View() == Next(old(View()), Assign(c, pk)) && (r.Done? <==> pk in old(personas))
      ensures assignments == (if r.Done? then old(assignments)[c := pk] else old(assignments))
      ensures personas == old(personas) && selected == old(selected)
    {
      if pk !in personas {
        return NotFound;
      }
      assignments := assignments[c := pk];
      return Done;
    }
  }

  /** Session numbers are kept only to tell one announce session's events from the next one's. */
  class Engine {
    const identity: IdentityManager
    const broadcast: BroadcastState
    var states: map<Channel, Published>
    var sessions: map<Channel, nat>
    var sent: seq<Emitted>

    constructor (identity: IdentityManager)
      ensures this.identity == identity && broadcast == identity.broadcast
      ensures states == map[] && sessions == map[] && sent == []
    {
      this.identity, broadcast := identity, identity.broadcast;
      states, sessions, sent := map[], map[], [];
    }

    ghost predicate Valid()
      reads this
    {
      broadcast == identity.broadcast
    }

    ghost function View(): State
      reads this, identity, identity.broadcast
    {
      identity.View().(states := states, sessions := sessions, log := sent)
    }

    /** Signs later than the channel's previous event, sends, and records persona and time. */
    method SignAndSend(c: Channel, pk: Pubkey, ended: bool, signs: bool, clock: nat)
      modifies this
      ensures View() == AfterSignAndSend(old(View()), c, pk, ended, signs, clock)
      ensures signs ==>
        && |sent| == |old(sent)| + 1
        && var x := sent[|sent| - 1];
           && x.channel == c && x.pubkey == pk && x.ended == ended && x.createdAt >= clock
           && (c in old(states) ==> x.createdAt > old(states)[c].lastCreatedAt)
           && (x.createdAt > clock ==> c in old(states) && x.createdAt == old(states)[c].lastCreatedAt + 1)
           && c in states && states[c] == Published(pk, x.createdAt)
    {
      if !signs {
        return;
      }
      var floor := if c in states then states[c].lastCreatedAt + 1 else 0;
      var t := if clock < floor then floor else clock;
      sent := sent + [Emitted(c, if c in sessions then sessions[c] else 0, pk, t, ended)];
      states := states[c := Published(pk, t)];
    }

    method Release(c: Channel)
      requires Valid()
      modifies this, broadcast
      ensures View() == AfterRelease(old(View()), c)
    {
      broadcast.Release(c);
      sessions := sessions[c := (if c in sessions then sessions[c] else 0) + 1];
    }

    method ListAs(c: Channel, pk: Pubkey, first: bool, out: Outside)
      requires Valid()
      modifies this, broadcast
      ensures View() == AfterListAs(old(View()), c, pk, first, out)
    {
      if c in states && states[c].persona != pk {
        SignAndSend(c, states[c].persona, true, out.formerSigns, out.formerClock);
      }
      SignAndSend(c, pk, false, out.signs, out.clock);
      if !out.signs && first {
        Release(c);
      }
    }

    /** Lists a channel, or holds it back while no persona can sign. */
    method PublishListing(c: Channel, out: Outside) returns (r: PublishReply)
      requires Valid()
      modifies this, broadcast
      ensures View() == AfterListing(old(View()), c, out)
      ensures r.Issued? ==> c in states
      ensures r.Held? ==> View() == old(View())
    {
      var first := c !in states;
      var resolved := identity.PersonaForChannel(c, out.storeOk, out.usable);
      if first {
        resolved := broadcast.ReserveAndReadSelected(identity, c, out.storeOk, out.usable);
      }
      if !resolved.Persona? {
        return if resolved.Unresolved? then Held else Failed;
      }
      ListAs(c, resolved.pubkey, first, out);
      return if out.signs then Issued else Failed;
    }

    /** Ends a channel under the persona that listed it and takes it off the air, signed or not. */
    method PublishEnded(c: Channel, out: Outside) returns (r: PublishReply)
      requires Valid()
      modifies this, broadcast
      ensures View() == AfterEnding(old(View()), c, out)
      ensures c in old(states) || out.storeOk ==> c !in states && c !in broadcast.channels
    {
      var resolved: Resolution;
      if c in states {
        resolved := Persona(states[c].persona);
      } else {
        resolved := identity.PersonaForChannel(c, out.storeOk, out.usable);
      }
      if resolved.StoreError? {
        return Failed;
      }
      if resolved.Persona? {
        SignAndSend(c, resolved.pubkey, true, out.signs, out.clock);
      }
      states := states - {c};
      Release(c);
      return if resolved.Unresolved? then Held else if out.signs then Issued else Failed;
    }
  }
}
