/**
 Publishing and persona management as a concurrent protocol.  Each channel has one publisher, which
 runs one call at a time; between any two of its atomic actions any other publisher and any number
 of select, archive, delete and assign calls may run.  An action is what the program does under one
 lock, or one interaction with the key store or the event sink.
 */
module PersonaLock {
  import opened Events

  type Pubkey = nat
  type Channel = string
  datatype PersonaState = Active | Archived

  /** What the engine remembers of a channel it has published. */
  datatype Published = Published(persona: Pubkey, lastCreatedAt: nat)

  /** Why an event is being signed: to end a row under a former persona, to list, or to finish. */
  datatype Purpose = EndFormer(first: bool, next: Pubkey) | List(first: bool) | Finish

  /** Where a channel's publisher is inside its current call. */
  datatype Pc =
    | Idle
    | Checked(first: bool)
    | Resolved(first: bool, pubkey: Pubkey)
    | Signing(purpose: Purpose, pubkey: Pubkey)
    | Sent(purpose: Purpose, pubkey: Pubkey, createdAt: nat)
    | RollingBack
    | FinishResolving
    | Forgetting
    | Releasing

  /** An event handed to the sink; `session` counts the channel's announce sessions. */
  datatype Emitted = Emitted(channel: Channel, session: nat, pubkey: Pubkey, createdAt: nat, ended: bool)

  datatype State = State(
    personas: map<Pubkey, PersonaState>,
    selected: Option<Pubkey>,
    assignments: map<Channel, Pubkey>,
    broadcasting: set<Channel>,
    states: map<Channel, Published>,
    pcs: map<Channel, Pc>,
    sessions: map<Channel, nat>,
    log: seq<Emitted>)

  const START := State(map[], None, map[], {}, map[], map[], map[], [])

  function PcOf(s: State, c: Channel): Pc {
    if c in s.pcs then s.pcs[c] else Idle
  }

  function SessionOf(s: State, c: Channel): nat {
    if c in s.sessions then s.sessions[c] else 0
  }

  /** How a check that the model does not decide turns out: existence, usability, decryption, signing. */
  datatype Chance = Succeeds | Declines | Fails

  datatype Step =
    | Start(channel: Channel, ending: bool)
    | Advance(channel: Channel, chance: Chance, clock: nat)
    | Select(pubkey: Pubkey)
    | Archive(pubkey: Pubkey)
    | Activate(pubkey: Pubkey)
    | Delete(pubkey: Pubkey)
    | Create(pubkey: Pubkey)
    | Assign(channel: Channel, pubkey: Pubkey)

  /**
   The persona that signs for a channel: its assignment while that persona exists, else the selected
   one.  The checks on the selected persona (present, active, usable) only ever turn it into none.
   */
  function Resolve(s: State, c: Channel, chance: Chance): Option<Pubkey> {
    if c in s.assignments && s.assignments[c] in s.personas then Some(s.assignments[c])
    else if chance.Succeeds? then s.selected
    else None
  }

  /** Later than the channel's previous event even if the clock is not. */
  function NextCreatedAt(s: State, c: Channel, clock: nat): nat {
    if c in s.states && clock <= s.states[c].lastCreatedAt then s.states[c].lastCreatedAt + 1 else clock
  }

  /** What follows once an event has been signed and recorded, or could not be signed. */
  function AfterSigning(purpose: Purpose, signed: bool): Pc {
    match purpose
    case EndFormer(first, next) => Signing(List(first), next)
    case List(first) => if !signed && first then RollingBack else Idle
    case Finish => Forgetting
  }

  /** What one action of a publisher does besides moving on. */
  datatype Effect = Nothing | Reserve | ReleaseLock | Send(pubkey: Pubkey, createdAt: nat, ended: bool) | Record(entry: Published) | Forget

  /** The publisher's next action, from where it is in its call. */
  function Action(s: State, c: Channel, chance: Chance, clock: nat): (Pc, Effect) {
    match PcOf(s, c)
    case Idle => (Idle, Nothing)
    case Checked(first) =>
      var persona := Resolve(s, c, chance);
      if chance.Fails? || persona.None? then (Idle, Nothing)
      // The first listing reserves the channel under the same lock that resolves the persona.
      else (Resolved(first, persona.value), if first then Reserve else Nothing)
    case Resolved(first, pk) =>
      if c in s.states && s.states[c].persona != pk
      then (Signing(EndFormer(first, pk), s.states[c].persona), Nothing)
      else (Signing(List(first), pk), Nothing)
    case Signing(purpose, pk) =>
      if !chance.Succeeds? then (AfterSigning(purpose, false), Nothing)
      else
        var t := NextCreatedAt(s, c, clock);
        (Sent(purpose, pk, t), Send(pk, t, !purpose.List?))
    case Sent(purpose, pk, t) => (AfterSigning(purpose, true), Record(Published(pk, t)))
    case RollingBack => (Idle, ReleaseLock)
    case FinishResolving =>
      var persona := Resolve(s, c, chance);
      if chance.Fails? then (Idle, Nothing)
      else if persona.None? then (Forgetting, Nothing)
      else (Signing(Finish, persona.value), Nothing)
    case Forgetting => (Releasing, Forget)
    case Releasing => (Idle, ReleaseLock)
  }

  function Perform(s: State, c: Channel, pc: Pc, effect: Effect): State {
    State(
      s.personas, s.selected, s.assignments,
      match effect { case Reserve => s.broadcasting + {c} case ReleaseLock => s.broadcasting - {c} case _ => s.broadcasting },
      match effect { case Record(entry) => s.states[c := entry] case Forget => s.states - {c} case _ => s.states },
      s.pcs[c := pc],
      if effect.ReleaseLock? then s.sessions[c := SessionOf(s, c) + 1] else s.sessions,
      if effect.Send? then s.log + [Emitted(c, SessionOf(s, c), effect.pubkey, effect.createdAt, effect.ended)] else s.log)
  }

  function AdvanceChannel(s: State, c: Channel, chance: Chance, clock: nat): State {
    var (pc, effect) := Action(s, c, chance, clock);
    Perform(s, c, pc, effect)
  }

  /** How a call begins: a listing checks whether it is the first, an ending whether there was one. */
  function Begin(s: State, c: Channel, ending: bool): Pc {
    if !ending then Checked(c !in s.states)
    else if c in s.states then Signing(Finish, s.states[c].persona)
    else FinishResolving
  }

  /** Changing, archiving or deleting the selected persona is refused while anything is on the air. */
  predicate Locked(s: State, pk: Pubkey) {
    s.broadcasting != {} && s.selected == Some(pk)
  }

  /**
   `Select` is the locked part of a selection: the checks before it run unlocked and may be out of
   date, so any persona may be asked for.
   */
  function Next(s: State, step: Step): State {
    match step
    case Start(c, ending) => if PcOf(s, c).Idle? then Perform(s, c, Begin(s, c, ending), Nothing) else s
    case Advance(c, chance, clock) => AdvanceChannel(s, c, chance, clock)
    case Select(pk) => if s.broadcasting != {} then s else s.(selected := Some(pk))
    case Archive(pk) => if Locked(s, pk) || pk !in s.personas then s else s.(personas := s.personas[pk := Archived])
    case Activate(pk) => if pk !in s.personas then s else s.(personas := s.personas[pk := Active])
    case Delete(pk) =>
      if Locked(s, pk) || pk !in s.personas then s
      else s.(personas := s.personas - {pk}, assignments := map c | c in s.assignments && s.assignments[c] != pk :: s.assignments[c])
    case Create(pk) => if pk in s.personas then s else s.(personas := s.personas[pk := Active])
    case Assign(c, pk) => if pk !in s.personas then s else s.(assignments := s.assignments[c := pk])
  }

  ghost function Run(steps: seq<Step>): State {
    if steps == [] then START else Next(Run(steps[..|steps| - 1]), steps[|steps| - 1])
  }

  ghost predicate NeverAssigned(steps: seq<Step>, c: Channel) {
    forall i :: 0 <= i < |steps| && steps[i].Assign? ==> steps[i].channel != c
  }

  // ---- The selected persona is frozen while broadcasting ------------------------------------

  /** While a channel is on the air, no step changes the selection, or archives or deletes that persona. */
  lemma SelectedFrozen(s: State, step: Step)
    requires s.broadcasting != {}
    ensures Next(s, step).selected == s.selected
    ensures s.selected.Some? && s.selected.value in s.personas ==>
              && s.selected.value in Next(s, step).personas
              && (s.personas[s.selected.value].Active? ==> Next(s, step).personas[s.selected.value].Active?)
  {
  }

  // ---- Every channel: recorded exactly when on the air, and rising times ---------------------

  ghost predicate SameSession(x: Emitted, y: Emitted) {
    x.channel == y.channel && x.session == y.session
  }

  ghost predicate Rising(log: seq<Emitted>, c: Channel) {
    forall i, j :: 0 <= i < j < |log| && log[i].channel == c && SameSession(log[i], log[j]) ==>
      log[i].createdAt < log[j].createdAt
  }

  ghost predicate Mine(x: Emitted, s: State, c: Channel) {
    x.channel == c && x.session == SessionOf(s, c)
  }

  /** Every event of the current session is dated `t` or earlier. */
  ghost predicate UpTo(s: State, c: Channel, t: nat) {
    forall i :: 0 <= i < |s.log| && Mine(s.log[i], s, c) ==> s.log[i].createdAt <= t
  }

  ghost predicate SessionEmpty(s: State, c: Channel) {
    forall i :: 0 <= i < |s.log| ==> !Mine(s.log[i], s, c)
  }

  ghost predicate NoLaterSession(s: State, c: Channel) {
    forall i :: 0 <= i < |s.log| && s.log[i].channel == c ==> s.log[i].session <= SessionOf(s, c)
  }

  ghost predicate Listed(s: State, c: Channel) {
    c in s.states && c in s.broadcasting
  }

  ghost predicate Absent(s: State, c: Channel) {
    c !in s.states && c !in s.broadcasting
  }

  ghost predicate Reserved(s: State, c: Channel) {
    c !in s.states && c in s.broadcasting
  }

  /** Where the channel's publisher is decides what is recorded and what is on the air. */
  ghost predicate RecordOk(s: State, c: Channel) {
    match PcOf(s, c)
    case Idle => Listed(s, c) || Absent(s, c)
    case Checked(first) => if first then Absent(s, c) else Listed(s, c)
    case Resolved(first, _) => if first then Reserved(s, c) else Listed(s, c)
    case Signing(EndFormer(first, _), _) => !first && Listed(s, c)
    case Signing(List(first), _) => if first then Reserved(s, c) else Listed(s, c)
    case Signing(Finish, _) => Listed(s, c) || Absent(s, c)
    case Sent(EndFormer(first, _), _, _) => !first && Listed(s, c)
    case Sent(List(_), _, _) => c in s.broadcasting
    case Sent(Finish, _, _) => true
    case RollingBack => c !in s.states
    case FinishResolving => Absent(s, c)
    case Forgetting => true
    case Releasing => c !in s.states
  }

  /** The engine's record, or the event just sent, is the session's latest. */
  ghost predicate TimesOk(s: State, c: Channel) {
    match PcOf(s, c)
    case Sent(_, _, t) => UpTo(s, c, t)
    case Releasing => true
    case _ => if c in s.states then UpTo(s, c, s.states[c].lastCreatedAt) else SessionEmpty(s, c)
  }

  ghost predicate SessionInv(s: State, c: Channel) {
    RecordOk(s, c) && TimesOk(s, c) && Rising(s.log, c) && NoLaterSession(s, c)
  }

  /** A step of someone else that leaves the channel's own part of the state alone. */
  ghost predicate LeavesAlone(s: State, s': State, c: Channel) {
    && PcOf(s', c) == PcOf(s, c) && SessionOf(s', c) == SessionOf(s, c)
    && (c in s'.states <==> c in s.states) && (c in s.states ==> s'.states[c] == s.states[c])
    && (c in s'.broadcasting <==> c in s.broadcasting)
    && s.log <= s'.log && forall i :: |s.log| <= i < |s'.log| ==> s'.log[i].channel != c
  }

  lemma OthersKeepSession(s: State, s': State, c: Channel)
    requires SessionInv(s, c) && LeavesAlone(s, s', c)
    ensures SessionInv(s', c)
  {
    assert forall i :: 0 <= i < |s.log| ==> s'.log[i] == s.log[i];
  }

  lemma SendRises(s: State, c: Channel, x: Emitted)
    requires Rising(s.log, c) && NoLaterSession(s, c) && Mine(x, s, c)
    requires if c in s.states then UpTo(s, c, s.states[c].lastCreatedAt) && x.createdAt > s.states[c].lastCreatedAt else SessionEmpty(s, c)
    ensures Rising(s.log + [x], c)
  {
    var log := s.log + [x];
    forall i, j | 0 <= i < j < |log| && log[i].channel == c && SameSession(log[i], log[j])
      ensures log[i].createdAt < log[j].createdAt
    {
      assert log[i] == s.log[i];
      if j < |s.log| {
        assert log[j] == s.log[j];
      }
    }
  }

  lemma SendKeepsSession(s: State, c: Channel, clock: nat)
    requires SessionInv(s, c) && PcOf(s, c).Signing?
    ensures
      var purpose, pk, t := PcOf(s, c).purpose, PcOf(s, c).pubkey, NextCreatedAt(s, c, clock);
      SessionInv(Perform(s, c, Sent(purpose, pk, t), Send(pk, t, !purpose.List?)), c)
  {
    var purpose, pk, t := PcOf(s, c).purpose, PcOf(s, c).pubkey, NextCreatedAt(s, c, clock);
    SendRises(s, c, Emitted(c, SessionOf(s, c), pk, t, !purpose.List?));
  }

  /** Actions that send nothing and release nothing leave the session's events as they were. */
  lemma SameEvents(s: State, c: Channel, pc: Pc, effect: Effect)
    requires !effect.Send? && !effect.ReleaseLock?
    ensures
      var s' := Perform(s, c, pc, effect);
      && PcOf(s', c) == pc && SessionOf(s', c) == SessionOf(s, c) && s'.log == s.log
      && (SessionEmpty(s, c) <==> SessionEmpty(s', c)) && (forall t :: UpTo(s, c, t) <==> UpTo(s', c, t))
      && (NoLaterSession(s, c) <==> NoLaterSession(s', c))
  {
  }

  lemma ReleaseKeepsSession(s: State, c: Channel)
    requires SessionInv(s, c) && c !in s.states
    ensures SessionInv(Perform(s, c, Idle, ReleaseLock), c)
  {
  }

  lemma OwnStepKeepsSession(s: State, c: Channel, chance: Chance, clock: nat)
    requires SessionInv(s, c)
    ensures SessionInv(AdvanceChannel(s, c, chance, clock), c)
  {
    var (pc, effect) := Action(s, c, chance, clock);
    if effect.Send? {
      SendKeepsSession(s, c, clock);
    } else if effect.ReleaseLock? {
      ReleaseKeepsSession(s, c);
    } else {
      MovingKeepsSession(s, c, chance, clock);
    }
  }

  lemma MovingKeepsSession(s: State, c: Channel, chance: Chance, clock: nat)
    requires SessionInv(s, c)
    requires !Action(s, c, chance, clock).1.Send? && !Action(s, c, chance, clock).1.ReleaseLock?
    ensures SessionInv(AdvanceChannel(s, c, chance, clock), c)
  {
    var (pc, effect) := Action(s, c, chance, clock);
    SameEvents(s, c, pc, effect);
    MovingKeepsRecord(s, c, chance, clock);
    MovingKeepsTimes(s, c, chance, clock);
  }

  lemma MovingKeepsRecord(s: State, c: Channel, chance: Chance, clock: nat)
    requires RecordOk(s, c)
    requires !Action(s, c, chance, clock).1.Send? && !Action(s, c, chance, clock).1.ReleaseLock?
    ensures RecordOk(AdvanceChannel(s, c, chance, clock), c)
  {
  }

  lemma MovingKeepsTimes(s: State, c: Channel, chance: Chance, clock: nat)
    requires RecordOk(s, c) && TimesOk(s, c)
    requires !Action(s, c, chance, clock).1.Send? && !Action(s, c, chance, clock).1.ReleaseLock?
    ensures TimesOk(AdvanceChannel(s, c, chance, clock), c)
  {
    var (pc, effect) := Action(s, c, chance, clock);
    SameEvents(s, c, pc, effect);
  }

  /** Whatever anyone does, assigning personas included. */
  lemma StepKeepsSession(s: State, step: Step, c: Channel)
    requires SessionInv(s, c)
    ensures SessionInv(Next(s, step), c)
  {
    if step.Advance? && step.channel == c {
      OwnStepKeepsSession(s, c, step.chance, step.clock);
    } else if step.Start? && step.channel == c {
      StartKeepsSession(s, c, step.ending);
    } else {
      OthersLeaveAlone(s, step, c);
      OthersKeepSession(s, Next(s, step), c);
    }
  }

  lemma StartKeepsSession(s: State, c: Channel, ending: bool)
    requires SessionInv(s, c)
    ensures SessionInv(Next(s, Start(c, ending)), c)
  {
    SameEvents(s, c, Begin(s, c, ending), Nothing);
  }

  lemma OthersLeaveAlone(s: State, step: Step, c: Channel)
    requires step.Advance? || step.Start? ==> step.channel != c
    ensures LeavesAlone(s, Next(s, step), c)
    ensures s.broadcasting != {} ==> Next(s, step).selected == s.selected
    ensures c !in s.assignments && (step.Assign? ==> step.channel != c) ==> c !in Next(s, step).assignments
  {
  }

  lemma {:induction false} RunSession(steps: seq<Step>, c: Channel)
    ensures SessionInv(Run(steps), c)
  {
    if steps != [] {
      RunSession(steps[..|steps| - 1], c);
      StepKeepsSession(Run(steps[..|steps| - 1]), steps[|steps| - 1], c);
    }
  }

  /** In every interleaving the times of one announce session strictly increase, whatever the wall clock does. */
  lemma RisingTimes(steps: seq<Step>, i: nat, j: nat)
    requires i < j < |Run(steps).log| && SameSession(Run(steps).log[i], Run(steps).log[j])
    ensures Run(steps).log[i].createdAt < Run(steps).log[j].createdAt
  {
    RunSession(steps, Run(steps).log[i].channel);
  }

  /** Between calls a channel is recorded by the engine exactly when it is on the air. */
  lemma RecordedIffBroadcasting(steps: seq<Step>, c: Channel)
    requires PcOf(Run(steps), c).Idle?
    ensures c in Run(steps).states <==> c in Run(steps).broadcasting
  {
    RunSession(steps, c);
  }

  // ---- Events are dated by the clock ---------------------------------------------------------

  ghost predicate HasDated(s: State, c: Channel, t: nat) {
    exists i :: 0 <= i < |s.log| && Mine(s.log[i], s, c) && s.log[i].createdAt == t
  }

  /** The recorded time is that of an event of the session, and so is that of the event just sent. */
  ghost predicate Witnessed(s: State, c: Channel) {
    && (PcOf(s, c).Sent? ==> HasDated(s, c, PcOf(s, c).createdAt))
    && (c in s.states ==> HasDated(s, c, s.states[c].lastCreatedAt))
  }

  lemma KeptDated(s: State, s': State, c: Channel, t: nat)
    requires HasDated(s, c, t) && SessionOf(s', c) == SessionOf(s, c) && s.log <= s'.log
    ensures HasDated(s', c, t)
  {
    var i :| 0 <= i < |s.log| && Mine(s.log[i], s, c) && s.log[i].createdAt == t;
    assert s'.log[i] == s.log[i] && Mine(s'.log[i], s', c);
  }

  lemma OwnStepKeepsWitnessed(s: State, c: Channel, chance: Chance, clock: nat)
    requires RecordOk(s, c) && Witnessed(s, c)
    ensures Witnessed(AdvanceChannel(s, c, chance, clock), c)
  {
    var (pc, effect) := Action(s, c, chance, clock);
    var s' := Perform(s, c, pc, effect);
    if !effect.ReleaseLock? {
      assert SessionOf(s', c) == SessionOf(s, c) && s.log <= s'.log;
      if c in s.states { KeptDated(s, s', c, s.states[c].lastCreatedAt); }
      if PcOf(s, c).Sent? { KeptDated(s, s', c, PcOf(s, c).createdAt); }
      if effect.Send? {
        assert Mine(s'.log[|s.log|], s', c) && s'.log[|s.log|].createdAt == effect.createdAt;
      }
    }
  }

  lemma StepKeepsWitnessed(s: State, step: Step, c: Channel)
    requires RecordOk(s, c) && Witnessed(s, c)
    ensures Witnessed(Next(s, step), c)
  {
    if step.Advance? && step.channel == c {
      OwnStepKeepsWitnessed(s, c, step.chance, step.clock);
    } else {
      var s' := Next(s, step);
      assert SessionOf(s', c) == SessionOf(s, c) && s.log <= s'.log;
      if c in s.states { KeptDated(s, s', c, s.states[c].lastCreatedAt); }
      if PcOf(s, c).Sent? { KeptDated(s, s', c, PcOf(s, c).createdAt); }
    }
  }

  lemma {:induction false} RunWitnessed(steps: seq<Step>, c: Channel)
    ensures Witnessed(Run(steps), c)
  {
    if steps != [] {
      RunWitnessed(steps[..|steps| - 1], c);
      RunSession(steps[..|steps| - 1], c);
      StepKeepsWitnessed(Run(steps[..|steps| - 1]), steps[|steps| - 1], c);
    }
  }

  /**
   In every run, an event is dated by the clock of the step that sends it; it is dated later only
   when its session already has an event of the second before.
   */
  lemma DatedByTheClock(steps: seq<Step>, step: Step)
    ensures
      var log, log' := Run(steps).log, Next(Run(steps), step).log;
      log' == log ||
      (step.Advance? && |log'| == |log| + 1 && log <= log' &&
        var x := log'[|log|];
        && x.channel == step.channel && x.createdAt >= step.clock
        && (x.createdAt > step.clock ==> exists i :: 0 <= i < |log| && SameSession(log[i], x) && log[i].createdAt == x.createdAt - 1))
  {
    var s := Run(steps);
    if step.Advance? && Action(s, step.channel, step.chance, step.clock).1.Send? {
      var c := step.channel;
      RunWitnessed(steps, c);
      if c in s.states {
        var i :| 0 <= i < |s.log| && Mine(s.log[i], s, c) && s.log[i].createdAt == s.states[c].lastCreatedAt;
        assert SameSession(s.log[i], Next(s, step).log[|s.log|]);
      }
    }
  }

  // ---- Channels without an assignment: one persona per session -------------------------------

  ghost predicate OneAuthor(log: seq<Emitted>, c: Channel) {
    forall i, j :: 0 <= i < j < |log| && log[i].channel == c && SameSession(log[i], log[j]) ==>
      log[i].pubkey == log[j].pubkey && !log[i].ended
  }

  /** Every event of the current session is by `pk` and not an ended one. */
  ghost predicate By(s: State, c: Channel, pk: Pubkey) {
    forall i :: 0 <= i < |s.log| && Mine(s.log[i], s, c) ==> s.log[i].pubkey == pk && !s.log[i].ended
  }

  /** What is listed is signed by the selected persona. */
  ghost predicate ListedBy(s: State, c: Channel, pk: Pubkey) {
    c in s.states ==> s.states[c].persona == pk && s.selected == Some(pk) && By(s, c, pk)
  }

  ghost predicate PersonaOk(s: State, c: Channel) {
    match PcOf(s, c)
    case Idle => c in s.states ==> ListedBy(s, c, s.states[c].persona)
    case Checked(_) => c in s.states ==> ListedBy(s, c, s.states[c].persona)
    case Resolved(_, pk) => s.selected == Some(pk) && ListedBy(s, c, pk)
    case Signing(List(_), pk) => s.selected == Some(pk) && ListedBy(s, c, pk)
    case Signing(Finish, pk) => ListedBy(s, c, pk)
    case Sent(List(_), pk, t) => s.selected == Some(pk) && By(s, c, pk)
    case Signing(EndFormer(_, _), _) => false
    case Sent(EndFormer(_, _), _, _) => false
    case _ => true
  }

  ghost predicate LockInv(s: State, c: Channel) {
    c !in s.assignments && SessionInv(s, c) && PersonaOk(s, c) && OneAuthor(s.log, c)
  }

  lemma OthersKeepInv(s: State, s': State, c: Channel)
    requires LockInv(s, c) && c !in s'.assignments && LeavesAlone(s, s', c)
    requires c in s.broadcasting ==> s'.selected == s.selected
    ensures LockInv(s', c)
  {
    OthersKeepSession(s, s', c);
    assert forall i :: 0 <= i < |s.log| ==> s'.log[i] == s.log[i];
  }

  lemma SendByAuthor(s: State, c: Channel, x: Emitted)
    requires OneAuthor(s.log, c) && NoLaterSession(s, c) && Mine(x, s, c) && By(s, c, x.pubkey)
    ensures OneAuthor(s.log + [x], c)
  {
    var log := s.log + [x];
    forall i, j | 0 <= i < j < |log| && log[i].channel == c && SameSession(log[i], log[j])
      ensures log[i].pubkey == log[j].pubkey && !log[i].ended
    {
      assert log[i] == s.log[i];
      if j < |s.log| {
        assert log[j] == s.log[j];
      }
    }
  }

  lemma SendKeepsInv(s: State, c: Channel, clock: nat)
    requires LockInv(s, c) && PcOf(s, c).Signing?
    ensures
      var purpose, pk, t := PcOf(s, c).purpose, PcOf(s, c).pubkey, NextCreatedAt(s, c, clock);
      LockInv(Perform(s, c, Sent(purpose, pk, t), Send(pk, t, !purpose.List?)), c)
  {
    var purpose, pk, t := PcOf(s, c).purpose, PcOf(s, c).pubkey, NextCreatedAt(s, c, clock);
    SendKeepsSession(s, c, clock);
    SendByAuthor(s, c, Emitted(c, SessionOf(s, c), pk, t, !purpose.List?));
  }

  lemma MovingKeepsInv(s: State, c: Channel, chance: Chance, clock: nat)
    requires LockInv(s, c)
    requires !Action(s, c, chance, clock).1.Send? && !Action(s, c, chance, clock).1.ReleaseLock?
    ensures LockInv(AdvanceChannel(s, c, chance, clock), c)
  {
    var (pc, effect) := Action(s, c, chance, clock);
    MovingKeepsSession(s, c, chance, clock);
    SameEvents(s, c, pc, effect);
    SameAuthor(s, c, pc, effect);
  }

  lemma SameAuthor(s: State, c: Channel, pc: Pc, effect: Effect)
    requires !effect.Send? && !effect.ReleaseLock?
    ensures forall pk :: By(s, c, pk) <==> By(Perform(s, c, pc, effect), c, pk)
  {
  }

  lemma OwnStepKeepsInv(s: State, c: Channel, chance: Chance, clock: nat)
    requires LockInv(s, c)
    ensures LockInv(AdvanceChannel(s, c, chance, clock), c)
  {
    var (pc, effect) := Action(s, c, chance, clock);
    if effect.Send? {
      SendKeepsInv(s, c, clock);
    } else if effect.ReleaseLock? {
      ReleaseKeepsSession(s, c);
    } else {
      MovingKeepsInv(s, c, chance, clock);
    }
  }

  lemma StepKeepsInv(s: State, step: Step, c: Channel)
    requires LockInv(s, c) && (step.Assign? ==> step.channel != c)
    ensures LockInv(Next(s, step), c)
  {
    if step.Advance? && step.channel == c {
      OwnStepKeepsInv(s, c, step.chance, step.clock);
    } else if step.Start? && step.channel == c {
      StepKeepsSession(s, step, c);
      SameAuthor(s, c, Begin(s, c, step.ending), Nothing);
    } else {
      OthersLeaveAlone(s, step, c);
      OthersKeepInv(s, Next(s, step), c);
    }
  }

  lemma {:induction false} RunInv(steps: seq<Step>, c: Channel)
    requires NeverAssigned(steps, c)
    ensures LockInv(Run(steps), c)
  {
    if steps != [] {
      RunInv(steps[..|steps| - 1], c);
      StepKeepsInv(Run(steps[..|steps| - 1]), steps[|steps| - 1], c);
    }
  }

  /**
   In every interleaving, the events of one announce session of an unassigned channel carry one
   pubkey, and nothing follows `ended`.
   */
  lemma OnePersonaPerSession(steps: seq<Step>, c: Channel, i: nat, j: nat)
    requires NeverAssigned(steps, c) && i < j < |Run(steps).log|
    requires Run(steps).log[i].channel == c && SameSession(Run(steps).log[i], Run(steps).log[j])
    ensures Run(steps).log[i].pubkey == Run(steps).log[j].pubkey && !Run(steps).log[i].ended
  {
    RunInv(steps, c);
  }
}
