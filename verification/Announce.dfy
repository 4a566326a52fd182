/**
 Announce sessions sharing one channel registry.  A session's own table and the registry's lock are
 separate, so other sessions may act between the two halves of every update.
 */
module Announce {
  import opened Events
  import opened AtomCodec

  const MAX_CHANNELS_PER_SESSION: nat := 16

  /** A 16-byte channel id. */
  type Cid = s: seq<Byte> | |s| == 16 witness seq(16, _ => 0)

  const BCST: AtomId := [98, 99, 115, 116]
  const CHAN: AtomId := [99, 104, 97, 110]
  const HOST: AtomId := [104, 111, 115, 116]
  const ID: AtomId := [105, 100, 0, 0]
  const CID: AtomId := [99, 105, 100, 0]
  const FLG1: AtomId := [102, 108, 103, 49]
  const QUIT: AtomId := [113, 117, 105, 116]

  function FindIn(atoms: seq<Atom>, name: AtomId): Option<Atom> {
    if atoms == [] then None
    else if atoms[0].id == name then Some(atoms[0])
    else FindIn(atoms[1..], name)
  }

  function Find(a: Option<Atom>, name: AtomId): Option<Atom> {
    if a.Some? && a.value.Parent? then FindIn(a.value.children, name) else None
  }

  function OrElse(a: Option<Atom>, b: Option<Atom>): Option<Atom> {
    if a.Some? then a else b
  }

  /** What one received atom asks of an established session. */
  datatype Request = Ignore | Disconnect | StopPlaying(cid: Cid) | Update(cid: Cid)

  /** The RECV bit of the host flags; flags of an unreadable width count as zero. */
  function Playing(host: Option<Atom>): bool {
    var flg1 := Find(host, FLG1);
    && flg1.Some? && flg1.value.Data? && |flg1.value.payload| in {1, 2, 4}
    && flg1.value.payload[0] / 16 % 2 == 1
  }

  function ReadRequest(a: Atom): Request {
    if a.id == QUIT then Disconnect
    else if a.id != BCST then Ignore
    else
      var chan := Find(Some(a), CHAN);
      var host := OrElse(Find(chan, HOST), Find(Some(a), HOST));
      if chan.None? && host.None? then Ignore
      else
        var cid := OrElse(Find(chan, ID), OrElse(Find(Some(a), CID), Find(host, CID)));
        if cid.None? || cid.value.Parent? || |cid.value.payload| != 16 then Disconnect
        else if host.Some? && !Playing(host) then StopPlaying(cid.value.payload)
        else Update(cid.value.payload)
  }

  /** Where a session is between its own table and the registry. */
  datatype Pc = Ready | Upserting(cid: Cid) | Ending(cid: Cid) | EndingAll(rest: set<Cid>) | Closed
  datatype Session = Session(tracked: set<Cid>, pc: Pc)

  datatype System = System(sessions: map<nat, Session>, registry: set<Cid>)
  const NO_SESSIONS := System(map[], {})

  datatype Step =
    | Open(session: nat)
    | Receive(session: nat, atom: Atom)
    | Hangup(session: nat)
    | Continue(session: nat)

  /** The half of an atom's handling that touches the session's own table. */
  function TrackAtom(s: Session, a: Atom): Session
    requires s.pc.Ready?
  {
    TrackRequest(s, ReadRequest(a))
  }

  function TrackRequest(s: Session, request: Request): Session
    requires s.pc.Ready?
  {
    match request
    case Ignore => s
    case Disconnect => Session(s.tracked, EndingAll(s.tracked))
    case StopPlaying(cid) => if cid in s.tracked then Session(s.tracked - {cid}, Ending(cid)) else s
    case Update(cid) =>
      if cid !in s.tracked && |s.tracked| >= MAX_CHANNELS_PER_SESSION then s
      else Session(s.tracked + {cid}, Upserting(cid))
  }

  /** The next registry action of a session, if one is due. */
  ghost function Proceed(s: Session, registry: set<Cid>): (Session, set<Cid>) {
    match s.pc
    case Ready => (s, registry)
    case Closed => (s, registry)
    case Upserting(cid) => (Session(s.tracked, Ready), registry + {cid})
    case Ending(cid) => (Session(s.tracked, Ready), registry - {cid})
    case EndingAll(rest) =>
      if rest == {} then (Session({}, Closed), registry)
      else
        var cid :| cid in rest;
        (Session(s.tracked, EndingAll(rest - {cid})), registry - {cid})
  }

  ghost function Next(sys: System, step: Step): System {
    var id := step.session;
    if step.Open? then
      if id in sys.sessions then sys else System(sys.sessions[id := Session({}, Ready)], sys.registry)
    else if id !in sys.sessions then sys
    else
      var s := sys.sessions[id];
      match step
      case Receive(_, a) => if s.pc.Ready? then System(sys.sessions[id := TrackAtom(s, a)], sys.registry) else sys
      case Hangup(_) =>
        if s.pc.Ready? then System(sys.sessions[id := Session(s.tracked, EndingAll(s.tracked))], sys.registry) else sys
      case _ =>
        var (s', registry) := Proceed(s, sys.registry);
        System(sys.sessions[id := s'], registry)
  }

  ghost function Run(steps: seq<Step>): System {
    if steps == [] then NO_SESSIONS else Next(Run(steps[..|steps| - 1]), steps[|steps| - 1])
  }

  /** The channels a session answers for: tracked, or taken off its table but not yet ended. */
  ghost function Holds(s: Session): set<Cid> {
    match s.pc
    case Ending(cid) => s.tracked + {cid}
    case EndingAll(rest) => rest
    case Closed => {}
    case _ => s.tracked
  }

  ghost predicate HeldBy(sys: System, id: nat, cid: Cid) {
    id in sys.sessions && cid in Holds(sys.sessions[id])
  }

  ghost predicate SessionOk(s: Session) {
    && |s.tracked| <= MAX_CHANNELS_PER_SESSION
    && (s.pc.Upserting? ==> s.pc.cid in s.tracked)
    && (s.pc.EndingAll? ==> s.pc.rest <= s.tracked)
    && (s.pc.Closed? ==> s.tracked == {})
  }

  ghost predicate RegistryInv(sys: System) {
    && (forall cid :: cid in sys.registry ==> exists id :: HeldBy(sys, id, cid))
    && (forall id :: id in sys.sessions ==> SessionOk(sys.sessions[id]))
  }

  lemma TrackOk(s: Session, request: Request)
    requires SessionOk(s) && s.pc.Ready?
    ensures SessionOk(TrackRequest(s, request)) && Holds(s) <= Holds(TrackRequest(s, request))
  {
  }

  /** A registry action gives up only the channel it removes, and adds only one the session tracks. */
  lemma ProceedOk(s: Session, registry: set<Cid>)
    requires SessionOk(s)
    ensures
      var (s', registry') := Proceed(s, registry);
      && SessionOk(s') && registry' <= registry + Holds(s')
      && (forall cid :: cid in Holds(s) && cid !in Holds(s') ==> cid !in registry')
  {
  }

  lemma ReplaceSession(sys: System, id: nat, s': Session, registry': set<Cid>)
    requires RegistryInv(sys) && SessionOk(s')
    requires registry' <= sys.registry + Holds(s')
    requires id in sys.sessions ==>
               forall cid :: cid in Holds(sys.sessions[id]) && cid !in Holds(s') ==> cid !in registry'
    ensures RegistryInv(System(sys.sessions[id := s'], registry'))
  {
    var sys' := System(sys.sessions[id := s'], registry');
    forall cid | cid in registry' ensures exists i :: HeldBy(sys', i, cid) {
      if cid in Holds(s') {
        assert HeldBy(sys', id, cid);
      } else {
        var i :| HeldBy(sys, i, cid);
        assert i != id && HeldBy(sys', i, cid);
      }
    }
  }

  lemma StepKeepsInv(sys: System, step: Step)
    requires RegistryInv(sys)
    ensures RegistryInv(Next(sys, step))
  {
    var id := step.session;
    if step.Open? {
      if id !in sys.sessions {
        ReplaceSession(sys, id, Session({}, Ready), sys.registry);
      }
    } else if id in sys.sessions {
      var s := sys.sessions[id];
      if step.Receive? && s.pc.Ready? {
        TrackOk(s, ReadRequest(step.atom));
        ReplaceSession(sys, id, TrackAtom(s, step.atom), sys.registry);
      } else if step.Hangup? && s.pc.Ready? {
        ReplaceSession(sys, id, Session(s.tracked, EndingAll(s.tracked)), sys.registry);
      } else if step.Continue? {
        ProceedOk(s, sys.registry);
        var (s', registry) := Proceed(s, sys.registry);
        ReplaceSession(sys, id, s', registry);
      }
    }
  }

  lemma {:induction false} RunInv(steps: seq<Step>)
    ensures RegistryInv(Run(steps))
  {
    if steps != [] {
      RunInv(steps[..|steps| - 1]);
      StepKeepsInv(Run(steps[..|steps| - 1]), steps[|steps| - 1]);
    }
  }

  /**
   In every interleaving of any number of sessions, each listed channel is answered for by some
   session, and no session tracks more than sixteen.
   */
  lemma ChannelsHaveAnnouncers(steps: seq<Step>)
    ensures forall cid :: cid in Run(steps).registry ==> exists id :: HeldBy(Run(steps), id, cid)
    ensures forall id :: id in Run(steps).sessions ==> |Run(steps).sessions[id].tracked| <= MAX_CHANNELS_PER_SESSION
  {
    RunInv(steps);
  }

  /** Between actions the registry is within what the sessions track. */
  lemma RegistryWithinTracked(steps: seq<Step>, cid: Cid)
    requires cid in Run(steps).registry
    requires forall id :: id in Run(steps).sessions ==> Run(steps).sessions[id].pc.Ready? || Run(steps).sessions[id].pc.Closed?
    ensures exists id :: id in Run(steps).sessions && cid in Run(steps).sessions[id].tracked
  {
    RunInv(steps);
    var id :| HeldBy(Run(steps), id, cid);
  }

  /** When every session has ended all its channels, nothing is listed. */
  lemma NothingOutlivesAnnouncers(steps: seq<Step>)
    requires forall id :: id in Run(steps).sessions ==> Run(steps).sessions[id].pc.Closed?
    ensures Run(steps).registry == {}
  {
    RunInv(steps);
    assert forall id, cid :: !HeldBy(Run(steps), id, cid);
  }

  // ---- What atoms mean -----------------------------------------------------------------------

  /** The four bytes of an atom name, filled up with zeros. */
  function NameOf(s: string): AtomId
    requires forall i :: 0 <= i < |s| ==> s[i] as int < 256
  {
    seq(4, i => if 0 <= i < |s| then s[i] as int as Byte else 0)
  }

  lemma NamesAreText()
    ensures BCST == NameOf("bcst") && CHAN == NameOf("chan") && HOST == NameOf("host") && ID == NameOf("id")
    ensures CID == NameOf("cid") && FLG1 == NameOf("flg1") && QUIT == NameOf("quit")
  {
  }

  ghost predicate Lacks(atoms: seq<Atom>, name: AtomId) {
    forall i :: 0 <= i < |atoms| ==> atoms[i].id != name
  }

  /** `x` is the first of the atoms with this name. */
  ghost predicate First(atoms: seq<Atom>, name: AtomId, x: Atom) {
    exists i :: 0 <= i < |atoms| && atoms[i] == x && x.id == name && Lacks(atoms[..i], name)
  }

  lemma {:induction false} FindsFirst(atoms: seq<Atom>, name: AtomId)
    ensures Lacks(atoms, name) ==> FindIn(atoms, name) == None
    ensures forall x :: First(atoms, name, x) ==> FindIn(atoms, name) == Some(x)
    decreases |atoms|
  {
    if atoms != [] {
      FindsFirst(atoms[1..], name);
      forall x | First(atoms, name, x) ensures FindIn(atoms, name) == Some(x) {
        var i :| 0 <= i < |atoms| && atoms[i] == x && x.id == name && Lacks(atoms[..i], name);
        if i > 0 {
          var front, rest := atoms[..i], atoms[1..][..i - 1];
          assert front[0] == atoms[0];
          forall j | 0 <= j < |rest| ensures rest[j].id != name { assert rest[j] == front[j + 1]; }
          assert atoms[1..][i - 1] == x && Lacks(rest, name);
        }
      }
    }
  }

  /** Bit 4 of the low byte says that the channel is being received. */
  ghost predicate SaysPlaying(host: Atom) {
    host.Parent? && exists flags :: First(host.children, FLG1, Data(FLG1, flags)) && (|flags| == 1 || |flags| == 2 || |flags| == 4)
                                    && flags[0] / 16 % 2 == 1
  }

  /** What session `id` makes of an atom, with nobody else in between. */
  ghost function AfterAtom(sys: System, id: nat, a: Atom): System {
    Next(Next(sys, Receive(id, a)), Continue(id))
  }

  ghost predicate IsReady(sys: System, id: nat) {
    id in sys.sessions && sys.sessions[id].pc.Ready?
  }

  /** The session tracks the channel, if it may, and the channel is listed. */
  ghost predicate Lists(sys: System, sys': System, id: nat, cid: Cid)
    requires IsReady(sys, id)
  {
    var tracked := sys.sessions[id].tracked;
    if cid in tracked || |tracked| < 16
    then sys' == System(sys.sessions[id := Session(tracked + {cid}, Ready)], sys.registry + {cid})
    else sys' == sys
  }

  /** The session gives the channel up, if it had it, and then it is not listed any more. */
  ghost predicate Unlists(sys: System, sys': System, id: nat, cid: Cid)
    requires IsReady(sys, id)
  {
    var tracked := sys.sessions[id].tracked;
    if cid in tracked
    then sys' == System(sys.sessions[id := Session(tracked - {cid}, Ready)], sys.registry - {cid})
    else sys' == sys
  }

  lemma SettlesUpdate(sys: System, id: nat, a: Atom, cid: Cid)
    requires IsReady(sys, id)
    ensures ReadRequest(a) == Update(cid) ==> Lists(sys, AfterAtom(sys, id, a), id, cid)
    ensures ReadRequest(a) == StopPlaying(cid) ==> Unlists(sys, AfterAtom(sys, id, a), id, cid)
    ensures ReadRequest(a).Ignore? ==> AfterAtom(sys, id, a) == sys
  {
    assert sys.sessions[id := sys.sessions[id]] == sys.sessions;
  }

  /** A host notice lists its channel when the channel is being received and unlists it otherwise. */
  lemma HostNotice(sys: System, id: nat, a: Atom, host: Atom, cid: Cid)
    requires IsReady(sys, id) && a.Parent? && a.id == BCST && host.Parent?
    requires Lacks(a.children, CHAN) && First(a.children, HOST, host)
    requires First(a.children, CID, Data(CID, cid)) || (Lacks(a.children, CID) && First(host.children, CID, Data(CID, cid)))
    ensures SaysPlaying(host) ==> Lists(sys, AfterAtom(sys, id, a), id, cid)
    ensures !SaysPlaying(host) ==> Unlists(sys, AfterAtom(sys, id, a), id, cid)
  {
    HostRequest(a, host, cid);
    SettlesUpdate(sys, id, a, cid);
  }

  lemma HostRequest(a: Atom, host: Atom, cid: Cid)
    requires a.Parent? && a.id == BCST && host.Parent? && Lacks(a.children, CHAN) && First(a.children, HOST, host)
    requires First(a.children, CID, Data(CID, cid)) || (Lacks(a.children, CID) && First(host.children, CID, Data(CID, cid)))
    ensures ReadRequest(a) == if SaysPlaying(host) then Update(cid) else StopPlaying(cid)
  {
    FindsFirst(a.children, CHAN);
    FindsFirst(a.children, HOST);
    FindsFirst(a.children, CID);
    FindsFirst(host.children, CID);
    PlayingIsSaid(host);
  }

  lemma PlayingIsSaid(host: Atom)
    requires host.Parent?
    ensures Playing(Some(host)) <==> SaysPlaying(host)
  {
    FindsFirst(host.children, FLG1);
    if Playing(Some(host)) {
      FoundIsFirst(host.children, FLG1);
    }
  }

  lemma {:induction false} FoundIsFirst(atoms: seq<Atom>, name: AtomId)
    requires FindIn(atoms, name).Some?
    ensures First(atoms, name, FindIn(atoms, name).value)
    decreases |atoms|
  {
    if atoms[0].id == name {
      assert Lacks(atoms[..0], name) && atoms[0] == FindIn(atoms, name).value;
    } else {
      FoundIsFirst(atoms[1..], name);
      var x := FindIn(atoms[1..], name).value;
      var i :| 0 <= i < |atoms[1..]| && atoms[1..][i] == x && x.id == name && Lacks(atoms[1..][..i], name);
      var front, rest := atoms[..i + 1], atoms[1..][..i];
      forall j | 0 <= j < |front| ensures front[j].id != name {
        assert j > 0 ==> front[j] == rest[j - 1];
      }
      assert atoms[i + 1] == x && Lacks(front, name);
    }
  }

  /** Channel information without a host notice lists its channel. */
  lemma ChannelNotice(sys: System, id: nat, a: Atom, chan: Atom, cid: Cid)
    requires IsReady(sys, id) && a.Parent? && a.id == BCST && chan.Parent?
    requires First(a.children, CHAN, chan) && Lacks(a.children, HOST) && Lacks(chan.children, HOST)
    requires First(chan.children, ID, Data(ID, cid)) || (Lacks(chan.children, ID) && First(a.children, CID, Data(CID, cid)))
    ensures Lists(sys, AfterAtom(sys, id, a), id, cid)
  {
    FindsFirst(a.children, CHAN);
    FindsFirst(a.children, HOST);
    FindsFirst(a.children, CID);
    FindsFirst(chan.children, HOST);
    FindsFirst(chan.children, ID);
    SettlesUpdate(sys, id, a, cid);
  }

  /** With both, the host notice decides; one inside the channel information comes first. */
  lemma ChannelAndHostNotice(sys: System, id: nat, a: Atom, chan: Atom, host: Atom, cid: Cid)
    requires IsReady(sys, id) && a.Parent? && a.id == BCST && chan.Parent? && host.Parent?
    requires First(a.children, CHAN, chan) && First(chan.children, ID, Data(ID, cid))
    requires First(chan.children, HOST, host) || (Lacks(chan.children, HOST) && First(a.children, HOST, host))
    ensures SaysPlaying(host) ==> Lists(sys, AfterAtom(sys, id, a), id, cid)
    ensures !SaysPlaying(host) ==> Unlists(sys, AfterAtom(sys, id, a), id, cid)
  {
    FindsFirst(a.children, CHAN);
    FindsFirst(a.children, HOST);
    FindsFirst(chan.children, HOST);
    FindsFirst(chan.children, ID);
    PlayingIsSaid(host);
    SettlesUpdate(sys, id, a, cid);
  }

  /** A quit, or a channel notice whose id is missing or not sixteen bytes long, ends the session. */
  lemma Disconnects(sys: System, id: nat, a: Atom, chan: Atom)
    requires IsReady(sys, id)
    requires a.id == QUIT ||
             (a.Parent? && a.id == BCST && chan.Parent? && First(a.children, CHAN, chan)
              && (|| (exists bytes :: First(chan.children, ID, Data(ID, bytes)) && |bytes| != 16)
                  || (Lacks(chan.children, ID) && Lacks(a.children, CID) && Lacks(chan.children, HOST) && Lacks(a.children, HOST))))
    ensures Next(sys, Receive(id, a)).sessions[id].pc == EndingAll(sys.sessions[id].tracked)
    ensures Next(sys, Receive(id, a)).registry == sys.registry
  {
    if a.id == BCST {
      FindsFirst(a.children, CHAN);
      FindsFirst(a.children, HOST);
      FindsFirst(a.children, CID);
      FindsFirst(chan.children, HOST);
      FindsFirst(chan.children, ID);
    }
  }

  /** A connection that goes away ends the session and with it all its channels. */
  lemma HangupEnds(sys: System, id: nat)
    requires IsReady(sys, id)
    ensures Next(sys, Hangup(id)) == System(sys.sessions[id := Session(sys.sessions[id].tracked, EndingAll(sys.sessions[id].tracked))], sys.registry)
  {
  }

  /** Atoms of other names, and broadcasts about no channel, change nothing. */
  lemma OthersIgnored(sys: System, id: nat, a: Atom)
    requires IsReady(sys, id) && a.id != QUIT
    requires a.id == BCST ==> !a.Parent? || (Lacks(a.children, CHAN) && Lacks(a.children, HOST))
    ensures AfterAtom(sys, id, a) == sys
  {
    if a.id == BCST && a.Parent? {
      FindsFirst(a.children, CHAN);
      FindsFirst(a.children, HOST);
    }
    SettlesUpdate(sys, id, a, seq(16, _ => 0));
  }

  // ---- The objects ---------------------------------------------------------------------------

  /** Runs a session's pending registry actions with nobody else acting in between. */
  ghost function Settle(s: Session, registry: set<Cid>): (Session, set<Cid>)
    decreases match s.pc { case Ready => 0 case Closed => 0 case EndingAll(rest) => |rest| + 1 case _ => 1 }
  {
    if s.pc.Ready? || s.pc.Closed? then (s, registry)
    else
      var (s', registry') := Proceed(s, registry);
      Settle(s', registry')
  }

  lemma {:induction false} EndingAllSettles(tracked: set<Cid>, rest: set<Cid>, registry: set<Cid>)
    ensures Settle(Session(tracked, EndingAll(rest)), registry) == (Session({}, Closed), registry - rest)
    decreases |rest|
  {
    if rest == {} {
      assert registry - rest == registry;
    } else {
      var s := Session(tracked, EndingAll(rest));
      var (s', registry') := Proceed(s, registry);
      EndingAllSettles(tracked, s'.pc.rest, registry');
      assert registry' - s'.pc.rest == registry - rest;
    }
  }

  lemma OneActionSettles(tracked: set<Cid>, cid: Cid, registry: set<Cid>)
    ensures Settle(Session(tracked, Upserting(cid)), registry) == (Session(tracked, Ready), registry + {cid})
    ensures Settle(Session(tracked, Ending(cid)), registry) == (Session(tracked, Ready), registry - {cid})
  {
    assert Settle(Session(tracked, Ready), registry + {cid}) == (Session(tracked, Ready), registry + {cid});
    assert Settle(Session(tracked, Ready), registry - {cid}) == (Session(tracked, Ready), registry - {cid});
  }

  datatype ChannelState = Announced | Updating

  /** What the registry tells its subscribers. */
  datatype Change = NewlyAnnounced(cid: Cid) | Updated(cid: Cid) | EndedNow(cid: Cid)

  /** The registry as a subscriber rebuilds it from the changes. */
  ghost function Rebuilt(changes: seq<Change>): map<Cid, ChannelState> {
    if changes == [] then map[]
    else
      var before := Rebuilt(changes[..|changes| - 1]);
      match changes[|changes| - 1]
      case NewlyAnnounced(cid) => before[cid := Announced]
      case Updated(cid) => before[cid := Updating]
      case EndedNow(cid) => before - {cid}
  }

  /** A channel is announced when it was not listed, and updated or ended when it was. */
  ghost predicate InTurn(changes: seq<Change>) {
    forall i :: 0 <= i < |changes| ==> (changes[i].NewlyAnnounced? <==> changes[i].cid !in Rebuilt(changes[..i]))
  }

  lemma {:induction false} OneMoreChange(changes: seq<Change>, c: Change)
    requires InTurn(changes) && (c.NewlyAnnounced? <==> c.cid !in Rebuilt(changes))
    ensures InTurn(changes + [c])
    ensures Rebuilt(changes + [c]) ==
            match c
            case NewlyAnnounced(cid) => Rebuilt(changes)[cid := Announced]
            case Updated(cid) => Rebuilt(changes)[cid := Updating]
            case EndedNow(cid) => Rebuilt(changes) - {cid}
  {
    var more := changes + [c];
    assert more[..|changes|] == changes;
    forall i | 0 <= i < |more| ensures more[i].NewlyAnnounced? <==> more[i].cid !in Rebuilt(more[..i]) {
      if i < |changes| {
        assert more[..i] == changes[..i];
      }
    }
  }

  class ChannelRegistry {
    var inner: map<Cid, ChannelState>
    /** Everything sent to subscribers so far. */
    var changes: seq<Change>

    ghost predicate Valid()
      reads this
    {
      inner == Rebuilt(changes) && InTurn(changes)
    }

    constructor ()
      ensures Valid() && inner == map[] && changes == []
    {
      inner, changes := map[], [];
    }

    method Upsert(cid: Cid) returns (isNew: bool)
      requires Valid()
      modifies this
      ensures Valid() && isNew == (cid !in old(inner))
      ensures inner == old(inner)[cid := if isNew then Announced else Updating]
      ensures changes == old(changes) + [if isNew then NewlyAnnounced(cid) else Updated(cid)]
    {
      isNew := cid !in inner;
      inner := inner[cid := if isNew then Announced else Updating];
      OneMoreChange(changes, if isNew then NewlyAnnounced(cid) else Updated(cid));
      changes := changes + [if isNew then NewlyAnnounced(cid) else Updated(cid)];
    }

    method End(cid: Cid) returns (existed: bool)
      requires Valid()
      modifies this
      ensures Valid() && existed == (cid in old(inner)) && inner == old(inner) - {cid}
      ensures changes == old(changes) + if existed then [EndedNow(cid)] else []
    {
      existed := cid in inner;
      if existed {
        inner := inner - {cid};
        OneMoreChange(changes, EndedNow(cid));
        changes := changes + [EndedNow(cid)];
      }
    }
  }

  class AnnounceSession {
    const registry: ChannelRegistry
    var channels: set<Cid>

    constructor (registry: ChannelRegistry)
      ensures this.registry == registry && channels == {}
    {
      this.registry := registry;
      channels := {};
    }

    /** Handles one atom of an established session; on a disconnect the caller runs `EndAll`. */
    method OnAtom(a: Atom) returns (disconnect: bool)
      requires registry.Valid() && |channels| <= MAX_CHANNELS_PER_SESSION
      modifies this, registry
      ensures registry.Valid() && |channels| <= MAX_CHANNELS_PER_SESSION
      ensures
        var s := TrackAtom(Session(old(channels), Ready), a);
        if disconnect then s.pc == EndingAll(channels) && channels == old(channels) && registry.inner == old(registry.inner)
        else Settle(s, old(registry.inner.Keys)) == (Session(channels, Ready), registry.inner.Keys)
    {
      var request := ReadRequest(a);
      disconnect := request.Disconnect?;
      if !disconnect {
        Handle(request);
      }
    }

    method Handle(request: Request)
      requires registry.Valid() && |channels| <= MAX_CHANNELS_PER_SESSION && !request.Disconnect?
      modifies this, registry
      ensures registry.Valid() && |channels| <= MAX_CHANNELS_PER_SESSION
      ensures Settle(TrackRequest(Session(old(channels), Ready), request), old(registry.inner.Keys))
              == (Session(channels, Ready), registry.inner.Keys)
    {
      TrackOk(Session(channels, Ready), request);
      match request
      case Ignore =>
      case StopPlaying(cid) =>
        if cid in channels {
          channels := channels - {cid};
          OneActionSettles(channels, cid, registry.inner.Keys);
          var _ := registry.End(cid);
          assert registry.inner.Keys == old(registry.inner.Keys) - {cid};
        }
      case Update(cid) =>
        if cid in channels || |channels| < MAX_CHANNELS_PER_SESSION {
          channels := channels + {cid};
          OneActionSettles(channels, cid, registry.inner.Keys);
          var _ := registry.Upsert(cid);
          assert registry.inner.Keys == old(registry.inner.Keys) + {cid};
        }
    }

    /** Ends every channel of this session and of no other. */
    method EndAll()
      requires registry.Valid()
      modifies this, registry
      ensures registry.Valid()
      ensures channels == {} && registry.inner == old(registry.inner) - old(channels)
      ensures Settle(Session(old(channels), EndingAll(old(channels))), old(registry.inner.Keys))
              == (Session({}, Closed), registry.inner.Keys)
    {
      EndingAllSettles(channels, channels, registry.inner.Keys);
      var rest := channels;
      while rest != {}
        invariant registry.Valid() && rest <= channels == old(channels)
        invariant registry.inner == old(registry.inner) - (channels - rest)
        decreases |rest|
      {
        var cid :| cid in rest;
        var _ := registry.End(cid);
        rest := rest - {cid};
      }
      channels := {};
    }
  }
}
