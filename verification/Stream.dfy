/** The announce connection's receive loop: bytes arrive in arbitrary pieces, atoms come out. */
module AtomStream {
  import opened AtomCodec

  const MAX_PENDING_BYTES: nat := 262144

  datatype Status = Waiting | Broken(error: AtomError) | Quit | Overflow
  datatype Conn = Conn(buf: seq<Byte>, atoms: seq<Atom>, status: Status)
  const OPENED := Conn([], [], Waiting)

  /** Whether the session ends the connection on the last of these atoms, having handled the others. */
  type Session = seq<Atom> -> bool

  function Take(c: Conn, a: Atom, used: nat, quits: Session): Conn
    requires used <= |c.buf|
  {
    var atoms := c.atoms + [a];
    Conn(c.buf[used..], atoms, if quits(atoms) then Quit else Waiting)
  }

  /** Hands over atoms from the front of the buffer until no complete one is left or the session quits. */
  function Drain(c: Conn, quits: Session): (r: Conn)
    ensures !c.status.Overflow? ==> !r.status.Overflow?
    decreases |c.buf|
  {
    if !c.status.Waiting? then c
    else
      match DecodeAt(c.buf, 1)
      case Incomplete => c
      case Bad(e) => c.(status := Broken(e))
      case Ok(a, used) => Drain(Take(c, a, used, quits), quits)
  }

  function CheckPending(c: Conn): Conn {
    if c.status.Waiting? && |c.buf| > MAX_PENDING_BYTES then c.(status := Overflow) else c
  }

  /** One read from the socket; a closed connection reads no more. */
  function Read(c: Conn, chunk: seq<Byte>, quits: Session): Conn {
    if !c.status.Waiting? then c else CheckPending(Drain(More(c, chunk), quits))
  }

  function More(c: Conn, bytes: seq<Byte>): Conn {
    c.(buf := c.buf + bytes)
  }

  ghost function ReadAll(chunks: seq<seq<Byte>>, quits: Session): Conn {
    if chunks == [] then OPENED else Read(ReadAll(chunks[..|chunks| - 1], quits), chunks[|chunks| - 1], quits)
  }

  ghost function Concat(chunks: seq<seq<Byte>>): seq<Byte> {
    if chunks == [] then [] else Concat(chunks[..|chunks| - 1]) + chunks[|chunks| - 1]
  }

  // ---- Draining in two goes ------------------------------------------------------------------

  /** The same atoms and outcome, and while the connection is open the same bytes pending. */
  ghost predicate Same(c: Conn, d: Conn) {
    c.atoms == d.atoms && c.status == d.status && (c.status.Waiting? ==> c.buf == d.buf)
  }

  /** Draining what is there and then the remainder with more bytes is draining everything at once. */
  lemma {:induction false} DrainInTwo(c: Conn, b: seq<Byte>, quits: Session)
    ensures
      var first, whole := Drain(c, quits), Drain(More(c, b), quits);
      Same(whole, if first.status.Waiting? then Drain(More(first, b), quits) else first)
    decreases |c.buf|
  {
    if c.status.Waiting? {
      var r := DecodeAt(c.buf, 1);
      if !r.Incomplete? {
        DecodeStable(c.buf, b, 1);
        if r.Ok? {
          var next := Take(c, r.atom, r.used, quits);
          assert Take(More(c, b), r.atom, r.used, quits) == More(next, b);
          DrainInTwo(next, b, quits);
        }
      }
    }
  }

  /** All of these bytes drained at once on a new connection. */
  ghost function AtOnce(bytes: seq<Byte>, quits: Session): Conn {
    Drain(Conn(bytes, [], Waiting), quits)
  }

  lemma {:induction false} OneMoreRead(c: Conn, bytes: seq<Byte>, chunk: seq<Byte>, quits: Session)
    requires Same(c, AtOnce(bytes, quits))
    ensures Same(AtOnce(bytes + chunk, quits), if c.status.Waiting? then Drain(More(c, chunk), quits) else c)
  {
    DrainInTwo(Conn(bytes, [], Waiting), chunk, quits);
  }

  /**
   For any bytes, valid or not, and any session: unless the pending limit closed the connection, the
   atoms handed over and the state reached depend only on the bytes, not on how they were cut into reads.
   */
  lemma {:induction false} ChunkingIrrelevant(chunks: seq<seq<Byte>>, quits: Session)
    ensures ReadAll(chunks, quits).status.Overflow? || Same(ReadAll(chunks, quits), AtOnce(Concat(chunks), quits))
  {
    if chunks != [] {
      var init, last := chunks[..|chunks| - 1], chunks[|chunks| - 1];
      ChunkingIrrelevant(init, quits);
      var c := ReadAll(init, quits);
      if !c.status.Overflow? {
        OneMoreRead(c, Concat(init), last, quits);
      }
    }
  }

  /** An open connection never has more than the limit pending: what exceeds it closes the connection. */
  lemma {:induction false} PendingIsBounded(chunks: seq<seq<Byte>>, quits: Session)
    ensures ReadAll(chunks, quits).status.Waiting? ==> |ReadAll(chunks, quits).buf| <= MAX_PENDING_BYTES
  {
  }

  /** And only that: short of the limit no read closes the connection for what is pending. */
  lemma {:induction false} OverflowsExactly(c: Conn, chunk: seq<Byte>, quits: Session)
    requires c.status.Waiting?
    ensures
      var d := Drain(More(c, chunk), quits);
      Read(c, chunk, quits).status.Overflow? <==> d.status.Waiting? && |d.buf| > 262144
  {
  }

  // ---- Valid streams never overflow ----------------------------------------------------------

  ghost predicate Sendable(a: Atom) {
    Within(a, 1) && |Encode(a)| <= MAX_PENDING_BYTES
  }

  ghost predicate AllSendable(atoms: seq<Atom>) {
    forall i :: 0 <= i < |atoms| ==> Sendable(atoms[i])
  }

  /** What the session gets of a stream of atoms, having had `got`: all of them, or up to the one it quits on. */
  ghost function Handled(got: seq<Atom>, atoms: seq<Atom>, quits: Session): (seq<Atom>, Status)
    decreases |atoms|
  {
    if atoms == [] then (got, Waiting)
    else if quits(got + [atoms[0]]) then (got + [atoms[0]], Quit)
    else Handled(got + [atoms[0]], atoms[1..], quits)
  }

  lemma {:induction false} DrainCut(a: Atom, p: seq<Byte>, got: seq<Atom>, quits: Session)
    requires Sendable(a) && p < Encode(a)
    ensures Drain(Conn(p, got, Waiting), quits) == Conn(p, got, Waiting) && |p| <= MAX_PENDING_BYTES
  {
    assert p == Encode(a)[..|p|];
    CutShortIsIncomplete(a, |p|);
  }

  lemma {:induction false} DrainFirst(a: Atom, rest: seq<Byte>, got: seq<Atom>, quits: Session)
    requires Sendable(a)
    ensures Drain(Conn(Encode(a) + rest, got, Waiting), quits)
         == Drain(Conn(rest, got + [a], if quits(got + [a]) then Quit else Waiting), quits)
  {
    DecodeEncoded(a, rest, 1);
    assert (Encode(a) + rest)[|Encode(a)|..] == rest;
  }

  /** A prefix of a valid stream leaves at most one unfinished atom pending. */
  lemma {:induction false} DrainPrefix(atoms: seq<Atom>, p: seq<Byte>, got: seq<Atom>, quits: Session)
    requires AllSendable(atoms) && p <= EncodeAll(atoms)
    ensures
      var d := Drain(Conn(p, got, Waiting), quits);
      && (d.status.Waiting? || d.status.Quit?) && (d.status.Waiting? ==> |d.buf| <= MAX_PENDING_BYTES)
      && (p == EncodeAll(atoms) ==> (d.atoms, d.status) == Handled(got, atoms, quits) && (d.status.Waiting? ==> d.buf == []))
    decreases |atoms|
  {
    if atoms == [] {
      assert p == [];
    } else {
      var head, tail := Encode(atoms[0]), EncodeAll(atoms[1..]);
      assert EncodeAll(atoms) == head + tail;
      if |p| < |head| {
        DrainCut(atoms[0], p, got, quits);
      } else {
        var rest := p[|head|..];
        assert p == head + rest;
        DrainFirst(atoms[0], rest, got, quits);
        if !quits(got + [atoms[0]]) {
          DrainPrefix(atoms[1..], rest, got + [atoms[0]], quits);
        }
      }
    }
  }

  lemma {:induction false} NeverOverflows(atoms: seq<Atom>, chunks: seq<seq<Byte>>, quits: Session)
    requires AllSendable(atoms) && Concat(chunks) <= EncodeAll(atoms)
    ensures !ReadAll(chunks, quits).status.Overflow?
  {
    if chunks != [] {
      var init, last := chunks[..|chunks| - 1], chunks[|chunks| - 1];
      assert Concat(init) <= Concat(chunks);
      NeverOverflows(atoms, init, quits);
      ChunkingIrrelevant(init, quits);
      OneMoreRead(ReadAll(init, quits), Concat(init), last, quits);
      DrainPrefix(atoms, Concat(chunks), [], quits);
    }
  }

  /**
   Any sequence of atoms within the limits, each at most the pending limit long: however its bytes
   are split into reads, the session gets exactly these atoms, or those up to the one it quits on;
   nothing is left over and nothing trips.
   */
  lemma ValidStreamDelivered(atoms: seq<Atom>, chunks: seq<seq<Byte>>, quits: Session)
    requires AllSendable(atoms) && Concat(chunks) == EncodeAll(atoms)
    ensures
      var c := ReadAll(chunks, quits);
      (c.atoms, c.status) == Handled([], atoms, quits) && (c.status.Waiting? ==> c.buf == [])
  {
    NeverOverflows(atoms, chunks, quits);
    ChunkingIrrelevant(chunks, quits);
    DrainPrefix(atoms, EncodeAll(atoms), [], quits);
  }

  /** A session that does not quit gets the whole stream. */
  lemma {:induction false} AllHandled(got: seq<Atom>, atoms: seq<Atom>, quits: Session)
    requires forall n :: 0 < n <= |atoms| ==> !quits(got + atoms[..n])
    ensures Handled(got, atoms, quits) == (got + atoms, Waiting)
    decreases |atoms|
  {
    if atoms != [] {
      var got' := got + [atoms[0]];
      assert got + atoms[..1] == got';
      forall n | 0 < n <= |atoms[1..]| ensures !quits(got' + atoms[1..][..n]) {
        assert got' + atoms[1..][..n] == got + atoms[..n + 1];
      }
      AllHandled(got', atoms[1..], quits);
      assert got' + atoms[1..] == got + atoms;
    } else {
      assert got + atoms == got;
    }
  }

  lemma WholeStreamDelivered(atoms: seq<Atom>, chunks: seq<seq<Byte>>, quits: Session)
    requires AllSendable(atoms) && Concat(chunks) == EncodeAll(atoms)
    requires forall n :: 0 < n <= |atoms| ==> !quits(atoms[..n])
    ensures ReadAll(chunks, quits) == Conn([], atoms, Waiting)
  {
    ValidStreamDelivered(atoms, chunks, quits);
    forall n | 0 < n <= |atoms| ensures !quits([] + atoms[..n]) { assert [] + atoms[..n] == atoms[..n]; }
    AllHandled([], atoms, quits);
  }

  /** The connection object; `atoms` is what has been handed to the session so far. */
  class Connection {
    const quits: Session
    var buf: seq<Byte>
    var atoms: seq<Atom>
    var status: Status

    ghost function State(): Conn
      reads this
    {
      Conn(buf, atoms, status)
    }

    constructor (quits: Session)
      ensures State() == OPENED && this.quits == quits
    {
      this.quits := quits;
      buf, atoms, status := [], [], Waiting;
    }

    method OnRead(chunk: seq<Byte>)
      modifies this
      ensures State() == Read(old(State()), chunk, quits)
    {
      if !status.Waiting? { return; }
      buf := buf + chunk;
      ghost var target := Drain(State(), quits);
      var incomplete := false;
      while !incomplete && status.Waiting?
        invariant Drain(State(), quits) == target && (incomplete ==> State() == target)
        decreases |buf|, !incomplete, status.Waiting?
      {
        var r := DecodeLoop(buf, 1);
        match r
        case Ok(atom, used) =>
          buf := buf[used..];
          atoms := atoms + [atom];
          if quits(atoms) {
            status := Quit;
          }
        case Incomplete =>
          incomplete := true;
        case Bad(e) =>
          status := Broken(e);
      }
      if status.Waiting? && |buf| > MAX_PENDING_BYTES {
        status := Overflow;
      }
    }
  }
}
