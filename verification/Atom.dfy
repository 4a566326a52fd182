/** The PCP atom codec: a tree of named atoms as bytes, with limits on depth, size and count. */
module AtomCodec {
  import opened Events

  const MAX_ATOM_PAYLOAD: nat := 65536
  const MAX_NEST_DEPTH: nat := 8
  const MAX_CHILDREN: nat := 1024
  const PARENT_FLAG: nat := 0x8000_0000

  type Byte = b: int | 0 <= b < 256
  type AtomId = s: seq<Byte> | |s| == 4 witness [0, 0, 0, 0]

  datatype Atom = Parent(id: AtomId, children: seq<Atom>) | Data(id: AtomId, payload: seq<Byte>)
  datatype AtomError = NestTooDeep | PayloadTooLarge | TooManyChildren

  /** `Incomplete`: more bytes are needed. */
  datatype Decoded = Incomplete | Bad(error: AtomError) | Ok(atom: Atom, used: nat)
  datatype DecodedMany = IncompleteMany | BadMany(error: AtomError) | Many(atoms: seq<Atom>, used: nat)

  /** Little-endian bytes, least significant first; what does not fit into `k` bytes is lost. */
  function LeBytes(n: nat, k: nat): (s: seq<Byte>)
    ensures |s| == k
  {
    if k == 0 then [] else [n % 256] + LeBytes(n / 256, k - 1)
  }

  function LeValue(s: seq<Byte>): nat {
    if s == [] then 0 else (s[0] as int) + 256 * LeValue(s[1..])
  }

  function Pow256(k: nat): nat {
    if k == 0 then 1 else 256 * Pow256(k - 1)
  }

  lemma {:induction false} LeValueOfBytes(n: nat, k: nat)
    requires n < Pow256(k)
    ensures LeValue(LeBytes(n, k)) == n
  {
    if k > 0 {
      LeValueOfBytes(n / 256, k - 1);
      assert LeBytes(n, k)[1..] == LeBytes(n / 256, k - 1);
    }
  }

  lemma {:induction false} LeBytesOfValue(s: seq<Byte>)
    ensures LeBytes(LeValue(s), |s|) == s
  {
    if s != [] {
      LeBytesOfValue(s[1..]);
      LowByte(s[0], LeValue(s[1..]));
      assert s == [s[0]] + s[1..];
    }
  }

  lemma {:induction false} LowByte(b: Byte, v: nat)
    ensures ((b as int) + 256 * v) % 256 == b && ((b as int) + 256 * v) / 256 == v
  {
  }

  /** The length field of a parent: the top bit is set and the count is cut to the other 31. */
  function CountField(count: nat): (n: nat)
    ensures count < PARENT_FLAG ==> n == PARENT_FLAG + count
  {
    PARENT_FLAG + Wrap(count, PARENT_FLAG)
  }

  function LengthField(len: nat): (n: nat)
    ensures len < 0x1_0000_0000 ==> n == len
  {
    Wrap(len, 0x1_0000_0000)
  }

  /** Narrowing conversion. */
  function Wrap(n: nat, size: nat): (r: nat)
    requires size > 0
    ensures r < size && (n < size ==> r == n)
  {
    n % size
  }

  /** Name and length field: the first eight bytes of an atom. */
  function Header(id: AtomId, field: nat): (s: seq<Byte>)
    ensures |s| == 8
  {
    id + LeBytes(field, 4)
  }

  lemma {:induction false} HeaderRead(id: AtomId, field: nat, rest: seq<Byte>)
    requires field < 0x1_0000_0000
    ensures
      var buf := Header(id, field) + rest;
      |buf| >= 8 && buf[..4] == id && LeValue(buf[4..8]) == field && buf[8..] == rest
  {
    LeValueOfBytes(field, 4);
    assert (Header(id, field) + rest)[4..8] == LeBytes(field, 4);
  }

  lemma {:induction false} HeaderWritten(buf: seq<Byte>)
    requires |buf| >= 8
    ensures buf[..8] == Header(buf[..4], LeValue(buf[4..8]))
  {
    LeBytesOfValue(buf[4..8]);
    assert buf[..8] == buf[..4] + buf[4..8];
  }

  function Encode(a: Atom): seq<Byte>
    decreases a, 1
  {
    match a
    case Data(id, payload) => Header(id, LengthField(|payload|)) + payload
    case Parent(id, children) => Header(id, CountField(|children|)) + EncodeAll(children)
  }

  function EncodeAll(atoms: seq<Atom>): seq<Byte>
    decreases atoms, 0
  {
    if atoms == [] then [] else Encode(atoms[0]) + EncodeAll(atoms[1..])
  }

  function Levels(depth: nat): nat {
    if depth > MAX_NEST_DEPTH then 0 else MAX_NEST_DEPTH + 1 - depth
  }

  function DecodeAt(buf: seq<Byte>, depth: nat): (r: Decoded)
    ensures r.Ok? ==> 8 <= r.used <= |buf|
    decreases Levels(depth), 1, 0
  {
    if depth > MAX_NEST_DEPTH then Bad(NestTooDeep)
    else if |buf| < 8 then Incomplete
    else
      var id: AtomId := buf[..4];
      var len := LeValue(buf[4..8]);
      if len >= PARENT_FLAG then
        var count := len - PARENT_FLAG;
        if count > MAX_CHILDREN then Bad(TooManyChildren)
        else
          match DecodeMany(buf[8..], count, depth)
          case IncompleteMany => Incomplete
          case BadMany(e) => Bad(e)
          case Many(children, used) => Ok(Parent(id, children), 8 + used)
      else if len > MAX_ATOM_PAYLOAD then Bad(PayloadTooLarge)
      else if |buf| < 8 + len then Incomplete
      else Ok(Data(id, buf[8..8 + len]), 8 + len)
  }

  /** The next `count` atoms, each one level below `depth`. */
  function DecodeMany(buf: seq<Byte>, count: nat, depth: nat): (r: DecodedMany)
    requires depth <= MAX_NEST_DEPTH
    ensures r.Many? ==> |r.atoms| == count && r.used <= |buf|
    decreases Levels(depth), 0, count
  {
    if count == 0 then Many([], 0)
    else
      match DecodeAt(buf, depth + 1)
      case Incomplete => IncompleteMany
      case Bad(e) => BadMany(e)
      case Ok(a, used) =>
        match DecodeMany(buf[used..], count - 1, depth)
        case IncompleteMany => IncompleteMany
        case BadMany(e) => BadMany(e)
        case Many(rest, more) => Many([a] + rest, used + more)
  }

  ghost predicate Within(a: Atom, depth: nat)
    decreases a, 1
  {
    depth <= MAX_NEST_DEPTH &&
    match a
    case Data(_, payload) => |payload| <= MAX_ATOM_PAYLOAD
    case Parent(_, children) => |children| <= MAX_CHILDREN && AllWithin(children, depth + 1)
  }

  ghost predicate AllWithin(atoms: seq<Atom>, depth: nat)
    decreases atoms, 0
  {
    atoms == [] || (Within(atoms[0], depth) && AllWithin(atoms[1..], depth))
  }

  lemma {:induction false} Cons(a: Atom, rest: seq<Atom>, depth: nat)
    ensures EncodeAll([a] + rest) == Encode(a) + EncodeAll(rest)
    ensures AllWithin([a] + rest, depth) <==> Within(a, depth) && AllWithin(rest, depth)
  {
    assert ([a] + rest)[1..] == rest;
  }

  // ---- The wire format -----------------------------------------------------------------------

  /** Four bytes, the least significant first. */
  lemma {:induction false} LittleEndian(a: Byte, b: Byte, c: Byte, d: Byte)
    ensures LeValue([a, b, c, d]) == a as int + 0x100 * b as int + 0x1_0000 * c as int + 0x100_0000 * d as int
  {
    assert [a, b, c, d][1..] == [b, c, d] && [b, c, d][1..] == [c, d] && [c, d][1..] == [d] && [d][1..] == [];
    assert LeValue([d]) == d as int;
    assert LeValue([c, d]) == c as int + 0x100 * d as int;
    assert LeValue([b, c, d]) == b as int + 0x100 * c as int + 0x1_0000 * d as int;
  }

  /** Name, length or flagged count, then the payload or the children one after another. */
  lemma {:induction false} WireFormat(a: Atom)
    requires a.Data? ==> |a.payload| < 0x8000_0000
    requires a.Parent? ==> |a.children| < 0x8000_0000
    ensures |Encode(a)| >= 8 && Encode(a)[..4] == a.id
    ensures a.Data? ==> LeValue(Encode(a)[4..8]) == |a.payload| && Encode(a)[8..] == a.payload
    ensures a.Parent? ==> LeValue(Encode(a)[4..8]) == 0x8000_0000 + |a.children| && Encode(a)[8..] == EncodeAll(a.children)
  {
    match a
    case Data(id, payload) => HeaderRead(id, |payload|, payload);
    case Parent(id, children) => HeaderRead(id, PARENT_FLAG + |children|, EncodeAll(children));
  }

  // ---- Decoding what was encoded -------------------------------------------------------------

  lemma {:induction false} DecodeDataAtom(id: AtomId, payload: seq<Byte>, rest: seq<Byte>, depth: nat)
    requires depth <= MAX_NEST_DEPTH && |payload| <= MAX_ATOM_PAYLOAD
    ensures DecodeAt(Header(id, |payload|) + payload + rest, depth) == Ok(Data(id, payload), 8 + |payload|)
  {
    var buf := Header(id, |payload|) + payload + rest;
    assert buf == Header(id, |payload|) + (payload + rest);
    HeaderRead(id, |payload|, payload + rest);
    assert buf[8..8 + |payload|] == payload;
  }

  lemma {:induction false} DecodeParentAtom(id: AtomId, children: seq<Atom>, tail: seq<Byte>, depth: nat)
    requires depth <= MAX_NEST_DEPTH && |children| <= MAX_CHILDREN
    requires DecodeMany(tail, |children|, depth).Many? && DecodeMany(tail, |children|, depth).atoms == children
    ensures DecodeAt(Header(id, CountField(|children|)) + tail, depth)
         == Ok(Parent(id, children), 8 + DecodeMany(tail, |children|, depth).used)
  {
    HeaderRead(id, CountField(|children|), tail);
  }

  lemma {:induction false} DecodeEncoded(a: Atom, rest: seq<Byte>, depth: nat)
    requires Within(a, depth)
    ensures DecodeAt(Encode(a) + rest, depth) == Ok(a, |Encode(a)|)
    decreases a, 1
  {
    match a
    case Data(id, payload) => DecodeDataAtom(id, payload, rest, depth);
    case Parent(id, children) =>
      var tail := EncodeAll(children) + rest;
      assert Encode(a) + rest == Header(id, CountField(|children|)) + tail;
      DecodeEncodedAll(children, rest, depth);
      DecodeParentAtom(id, children, tail, depth);
  }

  lemma {:induction false} OneMore(head: seq<Byte>, tail: seq<Byte>, a: Atom, count: nat, depth: nat)
    requires depth <= MAX_NEST_DEPTH && DecodeAt(head + tail, depth + 1) == Ok(a, |head|)
    requires DecodeMany(tail, count, depth).Many?
    ensures
      var more := DecodeMany(tail, count, depth);
      DecodeMany(head + tail, count + 1, depth) == Many([a] + more.atoms, |head| + more.used)
  {
    assert (head + tail)[|head|..] == tail;
  }

  lemma {:induction false} FirstThenRest(atoms: seq<Atom>, rest: seq<Byte>)
    requires atoms != []
    ensures [atoms[0]] + atoms[1..] == atoms
    ensures EncodeAll(atoms) + rest == Encode(atoms[0]) + (EncodeAll(atoms[1..]) + rest)
    ensures |EncodeAll(atoms)| == |Encode(atoms[0])| + |EncodeAll(atoms[1..])|
  {
    Assoc(Encode(atoms[0]), EncodeAll(atoms[1..]), rest);
  }

  lemma {:induction false} Assoc(a: seq<Byte>, b: seq<Byte>, c: seq<Byte>)
    ensures a + b + c == a + (b + c)
  {
  }

  lemma {:induction false} DecodeEncodedAll(atoms: seq<Atom>, rest: seq<Byte>, depth: nat)
    requires depth <= MAX_NEST_DEPTH && AllWithin(atoms, depth + 1)
    ensures DecodeMany(EncodeAll(atoms) + rest, |atoms|, depth) == Many(atoms, |EncodeAll(atoms)|)
    decreases atoms, 0
  {
    if atoms != [] {
      var tail := EncodeAll(atoms[1..]) + rest;
      DecodeEncoded(atoms[0], tail, depth + 1);
      DecodeEncodedAll(atoms[1..], rest, depth);
      OneMore(Encode(atoms[0]), tail, atoms[0], |atoms| - 1, depth);
      FirstThenRest(atoms, rest);
    }
  }

  // ---- Encoding what was decoded -------------------------------------------------------------

  lemma {:induction false} EncodeDecoded(buf: seq<Byte>, depth: nat)
    requires DecodeAt(buf, depth).Ok?
    ensures Within(DecodeAt(buf, depth).atom, depth)
    ensures Encode(DecodeAt(buf, depth).atom) == buf[..DecodeAt(buf, depth).used]
  {
    EncodesBack(buf, depth, DecodeAt(buf, depth));
  }

  lemma {:induction false} EncodesBack(buf: seq<Byte>, depth: nat, r: Decoded)
    requires r == DecodeAt(buf, depth) && r.Ok?
    ensures Within(r.atom, depth) && Encode(r.atom) == buf[..r.used]
    decreases Levels(depth), 1, 0
  {
    var len := LeValue(buf[4..8]);
    if len >= PARENT_FLAG {
      var many := DecodeMany(buf[8..], len - PARENT_FLAG, depth);
      ManyEncodesBack(buf[8..], len - PARENT_FLAG, depth, many);
      ParentWritten(buf, many.atoms, many.used);
    } else {
      DataWritten(buf, len);
    }
  }

  lemma {:induction false} ParentWritten(buf: seq<Byte>, atoms: seq<Atom>, used: nat)
    requires 8 + used <= |buf| && LeValue(buf[4..8]) == PARENT_FLAG + |atoms| && |atoms| <= MAX_CHILDREN
    requires EncodeAll(atoms) == buf[8..][..used]
    ensures Encode(Parent(buf[..4], atoms)) == buf[..8 + used]
  {
    HeaderWritten(buf);
    assert CountField(|atoms|) == LeValue(buf[4..8]);
    assert buf[..8 + used] == buf[..8] + buf[8..][..used];
  }

  lemma {:induction false} DataWritten(buf: seq<Byte>, len: nat)
    requires 8 + len <= |buf| && LeValue(buf[4..8]) == len && len <= MAX_ATOM_PAYLOAD
    ensures Encode(Data(buf[..4], buf[8..8 + len])) == buf[..8 + len]
  {
    HeaderWritten(buf);
    assert buf[..8 + len] == buf[..8] + buf[8..8 + len];
  }

  lemma {:induction false} EncodedParts(buf: seq<Byte>, a: Atom, used: nat, rest: seq<Atom>, more: nat, depth: nat)
    requires used + more <= |buf| && Encode(a) == buf[..used] && EncodeAll(rest) == buf[used..][..more]
    requires Within(a, depth) && AllWithin(rest, depth)
    ensures EncodeAll([a] + rest) == buf[..used + more] && AllWithin([a] + rest, depth)
  {
    Cons(a, rest, depth);
    assert buf[..used + more] == buf[..used] + buf[used..][..more];
  }

  lemma {:induction false} ManyEncodesBack(buf: seq<Byte>, count: nat, depth: nat, r: DecodedMany)
    requires depth <= MAX_NEST_DEPTH && r == DecodeMany(buf, count, depth) && r.Many?
    ensures AllWithin(r.atoms, depth + 1) && EncodeAll(r.atoms) == buf[..r.used]
    decreases Levels(depth), 0, count
  {
    if count > 0 {
      var first := DecodeAt(buf, depth + 1);
      FirstChild(buf, count, depth, first);
      var rest := DecodeMany(buf[first.used..], count - 1, depth);
      EncodesBack(buf, depth + 1, first);
      ManyEncodesBack(buf[first.used..], count - 1, depth, rest);
      EncodedParts(buf, first.atom, first.used, rest.atoms, rest.used, depth + 1);
    }
  }

  // ---- More bytes never change a result ------------------------------------------------------

  lemma {:induction false} DecodeStable(buf: seq<Byte>, more: seq<Byte>, depth: nat)
    requires !DecodeAt(buf, depth).Incomplete?
    ensures DecodeAt(buf + more, depth) == DecodeAt(buf, depth)
    decreases Levels(depth), 1, 0
  {
    if depth <= MAX_NEST_DEPTH {
      var len := LeValue(buf[4..8]);
      assert (buf + more)[..4] == buf[..4] && (buf + more)[4..8] == buf[4..8];
      if len >= PARENT_FLAG {
        if len - PARENT_FLAG <= MAX_CHILDREN {
          assert (buf + more)[8..] == buf[8..] + more;
          DecodeManyStable(buf[8..], more, len - PARENT_FLAG, depth);
        }
      } else if len <= MAX_ATOM_PAYLOAD {
        assert (buf + more)[8..8 + len] == buf[8..8 + len];
      }
    }
  }

  lemma {:induction false} DecodeManyStable(buf: seq<Byte>, more: seq<Byte>, count: nat, depth: nat)
    requires depth <= MAX_NEST_DEPTH && !DecodeMany(buf, count, depth).IncompleteMany?
    ensures DecodeMany(buf + more, count, depth) == DecodeMany(buf, count, depth)
    decreases Levels(depth), 0, count
  {
    if count > 0 {
      DecodeStable(buf, more, depth + 1);
      var first := DecodeAt(buf, depth + 1);
      if first.Ok? {
        assert (buf + more)[first.used..] == buf[first.used..] + more;
        DecodeManyStable(buf[first.used..], more, count - 1, depth);
      }
    }
  }

  /** No atom's encoding is a proper prefix of another's: a cut-short atom is always just incomplete. */
  lemma {:induction false} CutShortIsIncomplete(a: Atom, n: nat)
    requires Within(a, 1) && n < |Encode(a)|
    ensures DecodeAt(Encode(a)[..n], 1) == Incomplete
  {
    var head, tail := Encode(a)[..n], Encode(a)[n..];
    assert head + tail == Encode(a) == Encode(a) + [];
    DecodeEncoded(a, [], 1);
    if !DecodeAt(head, 1).Incomplete? {
      DecodeStable(head, tail, 1);
    }
  }

  // ---- Every input has its verdict, as early as possible -------------------------------------

  /** The fields of the encoding hold the payload lengths and child counts of these atoms. */
  ghost predicate Representable(a: Atom)
    decreases a, 1
  {
    match a
    case Data(_, payload) => |payload| < PARENT_FLAG
    case Parent(_, children) => |children| < PARENT_FLAG && AllRepresentable(children)
  }

  ghost predicate AllRepresentable(atoms: seq<Atom>)
    decreases atoms, 0
  {
    atoms == [] || (Representable(atoms[0]) && AllRepresentable(atoms[1..]))
  }

  /** How many bytes are needed for a verdict, and the first limit that is broken in reading order. */
  datatype Verdict = Verdict(need: nat, broken: Option<AtomError>)

  ghost function VerdictOf(a: Atom, depth: nat): Verdict
    decreases a, 1
  {
    if depth > MAX_NEST_DEPTH then Verdict(0, Some(NestTooDeep))
    else
      match a
      case Data(_, payload) =>
        if |payload| > MAX_ATOM_PAYLOAD then Verdict(8, Some(PayloadTooLarge)) else Verdict(8 + |payload|, None)
      case Parent(_, children) =>
        if |children| > MAX_CHILDREN then Verdict(8, Some(TooManyChildren))
        else
          var v := VerdictOfAll(children, depth + 1);
          Verdict(8 + v.need, v.broken)
  }

  ghost function VerdictOfAll(atoms: seq<Atom>, depth: nat): Verdict
    decreases atoms, 0
  {
    if atoms == [] then Verdict(0, None)
    else
      var v := VerdictOf(atoms[0], depth);
      if v.broken.Some? then v
      else
        var rest := VerdictOfAll(atoms[1..], depth);
        Verdict(v.need + rest.need, rest.broken)
  }

  /** What is within the limits needs all its bytes. */
  lemma {:induction false} VerdictOfWithin(a: Atom, depth: nat)
    ensures VerdictOf(a, depth).broken.None? <==> Within(a, depth)
    ensures VerdictOf(a, depth).broken.None? ==> VerdictOf(a, depth).need == |Encode(a)|
    decreases a, 1
  {
    if depth <= MAX_NEST_DEPTH && a.Parent? && |a.children| <= MAX_CHILDREN {
      VerdictOfAllWithin(a.children, depth + 1);
    }
  }

  lemma {:induction false} VerdictOfAllWithin(atoms: seq<Atom>, depth: nat)
    ensures VerdictOfAll(atoms, depth).broken.None? <==> AllWithin(atoms, depth)
    ensures VerdictOfAll(atoms, depth).broken.None? ==> VerdictOfAll(atoms, depth).need == |EncodeAll(atoms)|
    decreases atoms, 0
  {
    if atoms != [] {
      VerdictOfWithin(atoms[0], depth);
      VerdictOfAllWithin(atoms[1..], depth);
    }
  }

  ghost function Expected(v: Verdict, received: nat, a: Atom): Decoded {
    if received < v.need then Incomplete
    else if v.broken.Some? then Bad(v.broken.value)
    else Ok(a, v.need)
  }

  ghost function ExpectedMany(v: Verdict, received: nat, atoms: seq<Atom>): DecodedMany {
    if received < v.need then IncompleteMany
    else if v.broken.Some? then BadMany(v.broken.value)
    else Many(atoms, v.need)
  }

  lemma {:induction false} HeaderOfPrefix(id: AtomId, field: nat, tail: seq<Byte>, p: seq<Byte>)
    requires field < 0x1_0000_0000 && p <= Header(id, field) + tail && |p| >= 8
    ensures p[..4] == id && LeValue(p[4..8]) == field && p[8..] <= tail
  {
    var all := Header(id, field) + tail;
    HeaderRead(id, field, tail);
    assert p[..4] == all[..4] && p[4..8] == all[4..8] && p == all[..|p|];
    assert p[8..] == all[8..][..|p| - 8];
  }

  lemma {:induction false} DataVerdict(id: AtomId, payload: seq<Byte>, rest: seq<Byte>, p: seq<Byte>, depth: nat)
    requires |payload| < PARENT_FLAG && depth <= MAX_NEST_DEPTH && p <= Header(id, |payload|) + (payload + rest)
    ensures DecodeAt(p, depth) == Expected(VerdictOf(Data(id, payload), depth), |p|, Data(id, payload))
  {
    if |p| >= 8 {
      HeaderOfPrefix(id, |payload|, payload + rest, p);
      if |p| >= 8 + |payload| {
        assert p[8..8 + |payload|] == p[8..][..|payload|] == (payload + rest)[..|payload|] == payload;
      }
    }
  }

  lemma {:induction false} ParentVerdict(id: AtomId, children: seq<Atom>, tail: seq<Byte>, p: seq<Byte>, depth: nat)
    requires |children| < PARENT_FLAG && depth <= MAX_NEST_DEPTH && p <= Header(id, PARENT_FLAG + |children|) + tail
    requires |p| >= 8 && |children| <= MAX_CHILDREN ==>
               DecodeMany(p[8..], |children|, depth) == ExpectedMany(VerdictOfAll(children, depth + 1), |p| - 8, children)
    ensures DecodeAt(p, depth) == Expected(VerdictOf(Parent(id, children), depth), |p|, Parent(id, children))
  {
    if |p| >= 8 {
      HeaderOfPrefix(id, PARENT_FLAG + |children|, tail, p);
    }
  }

  /**
   Whatever part of an atom has arrived, followed by anything: the decoder waits exactly until the
   verdict is known, then gives the atom, or the error of the first limit broken in reading order.
   */
  lemma {:induction false} DecodeVerdict(a: Atom, rest: seq<Byte>, p: seq<Byte>, depth: nat)
    requires Representable(a) && p <= Encode(a) + rest
    ensures DecodeAt(p, depth) == Expected(VerdictOf(a, depth), |p|, a)
    decreases a, 1
  {
    if depth <= MAX_NEST_DEPTH {
      match a
      case Data(id, payload) =>
        Assoc(Header(id, |payload|), payload, rest);
        DataVerdict(id, payload, rest, p, depth);
      case Parent(id, children) =>
        var header, tail := Header(id, PARENT_FLAG + |children|), EncodeAll(children) + rest;
        Assoc(header, EncodeAll(children), rest);
        if |p| >= 8 && |children| <= MAX_CHILDREN {
          HeaderOfPrefix(id, PARENT_FLAG + |children|, tail, p);
          ManyVerdict(children, rest, p[8..], depth);
        }
        ParentVerdict(id, children, tail, p, depth);
    }
  }

  lemma {:induction false} ManyVerdict(atoms: seq<Atom>, rest: seq<Byte>, p: seq<Byte>, depth: nat)
    requires depth <= MAX_NEST_DEPTH && AllRepresentable(atoms) && p <= EncodeAll(atoms) + rest
    ensures DecodeMany(p, |atoms|, depth) == ExpectedMany(VerdictOfAll(atoms, depth + 1), |p|, atoms)
    decreases atoms, 0
  {
    if atoms != [] {
      FirstThenRest(atoms, rest);
      var head, tail := Encode(atoms[0]), EncodeAll(atoms[1..]) + rest;
      DecodeVerdict(atoms[0], tail, p, depth + 1);
      var first := DecodeAt(p, depth + 1);
      FirstChild(p, |atoms|, depth, first);
      VerdictOfWithin(atoms[0], depth + 1);
      if first.Ok? {
        assert p[|head|..] == (head + tail)[..|p|][|head|..] == tail[..|p| - |head|];
        ManyVerdict(atoms[1..], rest, p[|head|..], depth);
      }
    }
  }

  // ---- The program's own form ----------------------------------------------------------------

  lemma {:induction false} EncodeAllAppend(a: seq<Atom>, x: Atom)
    ensures EncodeAll(a + [x]) == EncodeAll(a) + Encode(x)
  {
    if a == [] {
      assert [x][1..] == [];
      assert EncodeAll([x]) == Encode(x) + [];
    } else {
      EncodeAllAppend(a[1..], x);
      assert (a + [x])[1..] == a[1..] + [x] && (a + [x])[0] == a[0];
      Assoc(Encode(a[0]), EncodeAll(a[1..]), Encode(x));
    }
  }

  /** Appends the atom to the output buffer, children in order. */
  method EncodeTo(a: Atom, out: seq<Byte>) returns (r: seq<Byte>)
    ensures r == out + Encode(a)
    decreases a
  {
    match a
    case Data(id, payload) =>
      var header := Header(id, LengthField(|payload|));
      r := out + header + payload;
      Assoc(out, header, payload);
    case Parent(id, children) =>
      var header := Header(id, CountField(|children|));
      r := out + header;
      for i := 0 to |children|
        invariant r == out + header + EncodeAll(children[..i])
      {
        EncodeUpTo(children, i);
        Assoc(out + header, EncodeAll(children[..i]), Encode(children[i]));
        r := EncodeTo(children[i], r);
      }
      assert children[..|children|] == children;
      Assoc(out, header, EncodeAll(children));
  }

  lemma {:induction false} EncodeUpTo(atoms: seq<Atom>, i: nat)
    requires i < |atoms|
    ensures EncodeAll(atoms[..i + 1]) == EncodeAll(atoms[..i]) + Encode(atoms[i])
  {
    EncodeAllAppend(atoms[..i], atoms[i]);
    assert atoms[..i + 1] == atoms[..i] + [atoms[i]];
  }

  /** What is decoded already, followed by what decoding the remainder gives. */
  function Following(atoms: seq<Atom>, used: nat, more: DecodedMany): DecodedMany {
    match more
    case Many(rest, n) => Many(atoms + rest, used + n)
    case _ => more
  }

  lemma FollowingOne(atoms: seq<Atom>, used: nat, a: Atom, n: nat, more: DecodedMany)
    ensures Following(atoms, used, Following([a], n, more)) == Following(atoms + [a], used + n, more)
  {
    if more.Many? {
      assert atoms + ([a] + more.atoms) == atoms + [a] + more.atoms;
    }
  }

  lemma {:induction false} FirstChild(buf: seq<Byte>, count: nat, depth: nat, first: Decoded)
    requires depth <= MAX_NEST_DEPTH && count > 0 && first == DecodeAt(buf, depth + 1)
    ensures DecodeMany(buf, count, depth) ==
            match first
            case Incomplete => IncompleteMany
            case Bad(e) => BadMany(e)
            case Ok(a, used) => Following([a], used, DecodeMany(buf[used..], count - 1, depth))
  {
  }

  /** The children up to `pos` are decoded and `left` are to come, of what decodes to `goal` in all. */
  ghost predicate OnTrack(body: seq<Byte>, pos: nat, left: nat, depth: nat, atoms: seq<Atom>, goal: DecodedMany) {
    && pos <= |body| && depth <= MAX_NEST_DEPTH
    && goal == Following(atoms, pos, DecodeMany(body[pos..], left, depth))
  }

  /** The next child decides how decoding the children goes on. */
  lemma {:induction false} NextChild(
    body: seq<Byte>, pos: nat, left: nat, depth: nat, atoms: seq<Atom>, goal: DecodedMany, next: Decoded)
    requires OnTrack(body, pos, left, depth, atoms, goal) && left > 0 && next == DecodeAt(body[pos..], depth + 1)
    ensures match next
            case Incomplete => goal == IncompleteMany
            case Bad(e) => goal == BadMany(e)
            case Ok(a, used) => OnTrack(body, pos + used, left - 1, depth, atoms + [a], goal)
  {
    FirstChild(body[pos..], left, depth, next);
    if next.Ok? {
      assert body[pos..][next.used..] == body[pos + next.used..];
      FollowingOne(atoms, pos, next.atom, next.used, DecodeMany(body[pos + next.used..], left - 1, depth));
    }
  }

  lemma {:induction false} FirstAndLast(body: seq<Byte>, pos: nat, count: nat, depth: nat, atoms: seq<Atom>, goal: DecodedMany)
    requires depth <= MAX_NEST_DEPTH
    ensures OnTrack(body, 0, count, depth, [], DecodeMany(body, count, depth))
    ensures OnTrack(body, pos, 0, depth, atoms, goal) ==> goal == Many(atoms, pos)
  {
    assert body[0..] == body;
  }

  /** Walks over the children with a position and a growing list. */
  method DecodeChildren(body: seq<Byte>, count: nat, depth: nat) returns (r: DecodedMany)
    requires depth <= MAX_NEST_DEPTH
    ensures r == DecodeMany(body, count, depth)
    decreases Levels(depth), 0
  {
    ghost var goal := DecodeMany(body, count, depth);
    var pos := 0;
    var children: seq<Atom> := [];
    FirstAndLast(body, pos, count, depth, children, goal);
    for i := 0 to count
      invariant OnTrack(body, pos, count - i, depth, children, goal)
    {
      var child := DecodeLoop(body[pos..], depth + 1);
      NextChild(body, pos, count - i, depth, children, goal, child);
      match child
      case Incomplete => return IncompleteMany;
      case Bad(e) => return BadMany(e);
      case Ok(atom, used) =>
        pos := pos + used;
        children := children + [atom];
    }
    FirstAndLast(body, pos, count, depth, children, goal);
    return Many(children, pos);
  }

  /** Decodes one atom from the front of the buffer. */
  method DecodeLoop(buf: seq<Byte>, depth: nat) returns (r: Decoded)
    ensures r == DecodeAt(buf, depth)
    decreases Levels(depth), 1
  {
    if depth > MAX_NEST_DEPTH { return Bad(NestTooDeep); }
    if |buf| < 8 { return Incomplete; }
    var id: AtomId := buf[..4];
    var len := LeValue(buf[4..8]);
    if len >= PARENT_FLAG {
      var count := len - PARENT_FLAG;
      if count > MAX_CHILDREN { return Bad(TooManyChildren); }
      var children := DecodeChildren(buf[8..], count, depth);
      match children
      case IncompleteMany => return Incomplete;
      case BadMany(e) => return Bad(e);
      case Many(atoms, used) => return Ok(Parent(id, atoms), 8 + used);
    }
    if len > MAX_ATOM_PAYLOAD { return Bad(PayloadTooLarge); }
    if |buf| < 8 + len { return Incomplete; }
    return Ok(Data(id, buf[8..8 + len]), 8 + len);
  }
}
