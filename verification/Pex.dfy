/** Peer exchange: which addresses a node hands out, and what a receiver makes of them. */
module Pex {
  import opened Events
  import opened PeerAddress

  const PEX_MAX_PEERS: nat := 64

  datatype PeerEndpoint = PeerEndpoint(
    id: int, addr: string, verified: bool, enabled: bool, lastOkAt: Option<int>, resolvedIp: Option<string>)

  predicate Eligible(p: PeerEndpoint) {
    p.verified && p.enabled
  }

  /** The address to share: never a hostname, only the IP it was reached at. */
  function Project(p: PeerEndpoint, lib: Library): Option<string> {
    var parsed := ParseAddr(p.addr, lib);
    if parsed.Bad? then None
    else if parsed.addr.isHostname then p.resolvedIp
    else Some(p.addr)
  }

  // ---- Ranking -------------------------------------------------------------------------------

  const I64_MIN: int := -0x8000_0000_0000_0000

  function LastOk(p: PeerEndpoint): int {
    if p.lastOkAt.Some? then p.lastOkAt.value else I64_MIN
  }

  /** Most recently reached first, then the larger id. */
  predicate NotAfter(p: PeerEndpoint, q: PeerEndpoint) {
    LastOk(p) > LastOk(q) || (LastOk(p) == LastOk(q) && p.id >= q.id)
  }

  ghost predicate Ranked(s: seq<PeerEndpoint>) {
    forall i, j :: 0 <= i < j < |s| ==> NotAfter(s[i], s[j])
  }

  function EligibleOnly(peers: seq<PeerEndpoint>): (r: seq<PeerEndpoint>)
    ensures forall p :: p in r <==> p in peers && Eligible(p)
  {
    if peers == [] then []
    else (if Eligible(peers[0]) then [peers[0]] else []) + EligibleOnly(peers[1..])
  }

  function RankInto(p: PeerEndpoint, s: seq<PeerEndpoint>): (r: seq<PeerEndpoint>)
    ensures forall q :: q in r <==> q == p || q in s
  {
    if s == [] || NotAfter(p, s[0]) then [p] + s else [s[0]] + RankInto(p, s[1..])
  }

  function Rank(s: seq<PeerEndpoint>): (r: seq<PeerEndpoint>)
    ensures forall q :: q in r <==> q in s
  {
    if s == [] then [] else RankInto(s[0], Rank(s[1..]))
  }

  lemma {:induction false} RankIntoRanks(p: PeerEndpoint, s: seq<PeerEndpoint>)
    requires Ranked(s)
    ensures Ranked(RankInto(p, s))
    decreases |s|
  {
    if s != [] && !NotAfter(p, s[0]) {
      RankIntoRanks(p, s[1..]);
      var rest := RankInto(p, s[1..]);
      forall j | 0 <= j < |rest| ensures NotAfter(s[0], rest[j]) {
        assert rest[j] in rest;
      }
    }
  }

  lemma {:induction false} RankRanks(s: seq<PeerEndpoint>)
    ensures Ranked(Rank(s))
    decreases |s|
  {
    if s != [] {
      RankRanks(s[1..]);
      RankIntoRanks(s[0], Rank(s[1..]));
    }
  }

  // ---- The sender ----------------------------------------------------------------------------

  ghost predicate NoDuplicates(s: seq<string>) {
    forall i, j :: 0 <= i < j < |s| ==> s[i] != s[j]
  }

  ghost predicate Shares(peers: seq<PeerEndpoint>, lib: Library, p: PeerEndpoint, addr: string) {
    p in peers && Eligible(p) && Project(p, lib) == Some(addr)
  }

  /** `p` ranks before every peer whose address is not in `emitted`. */
  ghost predicate Foremost(peers: seq<PeerEndpoint>, lib: Library, p: PeerEndpoint, emitted: seq<string>) {
    forall q, addr :: Shares(peers, lib, q, addr) && addr !in emitted ==> NotAfter(p, q)
  }

  /** The `i`-th address comes from a verified, enabled peer, the best of those not emitted before. */
  ghost predicate BestNext(peers: seq<PeerEndpoint>, lib: Library, out: seq<string>, i: nat)
    requires i < |out|
  {
    exists p :: Shares(peers, lib, p, out[i]) && Foremost(peers, lib, p, out[..i + 1])
  }

  /** The limit is looked at after an address is added. */
  function Room(max: nat): nat {
    if max == 0 then 1 else max
  }

  ghost predicate Selection(peers: seq<PeerEndpoint>, max: nat, lib: Library, out: seq<string>) {
    && NoDuplicates(out)
    && (forall i :: 0 <= i < |out| ==> BestNext(peers, lib, out, i))
    && |out| <= Room(max)
    && (|out| < Room(max) ==> forall p, addr :: Shares(peers, lib, p, addr) ==> addr in out)
  }

  /** Every shareable address of the first `n` ranked peers is in `out`. */
  ghost predicate Exhausted(ranked: seq<PeerEndpoint>, n: nat, lib: Library, out: seq<string>)
    requires n <= |ranked|
  {
    forall k :: 0 <= k < n ==> Project(ranked[k], lib).None? || Project(ranked[k], lib).value in out
  }

  lemma NotYetEmitted(ranked: seq<PeerEndpoint>, n: nat, k: nat, lib: Library, out: seq<string>, addr: string)
    requires Ranked(ranked) && n < |ranked| && k < |ranked| && Exhausted(ranked, n, lib, out)
    requires Project(ranked[n], lib) != Project(ranked[k], lib) == Some(addr) && addr !in out
    ensures NotAfter(ranked[n], ranked[k])
  {
    assert k != n && !(k < n);
  }

  lemma NextIsForemost(peers: seq<PeerEndpoint>, lib: Library, ranked: seq<PeerEndpoint>, n: nat, out: seq<string>)
    requires ranked == Rank(EligibleOnly(peers)) && n < |ranked|
    requires Project(ranked[n], lib).Some? && Exhausted(ranked, n, lib, out)
    ensures
      var addr := Project(ranked[n], lib).value;
      Shares(peers, lib, ranked[n], addr) && Foremost(peers, lib, ranked[n], out + [addr])
  {
    RankRanks(EligibleOnly(peers));
    var shared := Project(ranked[n], lib).value;
    assert ranked[n] in ranked;
    forall q, addr | Shares(peers, lib, q, addr) && addr !in out + [shared] ensures NotAfter(ranked[n], q) {
      assert q in ranked;
      var k :| 0 <= k < |ranked| && ranked[k] == q;
      NotYetEmitted(ranked, n, k, lib, out, addr);
    }
  }

  lemma BestNextGrows(peers: seq<PeerEndpoint>, lib: Library, out: seq<string>, addr: string)
    requires forall i :: 0 <= i < |out| ==> BestNext(peers, lib, out, i)
    requires exists p :: Shares(peers, lib, p, addr) && Foremost(peers, lib, p, out + [addr])
    ensures forall i :: 0 <= i < |out| + 1 ==> BestNext(peers, lib, out + [addr], i)
  {
    var more := out + [addr];
    forall i | 0 <= i < |more| ensures BestNext(peers, lib, more, i) {
      if i < |out| {
        assert BestNext(peers, lib, out, i);
        var p :| Shares(peers, lib, p, out[i]) && Foremost(peers, lib, p, out[..i + 1]);
        assert more[..i + 1] == out[..i + 1];
        assert Shares(peers, lib, p, more[i]) && Foremost(peers, lib, p, more[..i + 1]);
      } else {
        var p :| Shares(peers, lib, p, addr) && Foremost(peers, lib, p, out + [addr]);
        assert more[..i + 1] == more;
        assert Shares(peers, lib, p, more[i]) && Foremost(peers, lib, p, more[..i + 1]);
      }
    }
  }

  /** After the first `n` ranked peers. */
  ghost predicate Selecting(peers: seq<PeerEndpoint>, lib: Library, n: nat, out: seq<string>) {
    var ranked := Rank(EligibleOnly(peers));
    && NoDuplicates(out) && n <= |ranked| && Exhausted(ranked, n, lib, out)
    && forall i :: 0 <= i < |out| ==> BestNext(peers, lib, out, i)
  }

  lemma SelectSkip(peers: seq<PeerEndpoint>, lib: Library, n: nat, out: seq<string>)
    requires Selecting(peers, lib, n, out) && n < |Rank(EligibleOnly(peers))|
    requires
      var shared := Project(Rank(EligibleOnly(peers))[n], lib);
      shared.None? || shared.value in out
    ensures Selecting(peers, lib, n + 1, out)
  {
  }

  lemma SelectNext(peers: seq<PeerEndpoint>, lib: Library, n: nat, out: seq<string>)
    requires Selecting(peers, lib, n, out) && n < |Rank(EligibleOnly(peers))|
    requires
      var shared := Project(Rank(EligibleOnly(peers))[n], lib);
      shared.Some? && shared.value !in out
    ensures Selecting(peers, lib, n + 1, out + [Project(Rank(EligibleOnly(peers))[n], lib).value])
  {
    var ranked := Rank(EligibleOnly(peers));
    NextIsForemost(peers, lib, ranked, n, out);
    BestNextGrows(peers, lib, out, Project(ranked[n], lib).value);
  }

  lemma SelectAll(peers: seq<PeerEndpoint>, lib: Library, out: seq<string>)
    requires Selecting(peers, lib, |Rank(EligibleOnly(peers))|, out)
    ensures forall p, addr :: Shares(peers, lib, p, addr) ==> addr in out
  {
    var ranked := Rank(EligibleOnly(peers));
    forall p, addr | Shares(peers, lib, p, addr) ensures addr in out {
      assert p in ranked;
    }
  }

  method SelectPeersForPex(peers: seq<PeerEndpoint>, max: nat, lib: Library) returns (out: seq<string>)
    ensures Selection(peers, max, lib, out)
  {
    var ranked := Rank(EligibleOnly(peers));
    var seen: set<string> := {};
    out := [];
    for n := 0 to |ranked|
      invariant seen == set s | s in out
      invariant out == [] || |out| < max
      invariant Selecting(peers, lib, n, out)
    {
      var shared := Project(ranked[n], lib);
      if shared.None? || shared.value in seen {
        SelectSkip(peers, lib, n, out);
        continue;
      }
      SelectNext(peers, lib, n, out);
      seen := seen + {shared.value};
      out := out + [shared.value];
      if |out| >= max {
        return;
      }
    }
    SelectAll(peers, lib, out);
  }

  /** The list is longer than asked for only when nothing was asked for and there was something to share. */
  lemma LongerOnlyAtZero(peers: seq<PeerEndpoint>, max: nat, lib: Library, out: seq<string>)
    requires Selection(peers, max, lib, out)
    ensures |out| > max <==> max == 0 && exists p, addr :: Shares(peers, lib, p, addr)
  {
    if |out| > max {
      assert BestNext(peers, lib, out, 0);
      var p :| Shares(peers, lib, p, out[0]) && Foremost(peers, lib, p, out[..1]);
    }
  }

  // ---- What is handed out, in the table's own terms ------------------------------------------

  /** A verified, enabled peer with this IP address, or with a hostname and reached at it. */
  ghost predicate OffersAddress(peers: seq<PeerEndpoint>, p: PeerEndpoint, addr: string, lib: Library) {
    && p in peers && p.verified && p.enabled && ParseAddr(p.addr, lib).Addr?
    && if ParseAddr(p.addr, lib).addr.isHostname then p.resolvedIp == Some(addr) else p.addr == addr
  }

  lemma SharesIsOffers(peers: seq<PeerEndpoint>, p: PeerEndpoint, addr: string, lib: Library)
    ensures Shares(peers, lib, p, addr) <==> OffersAddress(peers, p, addr, lib)
  {
  }

  /** Reached more recently, or equally recently and registered later. */
  ghost predicate Ahead(p: PeerEndpoint, q: PeerEndpoint) {
    || (p.lastOkAt.Some? && (q.lastOkAt.None? || p.lastOkAt.value > q.lastOkAt.value))
    || (p.lastOkAt == q.lastOkAt && p.id > q.id)
  }

  ghost predicate TimesAreI64(peers: seq<PeerEndpoint>) {
    forall p :: p in peers && p.lastOkAt.Some? ==> p.lastOkAt.value > I64_MIN
  }

  /** Every address handed out is that of a verified, enabled peer. */
  lemma HandedOutIsOffered(peers: seq<PeerEndpoint>, max: nat, lib: Library, out: seq<string>, i: nat)
    requires Selection(peers, max, lib, out) && i < |out|
    ensures exists p :: OffersAddress(peers, p, out[i], lib)
  {
    assert BestNext(peers, lib, out, i);
    var p :| Shares(peers, lib, p, out[i]) && Foremost(peers, lib, p, out[..i + 1]);
    SharesIsOffers(peers, p, out[i], lib);
  }

  /** A peer ahead of all those with the `i`-th address has its own address handed out before. */
  lemma RecentFirst(peers: seq<PeerEndpoint>, max: nat, lib: Library, out: seq<string>, i: nat, p: PeerEndpoint, addr: string)
    requires Selection(peers, max, lib, out) && TimesAreI64(peers) && i < |out| && OffersAddress(peers, p, addr, lib)
    requires forall q :: OffersAddress(peers, q, out[i], lib) ==> Ahead(p, q)
    ensures addr in out[..i]
  {
    var q := BestAt(peers, max, lib, out, i);
    SharesIsOffers(peers, p, addr, lib);
    AheadIsNotBehind(peers, p, q);
    if addr == out[i] { AheadOfItself(p); }
    BeforeIt(peers, lib, out, i, p, addr, q);
  }

  lemma BestAt(peers: seq<PeerEndpoint>, max: nat, lib: Library, out: seq<string>, i: nat) returns (q: PeerEndpoint)
    requires Selection(peers, max, lib, out) && i < |out|
    ensures OffersAddress(peers, q, out[i], lib) && Foremost(peers, lib, q, out[..i + 1])
  {
    assert BestNext(peers, lib, out, i);
    q :| Shares(peers, lib, q, out[i]) && Foremost(peers, lib, q, out[..i + 1]);
    SharesIsOffers(peers, q, out[i], lib);
  }

  lemma AheadOfItself(p: PeerEndpoint)
    ensures !Ahead(p, p)
  {
  }

  lemma BeforeIt(peers: seq<PeerEndpoint>, lib: Library, out: seq<string>, i: nat, p: PeerEndpoint, addr: string, q: PeerEndpoint)
    requires i < |out| && Shares(peers, lib, p, addr) && Foremost(peers, lib, q, out[..i + 1]) && !NotAfter(q, p) && addr != out[i]
    ensures addr in out[..i]
  {
    assert addr in out[..i + 1];
    assert out[..i + 1] == out[..i] + [out[i]];
  }

  lemma AheadIsNotBehind(peers: seq<PeerEndpoint>, p: PeerEndpoint, q: PeerEndpoint)
    requires TimesAreI64(peers) && p in peers && q in peers && Ahead(p, q)
    ensures !NotAfter(q, p)
  {
  }

  /** Unless the list is full, nothing that could be handed out is missing. */
  lemma NothingMissing(peers: seq<PeerEndpoint>, max: nat, lib: Library, out: seq<string>, p: PeerEndpoint, addr: string)
    requires Selection(peers, max, lib, out) && OffersAddress(peers, p, addr, lib) && |out| < max
    ensures addr in out
  {
    SharesIsOffers(peers, p, addr, lib);
  }

  // ---- The receiver --------------------------------------------------------------------------

  datatype IncomingPex = IncomingPex(accepted: seq<PeerAddr>, benign: seq<string>, suspicious: seq<string>)

  function Canonicals(addrs: seq<PeerAddr>): seq<string> {
    seq(|addrs|, i requires 0 <= i < |addrs| => Canonical(addrs[i]))
  }

  predicate Suspicious(raw: string, lib: Library) {
    var parsed := ParseAddr(raw, lib);
    parsed.Bad? || parsed.addr.isHostname
  }

  /** One more address after those judged so far. */
  function Judge(r: IncomingPex, raw: string, isSelf: string -> bool, lib: Library): IncomingPex {
    if Suspicious(raw, lib) then r.(suspicious := r.suspicious + [raw])
    else
      var addr := ParseAddr(raw, lib).addr;
      if isSelf(Canonical(addr)) || Canonical(addr) in Canonicals(r.accepted) then r.(benign := r.benign + [raw])
      else r.(accepted := r.accepted + [addr])
  }

  function JudgeAll(peers: seq<string>, isSelf: string -> bool, lib: Library): IncomingPex {
    if peers == [] then IncomingPex([], [], [])
    else Judge(JudgeAll(peers[..|peers| - 1], isSelf, lib), peers[|peers| - 1], isSelf, lib)
  }

  function Validated(peers: seq<string>, isSelf: string -> bool, max: nat, lib: Library): IncomingPex {
    if |peers| > max then IncomingPex([], [], peers) else JudgeAll(peers, isSelf, lib)
  }

  method ValidateIncomingPeers(peers: seq<string>, isSelf: string -> bool, max: nat, lib: Library)
    returns (result: IncomingPex)
    ensures result == Validated(peers, isSelf, max, lib)
  {
    result := IncomingPex([], [], []);
    if |peers| > max {
      result := result.(suspicious := peers);
      return;
    }
    var seen: set<string> := {};
    for n := 0 to |peers|
      invariant result == JudgeAll(peers[..n], isSelf, lib)
      invariant seen == set s | s in Canonicals(result.accepted)
    {
      var raw := peers[n];
      assert peers[..n + 1][..n] == peers[..n];
      var parsed := ParseAddr(raw, lib);
      if parsed.Addr? && parsed.addr.isHostname {
        result := result.(suspicious := result.suspicious + [raw]);
      } else if parsed.Addr? {
        var canonical := Canonical(parsed.addr);
        if isSelf(canonical) || canonical in seen {
          result := result.(benign := result.benign + [raw]);
        } else {
          assert Canonicals(result.accepted + [parsed.addr]) == Canonicals(result.accepted) + [canonical];
          seen := seen + {canonical};
          result := result.(accepted := result.accepted + [parsed.addr]);
        }
      } else {
        result := result.(suspicious := result.suspicious + [raw]);
      }
    }
    assert peers[..|peers|] == peers;
  }

  /** More than the limit is refused as a whole. */
  lemma OverlongIsRefused(peers: seq<string>, isSelf: string -> bool, max: nat, lib: Library)
    requires |peers| > max
    ensures Validated(peers, isSelf, max, lib) == IncomingPex([], [], peers)
  {
  }

  /** Otherwise exactly what does not parse or is a hostname is suspicious. */
  lemma {:induction false} SuspiciousExactly(peers: seq<string>, isSelf: string -> bool, lib: Library, raw: string)
    ensures raw in JudgeAll(peers, isSelf, lib).suspicious <==>
            raw in peers && (ParseAddr(raw, lib).Bad? || ParseAddr(raw, lib).addr.isHostname)
    decreases |peers|
  {
    if peers != [] {
      assert peers == peers[..|peers| - 1] + [peers[|peers| - 1]];
      SuspiciousExactly(peers[..|peers| - 1], isSelf, lib, raw);
    }
  }

  /** And every address of the rest that is not the receiver's own is accepted. */
  lemma {:induction false} AcceptedExactly(peers: seq<string>, isSelf: string -> bool, lib: Library, addr: PeerAddr)
    requires LibraryOk(lib)
    ensures addr in JudgeAll(peers, isSelf, lib).accepted <==>
            (exists raw :: raw in peers && ParseAddr(raw, lib) == Addr(addr)) && !addr.isHostname && !isSelf(Canonical(addr))
    decreases |peers|
  {
    if peers != [] {
      var rest, raw := peers[..|peers| - 1], peers[|peers| - 1];
      assert peers == rest + [raw];
      AcceptedExactly(rest, isSelf, lib, addr);
      var r := JudgeAll(rest, isSelf, lib);
      if ParseAddr(raw, lib) == Addr(addr) && !addr.isHostname && !isSelf(Canonical(addr)) && Canonical(addr) in Canonicals(r.accepted) {
        AcceptedIsParsed(rest, isSelf, lib, addr, raw);
      }
    }
  }

  /** An accepted address with the same canonical form is the same address. */
  lemma AcceptedIsParsed(peers: seq<string>, isSelf: string -> bool, lib: Library, addr: PeerAddr, raw: string)
    requires LibraryOk(lib) && ParseAddr(raw, lib) == Addr(addr)
    requires Canonical(addr) in Canonicals(JudgeAll(peers, isSelf, lib).accepted)
    ensures addr in JudgeAll(peers, isSelf, lib).accepted
  {
    var accepted := JudgeAll(peers, isSelf, lib).accepted;
    var i :| 0 <= i < |accepted| && Canonicals(accepted)[i] == Canonical(addr);
    var other := ParsedFrom(peers, isSelf, lib, accepted[i]);
    CanonicalIdentifies(raw, other, lib);
  }

  lemma {:induction false} ParsedFrom(peers: seq<string>, isSelf: string -> bool, lib: Library, addr: PeerAddr) returns (raw: string)
    requires addr in JudgeAll(peers, isSelf, lib).accepted
    ensures ParseAddr(raw, lib) == Addr(addr)
    decreases |peers|
  {
    var rest := peers[..|peers| - 1];
    if addr in JudgeAll(rest, isSelf, lib).accepted {
      raw := ParsedFrom(rest, isSelf, lib, addr);
    } else {
      raw := peers[|peers| - 1];
    }
  }

  /** The strings of `s` that are, or are not, the receiver's own. */
  function Own(s: seq<string>, isSelf: string -> bool, own: bool): seq<string> {
    if s == [] then []
    else Own(s[..|s| - 1], isSelf, own) + if isSelf(s[|s| - 1]) == own then [s[|s| - 1]] else []
  }

  lemma {:induction false} OwnIsSubset(s: seq<string>, isSelf: string -> bool, own: bool)
    ensures forall x :: x in Own(s, isSelf, own) ==> x in s
    decreases |s|
  {
    if s != [] {
      OwnIsSubset(s[..|s| - 1], isSelf, own);
    }
  }

  /** Distinct canonical IP literals: the receiver drops its own addresses and keeps all others, in order. */
  lemma {:induction false} OnlyOwnDropped(peers: seq<string>, isSelf: string -> bool, lib: Library)
    requires NoDuplicates(peers) && forall i :: 0 <= i < |peers| ==> IsCanonicalIp(peers[i], lib)
    ensures
      var r := JudgeAll(peers, isSelf, lib);
      r.suspicious == [] && r.benign == Own(peers, isSelf, true) && Canonicals(r.accepted) == Own(peers, isSelf, false)
    decreases |peers|
  {
    if peers != [] {
      var rest, raw := peers[..|peers| - 1], peers[|peers| - 1];
      OnlyOwnDropped(rest, isSelf, lib);
      var r, addr := JudgeAll(rest, isSelf, lib), ParseAddr(raw, lib).addr;
      assert IsCanonicalIp(raw, lib);
      OwnIsSubset(rest, isSelf, false);
      assert Canonicals(r.accepted + [addr]) == Canonicals(r.accepted) + [raw];
    }
  }

  // ---- Sender and receiver -------------------------------------------------------------------

  /** Addresses are registered in canonical form; a resolved IP is that of a live connection. */
  ghost predicate TableOk(peers: seq<PeerEndpoint>, lib: Library) {
    forall p :: p in peers ==>
      IsCanonical(p.addr, lib) && (p.resolvedIp.Some? ==> IsCanonicalIp(p.resolvedIp.value, lib))
  }

  /** Registering an address and recording the IP a peer was reached at keep the table so. */
  lemma RegisteringKeepsTable(peers: seq<PeerEndpoint>, input: string, p: PeerEndpoint, lib: Library)
    requires LibraryOk(lib) && TableOk(peers, lib) && ParseAddr(input, lib).Addr?
    requires p.addr == Canonical(ParseAddr(input, lib).addr) && p.resolvedIp.None?
    ensures TableOk(peers + [p], lib)
  {
    RegisteredIsCanonical(input, lib);
  }

  lemma ResolvingKeepsTable(peers: seq<PeerEndpoint>, i: nat, ip: string, port: nat, isIpv6: bool, lib: Library)
    requires TableOk(peers, lib) && i < |peers| && 1 <= port <= 65535
    requires if isIpv6 then PrintedV6(ip, lib) else PrintedV4(ip, lib)
    ensures TableOk(peers[i := peers[i].(resolvedIp := Some(Canonical(FromSocketAddr(ip, port, isIpv6))))], lib)
  {
    ConnectedIsCanonicalIp(ip, port, isIpv6, lib);
  }

  lemma SharedIsIp(peers: seq<PeerEndpoint>, lib: Library, p: PeerEndpoint, addr: string)
    requires TableOk(peers, lib) && Shares(peers, lib, p, addr)
    ensures IsCanonicalIp(addr, lib)
  {
  }

  lemma SelectedAreIps(peers: seq<PeerEndpoint>, max: nat, lib: Library, out: seq<string>)
    requires TableOk(peers, lib) && Selection(peers, max, lib, out)
    ensures forall i :: 0 <= i < |out| ==> IsCanonicalIp(out[i], lib)
  {
    forall i | 0 <= i < |out| ensures IsCanonicalIp(out[i], lib) {
      assert BestNext(peers, lib, out, i);
      var p :| Shares(peers, lib, p, out[i]) && Foremost(peers, lib, p, out[..i + 1]);
      SharedIsIp(peers, lib, p, out[i]);
    }
  }

  /**
   Whatever the table, no receiver finds anything suspicious in what a node hands out, and it turns
   down exactly its own addresses.
   */
  lemma SenderMeetsReceiver(
    peers: seq<PeerEndpoint>, max: nat, lib: Library, out: seq<string>, isSelf: string -> bool)
    requires TableOk(peers, lib) && 1 <= max <= PEX_MAX_PEERS && Selection(peers, max, lib, out)
    ensures
      var r := Validated(out, isSelf, PEX_MAX_PEERS, lib);
      && NoDuplicates(out) && r.suspicious == []
      && r.benign == Own(out, isSelf, true) && Canonicals(r.accepted) == Own(out, isSelf, false)
  {
    SelectedAreIps(peers, max, lib, out);
    OnlyOwnDropped(out, isSelf, lib);
  }

  /** Every address offered is accepted or turned down, once; nothing accepted is a hostname or the receiver's own. */
  lemma {:induction false} NothingLost(peers: seq<string>, isSelf: string -> bool, lib: Library)
    ensures
      var r := JudgeAll(peers, isSelf, lib);
      && |r.accepted| + |r.benign| + |r.suspicious| == |peers|
      && NoDuplicates(Canonicals(r.accepted))
      && forall a :: a in r.accepted ==> !a.isHostname && !isSelf(Canonical(a))
    decreases |peers|
  {
    if peers != [] {
      var rest, raw := peers[..|peers| - 1], peers[|peers| - 1];
      NothingLost(rest, isSelf, lib);
      var r := JudgeAll(rest, isSelf, lib);
      if !Suspicious(raw, lib) {
        var addr := ParseAddr(raw, lib).addr;
        assert Canonicals(r.accepted + [addr]) == Canonicals(r.accepted) + [Canonical(addr)];
      }
    }
  }
}
