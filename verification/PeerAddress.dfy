/** Peer addresses: parsing `host:port` and the canonical form that identifies a peer. */
module PeerAddress {
  import opened Events
  import opened Text

  const ADDR_MAX_LEN: nat := 256
  const HOSTNAME_MAX_LEN: nat := 253
  const LABEL_MAX_LEN: nat := 63

  datatype PeerAddr = PeerAddr(host: string, port: nat, isIpv6: bool, isHostname: bool)
  datatype AddrError = Empty | TooLong | MissingPort | InvalidPort | AmbiguousColons | InvalidIpv6 | InvalidHost
  datatype Parsed = Addr(addr: PeerAddr) | Bad(error: AddrError)

  /** The standard library: an address text parsed and printed again, none if it does not parse. */
  datatype Library = Library(v4: string -> Option<string>, v6: string -> Option<string>)

  predicate DottedDigits(s: string) {
    forall i :: 0 <= i < |s| ==> IsDigit(s[i]) || s[i] == '.'
  }

  predicate V6Chars(s: string) {
    forall i :: 0 <= i < |s| ==> IsHexDigit(s[i]) || s[i] == ':' || s[i] == '.'
  }

  /** What is assumed of it: printed addresses parse to themselves and have the usual characters. */
  ghost predicate LibraryOk(lib: Library) {
    && (forall s :: lib.v4(s).Some? ==> DottedDigits(s) && PrintedV4(lib.v4(s).value, lib))
    && (forall s :: lib.v6(s).Some? ==> PrintedV6(lib.v6(s).value, lib))
  }

  ghost predicate PrintedV4(s: string, lib: Library) {
    lib.v4(s) == Some(s) && DottedDigits(s) && 0 < |s| <= 15 && s[|s| - 1] != '.'
  }

  ghost predicate PrintedV6(s: string, lib: Library) {
    lib.v6(s) == Some(s) && V6Chars(s) && |s| <= 45
  }

  // ---- Hostnames (section 2.1 of RFC 1123) ---------------------------------------------------

  function IndexOf(s: string, c: char): (k: nat)
    ensures k <= |s| && (k < |s| ==> s[k] == c) && forall i :: 0 <= i < k ==> s[i] != c
  {
    if s == "" || s[0] == c then 0 else 1 + IndexOf(s[1..], c)
  }

  function Split(s: string): (labels: seq<string>)
    ensures labels != []
    decreases |s|
  {
    var k := IndexOf(s, '.');
    if k == |s| then [s] else [s[..k]] + Split(s[k + 1..])
  }

  predicate LabelChar(c: char) {
    IsDigit(c) || 'a' <= c <= 'z' || 'A' <= c <= 'Z' || c == '-'
  }

  predicate LabelOk(part: string) {
    && 0 < |part| && Bytes(part) <= LABEL_MAX_LEN
    && part[0] != '-' && part[|part| - 1] != '-'
    && forall i :: 0 <= i < |part| ==> LabelChar(part[i])
  }

  predicate LabelsOk(labels: seq<string>) {
    forall i :: 0 <= i < |labels| ==> LabelOk(labels[i])
  }

  predicate HostnameOk(host: string) {
    (forall i :: 0 <= i < |host| ==> host[i] as int < 0x80) && Bytes(host) <= HOSTNAME_MAX_LEN && LabelsOk(Split(host))
  }

  method ValidateHostname(host: string) returns (r: Option<string>)
    ensures r == if HostnameOk(host) then Some(ToLower(host)) else None
  {
    if (exists i :: 0 <= i < |host| && host[i] as int >= 0x80) || Bytes(host) > HOSTNAME_MAX_LEN {
      return None;
    }
    var labels := Split(host);
    for n := 0 to |labels|
      invariant forall m :: 0 <= m < n ==> LabelOk(labels[m])
    {
      var part := labels[n];
      if part == "" || Bytes(part) > LABEL_MAX_LEN {
        return None;
      }
      if part[0] == '-' || part[|part| - 1] == '-' {
        return None;
      }
      if exists i :: 0 <= i < |part| && !LabelChar(part[i]) {
        return None;
      }
    }
    return Some(ToLower(host));
  }

  // ---- Parsing -------------------------------------------------------------------------------

  /** A 16-bit number other than zero; a leading plus and leading zeros are allowed. */
  function ParsePort(s: string): Option<nat> {
    var digits := if s != "" && s[0] == '+' then s[1..] else s;
    if ParseU64(digits).None? || !(1 <= ParseU64(digits).value <= 65535) then None else ParseU64(digits)
  }

  function StripDot(host: string): string {
    if host != "" && host[|host| - 1] == '.' then host[..|host| - 1] else host
  }

  /** An IPv4 literal if it parses as one, otherwise a hostname. */
  function Classify(host: string, port: nat, lib: Library): Parsed {
    if lib.v4(host).Some? then Addr(PeerAddr(lib.v4(host).value, port, false, false))
    else if HostnameOk(host) then Addr(PeerAddr(ToLower(host), port, false, true))
    else Bad(InvalidHost)
  }

  function ParseBracketed(rest: string, lib: Library): Parsed {
    var close := IndexOf(rest, ']');
    if close == |rest| then Bad(InvalidIpv6)
    else if close + 1 == |rest| || rest[close + 1] != ':' then Bad(MissingPort)
    else if ParsePort(rest[close + 2..]).None? then Bad(InvalidPort)
    else if lib.v6(rest[..close]).None? then Bad(InvalidIpv6)
    else Addr(PeerAddr(lib.v6(rest[..close]).value, ParsePort(rest[close + 2..]).value, true, false))
  }

  function ParsePlain(input: string, lib: Library): Parsed {
    var colon := IndexOf(input, ':');
    if colon == |input| then Bad(MissingPort)
    else if ':' in input[colon + 1..] then Bad(AmbiguousColons)
    else if colon == 0 then Bad(InvalidHost)
    else if ParsePort(input[colon + 1..]).None? then Bad(InvalidPort)
    else if StripDot(input[..colon]) == "" then Bad(InvalidHost)
    else Classify(StripDot(input[..colon]), ParsePort(input[colon + 1..]).value, lib)
  }

  function ParseAddr(input: string, lib: Library): Parsed {
    if input == "" then Bad(Empty)
    else if Bytes(input) > ADDR_MAX_LEN then Bad(TooLong)
    else if input[0] == '[' then ParseBracketed(input[1..], lib)
    else ParsePlain(input, lib)
  }

  function Canonical(a: PeerAddr): string {
    if a.isIpv6 then "[" + a.host + "]:" + ToDecimal(a.port) else a.host + ":" + ToDecimal(a.port)
  }

  // ---- Ports ---------------------------------------------------------------------------------

  lemma {:induction false} NotBefore(s: string, c: char, k: nat)
    requires k < |s| && s[k] == c && forall i :: 0 <= i < k ==> s[i] != c
    ensures IndexOf(s, c) == k
  {
  }

  lemma PortPrinted(port: nat)
    requires 1 <= port <= 65535
    ensures ParsePort(ToDecimal(port)) == Some(port) && Bytes(ToDecimal(port)) <= 20
    ensures ':' !in ToDecimal(port)
  {
    ParsePrinted(port);
    PrintedIsPlain(port);
  }

  /** Printing a port never makes its text longer. */
  lemma PortShrinks(s: string)
    requires ParsePort(s).Some?
    ensures 1 <= ParsePort(s).value <= 65535 && Bytes(ToDecimal(ParsePort(s).value)) <= Bytes(s)
  {
    var digits := if s != "" && s[0] == '+' then s[1..] else s;
    PrintedIsShortest(digits);
    AsciiBytes(ToDecimal(ParsePort(s).value));
    BytesAtLeast(s);
  }

  // ---- Canonical hostnames -------------------------------------------------------------------

  lemma FirstAndRest(first: string, rest: seq<string>)
    requires LabelsOk([first] + rest)
    ensures LabelOk(first) && LabelsOk(rest)
  {
    var all := [first] + rest;
    assert all[0] == first;
    forall i | 0 <= i < |rest| ensures LabelOk(rest[i]) { assert all[i + 1] == rest[i]; }
  }

  lemma Joined(first: string, rest: seq<string>)
    requires LabelOk(first) && LabelsOk(rest)
    ensures LabelsOk([first] + rest)
  {
  }

  ghost predicate HostChars(s: string) {
    forall i :: 0 <= i < |s| ==> LabelChar(s[i]) || s[i] == '.'
  }

  lemma HostCharsJoin(s: string, k: nat)
    requires k < |s| && s[k] == '.' && HostChars(s[..k]) && HostChars(s[k + 1..])
    ensures HostChars(s)
  {
    forall i | 0 <= i < |s| ensures LabelChar(s[i]) || s[i] == '.' {
      if i < k {
        assert s[i] == s[..k][i];
      } else if i > k {
        assert s[i] == s[k + 1..][i - k - 1];
      }
    }
  }

  lemma {:induction false} SplitCovers(s: string)
    requires LabelsOk(Split(s))
    ensures s != "" && s[|s| - 1] != '.' && HostChars(s)
    decreases |s|
  {
    var k := IndexOf(s, '.');
    if k < |s| {
      FirstAndRest(s[..k], Split(s[k + 1..]));
      SplitCovers(s[k + 1..]);
      HostCharsJoin(s, k);
    } else {
      FirstAndRest(s, []);
    }
  }

  ghost predicate IsLower(t: string, s: string) {
    |t| == |s| && forall i :: 0 <= i < |s| ==> t[i] == LowerChar(s[i])
  }

  lemma LowerIsLower(s: string)
    ensures forall t :: IsLower(t, s) <==> t == ToLower(s)
  {
    LowerIsPointwise(s);
  }

  lemma LowerLabel(t: string, s: string)
    requires LabelOk(s) && IsLower(t, s)
    ensures LabelOk(t)
  {
    LowerIsLower(s);
  }

  lemma {:induction false} LowerSplit(t: string, s: string)
    requires LabelsOk(Split(s)) && IsLower(t, s)
    ensures LabelsOk(Split(t))
    decreases |s|
  {
    var k := IndexOf(s, '.');
    if k == |s| {
      FirstAndRest(s, []);
      assert IndexOf(t, '.') == |t|;
      LowerLabel(t, s);
    } else {
      FirstAndRest(s[..k], Split(s[k + 1..]));
      NotBefore(t, '.', k);
      LowerLabel(t[..k], s[..k]);
      LowerSplit(t[k + 1..], s[k + 1..]);
      Joined(t[..k], Split(t[k + 1..]));
    }
  }

  lemma LowerHostname(host: string)
    requires HostnameOk(host)
    ensures HostnameOk(ToLower(host)) && ToLower(ToLower(host)) == ToLower(host)
  {
    LowerIsPointwise(host);
    LowerSplit(ToLower(host), host);
    LowerTwice(host);
  }

  lemma HostnameIsNoV4(host: string, lib: Library)
    requires LibraryOk(lib) && lib.v4(host).None?
    ensures lib.v4(ToLower(host)).None?
  {
    LowerIsPointwise(host);
    if DottedDigits(ToLower(host)) {
      assert ToLower(host) == host;
    }
  }

  // ---- Canonical forms are fixed points ------------------------------------------------------

  ghost predicate PlainHost(host: string) {
    host != "" && host[0] != '[' && host[|host| - 1] != '.' && ':' !in host
  }

  lemma PlainJoin(host: string, port: nat, lib: Library)
    requires PlainHost(host) && 1 <= port <= 65535 && Bytes(host) + 1 + Bytes(ToDecimal(port)) <= ADDR_MAX_LEN
    ensures ParseAddr(host + ":" + ToDecimal(port), lib) == Classify(host, port, lib)
  {
    var p := ToDecimal(port);
    var s := host + ":" + p;
    PortPrinted(port);
    BytesConcat(host + ":", p);
    BytesConcat(host, ":");
    assert s[|host|] == ':';
    NotBefore(s, ':', |host|);
    assert s[..|host|] == host && s[|host| + 1..] == p;
  }

  lemma BracketLength(host: string, p: string)
    requires V6Chars(host) && |host| <= 45 && Bytes(p) <= 20
    ensures Bytes("[" + host + "]:" + p) <= ADDR_MAX_LEN
  {
    var head := "[" + host + "]:";
    AsciiBytes(head);
    BytesConcat(head, p);
  }

  lemma BracketRest(host: string, port: nat, lib: Library, rest: string, p: string)
    requires PrintedV6(host, lib) && ParsePort(p) == Some(port) && rest == host + "]:" + p
    ensures ParseBracketed(rest, lib) == Addr(PeerAddr(host, port, true, false))
  {
    assert rest[|host|] == ']' && rest[|host| + 1] == ':';
    NotBefore(rest, ']', |host|);
    assert rest[..|host|] == host && rest[|host| + 2..] == p;
  }

  lemma BracketJoin(host: string, port: nat, lib: Library)
    requires PrintedV6(host, lib) && 1 <= port <= 65535
    ensures ParseAddr("[" + host + "]:" + ToDecimal(port), lib) == Addr(PeerAddr(host, port, true, false))
  {
    var p := ToDecimal(port);
    PortPrinted(port);
    BracketLength(host, p);
    Regroup(host, p);
    BracketRest(host, port, lib, host + "]:" + p, p);
    Bracketed(host + "]:" + p, lib);
  }

  lemma Regroup(host: string, p: string)
    ensures "[" + host + "]:" + p == "[" + (host + "]:" + p)
  {
  }

  lemma Bracketed(rest: string, lib: Library)
    requires Bytes("[" + rest) <= ADDR_MAX_LEN
    ensures ParseAddr("[" + rest, lib) == ParseBracketed(rest, lib)
  {
    assert ("[" + rest)[1..] == rest;
  }

  lemma V4IsPlain(host: string, lib: Library)
    requires PrintedV4(host, lib)
    ensures PlainHost(host) && Bytes(host) <= 15
  {
    AsciiBytes(host);
  }

  lemma HostnameIsPlain(host: string)
    requires HostnameOk(host)
    ensures PlainHost(host)
  {
    SplitCovers(host);
  }

  lemma StripShrinks(host: string)
    ensures Bytes(StripDot(host)) <= Bytes(host)
  {
    var r := StripDot(host);
    if r != host {
      assert host == r + ".";
      BytesConcat(r, ".");
    }
  }

  /** What a successful parse of an unbracketed text found. */
  lemma PlainParse(input: string, lib: Library) returns (host: string, port: nat)
    requires ParsePlain(input, lib).Addr?
    ensures ParsePlain(input, lib) == Classify(host, port, lib) && 1 <= port <= 65535
    ensures Bytes(host) + 1 + Bytes(ToDecimal(port)) <= Bytes(input)
  {
    var colon := IndexOf(input, ':');
    var full, text := input[..colon], input[colon + 1..];
    host, port := StripDot(full), ParsePort(text).value;
    assert ParsePort(text).Some?;
    SplitAt(input, colon);
    PortShrinks(text);
    StripShrinks(full);
  }

  lemma SplitAt(s: string, k: nat)
    requires k < |s|
    ensures Bytes(s[..k]) + 1 + Bytes(s[k + 1..]) <= Bytes(s)
  {
    assert s == s[..k] + s[k..];
    BytesConcat(s[..k], s[k..]);
    assert s[k..][1..] == s[k + 1..];
  }

  lemma PlainIsFixedPoint(input: string, lib: Library)
    requires LibraryOk(lib) && ParsePlain(input, lib).Addr? && Bytes(input) <= ADDR_MAX_LEN
    ensures ParseAddr(Canonical(ParsePlain(input, lib).addr), lib) == ParsePlain(input, lib)
  {
    var host, port := PlainParse(input, lib);
    if lib.v4(host).Some? {
      var v4 := lib.v4(host).value;
      V4IsPlain(v4, lib);
      PortPrinted(port);
      PlainJoin(v4, port, lib);
    } else {
      LowerHostname(host);
      HostnameIsPlain(ToLower(host));
      HostnameIsNoV4(host, lib);
      PlainJoin(ToLower(host), port, lib);
    }
  }

  /** The canonical form of a parsed address parses to the same address. */
  lemma CanonicalIsFixedPoint(input: string, lib: Library)
    requires LibraryOk(lib) && ParseAddr(input, lib).Addr?
    ensures ParseAddr(Canonical(ParseAddr(input, lib).addr), lib) == ParseAddr(input, lib)
  {
    if input[0] == '[' {
      var a := ParseAddr(input, lib).addr;
      BracketJoin(a.host, a.port, lib);
    } else {
      PlainIsFixedPoint(input, lib);
    }
  }

  /** So the canonical form identifies an address: texts with the same one parse alike. */
  lemma CanonicalIdentifies(s: string, t: string, lib: Library)
    requires LibraryOk(lib) && ParseAddr(s, lib).Addr? && ParseAddr(t, lib).Addr?
    ensures Canonical(ParseAddr(s, lib).addr) == Canonical(ParseAddr(t, lib).addr) <==> ParseAddr(s, lib) == ParseAddr(t, lib)
  {
    CanonicalIsFixedPoint(s, lib);
    CanonicalIsFixedPoint(t, lib);
  }

  // ---- Which texts are addresses -------------------------------------------------------------

  /** A decimal number from 1 to 65535, with or without a plus in front. */
  ghost predicate PortText(p: string, port: nat) {
    IsNumber(if p != "" && p[0] == '+' then p[1..] else p, port) && 1 <= port <= 65535
  }

  ghost predicate IsNumber(digits: string, n: nat) {
    digits != "" && (forall i :: 0 <= i < |digits| ==> '0' <= digits[i] <= '9') && DecimalValue(digits) == n
  }

  lemma PortIsParsed(p: string)
    ensures ParsePort(p).Some? ==> PortText(p, ParsePort(p).value)
    ensures forall port: nat :: PortText(p, port) ==> ParsePort(p) == Some(port)
  {
    var digits := if p != "" && p[0] == '+' then p[1..] else p;
    forall port: nat | PortText(p, port) ensures ParsePort(p) == Some(port) {
      assert IsNumber(digits, port);
    }
  }

  /** Characters `i` up to `j` are one label: between dots or the ends, without a dot inside. */
  ghost predicate IsLabel(h: string, i: nat, j: nat) {
    && i <= j <= |h| && (i == 0 || h[i - 1] == '.') && (j == |h| || h[j] == '.')
    && forall k :: i <= k < j ==> h[k] != '.'
  }

  ghost predicate GoodLabel(h: string, i: nat, j: nat)
    requires i <= j <= |h|
  {
    1 <= j - i <= 63 && h[i] != '-' && h[j - 1] != '-'
  }

  ghost predicate HostnameChar(c: char) {
    '0' <= c <= '9' || 'a' <= c <= 'z' || 'A' <= c <= 'Z' || c == '-' || c == '.'
  }

  /** Section 2.1 of RFC 1123: letters, digits and hyphens in labels of at most 63, at most 253 in all. */
  ghost predicate Rfc1123(h: string) {
    && |h| <= 253 && (forall i :: 0 <= i < |h| ==> HostnameChar(h[i]))
    && forall i: nat, j: nat :: IsLabel(h, i, j) ==> GoodLabel(h, i, j)
  }

  /** A label that does not start the text lies in the part after the first dot. */
  lemma LabelShift(h: string, k: nat, i: nat, j: nat)
    requires k < |h| && h[k] == '.' && k < i <= j <= |h|
    ensures IsLabel(h, i, j) <==> IsLabel(h[k + 1..], i - k - 1, j - k - 1)
    ensures GoodLabel(h, i, j) <==> GoodLabel(h[k + 1..], i - k - 1, j - k - 1)
  {
    var t := h[k + 1..];
    assert forall m :: 0 <= m < |t| ==> t[m] == h[k + 1 + m];
    if IsLabel(t, i - k - 1, j - k - 1) {
      forall m | i <= m < j ensures h[m] != '.' { assert t[m - k - 1] == h[m]; }
    }
  }

  lemma {:induction false} FirstLabel(h: string)
    ensures var k := IndexOf(h, '.'); IsLabel(h, 0, k) && forall j: nat :: IsLabel(h, 0, j) ==> j == k
  {
  }

  lemma LabelOkIsGood(h: string, k: nat)
    requires k <= |h| && IsLabel(h, 0, k)
    ensures LabelOk(h[..k]) <==> GoodLabel(h, 0, k) && forall m :: 0 <= m < k ==> HostnameChar(h[m])
  {
    var part := h[..k];
    if forall m :: 0 <= m < k ==> HostnameChar(h[m]) {
      AsciiBytes(part);
    }
    if LabelOk(part) {
      AsciiBytes(part);
      forall m | 0 <= m < k ensures HostnameChar(h[m]) { assert h[m] == part[m]; }
    }
  }

  ghost predicate GoodLabels(h: string) {
    (forall i :: 0 <= i < |h| ==> HostnameChar(h[i])) && forall i: nat, j: nat :: IsLabel(h, i, j) ==> GoodLabel(h, i, j)
  }

  lemma {:induction false} SplitIsGood(h: string)
    ensures LabelsOk(Split(h)) <==> GoodLabels(h)
    decreases |h|
  {
    var k := IndexOf(h, '.');
    FirstLabel(h);
    LabelOkIsGood(h, k);
    if k == |h| {
      assert h[..k] == h;
      assert Split(h) == [h] && (LabelsOk([h]) <==> LabelOk(h)) by { OneLabel(h); }
      OnlyLabel(h);
    } else {
      SplitIsGood(h[k + 1..]);
      if LabelsOk(Split(h)) { FirstAndRest(h[..k], Split(h[k + 1..])); }
      if LabelOk(h[..k]) && LabelsOk(Split(h[k + 1..])) { Joined(h[..k], Split(h[k + 1..])); }
      if GoodLabels(h) { GoodParts(h, k); }
      if LabelOk(h[..k]) && GoodLabels(h[k + 1..]) { GoodWhole(h, k); }
    }
  }

  lemma OneLabel(h: string)
    ensures LabelsOk([h]) <==> LabelOk(h)
  {
    if LabelsOk([h]) { assert LabelOk([h][0]); }
  }

  /** Without a dot there is one label. */
  lemma OnlyLabel(h: string)
    requires IndexOf(h, '.') == |h|
    ensures GoodLabels(h) <==> GoodLabel(h, 0, |h|) && forall m :: 0 <= m < |h| ==> HostnameChar(h[m])
  {
    FirstLabel(h);
    assert forall i: nat, j: nat :: IsLabel(h, i, j) ==> i == 0;
  }

  ghost predicate HostnameChars(h: string, k: nat)
    requires k <= |h|
  {
    forall m :: 0 <= m < k ==> HostnameChar(h[m])
  }

  lemma GoodParts(h: string, k: nat)
    requires k == IndexOf(h, '.') && k < |h| && GoodLabels(h)
    ensures GoodLabel(h, 0, k) && HostnameChars(h, k) && GoodLabels(h[k + 1..])
  {
    var t := h[k + 1..];
    FirstLabel(h);
    forall i: nat, j: nat | IsLabel(t, i, j) ensures GoodLabel(t, i, j) {
      LabelShift(h, k, i + k + 1, j + k + 1);
    }
  }

  lemma GoodWhole(h: string, k: nat)
    requires k == IndexOf(h, '.') && k < |h| && GoodLabel(h, 0, k) && HostnameChars(h, k) && GoodLabels(h[k + 1..])
    ensures GoodLabels(h)
  {
    var t := h[k + 1..];
    FirstLabel(h);
    forall m | 0 <= m < |h| ensures HostnameChar(h[m]) {
      if m > k { assert h[m] == t[m - k - 1]; }
    }
    forall i: nat, j: nat | IsLabel(h, i, j) ensures GoodLabel(h, i, j) {
      if i > 0 {
        assert i > k;
        LabelShift(h, k, i, j);
      }
    }
  }

  /** A hostname is accepted exactly when it follows the standard. */
  lemma HostnameExactly(h: string)
    ensures HostnameOk(h) <==> Rfc1123(h)
  {
    SplitIsGood(h);
    if HostnameOk(h) || Rfc1123(h) { AsciiBytes(h); }
  }

  /** A text with one colon is an address exactly if a port follows it and a host precedes it. */
  lemma PlainParses(h: string, p: string, lib: Library)
    requires ':' !in h && ':' !in p && h != "" && h[0] != '[' && Bytes(h + ":" + p) <= 256
    ensures
      var r, host := ParseAddr(h + ":" + p, lib), if h[|h| - 1] == '.' then h[..|h| - 1] else h;
      && ((forall port: nat :: !PortText(p, port)) ==> r == Bad(InvalidPort))
      && forall port: nat :: PortText(p, port) ==>
           r == if host != "" && lib.v4(host).Some? then Addr(PeerAddr(lib.v4(host).value, port, false, false))
                else if host != "" && Rfc1123(host) then Addr(PeerAddr(ToLower(host), port, false, true))
                else Bad(InvalidHost)
  {
    var s := h + ":" + p;
    var host := StripDot(h);
    PortIsParsed(p);
    assert s[|h|] == ':';
    NotBefore(s, ':', |h|);
    assert s[..|h|] == h && s[|h| + 1..] == p;
    HostnameExactly(host);
  }

  /** A bracketed text is an address exactly if an IPv6 address is inside and a port follows. */
  lemma BracketParses(inner: string, p: string, lib: Library)
    requires ']' !in inner && Bytes("[" + inner + "]:" + p) <= 256
    ensures
      var r := ParseAddr("[" + inner + "]:" + p, lib);
      && ((forall port: nat :: !PortText(p, port)) ==> r == Bad(InvalidPort))
      && forall port: nat :: PortText(p, port) ==>
           r == if lib.v6(inner).Some? then Addr(PeerAddr(lib.v6(inner).value, port, true, false)) else Bad(InvalidIpv6)
  {
    PortIsParsed(p);
    Regroup(inner, p);
    BracketSplit(inner, p);
    Bracketed(inner + "]:" + p, lib);
  }

  lemma BracketSplit(inner: string, p: string)
    requires ']' !in inner
    ensures
      var rest := inner + "]:" + p;
      IndexOf(rest, ']') == |inner| && rest[|inner| + 1] == ':' && rest[..|inner|] == inner && rest[|inner| + 2..] == p
  {
    var rest := inner + "]:" + p;
    assert rest[|inner|] == ']';
    NotBefore(rest, ']', |inner|);
  }

  /** All other texts are refused, with these reasons. */
  lemma OtherTextsAreBad(s: string, lib: Library)
    ensures s == "" ==> ParseAddr(s, lib) == Bad(Empty)
    ensures Bytes(s) > 256 ==> ParseAddr(s, lib) == Bad(TooLong)
    ensures s != "" && Bytes(s) <= 256 && s[0] != '[' ==>
              && (':' !in s ==> ParseAddr(s, lib) == Bad(MissingPort))
              && (s[0] == ':' && ':' !in s[1..] ==> ParseAddr(s, lib) == Bad(InvalidHost))
              && forall i, j :: 0 <= i < j < |s| && s[i] == ':' && s[j] == ':' ==> ParseAddr(s, lib) == Bad(AmbiguousColons)
    ensures s != "" && Bytes(s) <= 256 && s[0] == '[' && ']' !in s ==> ParseAddr(s, lib) == Bad(InvalidIpv6)
  {
    forall i, j | 0 <= i < j < |s| && s[i] == ':' && s[j] == ':' && s[0] != '[' && Bytes(s) <= 256
      ensures ParseAddr(s, lib) == Bad(AmbiguousColons)
    {
      var k := IndexOf(s, ':');
      assert k <= i && s[k + 1..][j - k - 1] == ':';
    }
  }

  // ---- Canonical texts -----------------------------------------------------------------------

  ghost predicate IsCanonical(s: string, lib: Library) {
    ParseAddr(s, lib).Addr? && Canonical(ParseAddr(s, lib).addr) == s
  }

  ghost predicate IsCanonicalIp(s: string, lib: Library) {
    IsCanonical(s, lib) && !ParseAddr(s, lib).addr.isHostname
  }

  /** The address of a live connection; its IP is printed by the library. */
  function FromSocketAddr(ip: string, port: nat, isIpv6: bool): PeerAddr {
    PeerAddr(ip, port, isIpv6, false)
  }

  lemma RegisteredIsCanonical(input: string, lib: Library)
    requires LibraryOk(lib) && ParseAddr(input, lib).Addr?
    ensures IsCanonical(Canonical(ParseAddr(input, lib).addr), lib)
  {
    CanonicalIsFixedPoint(input, lib);
  }

  lemma ConnectedIsCanonicalIp(ip: string, port: nat, isIpv6: bool, lib: Library)
    requires 1 <= port <= 65535
    requires if isIpv6 then PrintedV6(ip, lib) else PrintedV4(ip, lib)
    ensures IsCanonicalIp(Canonical(FromSocketAddr(ip, port, isIpv6)), lib)
  {
    if isIpv6 {
      BracketJoin(ip, port, lib);
    } else {
      V4IsPlain(ip, lib);
      PortPrinted(port);
      PlainJoin(ip, port, lib);
    }
  }
}
