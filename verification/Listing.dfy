/**
 A channel's way through the system: sanitised PCP input, the listing, its tags, the receiver's
 checks, and the listing read back.
 */
module Listing {
  import opened Events
  import opened Text

  const MAX_TAGS: nat := 64
  const MAX_TAG_ELEMENT_BYTES: nat := 1024
  const MAX_BITRATE_KBPS: int := 100_000
  const UNKNOWN_COUNT: int := -1
  const I64_MAX: int := 0x7FFF_FFFF_FFFF_FFFF

  datatype ChannelState = Announced | Updating | EndedState
  datatype Status = Live | Ended
  datatype Track = Track(title: string, artist: string, album: string, url: string)

  datatype RawChannelInfo = RawChannelInfo(
    channelId: seq<nat>, name: string, genre: string, description: string, comment: string, contactUrl: string,
    bitrate: int, contentType: string, trackTitle: string, trackCreator: string, trackAlbum: string,
    tracker: Option<string>, listeners: int, relays: int, startedAt: nat)

  datatype AnnouncedChannel = AnnouncedChannel(
    channelId: seq<nat>, name: string, genre: string, description: string, comment: string, contactUrl: string,
    bitrateKbps: nat, contentType: string, trackTitle: string, trackCreator: string, trackAlbum: string,
    tracker: Option<string>, listeners: int, relays: int, startedAt: nat, state: ChannelState)

  datatype ChannelListing = ChannelListing(
    channelId: string, title: string, summary: Option<string>, genre: Option<string>, status: Status, starts: nat,
    participants: int, streaming: Option<string>, bitrateKbps: Option<nat>, contentType: Option<string>,
    tip: Option<string>, contact: Option<string>, comment: Option<string>, relays: int, track: Option<Track>)

  /** Parsing an `ip:port` and printing it again, as the standard library does; none if it does not parse. */
  type SocketText = string -> Option<string>

  /** What is assumed of the library: printed addresses are short, plain and parse to themselves. */
  ghost predicate LibraryOk(socket: SocketText) {
    forall s :: socket(s).Some? ==>
      socket(socket(s).value) == socket(s) && Clean(socket(s).value) && Bytes(socket(s).value) <= 64
  }

  // ---- Sanitising ----------------------------------------------------------------------------

  function SanitizeText(raw: string, max: nat): string {
    TakeBytes(StripControl(raw), max)
  }

  predicate IsAlphanumeric(c: char) {
    IsDigit(c) || 'a' <= c <= 'z' || 'A' <= c <= 'Z'
  }

  function KeepAlphanumeric(s: string): (r: string)
    ensures Clean(r)
  {
    if s == "" then ""
    else if IsAlphanumeric(s[0]) then [s[0]] + KeepAlphanumeric(s[1..])
    else KeepAlphanumeric(s[1..])
  }

  function ClampBitrate(raw: int): nat {
    if raw < 0 then 0 else if raw > MAX_BITRATE_KBPS then MAX_BITRATE_KBPS else raw
  }

  function ClampCount(raw: int): int {
    if raw < UNKNOWN_COUNT then UNKNOWN_COUNT else raw
  }

  function FromRaw(raw: RawChannelInfo, state: ChannelState, socket: SocketText): AnnouncedChannel {
    AnnouncedChannel(
      raw.channelId, SanitizeText(raw.name, 256), SanitizeText(raw.genre, 256), SanitizeText(raw.description, 1024),
      SanitizeText(raw.comment, 1024), SanitizeText(raw.contactUrl, 512), ClampBitrate(raw.bitrate),
      TakeBytes(KeepAlphanumeric(raw.contentType), 32), SanitizeText(raw.trackTitle, 256),
      SanitizeText(raw.trackCreator, 256), SanitizeText(raw.trackAlbum, 256),
      if raw.tracker.Some? then socket(raw.tracker.value) else None,
      ClampCount(raw.listeners), ClampCount(raw.relays), raw.startedAt, state)
  }

  function NonEmpty(s: string): Option<string> {
    if s == "" then None else Some(s)
  }

  predicate IsCid(bytes: seq<nat>) {
    |bytes| == 16 && forall i :: 0 <= i < |bytes| ==> bytes[i] < 256
  }

  function ToListing(c: AnnouncedChannel): ChannelListing
    requires IsCid(c.channelId)
  {
    var id := ToHex(c.channelId);
    ChannelListing(
      id, c.name, NonEmpty(c.description),
      if c.genre == "" then None else Some(ToLower(c.genre)),
      if c.state.EndedState? then Ended else Live,
      c.startedAt, c.listeners,
      if c.tracker.Some? then Some("pcp://" + c.tracker.value + "/" + id) else None,
      if c.bitrateKbps > 0 then Some(c.bitrateKbps) else None,
      NonEmpty(c.contentType), c.tracker, NonEmpty(c.contactUrl), NonEmpty(c.comment), c.relays,
      if c.trackTitle == "" && c.trackCreator == "" && c.trackAlbum == "" then None
      else Some(Track(c.trackTitle, c.trackCreator, c.trackAlbum, "")))
  }

  // ---- Tags ----------------------------------------------------------------------------------

  type Tag = seq<string>

  datatype Name = D | Title | Summary | T | StatusName | Starts | Participants | Streaming | ExpirationName
  datatype Sub = Bitrate | Type | Tip | Contact | Comment | Relays | TrackSub

  function NameText(n: Name): string {
    match n
    case D => "d"
    case Title => "title"
    case Summary => "summary"
    case T => "t"
    case StatusName => "status"
    case Starts => "starts"
    case Participants => "current_participants"
    case Streaming => "streaming"
    case ExpirationName => "expiration"
  }

  function SubText(s: Sub): string {
    match s
    case Bitrate => "bitrate"
    case Type => "type"
    case Tip => "tip"
    case Contact => "contact"
    case Comment => "comment"
    case Relays => "relays"
    case TrackSub => "track"
  }

  function StatusText(s: Status): string {
    match s
    case Live => "live"
    case Ended => "ended"
  }

  function ParseStatus(s: string): Option<Status> {
    if s == "live" then Some(Live) else if s == "ended" then Some(Ended) else None
  }

  /** A tag to write: `[name, value]` or `["peca", sub, values...]`. */
  datatype Field = Plain(name: Name, value: string) | Peca(sub: Sub, values: seq<string>)

  function Render(f: Field): Tag {
    match f
    case Plain(n, v) => [NameText(n), v]
    case Peca(s, vs) => ["peca", SubText(s)] + vs
  }

  function RenderAll(fields: seq<Field>): seq<Tag> {
    seq(|fields|, i requires 0 <= i < |fields| => Render(fields[i]))
  }

  function PlainIf(n: Name, v: Option<string>): seq<Field> {
    if v.Some? then [Plain(n, v.value)] else []
  }

  function PecaIf(s: Sub, v: Option<string>): seq<Field> {
    if v.Some? then [Peca(s, [v.value])] else []
  }

  function CountText(n: int): Option<string> {
    if n >= 0 then Some(ToDecimal(n)) else None
  }

  function NumberText(n: Option<nat>): Option<string> {
    if n.Some? then Some(ToDecimal(n.value)) else None
  }

  function TrackFields(t: Option<Track>): seq<Field> {
    if t.Some? then [Peca(TrackSub, [t.value.title, t.value.artist, t.value.album, t.value.url])] else []
  }

  function PlainFields(l: ChannelListing, createdAt: nat): seq<Field> {
    [Plain(D, l.channelId), Plain(Title, l.title)]
    + PlainIf(Summary, l.summary) + PlainIf(T, l.genre)
    + [Plain(StatusName, StatusText(l.status)), Plain(Starts, ToDecimal(l.starts))]
    + PlainIf(Participants, CountText(l.participants)) + PlainIf(Streaming, l.streaming)
    + [Plain(ExpirationName, ToDecimal(createdAt + EXPIRATION_OFFSET))]
  }

  function PecaFields(l: ChannelListing): seq<Field> {
    PecaIf(Bitrate, NumberText(l.bitrateKbps)) + PecaIf(Type, l.contentType) + PecaIf(Tip, l.tip)
    + PecaIf(Contact, l.contact) + PecaIf(Comment, l.comment) + PecaIf(Relays, CountText(l.relays))
    + TrackFields(l.track)
  }

  /** The tags of a listing, in writing order. */
  function Fields(l: ChannelListing, createdAt: nat): seq<Field> {
    PlainFields(l, createdAt) + PecaFields(l)
  }

  function ToTags(l: ChannelListing, createdAt: nat): seq<Tag> {
    RenderAll(Fields(l, createdAt))
  }

  method RenderTags(raw: seq<Field>) returns (tags: seq<Tag>)
    ensures tags == RenderAll(raw)
  {
    tags := [];
    for i := 0 to |raw|
      invariant tags == RenderAll(raw[..i])
    {
      tags := tags + [Render(raw[i])];
    }
    assert raw[..|raw|] == raw;
  }

  /** Pushes the tags one after another, leaving out what is unknown. */
  method WriteTags(l: ChannelListing, createdAt: nat) returns (tags: seq<Tag>)
    ensures tags == ToTags(l, createdAt)
  {
    var raw := [Plain(D, l.channelId), Plain(Title, l.title)];
    raw := raw + PlainIf(Summary, l.summary);
    raw := raw + PlainIf(T, l.genre);
    raw := raw + [Plain(StatusName, StatusText(l.status)), Plain(Starts, ToDecimal(l.starts))];
    raw := raw + PlainIf(Participants, CountText(l.participants));
    raw := raw + PlainIf(Streaming, l.streaming);
    raw := raw + [Plain(ExpirationName, ToDecimal(createdAt + EXPIRATION_OFFSET))];
    assert raw == PlainFields(l, createdAt);
    var peca := PecaIf(Bitrate, NumberText(l.bitrateKbps));
    peca := peca + PecaIf(Type, l.contentType);
    peca := peca + PecaIf(Tip, l.tip);
    peca := peca + PecaIf(Contact, l.contact);
    peca := peca + PecaIf(Comment, l.comment);
    peca := peca + PecaIf(Relays, CountText(l.relays));
    peca := peca + TrackFields(l.track);
    tags := RenderTags(raw + peca);
  }

  // ---- Reading tags --------------------------------------------------------------------------

  /** The value of the first `[name, value, ...]` tag that has one. */
  function TagValue(tags: seq<Tag>, name: string): Option<string> {
    if tags == [] then None
    else if |tags[0]| >= 2 && tags[0][0] == name then Some(tags[0][1])
    else TagValue(tags[1..], name)
  }

  function PecaSlice(tags: seq<Tag>, sub: string): Option<Tag> {
    if tags == [] then None
    else if |tags[0]| >= 2 && tags[0][0] == "peca" && tags[0][1] == sub then Some(tags[0])
    else PecaSlice(tags[1..], sub)
  }

  function PecaValue(tags: seq<Tag>, sub: string): Option<string> {
    var slice := PecaSlice(tags, sub);
    if slice.Some? && |slice.value| >= 3 then Some(slice.value[2]) else None
  }

  datatype Reason =
    | MissingD | MissingTitle | MissingStatus | MissingStarts | InvalidStatus | InvalidStarts | ControlInTitle
    | ControlInTag | InvalidCount | InvalidBitrate | BitrateOutOfRange | InvalidTip | ControlInTrack

  datatype Outcome<+R> = Ok(value: R) | Invalid(reason: Reason) {
    predicate IsFailure() { Invalid? }
    function PropagateFailure<U>(): Outcome<U> requires Invalid? { Invalid(reason) }
    function Extract(): R requires Ok? { value }
  }

  function Need<R>(v: Option<R>, reason: Reason): Outcome<R> {
    if v.Some? then Ok(v.value) else Invalid(reason)
  }

  function CleanOptional(v: Option<string>): Outcome<Option<string>> {
    if v.Some? && !Clean(v.value) then Invalid(ControlInTag) else Ok(v)
  }

  /** A count is absent or a non-negative number; the 64-bit cast wraps above the signed range. */
  function ParseCount(v: Option<string>): Outcome<int> {
    if v.None? then Ok(UNKNOWN_COUNT)
    else if ParseU64(v.value).None? then Invalid(InvalidCount)
    else if ParseU64(v.value).value <= I64_MAX then Ok(ParseU64(v.value).value)
    else Ok(ParseU64(v.value).value - 0x1_0000_0000_0000_0000)
  }

  function ParseBitrate(v: Option<string>): Outcome<Option<nat>> {
    if v.None? then Ok(None)
    else if ParseU64(v.value).None? then Invalid(InvalidBitrate)
    else if ParseU64(v.value).value > MAX_BITRATE_KBPS then Invalid(BitrateOutOfRange)
    else Ok(Some(ParseU64(v.value).value))
  }

  function ParseTip(v: Option<string>, socket: SocketText): Outcome<Option<string>> {
    if v.Some? && (!Clean(v.value) || socket(v.value).None?) then Invalid(InvalidTip) else Ok(v)
  }

  function ElementOr(t: Tag, i: nat): string {
    if i < |t| then t[i] else ""
  }

  function ParseTrack(slice: Option<Tag>): Outcome<Option<Track>> {
    if slice.None? then Ok(None)
    else
      var t := Track(ElementOr(slice.value, 2), ElementOr(slice.value, 3), ElementOr(slice.value, 4), ElementOr(slice.value, 5));
      if Clean(t.title) && Clean(t.artist) && Clean(t.album) && Clean(t.url) then Ok(Some(t))
      else Invalid(ControlInTrack)
  }

  /** Everything the reader looks up, before any of it is checked. */
  datatype LookedUp = LookedUp(
    d: Option<string>, title: Option<string>, status: Option<string>, starts: Option<string>, summary: Option<string>,
    genre: Option<string>, streaming: Option<string>, participants: Option<string>, bitrate: Option<string>,
    contentType: Option<string>, contact: Option<string>, comment: Option<string>, tip: Option<string>,
    relays: Option<string>, track: Option<Tag>)

  function LookUp(tags: seq<Tag>): LookedUp {
    LookedUp(
      TagValue(tags, "d"), TagValue(tags, "title"), TagValue(tags, "status"), TagValue(tags, "starts"),
      TagValue(tags, "summary"), TagValue(tags, "t"), TagValue(tags, "streaming"), TagValue(tags, "current_participants"),
      PecaValue(tags, "bitrate"), PecaValue(tags, "type"), PecaValue(tags, "contact"), PecaValue(tags, "comment"),
      PecaValue(tags, "tip"), PecaValue(tags, "relays"), PecaSlice(tags, "track"))
  }

  /** Checks ranges, the tracker's form and control characters, in this order. */
  function Assemble(v: LookedUp, socket: SocketText): Outcome<ChannelListing> {
    var channelId :- Need(v.d, MissingD);
    var title :- Need(v.title, MissingTitle);
    if !Clean(title) then Invalid(ControlInTitle) else
    var statusText :- Need(v.status, MissingStatus);
    var status :- Need(ParseStatus(statusText), InvalidStatus);
    var startsText :- Need(v.starts, MissingStarts);
    var starts :- Need(ParseU64(startsText), InvalidStarts);
    var summary :- CleanOptional(v.summary);
    var genre :- CleanOptional(v.genre);
    var streaming :- CleanOptional(v.streaming);
    var participants :- ParseCount(v.participants);
    var bitrate :- ParseBitrate(v.bitrate);
    var contentType :- CleanOptional(v.contentType);
    var contact :- CleanOptional(v.contact);
    var comment :- CleanOptional(v.comment);
    var tip :- ParseTip(v.tip, socket);
    var relays :- ParseCount(v.relays);
    var track :- ParseTrack(v.track);
    Ok(ChannelListing(channelId, title, summary, genre, status, starts, participants, streaming, bitrate,
                      contentType, tip, contact, comment, relays, track))
  }

  /** Reads the listing back from the tags of an event. */
  function FromTags(tags: seq<Tag>, socket: SocketText): Outcome<ChannelListing> {
    Assemble(LookUp(tags), socket)
  }

  predicate ShortElements(tag: Tag) {
    forall j :: 0 <= j < |tag| ==> Bytes(tag[j]) <= MAX_TAG_ELEMENT_BYTES
  }

  /** Kind, number and length of tags, the channel id and the status. */
  predicate FormatOk(kind: nat, tags: seq<Tag>) {
    && kind == CHANNEL_KIND && |tags| <= MAX_TAGS
    && (forall i :: 0 <= i < |tags| ==> ShortElements(tags[i]))
    && TagValue(tags, "d").Some? && IsLowerHex(TagValue(tags, "d").value, 32)
    && TagValue(tags, "status").Some? && ParseStatus(TagValue(tags, "status").value).Some?
  }

  // ---- Lookups find what was written ---------------------------------------------------------

  lemma NamesDiffer(a: Name, b: Name)
    ensures NameText(a) == NameText(b) ==> a == b
    ensures NameText(a) != "peca" && 1 <= |NameText(a)| <= 20
  {
    var s, t := NameText(a), NameText(b);
    if |s| == |t| && s[0] == t[0] && a != b {
      assert |s| == 6 && s[3] != t[3];
    }
  }

  lemma SubsDiffer(a: Sub, b: Sub)
    ensures SubText(a) == SubText(b) ==> a == b
    ensures 1 <= |SubText(a)| <= 7
  {
    var s, t := SubText(a), SubText(b);
    if |s| == |t| && s[0] == t[0] && a != b {
      assert s[2] != t[2];
    }
  }

  ghost predicate OnlyPlain(fields: seq<Field>, n: Name, v: Option<string>) {
    && (v.Some? ==> Plain(n, v.value) in fields)
    && (forall f :: f in fields && f.Plain? && f.name == n ==> v == Some(f.value))
  }

  ghost predicate OnlyPeca(fields: seq<Field>, s: Sub, vs: Option<seq<string>>) {
    && (vs.Some? ==> Peca(s, vs.value) in fields)
    && (forall f :: f in fields && f.Peca? && f.sub == s ==> vs == Some(f.values))
  }

  lemma {:induction false} FindPlain(fields: seq<Field>, n: Name, v: Option<string>)
    requires OnlyPlain(fields, n, v)
    ensures TagValue(RenderAll(fields), NameText(n)) == v
    decreases |fields|
  {
    if fields != [] {
      var f := fields[0];
      assert f in fields;
      assert RenderAll(fields)[1..] == RenderAll(fields[1..]);
      if f.Plain? { NamesDiffer(f.name, n); } else { NamesDiffer(n, n); }
      if f.Plain? && f.name == n {
        assert v == Some(f.value);
      } else {
        assert fields == [f] + fields[1..];
        FindPlain(fields[1..], n, v);
      }
    }
  }

  lemma {:induction false} FindPeca(fields: seq<Field>, s: Sub, vs: Option<seq<string>>)
    requires OnlyPeca(fields, s, vs)
    ensures PecaSlice(RenderAll(fields), SubText(s)) == if vs.Some? then Some(["peca", SubText(s)] + vs.value) else None
    decreases |fields|
  {
    if fields != [] {
      var f := fields[0];
      assert f in fields;
      assert RenderAll(fields)[1..] == RenderAll(fields[1..]);
      if f.Peca? { SubsDiffer(f.sub, s); } else { NamesDiffer(f.name, f.name); }
      if f.Peca? && f.sub == s {
        assert vs == Some(f.values);
      } else {
        assert fields == [f] + fields[1..];
        FindPeca(fields[1..], s, vs);
      }
    }
  }

  function PlainValue(l: ChannelListing, createdAt: nat, n: Name): Option<string> {
    match n
    case D => Some(l.channelId)
    case Title => Some(l.title)
    case Summary => l.summary
    case T => l.genre
    case StatusName => Some(StatusText(l.status))
    case Starts => Some(ToDecimal(l.starts))
    case Participants => CountText(l.participants)
    case Streaming => l.streaming
    case ExpirationName => Some(ToDecimal(createdAt + EXPIRATION_OFFSET))
  }

  function Single(v: Option<string>): Option<seq<string>> {
    if v.Some? then Some([v.value]) else None
  }

  function PecaValues(l: ChannelListing, s: Sub): Option<seq<string>> {
    match s
    case Bitrate => Single(NumberText(l.bitrateKbps))
    case Type => Single(l.contentType)
    case Tip => Single(l.tip)
    case Contact => Single(l.contact)
    case Comment => Single(l.comment)
    case Relays => Single(CountText(l.relays))
    case TrackSub => if l.track.Some? then Some([l.track.value.title, l.track.value.artist, l.track.value.album, l.track.value.url]) else None
  }

  lemma PlainFieldsAre(l: ChannelListing, createdAt: nat, f: Field)
    ensures f in PlainFields(l, createdAt) <==> f.Plain? && PlainValue(l, createdAt, f.name) == Some(f.value)
    ensures |PlainFields(l, createdAt)| <= 9
  {
  }

  lemma PecaFieldsAre(l: ChannelListing, f: Field)
    ensures f in PecaFields(l) <==> f.Peca? && PecaValues(l, f.sub) == Some(f.values)
    ensures |PecaFields(l)| <= 7
  {
  }

  /** Each name is written at most once, with the listing's value. */
  lemma FieldsAre(l: ChannelListing, createdAt: nat, f: Field)
    ensures f in Fields(l, createdAt) <==>
            match f
            case Plain(n, v) => PlainValue(l, createdAt, n) == Some(v)
            case Peca(s, vs) => PecaValues(l, s) == Some(vs)
    ensures |Fields(l, createdAt)| <= 16
  {
    PlainFieldsAre(l, createdAt, f);
    PecaFieldsAre(l, f);
  }

  lemma ReadPlain(l: ChannelListing, createdAt: nat, n: Name)
    ensures TagValue(ToTags(l, createdAt), NameText(n)) == PlainValue(l, createdAt, n)
  {
    var fields, v := Fields(l, createdAt), PlainValue(l, createdAt, n);
    forall f | f in fields && f.Plain? && f.name == n ensures v == Some(f.value) { FieldsAre(l, createdAt, f); }
    if v.Some? { FieldsAre(l, createdAt, Plain(n, v.value)); }
    FindPlain(fields, n, v);
  }

  lemma ReadPeca(l: ChannelListing, createdAt: nat, s: Sub)
    ensures
      var vs := PecaValues(l, s);
      PecaSlice(ToTags(l, createdAt), SubText(s)) == if vs.Some? then Some(["peca", SubText(s)] + vs.value) else None
  {
    var fields, vs := Fields(l, createdAt), PecaValues(l, s);
    forall f | f in fields && f.Peca? && f.sub == s ensures vs == Some(f.values) { FieldsAre(l, createdAt, f); }
    if vs.Some? { FieldsAre(l, createdAt, Peca(s, vs.value)); }
    FindPeca(fields, s, vs);
  }

  // ---- Publishable listings are read back ----------------------------------------------------

  ghost predicate Plainly(v: Option<string>) {
    v.Some? ==> Clean(v.value) && Bytes(v.value) <= MAX_TAG_ELEMENT_BYTES
  }

  ghost predicate TrackOk(t: Option<Track>) {
    t.Some? ==> Plainly(Some(t.value.title)) && Plainly(Some(t.value.artist)) && Plainly(Some(t.value.album)) && Plainly(Some(t.value.url))
  }

  /** What sanitising guarantees of a listing. */
  ghost predicate Publishable(l: ChannelListing, socket: SocketText) {
    && IsLowerHex(l.channelId, 32) && Plainly(Some(l.title)) && Plainly(l.summary) && Plainly(l.genre)
    && Plainly(l.streaming) && Plainly(l.contentType) && Plainly(l.contact) && Plainly(l.comment)
    && l.starts <= U64_MAX && UNKNOWN_COUNT <= l.participants <= I64_MAX && UNKNOWN_COUNT <= l.relays <= I64_MAX
    && (l.bitrateKbps.Some? ==> l.bitrateKbps.value <= MAX_BITRATE_KBPS)
    && Plainly(l.tip) && (l.tip.Some? ==> socket(l.tip.value).Some?)
    && TrackOk(l.track)
  }

  lemma CountReadsBack(n: int)
    requires UNKNOWN_COUNT <= n <= I64_MAX
    ensures ParseCount(CountText(n)) == Ok(n)
  {
    if n >= 0 { ParsePrinted(n); }
  }

  lemma PecaValueOf(l: ChannelListing, createdAt: nat, s: Sub, v: Option<string>)
    requires PecaValues(l, s) == Single(v)
    ensures PecaValue(ToTags(l, createdAt), SubText(s)) == v
  {
    ReadPeca(l, createdAt, s);
  }

  lemma PlainsReadBack(l: ChannelListing, createdAt: nat)
    ensures
      var tags := ToTags(l, createdAt);
      && TagValue(tags, "d") == Some(l.channelId) && TagValue(tags, "title") == Some(l.title)
      && TagValue(tags, "summary") == l.summary && TagValue(tags, "t") == l.genre
      && TagValue(tags, "status") == Some(StatusText(l.status)) && TagValue(tags, "starts") == Some(ToDecimal(l.starts))
      && TagValue(tags, "current_participants") == CountText(l.participants) && TagValue(tags, "streaming") == l.streaming
      && TagValue(tags, "expiration") == Some(ToDecimal(createdAt + EXPIRATION_OFFSET))
  {
    ReadPlain(l, createdAt, D);
    ReadPlain(l, createdAt, Title);
    ReadPlain(l, createdAt, Summary);
    ReadPlain(l, createdAt, T);
    ReadPlain(l, createdAt, StatusName);
    ReadPlain(l, createdAt, Starts);
    ReadPlain(l, createdAt, Participants);
    ReadPlain(l, createdAt, Streaming);
    ReadPlain(l, createdAt, ExpirationName);
  }

  lemma PecasReadBack(l: ChannelListing, createdAt: nat)
    ensures
      var tags := ToTags(l, createdAt);
      && PecaValue(tags, "bitrate") == NumberText(l.bitrateKbps) && PecaValue(tags, "type") == l.contentType
      && PecaValue(tags, "tip") == l.tip && PecaValue(tags, "contact") == l.contact
      && PecaValue(tags, "comment") == l.comment && PecaValue(tags, "relays") == CountText(l.relays)
  {
    PecaValueOf(l, createdAt, Bitrate, NumberText(l.bitrateKbps));
    PecaValueOf(l, createdAt, Type, l.contentType);
    PecaValueOf(l, createdAt, Tip, l.tip);
    PecaValueOf(l, createdAt, Contact, l.contact);
    PecaValueOf(l, createdAt, Comment, l.comment);
    PecaValueOf(l, createdAt, Relays, CountText(l.relays));
  }

  function Written(l: ChannelListing): LookedUp {
    var track := PecaValues(l, TrackSub);
    LookedUp(
      Some(l.channelId), Some(l.title), Some(StatusText(l.status)), Some(ToDecimal(l.starts)), l.summary, l.genre,
      l.streaming, CountText(l.participants), NumberText(l.bitrateKbps), l.contentType, l.contact, l.comment, l.tip,
      CountText(l.relays), if track.Some? then Some(["peca", "track"] + track.value) else None)
  }

  /** Every lookup finds what was written. */
  lemma WrittenIsFound(l: ChannelListing, createdAt: nat)
    ensures LookUp(ToTags(l, createdAt)) == Written(l)
  {
    PlainsReadBack(l, createdAt);
    PecasReadBack(l, createdAt);
    ReadPeca(l, createdAt, TrackSub);
  }

  lemma NumbersReadBack(l: ChannelListing, socket: SocketText)
    requires Publishable(l, socket)
    ensures ParseU64(ToDecimal(l.starts)) == Some(l.starts)
    ensures ParseCount(CountText(l.participants)) == Ok(l.participants) && ParseCount(CountText(l.relays)) == Ok(l.relays)
    ensures ParseBitrate(NumberText(l.bitrateKbps)) == Ok(l.bitrateKbps)
  {
    ParsePrinted(l.starts);
    CountReadsBack(l.participants);
    CountReadsBack(l.relays);
    if l.bitrateKbps.Some? { ParsePrinted(l.bitrateKbps.value); }
  }

  lemma WrittenIsAccepted(l: ChannelListing, socket: SocketText)
    requires Publishable(l, socket)
    ensures Assemble(Written(l), socket) == Ok(l)
  {
    NumbersReadBack(l, socket);
    StatusReadsBack(l.status);
    assert ParseTrack(Written(l).track) == Ok(l.track);
  }

  lemma ListingReadsBack(l: ChannelListing, createdAt: nat, socket: SocketText)
    requires Publishable(l, socket)
    ensures FromTags(ToTags(l, createdAt), socket) == Ok(l)
  {
    WrittenIsFound(l, createdAt);
    WrittenIsAccepted(l, socket);
  }

  // ---- The receiver's format check -----------------------------------------------------------

  ghost predicate Short(s: string) {
    Bytes(s) <= MAX_TAG_ELEMENT_BYTES
  }

  lemma PlainValueShort(l: ChannelListing, createdAt: nat, socket: SocketText, n: Name)
    requires Publishable(l, socket) && createdAt + EXPIRATION_OFFSET <= U64_MAX && PlainValue(l, createdAt, n).Some?
    ensures Short(PlainValue(l, createdAt, n).value)
  {
    PrintedIsPlain(l.starts);
    PrintedIsPlain(createdAt + EXPIRATION_OFFSET);
    if l.participants >= 0 { PrintedIsPlain(l.participants); }
    AsciiBytes(StatusText(l.status));
  }

  lemma PecaValuesShort(l: ChannelListing, socket: SocketText, s: Sub)
    requires Publishable(l, socket) && PecaValues(l, s).Some?
    ensures forall i :: 0 <= i < |PecaValues(l, s).value| ==> Short(PecaValues(l, s).value[i])
  {
    if l.relays >= 0 { PrintedIsPlain(l.relays); }
    if l.bitrateKbps.Some? { PrintedIsPlain(l.bitrateKbps.value); }
  }

  lemma AsciiIsShort(s: string)
    requires |s| <= 20 && forall i :: 0 <= i < |s| ==> s[i] as int < 0x80
    ensures Short(s)
  {
    AsciiBytes(s);
  }

  lemma NameIsShort(n: Name)
    ensures Short(NameText(n))
  {
    AsciiIsShort(NameText(n));
  }

  lemma SubIsShort(s: Sub)
    ensures Short(SubText(s)) && Short("peca")
  {
    AsciiIsShort(SubText(s));
    AsciiIsShort("peca");
  }

  lemma RenderedIsShort(f: Field)
    requires f.Plain? ==> Short(f.value)
    requires f.Peca? ==> forall i :: 0 <= i < |f.values| ==> Short(f.values[i])
    ensures ShortElements(Render(f))
  {
    if f.Plain? {
      NameIsShort(f.name);
    } else {
      SubIsShort(f.sub);
      forall j | 0 <= j < |Render(f)| ensures Short(Render(f)[j]) {
        assert j >= 2 ==> Render(f)[j] == f.values[j - 2];
      }
    }
  }

  lemma FieldIsShort(l: ChannelListing, createdAt: nat, socket: SocketText, f: Field)
    requires Publishable(l, socket) && createdAt + EXPIRATION_OFFSET <= U64_MAX && f in Fields(l, createdAt)
    ensures ShortElements(Render(f))
  {
    FieldsAre(l, createdAt, f);
    if f.Plain? {
      PlainValueShort(l, createdAt, socket, f.name);
    } else {
      PecaValuesShort(l, socket, f.sub);
    }
    RenderedIsShort(f);
  }

  lemma TagsAreShort(l: ChannelListing, createdAt: nat, socket: SocketText)
    requires Publishable(l, socket) && createdAt + EXPIRATION_OFFSET <= U64_MAX
    ensures
      var tags := ToTags(l, createdAt);
      |tags| <= 16 && forall i :: 0 <= i < |tags| ==> ShortElements(tags[i])
  {
    FieldsAre(l, createdAt, Plain(D, ""));
    var fields := Fields(l, createdAt);
    forall i | 0 <= i < |fields| ensures ShortElements(Render(fields[i])) {
      FieldIsShort(l, createdAt, socket, fields[i]);
    }
  }

  lemma StatusReadsBack(s: Status)
    ensures ParseStatus(StatusText(s)) == Some(s)
  {
  }

  lemma FormatAccepted(l: ChannelListing, createdAt: nat, socket: SocketText)
    requires Publishable(l, socket) && createdAt + EXPIRATION_OFFSET <= U64_MAX
    ensures FormatOk(CHANNEL_KIND, ToTags(l, createdAt))
  {
    TagsAreShort(l, createdAt, socket);
    ReadPlain(l, createdAt, D);
    ReadPlain(l, createdAt, StatusName);
    StatusReadsBack(l.status);
  }

  // ---- Sanitised channels are publishable ----------------------------------------------------

  lemma Sanitized(raw: string, max: nat)
    requires max <= MAX_TAG_ELEMENT_BYTES
    ensures Plainly(Some(SanitizeText(raw, max))) && Plainly(NonEmpty(SanitizeText(raw, max)))
  {
    TakenFits(StripControl(raw), max);
  }

  lemma LiteralIsPlain(s: string)
    requires |s| <= 6 && forall i :: 0 <= i < |s| ==> 0x20 <= s[i] as int < 0x7F
    ensures Clean(s) && Bytes(s) <= 6
  {
    AsciiBytes(s);
  }

  lemma JoinedIsPlain(scheme: string, tip: string, slash: string, id: string)
    requires Clean(scheme) && Clean(tip) && Clean(slash) && Clean(id)
    requires Bytes(scheme) <= 6 && Bytes(tip) <= 64 && Bytes(slash) <= 6 && Bytes(id) <= 32
    ensures Plainly(Some(scheme + tip + slash + id))
  {
    PlainConcat(scheme, tip);
    PlainConcat(scheme + tip, slash);
    PlainConcat(scheme + tip + slash, id);
  }

  lemma StreamingIsPlain(tip: string, id: string)
    requires Clean(tip) && Bytes(tip) <= 64 && IsLowerHex(id, 32)
    ensures Plainly(Some("pcp://" + tip + "/" + id))
  {
    LiteralIsPlain("pcp://");
    LiteralIsPlain("/");
    JoinedIsPlain("pcp://", tip, "/", id);
  }

  /** The 64-bit fields of the raw record. */
  ghost predicate RawOk(raw: RawChannelInfo) {
    IsCid(raw.channelId) && raw.listeners <= I64_MAX && raw.relays <= I64_MAX && raw.startedAt <= U64_MAX
  }

  lemma SanitizedTrack(raw: RawChannelInfo, state: ChannelState, socket: SocketText)
    requires IsCid(raw.channelId)
    ensures TrackOk(ToListing(FromRaw(raw, state, socket)).track)
  {
    Sanitized(raw.trackTitle, 256);
    Sanitized(raw.trackCreator, 256);
    Sanitized(raw.trackAlbum, 256);
  }

  lemma TrackerIsPlain(raw: RawChannelInfo, state: ChannelState, socket: SocketText)
    requires LibraryOk(socket) && IsCid(raw.channelId)
    ensures
      var l := ToListing(FromRaw(raw, state, socket));
      Plainly(l.streaming) && Plainly(l.tip) && (l.tip.Some? ==> socket(l.tip.value).Some?)
  {
    var c := FromRaw(raw, state, socket);
    HexIsLowerHex(raw.channelId);
    if c.tracker.Some? {
      assert socket(raw.tracker.value).Some?;
      StreamingIsPlain(c.tracker.value, ToHex(c.channelId));
    }
  }

  lemma SanitizedIsPublishable(raw: RawChannelInfo, state: ChannelState, socket: SocketText)
    requires LibraryOk(socket) && RawOk(raw)
    ensures Publishable(ToListing(FromRaw(raw, state, socket)), socket)
  {
    var c := FromRaw(raw, state, socket);
    HexIsLowerHex(raw.channelId);
    Sanitized(raw.name, 256);
    Sanitized(raw.genre, 256);
    Sanitized(raw.description, 1024);
    Sanitized(raw.comment, 1024);
    Sanitized(raw.contactUrl, 512);
    TakenFits(KeepAlphanumeric(raw.contentType), 32);
    SanitizedTrack(raw, state, socket);
    TrackerIsPlain(raw, state, socket);
  }

  /**
   Whatever a PCP client sends: sanitised, turned into a listing and written as tags, it passes the
   receivers' format check and is read back as exactly the same listing.
   */
  lemma ListingEndToEnd(raw: RawChannelInfo, state: ChannelState, createdAt: nat, socket: SocketText)
    requires LibraryOk(socket) && RawOk(raw) && createdAt + EXPIRATION_OFFSET <= U64_MAX
    ensures
      var l := ToListing(FromRaw(raw, state, socket));
      FormatOk(CHANNEL_KIND, ToTags(l, createdAt)) && FromTags(ToTags(l, createdAt), socket) == Ok(l)
  {
    var l := ToListing(FromRaw(raw, state, socket));
    SanitizedIsPublishable(raw, state, socket);
    FormatAccepted(l, createdAt, socket);
    ListingReadsBack(l, createdAt, socket);
  }

  // ---- The listing says what the channel said ------------------------------------------------

  /** A text without control characters is shown as far as whole characters of it fit. */
  ghost predicate Shows(raw: string, max: nat, shown: string) {
    Clean(raw) ==>
      shown <= raw && Bytes(shown) <= max && (shown == raw || Bytes(shown) + CharBytes(raw[|shown|]) > max)
  }

  /** Likewise, and an empty text is left out. */
  ghost predicate ShowsIfAny(raw: string, max: nat, shown: Option<string>) {
    Clean(raw) ==> if raw == "" then shown.None? else shown.Some? && Shows(raw, max, shown.value)
  }

  lemma SanitizedShows(raw: string, max: nat)
    requires max >= 4
    ensures Shows(raw, max, SanitizeText(raw, max)) && ShowsIfAny(raw, max, NonEmpty(SanitizeText(raw, max)))
  {
    if Clean(raw) {
      CleanStays(raw);
      TakenFits(raw, max);
    }
  }

  ghost predicate LowerCased(shown: string, raw: string) {
    |shown| == |raw| &&
    forall i :: 0 <= i < |raw| ==> shown[i] as int == raw[i] as int + if 'A' <= raw[i] <= 'Z' then 32 else 0
  }

  ghost predicate ShowsGenre(raw: string, shown: Option<string>) {
    Clean(raw) ==> if raw == "" then shown.None? else shown.Some? && exists g :: Shows(raw, 256, g) && LowerCased(shown.value, g)
  }

  ghost predicate LettersAndDigits(s: string) {
    forall i :: 0 <= i < |s| ==> '0' <= s[i] <= '9' || 'a' <= s[i] <= 'z' || 'A' <= s[i] <= 'Z'
  }

  /** A content type of letters and digits is shown up to 32 of them. */
  ghost predicate ShowsType(raw: string, shown: Option<string>) {
    LettersAndDigits(raw) ==>
      if raw == "" then shown.None? else shown == Some(if |raw| <= 32 then raw else raw[..32])
  }

  ghost predicate ShowsCount(raw: int, shown: int) {
    shown == if raw >= 0 then raw else -1
  }

  ghost predicate ShowsBitrate(raw: int, shown: Option<nat>) {
    shown == if raw <= 0 then None else if raw <= 100_000 then Some(raw) else Some(100_000)
  }

  ghost predicate ShowsTrack(raw: RawChannelInfo, shown: Option<Track>) {
    Clean(raw.trackTitle) && Clean(raw.trackCreator) && Clean(raw.trackAlbum) ==>
      if raw.trackTitle == "" && raw.trackCreator == "" && raw.trackAlbum == "" then shown.None?
      else
        && shown.Some? && Shows(raw.trackTitle, 256, shown.value.title) && Shows(raw.trackCreator, 256, shown.value.artist)
        && Shows(raw.trackAlbum, 256, shown.value.album) && shown.value.url == ""
  }

  ghost predicate ShowsTracker(raw: RawChannelInfo, socket: SocketText, l: ChannelListing) {
    && l.tip == (if raw.tracker.Some? then socket(raw.tracker.value) else None)
    && l.streaming == (if l.tip.Some? then Some("pcp://" + l.tip.value + "/" + l.channelId) else None)
  }

  /** The listing tells what the channel's record says, each part in its place. */
  ghost predicate Describes(raw: RawChannelInfo, state: ChannelState, socket: SocketText, l: ChannelListing)
    requires IsCid(raw.channelId)
  {
    && l.channelId == ToHex(raw.channelId) && (l.status == Ended <==> state.EndedState?) && l.starts == raw.startedAt
    && Shows(raw.name, 256, l.title) && ShowsGenre(raw.genre, l.genre) && ShowsIfAny(raw.description, 1024, l.summary)
    && ShowsIfAny(raw.comment, 1024, l.comment) && ShowsIfAny(raw.contactUrl, 512, l.contact)
    && ShowsType(raw.contentType, l.contentType) && ShowsBitrate(raw.bitrate, l.bitrateKbps)
    && ShowsCount(raw.listeners, l.participants) && ShowsCount(raw.relays, l.relays)
    && ShowsTracker(raw, socket, l) && ShowsTrack(raw, l.track)
  }

  lemma GenreShown(raw: string)
    ensures
      var g := SanitizeText(raw, 256);
      ShowsGenre(raw, if g == "" then None else Some(ToLower(g)))
  {
    var g := SanitizeText(raw, 256);
    SanitizedShows(raw, 256);
    LowerIsPointwise(g);
    assert LowerCased(ToLower(g), g);
  }

  lemma {:induction false} AlphanumericStays(s: string)
    requires LettersAndDigits(s)
    ensures KeepAlphanumeric(s) == s && Bytes(s) == |s|
    decreases |s|
  {
    if s != "" {
      AlphanumericStays(s[1..]);
      assert s == [s[0]] + s[1..];
    }
  }

  /** Of a content type, letters and digits stay in order and everything else goes. */
  lemma {:induction false} KeepsPiecewise(a: string, b: string)
    ensures KeepAlphanumeric(a + b) == KeepAlphanumeric(a) + KeepAlphanumeric(b)
    decreases |a|
  {
    if a == "" {
      assert a + b == b;
    } else {
      KeepsPiecewise(a[1..], b);
      assert (a + b)[1..] == a[1..] + b;
    }
  }

  lemma KeepsLettersAndDigitsOnly(c: char)
    ensures KeepAlphanumeric([c]) == if '0' <= c <= '9' || 'a' <= c <= 'z' || 'A' <= c <= 'Z' then [c] else ""
  {
    assert [c][1..] == "";
  }

  lemma TypeShown(raw: string)
    ensures ShowsType(raw, NonEmpty(TakeBytes(KeepAlphanumeric(raw), 32)))
  {
    if LettersAndDigits(raw) {
      AlphanumericStays(raw);
      TakesLetters(raw, 32);
    }
  }

  lemma {:induction false} TakesLetters(s: string, max: nat)
    requires LettersAndDigits(s)
    ensures TakeBytes(s, max) == if |s| <= max then s else s[..max]
    decreases |s|
  {
    if s != "" && max > 0 {
      TakesLetters(s[1..], max - 1);
      assert s == [s[0]] + s[1..];
    }
  }

  lemma TrackShown(raw: RawChannelInfo, state: ChannelState, socket: SocketText)
    requires IsCid(raw.channelId)
    ensures ShowsTrack(raw, ToListing(FromRaw(raw, state, socket)).track)
  {
    SanitizedShows(raw.trackTitle, 256);
    SanitizedShows(raw.trackCreator, 256);
    SanitizedShows(raw.trackAlbum, 256);
  }

  lemma ListingDescribes(raw: RawChannelInfo, state: ChannelState, socket: SocketText)
    requires IsCid(raw.channelId)
    ensures Describes(raw, state, socket, ToListing(FromRaw(raw, state, socket)))
  {
    SanitizedShows(raw.name, 256);
    GenreShown(raw.genre);
    SanitizedShows(raw.description, 1024);
    SanitizedShows(raw.comment, 1024);
    SanitizedShows(raw.contactUrl, 512);
    TypeShown(raw.contentType);
    TrackShown(raw, state, socket);
  }

  /** What receivers read of a published channel is what its record says, and no other channel has its `d`. */
  lemma ReceiversSeeTheChannel(raw: RawChannelInfo, state: ChannelState, createdAt: nat, socket: SocketText, id: nat, pubkey: nat)
    requires LibraryOk(socket) && RawOk(raw) && createdAt + EXPIRATION_OFFSET <= U64_MAX
    ensures
      var tags := ToTags(ToListing(FromRaw(raw, state, socket)), createdAt);
      var e := StoreView(id, pubkey, createdAt, tags);
      && FromTags(tags, socket).Ok? && Describes(raw, state, socket, FromTags(tags, socket).value)
      && e.d == Some(ToHex(raw.channelId)) && (e.ended <==> state.EndedState?)
    ensures forall other :: IsCid(other) && ToHex(other) == ToHex(raw.channelId) ==> other == raw.channelId
  {
    var l := ToListing(FromRaw(raw, state, socket));
    ListingEndToEnd(raw, state, createdAt, socket);
    ListingDescribes(raw, state, socket);
    SeenByStore(l, id, pubkey, createdAt, createdAt);
    forall other | IsCid(other) && ToHex(other) == ToHex(raw.channelId) ensures other == raw.channelId {
      HexIsInjective(other, raw.channelId);
    }
  }

  // ---- What receivers refuse -----------------------------------------------------------------

  /** The first tag of this name that has a value. */
  ghost predicate FirstTag(tags: seq<Tag>, name: string, value: string) {
    exists i :: 0 <= i < |tags| && |tags[i]| >= 2 && tags[i][0] == name && tags[i][1] == value && NoTag(tags[..i], name)
  }

  ghost predicate NoTag(tags: seq<Tag>, name: string) {
    forall i :: 0 <= i < |tags| && |tags[i]| >= 2 ==> tags[i][0] != name
  }

  lemma {:induction false} TagValueIsFirst(tags: seq<Tag>, name: string)
    ensures match TagValue(tags, name) case None => NoTag(tags, name) case Some(v) => FirstTag(tags, name, v)
    decreases |tags|
  {
    if tags != [] {
      if |tags[0]| >= 2 && tags[0][0] == name {
        assert NoTag(tags[..0], name);
      } else {
        TagValueIsFirst(tags[1..], name);
        if TagValue(tags[1..], name).Some? {
          LaterTag(tags, name, TagValue(tags[1..], name).value);
        }
      }
    }
  }

  lemma LaterTag(tags: seq<Tag>, name: string, v: string)
    requires tags != [] && !(|tags[0]| >= 2 && tags[0][0] == name) && FirstTag(tags[1..], name, v)
    ensures FirstTag(tags, name, v)
  {
    var rest := tags[1..];
    var i :| 0 <= i < |rest| && |rest[i]| >= 2 && rest[i][0] == name && rest[i][1] == v && NoTag(rest[..i], name);
    var front, later := tags[..i + 1], rest[..i];
    forall j | 0 <= j < |front| && |front[j]| >= 2 ensures front[j][0] != name {
      assert j > 0 ==> front[j] == later[j - 1];
    }
    assert tags[i + 1] == rest[i] && NoTag(front, name);
  }

  /** `tag` is the first extension tag of this kind. */
  ghost predicate FirstPeca(tags: seq<Tag>, sub: string, tag: Tag) {
    exists i :: 0 <= i < |tags| && tags[i] == tag && IsPeca(tag, sub) && NoPeca(tags[..i], sub)
  }

  ghost predicate IsPeca(tag: Tag, sub: string) {
    |tag| >= 2 && tag[0] == "peca" && tag[1] == sub
  }

  ghost predicate NoPeca(tags: seq<Tag>, sub: string) {
    forall i :: 0 <= i < |tags| ==> !IsPeca(tags[i], sub)
  }

  lemma {:induction false} PecaSliceIsFirst(tags: seq<Tag>, sub: string)
    ensures match PecaSlice(tags, sub) case None => NoPeca(tags, sub) case Some(tag) => FirstPeca(tags, sub, tag)
    decreases |tags|
  {
    if tags != [] {
      if IsPeca(tags[0], sub) {
        assert NoPeca(tags[..0], sub);
      } else {
        PecaSliceIsFirst(tags[1..], sub);
        if PecaSlice(tags[1..], sub).Some? {
          LaterPeca(tags, sub, PecaSlice(tags[1..], sub).value);
        }
      }
    }
  }

  lemma LaterPeca(tags: seq<Tag>, sub: string, tag: Tag)
    requires tags != [] && !IsPeca(tags[0], sub) && FirstPeca(tags[1..], sub, tag)
    ensures FirstPeca(tags, sub, tag)
  {
    var rest := tags[1..];
    var i :| 0 <= i < |rest| && rest[i] == tag && IsPeca(tag, sub) && NoPeca(rest[..i], sub);
    var front, later := tags[..i + 1], rest[..i];
    forall j | 0 <= j < |front| ensures !IsPeca(front[j], sub) {
      assert j > 0 ==> front[j] == later[j - 1];
    }
    assert tags[i + 1] == tag && NoPeca(front, sub);
  }

  /** Elements missing at the end of a track tag are read as empty. */
  lemma ShortTrack(title: string)
    requires Clean(title)
    ensures ParseTrack(Some(["peca", "track"])) == Ok(Some(Track("", "", "", "")))
    ensures ParseTrack(Some(["peca", "track", title])) == Ok(Some(Track(title, "", "", "")))
  {
  }

  /** A count above the signed range is read as the negative number with the same 64 bits. */
  lemma CountCast(n: nat)
    requires n <= U64_MAX
    ensures ParseCount(Some(ToDecimal(n))) == Ok(if n < 0x8000_0000_0000_0000 then n else n - 0x1_0000_0000_0000_0000)
  {
    ParsePrinted(n);
  }

  /** The format check lets nothing else through. */
  lemma FormatRefusesOthers(kind: nat, tags: seq<Tag>)
    requires FormatOk(kind, tags)
    ensures kind == 30311 && |tags| <= 64
    ensures forall i, j :: 0 <= i < |tags| && 0 <= j < |tags[i]| ==> Bytes(tags[i][j]) <= 1024
    ensures exists d :: FirstTag(tags, "d", d) && |d| == 32 && forall i :: 0 <= i < 32 ==> '0' <= d[i] <= '9' || 'a' <= d[i] <= 'f'
    ensures FirstTag(tags, "status", "live") || FirstTag(tags, "status", "ended")
  {
    TagValueIsFirst(tags, "d");
    TagValueIsFirst(tags, "status");
    var d := TagValue(tags, "d").value;
    AsciiBytes(d);
    assert FirstTag(tags, "d", d);
    forall i, j | 0 <= i < |tags| && 0 <= j < |tags[i]| ensures Bytes(tags[i][j]) <= 1024 { assert ShortElements(tags[i]); }
  }

  ghost predicate CleanIfAny(v: Option<string>) {
    v.Some? ==> Clean(v.value)
  }

  /** What passes the content check has no control characters, a tracker that parses and numbers in range. */
  lemma ContentRefusesOthers(tags: seq<Tag>, socket: SocketText)
    requires FromTags(tags, socket).Ok?
    ensures
      var l := FromTags(tags, socket).value;
      && Clean(l.title) && CleanIfAny(l.summary) && CleanIfAny(l.genre) && CleanIfAny(l.streaming) && CleanIfAny(l.contentType)
      && CleanIfAny(l.contact) && CleanIfAny(l.comment) && CleanIfAny(l.tip) && (l.tip.Some? ==> socket(l.tip.value).Some?)
      && (l.bitrateKbps.Some? ==> l.bitrateKbps.value <= 100_000) && l.starts <= U64_MAX
      && (l.track.Some? ==> Clean(l.track.value.title) && Clean(l.track.value.artist) && Clean(l.track.value.album) && Clean(l.track.value.url))
  {
  }

  // ---- The event the store sees --------------------------------------------------------------

  /** The store's view of an event with these tags. */
  function StoreView(id: nat, pubkey: nat, createdAt: nat, tags: seq<Tag>): Event {
    var expiration := TagValue(tags, "expiration");
    Event(id, CHANNEL_KIND, pubkey, createdAt, TagValue(tags, "d"),
          if expiration.Some? then ParseU64(expiration.value) else None,
          TagValue(tags, "status") == Some("ended"))
  }

  /** What the store sees of a listing's tags, whenever they were written and whatever the event's date. */
  lemma SeenByStore(l: ChannelListing, id: nat, pubkey: nat, createdAt: nat, written: nat)
    requires written + EXPIRATION_OFFSET <= U64_MAX
    ensures StoreView(id, pubkey, createdAt, ToTags(l, written))
         == Event(id, CHANNEL_KIND, pubkey, createdAt, Some(l.channelId), Some(written + EXPIRATION_OFFSET), l.status == Ended)
  {
    ReadPlain(l, written, D);
    ReadPlain(l, written, StatusName);
    ReadPlain(l, written, ExpirationName);
    ParsePrinted(written + EXPIRATION_OFFSET);
    assert StatusText(l.status) == "ended" <==> l.status == Ended;
  }

  /** A published listing is filed under its channel, expires 600 seconds on, and ends iff it says so. */
  lemma PublishedEvent(l: ChannelListing, id: nat, pubkey: nat, createdAt: nat)
    requires createdAt + EXPIRATION_OFFSET <= U64_MAX
    ensures
      var e := StoreView(id, pubkey, createdAt, ToTags(l, createdAt));
      && e.d == Some(l.channelId) && (e.ended <==> l.status == Ended)
      && Expiration(e) == createdAt + EXPIRATION_OFFSET
  {
    SeenByStore(l, id, pubkey, createdAt, createdAt);
  }
}
