/** The security log: repeated events are counted instead of written, and files rotate by size. */
module SecurityLog {
  import opened Events

  const AGGREGATION_WINDOW: nat := 10

  datatype LogKey = LogKey(category: string, source: string)
  datatype Line = Detail(ts: nat, key: LogKey, text: string) | Aggregated(ts: nat, key: LogKey, count: nat)

  // ---- Rotation ------------------------------------------------------------------------------

  /** Generation 0 is the current file; `None` is a file that does not exist. */
  type Files = seq<Option<seq<Line>>>

  function Content(f: Option<seq<Line>>): seq<Line> {
    if f.Some? then f.value else []
  }

  /** All lines, oldest generation first. */
  function ReadBack(files: Files): seq<Line> {
    if files == [] then [] else ReadBack(files[1..]) + Content(files[0])
  }

  /** No gap between the older generations. */
  ghost predicate Contiguous(files: Files) {
    forall i, j :: 1 <= i < j < |files| && files[i].None? ==> files[j].None?
  }

  ghost predicate IsSuffix(s: seq<Line>, all: seq<Line>) {
    |s| <= |all| && forall i :: 0 <= i < |s| ==> s[i] == all[|all| - |s| + i]
  }

  lemma SuffixOfTail(a: seq<Line>, b: seq<Line>, all: seq<Line>)
    requires IsSuffix(a + b, all)
    ensures IsSuffix(b, all)
  {
    forall i | 0 <= i < |b| ensures b[i] == all[|all| - |b| + i] {
      assert (a + b)[|a| + i] == b[i];
    }
  }

  lemma SuffixGrows(s: seq<Line>, all: seq<Line>, line: Line)
    requires IsSuffix(s, all)
    ensures IsSuffix(s + [line], all + [line])
  {
  }

  lemma {:induction false} ReadBackLast(files: Files)
    requires files != []
    ensures ReadBack(files) == Content(files[|files| - 1]) + ReadBack(files[..|files| - 1])
    decreases |files|
  {
    if |files| == 1 {
      assert files[1..] == [] && files[..0] == [];
    } else {
      ReadBackLast(files[1..]);
      assert files[1..][..|files| - 2] == files[..|files| - 1][1..];
      assert Content(files[|files| - 1]) + ReadBack(files[..|files| - 1][1..]) + Content(files[0])
          == Content(files[|files| - 1]) + (ReadBack(files[..|files| - 1][1..]) + Content(files[0]));
    }
  }

  function Rotated(files: Files): Files
    requires files != []
  {
    [None] + files[..|files| - 1]
  }

  function Appended(files: Files, line: Line): Files
    requires files != []
  {
    files[0 := Some(Content(files[0]) + [line])]
  }

  lemma ReadBackRotated(files: Files)
    requires files != []
    ensures ReadBack(Rotated(files)) == ReadBack(files[..|files| - 1])
  {
    assert Rotated(files)[1..] == files[..|files| - 1];
  }

  /** Dropping the oldest generation and opening an empty current one leaves a suffix. */
  lemma RotationDropsOldest(files: Files, all: seq<Line>)
    requires files != [] && IsSuffix(ReadBack(files), all)
    ensures IsSuffix(ReadBack(Rotated(files)), all)
  {
    ReadBackLast(files);
    ReadBackRotated(files);
    SuffixOfTail(Content(files[|files| - 1]), ReadBack(files[..|files| - 1]), all);
  }

  lemma ReadBackAppended(files: Files, line: Line)
    requires files != []
    ensures ReadBack(Appended(files, line)) == ReadBack(files) + [line]
  {
    var files' := Appended(files, line);
    assert files'[1..] == files[1..];
    assert ReadBack(files[1..]) + (Content(files[0]) + [line]) == ReadBack(files[1..]) + Content(files[0]) + [line];
  }

  lemma AppendReadsBack(files: Files, all: seq<Line>, line: Line)
    requires files != [] && IsSuffix(ReadBack(files), all)
    ensures IsSuffix(ReadBack(Appended(files, line)), all + [line])
  {
    ReadBackAppended(files, line);
    SuffixGrows(ReadBack(files), all, line);
  }

  function Bytes(lines: seq<Line>, size: Line -> nat): nat {
    if lines == [] then 0 else Bytes(lines[..|lines| - 1], size) + size(lines[|lines| - 1]) + 1
  }

  /** A file is within the limit unless a single line is not. */
  ghost predicate FileOk(f: Option<seq<Line>>, maxBytes: nat, size: Line -> nat) {
    f.Some? ==> Bytes(f.value, size) <= maxBytes || |f.value| == 1
  }

  /** The current length is known, every file is within its limit, and what is left is the latest. */
  ghost predicate FilesOk(files: Files, currentLen: nat, maxBytes: nat, size: Line -> nat, written: seq<Line>) {
    && files != [] && Contiguous(files)
    && currentLen == Bytes(Content(files[0]), size)
    && (forall i :: 0 <= i < |files| ==> FileOk(files[i], maxBytes, size))
    && IsSuffix(ReadBack(files), written)
  }

  lemma RotationKeepsOk(files: Files, currentLen: nat, maxBytes: nat, size: Line -> nat, written: seq<Line>)
    requires FilesOk(files, currentLen, maxBytes, size, written) && files[0].Some?
    ensures FilesOk(Rotated(files), 0, maxBytes, size, written)
  {
    RotationDropsOldest(files, written);
  }

  lemma AppendKeepsOk(files: Files, currentLen: nat, maxBytes: nat, size: Line -> nat, written: seq<Line>, line: Line)
    requires FilesOk(files, currentLen, maxBytes, size, written)
    requires currentLen == 0 || currentLen + size(line) + 1 <= maxBytes
    ensures
      var files' := Appended(files, line);
      FilesOk(files', currentLen + size(line) + 1, maxBytes, size, written + [line])
  {
    AppendReadsBack(files, written, line);
    var lines := Content(files[0]) + [line];
    assert lines[..|lines| - 1] == Content(files[0]);
  }

  lemma CurrentExists(files: Files, currentLen: nat, maxBytes: nat, size: Line -> nat, written: seq<Line>)
    requires FilesOk(files, currentLen, maxBytes, size, written) && currentLen > 0
    ensures files[0].Some?
  {
  }

  /** The files after a line: rotated first if it would make a current file that has lines too long. */
  function WithLine(files: Files, currentLen: nat, maxBytes: nat, bytes: nat, line: Line): Files
    requires files != []
  {
    Appended(if currentLen > 0 && currentLen + bytes > maxBytes then Rotated(files) else files, line)
  }

  /** Only a line that does not fit costs anything, and then it is the oldest file. */
  lemma WithLineKeepsTheRest(files: Files, currentLen: nat, maxBytes: nat, bytes: nat, line: Line)
    requires files != []
    ensures
      var dropped := if currentLen == 0 || currentLen + bytes <= maxBytes then 0 else |Content(files[|files| - 1])|;
      && dropped <= |ReadBack(files)|
      && ReadBack(WithLine(files, currentLen, maxBytes, bytes, line)) == ReadBack(files)[dropped..] + [line]
  {
    ReadBackAppended(files, line);
    ReadBackAppended(Rotated(files), line);
    ReadBackLast(files);
    ReadBackRotated(files);
  }

  class RotatingFile {
    const maxBytes: nat
    const generations: nat
    const size: Line -> nat
    var files: Files
    var currentLen: nat
    /** Every line ever written. */
    ghost var written: seq<Line>

    ghost predicate Valid()
      reads this
    {
      |files| == generations && FilesOk(files, currentLen, maxBytes, size, written)
    }

    constructor (maxBytes: nat, generations: nat, size: Line -> nat)
      ensures Valid() && written == [] && ReadBack(files) == []
      ensures this.maxBytes == maxBytes && this.size == size
      ensures this.generations == if generations == 0 then 1 else generations
    {
      this.maxBytes := maxBytes;
      this.generations := if generations == 0 then 1 else generations;
      this.size := size;
      currentLen := 0;
      written := [];
      new;
      files := seq(this.generations, _ => None);
      EmptyReadsEmpty(files);
    }

    /** Every generation moves up by one and the oldest is deleted. */
    method Rotate()
      requires Valid() && files[0].Some?
      modifies this
      ensures Valid() && files == Rotated(old(files))
      ensures written == old(written) && currentLen == 0
    {
      ghost var before := files;
      files := files[generations - 1 := None];
      var i := generations - 1;
      while i >= 1
        invariant 0 <= i <= generations - 1 && |files| == generations && written == old(written)
        invariant forall j :: 0 <= j < i ==> files[j] == before[j]
        invariant files[i].None?
        invariant forall j :: i < j < generations ==> files[j] == before[j - 1]
      {
        if files[i - 1].Some? {
          files := files[i := files[i - 1]][i - 1 := None];
        }
        i := i - 1;
      }
      currentLen := 0;
      assert files == [None] + before[..generations - 1];
      RotationKeepsOk(before, old(currentLen), maxBytes, size, written);
    }

    method WriteLine(line: Line)
      requires Valid()
      modifies this
      ensures Valid() && written == old(written) + [line]
      ensures files == WithLine(old(files), old(currentLen), maxBytes, size(line) + 1, line)
    {
      var bytes := size(line) + 1;
      if currentLen > 0 && currentLen + bytes > maxBytes {
        CurrentExists(files, currentLen, maxBytes, size, written);
        Rotate();
      }
      AppendKeepsOk(files, currentLen, maxBytes, size, written, line);
      files := Appended(files, line);
      currentLen := currentLen + bytes;
      written := written + [line];
    }
  }

  lemma EmptyReadsEmpty(files: Files)
    requires forall i :: 0 <= i < |files| ==> files[i].None?
    ensures ReadBack(files) == []
  {
  }

  // ---- Aggregation ---------------------------------------------------------------------------

  datatype Window = Window(startedAt: nat, suppressed: nat)
  type Windows = map<LogKey, Window>

  /** Events counted but not yet written. */
  ghost function Pending(w: Windows): nat {
    if w == map[] then 0
    else
      var k :| k in w;
      w[k].suppressed + Pending(w - {k})
  }

  /** Events the lines account for: one per detail line, the stated count per aggregate line. */
  function Accounted(lines: seq<Line>): nat {
    if lines == [] then 0
    else
      var last := lines[|lines| - 1];
      Accounted(lines[..|lines| - 1]) + if last.Detail? then 1 else last.count
  }

  lemma {:induction false} PendingWithout(w: Windows, k: LogKey)
    requires k in w
    ensures Pending(w) == w[k].suppressed + Pending(w - {k})
    decreases |w|
  {
    var j :| j in w && Pending(w) == w[j].suppressed + Pending(w - {j});
    if j != k {
      assert w.Keys == (w - {j}).Keys + {j};
      PendingWithout(w - {j}, k);
      assert w.Keys == (w - {k}).Keys + {k};
      PendingWithout(w - {k}, j);
      assert w - {j} - {k} == w - {k} - {j};
    }
  }

  lemma PendingWith(w: Windows, k: LogKey, x: Window)
    ensures Pending(w[k := x]) == x.suppressed + Pending(w - {k})
  {
    PendingWithout(w[k := x], k);
    assert w[k := x] - {k} == w - {k};
  }

  lemma CountOne(w: Windows, k: LogKey)
    requires k in w
    ensures Pending(w[k := w[k].(suppressed := w[k].suppressed + 1)]) == Pending(w) + 1
  {
    PendingWithout(w, k);
    PendingWith(w, k, w[k].(suppressed := w[k].suppressed + 1));
  }

  lemma OpenWindow(w: Windows, k: LogKey, now: nat)
    requires k !in w
    ensures Pending(w[k := Window(now, 0)]) == Pending(w)
  {
    PendingWith(w, k, Window(now, 0));
    assert w - {k} == w;
  }

  lemma AccountedAppend(lines: seq<Line>, line: Line)
    ensures Accounted(lines + [line]) == Accounted(lines) + if line.Detail? then 1 else line.count
  {
    assert (lines + [line])[..|lines|] == lines;
  }

  predicate Expired(x: Window, now: nat) {
    SatSub(now, x.startedAt) >= AGGREGATION_WINDOW
  }

  function StillOpen(w: Windows, now: nat): Windows {
    map k | k in w && !Expired(w[k], now) :: w[k]
  }

  /** The aggregate lines for the given windows: the count of each that counted anything. */
  function AggregateLines(order: seq<LogKey>, w: Windows, now: nat): seq<Line> {
    if order == [] then []
    else
      var k := order[|order| - 1];
      AggregateLines(order[..|order| - 1], w, now) + if k in w && w[k].suppressed > 0 then [Aggregated(now, k, w[k].suppressed)] else []
  }

  /** `order` lists each of the windows that are over once. */
  ghost predicate ListsExpired(order: seq<LogKey>, w: Windows, now: nat) {
    multiset(order) == multiset(ExpiredKeys(w, now))
  }

  lemma NextAggregate(order: seq<LogKey>, k: LogKey, w: Windows, now: nat)
    requires k in w
    ensures AggregateLines(order + [k], w, now)
         == AggregateLines(order, w, now) + if w[k].suppressed > 0 then [Aggregated(now, k, w[k].suppressed)] else []
    ensures multiset(order + [k]) == multiset(order) + multiset{k}
  {
    assert (order + [k])[..|order|] == order;
  }

  ghost predicate FlushSoFar(
    order: seq<LogKey>, w: Windows, left: Windows, now: nat, before: seq<Line>, after: seq<Line>)
  {
    && multiset(order) + multiset(ExpiredKeys(left, now)) == multiset(ExpiredKeys(w, now))
    && (forall k :: k in left ==> k in w && left[k] == w[k]) && StillOpen(left, now) == StillOpen(w, now)
    && after == before + AggregateLines(order, w, now)
  }

  function LineFor(w: Windows, k: LogKey, now: nat): seq<Line>
    requires k in w
  {
    if w[k].suppressed > 0 then [Aggregated(now, k, w[k].suppressed)] else []
  }

  lemma FlushStep(
    order: seq<LogKey>, w: Windows, left: Windows, k: LogKey, now: nat, before: seq<Line>, after: seq<Line>)
    requires FlushSoFar(order, w, left, now, before, after) && k in ExpiredKeys(left, now)
    ensures FlushSoFar(order + [k], w, left - {k}, now, before, after + LineFor(left, k, now))
  {
    NextAggregate(order, k, w, now);
    ExpireOne(left, k, now);
    var expired := ExpiredKeys(left, now);
    assert multiset(expired) == multiset(expired - {k}) + multiset{k};
  }

  /** Windows are open for ten seconds, and for longer when the clock went back. */
  lemma OpenForTenSeconds(w: Windows, now: nat, k: LogKey)
    ensures k in StillOpen(w, now) <==> k in w && now < w[k].startedAt + 10
    ensures k in StillOpen(w, now) ==> StillOpen(w, now)[k] == w[k]
  {
  }

  class Log {
    const file: RotatingFile
    var windows: Windows
    /** How many events were reported. */
    ghost var calls: nat

    /** Nothing is lost: every reported event is in a line or in a pending count. */
    ghost predicate Valid()
      reads this, file
    {
      file.Valid() && calls == Accounted(file.written) + Pending(windows)
    }

    constructor (maxBytes: nat, generations: nat, size: Line -> nat)
      ensures Valid() && calls == 0 && windows == map[] && fresh(file) && file.written == []
    {
      file := new RotatingFile(maxBytes, generations, size);
      windows := map[];
      calls := 0;
    }

    /** Writes the counts of the windows that are over, in any order, and forgets these windows. */
    method FlushExpired(now: nat) returns (ghost order: seq<LogKey>)
      requires Valid()
      modifies this, file
      ensures Valid() && calls == old(calls)
      ensures windows == StillOpen(old(windows), now) && ListsExpired(order, old(windows), now)
      ensures file.written == old(file.written) + AggregateLines(order, old(windows), now)
    {
      order := [];
      var expired := ExpiredKeys(windows, now);
      while expired != {}
        invariant Valid() && calls == old(calls)
        invariant expired == ExpiredKeys(windows, now)
        invariant FlushSoFar(order, old(windows), windows, now, old(file.written), file.written)
        decreases expired
      {
        var k :| k in expired;
        expired := expired - {k};
        FlushStep(order, old(windows), windows, k, now, old(file.written), file.written);
        ExpireOne(windows, k, now);
        FlushWindow(k, now);
        order := order + [k];
      }
      NothingExpired(windows, now);
    }

    method FlushWindow(k: LogKey, now: nat)
      requires Valid() && k in windows
      modifies this, file
      ensures Valid() && calls == old(calls) && windows == old(windows) - {k}
      ensures file.written == old(file.written) + LineFor(old(windows), k, now)
    {
      var count := windows[k].suppressed;
      PendingWithout(windows, k);
      windows := windows - {k};
      if count > 0 {
        AccountedAppend(file.written, Aggregated(now, k, count));
        file.WriteLine(Aggregated(now, k, count));
      }
    }

    /** The first event of a window is written, the others of the next ten seconds are counted. */
    method Report(key: LogKey, text: string, now: nat) returns (ghost order: seq<LogKey>)
      requires Valid()
      modifies this, file
      ensures Valid() && calls == old(calls) + 1 && ListsExpired(order, old(windows), now)
      ensures
        var open, before := StillOpen(old(windows), now), old(file.written) + AggregateLines(order, old(windows), now);
        if key in open then
          windows == open[key := open[key].(suppressed := open[key].suppressed + 1)] && file.written == before
        else
          windows == open[key := Window(now, 0)] && file.written == before + [Detail(now, key, text)]
    {
      order := FlushExpired(now);
      if key in windows {
        var x := windows[key];
        CountOne(windows, key);
        windows := windows[key := x.(suppressed := x.suppressed + 1)];
      } else {
        AccountedAppend(file.written, Detail(now, key, text));
        file.WriteLine(Detail(now, key, text));
        OpenWindow(windows, key, now);
        windows := windows[key := Window(now, 0)];
      }
      calls := calls + 1;
    }

    method Flush(now: nat) returns (ghost order: seq<LogKey>)
      requires Valid()
      modifies this, file
      ensures Valid() && calls == old(calls) && windows == StillOpen(old(windows), now)
      ensures ListsExpired(order, old(windows), now)
      ensures file.written == old(file.written) + AggregateLines(order, old(windows), now)
    {
      order := FlushExpired(now);
    }
  }

  datatype LogOp = ReportOp(key: LogKey, text: string, at: nat) | FlushOp(at: nat)

  function Reports(ops: seq<LogOp>): nat {
    if ops == [] then 0 else Reports(ops[..|ops| - 1]) + if ops[|ops| - 1].ReportOp? then 1 else 0
  }

  /**
   Any sequence of reports and flushes with any clock on a new log: the events reported are those in
   the lines written and those still counted, and the files read back the latest lines.
   */
  method Replay(ops: seq<LogOp>, maxBytes: nat, generations: nat, size: Line -> nat) returns (log: Log)
    ensures Reports(ops) == Accounted(log.file.written) + Pending(log.windows)
    ensures IsSuffix(ReadBack(log.file.files), log.file.written)
  {
    log := new Log(maxBytes, generations, size);
    for i := 0 to |ops|
      invariant fresh(log) && fresh(log.file) && log.Valid() && log.calls == Reports(ops[..i])
    {
      assert ops[..i + 1][..i] == ops[..i];
      match ops[i]
      case ReportOp(key, text, at) => ghost var _ := log.Report(key, text, at);
      case FlushOp(at) => ghost var _ := log.Flush(at);
    }
    assert ops[..|ops|] == ops;
  }

  function ExpiredKeys(w: Windows, now: nat): set<LogKey> {
    set k | k in w && Expired(w[k], now)
  }

  lemma ExpireOne(w: Windows, k: LogKey, now: nat)
    requires k in ExpiredKeys(w, now)
    ensures ExpiredKeys(w - {k}, now) == ExpiredKeys(w, now) - {k}
    ensures StillOpen(w - {k}, now) == StillOpen(w, now)
  {
  }

  lemma NothingExpired(w: Windows, now: nat)
    requires ExpiredKeys(w, now) == {}
    ensures StillOpen(w, now) == w
  {
    forall k | k in w ensures !Expired(w[k], now) {
      assert k !in ExpiredKeys(w, now);
    }
  }

  /** Once every window is over and flushed, the lines account for every reported event. */
  lemma AllWritten(w: Windows, now: nat)
    requires forall k :: k in w ==> Expired(w[k], now)
    ensures Pending(StillOpen(w, now)) == 0
  {
    assert StillOpen(w, now) == map[];
  }
}
