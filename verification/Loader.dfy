/** Loading ND-JSON lines into batches: the loading loop of New and the APM event collector. */
module Loader {
  import opened Basics
  import opened Events

  const META_HEADER: Line := "{\"metadata\":"
  const RUM_META_HEADER: Line := "{\"m\":"

  predicate IsMeta(line: Line) {
    META_HEADER <= line
  }

  predicate IsRum(line: Line) {
    RUM_META_HEADER <= line
  }

  // ---------------------------------------------------------------- the collector

  function FirstParse(parses: seq<Option<int>>): int {
    if parses == [] then ZERO_TIME
    else if parses[0].Some? then parses[0].value
    else FirstParse(parses[1..])
  }

  /** The time of an event: microseconds since the epoch, or the first format that parses. */
  function TimeOf(f: TimestampField): int {
    match f
    case Number(us) => if us >= 0 then us * 1000 else ZERO_TIME
    case Text(parses) => FirstParse(parses)
    case _ => ZERO_TIME
  }

  /** `t` is the time of an event with this timestamp field. */
  ghost predicate IsTimeOf(f: TimestampField, t: int) {
    match f
    case Number(us) => t == if us >= 0 then 1000 * us else ZERO_TIME
    case Text(parses) =>
      || (exists i :: 0 <= i < |parses| && parses[i] == Some(t) && forall j :: 0 <= j < i ==> parses[j].None?)
      || (t == ZERO_TIME && forall j :: 0 <= j < |parses| ==> parses[j].None?)
    case _ => t == ZERO_TIME
  }

  lemma {:induction false} FirstParseIsTime(parses: seq<Option<int>>)
    ensures IsTimeOf(Text(parses), FirstParse(parses))
  {
    if parses != [] && parses[0].None? {
      FirstParseIsTime(parses[1..]);
      var t := FirstParse(parses);
      assert forall j :: 0 < j < |parses| ==> parses[j] == parses[1..][j - 1];
      if i :| 0 <= i < |parses[1..]| && parses[1..][i] == Some(t)
              && forall j :: 0 <= j < i ==> parses[1..][j].None? {
        assert parses[i + 1] == Some(t);
      }
    }
  }

  /** Whole microseconds since the epoch, or the first format that parses; otherwise no time. */
  lemma TimeOfField(f: TimestampField, t: int)
    ensures TimeOf(f) == t <==> IsTimeOf(f, t)
  {
    if f.Text? { FirstParseIsTime(f.parses); }
  }

  function EventOf(parser: Parser, line: Line): Event {
    Event(line, parser(line).objectType, TimeOf(parser(line).timestamp))
  }

  /** time.Unix. */
  function Unix(sec: int, nsec: int): int {
    sec * 1000000000 + nsec
  }

  /** Splitting microseconds into seconds and nanoseconds loses nothing. */
  method Process(parser: Parser, line: Line) returns (e: Event)
    ensures e == EventOf(parser, line)
    ensures e.payload == line && e.objectType == parser(line).objectType
    ensures IsTimeOf(parser(line).timestamp, e.timestamp)
  {
    TimeOfField(parser(line).timestamp, TimeOf(parser(line).timestamp));
    var parsed := parser(line);
    var time := ZERO_TIME;
    match parsed.timestamp {
      case Number(us) =>
        if us >= 0 {
          var s := us / 1000000;
          var ns := (us - s * 1000000) * 1000;
          time := Unix(s, ns);
        }
      case Text(parses) =>
        for i := 0 to |parses|
          invariant time == ZERO_TIME
          invariant FirstParse(parses) == FirstParse(parses[i..])
        {
          if parses[i].Some? {
            time := parses[i].value;
            break;
          }
        }
      case _ =>
    }
    e := Event(line, parsed.objectType, time);
  }

  // ---------------------------------------------------------------- the loading loop

  datatype Loaded = Loaded(batches: seq<Batch>, minTimestamp: int)

  /** EventBeforeMetadata is the nil dereference of a file that does not start with metadata. */
  datatype LoadError = RumNotSupported | EventBeforeMetadata | NothingToReplay

  /** The lower of a minimum, where the zero time is none yet, and an event time, where the zero
      time is an event without one. */
  function LowerTime(min: int, time: int): int {
    if time != ZERO_TIME && (min == ZERO_TIME || time < min) then time else min
  }

  function AddToLast(batches: seq<Batch>, e: Event): seq<Batch>
    requires batches != []
  {
    var last := batches[|batches| - 1];
    batches[..|batches| - 1] + [Batch(last.metadata, last.events + [e])]
  }

  function LoadLine(parser: Parser, line: Line, st: Loaded, current: bool): Result<Loaded, LoadError>
    requires current ==> st.batches != []
  {
    if line == "" then Ok(st)
    else if IsRum(line) then Err(RumNotSupported)
    else if IsMeta(line) then Ok(st.(batches := st.batches + [Batch(line, [])]))
    else if !current then Err(EventBeforeMetadata)
    else
      var e := EventOf(parser, line);
      Ok(Loaded(AddToLast(st.batches, e), LowerTime(st.minTimestamp, e.timestamp)))
  }

  predicate HasMeta(lines: seq<Line>) {
    exists i :: 0 <= i < |lines| && IsMeta(lines[i])
  }

  /** The lines of one file up to the first error. */
  function LoadLines(parser: Parser, lines: seq<Line>, st: Loaded): (r: Result<Loaded, LoadError>)
    ensures r.Ok? && HasMeta(lines) ==> r.value.batches != []
    decreases |lines|
  {
    if lines == [] then Ok(st)
    else
      var n := |lines| - 1;
      match LoadLines(parser, lines[..n], st)
      case Err(e) => Err(e)
      case Ok(before) => LoadLine(parser, lines[n], before, HasMeta(lines[..n]))
  }

  function LoadFiles(parser: Parser, files: seq<seq<Line>>, st: Loaded): Result<Loaded, LoadError>
    decreases |files|
  {
    if files == [] then Ok(st)
    else
      match LoadFiles(parser, files[..|files| - 1], st)
      case Err(e) => Err(e)
      case Ok(before) => LoadLines(parser, files[|files| - 1], before)
  }

  const NOTHING := Loaded([], ZERO_TIME)

  function Load(parser: Parser, files: seq<seq<Line>>): Result<Loaded, LoadError> {
    match LoadFiles(parser, files, NOTHING)
    case Err(e) => Err(e)
    case Ok(st) => if st.batches == [] then Err(NothingToReplay) else Ok(st)
  }

  lemma HasMetaExtends(lines: seq<Line>, i: nat)
    requires i < |lines|
    ensures HasMeta(lines[..i + 1]) <==> HasMeta(lines[..i]) || IsMeta(lines[i])
  {
  }

  lemma {:induction false} ErrorStays(parser: Parser, lines: seq<Line>, i: nat, st: Loaded)
    requires i <= |lines|
    ensures LoadLines(parser, lines[..i], st).Err? ==> LoadLines(parser, lines, st) == LoadLines(parser, lines[..i], st)
    decreases |lines|
  {
    if i < |lines| {
      var n := |lines| - 1;
      assert lines[..n][..i] == lines[..i];
      ErrorStays(parser, lines[..n], i, st);
    } else {
      assert lines[..i] == lines;
    }
  }

  method LoadFile(parser: Parser, lines: seq<Line>, st: Loaded) returns (r: Result<Loaded, LoadError>)
    ensures r == LoadLines(parser, lines, st)
  {
    var batches, minTimestamp := st.batches, st.minTimestamp;
    var current := false;
    for i := 0 to |lines|
      invariant current <==> HasMeta(lines[..i])
      invariant current ==> batches != []
      invariant LoadLines(parser, lines[..i], st) == Ok(Loaded(batches, minTimestamp))
    {
      var line := lines[i];
      assert lines[..i + 1][..i] == lines[..i] && lines[..i + 1][i] == line;
      HasMetaExtends(lines, i);
      ErrorStays(parser, lines, i + 1, st);
      if line == "" { continue; }
      if IsRum(line) { return Err(RumNotSupported); }
      if IsMeta(line) {
        batches := batches + [Batch(line, [])];
        current := true;
      } else {
        var e := Process(parser, line);
        if e.timestamp != ZERO_TIME {
          if minTimestamp == ZERO_TIME || e.timestamp < minTimestamp {
            minTimestamp := e.timestamp;
          }
        }
        if !current { return Err(EventBeforeMetadata); }
        var last := batches[|batches| - 1];
        ghost var before := batches;
        batches := batches[|batches| - 1 := Batch(last.metadata, last.events + [e])];
        assert batches == AddToLast(before, e);
      }
    }
    assert lines[..|lines|] == lines;
    return Ok(Loaded(batches, minTimestamp));
  }

  lemma {:induction false} FileErrorStays(parser: Parser, files: seq<seq<Line>>, i: nat)
    requires i <= |files|
    ensures LoadFiles(parser, files[..i], NOTHING).Err? ==>
              LoadFiles(parser, files, NOTHING) == LoadFiles(parser, files[..i], NOTHING)
    decreases |files|
  {
    if i < |files| {
      var n := |files| - 1;
      assert files[..n][..i] == files[..i];
      FileErrorStays(parser, files[..n], i);
    } else {
      assert files[..i] == files;
    }
  }

  method New(parser: Parser, files: seq<seq<Line>>) returns (r: Result<Loaded, LoadError>)
    ensures r == Load(parser, files)
  {
    var st := NOTHING;
    for i := 0 to |files|
      invariant LoadFiles(parser, files[..i], NOTHING) == Ok(st)
    {
      assert files[..i + 1][..i] == files[..i];
      FileErrorStays(parser, files, i + 1);
      var loaded := LoadFile(parser, files[i], st);
      if loaded.Err? { return Err(loaded.error); }
      st := loaded.value;
    }
    assert files[..|files|] == files;
    if |st.batches| == 0 { return Err(NothingToReplay); }
    return Ok(st);
  }

  // ---------------------------------------------------------------- when loading succeeds

  /** The line is empty, or it is not RUM metadata and it is metadata or comes after some. */
  predicate IsReady(lines: seq<Line>, i: nat)
    requires i < |lines|
  {
    || lines[i] == ""
    || (!("{\"m\":" <= lines[i]) && exists j :: 0 <= j <= i && "{\"metadata\":" <= lines[j])
  }

  lemma ReadyInPrefix(lines: seq<Line>, n: nat, i: nat)
    requires i < n <= |lines|
    ensures IsReady(lines[..n], i) <==> IsReady(lines, i)
  {
    assert forall j :: 0 <= j < n ==> lines[..n][j] == lines[j];
  }

  /** Line `i` is the first that cannot be loaded, and this is why. */
  predicate StopsAt(lines: seq<Line>, i: nat, e: LoadError) {
    && i < |lines| && !IsReady(lines, i) && (forall j :: 0 <= j < i ==> IsReady(lines, j))
    && e == if "{\"m\":" <= lines[i] then RumNotSupported else EventBeforeMetadata
  }

  lemma LastLineStops(parser: Parser, lines: seq<Line>, st: Loaded)
    requires lines != [] && (HasMeta(lines[..|lines| - 1]) ==> st.batches != [])
    ensures var r := LoadLine(parser, lines[|lines| - 1], st, HasMeta(lines[..|lines| - 1]));
            && (r.Ok? <==> IsReady(lines, |lines| - 1))
            && (r.Err? ==> r.error == if "{\"m\":" <= lines[|lines| - 1] then RumNotSupported else EventBeforeMetadata)
  {
    hide EventOf;
    var n := |lines| - 1;
    assert forall j :: 0 <= j < n ==> lines[..n][j] == lines[j];
  }

  lemma {:induction false} FileStops(parser: Parser, lines: seq<Line>, st: Loaded) returns (i: nat)
    ensures var r := LoadLines(parser, lines, st);
            if r.Ok? then forall j :: 0 <= j < |lines| ==> IsReady(lines, j) else StopsAt(lines, i, r.error)
    decreases |lines|
  {
    hide IsReady, LoadLine;
    i := 0;
    if lines != [] {
      var n := |lines| - 1;
      i := FileStops(parser, lines[..n], st);
      forall j | 0 <= j < n
        ensures IsReady(lines[..n], j) <==> IsReady(lines, j)
      {
        ReadyInPrefix(lines, n, j);
      }
      var before := LoadLines(parser, lines[..n], st);
      if before.Ok? {
        LastLineStops(parser, lines, before.value);
        i := n;
      }
    }
  }

  /** All files before `f` can be loaded, and file `f` is given up at line `i`. */
  predicate GivesUp(files: seq<seq<Line>>, f: nat, i: nat, e: LoadError) {
    && f < |files| && StopsAt(files[f], i, e)
    && forall g, j :: 0 <= g < f && 0 <= j < |files[g]| ==> IsReady(files[g], j)
  }

  lemma {:induction false} FilesStop(parser: Parser, files: seq<seq<Line>>) returns (f: nat, i: nat)
    ensures var r := LoadFiles(parser, files, NOTHING);
            if r.Ok? then forall g, j :: 0 <= g < |files| && 0 <= j < |files[g]| ==> IsReady(files[g], j)
            else GivesUp(files, f, i, r.error)
    decreases |files|
  {
    hide IsReady, LoadLines, StopsAt;
    f, i := 0, 0;
    if files != [] {
      var n := |files| - 1;
      f, i := FilesStop(parser, files[..n]);
      var before := LoadFiles(parser, files[..n], NOTHING);
      if before.Ok? {
        f := n;
        i := FileStops(parser, files[n], before.value);
      }
    }
  }

  lemma NoMeta()
    ensures !HasMeta([])
  {
  }

  lemma {:induction false} FileHasBatch(parser: Parser, lines: seq<Line>, st: Loaded)
    ensures var r := LoadLines(parser, lines, st);
            r.Ok? ==> (r.value.batches == [] <==> st.batches == [] && !HasMeta(lines))
    decreases |lines|
  {
    hide IsMeta, IsRum, EventOf;
    if lines == [] {
      NoMeta();
    } else {
      var n := |lines| - 1;
      FileHasBatch(parser, lines[..n], st);
      HasMetaExtends(lines, n);
      assert lines[..n + 1] == lines;
    }
  }

  lemma {:induction false} FilesHaveBatch(parser: Parser, files: seq<seq<Line>>)
    ensures var r := LoadFiles(parser, files, NOTHING);
            r.Ok? ==> (r.value.batches == [] <==> forall f :: 0 <= f < |files| ==> !HasMeta(files[f]))
    decreases |files|
  {
    hide HasMeta, LoadLines;
    if files != [] {
      var n := |files| - 1;
      FilesHaveBatch(parser, files[..n]);
      var before := LoadFiles(parser, files[..n], NOTHING);
      if before.Ok? {
        FileHasBatch(parser, files[n], before.value);
      }
    }
  }

  lemma HasMetaIs(lines: seq<Line>)
    ensures HasMeta(lines) <==> exists i :: 0 <= i < |lines| && "{\"metadata\":" <= lines[i]
  {
  }

  /** Loading succeeds exactly when no line is RUM metadata, no file has an event before its first
      metadata line, and some file has a metadata line. */
  lemma LoadSucceedsExactly(parser: Parser, files: seq<seq<Line>>)
    ensures Load(parser, files).Ok? <==>
              && (forall f, i :: 0 <= f < |files| && 0 <= i < |files[f]| ==> IsReady(files[f], i))
              && (exists f, i :: 0 <= f < |files| && 0 <= i < |files[f]| && "{\"metadata\":" <= files[f][i])
  {
    hide HasMeta, LoadFiles, IsReady;
    var _, _ := FilesStop(parser, files);
    FilesHaveBatch(parser, files);
    forall f | 0 <= f < |files|
      ensures HasMeta(files[f]) <==> exists i :: 0 <= i < |files[f]| && "{\"metadata\":" <= files[f][i]
    {
      HasMetaIs(files[f]);
    }
  }

  lemma GivesUpWith(files: seq<seq<Line>>, f: nat, i: nat, e: LoadError)
    requires GivesUp(files, f, i, e)
    ensures e != NothingToReplay
  {
    hide IsReady;
  }

  /** Loading fails with the first line that cannot be loaded, or for lack of metadata. */
  lemma LoadErrorIs(parser: Parser, files: seq<seq<Line>>)
    requires Load(parser, files).Err?
    ensures var e := Load(parser, files).error;
            if e == NothingToReplay then
              && (forall f, i :: 0 <= f < |files| && 0 <= i < |files[f]| ==>
                    IsReady(files[f], i) && !("{\"metadata\":" <= files[f][i]))
            else exists f, i :: GivesUp(files, f, i, e)
  {
    hide GivesUp, IsReady, LoadFiles;
    LoadSucceedsExactly(parser, files);
    var f, i := FilesStop(parser, files);
    if LoadFiles(parser, files, NOTHING).Err? { GivesUpWith(files, f, i, Load(parser, files).error); }
  }

  // ---------------------------------------------------------------- what loading leaves

  /** Lines of loaded batches are what the loader takes for metadata and for events. */
  predicate CleanEvent(parser: Parser, e: Event) {
    e.payload != "" && !IsRum(e.payload) && !IsMeta(e.payload) && e == EventOf(parser, e.payload)
  }

  predicate CleanEvents(parser: Parser, es: seq<Event>) {
    forall i :: 0 <= i < |es| ==> CleanEvent(parser, es[i])
  }

  predicate Clean(parser: Parser, batches: seq<Batch>) {
    && (forall i :: 0 <= i < |batches| ==> IsMeta(batches[i].metadata))
    && (forall i :: 0 <= i < |batches| ==> CleanEvents(parser, batches[i].events))
  }

  lemma LineStaysClean(parser: Parser, line: Line, st: Loaded, current: bool)
    requires (current ==> st.batches != []) && Clean(parser, st.batches)
    ensures var r := LoadLine(parser, line, st, current);
            r.Ok? ==> Clean(parser, r.value.batches)
  {
  }

  lemma {:induction false} FileStaysClean(parser: Parser, lines: seq<Line>, st: Loaded)
    requires Clean(parser, st.batches)
    ensures var r := LoadLines(parser, lines, st);
            r.Ok? ==> Clean(parser, r.value.batches)
    decreases |lines|
  {
    hide LoadLine, Clean;
    if lines != [] {
      var n := |lines| - 1;
      FileStaysClean(parser, lines[..n], st);
      var before := LoadLines(parser, lines[..n], st);
      if before.Ok? {
        LineStaysClean(parser, lines[n], before.value, HasMeta(lines[..n]));
      }
    }
  }

  lemma {:induction false} LoadedIsClean(parser: Parser, files: seq<seq<Line>>)
    ensures var r := LoadFiles(parser, files, NOTHING);
            r.Ok? ==> Clean(parser, r.value.batches)
    decreases |files|
  {
    hide LoadLines;
    if files != [] {
      var n := |files| - 1;
      LoadedIsClean(parser, files[..n]);
      var before := LoadFiles(parser, files[..n], NOTHING);
      if before.Ok? {
        FileStaysClean(parser, files[n], before.value);
      }
    }
  }
}
