/** The project's logging helpers: a file handler that empties its file once it has counted
    `max_lines` records, and `get_logger`, which hands out one logger per calling module. */
module TextLogger {

  import opened Wrappers

  /** `max_lines` of the handlers `get_logger` creates. */
  const DEFAULT_MAX_LINES: int := 1000
  /** The name used when the calling module cannot be determined. */
  const UNKNOWN_MODULE: string := "UnknownModule"
  /** `logging.NOTSET`, the level of a logger `logging.getLogger` creates. */
  const NOTSET: int := 0
  /** `logging.DEBUG`, the default level of `get_logger`. */
  const DEBUG: int := 10

  function Max(a: int, b: int): (m: int)
    ensures m >= a && m >= b && (m == a || m == b)
  {
    if a >= b then a else b
  }

  // ---------------------------------------------------------------------------
  // RotatingTextFileHandler

  /** The log file before the handler is created. `Unreadable`: it exists but reading it as
      text raises (an encoding error, say); it still holds its lines. */
  datatype Existing = Missing | Unreadable(lines: seq<string>) | Readable(lines: seq<string>)

  /** What the file holds once the handler has opened it for appending (a missing file is created). */
  function ExistingFile(existing: Existing): (file: seq<string>)
    ensures existing.Missing? ==> file == []
    ensures !existing.Missing? ==> file == existing.lines
  {
    if existing.Missing? then [] else existing.lines
  }

  /** The initial `line_count`: the number of lines of a file that can be read, otherwise 0. */
  function ExistingLineCount(existing: Existing): (n: nat)
    ensures n <= |ExistingFile(existing)|
    ensures n == |ExistingFile(existing)| <==> existing.Readable? || ExistingFile(existing) == []
  {
    if existing.Readable? then |existing.lines| else 0
  }

  /** How `_reset_file` ends. `Reset`: the file was truncated and reopened. `Untouched`:
      `stream.close()` or `open(filename, 'w')` raised, so the stream is closed and the file
      unchanged. `Truncated`: the file was emptied but reopening the stream raised. */
  datatype ResetResult = Reset | Untouched | Truncated

  /** The state of a handler: the limit, the counter, the records in the file, and whether
      `self.stream` is an open stream (after a failed reset it is a closed one). */
  datatype Handler = Handler(maxLines: int, lineCount: int, file: seq<string>, streamOpen: bool)

  /** `_reset_file`: only a complete reset zeroes the counter and leaves an open stream; a
      failed one reports the error and keeps the counter, with the stream closed. */
  function ResetFileSpec(h: Handler, result: ResetResult): (h': Handler)
    ensures h'.maxLines == h.maxLines
    ensures h'.lineCount == 0 <==> result == Reset || h.lineCount == 0
    ensures result != Reset ==> h'.lineCount == h.lineCount
    ensures h'.streamOpen <==> result == Reset
    ensures h'.file == [] || h'.file == h.file
    ensures h'.file == h.file <==> result == Untouched || h.file == []
  {
    match result
    case Reset => Handler(h.maxLines, 0, [], true)
    case Untouched => Handler(h.maxLines, h.lineCount, h.file, false)
    case Truncated => Handler(h.maxLines, h.lineCount, [], false)
  }

  /** `emit`: reset first when the counter has reached the limit, then write the record
      (a write to a closed stream raises inside the handler and the record is lost) and count it. */
  function EmitSpec(h: Handler, record: string, reset: ResetResult): (h': Handler)
    ensures h'.maxLines == h.maxLines
    ensures h'.lineCount == (if h.lineCount >= h.maxLines && reset == Reset then 0 else h.lineCount) + 1
    ensures 0 <= h.lineCount && (h.lineCount >= h.maxLines ==> reset == Reset) ==>
      1 <= h'.lineCount <= Max(h.maxLines, 1)
    ensures h'.streamOpen ==> h'.file != [] && h'.file[|h'.file| - 1] == record
    ensures h'.streamOpen <==> (if h.lineCount >= h.maxLines then reset == Reset else h.streamOpen)
  {
    var g := if h.lineCount >= h.maxLines then ResetFileSpec(h, reset) else h;
    Handler(g.maxLines, g.lineCount + 1, if g.streamOpen then g.file + [record] else g.file, g.streamOpen)
  }

  /** One call of `emit`: the formatted record, and how the reset ends should one happen. */
  datatype Emission = Emission(record: string, reset: ResetResult)

  function EmitAll(h: Handler, es: seq<Emission>): (h': Handler)
    ensures h'.maxLines == h.maxLines
    decreases |es|
  {
    if es == [] then h else EmitAll(EmitSpec(h, es[0].record, es[0].reset), es[1..])
  }

  function Records(es: seq<Emission>): (rs: seq<string>)
    ensures |rs| == |es| && forall i :: 0 <= i < |es| ==> rs[i] == es[i].record
  {
    seq(|es|, i requires 0 <= i < |es| => es[i].record)
  }

  predicate ResetsSucceed(es: seq<Emission>)
  {
    forall i :: 0 <= i < |es| ==> es[i].reset == Reset
  }

  predicate ResetsFail(es: seq<Emission>)
  {
    forall i :: 0 <= i < |es| ==> es[i].reset != Reset
  }

  predicate IsSuffix(a: seq<string>, b: seq<string>)
  {
    |a| <= |b| && a == b[|b| - |a|..]
  }

  lemma SuffixTrans(a: seq<string>, b: seq<string>, c: seq<string>)
    requires IsSuffix(a, b) && IsSuffix(b, c)
    ensures IsSuffix(a, c)
  {
    assert a == c[|c| - |a|..] by {
      assert b == c[|c| - |b|..];
      forall k | 0 <= k < |a| ensures a[k] == c[|c| - |a| + k] {
        assert a[k] == b[|b| - |a| + k];
      }
    }
  }

  lemma SuffixAppend(a: seq<string>, b: seq<string>, r: seq<string>)
    requires IsSuffix(a, b)
    ensures IsSuffix(a + r, b + r)
  {
    forall k | 0 <= k < |a + r| ensures (a + r)[k] == (b + r)[|b| - |a| + k] {
      if k < |a| {
        assert (a + r)[k] == a[k] == b[|b| - |a| + k];
      }
    }
  }

  /** With every reset succeeding, the counter stays between 1 and max(max_lines, 1) once a
      record has been emitted, whatever the file held before. */
  lemma {:induction false} EmitAllBounded(h: Handler, es: seq<Emission>)
    requires 0 <= h.lineCount && ResetsSucceed(es)
    ensures var h' := EmitAll(h, es);
      0 <= h'.lineCount && (es != [] ==> 1 <= h'.lineCount <= Max(h.maxLines, 1))
    decreases |es|
  {
    if es != [] {
      var h1 := EmitSpec(h, es[0].record, es[0].reset);
      EmitAllBounded(h1, es[1..]);
    }
  }

  /** The handler writes to its file and has counted no more records than the file holds. */
  predicate Writing(h: Handler)
  {
    h.streamOpen && 0 <= h.lineCount <= |h.file|
  }

  /** One `emit` with an open stream and a reset that succeeds, should one happen. */
  lemma EmitInStep(h: Handler, record: string)
    requires Writing(h)
    ensures var h' := EmitSpec(h, record, Reset);
      && Writing(h')
      && IsSuffix(h'.file, h.file + [record])
      && (h.lineCount == |h.file| ==> h'.lineCount == |h'.file|)
  {
  }

  lemma ResetsSucceedTail(es: seq<Emission>)
    requires es != [] && ResetsSucceed(es)
    ensures es[0].reset == Reset && ResetsSucceed(es[1..])
  {
    forall i | 0 <= i < |es[1..]| ensures es[1..][i].reset == Reset {
      assert es[1..][i] == es[i + 1];
    }
  }

  /** With an open stream and every reset succeeding, the file is always the most recent
      records: a suffix of what it held followed by everything emitted; the counter never
      exceeds the records in the file, and equals them when it started equal. */
  lemma {:induction false} EmitAllKeepsRecent(h: Handler, es: seq<Emission>)
    requires Writing(h) && ResetsSucceed(es)
    ensures var h' := EmitAll(h, es);
      && Writing(h')
      && IsSuffix(h'.file, h.file + Records(es))
      && (h.lineCount == |h.file| ==> h'.lineCount == |h'.file|)
    decreases |es|
  {
    if es == [] {
      assert h.file + Records(es) == h.file;
    } else {
      var r0 := es[0].record;
      var tail := es[1..];
      ResetsSucceedTail(es);
      var h1 := EmitSpec(h, r0, Reset);
      EmitInStep(h, r0);
      EmitAllKeepsRecent(h1, tail);
      assert Records(es) == [r0] + Records(tail);
      SuffixStep(EmitAll(h1, tail).file, h1.file, h.file, r0, Records(tail));
    }
  }

  /** The rotation's purpose: a handler that starts in step with its file (as one created on
      a readable file does) never lets the file grow past max(max_lines, 1) records while its
      resets succeed. */
  lemma RotationBoundsFile(h: Handler, es: seq<Emission>)
    requires Writing(h) && h.lineCount == |h.file| && ResetsSucceed(es) && es != []
    ensures |EmitAll(h, es).file| <= Max(h.maxLines, 1)
  {
    EmitAllBounded(h, es);
    EmitAllKeepsRecent(h, es);
  }

  lemma SuffixStep(f: seq<string>, f1: seq<string>, f0: seq<string>, r0: string, r: seq<string>)
    requires IsSuffix(f, f1 + r) && IsSuffix(f1, f0 + [r0])
    ensures IsSuffix(f, f0 + ([r0] + r))
  {
    SuffixAppend(f1, f0 + [r0], r);
    AppendAssoc(f0, [r0], r);
    SuffixTrans(f, f1 + r, f0 + [r0] + r);
  }

  /** With an open stream and every reset succeeding, the last record emitted is the last
      line of the file. */
  lemma {:induction false} EmitAllEndsWithLast(h: Handler, es: seq<Emission>)
    requires h.streamOpen && ResetsSucceed(es) && es != []
    ensures var h' := EmitAll(h, es);
      h'.file != [] && h'.file[|h'.file| - 1] == es[|es| - 1].record
    decreases |es|
  {
    var tail := es[1..];
    ResetsSucceedTail(es);
    var h1 := EmitSpec(h, es[0].record, Reset);
    if tail == [] {
      assert EmitAll(h1, tail) == h1;
    } else {
      EmitAllEndsWithLast(h1, tail);
      assert tail[|tail| - 1] == es[|es| - 1];
    }
  }

  lemma AppendAssoc(a: seq<string>, b: seq<string>, c: seq<string>)
    ensures a + (b + c) == a + b + c
  {
  }

  /** After a failed reset, while no reset succeeds, records are counted but none reaches the
      file, so the counter runs past the limit. */
  lemma {:induction false} ClosedStreamLosesRecords(h: Handler, es: seq<Emission>)
    requires !h.streamOpen && ResetsFail(es)
    ensures var h' := EmitAll(h, es);
      !h'.streamOpen && |h'.file| <= |h.file| && (h'.file == [] || h'.file == h.file)
      && h'.lineCount == h.lineCount + |es|
    decreases |es|
  {
    if es != [] {
      var h1 := EmitSpec(h, es[0].record, es[0].reset);
      ClosedStreamLosesRecords(h1, es[1..]);
      assert ResetsFail(es[1..]) by {
        forall i | 0 <= i < |es[1..]| ensures es[1..][i].reset != Reset {
          assert es[1..][i] == es[i + 1];
        }
      }
    }
  }

  class RotatingTextFileHandler {
    const maxLines: int
    var lineCount: int
    var file: seq<string>
    var streamOpen: bool

    function State(): (h: Handler)
      reads this
      ensures h.lineCount == lineCount && h.file == file
    {
      Handler(maxLines, lineCount, file, streamOpen)
    }

    /** `_get_existing_line_count`: count the lines of the file one by one; 0 when it
        cannot be read. */
    static method GetExistingLineCount(existing: Existing) returns (n: nat)
      ensures n == ExistingLineCount(existing)
    {
      if !existing.Readable? {
        return 0;
      }
      n := 0;
      var i := 0;
      while i < |existing.lines|
        invariant 0 <= i <= |existing.lines| && n == i
      {
        n := n + 1;
        i := i + 1;
      }
    }

    /** `__init__(filename, max_lines)` with mode `'a'` and no delay: the stream is opened at
        once, then the existing lines are counted. */
    constructor (maxLines: int, existing: Existing)
      ensures State() == Handler(maxLines, ExistingLineCount(existing), ExistingFile(existing), true)
    {
      var n := GetExistingLineCount(existing);
      this.maxLines := maxLines;
      file := ExistingFile(existing);
      streamOpen := true;
      lineCount := n;
    }

    method ResetFile(result: ResetResult)
      modifies this
      ensures State() == ResetFileSpec(old(State()), result)
    {
      streamOpen := false;
      match result {
        case Untouched =>
          return;
        case Truncated =>
          file := [];
          return;
        case Reset =>
          file := [];
          streamOpen := true;
          lineCount := 0;
      }
    }

    method Emit(record: string, reset: ResetResult)
      modifies this
      ensures State() == EmitSpec(old(State()), record, reset)
    {
      if lineCount >= maxLines {
        ResetFile(reset);
      }
      if streamOpen {
        file := file + [record];
      }
      lineCount := lineCount + 1;
    }
  }

  /** A handler created on a readable file starts with its counter equal to the file's lines,
      the situation in which the rotation keeps the file at most `max_lines` long. */
  lemma ReadableStartsInStep(maxLines: int, lines: seq<string>)
    ensures var h := Handler(maxLines, ExistingLineCount(Readable(lines)), ExistingFile(Readable(lines)), true);
      Writing(h) && h.lineCount == |h.file|
  {
  }

  // ---------------------------------------------------------------------------
  // get_logger and its registry

  /** A handler attached to a logger: one of this module's rotating handlers, or one attached
      by other code. */
  datatype HandlerKind = RotatingFile(path: string, maxLines: int) | OtherHandler

  /** What `logging` keeps about a logger. */
  datatype LoggerInfo = LoggerInfo(level: int, handlers: seq<HandlerKind>)

  /** `_logger_registry` (each name mapped to `logging.getLogger(name)`, so the names it holds
      determine it) and the loggers `logging` knows by name. */
  datatype Loggers = Loggers(registry: set<string>, loggers: map<string, LoggerInfo>)

  /** The module name `get_logger` keys on: the caller's module, or `UnknownModule`. */
  function ModuleName(caller: Option<string>): (name: string)
    ensures caller.Some? ==> name == caller.value
    ensures caller.None? ==> name == UNKNOWN_MODULE
  {
    match caller
    case Some(n) => n
    case None => UNKNOWN_MODULE
  }

  function LoggerOf(w: Loggers, name: string): LoggerInfo
  {
    if name in w.loggers then w.loggers[name] else LoggerInfo(NOTSET, [])
  }

  /** `get_logger(level)` called from module `caller`. `inherited`: an ancestor logger already
      has a handler, which `hasHandlers` also reports; `logPath` is the file name the path
      helpers produce. */
  function GetLoggerSpec(w: Loggers, caller: Option<string>, level: int, inherited: bool, logPath: string)
    : (r: (Loggers, string))
    ensures r.1 == ModuleName(caller) && r.1 in r.0.registry
    ensures r.0.registry == w.registry + {r.1}
    ensures forall n :: n in w.loggers && n != r.1 ==> n in r.0.loggers && r.0.loggers[n] == w.loggers[n]
  {
    var name := ModuleName(caller);
    if name in w.registry then (w, name)
    else
      var info := LoggerOf(w, name);
      var handlers := if info.handlers == [] && !inherited then [RotatingFile(logPath, DEFAULT_MAX_LINES)]
                      else info.handlers;
      (Loggers(w.registry + {name}, w.loggers[name := LoggerInfo(level, handlers)]), name)
  }

  /** A name already registered gets its logger back and nothing changes, not even its level. */
  lemma GetLoggerMemoised(w: Loggers, caller: Option<string>, level: int, inherited: bool, logPath: string)
    requires ModuleName(caller) in w.registry
    ensures GetLoggerSpec(w, caller, level, inherited, logPath).0 == w
  {
  }

  /** A first call sets the level and attaches a rotating handler of 1000 lines exactly when
      the logger has no handler of its own or through an ancestor; its other handlers stay. */
  lemma GetLoggerAttachesOnlyIfNone(w: Loggers, caller: Option<string>, level: int, inherited: bool, logPath: string)
    requires ModuleName(caller) !in w.registry
    ensures var (w', name) := GetLoggerSpec(w, caller, level, inherited, logPath);
      var before := LoggerOf(w, name).handlers;
      && name in w'.loggers && w'.loggers[name].level == level
      && (before == [] && !inherited ==> w'.loggers[name].handlers == [RotatingFile(logPath, DEFAULT_MAX_LINES)])
      && (before != [] || inherited ==> w'.loggers[name].handlers == before)
  {
  }

  /** Calling `get_logger` twice from the same module is calling it once. */
  lemma GetLoggerIdempotent(w: Loggers, caller: Option<string>, level: int, level': int,
                            inherited: bool, inherited': bool, logPath: string, logPath': string)
    ensures var (w1, n1) := GetLoggerSpec(w, caller, level, inherited, logPath);
      GetLoggerSpec(w1, caller, level', inherited', logPath') == (w1, n1)
  {
  }

  /** One call to `get_logger`: the calling module and the environment it sees. */
  datatype LoggerCall = LoggerCall(caller: Option<string>, level: int, inherited: bool, logPath: string)

  function GetLoggerAll(w: Loggers, calls: seq<LoggerCall>): (w': Loggers)
    ensures w.registry <= w'.registry
    decreases |calls|
  {
    if calls == [] then w
    else
      var c := calls[0];
      GetLoggerAll(GetLoggerSpec(w, c.caller, c.level, c.inherited, c.logPath).0, calls[1..])
  }

  /** However often it is called, `get_logger` gives no logger a second handler: a logger
      ends with no more handlers than it had, or one if it had none. Registered names are
      never dropped and their loggers never change. */
  lemma {:induction false} GetLoggerAllNoSecondHandler(w: Loggers, calls: seq<LoggerCall>, name: string)
    ensures var w' := GetLoggerAll(w, calls);
      && |LoggerOf(w', name).handlers| <= Max(|LoggerOf(w, name).handlers|, 1)
      && (name in w.registry ==> LoggerOf(w', name) == LoggerOf(w, name))
    decreases |calls|
  {
    if calls != [] {
      var c := calls[0];
      var w1 := GetLoggerSpec(w, c.caller, c.level, c.inherited, c.logPath).0;
      GetLoggerAllNoSecondHandler(w1, calls[1..], name);
    }
  }

  /** The module-level registry together with the state of `logging`. */
  class LoggerRegistry {
    var registry: set<string>
    var loggers: map<string, LoggerInfo>

    function State(): Loggers
      reads this
    {
      Loggers(registry, loggers)
    }

    constructor ()
      ensures State() == Loggers({}, map[])
    {
      registry := {};
      loggers := map[];
    }

    method GetLogger(caller: Option<string>, level: int, inherited: bool, logPath: string) returns (name: string)
      modifies this
      ensures (State(), name) == GetLoggerSpec(old(State()), caller, level, inherited, logPath)
    {
      name := if caller.Some? then caller.value else UNKNOWN_MODULE;
      if name in registry {
        return;
      }
      var handlers := if name in loggers then loggers[name].handlers else [];
      if handlers == [] && !inherited {
        handlers := [RotatingFile(logPath, DEFAULT_MAX_LINES)];
      }
      loggers := loggers[name := LoggerInfo(level, handlers)];
      registry := registry + {name};
    }
  }
}
