/** The `Logger` class: a mutable threshold and sink flag read on every call,
    `log` (gate, format, route), and the assertion helpers `logAndFail` and
    `assert`. The two sinks and the assertion failure are foreign calls, so
    the class records what reaches them in the ghost fields `trace` and
    `failures` instead. */
module RALLogger {
  import opened LogLevels
  import opened LogFormat

  /** Where an emitted text goes: `NSLog` (the system log), or `print`, which
      exists only in builds compiled with `DEBUG`. */
  datatype Sink = SystemLog | DebugConsole

  datatype Entry = Entry(sink: Sink, text: string)

  /** The sink an admitted text is written to, if any: the system log when
      `logsIntoConsole` is set, otherwise the console, which a release build
      compiles out. */
  function Route(logsIntoConsole: bool, debugBuild: bool): Option<Sink> {
    if logsIntoConsole then Some(SystemLog)
    else if debugBuild then Some(DebugConsole)
    else None
  }

  /** What one `log` call writes, given the logger's configuration at the
      time of the call. */
  function Emission(topLevel: LogLevel, logsIntoConsole: bool, debugBuild: bool,
                    message: string, level: LogLevel, functionName: string, file: string, line: int): seq<Entry>
  {
    if !Admits(topLevel, level) then []
    else
      match Route(logsIntoConsole, debugBuild)
      case None => []
      case Some(sink) => [Entry(sink, Format(BaseName(file), line, functionName, level, message))]
  }

  /** A call writes exactly one entry when the level passes the threshold and
      a sink is active, and nothing otherwise; the entry is the formatted
      text, in the sink the flag selects. */
  lemma EmissionCharacterised(topLevel: LogLevel, logsIntoConsole: bool, debugBuild: bool,
                              message: string, level: LogLevel, functionName: string, file: string, line: int)
    ensures var out := Emission(topLevel, logsIntoConsole, debugBuild, message, level, functionName, file, line);
            (|out| == 1 <==> level.RawValue() <= topLevel.RawValue() && (logsIntoConsole || debugBuild)) &&
            (|out| != 1 ==> out == []) &&
            (|out| == 1 ==> out[0].text == Format(BaseName(file), line, functionName, level, message) &&
                            out[0].sink == (if logsIntoConsole then SystemLog else DebugConsole))
  {
  }

  /** Toggling `logsIntoConsole` in a debug build changes the destination and
      nothing else: the same calls produce the same texts. */
  lemma SinkFlagOnlyChangesDestination(topLevel: LogLevel, message: string, level: LogLevel,
                                       functionName: string, file: string, line: int)
    ensures var toSystem := Emission(topLevel, true, true, message, level, functionName, file, line);
            var toConsole := Emission(topLevel, false, true, message, level, functionName, file, line);
            |toSystem| == |toConsole| &&
            forall i :: 0 <= i < |toSystem| ==>
              toSystem[i].text == toConsole[i].text &&
              toSystem[i].sink == SystemLog && toConsole[i].sink == DebugConsole
  {
  }

  /** The system log is written to whatever the build, so with
      `logsIntoConsole` set the build mode makes no difference. */
  lemma SystemLogIgnoresBuildMode(topLevel: LogLevel, message: string, level: LogLevel,
                                  functionName: string, file: string, line: int)
    ensures Emission(topLevel, true, false, message, level, functionName, file, line)
         == Emission(topLevel, true, true, message, level, functionName, file, line)
  {
  }

  /** A threshold of higher raw value writes everything a lower one writes. */
  lemma EmissionMonotoneInThreshold(lower: LogLevel, higher: LogLevel, logsIntoConsole: bool, debugBuild: bool,
                                    message: string, level: LogLevel, functionName: string, file: string, line: int)
    requires lower.RawValue() <= higher.RawValue()
    requires Emission(lower, logsIntoConsole, debugBuild, message, level, functionName, file, line) != []
    ensures Emission(higher, logsIntoConsole, debugBuild, message, level, functionName, file, line)
         == Emission(lower, logsIntoConsole, debugBuild, message, level, functionName, file, line)
  {
    AdmitsMonotone(level, lower, higher);
  }

  class Logger {
    /** When set, logs go to the system log (visible in the device's logs). */
    var logsIntoConsole: bool
    /** The least severe level still logged. */
    var topLevel: LogLevel
    /** Whether the build defines the `DEBUG` compilation condition, which
        decides whether the `print` sink exists; fixed when the program is built. */
    const debugBuild: bool
    /** Whether `assertionFailure` stops the program, as it does in an
        unoptimised build; in an optimised build it does nothing. Fixed when
        the program is built, independently of `debugBuild`. */
    const assertionsTrap: bool

    /** Every text that reached a sink, in order. */
    ghost var trace: seq<Entry>
    /** The message of every assertion failure raised, in order. */
    ghost var failures: seq<string>

    /** `init(topLevel:)`, whose default threshold (also that of the shared
        instance) is `info`; the sink flag starts cleared. */
    constructor (debugBuild: bool, assertionsTrap: bool, topLevel: LogLevel := Info)
      ensures this.topLevel == topLevel && !logsIntoConsole
      ensures this.debugBuild == debugBuild && this.assertionsTrap == assertionsTrap
      ensures trace == [] && failures == []
    {
      this.topLevel := topLevel;
      this.debugBuild := debugBuild;
      this.assertionsTrap := assertionsTrap;
      logsIntoConsole := false;
      trace := [];
      failures := [];
    }

    /** `log`: emit `message` if `level` passes the current threshold, to the
        sink the current flag selects. Nothing else changes. */
    method Log(message: string, level: LogLevel := Info, functionName: string, file: string, line: int)
      modifies this`trace
      ensures trace == old(trace) + Emission(topLevel, logsIntoConsole, debugBuild,
                                             message, level, functionName, file, line)
    {
      if level.RawValue() <= topLevel.RawValue() {
        var fileName := BaseName(file);
        var logContent := Format(fileName, line, functionName, level, message);
        if logsIntoConsole {
          trace := trace + [Entry(SystemLog, logContent)];
        } else {
          if debugBuild {
            trace := trace + [Entry(DebugConsole, logContent)];
          }
        }
      }
    }

    /** `logAndFail`: log exactly as `Log` does, then raise an assertion
        failure carrying `message`, whether or not the text was emitted. The
        failure has no effect in a build whose assertions do not trap. */
    method LogAndFail(message: string, level: LogLevel := Info, functionName: string, file: string, line: int)
      modifies this`trace, this`failures
      ensures trace == old(trace) + Emission(topLevel, logsIntoConsole, debugBuild,
                                             message, level, functionName, file, line)
      ensures failures == old(failures) + (if assertionsTrap then [message] else [])
    {
      Log(message, level, functionName, file, line);
      if assertionsTrap {
        failures := failures + [message];
      }
    }

    /** `assert`: nothing at all when `condition` holds; otherwise exactly
        `LogAndFail` with the same arguments. */
    method Assert(condition: bool, message: string, level: LogLevel := Info,
                  functionName: string, file: string, line: int)
      modifies this`trace, this`failures
      ensures condition ==> trace == old(trace) && failures == old(failures)
      ensures !condition ==>
        trace == old(trace) + Emission(topLevel, logsIntoConsole, debugBuild,
                                       message, level, functionName, file, line) &&
        failures == old(failures) + (if assertionsTrap then [message] else [])
    {
      if !condition {
        LogAndFail(message, level, functionName, file, line);
      }
    }
  }

  /** A client of the class in an unoptimised debug build: a change of
      threshold takes effect on the very next call, and a failed assertion
      stops the program even when its message is filtered out. The scenario
      ends at that failure, as the program would. */
  method DebugBuildScenario(message: string, functionName: string, file: string, line: int) {
    var logger := new Logger(true, true);
    assert logger.topLevel == Info;

    logger.Log(message, Debug, functionName, file, line);
    assert logger.trace == [];

    logger.topLevel := Debug;
    logger.Log(message, Debug, functionName, file, line);
    assert |logger.trace| == 1 && logger.trace[0].sink == DebugConsole;

    logger.topLevel := Critical;
    logger.Assert(true, message, Critical, functionName, file, line);
    assert |logger.trace| == 1 && logger.failures == [];

    logger.Assert(false, message, Info, functionName, file, line);
    assert |logger.trace| == 1 && logger.failures == [message];
  }

  /** A client of the class in an optimised release build: without the flag
      nothing is written, and a failed assertion writes to the system log once
      the flag is set, and nothing else happens. */
  method ReleaseBuildScenario(message: string, functionName: string, file: string, line: int) {
    var logger := new Logger(false, false);
    logger.Log(message, Critical, functionName, file, line);
    assert logger.trace == [];

    logger.logsIntoConsole := true;
    logger.LogAndFail(message, Critical, functionName, file, line);
    assert |logger.trace| == 1 && logger.trace[0].sink == SystemLog;
    assert logger.failures == [];
  }
}
