/** `LoggingUtilHandler.emit`: the bridge from the standard `logging`
    framework to the `Logfile` sink. Formatting, the sink and the error hook
    belong to other components; the model records which of them `emit`
    calls, with what, and in what order. */
module Adapter {
  import opened Wrappers

  /** The sink's own severities. */
  datatype LogLevel = DEBUG | INFO | WARN | ERROR | FATAL

  /** What `emit` passes to the sink as `level`: one of the sink's levels,
      or, for a record whose level the table does not know, the bound
      method `logfile.info` itself. */
  datatype LevelArg = Level(level: LogLevel) | InfoMethod

  /** The numeric levels of Python's `logging` module. */
  const DEBUG_NO: int := 10
  const INFO_NO: int := 20
  const WARNING_NO: int := 30
  const ERROR_NO: int := 40
  const CRITICAL_NO: int := 50

  /** The parts of a `logging.LogRecord` that `emit` reads. */
  datatype Record = Record(levelno: int, name: string, msg: string)

  /** A call `emit` makes on a collaborator. */
  datatype Call =
    | SinkLog(message: string, level: LevelArg, tag: string)
    | HandleError(record: Record)

  /** The standard level that maps onto a sink level. */
  function StdlibLevel(l: LogLevel): int {
    match l
    case DEBUG => DEBUG_NO
    case INFO => INFO_NO
    case WARN => WARNING_NO
    case ERROR => ERROR_NO
    case FATAL => CRITICAL_NO
  }

  predicate IsStandardLevel(levelno: int) {
    levelno == DEBUG_NO || levelno == INFO_NO || levelno == WARNING_NO
    || levelno == ERROR_NO || levelno == CRITICAL_NO
  }

  /** `level_map.get(record.levelno, self.logfile.info)`. */
  function Translate(levelno: int): (arg: LevelArg)
    ensures arg.Level? <==> IsStandardLevel(levelno)
    ensures arg.Level? ==> StdlibLevel(arg.level) == levelno
  {
    if levelno == INFO_NO then Level(INFO)
    else if levelno == WARNING_NO then Level(WARN)
    else if levelno == ERROR_NO then Level(ERROR)
    else if levelno == CRITICAL_NO then Level(FATAL)
    else if levelno == DEBUG_NO then Level(DEBUG)
    else InfoMethod
  }

  /** The table is a bijection between the five standard levels and the
      sink's five levels; every other number falls back to the method. */
  lemma TranslateSpec(levelno: int, l: LogLevel)
    ensures Translate(StdlibLevel(l)) == Level(l)
    ensures Translate(levelno) == Level(l) ==> levelno == StdlibLevel(l)
    ensures Translate(levelno) == InfoMethod <==> !IsStandardLevel(levelno)
  {
  }

  /** The table as the source lists it. */
  lemma TranslateTable()
    ensures Translate(DEBUG_NO) == Level(DEBUG)
    ensures Translate(INFO_NO) == Level(INFO)
    ensures Translate(WARNING_NO) == Level(WARN)
    ensures Translate(ERROR_NO) == Level(ERROR)
    ensures Translate(CRITICAL_NO) == Level(FATAL)
  {
  }

  /** The sink calls among `calls`, in order. */
  function Sinks(calls: seq<Call>): (r: seq<Call>)
    ensures |r| <= |calls|
    ensures forall c :: c in r ==> c.SinkLog? && c in calls
  {
    if |calls| == 0 then []
    else (if calls[0].SinkLog? then [calls[0]] else []) + Sinks(calls[1..])
  }

  /** The error-hook calls among `calls`, in order. */
  function Errors(calls: seq<Call>): (r: seq<Call>)
    ensures |r| <= |calls|
    ensures forall c :: c in r ==> c.HandleError? && c in calls
  {
    if |calls| == 0 then []
    else (if calls[0].HandleError? then [calls[0]] else []) + Errors(calls[1..])
  }

  /** `emit(record)`, given what `self.format(record)` returns (None where it
      raises an `Exception`) and whether `self.logfile.log` returns normally
      for the arguments it is given. An `Exception` from either ends in one
      call of the error hook, after any sink call; exceptions outside the
      `Exception` hierarchy are not modelled. */
  function Emit(record: Record, format: Record -> Option<string>,
                sinkReturns: (string, LevelArg, string) -> bool): (calls: seq<Call>)
    ensures calls == Sinks(calls) + Errors(calls)
    ensures format(record).None? ==> Sinks(calls) == [] && Errors(calls) == [HandleError(record)]
    ensures format(record).Some? ==>
      Sinks(calls) == [SinkLog(format(record).value, Translate(record.levelno), record.name)]
    ensures format(record).Some? ==>
      (Errors(calls) == [] <==> sinkReturns(format(record).value, Translate(record.levelno), record.name))
    ensures Errors(calls) == [] || Errors(calls) == [HandleError(record)]
  {
    match format(record)
    case None => [HandleError(record)]
    case Some(msg) =>
      var level := Translate(record.levelno);
      if sinkReturns(msg, level, record.name) then [SinkLog(msg, level, record.name)]
      else [SinkLog(msg, level, record.name), HandleError(record)]
  }

  /** The level the sink receives depends on the record's number alone: two
      records with the same number reach the sink with the same level,
      whatever their messages and names. */
  lemma LevelDependsOnlyOnLevelno(r1: Record, r2: Record, format: Record -> Option<string>,
                                  sinkReturns: (string, LevelArg, string) -> bool)
    requires r1.levelno == r2.levelno
    requires format(r1).Some? && format(r2).Some?
    ensures Sinks(Emit(r1, format, sinkReturns))[0].level == Sinks(Emit(r2, format, sinkReturns))[0].level
  {
  }

  /** A critical record tagged `db` reaches the sink as a fatal entry with
      its message and tag. */
  lemma CriticalExample(sinkReturns: (string, LevelArg, string) -> bool)
    ensures var rec := Record(CRITICAL_NO, "db", "conn lost");
            Sinks(Emit(rec, (r: Record) => Some(r.msg), sinkReturns)) == [SinkLog("conn lost", Level(FATAL), "db")]
  {
  }

  /** As written, a record at a level outside the table (25 here, between
      INFO and WARNING) reaches the sink with the method `logfile.info` as
      its level, not with a sink level. */
  lemma UnknownLevelPassesMethod(sinkReturns: (string, LevelArg, string) -> bool)
    ensures var rec := Record(25, "app", "halfway");
            Sinks(Emit(rec, (r: Record) => Some(r.msg), sinkReturns)) == [SinkLog("halfway", InfoMethod, "app")]
    ensures !Translate(25).Level?
  {
  }

  /** The evident intent of the fallback: the sink's INFO level. */
  function TranslateIntended(levelno: int): (l: LogLevel)
    ensures IsStandardLevel(levelno) ==> Translate(levelno) == Level(l)
    ensures !IsStandardLevel(levelno) ==> l == INFO
  {
    match Translate(levelno)
    case Level(l) => l
    case InfoMethod => INFO
  }

  /** `emit` with the intended fallback. It agrees with `Emit` on every
      standard level, and every sink call it makes carries a sink level. */
  function EmitIntended(record: Record, format: Record -> Option<string>,
                        sinkReturns: (string, LevelArg, string) -> bool): (calls: seq<Call>)
    ensures calls == Sinks(calls) + Errors(calls)
    ensures forall c :: c in Sinks(calls) ==> c.level.Level?
    ensures IsStandardLevel(record.levelno) ==> calls == Emit(record, format, sinkReturns)
    ensures format(record).None? ==> calls == [HandleError(record)]
    ensures format(record).Some? && !IsStandardLevel(record.levelno) ==>
      Sinks(calls) == [SinkLog(format(record).value, Level(INFO), record.name)]
    ensures format(record).Some? ==>
      (Errors(calls) == [] <==>
       sinkReturns(format(record).value, Level(TranslateIntended(record.levelno)), record.name))
    ensures Errors(calls) == [] || Errors(calls) == [HandleError(record)]
  {
    match format(record)
    case None => [HandleError(record)]
    case Some(msg) =>
      var level := Level(TranslateIntended(record.levelno));
      if sinkReturns(msg, level, record.name) then [SinkLog(msg, level, record.name)]
      else [SinkLog(msg, level, record.name), HandleError(record)]
  }
}
