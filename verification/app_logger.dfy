/** `lib/logging/appLogger.ts`: the in-memory logger. Entries below the
    logger's level are dropped and the buffer keeps the newest 1000. The
    clock is a parameter; console output is not modelled. */
module AppLogger {
  import opened Wrappers
  import opened JsonText
  import opened Seqs

  /** `LogLevel`, ordered by `Rank`. */
  datatype Level = Debug | Info | Warn | Error

  function Rank(l: Level): nat {
    match l
    case Debug => 0
    case Info => 1
    case Warn => 2
    case Error => 3
  }

  datatype Entry = Entry(level: Level, message: string, timestamp: int, context: Option<string>, data: Option<Json>)

  datatype Logger = Logger(level: Level, logs: seq<Entry>)

  /** `maxLogs` */
  const MaxLogs: nat := 1000

  /** `new Logger(...)` for the shared instance: debug level in
      development, info level otherwise. */
  function NewLogger(development: bool): (lg: Logger)
    ensures lg.logs == []
    ensures Rank(lg.level) <= Rank(Info) && (lg.level == Debug <==> development)
  {
    Logger(if development then Debug else Info, [])
  }

  /** `shouldLog(level)` */
  predicate ShouldLog(lg: Logger, level: Level) {
    Rank(level) >= Rank(lg.level)
  }

  /** `logs.slice(-maxLogs)` once the buffer has grown past the limit. */
  function Newest(s: seq<Entry>): (r: seq<Entry>)
    ensures |r| <= MaxLogs && |r| <= |s|
    ensures |r| == if |s| > MaxLogs then MaxLogs else |s|
    ensures r == s[|s| - |r|..]
  {
    if |s| > MaxLogs then s[|s| - MaxLogs..] else s
  }

  /** `addLog(level, message, context, data)` at time `now`. */
  function Add(lg: Logger, level: Level, message: string, context: Option<string>, data: Option<Json>, now: int): (r: Logger)
    ensures r.level == lg.level
    ensures !ShouldLog(lg, level) ==> r == lg
    ensures ShouldLog(lg, level) ==> |r.logs| > 0 && r.logs[|r.logs| - 1] == Entry(level, message, now, context, data)
    ensures ShouldLog(lg, level) ==> r.logs == Newest(lg.logs + [Entry(level, message, now, context, data)])
    ensures |lg.logs| <= MaxLogs ==> |r.logs| <= MaxLogs
  {
    if !ShouldLog(lg, level) then lg
    else lg.(logs := Newest(lg.logs + [Entry(level, message, now, context, data)]))
  }

  /** `getLogs(level)`: the entries at or above `level` in order, or all. */
  function GetLogs(lg: Logger, level: Option<Level>): (r: seq<Entry>)
    ensures level.None? ==> r == lg.logs
    ensures level.Some? ==> forall e :: e in r <==> e in lg.logs && Rank(e.level) >= Rank(level.value)
    ensures level.Some? ==> forall e :: multiset(r)[e] == if Rank(e.level) >= Rank(level.value) then multiset(lg.logs)[e] else 0
    ensures IsSubsequence(r, lg.logs)
  {
    if level.None? then
      SubsequenceRefl(lg.logs);
      lg.logs
    else
      FilterIsSubsequence(lg.logs, (e: Entry) => Rank(e.level) >= Rank(level.value));
      FilterMultiset(lg.logs, (e: Entry) => Rank(e.level) >= Rank(level.value));
      Filter(lg.logs, (e: Entry) => Rank(e.level) >= Rank(level.value))
  }

  /** `arr.slice(start)` with a possibly negative start. */
  function SliceFrom(s: seq<Entry>, start: int): (r: seq<Entry>)
    ensures start < 0 ==> r == s[(if |s| + start < 0 then 0 else |s| + start)..]
    ensures start >= 0 ==> r == s[(if start > |s| then |s| else start)..]
  {
    if start < 0 then s[(if |s| + start < 0 then 0 else |s| + start)..]
    else s[(if start > |s| then |s| else start)..]
  }

  /** `getRecentLogs(count = 50)`: `slice(-count)`, so a count of 0 gives
      every entry and a negative count drops that many from the front. */
  function GetRecentLogs(lg: Logger, count: Option<int>): (r: seq<Entry>)
    ensures var n := count.GetOr(50); n > 0 ==> |r| == (if n < |lg.logs| then n else |lg.logs|)
    ensures var n := count.GetOr(50); n > 0 ==> r == lg.logs[|lg.logs| - |r|..]
    ensures count == Some(0) ==> r == lg.logs
    ensures var n := count.GetOr(50); n < 0 ==> r == lg.logs[(if -n > |lg.logs| then |lg.logs| else -n)..]
  {
    SliceFrom(lg.logs, -count.GetOr(50))
  }

  /** `clearLogs()` */
  function ClearLogs(lg: Logger): (r: Logger)
    ensures r.logs == [] && r.level == lg.level
  {
    lg.(logs := [])
  }

  /** `setLevel(level)`: the buffer is untouched. */
  function SetLevel(lg: Logger, level: Level): (r: Logger)
    ensures r.logs == lg.logs && r.level == level
  {
    lg.(level := level)
  }

  /** The public operations, for reasoning about sequences of calls. */
  datatype Op =
    | Log(level: Level, message: string, context: Option<string>, data: Option<Json>, now: int)
    | Clear
    | Relevel(level: Level)

  function Step(lg: Logger, op: Op): Logger {
    match op
    case Log(level, message, context, data, now) => Add(lg, level, message, context, data, now)
    case Clear => ClearLogs(lg)
    case Relevel(level) => SetLevel(lg, level)
  }

  function Run(lg: Logger, ops: seq<Op>): Logger
    decreases |ops|
  {
    if |ops| == 0 then lg else Run(Step(lg, ops[0]), ops[1..])
  }

  /** The same logger with no limit on its buffer: the reference. */
  function StepUnbounded(lg: Logger, op: Op): Logger {
    match op
    case Log(level, message, context, data, now) =>
      if ShouldLog(lg, level) then lg.(logs := lg.logs + [Entry(level, message, now, context, data)]) else lg
    case Clear => lg.(logs := [])
    case Relevel(level) => lg.(level := level)
  }

  function RunUnbounded(lg: Logger, ops: seq<Op>): Logger
    decreases |ops|
  {
    if |ops| == 0 then lg else RunUnbounded(StepUnbounded(lg, ops[0]), ops[1..])
  }

  /** Trimming before or after one more entry gives the same buffer. */
  lemma NewestAppend(s: seq<Entry>, e: Entry)
    ensures Newest(Newest(s) + [e]) == Newest(s + [e])
  {
    var t := Newest(s);
    var u := s + [e];
    assert t == u[|u| - 1 - |t|..|u| - 1];
    assert Newest(t + [e]) == u[|u| - |Newest(t + [e])|..];
  }

  /** After any sequence of calls the buffer holds exactly the newest 1000
      entries the unlimited logger would hold, in the same order. */
  lemma {:induction false} RunKeepsNewest(lg: Logger, full: Logger, ops: seq<Op>)
    requires lg.level == full.level && lg.logs == Newest(full.logs)
    ensures Run(lg, ops).level == RunUnbounded(full, ops).level
    ensures Run(lg, ops).logs == Newest(RunUnbounded(full, ops).logs)
    decreases |ops|
  {
    if |ops| > 0 {
      var op := ops[0];
      if op.Log? {
        NewestAppend(full.logs, Entry(op.level, op.message, op.now, op.context, op.data));
      }
      RunKeepsNewest(Step(lg, op), StepUnbounded(full, op), ops[1..]);
    }
  }

  /** A logger started empty never holds more than 1000 entries: the
      newest of those an unlimited buffer would hold. */
  lemma RunFromNew(development: bool, ops: seq<Op>)
    ensures |Run(NewLogger(development), ops).logs| <= MaxLogs
    ensures Run(NewLogger(development), ops).logs == Newest(RunUnbounded(NewLogger(development), ops).logs)
  {
    RunKeepsNewest(NewLogger(development), NewLogger(development), ops);
  }
}
