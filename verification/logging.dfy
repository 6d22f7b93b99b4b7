/**
 The buffered console logger: writes go to a buffer, and a periodic timer
 tick dumps the buffer to the console once enough writes have accumulated,
 or once enough ticks have been skipped. Direct writes flush first.

 The console is the text written to it so far. The timer is two facts: the
 logger's own `TimerStopped` flag, and whether the timer is actually enabled;
 the two can disagree (see `WriteRestartsTimerBehindStop`). A tick is an
 explicit call, possible only while the timer is enabled.
 */
module Logging {
  import opened Results

  newtype int32 = x: int | -0x8000_0000 <= x < 0x8000_0000

  const MaxInt32: int32 := 0x7FFF_FFFF

  /** `x++` on a 32-bit integer, wrapping at the top. */
  function Increment(x: int32): (r: int32)
    ensures x < MaxInt32 ==> r as int == x as int + 1
    ensures x == MaxInt32 ==> r as int == -0x8000_0000
  {
    if x == MaxInt32 then -0x8000_0000 else x + 1
  }

  /** The line terminator `AppendLine` and `Console.WriteLine` add (Windows). */
  const NewLine: string := "\r\n"

  datatype Logger = Logger(
    buffer: string,
    console: string,
    writeCount: int32,
    writeSkipCount: int32,
    writeThreshold: int32,
    forceWriteThreshold: int32,
    intervalSeconds: int32,
    timerStopped: bool,
    timerEnabled: bool,
    timerDisposed: bool,
    bufferDumped: bool,
    disposed: bool)

  /** Everything the program has asked to print and not cleared, in order. */
  function Transcript(l: Logger): string {
    l.console + l.buffer
  }

  /** The timer can be started: starting a disposed timer throws. */
  predicate CanStartTimer(l: Logger) {
    l.timerStopped ==> !l.timerDisposed
  }

  /**
   A timer interval the .NET timer accepts: at least one millisecond and at
   most `int.MaxValue` milliseconds, the interval being given in seconds.
   */
  predicate ValidInterval(intervalSeconds: int32) {
    1 <= intervalSeconds as int && intervalSeconds as int * 1000 <= MaxInt32 as int
  }

  /** The exception the constructor can raise. */
  datatype LoggerError = IntervalOutOfRange

  /**
   The constructor: nothing buffered, nothing written, the timer stopped; it
   is started at once when `start` is set. Building the timer raises for an
   interval it does not accept.
   */
  function New(writeThreshold: int32, intervalSeconds: int32, forceWriteThreshold: int32, start: bool)
    : (r: Result<Logger, LoggerError>)
    ensures r.Failure? <==> !ValidInterval(intervalSeconds)
    ensures r.Failure? ==> r.error == IntervalOutOfRange
    ensures r.Success? ==>
              var l := r.value;
              && l.buffer == "" && l.console == "" && l.writeCount == 0 && l.writeSkipCount == 0
              && l.writeThreshold == writeThreshold && l.forceWriteThreshold == forceWriteThreshold
              && l.intervalSeconds == intervalSeconds
              && l.bufferDumped && !l.disposed && !l.timerDisposed
              && l.timerEnabled == start && l.timerStopped == !start
  {
    if !ValidInterval(intervalSeconds) then Failure(IntervalOutOfRange)
    else
      var l := Logger("", "", 0, 0, writeThreshold, forceWriteThreshold, intervalSeconds, true, false, false, true, false);
      Success(if start then Start(l) else l)
  }

  /** `DumpBuffer`: the buffer goes to the console, whole and in order, and is emptied. */
  function DumpBuffer(l: Logger): (r: Logger)
    ensures r.console == l.console + l.buffer && r.buffer == ""
    ensures Transcript(r) == Transcript(l)
    ensures r.bufferDumped
    ensures r == l.(console := r.console, buffer := "", bufferDumped := true)
  {
    l.(console := l.console + l.buffer, buffer := "", bufferDumped := true)
  }

  /** `Flush` is `DumpBuffer` and nothing else: the write count survives it. */
  function Flush(l: Logger): (r: Logger)
    ensures r.console == l.console + l.buffer && r.buffer == "" && r.bufferDumped
    ensures r.writeCount == l.writeCount && r.writeSkipCount == l.writeSkipCount
  {
    DumpBuffer(l)
  }

  /**
   `ThresholdBufferDump`: below the write threshold a tick is skipped until
   `ForceWriteThreshold` ticks have been skipped, then the skip count restarts
   and the buffer is dumped. At or above the threshold it always dumps. A
   dump zeroes the write count.
   */
  function ThresholdBufferDump(l: Logger): (r: Logger)
    ensures Transcript(r) == Transcript(l)
    ensures l.writeCount >= l.writeThreshold ==>
              r == DumpBuffer(l).(writeCount := 0)
    ensures l.writeCount < l.writeThreshold && l.writeSkipCount < l.forceWriteThreshold ==>
              r == l.(writeSkipCount := r.writeSkipCount) && r.writeSkipCount as int == l.writeSkipCount as int + 1
    ensures l.writeCount < l.writeThreshold && l.writeSkipCount >= l.forceWriteThreshold ==>
              r == DumpBuffer(l).(writeCount := 0, writeSkipCount := 0)
    ensures r.console != l.console ==> r.writeCount == 0
  {
    if l.writeCount < l.writeThreshold && l.writeSkipCount < l.forceWriteThreshold then
      l.(writeSkipCount := l.writeSkipCount + 1)
    else
      var l1 := if l.writeCount < l.writeThreshold then l.(writeSkipCount := 0) else l;
      DumpBuffer(l1).(writeCount := 0)
  }

  /**
   `TimedBufferDump`, the timer's tick: with nothing new buffered it only
   stops the timer, and only if the logger believes it running; otherwise it
   defers to `ThresholdBufferDump`.
   */
  function Tick(l: Logger): (r: Logger)
    requires l.timerEnabled
    ensures Transcript(r) == Transcript(l)
    ensures l.bufferDumped ==> r.console == l.console && r.buffer == l.buffer && r.bufferDumped
    ensures l.bufferDumped ==> r.writeCount == l.writeCount && r.writeSkipCount == l.writeSkipCount
    ensures l.bufferDumped ==> (r.timerEnabled <==> l.timerStopped) && r.timerStopped
    ensures !l.bufferDumped ==> r == ThresholdBufferDump(l)
  {
    if l.bufferDumped then
      if !l.timerStopped then l.(timerEnabled := false, timerStopped := true) else l
    else ThresholdBufferDump(l)
  }

  /**
   `UpdateBufferState`: one more write, the buffer is no longer dumped, and a
   timer the logger believes stopped is started again, though the flag that
   says so is left as it was.
   */
  function UpdateBufferState(l: Logger): (r: Logger)
    requires CanStartTimer(l)
    ensures r.writeCount == Increment(l.writeCount) && !r.bufferDumped
    ensures r.timerEnabled == (l.timerStopped || l.timerEnabled) && r.timerStopped == l.timerStopped
    ensures r.buffer == l.buffer && r.console == l.console && r.writeSkipCount == l.writeSkipCount
  {
    var l1 := l.(writeCount := Increment(l.writeCount), bufferDumped := false);
    if l.timerStopped then l1.(timerEnabled := true) else l1
  }

  /** `Write`: the text is buffered, not printed. */
  function Write(l: Logger, value: string): (r: Logger)
    requires CanStartTimer(l)
    ensures Transcript(r) == Transcript(l) + value && r.console == l.console
    ensures r.writeCount == Increment(l.writeCount) && !r.bufferDumped
    ensures l.timerStopped ==> r.timerEnabled && r.timerStopped
  {
    UpdateBufferState(l.(buffer := l.buffer + value))
  }

  /** `WriteLine(value)`: the text and a line terminator are buffered. */
  function WriteLine(l: Logger, value: string): (r: Logger)
    requires CanStartTimer(l)
    ensures Transcript(r) == Transcript(l) + value + NewLine && r.console == l.console
    ensures r.writeCount == Increment(l.writeCount) && !r.bufferDumped
    ensures l.timerStopped ==> r.timerEnabled && r.timerStopped
  {
    UpdateBufferState(l.(buffer := l.buffer + value + NewLine))
  }

  /** `WriteLine()`: a bare line terminator is buffered. */
  function WriteEmptyLine(l: Logger): (r: Logger)
    requires CanStartTimer(l)
    ensures Transcript(r) == Transcript(l) + NewLine && r.console == l.console
    ensures r.writeCount == Increment(l.writeCount) && !r.bufferDumped
    ensures l.timerStopped ==> r.timerEnabled && r.timerStopped
  {
    UpdateBufferState(l.(buffer := l.buffer + NewLine))
  }

  /** `DirectWrite`: buffered text is flushed first, so the text lands after it. */
  function DirectWrite(l: Logger, value: string): (r: Logger)
    ensures r.console == l.console + l.buffer + value && r.buffer == ""
    ensures Transcript(r) == Transcript(l) + value
    ensures r.writeCount == l.writeCount && r.bufferDumped
  {
    var l1 := Flush(l);
    l1.(console := l1.console + value)
  }

  /** `DirectWriteLine(value)`. */
  function DirectWriteLine(l: Logger, value: string): (r: Logger)
    ensures r.console == l.console + l.buffer + value + NewLine && r.buffer == ""
    ensures Transcript(r) == Transcript(l) + value + NewLine
    ensures r.writeCount == l.writeCount && r.bufferDumped
  {
    var l1 := Flush(l);
    l1.(console := l1.console + value + NewLine)
  }

  /** `DirectWriteLine()`. */
  function DirectWriteEmptyLine(l: Logger): (r: Logger)
    ensures r.console == l.console + l.buffer + NewLine && r.buffer == ""
    ensures Transcript(r) == Transcript(l) + NewLine
    ensures r.writeCount == l.writeCount && r.bufferDumped
  {
    var l1 := Flush(l);
    l1.(console := l1.console + NewLine)
  }

  /** `Clear`: the buffer is discarded unprinted and the write count zeroed. */
  function Clear(l: Logger): (r: Logger)
    ensures r.console == l.console && r.buffer == "" && Transcript(r) == l.console
    ensures r.writeCount == 0 && r.bufferDumped && r.writeSkipCount == l.writeSkipCount
  {
    l.(bufferDumped := true, buffer := "", writeCount := 0)
  }

  /** `Start`: acts only when the logger believes the timer stopped. */
  function Start(l: Logger): (r: Logger)
    requires CanStartTimer(l)
    ensures !r.timerStopped
    ensures l.timerStopped ==> r.timerEnabled
    ensures !l.timerStopped ==> r == l
    ensures Transcript(r) == Transcript(l) && r.console == l.console
  {
    if l.timerStopped then l.(timerEnabled := true, timerStopped := false) else l
  }

  /** `Stop`: acts only when the logger believes the timer running. */
  function Stop(l: Logger): (r: Logger)
    ensures r.timerStopped
    ensures !l.timerStopped ==> !r.timerEnabled
    ensures l.timerStopped ==> r == l
    ensures Transcript(r) == Transcript(l) && r.console == l.console
  {
    if !l.timerStopped then l.(timerEnabled := false, timerStopped := true) else l
  }

  /**
   `Dispose`: the first call flushes, stops and disposes the timer, then
   clears; every later call does nothing.
   */
  function Dispose(l: Logger): (r: Logger)
    ensures r.disposed
    ensures !l.disposed ==> r.timerDisposed && !r.timerEnabled && r.timerStopped
    ensures !l.disposed ==> r.console == l.console + l.buffer && r.buffer == "" && r.writeCount == 0
    ensures l.disposed ==> r == l
  {
    if l.disposed then l
    else
      var l1 := Stop(Flush(l)).(timerDisposed := true, timerEnabled := false);
      Clear(l1).(disposed := true)
  }

  lemma DisposeIdempotent(l: Logger)
    requires !l.disposed
    ensures Dispose(Dispose(l)) == Dispose(l)
    ensures Dispose(l).console == l.console + l.buffer
  {
  }

  /**
   The quirk in `UpdateBufferState`: on a logger built without starting, a
   write enables the timer while `TimerStopped` stays set, so `Stop` cannot
   disable it and ticks on a dumped buffer never pause it.
   */
  lemma WriteRestartsTimerBehindStop(writeThreshold: int32, intervalSeconds: int32, forceWriteThreshold: int32, value: string)
    requires ValidInterval(intervalSeconds)
    ensures
      var l := Write(New(writeThreshold, intervalSeconds, forceWriteThreshold, false).value, value);
      && l.timerEnabled && l.timerStopped
      && Stop(l).timerEnabled
      && Tick(Flush(l)).timerEnabled
  {
  }

  /**
   The skip count is never negative and never passes `ForceWriteThreshold`,
   unless that threshold is negative, when it stays at zero.
   */
  predicate SkipsBounded(l: Logger) {
    0 <= l.writeSkipCount && (l.writeSkipCount <= l.forceWriteThreshold || l.writeSkipCount == 0)
  }

  /** One call to the logger, as a caller would make it. */
  datatype Call =
    | CallWrite(text: string)
    | CallWriteLine(text: string)
    | CallWriteEmptyLine
    | CallDirectWrite(text: string)
    | CallDirectWriteLine(text: string)
    | CallDirectWriteEmptyLine
    | CallFlush
    | CallStart
    | CallStop
    | TimerTick   // delivered only while the timer is enabled

  /** The text a call asks to print. */
  function CallText(c: Call): string {
    match c
    case CallWrite(t) => t
    case CallWriteLine(t) => t + NewLine
    case CallWriteEmptyLine => NewLine
    case CallDirectWrite(t) => t
    case CallDirectWriteLine(t) => t + NewLine
    case CallDirectWriteEmptyLine => NewLine
    case _ => ""
  }

  function Texts(calls: seq<Call>): string {
    if |calls| == 0 then "" else CallText(calls[0]) + Texts(calls[1..])
  }

  /** The effect of one call on a logger whose timer is not disposed. */
  function Apply(l: Logger, c: Call): (r: Logger)
    requires !l.timerDisposed
    ensures !r.timerDisposed
    ensures Transcript(r) == Transcript(l) + CallText(c)
  {
    match c
    case CallWrite(t) => Write(l, t)
    case CallWriteLine(t) => WriteLine(l, t)
    case CallWriteEmptyLine => WriteEmptyLine(l)
    case CallDirectWrite(t) => DirectWrite(l, t)
    case CallDirectWriteLine(t) => DirectWriteLine(l, t)
    case CallDirectWriteEmptyLine => DirectWriteEmptyLine(l)
    case CallFlush => Flush(l)
    case CallStart => Start(l)
    case CallStop => Stop(l)
    case TimerTick => if l.timerEnabled then Tick(l) else l
  }

  /** Only a threshold dump moves the skip count, and it keeps it within bounds. */
  lemma ApplyKeepsSkipsBounded(l: Logger, c: Call)
    requires !l.timerDisposed && SkipsBounded(l)
    ensures SkipsBounded(Apply(l, c))
  {
    match c
    case TimerTick =>
      if l.timerEnabled && !l.bufferDumped {
        var r := ThresholdBufferDump(l);
        assert r.forceWriteThreshold == l.forceWriteThreshold;
      }
    case _ =>
  }

  function Run(l: Logger, calls: seq<Call>): (r: Logger)
    requires !l.timerDisposed
    ensures !r.timerDisposed
    decreases |calls|
  {
    if |calls| == 0 then l else Run(Apply(l, calls[0]), calls[1..])
  }

  /**
   Output order is call order: whatever the ticks did, the console followed
   by the buffer is the earlier text followed by the calls' texts in order.
   */
  lemma {:induction false} TranscriptInCallOrder(l: Logger, calls: seq<Call>)
    requires !l.timerDisposed
    ensures Transcript(Run(l, calls)) == Transcript(l) + Texts(calls)
    decreases |calls|
  {
    if |calls| > 0 {
      TranscriptInCallOrder(Apply(l, calls[0]), calls[1..]);
    }
  }

  /** After a final flush the console holds everything, in call order. */
  lemma FlushedConsoleInCallOrder(l: Logger, calls: seq<Call>)
    requires !l.timerDisposed
    ensures Flush(Run(l, calls)).console == l.console + l.buffer + Texts(calls)
  {
    TranscriptInCallOrder(l, calls);
  }

  /** No sequence of calls pushes the skip count past `ForceWriteThreshold`. */
  lemma {:induction false} SkipsStayBounded(l: Logger, calls: seq<Call>)
    requires !l.timerDisposed && SkipsBounded(l)
    ensures SkipsBounded(Run(l, calls))
    decreases |calls|
  {
    if |calls| > 0 {
      ApplyKeepsSkipsBounded(l, calls[0]);
      SkipsStayBounded(Apply(l, calls[0]), calls[1..]);
    }
  }
}
