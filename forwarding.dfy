/**
 * The forwarding thread of the addons manager: every indexing callback is put on a FIFO queue
 * and replayed, in order, on the wrapped callback by one consumer; the messages are also
 * written to an optional log file whose writer is flushed once about 1000 characters of
 * messages have accumulated.
 */
module Forwarding {
  import opened Common
  import AddonStages

  /** One callback of the indexing listener; an addon handle is represented by the addon's name. */
  datatype Notice =
    | StartedIndex
    | IndexStartedForAddon(addon: string)
    | TotalWorkProgress(addon: string, progress: real)
    | CurrentWorkProgress(addon: string, progress: real)
    | Message(addon: string, text: string)
    | ErrorMessage(errorAddon: Option<string>, text: string, exception: Option<string>)
    | WarningMessage(addon: string, text: string, exception: Option<string>)
    | StepStart(addon: string, step: AddonStages.Step)
    | StepFinish(addon: string, step: AddonStages.Step)
    | IndexFinishedForAddon(addon: string)
    | FinishedIndex

  /** An entry of the forwarding queue: a callback to replay, or the sentinel that ends the consumer. */
  datatype Item = Forward(notice: Notice) | ExitThread

  /** The notices a consumer replays from `q`: those queued before the first sentinel. */
  function UntilExit(q: seq<Item>): (r: seq<Notice>)
    ensures |r| <= |q|
    ensures q != [] && q[0].ExitThread? ==> r == []
    ensures forall n :: Forward(n) in q && ExitThread !in q ==> n in r
  {
    if q == [] then []
    else if q[0].ExitThread? then []
    else [q[0].notice] + UntilExit(q[1..])
  }

  /** What is left on the queue once the consumer has taken the first sentinel. */
  function AfterExit(q: seq<Item>): (r: seq<Item>)
    ensures |r| < |q| || (r == [] && q == [])
  {
    if q == [] then []
    else if q[0].ExitThread? then q[1..]
    else AfterExit(q[1..])
  }

  function Notices(q: seq<Item>): (r: seq<Notice>)
    ensures |r| <= |q|
  {
    if q == [] then []
    else (if q[0].Forward? then [q[0].notice] else []) + Notices(q[1..])
  }

  /** Closing the queue after the producers are done replays everything they queued, in order. */
  lemma {:induction false} CloseDeliversEverything(q: seq<Item>)
    requires ExitThread !in q
    ensures UntilExit(q + [ExitThread]) == Notices(q)
    ensures AfterExit(q + [ExitThread]) == []
  {
    if q != [] {
      assert (q + [ExitThread])[1..] == q[1..] + [ExitThread];
      CloseDeliversEverything(q[1..]);
    }
  }

  /** Whatever is queued after the sentinel is never replayed by that consumer. */
  lemma {:induction false} NothingAfterExitIsDelivered(q: seq<Item>, later: seq<Item>)
    requires ExitThread in q
    ensures UntilExit(q + later) == UntilExit(q)
    ensures AfterExit(q + later) == AfterExit(q) + later
  {
    if q[0].ExitThread? {
      assert (q + later)[1..] == q[1..] + later;
    } else {
      assert (q + later)[1..] == q[1..] + later;
      NothingAfterExitIsDelivered(q[1..], later);
    }
  }

  /** The characters the writer counts for a run of lines: each message and its newline. */
  function PendingSize(lines: seq<string>): (n: nat)
    ensures n >= |lines|
  {
    if lines == [] then 0 else PendingSize(lines[..|lines| - 1]) + |lines[|lines| - 1]| + 1
  }

  const FlushThreshold: int := 1000

  /** The log writer seen from outside: the lines it accepted, how many were flushed, and the count since the last flush. */
  datatype LogState = LogState(written: seq<string>, flushedCount: nat, bufferSize: int)

  /**
   * One `log` call: nothing without a writer (`present`); otherwise the line is written while the
   * writer is still open, its characters plus the newline are counted, and at the threshold the
   * writer is flushed and the count restarts.
   */
  function Logged(present: bool, open: bool, s: LogState, message: string): LogState
  {
    if !present then s
    else
      var lines := if open then s.written + [message] else s.written;
      var size := s.bufferSize + |message| + 1;
      if size >= FlushThreshold then LogState(lines, if open then |lines| else s.flushedCount, 0)
      else LogState(lines, s.flushedCount, size)
  }

  /** `log` called on each of `lines` in turn. */
  function LoggedAll(present: bool, open: bool, s: LogState, lines: seq<string>): LogState
    decreases |lines|
  {
    if lines == [] then s else LoggedAll(present, open, Logged(present, open, s, lines[0]), lines[1..])
  }

  /** The lines `logError` and `logWarning` ask to log: the prefixed message, then the exception's text. */
  function ReportLines(prefix: string, message: string, exception: Option<string>): (r: seq<string>)
    ensures |r| == if exception.Some? then 2 else 1
    ensures r[0] == prefix + message && (exception.Some? ==> r[1] == exception.value)
  {
    [prefix + message] + (if exception.Some? then [exception.value] else [])
  }

  /** Logging a run of lines through an open writer writes exactly those lines, in order. */
  lemma {:induction false} LoggedAllWrites(present: bool, open: bool, s: LogState, lines: seq<string>)
    ensures LoggedAll(present, open, s, lines).written == if present && open then s.written + lines else s.written
    decreases |lines|
  {
    if lines != [] {
      var next := Logged(present, open, s, lines[0]);
      LoggedAllWrites(present, open, next, lines[1..]);
      if present && open {
        assert next.written == s.written + [lines[0]];
        AppendAssoc(s.written, [lines[0]], lines[1..]);
        assert [lines[0]] + lines[1..] == lines;
      }
    }
  }

  /**
   * The writer's count is always the size of the lines written since the last flush, and stays
   * below the threshold: each `log` call keeps this.
   */
  ghost predicate CountMatches(s: LogState)
  {
    0 <= s.bufferSize < FlushThreshold && s.flushedCount <= |s.written|
    && s.bufferSize == PendingSize(s.written[s.flushedCount..])
  }

  lemma {:induction false} LoggedAllKeepsCount(s: LogState, lines: seq<string>)
    requires CountMatches(s)
    ensures CountMatches(LoggedAll(true, true, s, lines))
    decreases |lines|
  {
    if lines != [] {
      var next := Logged(true, true, s, lines[0]);
      var pending := s.written[s.flushedCount..];
      assert next.written[s.flushedCount..] == pending + [lines[0]];
      assert (pending + [lines[0]])[..|pending + [lines[0]]| - 1] == pending;
      assert next.written[next.flushedCount..] == [] || next.flushedCount == s.flushedCount;
      LoggedAllKeepsCount(next, lines[1..]);
    }
  }

  class ForwardingThread {
    /** The queue between the producers and the forwarding consumer. */
    var queue: seq<Item>
    /** The callbacks the wrapped listener has received, in order. */
    var delivered: seq<Notice>
    /** A log file was given and its writer could be opened. */
    const hasLogger: bool
    /** The writer exists and has not been closed. */
    var loggerOpen: bool
    /** The messages the writer accepted, one per line, and how many of them were flushed. */
    var written: seq<string>
    var flushedCount: nat
    var loggerBufferSize: int

    ghost predicate Valid()
      reads this
    {
      0 <= loggerBufferSize < FlushThreshold
      && flushedCount <= |written|
      && (!hasLogger ==> !loggerOpen && written == [] && loggerBufferSize == 0)
      && (loggerOpen ==> loggerBufferSize == PendingSize(written[flushedCount..]))
    }

    function Snapshot(): LogState
      reads this
    {
      LogState(written, flushedCount, loggerBufferSize)
    }

    constructor(loggerOpened: bool)
      ensures Valid()
      ensures hasLogger == loggerOpened && loggerOpen == loggerOpened
      ensures queue == [] && delivered == [] && written == [] && flushedCount == 0
    {
      hasLogger := loggerOpened;
      loggerOpen := loggerOpened;
      queue := [];
      delivered := [];
      written := [];
      flushedCount := 0;
      loggerBufferSize := 0;
    }

    /** One of the forwarding callbacks that does not log: it only queues the notice. */
    method Notify(n: Notice)
      modifies this
      ensures queue == old(queue) + [Forward(n)]
      ensures delivered == old(delivered) && written == old(written) && flushedCount == old(flushedCount)
      ensures loggerBufferSize == old(loggerBufferSize) && loggerOpen == old(loggerOpen)
    {
      queue := queue + [Forward(n)];
    }

    /**
     * Writes one message line and counts its characters plus the newline; once the count
     * reaches the threshold the writer is flushed and the count starts again. No writer: nothing.
     */
    method Log(message: string)
      requires Valid()
      modifies this
      ensures Valid()
      ensures !hasLogger ==> written == old(written) && loggerBufferSize == 0
      ensures written == if loggerOpen then old(written) + [message] else old(written)
      ensures hasLogger ==> (loggerBufferSize ==
        if old(loggerBufferSize) + |message| + 1 >= FlushThreshold then 0 else old(loggerBufferSize) + |message| + 1)
      ensures flushedCount ==
        (if hasLogger && loggerOpen && old(loggerBufferSize) + |message| + 1 >= FlushThreshold then |written|
         else old(flushedCount))
      ensures queue == old(queue) && delivered == old(delivered) && loggerOpen == old(loggerOpen)
      ensures Snapshot() == Logged(hasLogger, loggerOpen, old(Snapshot()), message)
    {
      if !hasLogger {
        return;
      }
      if loggerOpen {
        var pending := written[flushedCount..];
        written := written + [message];
        assert written[flushedCount..] == pending + [message];
        assert (pending + [message])[..|pending + [message]| - 1] == pending;
      }
      loggerBufferSize := loggerBufferSize + |message| + 1;
      if loggerBufferSize >= FlushThreshold {
        if loggerOpen {
          flushedCount := |written|;
          assert written[flushedCount..] == [];
        }
        loggerBufferSize := 0;
      }
    }

    /** logError: the message prefixed with "[ERROR] ", then the exception's text when there is one. */
    method LogError(message: string, exception: Option<string>)
      requires Valid()
      modifies this
      ensures Valid()
      ensures written == old(written) + (if loggerOpen then ReportLines("[ERROR] ", message, exception) else [])
      ensures Snapshot() == LoggedAll(hasLogger, loggerOpen, old(Snapshot()), ReportLines("[ERROR] ", message, exception))
      ensures queue == old(queue) && delivered == old(delivered) && loggerOpen == old(loggerOpen)
    {
      ghost var before := Snapshot();
      var lines := ReportLines("[ERROR] ", message, exception);
      Log("[ERROR] " + message);
      ghost var middle := Snapshot();
      if exception.Some? {
        Log(exception.value);
        assert lines[1..][1..] == [];
        assert LoggedAll(hasLogger, loggerOpen, middle, lines[1..]) == Snapshot();
      } else {
        assert lines[1..] == [];
        assert LoggedAll(hasLogger, loggerOpen, middle, lines[1..]) == Snapshot();
      }
      assert LoggedAll(hasLogger, loggerOpen, before, lines) == LoggedAll(hasLogger, loggerOpen, middle, lines[1..]);
      LoggedAllWrites(hasLogger, loggerOpen, before, lines);
    }

    /** logWarning: the message prefixed with "[WARNING] ", then the exception's text when there is one. */
    method LogWarning(message: string, exception: Option<string>)
      requires Valid()
      modifies this
      ensures Valid()
      ensures written == old(written) + (if loggerOpen then ReportLines("[WARNING] ", message, exception) else [])
      ensures Snapshot() == LoggedAll(hasLogger, loggerOpen, old(Snapshot()), ReportLines("[WARNING] ", message, exception))
      ensures queue == old(queue) && delivered == old(delivered) && loggerOpen == old(loggerOpen)
    {
      ghost var before := Snapshot();
      var lines := ReportLines("[WARNING] ", message, exception);
      Log("[WARNING] " + message);
      ghost var middle := Snapshot();
      if exception.Some? {
        Log(exception.value);
        assert lines[1..][1..] == [];
        assert LoggedAll(hasLogger, loggerOpen, middle, lines[1..]) == Snapshot();
      } else {
        assert lines[1..] == [];
        assert LoggedAll(hasLogger, loggerOpen, middle, lines[1..]) == Snapshot();
      }
      assert LoggedAll(hasLogger, loggerOpen, before, lines) == LoggedAll(hasLogger, loggerOpen, middle, lines[1..]);
      LoggedAllWrites(hasLogger, loggerOpen, before, lines);
    }

    /** message: logged as is, then queued. */
    method ForwardMessage(addon: string, text: string)
      requires Valid()
      modifies this
      ensures Valid()
      ensures queue == old(queue) + [Forward(Message(addon, text))]
      ensures written == old(written) + (if loggerOpen then [text] else [])
      ensures Snapshot() == Logged(hasLogger, loggerOpen, old(Snapshot()), text)
      ensures delivered == old(delivered) && loggerOpen == old(loggerOpen)
    {
      Log(text);
      queue := queue + [Forward(Message(addon, text))];
    }

    /** errorMessage (with or without an addon handle): logged as an error, then queued. */
    method ForwardErrorMessage(addon: Option<string>, text: string, exception: Option<string>)
      requires Valid()
      modifies this
      ensures Valid()
      ensures queue == old(queue) + [Forward(ErrorMessage(addon, text, exception))]
      ensures written == old(written) + (if loggerOpen then ReportLines("[ERROR] ", text, exception) else [])
      ensures Snapshot() == LoggedAll(hasLogger, loggerOpen, old(Snapshot()), ReportLines("[ERROR] ", text, exception))
      ensures delivered == old(delivered) && loggerOpen == old(loggerOpen)
    {
      LogError(text, exception);
      queue := queue + [Forward(ErrorMessage(addon, text, exception))];
    }

    /** warningMessage: logged as a warning, then queued. */
    method ForwardWarningMessage(addon: string, text: string, exception: Option<string>)
      requires Valid()
      modifies this
      ensures Valid()
      ensures queue == old(queue) + [Forward(WarningMessage(addon, text, exception))]
      ensures written == old(written) + (if loggerOpen then ReportLines("[WARNING] ", text, exception) else [])
      ensures Snapshot() == LoggedAll(hasLogger, loggerOpen, old(Snapshot()), ReportLines("[WARNING] ", text, exception))
      ensures delivered == old(delivered) && loggerOpen == old(loggerOpen)
    {
      LogWarning(text, exception);
      queue := queue + [Forward(WarningMessage(addon, text, exception))];
    }

    /** closeThread: queue the sentinel, then flush and close the writer if there is one. */
    method CloseThread()
      requires Valid()
      modifies this
      ensures Valid()
      ensures queue == old(queue) + [ExitThread]
      ensures !loggerOpen && flushedCount == (if old(loggerOpen) then |written| else old(flushedCount))
      ensures written == old(written) && delivered == old(delivered)
      ensures loggerBufferSize == old(loggerBufferSize)
    {
      queue := queue + [ExitThread];
      if loggerOpen {
        flushedCount := |written|;
        loggerOpen := false;
      }
    }

    /**
     * run: take items in queue order and replay each on the wrapped listener until the sentinel
     * is taken. When the queue runs dry first, the consumer is left waiting for more
     * (`exited` is false).
     */
    method Run() returns (exited: bool)
      modifies this
      ensures delivered == old(delivered) + UntilExit(old(queue))
      ensures exited <==> ExitThread in old(queue)
      ensures queue == AfterExit(old(queue))
      ensures written == old(written) && flushedCount == old(flushedCount)
      ensures loggerOpen == old(loggerOpen) && loggerBufferSize == old(loggerBufferSize)
    {
      while queue != []
        invariant old(delivered) + UntilExit(old(queue)) == delivered + UntilExit(queue)
        invariant AfterExit(queue) == AfterExit(old(queue))
        invariant (ExitThread in old(queue)) <==> (ExitThread in queue)
        invariant written == old(written) && flushedCount == old(flushedCount)
        invariant loggerOpen == old(loggerOpen) && loggerBufferSize == old(loggerBufferSize)
        decreases |queue|
      {
        var take := queue[0];
        assert queue == [take] + queue[1..];
        queue := queue[1..];
        if take.ExitThread? {
          return true;
        }
        assert UntilExit([take] + queue) == [take.notice] + UntilExit(queue);
        AppendAssoc(delivered, [take.notice], UntilExit(queue));
        delivered := delivered + [take.notice];
      }
      return false;
    }
  }
}
