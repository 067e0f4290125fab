/**
 The asynchronous writer behind stdout and stderr on Windows: a caller, a writer thread and a
 completion port share a handle under one monitor. Each step below is one critical section.
 */
module StdWriter {
  import opened Basics

  type Byte = x: int | 0 <= x < 256

  const BUFFER_SIZE := 64 * 1024

  datatype ThreadAt = Absent | Starting | Asleep | Woken
  datatype CallerAt = Idle | AwaitingThread(offered: nat)

  /** `stream` is all that the caller ever wants written; `acked` counts the bytes Write has returned. */
  datatype State = State(
    stream: seq<Byte>,
    acked: nat,
    output: seq<Byte>,
    pendingWrite: Option<seq<Byte>>,
    threadWrote: nat,
    threadExists: bool,
    threadRunning: bool,
    thread: ThreadAt,
    caller: CallerAt,
    completions: nat)

  function Start(stream: seq<Byte>): State {
    State(stream, 0, [], None, 0, false, false, Absent, Idle, 0)
  }

  datatype Step =
    | Write(numBytes: nat)          // the caller offers bytes from its first unacknowledged one
    | ThreadStarts                  // RunWriteLoop up to its first Wait
    | WriteContinues                // Write, after waiting for the thread to start
    | ThreadRuns(written: nat)      // the thread wakes; WriteFile writes this much, 0 when it fails
    | WriteComplete
    | IdleWake                      // the thread wakes without notification while nothing is pending

  function Min(a: nat, b: nat): nat { if a < b then a else b }

  predicate Enabled(s: State, step: Step) {
    match step
    case Write(n) => s.caller.Idle? && s.acked + n <= |s.stream|
    case ThreadStarts => s.thread.Starting?
    case WriteContinues => s.caller.AwaitingThread? && s.threadRunning && s.acked + s.caller.offered <= |s.stream|
    case ThreadRuns(written) => s.thread.Woken? && (s.pendingWrite.Some? ==> written <= |s.pendingWrite.value|)
    case WriteComplete => s.completions > 0
    case IdleWake => s.thread.Asleep? && s.pendingWrite.None?
  }

  /** Hands a buffer to the thread; the notification is lost unless the thread sleeps. */
  function Queue(s: State, n: nat): State
    requires s.acked + n <= |s.stream|
  {
    s.(pendingWrite := Some(s.stream[s.acked..s.acked + n]),
       thread := if s.thread.Asleep? then Woken else s.thread, caller := Idle)
  }

  function Apply(s: State, step: Step): State
    requires Enabled(s, step)
  {
    match step
    case Write(numBytes) =>
      if s.pendingWrite.Some? then s
      else
        var n := Min(numBytes, BUFFER_SIZE);
        if s.threadWrote > 0 then
          var k := Min(n, s.threadWrote);
          s.(threadWrote := s.threadWrote - k, acked := s.acked + k)
        else if !s.threadExists then
          s.(threadExists := true, thread := Starting, caller := AwaitingThread(n))
        else Queue(s, n)
    case ThreadStarts => s.(threadRunning := true, thread := Asleep)
    case WriteContinues => Queue(s, s.caller.offered)
    case ThreadRuns(written) =>
      if s.pendingWrite.None? then s.(thread := Asleep)
      else s.(thread := Asleep, output := s.output + s.pendingWrite.value[..written],
              threadWrote := s.threadWrote + written, completions := s.completions + 1)
    case WriteComplete => s.(pendingWrite := None, completions := s.completions - 1)
    case IdleWake => s.(thread := Woken)
  }

  /** The handle has received exactly the acknowledged bytes and those written but not yet acknowledged. */
  ghost predicate OutputExact(s: State) {
    s.acked + s.threadWrote <= |s.stream| && s.output == s.stream[..s.acked + s.threadWrote]
  }

  ghost predicate Inv(s: State) {
    && OutputExact(s)
    && (s.threadExists <==> !s.thread.Absent?) && (s.thread.Absent? ==> s.threadWrote == 0)
    && (s.threadRunning <==> s.thread.Asleep? || s.thread.Woken?)
    && (match s.pendingWrite
        case None => s.completions == 0
        case Some(_) =>
          && s.caller.Idle? && Pending(s)
          && (if s.thread.Woken? then s.completions == 0 && s.threadWrote == 0
              else s.thread.Asleep? && s.completions == 1))
    && (match s.caller
        case Idle => !s.thread.Starting?
        case AwaitingThread(n) => s.threadExists && s.threadWrote == 0 && s.acked + n <= |s.stream|)
  }

  lemma StepKeepsInv(s: State, step: Step)
    requires Inv(s) && Enabled(s, step)
    ensures Inv(Apply(s, step)) && Apply(s, step).stream == s.stream
  {
    if step.ThreadRuns? && s.pendingWrite.Some? {
      var a, b := s.acked, s.pendingWrite.value;
      assert s.stream[..a] + b[..step.written] == s.stream[..a + step.written];
    }
  }

  ghost predicate Runs(s: State, steps: seq<Step>, s': State)
    decreases steps
  {
    if steps == [] then s' == s else Enabled(s, steps[0]) && Runs(Apply(s, steps[0]), steps[1..], s')
  }

  lemma {:induction false} RunKeepsInv(s: State, steps: seq<Step>, s': State)
    requires Inv(s) && Runs(s, steps, s')
    ensures Inv(s') && s'.stream == s.stream
    decreases steps
  {
    if steps != [] {
      StepKeepsInv(s, steps[0]);
      RunKeepsInv(Apply(s, steps[0]), steps[1..], s');
    }
  }

  /**
   In every interleaving, when the caller re-offers from its first unacknowledged byte, the output
   is exactly the prefix of the stream of length acknowledged plus thread_wrote_: nothing is lost
   or duplicated, and nothing is acknowledged before it was written.
   */
  lemma OutputIsPrefix(stream: seq<Byte>, steps: seq<Step>, s: State)
    requires Runs(Start(stream), steps, s)
    ensures s.acked + s.threadWrote <= |stream| && s.output == stream[..s.acked + s.threadWrote]
    ensures s.acked <= |s.output|
  {
    RunKeepsInv(Start(stream), steps, s);
  }

  /** The assertion of WriteComplete, and no notification of the thread is ever lost. */
  lemma NothingStuck(stream: seq<Byte>, steps: seq<Step>, s: State)
    requires Runs(Start(stream), steps, s)
    ensures s.completions > 0 ==> s.pendingWrite.Some?
    ensures s.pendingWrite.Some? ==> s.thread.Woken? || s.completions > 0
    ensures s.caller.AwaitingThread? ==> s.thread.Starting? || s.threadRunning
  {
    RunKeepsInv(Start(stream), steps, s);
  }

  // ----- What Write does -----

  /** Nothing but the counters of the caller and the writer thread has changed. */
  ghost predicate OnlyCounted(s: State, s': State) {
    s' == s.(acked := s'.acked, threadWrote := s'.threadWrote)
  }

  /**
   In every reachable state Write acknowledges what the thread has written, up to the bytes offered and
   the size of a buffer, and nothing at all while a buffer is pending or when nothing was written.
   */
  lemma WriteAcknowledges(stream: seq<Byte>, steps: seq<Step>, s: State, n: nat)
    requires Runs(Start(stream), steps, s) && s.caller.Idle? && s.acked + n <= |stream|
    ensures Enabled(s, Write(n)) && var s' := Apply(s, Write(n));
      && s'.acked + s'.threadWrote == s.acked + s.threadWrote && s'.acked >= s.acked
      && (if s.pendingWrite.Some? || s.threadWrote == 0 then s'.acked == s.acked
          else OnlyCounted(s, s') && s'.acked - s.acked <= n && s'.acked - s.acked <= BUFFER_SIZE
               && (s'.acked - s.acked == n || s'.acked - s.acked == BUFFER_SIZE || s'.threadWrote == 0))
  {
    RunKeepsInv(Start(stream), steps, s);
  }

  /**
   When nothing is pending and nothing was written, the bytes offered are handed to the thread, up to
   the size of a buffer: at once if it runs, and otherwise as soon as it has started.
   */
  lemma WriteQueues(stream: seq<Byte>, steps: seq<Step>, s: State, n: nat)
    requires Runs(Start(stream), steps, s) && s.caller.Idle? && s.acked + n <= |stream|
    requires s.pendingWrite.None? && s.threadWrote == 0
    ensures var run := if s.threadExists then [Write(n)] else [Write(n), ThreadStarts, WriteContinues];
      exists s' :: Runs(s, run, s') && Handed(s, s', n)
  {
    RunKeepsInv(Start(stream), steps, s);
    var s1 := Apply(s, Write(n));
    if s.threadExists {
      assert Runs(s, [Write(n)], s1) && Handed(s, s1, n);
    } else {
      var s2 := Apply(s1, ThreadStarts);
      var s3 := Apply(s2, WriteContinues);
      Three(s, Write(n), ThreadStarts, WriteContinues);
      assert Handed(s, s3, n);
    }
  }

  /** `b` is what comes next in the stream, as much as a buffer takes of `n` bytes; the thread is awake. */
  ghost predicate Handed(s: State, s': State, n: nat) {
    && s'.caller.Idle? && s'.thread.Woken? && s'.acked == s.acked && s'.output == s.output && s'.stream == s.stream
    && s'.pendingWrite.Some?
    && var b := s'.pendingWrite.value;
       && |b| <= n && |b| <= BUFFER_SIZE && (|b| == n || |b| == BUFFER_SIZE)
       && s.acked + |b| <= |s.stream| && b == s.stream[s.acked..s.acked + |b|]
  }

  lemma Three(s: State, a: Step, b: Step, c: Step)
    requires Enabled(s, a) && Enabled(Apply(s, a), b) && Enabled(Apply(Apply(s, a), b), c)
    ensures Runs(s, [a, b, c], Apply(Apply(Apply(s, a), b), c))
  {
    var s1 := Apply(s, a);
    var s2 := Apply(s1, b);
    assert [a, b, c][1..] == [b, c] && [b, c][1..] == [c] && [c][1..] == [];
    assert Runs(s2, [c], Apply(s2, c));
    assert Runs(s1, [b, c], Apply(s2, c));
  }

  // ----- Progress -----

  lemma {:induction false} RunsOn(s: State, a: seq<Step>, s1: State, b: seq<Step>, s2: State)
    requires Runs(s, a, s1) && Runs(s1, b, s2)
    ensures Runs(s, a + b, s2)
    decreases a
  {
    if a == [] {
      assert a + b == b;
    } else {
      assert (a + b)[1..] == a[1..] + b;
      RunsOn(Apply(s, a[0]), a[1..], s1, b, s2);
    }
  }

  /** One step more. */
  lemma RunsStep(s: State, a: seq<Step>, s1: State, step: Step)
    requires Runs(s, a, s1) && Enabled(s1, step)
    ensures Runs(s, a + [step], Apply(s1, step))
  {
    RunsOn(s, a, s1, [step], Apply(s1, step));
  }

  /** The thread runs, the caller can write again and nothing is pending. */
  ghost predicate Ready(s: State) {
    s.caller.Idle? && s.pendingWrite.None? && (s.thread.Asleep? || s.thread.Woken?)
  }

  /** From every sound state the pending buffer, if any, can be disposed of. */
  lemma Completed(s: State) returns (run: seq<Step>, s': State)
    requires Inv(s) && s.caller.Idle? && s.threadExists
    ensures Runs(s, run, s') && Inv(s') && Ready(s') && s'.acked == s.acked && s'.stream == s.stream
  {
    run, s' := [], s;
    if s.pendingWrite.Some? && s.thread.Woken? {
      RunsStep(s, run, s', ThreadRuns(0));
      StepKeepsInv(s', ThreadRuns(0));
      run, s' := run + [ThreadRuns(0)], Apply(s', ThreadRuns(0));
    }
    if s'.pendingWrite.Some? {
      RunsStep(s, run, s', WriteComplete);
      StepKeepsInv(s', WriteComplete);
      run, s' := run + [WriteComplete], Apply(s', WriteComplete);
    }
  }

  /** From every sound state the caller gets back to where it can write. */
  lemma Returned(s: State) returns (run: seq<Step>, s': State)
    requires Inv(s)
    ensures Runs(s, run, s') && Inv(s') && s'.caller.Idle? && s'.threadExists
    ensures s'.acked == s.acked && s'.stream == s.stream
  {
    run, s' := [], s;
    if s.thread.Absent? {
      RunsStep(s, run, s', Write(0));
      StepKeepsInv(s', Write(0));
      run, s' := run + [Write(0)], Apply(s', Write(0));
    }
    if s'.thread.Starting? {
      RunsStep(s, run, s', ThreadStarts);
      StepKeepsInv(s', ThreadStarts);
      run, s' := run + [ThreadStarts], Apply(s', ThreadStarts);
    }
    if s'.caller.AwaitingThread? {
      RunsStep(s, run, s', WriteContinues);
      StepKeepsInv(s', WriteContinues);
      run, s' := run + [WriteContinues], Apply(s', WriteContinues);
    }
  }

  /** Where nothing is pending, the next byte can be written and acknowledged. */
  lemma OneByte(s: State) returns (run: seq<Step>, s': State)
    requires Inv(s) && Ready(s) && s.acked < |s.stream|
    ensures Runs(s, run, s') && s'.acked == s.acked + 1
  {
    run, s' := [], s;
    if s.threadWrote == 0 {
      var s1 := Apply(s, Write(1));
      var s2 := Apply(s1, ThreadRuns(1));
      run, s' := [Write(1), ThreadRuns(1), WriteComplete], Apply(s2, WriteComplete);
      Three(s, Write(1), ThreadRuns(1), WriteComplete);
    }
    RunsStep(s, run, s', Write(1));
    run, s' := run + [Write(1)], Apply(s', Write(1));
  }

  /** From every reachable state in which not all is acknowledged, some run acknowledges one byte more. */
  lemma Progress(stream: seq<Byte>, steps: seq<Step>, s: State) returns (run: seq<Step>, s': State)
    requires Runs(Start(stream), steps, s) && s.acked < |stream|
    ensures Runs(s, run, s') && s'.acked == s.acked + 1
  {
    RunKeepsInv(Start(stream), steps, s);
    var a, s1 := Returned(s);
    var b, s2 := Completed(s1);
    var c, s3 := OneByte(s2);
    RunsOn(s, a, s1, b, s2);
    RunsOn(s, a + b, s2, c, s3);
    run, s' := a + b + c, s3;
  }

  // ----- Wakeups that nobody asked for -----

  /** The `w` bytes from the first unacknowledged one on occur again after the `threadWrote` written so far. */
  ghost predicate Recurs(s: State, w: nat) {
    var a, n := s.acked, s.acked + s.threadWrote;
    n + w <= |s.stream| && s.stream[a..a + w] == s.stream[n..n + w]
  }

  lemma Slice<T>(x: seq<T>, a: nat, k: nat, w: nat)
    requires w <= k && a + k <= |x|
    ensures x[a..a + k][..w] == x[a..a + w]
  {}

  /** A prefix is continued by `more` exactly when the sequence goes on like that. */
  lemma Continued<T>(x: seq<T>, n: nat, more: seq<T>)
    requires n + |more| <= |x|
    ensures x[..n] + more == x[..n + |more|] <==> more == x[n..n + |more|]
  {
    assert x[..n + |more|] == x[..n] + x[n..n + |more|];
    if x[..n] + more == x[..n + |more|] {
      assert more == (x[..n] + more)[n..];
    }
  }

  /** A buffer is pending, with what the stream has from the first unacknowledged byte on. */
  ghost predicate Pending(s: State) {
    && s.pendingWrite.Some?
    && var b := s.pendingWrite.value;
       s.acked + |b| <= |s.stream| && b == s.stream[s.acked..s.acked + |b|]
  }

  /** What the thread does with a buffer that is still pending: it writes its first bytes, again or not. */
  lemma RunWrites(s: State, w: nat)
    requires s.thread.Woken? && Pending(s) && w <= |s.pendingWrite.value|
    ensures var s' := Apply(s, ThreadRuns(w));
      && s'.output == s.output + s.stream[s.acked..s.acked + w]
      && s'.stream == s.stream && s'.acked == s.acked && s'.threadWrote == s.threadWrote + w
  {
    Slice(s.stream, s.acked, |s.pendingWrite.value|, w);
  }

  lemma RunExact(s: State, w: nat)
    requires OutputExact(s) && s.thread.Woken? && Pending(s) && w <= |s.pendingWrite.value|
    ensures OutputExact(Apply(s, ThreadRuns(w))) <==> Recurs(s, w)
  {
    var a, n := s.acked, s.acked + s.threadWrote;
    RunWrites(s, w);
    if n + w <= |s.stream| { Continued(s.stream, n, s.stream[a..a + w]); }
  }

  /** From `s` on the thread has written the first `w` pending bytes, if any are pending. */
  ghost predicate Wrote(s: State, s': State, w: nat) {
    if s.pendingWrite.None? then s'.output == s.output
    else s.acked + w <= |s.stream| && s'.output == s.output + s.stream[s.acked..s.acked + w]
  }

  /** The thread wakes in `t`, which is `s` but for the thread. */
  lemma WokenExact(s: State, t: State, w: nat)
    requires t == s.(thread := Woken, threadRunning := t.threadRunning)
    requires OutputExact(s) && Pending(s) && w <= |s.pendingWrite.value|
    ensures Wrote(s, Apply(t, ThreadRuns(w)), w) && (OutputExact(Apply(t, ThreadRuns(w))) <==> Recurs(s, w))
  {
    RunWrites(t, w);
    RunExact(t, w);
  }

  lemma RecursAtOnce(s: State, w: nat)
    requires s.acked + s.threadWrote <= |s.stream| && s.acked + w <= |s.stream| && (w == 0 || s.threadWrote == 0)
    ensures Recurs(s, w)
  {}

  /**
   The thread waits without testing again what it waits for. A wakeup that nobody asked for writes the
   pending bytes again. The output stays exact if and only if nothing is pending, or the stream itself
   has these bytes once more after those written; so certainly if nothing was written, or nothing is.
   */
  lemma SpuriousWakeExact(stream: seq<Byte>, steps: seq<Step>, s: State, w: nat)
    requires Runs(Start(stream), steps, s) && s.thread.Asleep? && (s.pendingWrite.Some? ==> w <= |s.pendingWrite.value|)
    ensures var s' := Apply(s.(thread := Woken), ThreadRuns(w));
      && Wrote(s, s', w) && (OutputExact(s') <==> s.pendingWrite.None? || Recurs(s, w))
    ensures s.pendingWrite.Some? && (w == 0 || s.threadWrote == 0) ==> Recurs(s, w)
  {
    RunKeepsInv(Start(stream), steps, s);
    if s.pendingWrite.Some? {
      WokenExact(s, s.(thread := Woken), w);
      if w == 0 || s.threadWrote == 0 { RecursAtOnce(s, w); }
    }
  }

  /** DoClose wakes the thread for the last time. */
  function Closing(s: State): State {
    s.(threadRunning := false, thread := if s.thread.Asleep? then Woken else s.thread)
  }

  /** And so closing a handle writes a buffer again whose completion is still on its way. */
  lemma CloseExact(stream: seq<Byte>, steps: seq<Step>, s: State, w: nat)
    requires Runs(Start(stream), steps, s) && s.caller.Idle? && (s.thread.Asleep? || s.thread.Woken?)
    requires s.pendingWrite.Some? ==> w <= |s.pendingWrite.value|
    ensures var s' := Apply(Closing(s), ThreadRuns(w));
      && Wrote(s, s', w) && (OutputExact(s') <==> s.pendingWrite.None? || Recurs(s, w))
    ensures s.pendingWrite.Some? && s.thread.Woken? ==> Recurs(s, w)
  {
    RunKeepsInv(Start(stream), steps, s);
    if s.pendingWrite.Some? {
      WokenExact(s, Closing(s), w);
      if s.thread.Woken? { RecursAtOnce(s, w); }
    }
  }

  /** A run after which such a wakeup, or closing the handle, writes a byte twice. */
  lemma SpuriousWakeDuplicates() returns (steps: seq<Step>, s: State)
    ensures Runs(Start([1, 2]), steps, s) && s.thread.Asleep? && s.caller.Idle? && s.pendingWrite.Some?
    ensures |s.pendingWrite.value| > 0 && !OutputExact(Apply(s.(thread := Woken), ThreadRuns(1)))
    ensures !OutputExact(Apply(Closing(s), ThreadRuns(1)))
  {
    steps := [Write(2), ThreadStarts, WriteContinues, ThreadRuns(1)];
    var s0 := Start([1, 2]);
    var s1 := Apply(s0, steps[0]);
    var s2 := Apply(s1, steps[1]);
    var s3 := Apply(s2, steps[2]);
    s := Apply(s3, steps[3]);
    assert Runs(s, steps[4..], s);
    assert Runs(s3, steps[3..], s) by { assert steps[3..][1..] == steps[4..]; }
    assert Runs(s2, steps[2..], s) by { assert steps[2..][1..] == steps[3..]; }
    assert Runs(s1, steps[1..], s) by { assert steps[1..][1..] == steps[2..]; }
    var t := Apply(s.(thread := Woken), ThreadRuns(1));
    assert t.output[1] == 1 && t.stream[1] == 2;
  }
}
