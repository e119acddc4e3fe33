/** mcount_trace_finish closes the pipe for the whole process while another thread is still
    recording: its next two messages are dropped and what it writes after them is lost. */
module LateSwitch {
  import opened BufferProtocol
  import opened RecordingPipeline
  import opened RecordingPipelineProofs
  import opened RecordingOutcome

  const GO := Go(true, [])

  /** Thread 1 starts, announces its first buffer and writes to it. */
  const START: seq<Action> :=
    [ByTracee(1, Spawn), ByTracee(1, GO), ByTracee(1, GO),
     ByTracee(1, Begin(1, [[7]])), ByTracee(1, GO), ByTracee(1, GO)]

  /** The pipe is closed; the thread switches buffers, writes to the second one and dies. */
  const WORK: seq<Action> :=
    [Hangup,
     ByTracee(1, Begin(8, [[8]])), ByTracee(1, GO), ByTracee(1, GO), ByTracee(1, GO),
     ByTracee(1, GO), ByTracee(1, GO), ByTracee(1, GO), Kill(1)]

  /** The main thread reads the one message, finds every thread gone, joins its writer,
      flushes and drains. */
  const STOP: seq<Action> :=
    [ByMain, ByMain, ByMain, ByWriter(0, true), ByMain, ByMain, ByMain, ByMain, ByMain, ByMain, ByMain]

  lemma ExecOne(s: State, run: seq<Action>)
    requires run != []
    ensures Exec(s, run) == Exec(Next(s, run[0]), run[1..])
  {
  }

  const ARMED := Flag(true, false, true)
  const TAKEN := Flag(false, false, true)
  const FIRST: seq<Msg> := [Msg(1, RecStart(0))]
  const UNHEARD: seq<Msg> := [Msg(1, RecEnd(0)), Msg(1, RecStart(1))]

  /** Thread 1 before and after the pipe is closed; the main thread has not moved. */
  function Before(th: Tracee, pipe: seq<Msg>): State {
    State(map[1 := th], true, pipe, [], [], Polling, [], [STARTED], map[], 8)
  }

  function Closed(th: Tracee, dropped: seq<Msg>): State {
    State(map[1 := th], false, FIRST, dropped, [], Polling, [], [STARTED], map[], 8)
  }

  lemma MovesBefore(th: Tracee, pipe: seq<Msg>, act: Act)
    requires IndexOk(th) && Enabled(th, act)
    ensures var (th', sent) := TraceeStep(th, act, 8);
            Next(Before(th, pipe), ByTracee(1, act)) == Before(th', pipe + Tagged(1, sent))
  {
    hide TraceeStep;
  }

  lemma MovesClosed(th: Tracee, dropped: seq<Msg>, act: Act)
    requires IndexOk(th) && Enabled(th, act)
    ensures var (th', sent) := TraceeStep(th, act, 8);
            Next(Closed(th, dropped), ByTracee(1, act)) == Closed(th', dropped + Tagged(1, sent))
  {
    hide TraceeStep;
  }

  /** Following a run one action at a time. */
  lemma ExecTo(s: State, run: seq<Action>, k: nat, t: State)
    requires k < |run| && Exec(s, run[..k]) == t
    ensures Exec(s, run[..k + 1]) == Next(t, run[k])
  {
    ExecSplit(s, run[..k], [run[k]]);
    assert run[..k] + [run[k]] == run[..k + 1];
    ExecOne(t, [run[k]]);
    assert [run[k]][1..] == [];
  }

  lemma ExecStart(s: State, run: seq<Action>)
    ensures Exec(s, run[..0]) == s
  {
  }

  lemma Quiet(msgs: seq<Msg>)
    ensures msgs + Tagged(1, []) == msgs
  {
  }

  /** Thread 1 as it is set up, announced, and with its first record. */
  const PREPARED := Tracee([FRESH, FRESH], 2, -1, 0, Prepared, false, [])
  const ARMING := PREPARED.(phase := Arming)
  const READY := Tracee([Shm(ARMED, []), FRESH], 2, 0, 0, Idle, false, [])
  const USED := Tracee([Shm(ARMED, [7]), FRESH], 2, 0, 0, Idle, false, [7])

  lemma Spawns()
    ensures Next(Init(1, 8), ByTracee(1, Spawn)) == Before(PREPARED, [])
  {
    assert Init(1, 8).writers == [STARTED];
  }

  lemma Announces()
    ensures TraceeStep(PREPARED, GO, 8) == (ARMING, [RecStart(0)])
  {
  }

  lemma Arms()
    ensures TraceeStep(ARMING, GO, 8) == (READY, [])
  {
    assert SetFlag(ARMING.bufs, 0, ARMED) == READY.bufs;
  }

  lemma Puts()
    ensures TraceeStep(READY.(phase := Putting([[7]])), GO, 8) == (USED.(phase := Putting([])), [])
  {
    var d: Bytes := [7];
    assert [] + d == d && [d][1..] == [];
    assert SetData(READY.bufs, 0, d) == USED.bufs;
  }

  lemma Begins()
    ensures TraceeStep(READY, Begin(1, [[7]]), 8) == (READY.(phase := Putting([[7]])), [])
    ensures TraceeStep(USED.(phase := Putting([])), GO, 8) == (USED, [])
  {
  }

  lemma BirthRun()
    ensures Exec(Init(1, 8), START[..3]) == Before(READY, FIRST)
  {
    var s, run := Init(1, 8), START;
    hide Exec, Next, Before, TraceeStep;
    ExecStart(s, run);
    ExecTo(s, run, 0, s);
    Spawns();
    ExecTo(s, run, 1, Before(PREPARED, []));
    MovesBefore(PREPARED, [], GO);
    Announces();
    assert [] + Tagged(1, [RecStart(0)]) == FIRST;
    ExecTo(s, run, 2, Before(ARMING, FIRST));
    MovesBefore(ARMING, FIRST, GO);
    Arms();
    Quiet(FIRST);
  }

  lemma StartRun()
    ensures Exec(Init(1, 8), START) == Before(USED, FIRST)
  {
    var s, run := Init(1, 8), START;
    hide Exec, Next, Before;
    BirthRun();
    Quiet(FIRST);
    ExecTo(s, run, 3, Before(READY, FIRST));
    MovesBefore(READY, FIRST, Begin(1, [[7]]));
    var t1, t2 := READY.(phase := Putting([[7]])), USED.(phase := Putting([]));
    Begins();
    Puts();
    hide TraceeStep;
    ExecTo(s, run, 4, Before(t1, FIRST));
    MovesBefore(t1, FIRST, GO);
    ExecTo(s, run, 5, Before(t2, FIRST));
    MovesBefore(t2, FIRST, GO);
    assert run[..6] == run;
  }

  const END: seq<Msg> := [Msg(1, RecEnd(0))]
  const PART := Tracee([Shm(ARMED, [7]), Shm(TAKEN, [])], 2, 1, 0, Putting([[8]]), false, [7])

  lemma HangsUp()
    ensures Next(Before(USED, FIRST), Hangup) == Closed(USED, [])
  {
  }

  lemma ScanRun()
    ensures Exec(Before(USED, FIRST), WORK[..4]) == Closed(USED.(phase := Marking(1, [[8]])), END)
  {
    var s, run := Before(USED, FIRST), WORK;
    hide Exec, Next, Before, Closed;
    ExecStart(s, run);
    HangsUp();
    Quiet(END);
    ExecTo(s, run, 0, s);
    ExecTo(s, run, 1, Closed(USED, []));
    MovesClosed(USED, [], Begin(8, [[8]]));
    var t1 := USED.(phase := Scanning(0, [[8]]));
    assert [] + Tagged(1, [RecEnd(0)]) == END;
    ExecTo(s, run, 2, Closed(t1, END));
    MovesClosed(t1, END, GO);
    var t2 := USED.(phase := Scanning(1, [[8]]));
    ExecTo(s, run, 3, Closed(t2, END));
    MovesClosed(t2, END, GO);
  }

  lemma SwitchRun()
    ensures Exec(Before(USED, FIRST), WORK[..7]) == Closed(PART, UNHEARD)
  {
    var s, run := Before(USED, FIRST), WORK;
    hide Exec, Next, Before, Closed;
    Quiet(END);
    ScanRun();
    var t3 := USED.(phase := Marking(1, [[8]]));
    ExecTo(s, run, 4, Closed(t3, END));
    MovesClosed(t3, END, GO);
    var t4 := PART.(phase := Clearing([[8]]));
    assert SetFlag(t3.bufs, 1, TAKEN) == t4.bufs;
    ExecTo(s, run, 5, Closed(t4, END));
    MovesClosed(t4, END, GO);
    assert SetData(t4.bufs, 1, []) == t4.bufs;
    var t5 := t4.(phase := Announcing([[8]]));
    ExecTo(s, run, 6, Closed(t5, END));
    MovesClosed(t5, END, GO);
    assert END + Tagged(1, [RecStart(1)]) == UNHEARD;
  }

  /** Where the work leaves the thread. */
  const WORN := Tracee([Shm(ARMED, [7]), Shm(TAKEN, [8])], 2, 1, 0, Putting([]), true, [7, 8])

  lemma DeathRun(th: Tracee)
    requires th == WORN.(dead := false)
    ensures Next(Closed(th, UNHEARD), Kill(1)) == Closed(WORN, UNHEARD)
  {
    assert th.(dead := true) == WORN;
  }

  lemma WorkRun()
    ensures Exec(Before(USED, FIRST), WORK) == Closed(WORN, UNHEARD)
  {
    var s, run := Before(USED, FIRST), WORK;
    hide Exec, Next, Before, Closed;
    SwitchRun();
    ExecTo(s, run, 7, Closed(PART, UNHEARD));
    MovesClosed(PART, UNHEARD, GO);
    var t7 := WORN.(dead := false);
    var d: Bytes := [8];
    assert [] + d == d && [7] + d == [7, 8] && [d][1..] == [];
    assert SetData(PART.bufs, 1, d) == t7.bufs;
    Quiet(UNHEARD);
    ExecTo(s, run, 8, Closed(t7, UNHEARD));
    DeathRun(t7);
    assert run[..9] == run;
  }

  /** The recorder with the pipe drained; nothing else changes until the buffer is written. */
  function Stopping(open: seq<Name>, main: Main, queue: seq<Name>, w: Writer): State {
    State(map[1 := WORN], false, [], UNHEARD, open, main, queue, [w], map[], 8)
  }

  const GONE := STARTED.(exited := true)
  const A := Name(1, 0)

  lemma Hears()
    ensures Next(Closed(WORN, UNHEARD), ByMain) == Stopping([A], Reading, [], STARTED)
  {
    assert FIRST[1..] == [];
  }

  lemma Waits()
    ensures Next(Stopping([A], Reading, [], STARTED), ByMain) == Stopping([A], Waiting, [], STARTED)
  {
  }

  lemma Leaves()
    ensures Next(Stopping([A], Waiting, [], STARTED), ByMain) == Stopping([A], Joining, [], STARTED)
  {
  }

  lemma Exits()
    ensures Next(Stopping([A], Joining, [], STARTED), ByWriter(0, true)) == Stopping([A], Joining, [], GONE)
  {
    assert [STARTED][0 := GONE] == [GONE];
  }

  lemma Joins()
    ensures Next(Stopping([A], Joining, [], GONE), ByMain) == Stopping([A], Flushing, [], GONE)
  {
  }

  lemma Holds()
    ensures Next(Stopping([A], Flushing, [], GONE), ByMain) ==
            Stopping([], Holding(A, ToFlushing, false), [], GONE)
  {
    assert [A][1..] == [];
  }

  lemma Examines()
    ensures Next(Stopping([], Holding(A, ToFlushing, false), [], GONE), ByMain) ==
            Stopping([], Holding(A, ToFlushing, true), [], GONE)
  {
  }

  lemma Enqueues()
    ensures Next(Stopping([], Holding(A, ToFlushing, true), [], GONE), ByMain) == Stopping([], Flushing, [A], GONE)
  {
    assert [] + [A] == [A];
  }

  lemma Drains()
    ensures Next(Stopping([], Flushing, [A], GONE), ByMain) == Stopping([], Draining, [A], GONE)
  {
  }

  lemma Writes()
    ensures var s := Next(Stopping([], Draining, [A], GONE), ByMain);
            s.main.Draining? && s.queue == [] && FileOf(s, 1) == [7] && LogOf(s, 1) == [7, 8]
  {
    var s := Stopping([], Draining, [A], GONE);
    assert FileOf(s, 1) == [] && DataOf(s.threads[1].bufs, 0) == [7];
    assert [] + DataOf(s.threads[1].bufs, 0) == [7];
  }

  lemma Finishes(s: State)
    requires s.main.Draining? && s.queue == []
    ensures Next(s, ByMain) == s.(main := Finished)
  {
  }

  lemma JoinRun(s: State)
    requires s == Closed(WORN, UNHEARD)
    ensures Exec(s, STOP[..5]) == Stopping([A], Flushing, [], GONE)
  {
    hide Exec, Next, Closed, Stopping;
    ExecStart(s, STOP);
    ExecTo(s, STOP, 0, s);
    Hears();
    ExecTo(s, STOP, 1, Stopping([A], Reading, [], STARTED));
    Waits();
    ExecTo(s, STOP, 2, Stopping([A], Waiting, [], STARTED));
    Leaves();
    ExecTo(s, STOP, 3, Stopping([A], Joining, [], STARTED));
    Exits();
    ExecTo(s, STOP, 4, Stopping([A], Joining, [], GONE));
    Joins();
  }

  lemma FlushRun(s: State)
    requires s == Closed(WORN, UNHEARD)
    ensures Exec(s, STOP[..9]) == Stopping([], Draining, [A], GONE)
  {
    hide Exec, Next, Closed, Stopping;
    JoinRun(s);
    ExecTo(s, STOP, 5, Stopping([A], Flushing, [], GONE));
    Holds();
    ExecTo(s, STOP, 6, Stopping([], Holding(A, ToFlushing, false), [], GONE));
    Examines();
    ExecTo(s, STOP, 7, Stopping([], Holding(A, ToFlushing, true), [], GONE));
    Enqueues();
    ExecTo(s, STOP, 8, Stopping([], Flushing, [A], GONE));
    Drains();
  }

  lemma StopRun()
    ensures var s := Exec(Closed(WORN, UNHEARD), STOP);
            s.main.Finished? && FileOf(s, 1) == [7] && LogOf(s, 1) == [7, 8]
  {
    var s := Closed(WORN, UNHEARD);
    hide Exec, Next, Closed, Stopping;
    FlushRun(s);
    ExecTo(s, STOP, 9, Stopping([], Draining, [A], GONE));
    Writes();
    var end := Next(Stopping([], Draining, [A], GONE), ByMain);
    ExecTo(s, STOP, 10, end);
    Finishes(end);
    assert STOP[..11] == STOP;
  }

  /** The file misses what the thread wrote to its second buffer, as the condition for complete
      files says. */
  lemma LateSwitchLoses()
    ensures var s := Reached(1, 8, START + WORK + STOP);
            s.main.Finished? && FileOf(s, 1) == [7] && LogOf(s, 1) == [7, 8]
    ensures !NeverUnheard(Init(1, 8), START + WORK + STOP, 1)
  {
    hide NeverUnheard;
    StartRun();
    WorkRun();
    StopRun();
    ExecSplit(Init(1, 8), START, WORK);
    ExecSplit(Init(1, 8), START + WORK, STOP);
    CompleteIff(1, 8, START + WORK + STOP, 1);
  }
}
