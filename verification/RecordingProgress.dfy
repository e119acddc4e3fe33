/** The recorder comes to an end: once the pipe is closed and all threads are over, some steps of
    the main thread and the writers lead to the final state from wherever the run stands. */
module RecordingProgress {
  import opened BufferProtocol
  import opened RecordingPipeline
  import opened RecordingPipelineProofs
  import opened RecordingOutcome

  // ----- what is left to do -----

  function Left(wr: Writer, k: nat): nat {
    if k < |wr.head| then 3 * (|wr.head| - k) else 0
  }

  /** Steps of a writer until it has left the writer list and exited. */
  function WriterWork(wr: Writer): nat {
    if wr.exited then 0
    else if !wr.listed then 1
    else
      var spliced := if wr.bufs == [] then 2 else 3 * |wr.bufs| + 3;
      match wr.phase
      case Checking => spliced
      case Saving(k) => spliced + Left(wr, k)
      case Zeroing(k) => spliced + if Left(wr, k) > 0 then Left(wr, k) - 1 else 0
      case Releasing(k) => spliced + if Left(wr, k) > 1 then Left(wr, k) - 2 else 0
  }

  function AllWork(ws: seq<Writer>): nat {
    if ws == [] then 0 else AllWork(ws[..|ws| - 1]) + WriterWork(ws[|ws| - 1])
  }

  function Stage(m: Main): nat
    decreases m.Holding?
  {
    match m
    case Polling => 6
    case Reading => 5
    case Waiting => 4
    case Joining => 3
    case Flushing => 2
    case Draining => 1
    case Finished => 0
    case Holding(_, back, examined) => Stage(Resumed(back)) + if examined then 5 else 6
  }

  function Work(s: State): nat {
    Stage(s.main) + 20 * |s.pipe| + 8 * |s.open| + |s.queue| + AllWork(s.writers)
  }

  /** Nothing new can arrive. */
  ghost predicate Ending(s: State) {
    GInv(s) && !s.connected && AllOver(s)
  }

  // ----- one step less -----

  lemma {:induction false} OneWriter(ws: seq<Writer>, w: nat, wr: Writer)
    requires w < |ws|
    ensures AllWork(ws[w := wr]) + WriterWork(ws[w]) == AllWork(ws) + WriterWork(wr)
  {
    hide WriterWork;
    var n, ws' := |ws| - 1, ws[w := wr];
    if w < n {
      assert ws'[..n] == ws[..n][w := wr];
      OneWriter(ws[..n], w, wr);
    } else {
      assert ws'[..n] == ws[..n];
    }
  }

  lemma {:induction false} WithoutShorter(q: seq<Name>, n: Name)
    ensures |Without(q, n)| <= |q|
  {
    if q != [] && q[0] != n {
      WithoutShorter(q[1..], n);
    }
  }

  lemma ReceivesLess(s: State, back: Back)
    requires s.pipe != []
    requires Stage(s.main) >= Stage(Resumed(back)) && !s.main.Holding?
    ensures Work(ReceiveNext(s, back)) < Work(s)
  {
    hide AllWork;
    WithoutShorter(s.open, Name(s.pipe[0].tid, s.pipe[0].note.i));
  }

  lemma EnqueuesLess(s: State)
    requires s.main.Holding? && s.main.examined
    ensures Work(EnqueueNext(s, s.main.name, Resumed(s.main.back))) < Work(s)
  {
    var n, w := s.main.name, Serving(s.writers, s.main.name.tid);
    if w < |s.writers| {
      var wr := s.writers[w];
      OneWriter(s.writers, w, wr.(bufs := wr.bufs + [n]));
    }
    hide AllWork, Serving;
  }

  lemma Advances(s: State, w: nat)
    requires w < |s.writers| && s.writers[w].listed && !s.writers[w].exited
    requires !s.writers[w].phase.Checking? && s.writers[w].phase.k < |s.writers[w].head|
    ensures w < |WriteNext(s, w).writers|
    ensures WriterWork(s.writers[w].(phase := WriteNext(s, w).writers[w].phase)) < WriterWork(s.writers[w])
  {
  }

  /** A writer step in which the writer itself moves on. */
  lemma WritesLess(s: State, w: nat, stop: bool)
    requires WritersOk(s.writers) && w < |s.writers| && !s.writers[w].exited && Stopped(s.main)
    requires stop <==> !s.writers[w].listed
    ensures Work(WriterNext(s, w, stop)) < Work(s)
  {
    var s', wr := WriterNext(s, w, stop), s.writers[w];
    if wr.listed && !wr.phase.Checking? {
      WriterWrites(s, w, stop);
      WriteFrame(s, w);
      Advances(s, w);
      hide WriterNext, WriteNext, WritersOk, AllWork, WriterWork;
      OneWriter(s.writers, w, wr.(phase := s'.writers[w].phase));
    } else if wr.listed && wr.bufs != [] {
      SpliceNext(s, w);
      ListedIgnoresStop(s, w, stop);
      hide WriterNext, WritersOk, AllWork;
      OneWriter(s.writers, w, wr.(phase := Saving(0), head := wr.bufs, bufs := []));
    } else if wr.listed {
      LeaverUnlisted(s, w);
      WriterFrame(s, w, false);
      ListedIgnoresStop(s, w, stop);
      assert s'.queue == s.queue;
      hide WriterNext, WritersOk, AllWork;
      OneWriter(s.writers, w, Writer(false, false, -1, Checking, [], []));
    } else {
      assert s' == s.(writers := s.writers[w := wr.(exited := true)]);
      hide WriterNext, WritersOk, AllWork;
      OneWriter(s.writers, w, wr.(exited := true));
    }
  }

  /** Every step of the main thread is progress, unless it waits for a writer. */
  lemma MainLess(s: State)
    requires Ending(s) && !s.main.Finished?
    requires s.main.Joining? ==> forall w :: 0 <= w < |s.writers| ==> s.writers[w].exited
    ensures Work(MainNext(s)) < Work(s)
  {
    hide GInv, AllWork, ReceiveNext, EnqueueNext, DrainNext, Worthwhile, WithBufs, Filed;
    match s.main
    case Polling => if s.pipe != [] { ReceivesLess(s, ToReading); }
    case Reading => if s.pipe != [] { ReceivesLess(s, ToReading); }
    case Holding(_, _, examined) => if examined { EnqueuesLess(s); }
    case Draining => if s.queue != [] { DrainFrame(s); }
    case _ =>
  }

  lemma MainEnds(s: State)
    requires Ending(s)
    ensures Ending(MainNext(s))
  {
    MainNextKeeps(s);
    MainFrame(s, 0);
    if s.main.Draining? && s.queue != [] {
      DrainsFirst(s);
      DrainFrame(s);
    } else {
      MainUnmoved(s);
    }
    hide GInv, MainNext, DrainNext;
  }

  lemma WriterEnds(s: State, w: nat, stop: bool)
    requires Ending(s) && w < |s.writers|
    ensures Ending(WriterNext(s, w, stop))
  {
    hide GInv, WriterNext, AllOver;
    WriterNextKeeps(s, w, stop);
    WritersRight(s);
    WriterFrame(s, w, stop);
  }

  /** The step to take. */
  lemma NextStep(s: State) returns (a: Action)
    requires Ending(s) && !s.main.Finished?
    ensures a.ByMain? || a.ByWriter?
    ensures Ending(Next(s, a)) && Work(Next(s, a)) < Work(s)
  {
    hide GInv, AllOver, Work, MainNext, WriterNext;
    if s.main.Joining? && exists w :: 0 <= w < |s.writers| && !s.writers[w].exited {
      var w :| 0 <= w < |s.writers| && !s.writers[w].exited;
      WritersRight(s);
      WritesLess(s, w, !s.writers[w].listed);
      WriterEnds(s, w, !s.writers[w].listed);
      a := ByWriter(w, !s.writers[w].listed);
    } else {
      MainLess(s);
      MainEnds(s);
      a := ByMain;
    }
  }

  lemma {:induction false} Finishes(s: State) returns (more: seq<Action>)
    requires Ending(s)
    ensures forall k :: 0 <= k < |more| ==> more[k].ByMain? || more[k].ByWriter?
    ensures Exec(s, more).main.Finished? && |more| <= Work(s)
    decreases Work(s)
  {
    if s.main.Finished? {
      more := [];
    } else {
      hide Work, Ending, Next;
      var a := NextStep(s);
      var rest := Finishes(Next(s, a));
      more := [a] + rest;
      assert more[1..] == rest;
    }
  }

  /** MAIN RESULT (the recorder finishes). From every reachable state in which the pipe is closed and
      every thread has ended or been killed, some steps of the main thread and of the writers alone,
      no more than there is work left, bring the recorder to its end. */
  lemma CanFinish(nrThread: nat, maxSize: nat, run: seq<Action>) returns (more: seq<Action>)
    requires var s := Reached(nrThread, maxSize, run); !s.connected && AllOver(s)
    ensures forall k :: 0 <= k < |more| ==> more[k].ByMain? || more[k].ByWriter?
    ensures |more| <= Work(Reached(nrThread, maxSize, run))
    ensures Reached(nrThread, maxSize, run + more).main.Finished?
  {
    hide GInv, AllOver, Work, Exec;
    ReachedOk(nrThread, maxSize, run, 0);
    more := Finishes(Reached(nrThread, maxSize, run));
    ExecSplit(Init(nrThread, maxSize), run, more);
  }

  // ----- a finished buffer -----

  /** The main thread, on its own, with the message that buffer n is finished: in two steps it has
      dropped a buffer that is empty or not RECORDING; any other one it has passed on in three, to
      the writer that serves the thread or to the end of the queue. */
  lemma FinishedBuffer(s: State)
    requires s.main.Polling? || s.main.Reading?
    requires s.pipe != [] && s.pipe[0].note.RecEnd?
    ensures var n := Name(s.pipe[0].tid, s.pipe[0].note.i);
            var bufs, w := ThreadOf(s, n.tid).bufs, Serving(s.writers, n.tid);
            var back := if s.main.Polling? && s.connected then Polling else Reading;
            var s2 := MainNext(MainNext(s));
            if n.i < |bufs| && bufs[n.i].flag.recording && bufs[n.i].data != [] then
              var s3 := MainNext(s2);
              && s3.main == back && s3.pipe == s.pipe[1..]
              && if w < |s.writers|
                 then s3.queue == s.queue &&
                      s3.writers == s.writers[w := s.writers[w].(bufs := s.writers[w].bufs + [n])]
                 else s3.queue == s.queue + [n] && s3.writers == s.writers
            else s2.main == back && s2.pipe == s.pipe[1..] && s2.queue == s.queue && s2.writers == s.writers
  {
    hide Serving;
  }
}
