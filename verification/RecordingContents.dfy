/** What the traced threads were asked to write, read off a run without looking at what they wrote,
    and that this is what the files hold. */
module RecordingContents {
  import opened BufferProtocol
  import opened BufferProtocolProofs
  import opened RecordingPipeline
  import opened RecordingPipelineProofs
  import opened RecordingOutcome

  // ----- what a thread was asked to write -----

  /** One record: the LOST record written in front of it, if any, and its pieces. */
  datatype Record = Record(lost: Bytes, pieces: seq<Bytes>)

  /** The records of a thread that got a buffer or still may, and how many got none since the last
      LOST record. */
  datatype History = History(records: seq<Record>, missed: nat)
  const NOTHING_YET := History([], 0)

  function Concat(pieces: seq<Bytes>): Bytes {
    if pieces == [] then [] else pieces[0] + Concat(pieces[1..])
  }

  function Text(records: seq<Record>): Bytes {
    if records == [] then []
    else
      var last := records[|records| - 1];
      Text(records[..|records| - 1]) + (last.lost + Concat(last.pieces))
  }

  /** The action is one of the thread's, and takes place. */
  predicate Acts(s: State, a: Action, t: Tid) {
    a.ByTracee? && a.tid == t && IndexOk(ThreadOf(s, t)) && Enabled(ThreadOf(s, t), a.act) && !Stopped(s.main)
  }

  /** A record begins; it gets no buffer when all mapped ones are taken and none can be mapped; and
      a LOST record goes in front of the record that is being written. */
  function Told(th: Tracee, act: Act, h: History): History {
    if th.phase.Idle? && act.Begin? then h.(records := h.records + [Record([], act.pieces)])
    else if h.records == [] then h
    else
      var n := |h.records| - 1;
      if th.phase.Scanning? && act.Go? && th.phase.i >= th.nrBuf && !act.mapped then
        History(h.records[..n], h.missed + 1)
      else if th.phase.Losing? && act.Go? then
        History(h.records[n := h.records[n].(lost := act.lost)], 0)
      else h
  }

  function Asked(s: State, run: seq<Action>, t: Tid, h: History): History
    decreases |run|
  {
    if run == [] then h
    else Asked(Next(s, run[0]), run[1..], t, if Acts(s, run[0], t) then Told(ThreadOf(s, t), run[0].act, h) else h)
  }

  /** From the start of the recorder. */
  function AskedOf(nrThread: nat, maxSize: nat, run: seq<Action>, t: Tid): seq<Record> {
    Asked(Init(nrThread, maxSize), run, t, NOTHING_YET).records
  }

  // ----- the thread keeps up with it -----

  /** The pieces of the current record that are still to be written. */
  function TodoOf(th: Tracee): seq<Bytes> {
    match th.phase
    case Scanning(_, todo) => todo
    case Marking(_, todo) => todo
    case Clearing(todo) => todo
    case Shrinking(_, _, todo) => todo
    case Announcing(todo) => todo
    case Losing(todo) => todo
    case Putting(todo) => todo
    case _ => []
  }

  /** Nothing of the current record is written yet. */
  predicate Early(th: Tracee) {
    th.phase.Scanning? || th.phase.Marking? || th.phase.Clearing? || th.phase.Shrinking? || th.phase.Announcing?
    || th.phase.Losing?
  }

  /** Log and history agree. */
  predicate Agree(th: Tracee, h: History) {
    && th.log + Concat(TodoOf(th)) == Text(h.records)
    && th.losts == 2 * h.missed && (th.phase.Unborn? ==> th.losts == 0)
    && (Early(th) ==> h.records != [] && h.records[|h.records| - 1] == Record([], TodoOf(th)))
  }

  lemma TextSnoc(records: seq<Record>, r: Record)
    ensures Text(records + [r]) == Text(records) + (r.lost + Concat(r.pieces))
  {
    assert (records + [r])[..|records|] == records;
  }

  lemma Empties(b: Bytes)
    ensures b + [] == b && [] + b == b && Concat([]) == []
  {
  }

  lemma ConcatFirst(pieces: seq<Bytes>)
    requires pieces != []
    ensures Concat(pieces) == pieces[0] + Concat(pieces[1..])
  {
  }

  lemma SameEnd(a: Bytes, b: Bytes, c: Bytes)
    requires a + c == b + c
    ensures a == b
  {
    assert |a| == |b|;
    forall i | 0 <= i < |a| ensures a[i] == b[i] {
      assert (a + c)[i] == (b + c)[i];
    }
  }

  /** The log of a record not yet begun to be written is what was asked before it. */
  lemma EarlyLog(th: Tracee, h: History)
    requires Agree(th, h) && Early(th)
    ensures th.log == Text(h.records[..|h.records| - 1])
  {
    var n := |h.records| - 1;
    var front, todo := h.records[..n], TodoOf(th);
    assert h.records == front + [Record([], todo)];
    TextSnoc(front, Record([], todo));
    hide Text, Concat, TodoOf;
    assert [] + Concat(todo) == Concat(todo);
    SameEnd(th.log, Text(front), Concat(todo));
  }

  lemma Begun(th: Tracee, act: Act, maxSize: nat)
    requires Enabled(th, act) && IndexOk(th) && th.phase.Idle?
    ensures var th' := TraceeStep(th, act, maxSize).0;
            && th'.log == th.log && th'.losts == th.losts && !th'.phase.Unborn? && TodoOf(th) == []
            && TodoOf(th') == (if act.Begin? then act.pieces else []) && (!act.Begin? ==> !Early(th'))
  {
  }

  lemma BeginAgrees(th: Tracee, act: Act, maxSize: nat, h: History)
    requires Enabled(th, act) && IndexOk(th) && Agree(th, h) && th.phase.Idle?
    ensures Agree(TraceeStep(th, act, maxSize).0, Told(th, act, h))
  {
    Begun(th, act, maxSize);
    Empties(th.log);
    hide TraceeStep, TodoOf, Early, Text, Concat, Enabled, IndexOk;
    if act.Begin? {
      TextSnoc(h.records, Record([], act.pieces));
      Empties(Concat(act.pieces));
    }
  }

  /** The scan finds nothing and nothing can be mapped. */
  predicate GivesUp(th: Tracee, act: Act) {
    th.phase.Scanning? && act.Go? && th.phase.i >= th.nrBuf && !act.mapped
  }

  lemma GaveUp(th: Tracee, act: Act, maxSize: nat)
    requires Enabled(th, act) && IndexOk(th) && GivesUp(th, act)
    ensures TraceeStep(th, act, maxSize).0 == th.(losts := th.losts + 2, curr := -1, phase := Idle)
  {
  }

  lemma GiveUpAgrees(th: Tracee, act: Act, maxSize: nat, h: History)
    requires Enabled(th, act) && IndexOk(th) && Agree(th, h) && GivesUp(th, act)
    ensures Agree(TraceeStep(th, act, maxSize).0, Told(th, act, h))
  {
    EarlyLog(th, h);
    Empties(th.log);
    GaveUp(th, act, maxSize);
    hide TraceeStep, Text, Concat, Enabled, IndexOk;
  }

  /** Steps that neither begin a record nor write anything. */
  lemma QuietStep(th: Tracee, act: Act, maxSize: nat)
    requires Enabled(th, act) && IndexOk(th)
    requires !th.phase.Idle? && !th.phase.Losing? && !th.phase.Putting? && !GivesUp(th, act)
    ensures var th' := TraceeStep(th, act, maxSize).0;
            && th'.log == th.log && TodoOf(th') == TodoOf(th) && (Early(th') ==> Early(th))
            && (!th.phase.Unborn? ==> th'.losts == th.losts) && (th.phase.Unborn? ==> th'.losts == 0)
            && !th'.phase.Unborn?
  {
  }

  lemma QuietAgrees(th: Tracee, th': Tracee, h: History)
    requires Agree(th, h) && th'.log == th.log && th'.losts == th.losts && TodoOf(th') == TodoOf(th)
    requires (Early(th') ==> Early(th)) && (th'.phase.Unborn? ==> th.phase.Unborn?)
    ensures Agree(th', h)
  {
    hide Text, Concat, TodoOf, Early;
  }

  lemma LoseAgrees(th: Tracee, act: Act, maxSize: nat, h: History)
    requires Enabled(th, act) && IndexOk(th) && Agree(th, h) && th.phase.Losing?
    ensures Agree(TraceeStep(th, act, maxSize).0, Told(th, act, h))
  {
    EarlyLog(th, h);
    var n, todo := |h.records| - 1, TodoOf(th);
    var r := Record(act.lost, todo);
    assert h.records[n := h.records[n].(lost := act.lost)] == h.records[..n] + [r];
    TextSnoc(h.records[..n], r);
    Regroup(th.log, act.lost, Concat(todo));
    hide Text, Concat;
  }

  lemma PutAgrees(th: Tracee, act: Act, maxSize: nat, h: History)
    requires Enabled(th, act) && IndexOk(th) && Agree(th, h) && th.phase.Putting?
    ensures Agree(TraceeStep(th, act, maxSize).0, Told(th, act, h))
  {
    Empties(th.log);
    if th.phase.todo != [] {
      ConcatFirst(th.phase.todo);
      Regroup(th.log, th.phase.todo[0], Concat(th.phase.todo[1..]));
    }
    hide Text, Concat;
  }

  lemma AgreeParts(th: Tracee, h: History)
    requires Agree(th, h)
    ensures th.phase.Unborn? ==> th.losts == 0
  {
  }

  /** One action of the thread. */
  lemma StepAgrees(th: Tracee, act: Act, maxSize: nat, h: History)
    requires Enabled(th, act) && IndexOk(th) && Agree(th, h)
    ensures Agree(TraceeStep(th, act, maxSize).0, Told(th, act, h))
  {
    AgreeParts(th, h);
    hide Agree, TraceeStep, Enabled, IndexOk, TodoOf, Early;
    if th.phase.Idle? {
      BeginAgrees(th, act, maxSize, h);
    } else if th.phase.Losing? {
      LoseAgrees(th, act, maxSize, h);
    } else if th.phase.Putting? {
      PutAgrees(th, act, maxSize, h);
    } else if GivesUp(th, act) {
      GiveUpAgrees(th, act, maxSize, h);
    } else {
      QuietStep(th, act, maxSize);
      QuietAgrees(th, TraceeStep(th, act, maxSize).0, h);
    }
  }

  // ----- everybody else leaves it alone -----

  predicate SameThread(th: Tracee, th': Tracee) {
    th' == th.(bufs := th'.bufs, dead := th'.dead)
  }

  lemma SameAgrees(th: Tracee, th': Tracee, h: History)
    requires SameThread(th, th') && Agree(th, h)
    ensures Agree(th', h)
  {
  }

  lemma MainSame(s: State, t: Tid)
    ensures SameThread(ThreadOf(s, t), ThreadOf(MainNext(s), t))
  {
    hide MainNext;
    MainFrame(s, t);
    if s.main.Draining? && s.queue != [] && s.queue[0].tid == t {
      DrainsFirst(s);
      DrainFrame(s);
      FiledIs(s, s.queue[0], t);
      WithBufsIs(Filed(s, s.queue[0]), s.queue[0], Zeroed(s, s.queue[0]), t);
      hide DrainNext, WithBufs, Filed, Zeroed, ThreadOf;
    }
  }

  lemma WriteSame(v: Local)
    requires v.srv.Server? && ServerOk(v.srv)
    ensures SameThread(v.th, WriteStep(v).th)
  {
  }

  lemma WriterSame(s: State, w: nat, stop: bool, t: Tid)
    requires GInv(s) && w < |s.writers|
    ensures SameThread(ThreadOf(s, t), ThreadOf(WriterNext(s, w, stop), t))
  {
    hide GInv, WriterNext;
    WriterThreads(s, w, stop, t);
    if s.writers[w].listed && !s.writers[w].phase.Checking? && s.writers[w].tid == t {
      WritersRight(s);
      ListedIgnoresStop(s, w, stop);
      WritingViewAll(s, w, t);
      ViewThread(s, t);
      ViewThread(WriterNext(s, w, false), t);
      WriteSame(View(s, t));
      hide View, WriteStep;
    }
  }

  lemma NextAgrees(s: State, a: Action, t: Tid, h: History)
    requires GInv(s) && Agree(ThreadOf(s, t), h)
    ensures Agree(ThreadOf(Next(s, a), t), if Acts(s, a, t) then Told(ThreadOf(s, t), a.act, h) else h)
  {
    hide GInv, Agree, MainNext, WriterNext, TraceeStep, Told;
    match a
    case ByTracee(u, act) =>
      if Acts(s, a, t) {
        StepAgrees(ThreadOf(s, t), act, s.maxSize, h);
      }
    case Kill(_) => SameAgrees(ThreadOf(s, t), ThreadOf(Next(s, a), t), h);
    case Hangup =>
    case ByMain =>
      MainSame(s, t);
      SameAgrees(ThreadOf(s, t), ThreadOf(MainNext(s), t), h);
    case ByWriter(w, stop) =>
      if w < |s.writers| {
        WriterSame(s, w, stop, t);
        SameAgrees(ThreadOf(s, t), ThreadOf(WriterNext(s, w, stop), t), h);
      }
  }

  lemma {:induction false} ExecAgrees(s: State, run: seq<Action>, t: Tid, h: History)
    requires GInv(s) && Agree(ThreadOf(s, t), h)
    ensures Agree(ThreadOf(Exec(s, run), t), Asked(s, run, t, h))
    decreases |run|
  {
    if run != [] {
      hide GInv, Agree, Next, Told, Acts;
      NextAgrees(s, run[0], t, h);
      NextKeeps(s, run[0]);
      ExecAgrees(Next(s, run[0]), run[1..], t, if Acts(s, run[0], t) then Told(ThreadOf(s, t), run[0].act, h) else h);
    }
  }

  // ----- what the files hold -----

  lemma UnbornAgrees()
    ensures Agree(UNBORN, NOTHING_YET)
  {
    assert UNBORN.log + Concat([]) == [];
  }

  /** MAIN RESULT (nothing is dropped on the way into the buffers). In every reachable state the log
      of a thread, and then the pieces of the current record still to be written, are the records
      it was asked to write, in order and with the LOST records in front of theirs, except those
      that got no buffer; and `losts` counts those, twice each, since the last LOST record. */
  lemma LogIsAsked(nrThread: nat, maxSize: nat, run: seq<Action>, t: Tid)
    ensures var th := ThreadOf(Reached(nrThread, maxSize, run), t);
            && th.log + Concat(TodoOf(th)) == Text(AskedOf(nrThread, maxSize, run, t))
            && th.losts == 2 * Asked(Init(nrThread, maxSize), run, t, NOTHING_YET).missed
  {
    hide GInv, Exec, Asked, Text, Concat;
    InitOk(nrThread, maxSize);
    assert Agree(ThreadOf(Init(nrThread, maxSize), t), NOTHING_YET) by {
      UnbornAgrees();
    }
    ExecAgrees(Init(nrThread, maxSize), run, t, NOTHING_YET);
  }

  /** MAIN RESULT (the files hold what was asked for). In every reachable state what a thread was asked
      to write is its data file, then the buffers on their way, oldest first, then the pieces still to
      be written. */
  lemma FileThenRest(nrThread: nat, maxSize: nat, run: seq<Action>, t: Tid)
    ensures var s := Reached(nrThread, maxSize, run);
            && ServerOk(View(s, t).srv)
            && Text(AskedOf(nrThread, maxSize, run, t)) ==
               FileOf(s, t) + Flat(ThreadOf(s, t).bufs, Load(View(s, t))) + Concat(TodoOf(ThreadOf(s, t)))
  {
    LogIsAsked(nrThread, maxSize, run, t);
    FileThenLoad(nrThread, maxSize, run, t);
  }

  /** MAIN RESULT (final files). When the recorder is done, what a thread was asked to write is its
      file, then what was lost in the closed pipe, then what it had not written when it was killed. */
  lemma FinalContents(nrThread: nat, maxSize: nat, run: seq<Action>, t: Tid)
    ensures var s := Reached(nrThread, maxSize, run);
            s.main.Finished? ==>
              Text(AskedOf(nrThread, maxSize, run, t)) == FileOf(s, t) + Lost(s, t) + Concat(TodoOf(ThreadOf(s, t)))
  {
    LogIsAsked(nrThread, maxSize, run, t);
    FinalFile(nrThread, maxSize, run, t);
  }

  /** MAIN RESULT (complete files). When the recorder is done the file of a thread holds all it was
      asked to write, but for the pieces a killed thread had not written, iff the thread appended
      nothing after announcing a buffer into a closed pipe. For a thread that came to its end there
      are no such pieces. */
  lemma CompleteContentsIff(nrThread: nat, maxSize: nat, run: seq<Action>, t: Tid)
    ensures var s, text := Reached(nrThread, maxSize, run), Text(AskedOf(nrThread, maxSize, run, t));
            && (s.main.Finished? ==>
                  (FileOf(s, t) + Concat(TodoOf(ThreadOf(s, t))) == text <==>
                   NeverUnheard(Init(nrThread, maxSize), run, t)))
            && (s.main.Finished? && ThreadOf(s, t).phase.Ended? ==>
                  (FileOf(s, t) == text <==> NeverUnheard(Init(nrThread, maxSize), run, t)))
  {
    hide NeverUnheard, AskedOf, Text, Exec;
    var s, todo := Reached(nrThread, maxSize, run), Concat(TodoOf(ThreadOf(Reached(nrThread, maxSize, run), t)));
    LogIsAsked(nrThread, maxSize, run, t);
    CompleteIff(nrThread, maxSize, run, t);
    if FileOf(s, t) + todo == LogOf(s, t) + todo {
      SameEnd(FileOf(s, t), LogOf(s, t), todo);
    }
    Empties(LogOf(s, t));
    Empties(FileOf(s, t));
  }

  lemma {:induction false} LostSizesKept(s: State, run: seq<Action>, t: Tid, h: History)
    requires forall r :: r in h.records ==> |r.lost| == 0 || |r.lost| == 16
    ensures forall r :: r in Asked(s, run, t, h).records ==> |r.lost| == 0 || |r.lost| == 16
    decreases |run|
  {
    hide Next, ThreadOf, IndexOk, Stopped;
    if run != [] {
      var h' := if Acts(s, run[0], t) then Told(ThreadOf(s, t), run[0].act, h) else h;
      assert forall r :: r in h'.records ==> |r.lost| == 0 || |r.lost| == 16;
      LostSizesKept(Next(s, run[0]), run[1..], t, h');
    }
  }

  /** In front of a record there is nothing or one LOST record of 16 bytes. */
  lemma LostSizes(nrThread: nat, maxSize: nat, run: seq<Action>, t: Tid)
    ensures forall r :: r in AskedOf(nrThread, maxSize, run, t) ==> |r.lost| == 0 || |r.lost| == 16
  {
    LostSizesKept(Init(nrThread, maxSize), run, t, NOTHING_YET);
  }
}
