/** What the data files hold when the recorder is done, and exactly when they are complete. */
module RecordingOutcome {
  import opened BufferProtocol
  import opened BufferProtocolProofs
  import opened RecordingPipeline
  import opened RecordingPipelineProofs

  /** The buffers the thread announced when nobody could hear it any more. */
  function Unheard(s: State, t: Tid): seq<nat> {
    Starts(NotesOf(s.dropped, t))
  }

  /** What is in them. */
  function Lost(s: State, t: Tid): Bytes {
    Flat(ThreadOf(s, t).bufs, Unheard(s, t))
  }

  lemma BeltEnds(v: Local, p: seq<nat>, u: seq<nat>)
    requires ServerOk(v.srv) && Starts(v.pipe) == p + u
    ensures |u| <= |Load(v)| <= |Belt(v)| && Belt(v)[|Belt(v)| - |u|..] == u && Load(v)[|Load(v)| - |u|..] == u
    ensures v.srv.Server? && !v.srv.phase.Checking? ==> |u| < |Belt(v)|
    ensures v.queue != [] ==> |u| < |Belt(v)|
  {
    hide Starts;
    var front := Held(v.srv) + v.queue + v.hand + v.open + p;
    assert Belt(v) == front + u;
  }

  /** The unheard buffers end the belt and the load. */
  lemma UnheardEnds(s: State, t: Tid)
    requires ServerOk(View(s, t).srv)
    ensures var v, u := View(s, t), Unheard(s, t);
            && |u| <= |Load(v)| <= |Belt(v)| && Belt(v)[|Belt(v)| - |u|..] == u && Load(v)[|Load(v)| - |u|..] == u
            && (v.srv.Server? && !v.srv.phase.Checking? ==> |u| < |Belt(v)|)
            && (v.queue != [] ==> |u| < |Belt(v)|)
  {
    NotesAppend(s.pipe, s.dropped, t);
    StartsAppend(NotesOf(s.pipe, t), NotesOf(s.dropped, t));
    BeltEnds(View(s, t), Starts(NotesOf(s.pipe, t)), Unheard(s, t));
  }

  // ----- what is lost stays lost, and grows with what is appended to it -----

  lemma SplitLast(u: seq<nat>, i: nat)
    requires u != [] && u[|u| - 1] == i
    ensures u == u[..|u| - 1] + [i]
  {
  }

  lemma NothingMore(b: Bytes)
    ensures b + [] == b
  {
  }

  /** The end of a sequence consists of its elements and has its last. */
  lemma InSuffix(load: seq<nat>, u: seq<nat>)
    requires |u| <= |load| && load[|load| - |u|..] == u
    ensures forall n :: n in u ==> n in load
    ensures u != [] ==> u[|u| - 1] == load[|load| - 1]
    ensures u != [] ==> forall n :: n in u[..|u| - 1] ==> n in u && n in load[..|load| - 1]
  {
    forall k | 0 <= k < |u| ensures u[k] == load[|load| - |u| + k] {}
    if u != [] {
      forall n | n in u[..|u| - 1] ensures n in u && n in load[..|load| - 1] {
        var k :| 0 <= k < |u| - 1 && u[k] == n;
        assert load[..|load| - 1][|load| - |u| + k] == n;
      }
    }
  }

  lemma SuffixGrows(v: Local, act: Act, maxSize: nat, u: seq<nat>)
    requires Inv(v) && Enabled(v.th, act) && IndexOk(v.th)
    requires |u| <= |Load(v)| && Load(v)[|Load(v)| - |u|..] == u
    ensures Flat(TraceeStep(v.th, act, maxSize).0.bufs, u) ==
            Flat(v.th.bufs, u) + if u == [] then [] else Appended(v.th, act)
  {
    hide *;
    Fits(v);
    var bufs', load := TraceeStep(v.th, act, maxSize).0.bufs, Load(v);
    AppendsOnlyWhenOpen(v.th, Belt(v), act, maxSize);
    InSuffix(load, u);
    forall n | n in u && OpenOf(v.th) != Open(n) ensures DataOf(v.th.bufs, n) == DataOf(bufs', n) {
      LoadUntouched(v, act, maxSize, n);
    }
    if u != [] && OpenOf(v.th).Open? {
      var i := OpenOf(v.th).i;
      OpenLast(v, act, maxSize, i);
      var front := u[..|u| - 1];
      SplitLast(u, i);
      LastGrows(v.th.bufs, bufs', front, i, Appended(v.th, act));
    } else {
      FlatFrame(v.th.bufs, bufs', u);
      NothingMore(Flat(v.th.bufs, u));
    }
  }

  /** Touching the first buffer of the belt leaves an end of the belt alone. */
  lemma HeadTouched(bufs: seq<Shm>, bufs': seq<Shm>, belt: seq<nat>, u: seq<nat>)
    requires NoDup(belt) && |u| < |belt| && belt[|belt| - |u|..] == u
    requires forall n :: n != belt[0] ==> DataOf(bufs', n) == DataOf(bufs, n)
    ensures Flat(bufs', u) == Flat(bufs, u)
  {
    forall n | n in u ensures n != belt[0] {
      var k :| 0 <= k < |u| && u[k] == n;
      assert belt[|belt| - |u| + k] == n;
    }
    FlatFrame(bufs, bufs', u);
  }

  /** What the action appends, if it is an action of the thread that takes place. */
  function AppendedBy(s: State, a: Action, t: Tid): Bytes {
    if a.ByTracee? && a.tid == t && IndexOk(ThreadOf(s, t)) && Enabled(ThreadOf(s, t), a.act) && !Stopped(s.main)
    then Appended(ThreadOf(s, t), a.act) else []
  }

  lemma ViewKept(s: State, t: Tid)
    requires GInv(s) && !Stopped(s.main)
    ensures Inv(View(s, t))
  {
    hide Inv, Sound, View;
    assert Good(s.main, View(s, t));
  }

  lemma LostIs(s: State, t: Tid)
    ensures Lost(s, t) == Flat(ThreadOf(s, t).bufs, Unheard(s, t))
  {
  }

  lemma NoneFlat(bufs: seq<Shm>)
    ensures Flat(bufs, []) == []
  {
  }

  lemma NothingUnheard(s: State, t: Tid)
    requires GInv(s)
    ensures s.connected ==> Unheard(s, t) == []
  {
    hide Good;
  }

  /** Where the messages of an action go. */
  lemma SendsUnheard(s: State, t: Tid, act: Act)
    requires IndexOk(ThreadOf(s, t)) && Enabled(ThreadOf(s, t), act) && !Stopped(s.main)
    ensures var s', sent := TraceeNext(s, t, act), TraceeStep(ThreadOf(s, t), act, s.maxSize).1;
            && ThreadOf(s', t) == TraceeStep(ThreadOf(s, t), act, s.maxSize).0
            && Unheard(s', t) == Unheard(s, t) + if s.connected then [] else Starts(sent)
  {
    hide TraceeStep;
    var sent := TraceeStep(ThreadOf(s, t), act, s.maxSize).1;
    NotesAppend(s.dropped, Tagged(t, sent), t);
    NotesOfTagged(t, sent, t);
    StartsAppend(NotesOf(s.dropped, t), sent);
    hide NotesOf, Starts, Tagged;
    assert Unheard(s, t) + [] == Unheard(s, t);
  }

  lemma TraceeLost(s: State, t: Tid, act: Act)
    requires GInv(s) && IndexOk(ThreadOf(s, t)) && Enabled(ThreadOf(s, t), act) && !Stopped(s.main)
    ensures var s' := TraceeNext(s, t, act);
            && Lost(s', t) == Lost(s, t) + (if Unheard(s, t) == [] then [] else Appended(ThreadOf(s, t), act))
            && (Unheard(s, t) != [] ==> Unheard(s', t) != [])
  {
    hide *;
    ViewThread(s, t);
    var v, u, s' := View(s, t), Unheard(s, t), TraceeNext(s, t, act);
    var (th', sent) := TraceeStep(v.th, act, s.maxSize);
    ViewKept(s, t);
    Fits(v);
    UnheardEnds(s, t);
    SuffixGrows(v, act, s.maxSize, u);
    SendsUnheard(s, t, act);
    MessageMatchesPhase(v.th, Belt(v), act, s.maxSize);
    EmptyStarts(th'.bufs, sent, Belt(v));
    FlatAppend(th'.bufs, u, Starts(sent));
    LostIs(s, t);
    LostIs(s', t);
    NothingUnheard(s, t);
    if s.connected {
      assert Flat(th'.bufs, u) == [] by { NoneFlat(th'.bufs); }
      assert Lost(s', t) == [] by { NoneFlat(th'.bufs); }
    } else {
      assert Flat(th'.bufs, u) + [] == Flat(th'.bufs, u);
    }
  }

  /** Another thread's action. */
  lemma OtherLost(s: State, t: Tid, act: Act, u: Tid)
    requires u != t
    ensures Lost(TraceeNext(s, t, act), u) == Lost(s, u) && Unheard(TraceeNext(s, t, act), u) == Unheard(s, u)
  {
    if IndexOk(ThreadOf(s, t)) && Enabled(ThreadOf(s, t), act) && !Stopped(s.main) {
      hide TraceeStep;
      var sent := TraceeStep(ThreadOf(s, t), act, s.maxSize).1;
      NotesAppend(s.dropped, Tagged(t, sent), u);
      NotesOfTagged(t, sent, u);
      assert NotesOf(s.dropped, u) + [] == NotesOf(s.dropped, u);
    }
  }

  lemma DrainsFirst(s: State)
    requires s.main.Draining? && s.queue != []
    ensures Flushed(s.main) && MainNext(s) == DrainNext(s)
  {
  }

  lemma Kept(s: State, t: Tid)
    requires GInv(s)
    ensures Sound(View(s, t)) && ServerOk(View(s, t).srv) && NoDup(Belt(View(s, t)))
  {
    hide View, Inv;
    assert Good(s.main, View(s, t));
    GoodFacts(s.main, View(s, t));
  }

  lemma QueueFirst(v: Local)
    requires ServerOk(v.srv) && v.srv.NoServer? && v.queue != []
    ensures Belt(v) != [] && forall n :: n != Belt(v)[0] ==> DataOf(DrainStep(v).th.bufs, n) == DataOf(v.th.bufs, n)
  {
    assert Belt(v)[0] == v.queue[0];
  }

  lemma SameUnheard(s: State, s': State, t: Tid)
    requires s'.dropped == s.dropped
    ensures Unheard(s', t) == Unheard(s, t)
  {
  }

  lemma DrainLost(s: State, t: Tid)
    requires GInv(s) && s.main.Draining? && s.queue != [] && s.queue[0].tid == t
    requires MainNext(s).dropped == s.dropped
    ensures Lost(MainNext(s), t) == Lost(s, t)
  {
    hide *;
    var v, s' := View(s, t), MainNext(s);
    Kept(s, t);
    DrainView(s, t);
    ViewThread(s, t);
    ViewThread(s', t);
    UnheardEnds(s, t);
    DrainsFirst(s);
    AllExited(s, t);
    QueueFirst(v);
    SameUnheard(s, s', t);
    HeadTouched(v.th.bufs, View(s', t).th.bufs, Belt(v), Unheard(s, t));
    LostIs(s, t);
    LostIs(s', t);
  }

  /** Threads, files and what was unheard stay. */
  predicate Unmoved(s: State, s': State) {
    s' == s.(pipe := s'.pipe, open := s'.open, main := s'.main, queue := s'.queue, writers := s'.writers)
  }

  lemma ReceiveUnmoved(s: State, back: Back)
    requires s.pipe != []
    ensures Unmoved(s, ReceiveNext(s, back))
  {
    hide Without;
  }

  lemma EnqueueUnmoved(s: State, n: Name, back: Main)
    ensures Unmoved(s, EnqueueNext(s, n, back))
  {
    hide Serving;
  }

  lemma StageUnmoved(s: State, open: seq<Name>, m: Main)
    ensures Unmoved(s, s) && Unmoved(s, s.(main := m)) && Unmoved(s, s.(open := open, main := m))
  {
  }

  lemma MainUnmoved(s: State)
    requires !(s.main.Draining? && s.queue != [])
    ensures Unmoved(s, MainNext(s))
  {
    hide AllOver, Worthwhile, ReceiveNext, EnqueueNext, ThreadOf, DrainNext, Unmoved;
    var open := if s.open == [] then [] else s.open[1..];
    StageUnmoved(s, open, MainNext(s).main);
    match s.main
    case Polling => if s.pipe != [] { ReceiveUnmoved(s, if s.connected then ToPolling else ToReading); }
    case Reading => if s.pipe != [] { ReceiveUnmoved(s, ToReading); }
    case Holding(n, back, examined) => if examined { EnqueueUnmoved(s, n, Resumed(back)); }
    case _ =>
  }

  /** What the main thread's steps leave alone. */
  lemma MainFrame(s: State, t: Tid)
    ensures MainNext(s).dropped == s.dropped && MainNext(s).connected == s.connected
    ensures !(s.main.Draining? && s.queue != [] && s.queue[0].tid == t) ==> ThreadOf(MainNext(s), t) == ThreadOf(s, t)
  {
    if s.main.Draining? && s.queue != [] {
      DrainsFirst(s);
      DrainFrame(s);
      FiledIs(s, s.queue[0], t);
      WithBufsIs(Filed(s, s.queue[0]), s.queue[0], Zeroed(s, s.queue[0]), t);
      hide *;
    } else {
      MainUnmoved(s);
      hide MainNext;
    }
  }

  lemma MainLost(s: State, t: Tid)
    requires GInv(s)
    ensures Lost(MainNext(s), t) == Lost(s, t) && Unheard(MainNext(s), t) == Unheard(s, t)
  {
    hide *;
    MainFrame(s, t);
    SameUnheard(s, MainNext(s), t);
    if s.main.Draining? && s.queue != [] && s.queue[0].tid == t {
      DrainLost(s, t);
    } else {
      LostIs(s, t);
      LostIs(MainNext(s), t);
    }
  }

  lemma BufsOver(th: Tracee, bufs: seq<Shm>)
    requires Over(th)
    ensures Over(th.(bufs := bufs))
  {
  }

  lemma MainOver(s: State, t: Tid)
    requires Over(ThreadOf(s, t))
    ensures Over(ThreadOf(MainNext(s), t))
  {
    hide MainNext, Over;
    MainFrame(s, t);
    if s.main.Draining? && s.queue != [] && s.queue[0].tid == t {
      DrainsFirst(s);
      DrainFrame(s);
      FiledIs(s, s.queue[0], t);
      WithBufsIs(Filed(s, s.queue[0]), s.queue[0], Zeroed(s, s.queue[0]), t);
      BufsOver(ThreadOf(s, t), Zeroed(s, s.queue[0]));
      hide *;
    }
  }

  lemma WriteOverOne(s: State, w: nat)
    requires w < |s.writers| && !s.writers[w].phase.Checking? && s.writers[w].phase.k < |s.writers[w].head|
    ensures var t := s.writers[w].head[s.writers[w].phase.k].tid;
            Over(ThreadOf(s, t)) ==> Over(ThreadOf(WriteNext(s, w), t))
  {
    hide Zeroed, Released, FileOf, DataOf;
  }

  lemma WritersRight(s: State)
    requires GInv(s)
    ensures WritersOk(s.writers)
  {
    hide Good;
  }

  /** A writer not at a buffer touches no thread. */
  lemma WriterTakes(s: State, w: nat, stop: bool)
    requires w < |s.writers| && !(s.writers[w].listed && !s.writers[w].phase.Checking?)
    ensures WriterNext(s, w, stop).threads == s.threads
  {
    hide OfTid, NotOfTid, WriteNext;
  }

  lemma WriterThreads(s: State, w: nat, stop: bool, t: Tid)
    requires GInv(s) && w < |s.writers|
    ensures WriterNext(s, w, stop).dropped == s.dropped && WriterNext(s, w, stop).connected == s.connected
    ensures !(s.writers[w].listed && !s.writers[w].phase.Checking? && s.writers[w].tid == t) ==>
              ThreadOf(WriterNext(s, w, stop), t) == ThreadOf(s, t)
  {
    WritersRight(s);
    WriterFrame(s, w, stop);
    if s.writers[w].listed && !s.writers[w].phase.Checking? {
      WriterWrites(s, w, stop);
      HeadIsOwn(s.writers, w);
      hide *;
      if s.writers[w].tid != t {
        WriteOthers(s, w, t);
      }
    } else {
      WriterTakes(s, w, stop);
      hide WriterNext, GInv, WritersOk;
    }
  }

  lemma WriterOver(s: State, w: nat, stop: bool, t: Tid)
    requires GInv(s) && w < |s.writers| && Over(ThreadOf(s, t))
    ensures Over(ThreadOf(WriterNext(s, w, stop), t))
  {
    hide GInv, WriterNext, Over;
    WriterThreads(s, w, stop, t);
    if s.writers[w].listed && !s.writers[w].phase.Checking? && s.writers[w].tid == t {
      WritersRight(s);
      WriterWrites(s, w, stop);
      HeadIsOwn(s.writers, w);
      WriteOverOne(s, w);
    }
  }

  lemma ListedIgnoresStop(s: State, w: nat, stop: bool)
    requires w < |s.writers| && s.writers[w].listed
    ensures WriterNext(s, w, stop) == WriterNext(s, w, false)
  {
  }

  lemma HeadFirst(v: Local)
    requires ServerOk(v.srv) && v.srv.Server? && !v.srv.phase.Checking?
    ensures Belt(v) != [] && forall n :: n != Belt(v)[0] ==> DataOf(WriteStep(v).th.bufs, n) == DataOf(v.th.bufs, n)
  {
    assert Belt(v)[0] == v.srv.head[v.srv.phase.k];
  }

  /** A writer touches the first buffer of the belt only. */
  lemma ServingLost(s: State, w: nat, stop: bool)
    requires GInv(s) && w < |s.writers| && s.writers[w].listed && !s.writers[w].phase.Checking?
    requires WriterNext(s, w, stop).dropped == s.dropped
    ensures var t := s.writers[w].tid; Lost(WriterNext(s, w, stop), t) == Lost(s, t)
  {
    hide *;
    var t, s' := s.writers[w].tid, WriterNext(s, w, stop);
    var v := View(s, t);
    Kept(s, t);
    WritersRight(s);
    ListedIgnoresStop(s, w, stop);
    WritingViewAll(s, w, t);
    ServedView(s, w);
    ViewThread(s, t);
    ViewThread(s', t);
    UnheardEnds(s, t);
    HeadFirst(v);
    HeadTouched(v.th.bufs, View(s', t).th.bufs, Belt(v), Unheard(s, t));
    LostIs(s, t);
    LostIs(s', t);
    SameUnheard(s, s', t);
  }

  lemma WriterLost(s: State, w: nat, stop: bool, t: Tid)
    requires GInv(s) && w < |s.writers|
    ensures Lost(WriterNext(s, w, stop), t) == Lost(s, t) && Unheard(WriterNext(s, w, stop), t) == Unheard(s, t)
  {
    hide GInv, WriterNext;
    WriterThreads(s, w, stop, t);
    if s.writers[w].listed && !s.writers[w].phase.Checking? && s.writers[w].tid == t {
      ServingLost(s, w, stop);
    }
  }

  lemma Idles(s: State, t: Tid, act: Act)
    requires !(IndexOk(ThreadOf(s, t)) && Enabled(ThreadOf(s, t), act) && !Stopped(s.main))
    ensures TraceeNext(s, t, act) == s
  {
  }

  /** Over any step the lost bytes grow by what is appended while something is unheard. */
  lemma LostStep(s: State, a: Action, t: Tid)
    requires GInv(s)
    ensures Lost(Next(s, a), t) == Lost(s, t) + if Unheard(s, t) == [] then [] else AppendedBy(s, a, t)
  {
    hide GInv, TraceeNext, MainNext, WriterNext, Appended;
    assert Lost(s, t) + [] == Lost(s, t);
    match a
    case ByTracee(u, act) =>
      if u != t {
        OtherLost(s, u, act, t);
      } else if IndexOk(ThreadOf(s, t)) && Enabled(ThreadOf(s, t), act) && !Stopped(s.main) {
        TraceeLost(s, t, act);
      } else {
        Idles(s, t, act);
      }
    case Kill(_) =>
    case Hangup =>
    case ByMain => MainLost(s, t);
    case ByWriter(w, stop) => if w < |s.writers| { WriterLost(s, w, stop, t); }
  }

  // ----- at the end -----

  lemma FinishedBelt(s: State, t: Tid)
    requires GInv(s) && s.main.Finished?
    ensures ServerOk(View(s, t).srv) && Load(View(s, t)) == Unheard(s, t)
  {
    hide Good;
    ServingNone(s.writers, t);
    assert s.pipe + s.dropped == s.dropped;
    assert View(s, t).srv.NoServer?;
    assert View(s, t).queue == [] && View(s, t).open == [] && View(s, t).hand == [];
  }

  /** MAIN RESULT (refinement to one append-only log). When the recorder is done, the file of
      every thread id followed by the contents of the buffers whose announcement found the pipe
      closed is everything the thread appended, whatever the interleaving, the number of
      writers, the buffer sizes and the places where threads were killed. */
  lemma FinalFile(nrThread: nat, maxSize: nat, run: seq<Action>, t: Tid)
    ensures var s := Reached(nrThread, maxSize, run);
            s.main.Finished? ==> LogOf(s, t) == FileOf(s, t) + Lost(s, t)
  {
    var s := Reached(nrThread, maxSize, run);
    ReachedOk(nrThread, maxSize, run, t);
    if s.main.Finished? {
      FinishedBelt(s, t);
    }
  }

  /** THE CONDITION. Along the run the thread appends nothing after the announcement of one of
      its buffers found the pipe closed (the early return of uftrace_send_message). */
  predicate NeverUnheard(s: State, run: seq<Action>, t: Tid)
    decreases |run|
  {
    run == [] || ((Unheard(s, t) == [] || AppendedBy(s, run[0], t) == []) && NeverUnheard(Next(s, run[0]), run[1..], t))
  }

  lemma {:induction false} ExecLost(s: State, run: seq<Action>, t: Tid)
    requires GInv(s)
    ensures Lost(Exec(s, run), t) == [] <==> Lost(s, t) == [] && NeverUnheard(s, run, t)
    decreases |run|
  {
    if run != [] {
      hide GInv, Next, Lost, AppendedBy, Unheard;
      LostStep(s, run[0], t);
      NextKeeps(s, run[0]);
      ExecLost(Next(s, run[0]), run[1..], t);
    }
  }

  lemma ReachedIs(nrThread: nat, maxSize: nat, run: seq<Action>)
    ensures Reached(nrThread, maxSize, run) == Exec(Init(nrThread, maxSize), run)
  {
  }

  lemma NothingLostYet(nrThread: nat, maxSize: nat, t: Tid)
    ensures Lost(Init(nrThread, maxSize), t) == []
  {
  }

  /** MAIN RESULT (complete files). When the recorder is done the file of a thread is everything
      the thread appended iff the thread appended nothing after announcing a buffer into a closed
      pipe. */
  lemma CompleteIff(nrThread: nat, maxSize: nat, run: seq<Action>, t: Tid)
    ensures var s := Reached(nrThread, maxSize, run);
            s.main.Finished? ==> (FileOf(s, t) == LogOf(s, t) <==> NeverUnheard(Init(nrThread, maxSize), run, t))
  {
    hide *;
    var s, s0 := Reached(nrThread, maxSize, run), Init(nrThread, maxSize);
    FinalFile(nrThread, maxSize, run, t);
    InitOk(nrThread, maxSize);
    ExecLost(s0, run, t);
    ReachedIs(nrThread, maxSize, run);
    NothingLostYet(nrThread, maxSize, t);
    if s.main.Finished? {
      assert |LogOf(s, t)| == |FileOf(s, t)| + |Lost(s, t)|;
      assert FileOf(s, t) + [] == FileOf(s, t);
    }
  }

  /** Whenever the pipe is closed the thread has already ended or been killed. */
  predicate OverAtHangup(s: State, run: seq<Action>, t: Tid)
    decreases |run|
  {
    run == [] || ((run[0].Hangup? ==> Over(ThreadOf(s, t))) && OverAtHangup(Next(s, run[0]), run[1..], t))
  }

  lemma OverDisabled(th: Tracee, act: Act)
    requires Over(th)
    ensures !Enabled(th, act)
  {
  }

  lemma OtherNotes(s: State, u: Tid, act: Act, t: Tid)
    requires u != t
    ensures NotesOf(TraceeNext(s, u, act).dropped, t) == NotesOf(s.dropped, t)
    ensures ThreadOf(TraceeNext(s, u, act), t) == ThreadOf(s, t)
  {
    if IndexOk(ThreadOf(s, u)) && Enabled(ThreadOf(s, u), act) && !Stopped(s.main) {
      hide TraceeStep;
      var sent := TraceeStep(ThreadOf(s, u), act, s.maxSize).1;
      NotesAppend(s.dropped, Tagged(u, sent), t);
      NotesOfTagged(u, sent, t);
      assert NotesOf(s.dropped, t) + [] == NotesOf(s.dropped, t);
    }
  }

  lemma OverStays(s: State, a: Action, t: Tid)
    requires GInv(s) && Over(ThreadOf(s, t))
    ensures Over(ThreadOf(Next(s, a), t)) && NotesOf(Next(s, a).dropped, t) == NotesOf(s.dropped, t)
    ensures AppendedBy(s, a, t) == []
  {
    hide GInv, MainNext, WriterNext, TraceeNext, NotesOf, IndexOk, Appended;
    match a
    case ByTracee(u, act) =>
      if u == t {
        OverDisabled(ThreadOf(s, t), act);
        Idles(s, t, act);
      } else {
        OtherNotes(s, u, act, t);
      }
    case Kill(_) =>
    case Hangup =>
    case ByMain =>
      MainFrame(s, t);
      MainOver(s, t);
    case ByWriter(w, stop) =>
      if w < |s.writers| {
        WriterThreads(s, w, stop, t);
        WriterOver(s, w, stop, t);
      }
  }

  lemma ConnectedStays(s: State, a: Action)
    requires GInv(s) && s.connected && !a.Hangup?
    ensures Next(s, a).connected
  {
    hide GInv, MainNext, WriterNext, TraceeStep;
    match a
    case ByTracee(_, _) =>
    case Kill(_) =>
    case Hangup =>
    case ByMain => MainFrame(s, 0);
    case ByWriter(w, stop) => if w < |s.writers| { WriterThreads(s, w, stop, 0); }
  }

  lemma StillHeard(s: State, a: Action, t: Tid)
    requires GInv(s) && (s.connected || (Over(ThreadOf(s, t)) && NotesOf(s.dropped, t) == []))
    requires a.Hangup? ==> Over(ThreadOf(s, t))
    ensures var s' := Next(s, a); s'.connected || (Over(ThreadOf(s', t)) && NotesOf(s'.dropped, t) == [])
  {
    if Over(ThreadOf(s, t)) {
      OverStays(s, a, t);
      hide Good, Over;
    } else {
      ConnectedStays(s, a);
    }
  }

  lemma EmptyUnheard(s: State, t: Tid)
    requires NotesOf(s.dropped, t) == []
    ensures Unheard(s, t) == []
  {
  }

  lemma {:induction false} OverHeard(s: State, run: seq<Action>, t: Tid)
    requires GInv(s) && (s.connected || (Over(ThreadOf(s, t)) && NotesOf(s.dropped, t) == []))
    requires OverAtHangup(s, run, t)
    ensures NeverUnheard(s, run, t)
    decreases |run|
  {
    if run != [] {
      hide GInv, Next, Over, AppendedBy, NotesOf;
      NothingUnheard(s, t);
      if NotesOf(s.dropped, t) == [] {
        EmptyUnheard(s, t);
      }
      NextKeeps(s, run[0]);
      StillHeard(s, run[0], t);
      OverHeard(Next(s, run[0]), run[1..], t);
    }
  }

  /** MAIN RESULT (a thread that ends before its process lets go loses nothing). In particular
      when the pipe is closed only because the process is gone. */
  lemma CompleteWhenOver(nrThread: nat, maxSize: nat, run: seq<Action>, t: Tid)
    requires OverAtHangup(Init(nrThread, maxSize), run, t)
    ensures var s := Reached(nrThread, maxSize, run); s.main.Finished? ==> FileOf(s, t) == LogOf(s, t)
  {
    hide GInv, NeverUnheard, OverAtHangup, Exec;
    InitOk(nrThread, maxSize);
    OverHeard(Init(nrThread, maxSize), run, t);
    CompleteIff(nrThread, maxSize, run, t);
  }
}
