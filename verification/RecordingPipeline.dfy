/** The whole recording pipeline as an interleaved step system: any number of traced
    threads, the message pipe, the recorder's main thread with its lists, and any number
    of writer threads (libmcount/record.c, cmds/record.c). */
module RecordingPipeline {
  import opened BufferProtocol

  type Tid = int
  datatype Name = Name(tid: Tid, i: nat)
  datatype Msg = Msg(tid: Tid, note: Note)

  /** struct writer_arg: `listed` is membership of writer_list. */
  datatype Writer = Writer(listed: bool, exited: bool, tid: Tid, phase: WPhase,
                           head: seq<Name>, bufs: seq<Name>)
  const STARTED := Writer(false, false, 0, Checking, [], [])

  /** Where record_mmap_file returns to. */
  datatype Back = ToPolling | ToReading | ToFlushing

  /** Where the main thread stands: the poll loop of do_main_loop, the reading loop of
      stop_tracing and the wait before its exit test, record_mmap_file on one buffer, and the
      stages of finish_writers. */
  datatype Main =
    | Polling
    | Reading
    | Waiting
    | Holding(name: Name, back: Back, examined: bool)
    | Joining
    | Flushing
    | Draining
    | Finished

  /** `connected` says that the traced process holds the write end of the pipe; `dropped` is a
      history variable: the messages its threads had when it did not. */
  datatype State = State(threads: map<Tid, Tracee>, connected: bool, pipe: seq<Msg>, dropped: seq<Msg>,
                         open: seq<Name>, main: Main,
                         queue: seq<Name>, writers: seq<Writer>, files: map<Tid, Bytes>, maxSize: nat)

  /** Hangup is mcount_trace_finish closing the pipe, or the system closing it for a process
      that is gone. */
  datatype Action =
    | ByTracee(tid: Tid, act: Act)
    | Kill(tid: Tid)
    | Hangup
    | ByMain
    | ByWriter(w: nat, stop: bool)

  function Init(nrThread: nat, maxSize: nat): State {
    State(map[], true, [], [], [], Polling, [], seq(nrThread, _ => STARTED), map[], maxSize)
  }

  // ----- lists of names -----

  function OfTid(q: seq<Name>, t: Tid): seq<Name> {
    if q == [] then [] else (if q[0].tid == t then [q[0]] else []) + OfTid(q[1..], t)
  }

  function NotOfTid(q: seq<Name>, t: Tid): seq<Name> {
    if q == [] then [] else (if q[0].tid != t then [q[0]] else []) + NotOfTid(q[1..], t)
  }

  function Without(q: seq<Name>, n: Name): seq<Name> {
    if q == [] then [] else if q[0] == n then q[1..] else [q[0]] + Without(q[1..], n)
  }

  function Indices(q: seq<Name>): (r: seq<nat>)
    ensures |r| == |q|
  {
    seq(|q|, k requires 0 <= k < |q| => q[k].i)
  }

  function NotesOf(pipe: seq<Msg>, t: Tid): seq<Note> {
    if pipe == [] then []
    else (if pipe[0].tid == t then [pipe[0].note] else []) + NotesOf(pipe[1..], t)
  }

  /** The first writer of writer_list that serves the thread, or |ws|. */
  function Serving(ws: seq<Writer>, t: Tid): (w: nat)
    ensures w <= |ws|
    ensures w < |ws| ==> ws[w].listed && ws[w].tid == t
    ensures forall x :: 0 <= x < w ==> !(ws[x].listed && ws[x].tid == t)
  {
    if ws == [] then 0 else if ws[0].listed && ws[0].tid == t then 0 else 1 + Serving(ws[1..], t)
  }

  // ----- one action -----

  function ThreadOf(s: State, t: Tid): Tracee {
    if t in s.threads then s.threads[t] else UNBORN
  }

  function FileOf(s: State, t: Tid): Bytes {
    if t in s.files then s.files[t] else []
  }

  function Tagged(t: Tid, notes: seq<Note>): seq<Msg> {
    seq(|notes|, k requires 0 <= k < |notes| => Msg(t, notes[k]))
  }

  predicate Stopped(m: Main) {
    m.Joining? || m.Flushing? || m.Draining? || m.Finished? || (m.Holding? && m.back.ToFlushing?)
  }

  predicate Over(th: Tracee) {
    th.dead || th.phase.Ended?
  }

  predicate AllOver(s: State) {
    forall t :: t in s.threads ==> Over(s.threads[t])
  }

  function TraceeNext(s: State, t: Tid, act: Act): State {
    var th := ThreadOf(s, t);
    if IndexOk(th) && Enabled(th, act) && !Stopped(s.main) then
      var (th', sent) := TraceeStep(th, act, s.maxSize);
      var s' := s.(threads := s.threads[t := th']);
      // uftrace_send_message returns early once the pipe is closed
      if s.connected then s'.(pipe := s.pipe + Tagged(t, sent)) else s'.(dropped := s.dropped + Tagged(t, sent))
    else s
  }

  function KillNext(s: State, t: Tid): State {
    if t in s.threads then s.(threads := s.threads[t := s.threads[t].(dead := true)]) else s
  }

  function EnqueueNext(s: State, n: Name, back: Main): State {
    var w := Serving(s.writers, n.tid);
    if w < |s.writers| then
      s.(writers := s.writers[w := s.writers[w].(bufs := s.writers[w].bufs + [n])], main := back)
    else
      s.(queue := s.queue + [n], main := back)
  }

  function Resumed(back: Back): Main {
    match back
    case ToPolling => Polling
    case ToReading => Reading
    case ToFlushing => Flushing
  }

  /** read_record_mmap on the first message. */
  function ReceiveNext(s: State, back: Back): State
    requires s.pipe != []
  {
    var n := Name(s.pipe[0].tid, s.pipe[0].note.i);
    if s.pipe[0].note.RecStart? then s.(pipe := s.pipe[1..], open := s.open + [n], main := Resumed(back))
    else s.(pipe := s.pipe[1..], open := Without(s.open, n), main := Holding(n, back, false))
  }

  /** The buffer appended to its file, its size reset, and its WRITTEN flag raised. */
  function Filed(s: State, n: Name): State {
    s.(files := s.files[n.tid := FileOf(s, n.tid) + DataOf(ThreadOf(s, n.tid).bufs, n.i)])
  }

  function Zeroed(s: State, n: Name): seq<Shm> {
    var bufs := ThreadOf(s, n.tid).bufs;
    if n.i < |bufs| then SetData(bufs, n.i, []) else bufs
  }

  function Released(s: State, n: Name): seq<Shm> {
    var bufs := ThreadOf(s, n.tid).bufs;
    if n.i < |bufs| then SetFlag(bufs, n.i, WRITTEN_ONLY) else bufs
  }

  function WithBufs(s: State, n: Name, bufs: seq<Shm>): State {
    if n.tid in s.threads then s.(threads := s.threads[n.tid := s.threads[n.tid].(bufs := bufs)]) else s
  }

  /** record_remaining_buffer on the first queued buffer. */
  function DrainNext(s: State): State
    requires s.queue != []
  {
    var n := s.queue[0];
    WithBufs(Filed(s, n), n, Zeroed(s, n)).(queue := s.queue[1..])
  }

  function MainNext(s: State): State {
    match s.main
    case Polling =>
      // POLLIN and POLLHUP are seen together
      if s.pipe == [] then (if s.connected then s else s.(main := Reading))
      else ReceiveNext(s, if s.connected then ToPolling else ToReading)
    case Reading =>
      if s.pipe == [] then s.(main := Waiting) else ReceiveNext(s, ToReading)
    case Waiting =>
      if AllOver(s) then s.(main := Joining) else s.(main := Reading)
    case Holding(n, back, examined) =>
      if !examined then
        if Worthwhile(ThreadOf(s, n.tid), n.i) then s.(main := Holding(n, back, true)) else s.(main := Resumed(back))
      else EnqueueNext(s, n, Resumed(back))
    case Joining =>
      if forall w :: 0 <= w < |s.writers| ==> s.writers[w].exited then s.(main := Flushing) else s
    case Flushing =>
      if s.open == [] then s.(main := Draining)
      else s.(open := s.open[1..], main := Holding(s.open[0], ToFlushing, false))
    case Draining =>
      if s.queue == [] then s.(main := Finished) else DrainNext(s)
    case Finished => s
  }

  /** write_buf_list on the buffer under the writer's cursor. */
  function WriteNext(s: State, w: nat): State
    requires w < |s.writers|
    requires !s.writers[w].phase.Checking? && s.writers[w].phase.k < |s.writers[w].head|
  {
    var wr, k := s.writers[w], s.writers[w].phase.k;
    var n := wr.head[k];
    match wr.phase
    case Saving(_) => Filed(s, n).(writers := s.writers[w := wr.(phase := Zeroing(k))])
    case Zeroing(_) => WithBufs(s, n, Zeroed(s, n)).(writers := s.writers[w := wr.(phase := Releasing(k))])
    case Releasing(_) =>
      WithBufs(s, n, Released(s, n)).(
        writers := s.writers[w := wr.(phase := if k + 1 < |wr.head| then Saving(k + 1) else Checking)])
  }

  function WriterNext(s: State, w: nat, stop: bool): State
    requires w < |s.writers|
  {
    var wr := s.writers[w];
    if wr.exited then s
    else if !wr.listed then
      if stop then
        if Stopped(s.main) then s.(writers := s.writers[w := wr.(exited := true)]) else s
      else if s.queue == [] then s
      else
        var t := s.queue[0].tid;
        s.(writers := s.writers[w := Writer(true, false, t, Saving(0), OfTid(s.queue, t), [])],
           queue := NotOfTid(s.queue, t))
    else if wr.phase.Checking? then
      if wr.bufs == [] then s.(writers := s.writers[w := Writer(false, false, -1, Checking, [], [])])
      else s.(writers := s.writers[w := wr.(phase := Saving(0), head := wr.bufs, bufs := [])])
    else if wr.phase.k >= |wr.head| then s
    else WriteNext(s, w)
  }

  function Next(s: State, a: Action): State {
    match a
    case ByTracee(t, act) => TraceeNext(s, t, act)
    case Kill(t) => KillNext(s, t)
    case Hangup => s.(connected := false)
    case ByMain => MainNext(s)
    case ByWriter(w, stop) => if w < |s.writers| then WriterNext(s, w, stop) else s
  }

  function Exec(s: State, run: seq<Action>): State
    decreases |run|
  {
    if run == [] then s else Exec(Next(s, run[0]), run[1..])
  }

  // ----- what one thread sees -----

  function HandOf(m: Main, t: Tid): seq<nat> {
    if m.Holding? && m.name.tid == t then [m.name.i] else []
  }

  function ServerOf(ws: seq<Writer>, t: Tid): Server {
    var w := Serving(ws, t);
    if w < |ws| then Server(ws[w].phase, Indices(ws[w].head), Indices(ws[w].bufs)) else NoServer
  }

  function View(s: State, t: Tid): Local {
    Local(ThreadOf(s, t), NotesOf(s.pipe + s.dropped, t), Indices(OfTid(s.open, t)), HandOf(s.main, t),
          Indices(OfTid(s.queue, t)), ServerOf(s.writers, t), FileOf(s, t))
  }

  /** A listed writer holds buffers of one thread only, and no other listed writer serves
      that thread; the others hold nothing. */
  ghost predicate WritersOk(ws: seq<Writer>) {
    && (forall w :: 0 <= w < |ws| && ws[w].listed ==>
          && !ws[w].exited
          && (!ws[w].phase.Checking? ==> ws[w].phase.k < |ws[w].head|)
          && (forall k :: 0 <= k < |ws[w].head| ==> ws[w].head[k].tid == ws[w].tid)
          && (forall k :: 0 <= k < |ws[w].bufs| ==> ws[w].bufs[k].tid == ws[w].tid))
    && (forall x, y :: 0 <= x < y < |ws| && ws[x].listed && ws[y].listed ==> ws[x].tid != ws[y].tid)
  }

  /** The main thread has not seen the hang-up yet. */
  predicate Connected(m: Main) {
    m.Polling? || (m.Holding? && m.back.ToPolling?)
  }

  predicate Flushed(m: Main) {
    m.Flushing? || m.Draining? || m.Finished? || (m.Holding? && m.back.ToFlushing?)
  }

  ghost predicate Good(m: Main, v: Local) {
    if Flushed(m) then Sound(v) else Inv(v)
  }

  ghost predicate GInv(s: State) {
    && WritersOk(s.writers)
    && (s.connected ==> s.dropped == [])
    && (!Connected(s.main) ==> !s.connected)
    && (s.main.Waiting? || Stopped(s.main) ==> s.pipe == [])
    && (Stopped(s.main) ==> AllOver(s))
    && (Flushed(s.main) ==> forall w :: 0 <= w < |s.writers| ==> s.writers[w].exited)
    && (s.main.Draining? || s.main.Finished? ==> s.open == [])
    && (s.main.Finished? ==> s.queue == [])
    && (forall t :: Good(s.main, View(s, t)))
  }
}
