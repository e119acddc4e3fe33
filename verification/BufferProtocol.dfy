/** The life of the shared-memory buffers of ONE traced thread, seen by everybody who
    touches them: the thread itself (libmcount/record.c), the recorder's main thread and
    the one writer that may be serving the thread (cmds/record.c).

    Every function named `...Step` below is one indivisible action: one flag write, one
    size bump, one message on the pipe or one section under a lock. RecordingPipeline
    interleaves these actions over any number of threads and writers. */
module BufferProtocol {
  import opened Wrappers

  type Bytes = seq<Byte>

  /** The flag word of a buffer: SHMEM_FL_NEW, SHMEM_FL_WRITTEN and SHMEM_FL_RECORDING. */
  datatype Flag = Flag(isNew: bool, written: bool, recording: bool)
  const NO_FLAG := Flag(false, false, false)
  const WRITTEN_ONLY := Flag(false, true, false)
  const RECORD_SIZE := 16

  /** struct mcount_shmem_buffer; its `size` is |data|. */
  datatype Shm = Shm(flag: Flag, data: Bytes)
  const FRESH := Shm(NO_FLAG, [])

  /** Where the traced thread stands inside prepare_shmem_buffer, get_shmem_buffer or
      get_new_shmem_buffer. `todo` holds the size bumps of the record being written. */
  datatype Phase =
    | Unborn
    | Prepared
    | Arming
    | Idle
    | Scanning(i: nat, todo: seq<Bytes>)
    | Marking(i: nat, todo: seq<Bytes>)
    | Clearing(todo: seq<Bytes>)
    | Shrinking(j: nat, count: nat, todo: seq<Bytes>)
    | Announcing(todo: seq<Bytes>)
    | Losing(todo: seq<Bytes>)
    | Putting(todo: seq<Bytes>)
    | Ended

  /** struct mcount_shmem with the buffers it points at. `bufs` keeps the shared-memory
      objects beyond `nrBuf` that the thread has unmapped. `log` is a history variable:
      everything the thread ever appended, in program order. */
  datatype Tracee = Tracee(bufs: seq<Shm>, nrBuf: nat, curr: int, losts: nat,
                           phase: Phase, dead: bool, log: Bytes)
  const UNBORN := Tracee([], 0, -1, 0, Unborn, false, [])

  /** UFTRACE_MSG_REC_START and UFTRACE_MSG_REC_END for one buffer index. */
  datatype Note = RecStart(i: nat) | RecEnd(i: nat)

  /** What the thread's program or the system decides. */
  datatype Act =
    | Spawn
    | Begin(need: nat, pieces: seq<Bytes>)
    | Finish
    | Go(mapped: bool, lost: Bytes)

  // ----- the traced thread -----

  predicate Enabled(th: Tracee, act: Act) {
    && !th.dead
    && match th.phase
       case Unborn => act.Spawn?
       case Idle => act.Begin? || act.Finish?
       case Ended => false
       case Losing(_) => act.Go? && |act.lost| == RECORD_SIZE
       case _ => act.Go?
  }

  predicate IndexOk(th: Tracee) {
    && th.nrBuf <= |th.bufs|
    && match th.phase
       case Arming => th.nrBuf > 0
       case Idle => -1 <= th.curr < th.nrBuf
       case Marking(i, _) => i < th.nrBuf
       case Clearing(_) => 0 <= th.curr < th.nrBuf
       case Shrinking(_, _, _) => 0 <= th.curr < th.nrBuf
       case Announcing(_) => 0 <= th.curr < th.nrBuf
       case Losing(_) => 0 <= th.curr < th.nrBuf
       case Putting(_) => 0 <= th.curr < th.nrBuf
       case _ => true
  }

  function SetData(bufs: seq<Shm>, i: nat, d: Bytes): seq<Shm>
    requires i < |bufs|
  {
    bufs[i := bufs[i].(data := d)]
  }

  function SetFlag(bufs: seq<Shm>, i: nat, f: Flag): seq<Shm>
    requires i < |bufs|
  {
    bufs[i := bufs[i].(flag := f)]
  }

  /** One action of the traced thread and the messages it puts on the pipe. */
  function TraceeStep(th: Tracee, act: Act, maxSize: nat): (Tracee, seq<Note>)
    requires Enabled(th, act) && IndexOk(th)
  {
    match th.phase
    case Unborn => (Tracee([FRESH, FRESH], 2, -1, 0, Prepared, false, th.log), [])
    case Prepared => (th.(phase := Arming), [RecStart(0)])
    case Arming =>
      (th.(bufs := SetFlag(th.bufs, 0, Flag(true, false, true)), curr := 0, phase := Idle), [])
    case Idle =>
      if act.Finish? then
        (th.(curr := -1, phase := Ended),
         if th.curr >= 0 && th.bufs[th.curr].flag.recording then [RecEnd(th.curr)] else [])
      else if th.curr == -1 then
        (th.(phase := Scanning(0, act.pieces)), [])
      else if |th.bufs[th.curr].data| + act.need > maxSize then
        (th.(phase := Scanning(0, act.pieces)), [RecEnd(th.curr)])
      else
        (th.(phase := Putting(act.pieces)), [])
    case Scanning(i, todo) =>
      if i < th.nrBuf then
        (th.(phase := if th.bufs[i].flag.recording then Scanning(i + 1, todo) else Marking(i, todo)), [])
      else if act.mapped then
        // the name is reused with O_TRUNC when an unmapped object is still there
        var bufs := if th.nrBuf < |th.bufs| then th.bufs[th.nrBuf := FRESH] else th.bufs + [FRESH];
        (th.(bufs := bufs, nrBuf := th.nrBuf + 1, phase := Marking(th.nrBuf, todo)), [])
      else
        (th.(losts := th.losts + 2, curr := -1, phase := Idle), [])
    case Marking(i, todo) =>
      (th.(bufs := SetFlag(th.bufs, i, th.bufs[i].flag.(recording := true)), curr := i,
           phase := Clearing(todo)), [])
    case Clearing(todo) =>
      (th.(bufs := SetData(th.bufs, th.curr, []),
           phase := if th.curr + 3 <= th.nrBuf then Shrinking(th.curr + 1, 0, todo) else Announcing(todo)), [])
    case Shrinking(j, count, todo) =>
      if j < th.nrBuf then
        var c := if th.bufs[j].flag == WRITTEN_ONLY then count + 1 else count;
        (th.(phase := Shrinking(j + 1, c, todo)), [])
      else
        var unmap := count >= 3 && th.bufs[th.nrBuf - 1].flag == WRITTEN_ONLY;
        (th.(nrBuf := if unmap then th.nrBuf - 1 else th.nrBuf, phase := Announcing(todo)), [])
    case Announcing(todo) =>
      (th.(phase := if th.losts > 0 then Losing(todo) else Putting(todo)), [RecStart(th.curr)])
    case Losing(todo) =>
      // the LOST record replaces the contents: data := record, size := 16
      (th.(bufs := SetData(th.bufs, th.curr, act.lost), losts := 0, phase := Putting(todo),
           log := th.log + act.lost), [])
    case Putting(todo) =>
      if todo == [] then (th.(phase := Idle), [])
      else
        (th.(bufs := SetData(th.bufs, th.curr, th.bufs[th.curr].data + todo[0]),
             phase := Putting(todo[1..]), log := th.log + todo[0]), [])
  }

  // ----- everybody's view of the thread -----

  /** What the writer is doing with head[k], or about to look into its direct list. */
  datatype WPhase = Saving(k: nat) | Zeroing(k: nat) | Releasing(k: nat) | Checking

  /** The registered writer serving this thread: its local list and `warg->bufs`. */
  datatype Server = NoServer | Server(phase: WPhase, head: seq<nat>, bufs: seq<nat>)

  /** The thread's part of the system: its unread messages, its part of
      `shmem_list_head`, the buffer in the main thread's hands, its part of
      `buf_write_list`, its writer and its data file. */
  datatype Local = Local(th: Tracee, pipe: seq<Note>, open: seq<nat>, hand: seq<nat>,
                         queue: seq<nat>, srv: Server, file: Bytes)
  const NOTHING := Local(UNBORN, [], [], [], [], NoServer, [])

  function Starts(notes: seq<Note>): seq<nat> {
    if notes == [] then []
    else (if notes[0].RecStart? then [notes[0].i] else []) + Starts(notes[1..])
  }

  ghost predicate ServerOk(srv: Server) {
    srv.Server? && !srv.phase.Checking? ==> srv.phase.k < |srv.head|
  }

  function Held(srv: Server): seq<nat>
    requires ServerOk(srv)
  {
    if srv.NoServer? then [] else (if srv.phase.Checking? then [] else srv.head[srv.phase.k..]) + srv.bufs
  }

  /** All buffers between their REC_START and their WRITTEN flag, oldest first. */
  function Belt(v: Local): seq<nat>
    requires ServerOk(v.srv)
  {
    Held(v.srv) + v.queue + v.hand + v.open + Starts(v.pipe)
  }

  /** The part of the belt that is not in the file yet. */
  function Load(v: Local): seq<nat>
    requires ServerOk(v.srv)
  {
    if v.srv.Server? && (v.srv.phase.Zeroing? || v.srv.phase.Releasing?) then Belt(v)[1..] else Belt(v)
  }

  function DataOf(bufs: seq<Shm>, i: nat): Bytes {
    if i < |bufs| then bufs[i].data else []
  }

  function Flat(bufs: seq<Shm>, q: seq<nat>): Bytes {
    if q == [] then [] else DataOf(bufs, q[0]) + Flat(bufs, q[1..])
  }

  // ----- the main thread -----

  function RemoveFirst(q: seq<nat>, i: nat): seq<nat> {
    if q == [] then [] else if q[0] == i then q[1..] else [q[0]] + RemoveFirst(q[1..], i)
  }

  /** REC_START moves the name into shmem_list_head; REC_END takes it out again and
      starts record_mmap_file on it. */
  function ReceiveStep(v: Local): Local
    requires v.pipe != []
  {
    match v.pipe[0]
    case RecStart(i) => v.(pipe := v.pipe[1..], open := v.open + [i])
    case RecEnd(i) => v.(pipe := v.pipe[1..], open := RemoveFirst(v.open, i), hand := [i])
  }

  /** record_mmap_file keeps the buffer only if it is RECORDING and not empty. */
  predicate Worthwhile(th: Tracee, i: nat) {
    i < |th.bufs| && th.bufs[i].flag.recording && th.bufs[i].data != []
  }

  function ExamineStep(v: Local): Local
    requires |v.hand| == 1
  {
    if Worthwhile(v.th, v.hand[0]) then v else v.(hand := [])
  }

  /** copy_to_buffer: straight to the writer serving the thread, else to buf_write_list. */
  function EnqueueStep(v: Local): Local {
    if v.srv.Server? then v.(srv := v.srv.(bufs := v.srv.bufs + v.hand), hand := [])
    else v.(queue := v.queue + v.hand, hand := [])
  }

  /** flush_shmem_list takes the next name, as REC_END would have done. */
  function FlushStep(v: Local): Local
    requires v.open != []
  {
    v.(open := v.open[1..], hand := [v.open[0]])
  }

  /** record_remaining_buffer writes the first queued buffer without raising WRITTEN. */
  function DrainStep(v: Local): Local
    requires v.queue != []
  {
    var i := v.queue[0];
    v.(file := v.file + DataOf(v.th.bufs, i),
       th := if i < |v.th.bufs| then v.th.(bufs := SetData(v.th.bufs, i, [])) else v.th,
       queue := v.queue[1..])
  }

  // ----- the writer -----

  /** The first lock section of writer_thread: take every queued buffer of this thread. */
  function TakeStep(v: Local): Local
    requires v.srv.NoServer? && v.queue != []
  {
    v.(srv := Server(Saving(0), v.queue, []), queue := [])
  }

  /** write_buf_list: append to the file, reset the size, raise WRITTEN; then look whether
      the main thread has passed more buffers directly. */
  function WriteStep(v: Local): Local
    requires v.srv.Server? && ServerOk(v.srv)
  {
    var srv := v.srv;
    match srv.phase
    case Saving(k) => v.(file := v.file + DataOf(v.th.bufs, srv.head[k]), srv := srv.(phase := Zeroing(k)))
    case Zeroing(k) =>
      v.(th := if srv.head[k] < |v.th.bufs| then v.th.(bufs := SetData(v.th.bufs, srv.head[k], [])) else v.th,
         srv := srv.(phase := Releasing(k)))
    case Releasing(k) =>
      v.(th := if srv.head[k] < |v.th.bufs| then v.th.(bufs := SetFlag(v.th.bufs, srv.head[k], WRITTEN_ONLY)) else v.th,
         srv := srv.(phase := if k + 1 < |srv.head| then Saving(k + 1) else Checking))
    case Checking =>
      if srv.bufs == [] then v.(srv := NoServer) else v.(srv := Server(Saving(0), srv.bufs, []))
  }

  // ----- the invariant -----

  /** Following the messages of one thread: each REC_START opens a buffer while none is
      open, each REC_END closes the one that is. */
  datatype Cursor = Broken | Closed | Open(i: nat)

  function Advance(c: Cursor, n: Note): Cursor {
    match n
    case RecStart(i) => if c.Closed? then Open(i) else Broken
    case RecEnd(i) => if c == Open(i) then Closed else Broken
  }

  function Follow(c: Cursor, notes: seq<Note>): Cursor
    decreases |notes|
  {
    if notes == [] then c else Follow(Advance(c, notes[0]), notes[1..])
  }

  function CursorOf(open: seq<nat>): Cursor {
    if open == [] then Closed else if |open| == 1 then Open(open[0]) else Broken
  }

  /** The buffer the thread has announced and not ended. */
  function OpenOf(th: Tracee): Cursor {
    match th.phase
    case Arming => Open(0)
    case Idle => if th.curr >= 0 then Open(th.curr) else Closed
    case Losing(_) => if th.curr >= 0 then Open(th.curr) else Closed
    case Putting(_) => if th.curr >= 0 then Open(th.curr) else Closed
    case _ => Closed
  }

  ghost predicate NoDup(q: seq<nat>) {
    forall a, b :: 0 <= a < b < |q| ==> q[a] != q[b]
  }

  /** Every buffer on the belt is mapped and RECORDING, except the very first one while
      its REC_START is out and its flag is not yet set. */
  ghost predicate BeltGuarded(th: Tracee, belt: seq<nat>)
    requires IndexOk(th)
  {
    forall i :: i in belt ==>
      && i < th.nrBuf
      && (th.bufs[i].flag.recording || (th.phase.Arming? && i == 0 && th.bufs[i].data == []))
  }

  /** The freshly chosen buffer: RECORDING, empty and nobody else's. */
  ghost predicate Reserved(th: Tracee, belt: seq<nat>)
    requires 0 <= th.curr < th.nrBuf <= |th.bufs|
  {
    th.bufs[th.curr].flag.recording && th.bufs[th.curr].data == [] && th.curr !in belt
  }

  ghost predicate PhaseOk(th: Tracee, belt: seq<nat>)
    requires IndexOk(th)
  {
    match th.phase
    case Unborn => th == UNBORN.(dead := th.dead) && belt == []
    case Prepared => belt == [] && th.nrBuf == 2 && !th.bufs[0].flag.recording
    case Arming => th.nrBuf == 2 && !th.bufs[0].flag.recording
    case Scanning(i, _) => i <= th.nrBuf
    case Idle => th.curr >= 0 ==> th.curr < th.nrBuf && th.bufs[th.curr].flag.recording
    case Marking(i, _) => i < th.nrBuf && !th.bufs[i].flag.recording
    case Clearing(_) => 0 <= th.curr < th.nrBuf && Reserved(th, belt)
    case Shrinking(j, _, _) => 0 <= th.curr < th.nrBuf && Reserved(th, belt) && j <= th.nrBuf
    case Announcing(_) => 0 <= th.curr < th.nrBuf && Reserved(th, belt)
    case Losing(_) =>
      0 <= th.curr < th.nrBuf && th.bufs[th.curr].flag.recording && th.bufs[th.curr].data == []
    case Putting(_) => 0 <= th.curr < th.nrBuf && th.bufs[th.curr].flag.recording
    case Ended => true
  }

  /** What holds of the thread's buffers, given the belt they are on. */
  ghost predicate ThreadInv(th: Tracee, belt: seq<nat>) {
    && IndexOk(th)
    && NoDup(belt)
    && BeltGuarded(th, belt)
    && PhaseOk(th, belt)
    && (forall i :: 0 <= i < th.nrBuf && !th.bufs[i].flag.recording ==> th.bufs[i].data == [])
  }

  /** At most one buffer is in the main thread's hands, a served thread has nothing queued,
      and the size is already reset when WRITTEN is about to be raised. */
  ghost predicate Shape(v: Local) {
    && ServerOk(v.srv)
    && |v.hand| <= 1
    && (v.srv.Server? ==> v.queue == [])
    && (v.srv.Server? && v.srv.phase.Releasing? ==> DataOf(v.th.bufs, v.srv.head[v.srv.phase.k]) == [])
  }

  /** The part of the invariant that also survives the final flush. */
  ghost predicate Sound(v: Local) {
    && Shape(v)
    && ThreadInv(v.th, Belt(v))
    && v.th.log == v.file + Flat(v.th.bufs, Load(v))
  }

  /** While the recorder runs, the unread messages lead to the buffer that is open now. */
  ghost predicate Inv(v: Local) {
    Sound(v) && Follow(CursorOf(v.open), v.pipe) == OpenOf(v.th)
  }
}
