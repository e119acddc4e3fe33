/** The fill level of a shared-memory buffer: get_shmem_buffer, record_event and record_ret_stack
    (libmcount/record.c). */
module ShmemBounds {
  /** sizeof(struct mcount_shmem_buffer), sizeof(struct uftrace_record), ARGBUF_SIZE less its
      size word, and EVTBUF_SIZE. */
  const HEADER: nat := 16
  const RECORD: nat := 16
  const ARGS_MAX: nat := 1020
  const EVENT_MAX: nat := 1008

  function Align8(n: nat): nat { (n + 7) / 8 * 8 }

  function MaxSize(bufsize: nat): nat
    requires bufsize >= HEADER
  {
    bufsize - HEADER
  }

  /** The fill level of the current buffer (None: curr is -1) and the count of lost records. */
  datatype Fill = Fill(level: nat, losts: nat) | NoBuffer(losts: nat)

  /** Whether tracing is over, and whether a next buffer can be had. */
  datatype Env = Env(done: bool, available: bool)

  /** get_new_shmem_buffer: a LOST record comes first if records were lost. */
  function Switch(losts: nat, env: Env): Fill {
    if !env.available then NoBuffer(losts + 2)
    else Fill(if losts > 0 then RECORD else 0, 0)
  }

  /** The buffer to write `size` bytes to; none if the trace is over or there is no memory. */
  function GetBuffer(bufsize: nat, f: Fill, size: nat, env: Env): (Fill, bool)
    requires bufsize >= HEADER
  {
    if f.Fill? && f.level + size <= MaxSize(bufsize) then (f, true)
    else if env.done then (f, false)
    else (Switch(f.losts, env), env.available)
  }

  datatype Op =
    | Event(dsize: nat, env: Env)
    | Record(args: nat, env: Env)   // the bytes of argument data, 0 if there is none

  predicate Wellformed(op: Op) {
    match op
    case Event(dsize, _) => dsize <= EVENT_MAX
    case Record(args, _) => args <= ARGS_MAX && args % 4 == 0
  }

  /** What the operation asks room for. */
  function Asked(op: Op): nat {
    match op
    case Event(dsize, _) => RECORD + if dsize > 0 then Align8(dsize + 2) else 0
    case Record(args, _) => RECORD + args
  }

  /** What it then fills. */
  function Filled(op: Op): nat {
    match op
    case Event(_, _) => Asked(op)
    case Record(args, _) => RECORD + Align8(args)
  }

  function Do(bufsize: nat, f: Fill, op: Op): Fill
    requires bufsize >= HEADER
  {
    var (f', ok) := GetBuffer(bufsize, f, Asked(op), op.env);
    if ok && f'.Fill? then f'.(level := f'.level + Filled(op)) else f'
  }

  function Run(bufsize: nat, ops: seq<Op>): Fill
    requires bufsize >= HEADER
  {
    if ops == [] then Fill(0, 0) else Do(bufsize, Run(bufsize, ops[..|ops| - 1]), ops[|ops| - 1])
  }

  predicate Bounded(bufsize: nat, f: Fill)
    requires bufsize >= HEADER
  {
    f.Fill? ==> f.level % 8 == 0 && f.level <= MaxSize(bufsize)
  }

  ghost predicate AllOk(ops: seq<Op>) {
    forall i :: 0 <= i < |ops| ==> Wellformed(ops[i])
  }

  /** Room for a LOST record and the largest single record. */
  const SMALLEST: nat := HEADER + RECORD + RECORD + 1024
}
