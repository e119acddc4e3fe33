/** Hijacked return addresses on the mcount path: __mcount_entry and __mcount_exit with
    mcount_auto_restore and mcount_auto_rehook (libmcount/mcount.c, libmcount/misc.c), run
    against a traced program that calls, tail-calls and returns. */
module ReturnHooks {
  type Addr = nat

  /** parent_loc and parent_ip of struct mcount_ret_stack. */
  datatype Hook = Hook(loc: Addr, ip: Addr)

  /** An active call of the program: where its return address lives and what it is. */
  datatype Active = Active(loc: Addr, ret: Addr)

  type Memory = map<Addr, Addr>

  /** The value of mcount_return_fn, whether mcount_auto_recover is on, mcount_rstack_max. */
  datatype Config = Config(hook: Addr, autoRecover: bool, maxStack: nat)

  function Load(mem: Memory, a: Addr): Addr {
    if a in mem then mem[a] else 0
  }

  // ----- libmcount -----

  /** The frame whose slot mcount_auto_restore writes: the first below that was not entered
      by a tail call, or -1. */
  function RestoreTarget(cfg: Config, rs: seq<Hook>): (k: int)
    ensures -1 <= k < |rs|
    ensures k >= 0 ==> rs[k].ip != cfg.hook
    ensures forall i :: k < i < |rs| ==> rs[i].ip == cfg.hook
  {
    if rs == [] then -1
    else if rs[|rs| - 1].ip == cfg.hook then RestoreTarget(cfg, rs[..|rs| - 1])
    else |rs| - 1
  }

  function AutoRestore(cfg: Config, mem: Memory, rs: seq<Hook>): Memory {
    if |rs| < 2 || rs[|rs| - 1].loc == rs[|rs| - 2].loc then mem
    else
      var k := RestoreTarget(cfg, rs[..|rs| - 1]);
      if k < 0 then mem else mem[rs[k].loc := rs[k].ip]
  }

  function AutoRehook(cfg: Config, mem: Memory, rs: seq<Hook>): Memory {
    if |rs| < 2 || rs[|rs| - 1].loc == rs[|rs| - 2].loc then mem
    else mem[rs[|rs| - 2].loc := cfg.hook]
  }

  function Entry(cfg: Config, mem: Memory, rs: seq<Hook>, loc: Addr): (Memory, seq<Hook>) {
    var rs' := rs + [Hook(loc, Load(mem, loc))];
    var mem' := mem[loc := cfg.hook];
    (if cfg.autoRecover then AutoRestore(cfg, mem', rs') else mem', rs')
  }

  /** __mcount_entry: a call the filters reject, or that finds the stack full, is left alone. */
  function McountEntry(cfg: Config, mem: Memory, rs: seq<Hook>, loc: Addr, accepted: bool): (Memory, seq<Hook>) {
    if !accepted || |rs| >= cfg.maxStack then (mem, rs) else Entry(cfg, mem, rs, loc)
  }

  /** The return address handed back, the memory and the stack after one mcount_exit. */
  function Exit(cfg: Config, mem: Memory, rs: seq<Hook>): (Addr, Memory, seq<Hook>)
    requires rs != []
  {
    var top := rs[|rs| - 1];
    (top.ip, if cfg.autoRecover then AutoRehook(cfg, mem, rs) else mem, rs[..|rs| - 1])
  }

  // ----- the traced program -----

  /** Memory, shadow stack and the program's own active calls, deepest last. */
  datatype Machine = Machine(mem: Memory, rs: seq<Hook>, calls: seq<Active>)

  datatype Step =
    | Call(loc: Addr, ret: Addr)
    | Traced(accepted: bool)
    | Store(a: Addr, v: Addr)
    | Return

  predicate LiveSlot(calls: seq<Active>, a: Addr) {
    exists i :: 0 <= i < |calls| && calls[i].loc == a
  }

  /** The stack grows down; no genuine return address is the hook; the program does not
      overwrite the return slot of an active call; a function is entered under a call. A second
      traced entry under the same call is a tail call. */
  predicate Possible(cfg: Config, m: Machine, s: Step) {
    match s
    case Call(loc, ret) => ret != cfg.hook && (m.calls != [] ==> loc < m.calls[|m.calls| - 1].loc)
    case Traced(_) => m.calls != []
    case Store(a, _) => !LiveSlot(m.calls, a)
    case Return => m.calls != []
  }

  /** mcount_return: exits are repeated while they hand back the hook itself. */
  function Exits(cfg: Config, mem: Memory, rs: seq<Hook>): (r: (Addr, Memory, seq<Hook>))
    ensures |r.2| <= |rs|
    decreases |rs|
  {
    if rs == [] then (cfg.hook, mem, rs)
    else
      var (ip, mem', rs') := Exit(cfg, mem, rs);
      if ip == cfg.hook then Exits(cfg, mem', rs') else (ip, mem', rs')
  }

  /** Where the program continues after returning, and what libmcount leaves behind. */
  function Landing(cfg: Config, m: Machine): (Addr, Memory, seq<Hook>)
    requires m.calls != []
  {
    var a := Load(m.mem, m.calls[|m.calls| - 1].loc);
    if a == cfg.hook then Exits(cfg, m.mem, m.rs) else (a, m.mem, m.rs)
  }

  function Next(cfg: Config, m: Machine, s: Step): Machine
    requires Possible(cfg, m, s)
  {
    match s
    case Call(loc, ret) => m.(mem := m.mem[loc := ret], calls := m.calls + [Active(loc, ret)])
    case Traced(accepted) =>
      var (mem, rs) := McountEntry(cfg, m.mem, m.rs, m.calls[|m.calls| - 1].loc, accepted);
      m.(mem := mem, rs := rs)
    case Store(a, v) => m.(mem := m.mem[a := v])
    case Return =>
      var (_, mem, rs) := Landing(cfg, m);
      Machine(mem, rs, m.calls[..|m.calls| - 1])
  }

  // ----- the invariant -----

  predicate Descending(calls: seq<Active>) {
    forall i, j :: 0 <= i < j < |calls| ==> calls[j].loc < calls[i].loc
  }

  /** The frames of one call: the first holds the call's return address, later ones (tail
      calls) the hook. `k` frames at the top of `rs` belong to the call. */
  predicate Chain(cfg: Config, rs: seq<Hook>, k: nat, c: Active)
    requires k <= |rs|
  {
    forall i :: |rs| - k <= i < |rs| ==>
      rs[i].loc == c.loc && rs[i].ip == if i == |rs| - k then c.ret else cfg.hook
  }

  /** How many frames at the top of the shadow stack sit in slot `loc`. */
  function ChainLength(rs: seq<Hook>, loc: Addr): (k: nat)
    ensures k <= |rs|
    ensures forall i :: |rs| - k <= i < |rs| ==> rs[i].loc == loc
    ensures k < |rs| ==> rs[|rs| - k - 1].loc != loc
  {
    if rs == [] || rs[|rs| - 1].loc != loc then 0 else 1 + ChainLength(rs[..|rs| - 1], loc)
  }

  /** The shadow stack is made of the chains of the active calls, in order. */
  predicate Chains(cfg: Config, rs: seq<Hook>, calls: seq<Active>)
    decreases |calls|
  {
    if calls == [] then rs == []
    else
      var c := calls[|calls| - 1];
      var k := ChainLength(rs, c.loc);
      Chain(cfg, rs, k, c) && c.ret != cfg.hook && Chains(cfg, rs[..|rs| - k], calls[..|calls| - 1])
  }

  predicate InRs(rs: seq<Hook>, loc: Addr) {
    exists j :: 0 <= j < |rs| && rs[j].loc == loc
  }

  function Expected(cfg: Config, rs: seq<Hook>, c: Active): Addr {
    if (if cfg.autoRecover then rs != [] && rs[|rs| - 1].loc == c.loc else InRs(rs, c.loc)) then cfg.hook else c.ret
  }

  /** What the return slot of a call holds: the hook in the topmost chain (with auto-recover)
      or in every chain (without), the return address everywhere else. */
  predicate SlotsRight(cfg: Config, mem: Memory, rs: seq<Hook>, calls: seq<Active>) {
    forall i :: 0 <= i < |calls| ==> Load(mem, calls[i].loc) == Expected(cfg, rs, calls[i])
  }

  predicate Inv(cfg: Config, m: Machine) {
    && Descending(m.calls)
    && Chains(cfg, m.rs, m.calls)
    && SlotsRight(cfg, m.mem, m.rs, m.calls)
  }
}
