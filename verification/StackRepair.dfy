/** Taking every hook out of the traced program's stack and putting it back: mcount_rstack_restore
    and mcount_rstack_rehook (libmcount/misc.c), and mcount_rstack_rehook_exception
    (libmcount/wrap.c), on architectures that can restore PLT hooks. */
module StackRepair {
  type Addr = nat
  type Memory = map<Addr, Addr>

  /** The two hook addresses and the address of cygprof_dummy. */
  datatype Config = Config(mcountHook: Addr, pltHook: Addr, dummy: Addr)

  /** struct mcount_ret_stack; `plt` says that dyn_idx is valid. */
  datatype Frame = Frame(loc: Addr, ip: Addr, plt: bool, norecord: bool, end: nat)

  function Load(mem: Memory, a: Addr): Addr {
    if a in mem then mem[a] else 0
  }

  predicate IsHook(cfg: Config, ip: Addr) {
    ip == cfg.mcountHook || ip == cfg.pltHook
  }

  function HookOf(cfg: Config, f: Frame): Addr {
    if f.plt then cfg.pltHook else cfg.mcountHook
  }

  // ----- restore and rehook -----

  /** The writes of mcount_rstack_restore, from the top frame down. */
  function Restores(cfg: Config, rs: seq<Frame>): seq<(Addr, Addr)> {
    if rs == [] then []
    else
      var top := rs[|rs| - 1];
      (if IsHook(cfg, top.ip) then [] else [(top.loc, top.ip)]) + Restores(cfg, rs[..|rs| - 1])
  }

  /** The writes of mcount_rstack_rehook, from the top frame down. */
  function Rehooks(cfg: Config, rs: seq<Frame>): seq<(Addr, Addr)> {
    if rs == [] then []
    else [(rs[|rs| - 1].loc, HookOf(cfg, rs[|rs| - 1]))] + Rehooks(cfg, rs[..|rs| - 1])
  }

  function Apply(mem: Memory, ws: seq<(Addr, Addr)>): Memory
    decreases |ws|
  {
    if ws == [] then mem else Apply(mem[ws[0].0 := ws[0].1], ws[1..])
  }

  function Restore(cfg: Config, mem: Memory, rs: seq<Frame>): Memory {
    Apply(mem, Restores(cfg, rs))
  }

  function Rehook(cfg: Config, mem: Memory, rs: seq<Frame>): Memory {
    Apply(mem, Rehooks(cfg, rs))
  }

  // ----- stacks -----

  /** Frame i starts a tail-call chain; frame i ends one. */
  predicate Starts(rs: seq<Frame>, i: int) {
    0 <= i < |rs| && (i == 0 || rs[i - 1].loc != rs[i].loc)
  }

  predicate Ends(rs: seq<Frame>, i: int) {
    0 <= i < |rs| && (i == |rs| - 1 || rs[i + 1].loc != rs[i].loc)
  }

  /** The stack grows down, and exactly the frames that start a chain hold a genuine return
      address; the others were entered with a hook in their slot. */
  ghost predicate Shaped(cfg: Config, rs: seq<Frame>) {
    && (forall i, j :: 0 <= i < j < |rs| ==> rs[j].loc <= rs[i].loc)
    && (forall i {:trigger Starts(rs, i)} :: 0 <= i < |rs| ==> (Starts(rs, i) <==> !IsHook(cfg, rs[i].ip)))
  }

  /** Every slot holds the hook of the frame that ends its chain: the last one to write it. */
  ghost predicate Hooked(cfg: Config, mem: Memory, rs: seq<Frame>) {
    forall i {:trigger Ends(rs, i)} :: Ends(rs, i) ==> rs[i].loc in mem && mem[rs[i].loc] == HookOf(cfg, rs[i])
  }

  /** Every slot holds its genuine return address. */
  ghost predicate Genuine(mem: Memory, rs: seq<Frame>) {
    forall i {:trigger Starts(rs, i)} :: Starts(rs, i) ==> rs[i].loc in mem && mem[rs[i].loc] == rs[i].ip
  }

  /** No chain starts with one kind of hook and ends with the other. */
  ghost predicate EndsAgree(rs: seq<Frame>) {
    forall i, j {:trigger Starts(rs, i), Ends(rs, j)} ::
      Starts(rs, i) && Ends(rs, j) && rs[i].loc == rs[j].loc ==> rs[i].plt == rs[j].plt
  }

  // ----- exceptions -----

  /** The first frame of the chain that frame `j` is in. */
  function ChainStart(rs: seq<Frame>, j: nat): (i: nat)
    requires j < |rs|
    ensures i <= j && Starts(rs, i) && rs[i].loc == rs[j].loc
    ensures forall k :: i <= k <= j ==> rs[k].loc == rs[j].loc
  {
    if j > 0 && rs[j].loc == rs[j - 1].loc then ChainStart(rs, j - 1) else j
  }

  /** A frame the exception unwound, closed at time `now`. */
  function Closed(f: Frame, now: nat): Frame {
    if f.norecord then f else f.(end := now)
  }

  datatype Unwound = Unwound(kept: seq<Frame>, closed: seq<Frame>)

  /** The loop of mcount_rstack_rehook_exception; `clock[i]` is the time at which frame i is
      closed if it is, and `closed` are the frames handed to the exit filter, in order. */
  function Unwind(cfg: Config, mem: Memory, rs: seq<Frame>, frameAddr: Addr, clock: seq<nat>): (u: Unwound)
    requires |clock| >= |rs|
    ensures |u.kept| <= |rs|
  {
    if rs == [] then Unwound([], [])
    else
      var n := |rs| - 1;
      if rs[n].loc == cfg.dummy then Unwound(rs, [])
      else if rs[n].loc > frameAddr then
        var i := ChainStart(rs, n);
        Unwound(rs[i := rs[i].(ip := Load(mem, rs[i].loc))], [])
      else
        var u := Unwind(cfg, mem, rs[..n], frameAddr, clock);
        Unwound(u.kept, [Closed(rs[n], clock[n])] + u.closed)
  }
}
