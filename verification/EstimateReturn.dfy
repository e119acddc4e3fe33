/** Estimate-return mode: return addresses are not hooked; when a function is entered, calls
    that must have returned by then get fake exits (mcount_rstack_inject_return in
    libmcount/mcount.c, entered from __mcount_entry and from the PLT hook). */
module EstimateReturn {
  type Addr = nat

  /** The address of cygprof_dummy, mcount_rstack_max, and the module each address is in. */
  datatype Config = Config(dummy: Addr, maxStack: nat, moduleOf: map<Addr, nat>)

  /** struct mcount_ret_stack; `plt` says that dyn_idx is valid. */
  datatype Frame = Frame(loc: Addr, child: Addr, depth: nat, start: nat, end: nat, plt: bool, norecord: bool)

  /** `closed` are the frames that got a fake exit, in the order they were handed to
      mcount_exit_filter_record. */
  datatype Thread = Thread(rs: seq<Frame>, recordIdx: nat, closed: seq<Frame>)

  /** What is known when a function is entered: its slot, itself, whether the filters accept and
      record it, the clock when mcount_rstack_inject_return runs, and the clock after it. */
  datatype Enter = Enter(loc: Addr, child: Addr, plt: bool, accepted: bool, norecord: bool, now: nat, start: nat)

  predicate SameModule(cfg: Config, a: Addr, b: Addr) {
    (a in cfg.moduleOf <==> b in cfg.moduleOf) && (a in cfg.moduleOf ==> cfg.moduleOf[a] == cfg.moduleOf[b])
  }

  function CloseTop(t: Thread, end: nat): (r: Thread)
    requires t.rs != []
    ensures |r.rs| == |t.rs| - 1
  {
    var top := t.rs[|t.rs| - 1];
    Thread(t.rs[..|t.rs| - 1], if top.norecord || t.recordIdx == 0 then t.recordIdx else t.recordIdx - 1,
           t.closed + [top.(end := end)])
  }

  /** The loop: close every frame whose slot is not above the frame pointer. */
  function PopReturned(cfg: Config, t: Thread, fp: Addr, end: nat): (r: Thread)
    ensures |r.rs| <= |t.rs|
    decreases |t.rs|
  {
    if t.rs == [] || t.rs[|t.rs| - 1].loc == cfg.dummy || t.rs[|t.rs| - 1].loc > fp then t
    else PopReturned(cfg, CloseTop(t, end), fp, end + 1)
  }

  /** A PLT function called from the module that now enters another function is assumed to be
      its sibling, although its slot is higher. */
  predicate Sibling(cfg: Config, rs: seq<Frame>, fp: Addr, child: Addr) {
    rs != [] && var top := rs[|rs| - 1]; top.plt && top.loc > fp && SameModule(cfg, top.child, child)
  }

  function Estimate(rs: seq<Frame>, now: nat): nat {
    if rs == [] then 0 else (now + rs[|rs| - 1].start) / 2
  }

  function InjectReturn(cfg: Config, t: Thread, fp: Addr, child: Addr, now: nat): (r: Thread)
    ensures |r.rs| <= |t.rs|
  {
    var est := Estimate(t.rs, now);
    var t' := if Sibling(cfg, t.rs, fp, child) then CloseTop(t, est) else PopReturned(cfg, t, fp, est);
    t'.(recordIdx := |t'.rs|)
  }

  function Entry(cfg: Config, t: Thread, e: Enter): Thread {
    if !e.accepted || |t.rs| >= cfg.maxStack then t
    else
      var t' := InjectReturn(cfg, t, e.loc, e.child, e.now);
      t'.(rs := t'.rs + [Frame(e.loc, e.child, t'.recordIdx, e.start, 0, e.plt, e.norecord)],
          recordIdx := if e.norecord then t'.recordIdx else t'.recordIdx + 1)
  }

  // ----- the stack discipline -----

  predicate Descending(rs: seq<Frame>) {
    forall i, j :: 0 <= i < j < |rs| ==> rs[j].loc < rs[i].loc
  }

  predicate DepthIsIndex(rs: seq<Frame>) {
    forall i :: 0 <= i < |rs| ==> rs[i].depth == i
  }

  /** Frames were entered in stack order, and not after `clock`. */
  predicate StartsBy(rs: seq<Frame>, clock: nat) {
    && (forall i, j :: 0 <= i < j < |rs| ==> rs[i].start <= rs[j].start)
    && (forall i :: 0 <= i < |rs| ==> rs[i].start <= clock)
  }

  predicate Inv(cfg: Config, t: Thread, clock: nat) {
    && Descending(t.rs) && DepthIsIndex(t.rs) && StartsBy(t.rs, clock)
    && |t.rs| <= cfg.maxStack
    && forall i :: 0 <= i < |t.rs| ==> t.rs[i].loc != cfg.dummy
  }

  /** How many frames have a slot above the frame pointer. */
  function Above(rs: seq<Frame>, fp: Addr): (k: nat)
    ensures k <= |rs|
  {
    if rs == [] || rs[|rs| - 1].loc > fp then |rs| else Above(rs[..|rs| - 1], fp)
  }

  /** How many frames an entry leaves below the new one. */
  function Kept(cfg: Config, rs: seq<Frame>, e: Enter): (k: nat)
    ensures k <= |rs|
  {
    if Sibling(cfg, rs, e.loc, e.child) then |rs| - 1 else Above(rs, e.loc)
  }

  /** The frames from `k` up with their fake end times, top first. */
  function FakeExits(rs: seq<Frame>, k: nat, end: nat): (r: seq<Frame>)
    requires k <= |rs|
    ensures |r| == |rs| - k
  {
    seq(|rs| - k, i requires 0 <= i < |rs| - k => rs[|rs| - 1 - i].(end := end + i))
  }
}
