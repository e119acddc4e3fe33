/** The shadow stack of one thread on the -finstrument-functions path: the filter check at
    entry, the frame it leaves, the filter restoration at exit and record_trace_data
    (libmcount/mcount.c, libmcount/record.c). Tracing is enabled throughout; there are
    function filters, the depth limit, the time threshold, caller filters and trace
    triggers. */
module CygprofStack {
  import opened Wrappers

  type Func = nat

  /** Values of a 64-bit clock. */
  const CLOCK_RANGE := 0x1_0000_0000_0000_0000
  type Clock = t: nat | t < CLOCK_RANGE

  datatype Mode = In | Out

  /** `filters` is the trigger table reduced to function filters; `limit` is the default
      depth; `callers` and `traced` are the functions with a caller filter or a trace trigger. */
  datatype Config = Config(filters: map<Func, Mode>, limit: nat, maxStack: nat, threshold: nat,
                           callers: set<Func>, traced: set<Func>)

  /** Option parsing keeps the stack size positive. */
  predicate ConfigOk(cfg: Config) { cfg.maxStack > 0 }

  /** There are positive filters. */
  predicate ModeIn(cfg: Config) { In in cfg.filters.Values }

  /** struct filter_control without the fields only other triggers use. */
  datatype Ctl = Ctl(inCount: int, outCount: int, depth: nat)

  /** struct mcount_ret_stack with the flags spelled out. */
  datatype Frame = Frame(func: Func, depth: nat, start: nat, end: nat, norecord: bool, filtered: bool,
                         notrace: bool, caller: bool, trace: bool, written: bool, savedDepth: nat)

  datatype Rec = Entry(time: nat, func: Func, depth: nat) | Exit(time: nat, func: Func, depth: nat)

  /** The part of struct mcount_thread_data that matters, and the records produced. */
  datatype Thread = Thread(idx: nat, recordIdx: nat, warned: bool, ctl: Ctl, rstack: seq<Frame>, out: seq<Rec>)
  const EMPTY := Thread(0, 0, false, Ctl(0, 0, 0), [], [])

  function Min(a: nat, b: nat): nat { if a <= b then a else b }

  predicate Shaped(cfg: Config, t: Thread) {
    ConfigOk(cfg) && |t.rstack| == Min(t.idx, cfg.maxStack)
  }

  // ----- mcount_entry_filter_check -----

  datatype Verdict = Verdict(ctl: Ctl, accepted: bool, matched: Option<Mode>)

  function FilterCheck(cfg: Config, ctl: Ctl, f: Func): Verdict {
    if ctl.outCount > 0 then Verdict(ctl, false, None)
    else
      var matched := if f in cfg.filters then Some(cfg.filters[f]) else None;
      if matched.None? && ModeIn(cfg) && ctl.inCount == 0 then Verdict(ctl, false, None)
      else
        var c := if matched.None? then ctl
                 else if matched.value.In? then Ctl(ctl.inCount + 1, ctl.outCount, 0)
                 else Ctl(ctl.inCount, ctl.outCount + 1, 0);
        if c.depth >= cfg.limit then Verdict(c, false, matched)
        else Verdict(c.(depth := c.depth + 1), true, matched)
  }

  /** MCOUNT_FL_NORECORD as __cygprof_entry and mcount_entry_filter_record set it. */
  predicate NoRecord(cfg: Config, v: Verdict) {
    !v.accepted || v.ctl.outCount > 0 || (v.ctl.inCount == 0 && ModeIn(cfg))
  }

  // ----- record_trace_data -----

  /** The backward walk: the lowest frame such that it and all above it are unwritten. */
  function FirstUnwritten(fs: seq<Frame>): (lo: nat)
    ensures lo <= |fs|
  {
    if fs == [] || fs[|fs| - 1].written then |fs| else FirstUnwritten(fs[..|fs| - 1])
  }

  /** The ENTRY records of the recordable frames from `lo` up. */
  function Entries(fs: seq<Frame>, lo: nat): seq<Rec>
    requires lo <= |fs|
  {
    if lo == |fs| then []
    else
      var top := fs[|fs| - 1];
      Entries(fs[..|fs| - 1], lo) + if top.norecord then [] else [Entry(top.start, top.func, top.depth)]
  }

  /** Writing a frame's record raises its WRITTEN flag. */
  function Mark(fs: seq<Frame>, lo: nat): (r: seq<Frame>)
    requires lo <= |fs|
    ensures |r| == |fs|
  {
    seq(|fs|, i requires 0 <= i < |fs| => if i < lo || fs[i].norecord then fs[i] else fs[i].(written := true))
  }

  function Flush(fs: seq<Frame>): (seq<Frame>, seq<Rec>) {
    var lo := FirstUnwritten(fs);
    (Mark(fs, lo), Entries(fs, lo))
  }

  /** record_trace_data on the top frame. */
  function RecordTrace(fs: seq<Frame>): (seq<Frame>, seq<Rec>)
    requires fs != []
  {
    var top := fs[|fs| - 1];
    var (marked, recs) := Flush(fs);
    if top.end == 0 then (marked, recs)
    else (marked[|fs| - 1 := marked[|fs| - 1].(written := true)], recs + [Exit(top.end, top.func, top.depth)])
  }

  // ----- __cygprof_entry and __cygprof_exit -----

  function NewFrame(cfg: Config, t: Thread, f: Func, now: nat): Frame {
    var v := FilterCheck(cfg, t.ctl, f);
    Frame(f, t.recordIdx, if v.accepted then now else 0, 0, NoRecord(cfg, v),
          v.matched == Some(In), v.matched == Some(Out),
          t.ctl.outCount == 0 && f in cfg.callers, t.ctl.outCount == 0 && f in cfg.traced, false, t.ctl.depth)
  }

  function Enter(cfg: Config, t: Thread, f: Func, now: nat): (r: Thread)
    requires Shaped(cfg, t)
    ensures Shaped(cfg, r)
  {
    if t.idx >= cfg.maxStack then
      if t.warned then t.(idx := t.idx + 1)
      else
        var (fs, recs) := RecordTrace(t.rstack);
        t.(idx := t.idx + 1, warned := true, rstack := fs, out := t.out + recs)
    else
      var fr := NewFrame(cfg, t, f, now);
      t.(idx := t.idx + 1, warned := false, ctl := FilterCheck(cfg, t.ctl, f).ctl,
         rstack := t.rstack + [fr], recordIdx := if fr.norecord then t.recordIdx else t.recordIdx + 1)
  }

  /** Unsigned 64-bit subtraction of clock values. */
  function Sub64(a: nat, b: nat): nat {
    (a - b) % CLOCK_RANGE
  }

  /** The test of mcount_exit_filter_record that triggers recording. */
  predicate Triggers(cfg: Config, fr: Frame) {
    || (Sub64(fr.end, fr.start) > cfg.threshold && (cfg.callers == {} || fr.caller))
    || fr.written || fr.trace
  }

  function Restored(ctl: Ctl, fr: Frame): Ctl {
    Ctl(if fr.filtered then ctl.inCount - 1 else ctl.inCount,
        if !fr.filtered && fr.notrace then ctl.outCount - 1 else ctl.outCount, fr.savedDepth)
  }

  function Leave(cfg: Config, t: Thread, now: nat): (r: Thread)
    requires Shaped(cfg, t) && t.idx > 0
    ensures Shaped(cfg, r)
  {
    if t.idx > cfg.maxStack then t.(idx := t.idx - 1)
    else
      var top := t.rstack[t.idx - 1];
      var fr := if top.norecord then top else top.(end := now);
      var fs := t.rstack[t.idx - 1 := fr];
      var t' := t.(idx := t.idx - 1, ctl := Restored(t.ctl, fr));
      if fr.norecord then t'.(rstack := fs[..t.idx - 1])
      else
        var t'' := t'.(recordIdx := if t.recordIdx > 0 then t.recordIdx - 1 else 0);
        if Triggers(cfg, fr) then
          var (marked, recs) := RecordTrace(fs);
          t''.(rstack := marked[..t.idx - 1], out := t.out + recs)
        else t''.(rstack := fs[..t.idx - 1])
  }
}
