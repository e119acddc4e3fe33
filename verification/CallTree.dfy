/** Whole runs of the shadow stack: arbitrary sequences of entries and exits, and call trees. */
module CallTree {
  import opened CygprofStack
  import opened FilterPath
  import opened LazyRecording
  import opened Wrappers

  // ----- arbitrary event sequences -----

  datatype Event = Called(f: Func, now: nat) | Returned(now: nat)

  /** The active calls after the events; a return needs an active call and a running clock. */
  function PathOf(evs: seq<Event>): Option<seq<Func>> {
    if evs == [] then Some([])
    else
      var before := PathOf(evs[..|evs| - 1]);
      if before.None? then None
      else
        match evs[|evs| - 1]
        case Called(f, _) => Some(before.value + [f])
        case Returned(now) =>
          if before.value != [] && now > 0 then Some(before.value[..|before.value| - 1]) else None
  }

  function RunEvents(cfg: Config, evs: seq<Event>): (t: Thread)
    requires ConfigOk(cfg)
    ensures Shaped(cfg, t)
  {
    if evs == [] then EMPTY
    else
      var t := RunEvents(cfg, evs[..|evs| - 1]);
      match evs[|evs| - 1]
      case Called(f, now) => Enter(cfg, t, f, now)
      case Returned(now) => if t.idx > 0 then Leave(cfg, t, now) else t
  }

  lemma {:induction false} EventsKeep(cfg: Config, evs: seq<Event>)
    requires ConfigOk(cfg) && PathOf(evs).Some?
    ensures Inv(cfg, RunEvents(cfg, evs), PathOf(evs).value)
  {
    if evs != [] {
      var front := evs[..|evs| - 1];
      EventsKeep(cfg, front);
      match evs[|evs| - 1]
      case Called(f, now) => EnterKeeps(cfg, RunEvents(cfg, front), PathOf(front).value, f, now);
      case Returned(now) => LeaveKeeps(cfg, RunEvents(cfg, front), PathOf(front).value, now);
    }
  }

  /** MAIN RESULT (filters). At any moment of any run the top frame is recordable iff the path
      of active calls passes the path predicate. */
  lemma TopRecordedIff(cfg: Config, evs: seq<Event>)
    requires ConfigOk(cfg) && PathOf(evs).Some?
    ensures var t, path := RunEvents(cfg, evs), PathOf(evs).value;
            0 < |path| <= cfg.maxStack ==>
              |t.rstack| == |path| && (!t.rstack[|path| - 1].norecord <==> PathAccepted(cfg, path))
  {
    EventsKeep(cfg, evs);
    var t, path := RunEvents(cfg, evs), PathOf(evs).value;
    if 0 < |path| <= cfg.maxStack {
      assert FrameFits(cfg, t.rstack[|path| - 1], path[..|path|]);
      assert path[..|path|] == path;
    }
  }

  /** The latest entry of the run, if any, was made with the stack full. */
  predicate LastBeyond(cfg: Config, evs: seq<Event>)
    requires PathOf(evs).Some?
  {
    evs != [] &&
    var front := evs[..|evs| - 1];
    match evs[|evs| - 1]
    case Called(_, _) => |PathOf(front).value| >= cfg.maxStack
    case Returned(_) => LastBeyond(cfg, front)
  }

  /** The warning flag is up exactly from an entry beyond the limit to the next one within it, and
      an accepted entry within the limit has the clock value read for it. */
  lemma {:induction false} WarnedIff(cfg: Config, evs: seq<Event>)
    requires ConfigOk(cfg) && PathOf(evs).Some?
    ensures RunEvents(cfg, evs).warned <==> LastBeyond(cfg, evs)
    ensures evs != [] && evs[|evs| - 1].Called? && !LastBeyond(cfg, evs) ==>
              var t, path := RunEvents(cfg, evs), PathOf(evs).value;
              && |t.rstack| == |path|
              && t.rstack[|path| - 1].start == if VerdictAt(cfg, path).accepted then evs[|evs| - 1].now else 0
  {
    if evs != [] {
      var front := evs[..|evs| - 1];
      WarnedIff(cfg, front);
      EventsKeep(cfg, front);
      var path := PathOf(evs).value;
      if evs[|evs| - 1].Called? && |path| <= cfg.maxStack {
        assert path[..|path| - 1] == PathOf(front).value;
        assert Held(cfg, PathOf(front).value) == PathOf(front).value;
      }
    }
  }

  function Filtered(fs: seq<Frame>): nat {
    if fs == [] then 0 else Filtered(fs[..|fs| - 1]) + if fs[|fs| - 1].filtered then 1 else 0
  }

  function NoTraced(fs: seq<Frame>): nat {
    if fs == [] then 0 else NoTraced(fs[..|fs| - 1]) + if fs[|fs| - 1].notrace then 1 else 0
  }

  lemma CounterStep(cfg: Config, fr: Frame, path: seq<Func>)
    requires path != [] && FrameFits(cfg, fr, path)
    ensures var front, c := CtlAt(cfg, path[..|path| - 1]), CtlAt(cfg, path);
            && c.inCount == front.inCount + (if fr.filtered then 1 else 0)
            && c.outCount == front.outCount + (if fr.notrace then 1 else 0)
  {
    hide PathAccepted, RecordedOn;
  }

  lemma {:induction false} CountersOf(cfg: Config, fs: seq<Frame>, path: seq<Func>)
    requires StackFits(cfg, fs, path)
    ensures CtlAt(cfg, path[..|fs|]).inCount == Filtered(fs)
    ensures CtlAt(cfg, path[..|fs|]).outCount == NoTraced(fs)
  {
    if fs != [] {
      var n := |fs| - 1;
      CountersOf(cfg, fs[..n], path);
      assert FrameFits(cfg, fs[n], path[..n + 1]);
      hide CtlAt, FrameFits, StackFits;
      assert path[..n + 1][..n] == path[..n];
      CounterStep(cfg, fs[n], path[..n + 1]);
    }
  }

  /** MAIN RESULT (counters). in_count and out_count are the FILTERED and the NOTRACE frames on
      the stack, and there is at most one NOTRACE frame. */
  lemma CountersCountFrames(cfg: Config, evs: seq<Event>)
    requires ConfigOk(cfg) && PathOf(evs).Some?
    ensures var t := RunEvents(cfg, evs);
            && t.ctl.inCount == Filtered(t.rstack)
            && t.ctl.outCount == NoTraced(t.rstack) <= 1
  {
    EventsKeep(cfg, evs);
    var t, path := RunEvents(cfg, evs), PathOf(evs).value;
    CountersOf(cfg, t.rstack, path);
    OutIsOne(cfg, Held(cfg, path));
  }

  /** MAIN RESULT (nesting). At any moment of any run every EXIT produced so far has closed the
      latest open ENTRY of its function, every depth is the number of ENTRYs open below it, and
      the open ENTRYs are the written frames in stack order. */
  lemma AlwaysWellNested(cfg: Config, evs: seq<Event>)
    requires ConfigOk(cfg) && PathOf(evs).Some?
    ensures var t := RunEvents(cfg, evs); Nesting(t.out) == Some(OpenCalls(t.rstack))
  {
    EventsKeep(cfg, evs);
  }

  // ----- call trees -----

  /** One call: its function, its clock values at entry and exit, and the calls it makes. */
  datatype Call = Call(func: Func, start: Clock, end: Clock, children: seq<Call>)

  /** The clock is past zero whenever a call ends. */
  ghost predicate Clocked(c: Call) {
    c.end > 0 && forall k :: 0 <= k < |c.children| ==> Clocked(c.children[k])
  }

  function RunCall(cfg: Config, t: Thread, c: Call): (r: Thread)
    requires Shaped(cfg, t)
    ensures Shaped(cfg, r)
    decreases c, 0
  {
    var inner := RunCalls(cfg, Enter(cfg, t, c.func, c.start), c.children);
    if inner.idx > 0 then Leave(cfg, inner, c.end) else inner
  }

  function RunCalls(cfg: Config, t: Thread, cs: seq<Call>): (r: Thread)
    requires Shaped(cfg, t)
    ensures Shaped(cfg, r)
    decreases cs, 1
  {
    if cs == [] then t else RunCalls(cfg, RunCall(cfg, t, cs[0]), cs[1..])
  }

  /** The call took longer than the threshold. A clock that went back by some ticks counts as
      one that went once around except for these ticks. */
  predicate TakesLong(cfg: Config, start: Clock, end: Clock) {
    if start <= end then end - start > cfg.threshold
    else CLOCK_RANGE - (start - end) > cfg.threshold
  }

  /** The time, caller or trace test of one call, from its own data. */
  predicate Passes(cfg: Config, c: Call) {
    || (TakesLong(cfg, c.start, c.end) && (cfg.callers == {} || c.func in cfg.callers))
    || c.func in cfg.traced
  }

  /** The call makes its recordable ancestors worth keeping: it is recordable and passes the
      test, some call below it does, or it is beyond the stack limit. */
  predicate Forces(cfg: Config, path: seq<Func>, c: Call)
    decreases c, 0
  {
    var p := path + [c.func];
    |path| >= cfg.maxStack || (Recorded(cfg, p) && Passes(cfg, c)) || AnyForces(cfg, p, c.children)
  }

  predicate AnyForces(cfg: Config, path: seq<Func>, cs: seq<Call>)
    decreases cs, 1
  {
    cs != [] && (Forces(cfg, path, cs[0]) || AnyForces(cfg, path, cs[1..]))
  }

  /** THE SPECIFICATION. The tree cut down to the recordable calls that pass the test or have
      a descendant that does, written out in order. */
  function Serial(cfg: Config, path: seq<Func>, c: Call): seq<Rec>
    decreases c, 0
  {
    var p := path + [c.func];
    if |path| >= cfg.maxStack then []
    else if Recorded(cfg, p) && Forces(cfg, path, c) then
      var d := RecordedOn(cfg, path);
      [Entry(c.start, c.func, d)] + SerialAll(cfg, p, c.children) + [Exit(c.end, c.func, d)]
    else SerialAll(cfg, p, c.children)
  }

  function SerialAll(cfg: Config, path: seq<Func>, cs: seq<Call>): seq<Rec>
    decreases cs, 1
  {
    if cs == [] then [] else Serial(cfg, path, cs[0]) + SerialAll(cfg, path, cs[1..])
  }

  /** What running some calls does to the thread: the owed ENTRYs come out first if anything
      below is worth keeping, then the serialised calls; everything else is restored. */
  ghost predicate Effect(t: Thread, t': Thread, forced: bool, recs: seq<Rec>) {
    && t'.out == t.out + (if forced then Pending(t.rstack) else []) + recs
    && t'.rstack == (if forced then MarkAll(t.rstack) else t.rstack)
    && t'.idx == t.idx && t'.recordIdx == t.recordIdx && t'.ctl == t.ctl
  }

  lemma NoneForcedNothing(cfg: Config, path: seq<Func>, c: Call)
    requires !Forces(cfg, path, c)
    ensures Serial(cfg, path, c) == []
    decreases c, 0
  {
    NoneForcedNothingAll(cfg, path + [c.func], c.children);
  }

  lemma NoneForcedNothingAll(cfg: Config, path: seq<Func>, cs: seq<Call>)
    requires !AnyForces(cfg, path, cs)
    ensures SerialAll(cfg, path, cs) == []
    decreases cs, 1
  {
    if cs != [] {
      NoneForcedNothing(cfg, path, cs[0]);
      NoneForcedNothingAll(cfg, path, cs[1..]);
    }
  }

  lemma Regroup(a: seq<Rec>, b: seq<Rec>, c: seq<Rec>, d: seq<Rec>)
    ensures a + b + c + [] + d == a + b + (c + d)
  {
  }

  lemma Nothing(a: seq<Rec>, b: seq<Rec>, d: seq<Rec>)
    ensures a + [] + [] == a && [] + d == d && a + b + d == a + b + ([] + d)
  {
  }

  lemma EffectsCompose(t: Thread, t1: Thread, t2: Thread, f1: bool, f2: bool, r1: seq<Rec>, r2: seq<Rec>)
    requires Effect(t, t1, f1, r1) && Effect(t1, t2, f2, r2)
    requires !f1 ==> r1 == []
    ensures Effect(t, t2, f1 || f2, r1 + r2)
  {
    MarkAllWrites(t.rstack);
    hide Pending, MarkAll;
    if f1 {
      Regroup(t.out, Pending(t.rstack), r1, r2);
    } else {
      Nothing(t.out, if f2 then Pending(t.rstack) else [], r2);
    }
  }

  lemma {:induction false} RunCallsEffect(cfg: Config, t: Thread, path: seq<Func>, cs: seq<Call>)
    requires Inv(cfg, t, path) && forall k :: 0 <= k < |cs| ==> Clocked(cs[k])
    ensures Inv(cfg, RunCalls(cfg, t, cs), path)
    ensures Effect(t, RunCalls(cfg, t, cs), AnyForces(cfg, path, cs), SerialAll(cfg, path, cs))
    decreases cs, 1
  {
    if cs != [] {
      var t1 := RunCall(cfg, t, cs[0]);
      RunCallEffect(cfg, t, path, cs[0]);
      RunCallsEffect(cfg, t1, path, cs[1..]);
      if !Forces(cfg, path, cs[0]) {
        NoneForcedNothing(cfg, path, cs[0]);
      }
      EffectsCompose(t, t1, RunCalls(cfg, t, cs), Forces(cfg, path, cs[0]), AnyForces(cfg, path, cs[1..]),
                     Serial(cfg, path, cs[0]), SerialAll(cfg, path, cs[1..]));
    }
  }

  // ----- one call: its entry, its children, its exit -----

  lemma {:induction false} NothingBeyondLimit(cfg: Config, path: seq<Func>, cs: seq<Call>)
    requires |path| >= cfg.maxStack
    ensures SerialAll(cfg, path, cs) == []
  {
    if cs != [] {
      NothingBeyondLimit(cfg, path, cs[1..]);
    }
  }

  /** Beyond the stack limit a call only makes sure that the owed ENTRYs are out. */
  lemma BeyondLimitEffect(cfg: Config, t: Thread, path: seq<Func>, c: Call, inner: Thread)
    requires Inv(cfg, t, path) && |path| >= cfg.maxStack
    requires Effect(Enter(cfg, t, c.func, c.start), inner, AnyForces(cfg, path + [c.func], c.children), [])
    requires Shaped(cfg, inner)
    ensures Effect(t, Leave(cfg, inner, c.end), true, [])
  {
    var t0 := Enter(cfg, t, c.func, c.start);
    MarkAllWrites(t.rstack);
    NothingPending(MarkAll(t.rstack));
    if t.warned {
      NothingPending(t.rstack);
      assert t0.rstack == MarkAll(t.rstack) == t.rstack;
    } else {
      OverflowKeeps(cfg, t, path);
      assert t0.rstack == MarkAll(t.rstack);
    }
    assert t0.out == t.out + Pending(t.rstack);
    MarkAllWrites(t0.rstack);
    assert inner.out == t0.out + [] + [];
  }

  /** The exit test on a frame: a written or traced one is recorded in any case, another one
      iff its call took longer than the threshold and no caller filter is against it. */
  lemma ExitTestIff(cfg: Config, fr: Frame)
    requires fr.start < CLOCK_RANGE && fr.end < CLOCK_RANGE
    ensures fr.start <= fr.end ==>
              (Triggers(cfg, fr) <==> (fr.end - fr.start > cfg.threshold && (cfg.callers == {} || fr.caller)) ||
                                      fr.written || fr.trace)
    ensures fr.end < fr.start ==>
              (Triggers(cfg, fr) <==> (CLOCK_RANGE - (fr.start - fr.end) > cfg.threshold &&
                                       (cfg.callers == {} || fr.caller)) || fr.written || fr.trace)
  {
    if fr.start <= fr.end {
      assert Sub64(fr.end, fr.start) == fr.end - fr.start;
    } else {
      assert Sub64(fr.end, fr.start) == CLOCK_RANGE - (fr.start - fr.end);
    }
  }

  /** What the exit test sees is the test of the specification, or a child already kept. */
  lemma TriggersIff(cfg: Config, t: Thread, path: seq<Func>, c: Call, fr: Frame)
    requires Inv(cfg, t, path) && |path| < cfg.maxStack
    requires fr == NewFrame(cfg, t, c.func, c.start) && !fr.norecord
    ensures forall w :: Triggers(cfg, fr.(end := c.end, written := w)) <==> Passes(cfg, c) || w
    ensures fr.start == c.start && fr.func == c.func && fr.depth == RecordedOn(cfg, path)
  {
    NewFrameFits(cfg, t, path, c.func, c.start);
    assert (path + [c.func])[..|path|] == path;
    assert Held(cfg, path) == path;
    forall w ensures Triggers(cfg, fr.(end := c.end, written := w)) <==> Passes(cfg, c) || w {
      ExitTestIff(cfg, fr.(end := c.end, written := w));
    }
  }

  lemma EnterNormal(cfg: Config, t: Thread, f: Func, now: nat)
    requires Shaped(cfg, t) && t.idx < cfg.maxStack
    ensures Enter(cfg, t, f, now).out == t.out
    ensures Enter(cfg, t, f, now).rstack == t.rstack + [NewFrame(cfg, t, f, now)]
    ensures !NewFrame(cfg, t, f, now).written
  {
  }

  /** The records of a kept call, whether its ENTRY came out early or only now. */
  lemma Glue(out: seq<Rec>, pend: seq<Rec>, en: Rec, recs: seq<Rec>, ex: Rec)
    ensures (out + (pend + [en]) + recs) + ([] + [ex]) == out + pend + ([en] + recs + [ex])
    ensures recs == [] ==> out + [] + recs + ((pend + [en]) + [ex]) == out + pend + ([en] + recs + [ex])
  {
  }

  /** The frames at the exit of a call: those below it, and its own. */
  lemma InnerStack(cfg: Config, t: Thread, f: Func, start: nat, inner: Thread, fc: bool, recs: seq<Rec>)
    requires Shaped(cfg, t) && t.idx < cfg.maxStack
    requires Effect(Enter(cfg, t, f, start), inner, fc, recs)
    requires fc ==> NewFrame(cfg, t, f, start).norecord
    ensures var fr, rs := NewFrame(cfg, t, f, start), t.rstack;
            && inner.rstack == (if fc then MarkAll(rs) else rs) + [fr]
            && inner.out == t.out + (if fc then Pending(rs) else []) + recs
  {
    EnterNormal(cfg, t, f, start);
    hide Enter, NewFrame, MarkAll, Pending;
    MarkAllSnoc(t.rstack, NewFrame(cfg, t, f, start));
    assert Pending(t.rstack) + [] == Pending(t.rstack);
  }

  lemma TopOf(rs: seq<Frame>, fr: Frame)
    ensures (rs + [fr])[..|rs|] == rs && (rs + [fr])[|rs|] == fr
  {
  }

  lemma ShapedIdx(cfg: Config, t: Thread)
    requires Shaped(cfg, t)
    ensures |t.rstack| == if t.idx < cfg.maxStack then t.idx else cfg.maxStack
  {
  }

  lemma MarkAllLength(fs: seq<Frame>)
    ensures |MarkAll(fs)| == |fs|
  {
  }

  /** The same when a call below has brought the ENTRYs out. */
  lemma InnerForced(cfg: Config, t: Thread, f: Func, start: nat, inner: Thread, recs: seq<Rec>)
    requires Shaped(cfg, t) && t.idx < cfg.maxStack && !NewFrame(cfg, t, f, start).norecord
    requires Effect(Enter(cfg, t, f, start), inner, true, recs)
    ensures var fr, rs := NewFrame(cfg, t, f, start), t.rstack;
            && inner.rstack == MarkAll(rs) + [fr.(written := true)] && Pending(inner.rstack) == []
            && inner.out == t.out + (Pending(rs) + [Entry(fr.start, fr.func, fr.depth)]) + recs
  {
    EnterNormal(cfg, t, f, start);
    hide Enter, NewFrame, MarkAll, Pending;
    MarkAllSnoc(t.rstack, NewFrame(cfg, t, f, start));
    MarkAllWrites(t.rstack + [NewFrame(cfg, t, f, start)]);
  }

  lemma InvIdx(cfg: Config, t: Thread, path: seq<Func>)
    requires Inv(cfg, t, path)
    ensures t.idx == |path| && Shaped(cfg, t)
  {
  }

  /** An exit whose ENTRY came out with a call below it. */
  lemma KeptEarly(cfg: Config, t: Thread, path: seq<Func>, c: Call, inner: Thread, recs: seq<Rec>)
    requires Inv(cfg, t, path) && |path| < cfg.maxStack && c.end > 0
    requires Inv(cfg, inner, path + [c.func])
    requires !NewFrame(cfg, t, c.func, c.start).norecord
    requires Effect(Enter(cfg, t, c.func, c.start), inner, true, recs)
    ensures var d := RecordedOn(cfg, path);
            && Leave(cfg, inner, c.end).rstack == MarkAll(t.rstack)
            && Leave(cfg, inner, c.end).out ==
               t.out + Pending(t.rstack) + ([Entry(c.start, c.func, d)] + recs + [Exit(c.end, c.func, d)])
  {
    hide *;
    InvIdx(cfg, t, path);
    InvIdx(cfg, inner, path + [c.func]);
    ShapedIdx(cfg, t);
    InnerForced(cfg, t, c.func, c.start, inner, recs);
    var fr, rs := NewFrame(cfg, t, c.func, c.start), t.rstack;
    TriggersIff(cfg, t, path, c, fr);
    MarkAllLength(rs);
    TopOf(MarkAll(rs), fr.(written := true));
    assert fr.(written := true).(end := c.end) == fr.(end := c.end, written := true);
    LeaveRecords(cfg, inner, path + [c.func], c.end);
    MarkAllWrites(rs);
    Glue(t.out, Pending(rs), Entry(c.start, c.func, fr.depth), recs, Exit(c.end, c.func, fr.depth));
  }

  /** An exit that brings out the owed ENTRYs and this call's own. */
  lemma KeptNow(cfg: Config, t: Thread, path: seq<Func>, c: Call, inner: Thread)
    requires Inv(cfg, t, path) && |path| < cfg.maxStack && c.end > 0
    requires Inv(cfg, inner, path + [c.func])
    requires !NewFrame(cfg, t, c.func, c.start).norecord && Passes(cfg, c)
    requires Effect(Enter(cfg, t, c.func, c.start), inner, false, [])
    ensures var d := RecordedOn(cfg, path);
            && Leave(cfg, inner, c.end).rstack == MarkAll(t.rstack)
            && Leave(cfg, inner, c.end).out ==
               t.out + Pending(t.rstack) + ([Entry(c.start, c.func, d)] + [] + [Exit(c.end, c.func, d)])
  {
    InvIdx(cfg, t, path);
    InvIdx(cfg, inner, path + [c.func]);
    EnterNormal(cfg, t, c.func, c.start);
    hide Inv, Enter, Leave, RecordedOn, NewFrame, Pending, MarkAll, Triggers, Passes;
    var fr, n, rs := NewFrame(cfg, t, c.func, c.start), |path|, t.rstack;
    TriggersIff(cfg, t, path, c, fr);
    MarkAllSnoc(rs, fr);
    assert inner.rstack == rs + [fr];
    assert inner.rstack[n].(end := c.end) == fr.(end := c.end, written := false);
    LeaveRecords(cfg, inner, path + [c.func], c.end);
    assert inner.rstack[..n] == rs;
    assert inner.out == t.out + [] + [];
    Glue(t.out, Pending(rs), Entry(c.start, c.func, fr.depth), [], Exit(c.end, c.func, fr.depth));
  }

  lemma LeaveQuiet(cfg: Config, t: Thread, now: nat)
    requires Shaped(cfg, t) && 0 < t.idx <= cfg.maxStack
    requires t.rstack[t.idx - 1].norecord || !Triggers(cfg, t.rstack[t.idx - 1].(end := now))
    ensures Leave(cfg, t, now).rstack == t.rstack[..t.idx - 1] && Leave(cfg, t, now).out == t.out
  {
  }

  lemma FreshUnwritten(cfg: Config, t: Thread, f: Func, now: nat)
    requires Shaped(cfg, t) && t.idx < cfg.maxStack
    ensures !NewFrame(cfg, t, f, now).written
  {
    EnterNormal(cfg, t, f, now);
  }

  /** An exit that does not record: an unrecordable call, or one not worth keeping. */
  lemma SkippedEffect(cfg: Config, t: Thread, path: seq<Func>, c: Call, inner: Thread, fc: bool, recs: seq<Rec>)
    requires Inv(cfg, t, path) && |path| < cfg.maxStack
    requires Inv(cfg, inner, path + [c.func])
    requires Effect(Enter(cfg, t, c.func, c.start), inner, fc, recs)
    requires !NewFrame(cfg, t, c.func, c.start).norecord ==> !fc && !Passes(cfg, c)
    ensures Leave(cfg, inner, c.end).rstack == (if fc then MarkAll(t.rstack) else t.rstack)
    ensures Leave(cfg, inner, c.end).out == t.out + (if fc then Pending(t.rstack) else []) + recs
  {
    InvIdx(cfg, t, path);
    InvIdx(cfg, inner, path + [c.func]);
    ShapedIdx(cfg, t);
    ShapedIdx(cfg, inner);
    InnerStack(cfg, t, c.func, c.start, inner, fc, recs);
    hide *;
    var fr := NewFrame(cfg, t, c.func, c.start);
    MarkAllLength(t.rstack);
    TopOf(if fc then MarkAll(t.rstack) else t.rstack, fr);
    if !fr.norecord {
      FreshUnwritten(cfg, t, c.func, c.start);
      TriggersIff(cfg, t, path, c, fr);
      assert fr.(end := c.end) == fr.(end := c.end, written := false);
    }
    LeaveQuiet(cfg, inner, c.end);
  }

  /** The rest of the thread state after a balanced call. */
  lemma LeaveRestores(cfg: Config, t: Thread, path: seq<Func>, c: Call, inner: Thread)
    requires Inv(cfg, t, path) && |path| < cfg.maxStack
    requires Inv(cfg, inner, path + [c.func])
    ensures var t' := Leave(cfg, inner, c.end); t'.idx == t.idx && t'.recordIdx == t.recordIdx && t'.ctl == t.ctl
  {
    var p := path + [c.func];
    assert p[..|p| - 1] == path;
    PopKeeps(cfg, inner, p, c.end);
    assert Held(cfg, path) == path;
  }

  lemma RecordedIffFrame(cfg: Config, t: Thread, path: seq<Func>, c: Call)
    requires Inv(cfg, t, path) && |path| < cfg.maxStack
    ensures !NewFrame(cfg, t, c.func, c.start).norecord <==> Recorded(cfg, path + [c.func])
  {
    NewFrameFits(cfg, t, path, c.func, c.start);
  }

  lemma NormalCallEffect(cfg: Config, t: Thread, path: seq<Func>, c: Call, inner: Thread)
    requires Inv(cfg, t, path) && |path| < cfg.maxStack && c.end > 0
    requires Inv(cfg, inner, path + [c.func])
    requires Effect(Enter(cfg, t, c.func, c.start), inner,
                    AnyForces(cfg, path + [c.func], c.children), SerialAll(cfg, path + [c.func], c.children))
    ensures Effect(t, Leave(cfg, inner, c.end), Forces(cfg, path, c), Serial(cfg, path, c))
  {
    hide Inv, Leave;
    var p := path + [c.func];
    var fc, recs := AnyForces(cfg, p, c.children), SerialAll(cfg, p, c.children);
    if !fc {
      NoneForcedNothingAll(cfg, p, c.children);
    }
    RecordedIffFrame(cfg, t, path, c);
    LeaveRestores(cfg, t, path, c, inner);
    if Recorded(cfg, p) && Forces(cfg, path, c) {
      if fc {
        KeptEarly(cfg, t, path, c, inner, recs);
      } else {
        KeptNow(cfg, t, path, c, inner);
      }
    } else {
      SkippedEffect(cfg, t, path, c, inner, fc, recs);
    }
  }

  lemma {:induction false} RunCallEffect(cfg: Config, t: Thread, path: seq<Func>, c: Call)
    requires Inv(cfg, t, path) && Clocked(c)
    ensures Inv(cfg, RunCall(cfg, t, c), path)
    ensures Effect(t, RunCall(cfg, t, c), Forces(cfg, path, c), Serial(cfg, path, c))
    decreases c, 0
  {
    hide Inv, Effect;
    InvIdx(cfg, t, path);
    var p := path + [c.func];
    var t0 := Enter(cfg, t, c.func, c.start);
    var inner := RunCalls(cfg, t0, c.children);
    var fc, recs := AnyForces(cfg, p, c.children), SerialAll(cfg, p, c.children);
    EnterKeeps(cfg, t, path, c.func, c.start);
    RunCallsEffect(cfg, t0, p, c.children);
    InvIdx(cfg, inner, p);
    assert p[..|p| - 1] == path;
    LeaveKeeps(cfg, inner, p, c.end);
    if |path| >= cfg.maxStack {
      NothingBeyondLimit(cfg, p, c.children);
      BeyondLimitEffect(cfg, t, path, c, inner);
    } else {
      NormalCallEffect(cfg, t, path, c, inner);
    }
  }

  // ----- whole runs -----

  lemma EmptyOk(cfg: Config)
    requires ConfigOk(cfg)
    ensures Inv(cfg, EMPTY, [])
  {
  }

  /** MAIN RESULT (lazy recording is pruning). Running any sequence of call trees from an empty
      stack, recording ancestors only when something below them is worth keeping, produces the
      serialisation of the pruned trees and leaves the shadow stack and the filters as they were. */
  lemma LazyIsPruned(cfg: Config, cs: seq<Call>)
    requires ConfigOk(cfg) && forall k :: 0 <= k < |cs| ==> Clocked(cs[k])
    ensures var t := RunCalls(cfg, EMPTY, cs);
            && t.out == SerialAll(cfg, [], cs)
            && t.idx == 0 && t.recordIdx == 0 && t.rstack == [] && t.ctl == EMPTY.ctl
  {
    EmptyOk(cfg);
    RunCallsEffect(cfg, EMPTY, [], cs);
    assert Pending([]) == [];
    assert [] + [] + SerialAll(cfg, [], cs) == SerialAll(cfg, [], cs);
  }

  /** MAIN RESULT (balanced runs restore the filters). In the middle of any run, even with the
      stack past its limit, a balanced run of calls restores the counters, the depth, the
      indices and every frame up to its WRITTEN flag. */
  lemma BalancedRestores(cfg: Config, evs: seq<Event>, cs: seq<Call>)
    requires ConfigOk(cfg) && PathOf(evs).Some? && forall k :: 0 <= k < |cs| ==> Clocked(cs[k])
    ensures var t := RunEvents(cfg, evs);
            var t' := RunCalls(cfg, t, cs);
            && t'.idx == t.idx && t'.recordIdx == t.recordIdx && t'.ctl == t.ctl
            && (t'.rstack == t.rstack || t'.rstack == MarkAll(t.rstack))
  {
    EventsKeep(cfg, evs);
    RunCallsEffect(cfg, RunEvents(cfg, evs), PathOf(evs).value, cs);
  }
}
