/** The stack discipline of estimate-return mode, and when a call is closed while it runs. */
module EstimateReturnProofs {
  import opened EstimateReturn

  lemma {:induction false} AboveSplits(rs: seq<Frame>, fp: Addr)
    requires Descending(rs)
    ensures forall i :: 0 <= i < |rs| ==> (rs[i].loc > fp <==> i < Above(rs, fp))
  {
    if rs != [] && rs[|rs| - 1].loc <= fp {
      AboveSplits(rs[..|rs| - 1], fp);
      assert forall i :: 0 <= i < |rs| - 1 ==> rs[i] == rs[..|rs| - 1][i];
    }
  }

  lemma FakeExitsStep(rs: seq<Frame>, k: nat, end: nat)
    requires k < |rs|
    ensures FakeExits(rs, k, end) == [rs[|rs| - 1].(end := end)] + FakeExits(rs[..|rs| - 1], k, end + 1)
  {
  }

  lemma {:induction false} PopIs(cfg: Config, t: Thread, fp: Addr, end: nat)
    requires forall i :: 0 <= i < |t.rs| ==> t.rs[i].loc != cfg.dummy
    ensures var k := Above(t.rs, fp);
            && PopReturned(cfg, t, fp, end).rs == t.rs[..k]
            && PopReturned(cfg, t, fp, end).closed == t.closed + FakeExits(t.rs, k, end)
    decreases |t.rs|
  {
    var k := Above(t.rs, fp);
    hide FakeExits;
    if t.rs == [] || t.rs[|t.rs| - 1].loc > fp {
      assert |FakeExits(t.rs, k, end)| == 0;
    } else {
      var n := |t.rs| - 1;
      PopIs(cfg, CloseTop(t, end), fp, end + 1);
      FakeExitsStep(t.rs, k, end);
      assert t.rs[..n][..k] == t.rs[..k];
    }
  }

  /** What an accepted entry does to the stack, and the fake exits it produces. */
  lemma EntryIs(cfg: Config, t: Thread, clock: nat, e: Enter)
    requires Inv(cfg, t, clock) && e.accepted && |t.rs| < cfg.maxStack
    ensures var k, t' := Kept(cfg, t.rs, e), Entry(cfg, t, e);
            && t'.rs == t.rs[..k] + [Frame(e.loc, e.child, k, e.start, 0, e.plt, e.norecord)]
            && t'.closed == t.closed + FakeExits(t.rs, k, Estimate(t.rs, e.now))
            && forall i :: 0 <= i < k ==> t.rs[i].loc > e.loc
  {
    var k, est := Kept(cfg, t.rs, e), Estimate(t.rs, e.now);
    AboveSplits(t.rs, e.loc);
    if Sibling(cfg, t.rs, e.loc, e.child) {
      assert FakeExits(t.rs, k, est) == [t.rs[k].(end := est)];
    } else {
      PopIs(cfg, t, e.loc, est);
    }
  }

  /** Addresses in one module, or both in none. */
  predicate Together(cfg: Config, a: Addr, b: Addr) {
    (a in cfg.moduleOf && b in cfg.moduleOf && cfg.moduleOf[a] == cfg.moduleOf[b]) ||
    (a !in cfg.moduleOf && b !in cfg.moduleOf)
  }

  /** MAIN RESULT (one entry, spelled out). With `mid` half-way between the start of the top frame
      and now: a top frame whose slot is higher is closed at `mid` iff it is a PLT function of the
      module of the function now entered, and then it alone; otherwise exactly the frames whose
      slots are not higher are closed, top-down, at `mid` and one tick later each. */
  lemma EntryDoes(cfg: Config, t: Thread, clock: nat, e: Enter) returns (k: nat, mid: nat)
    requires Inv(cfg, t, clock) && e.accepted && |t.rs| < cfg.maxStack
    ensures k <= |t.rs|
    ensures Entry(cfg, t, e).rs == t.rs[..k] + [Frame(e.loc, e.child, k, e.start, 0, e.plt, e.norecord)]
    ensures var t' := Entry(cfg, t, e);
            && t.closed <= t'.closed
            && var exits := t'.closed[|t.closed|..];
            && |exits| == |t.rs| - k
            && forall i :: 0 <= i < |exits| ==> exits[i] == t.rs[|t.rs| - 1 - i].(end := mid + i)
    ensures t.rs != [] ==>
              var top := t.rs[|t.rs| - 1];
              && 2 * mid <= top.start + e.now < 2 * mid + 2
              && (top.loc > e.loc ==>
                    k == if top.plt && Together(cfg, top.child, e.child) then |t.rs| - 1 else |t.rs|)
              && (top.loc <= e.loc ==> forall i :: 0 <= i < |t.rs| ==> (t.rs[i].loc > e.loc <==> i < k))
  {
    k, mid := Kept(cfg, t.rs, e), Estimate(t.rs, e.now);
    EntryIs(cfg, t, clock, e);
    AboveSplits(t.rs, e.loc);
    assert Entry(cfg, t, e).closed[|t.closed|..] == FakeExits(t.rs, k, mid);
  }

  lemma Refused(cfg: Config, t: Thread, e: Enter)
    requires !(e.accepted && |t.rs| < cfg.maxStack)
    ensures Entry(cfg, t, e) == t
  {
  }

  /** Cutting the stack and pushing a deeper, later frame. */
  lemma KeptKeeps(cfg: Config, t: Thread, t': Thread, clock: nat, k: nat, f: Frame)
    requires Inv(cfg, t, clock) && k <= |t.rs| < cfg.maxStack && t'.rs == t.rs[..k] + [f]
    requires f.depth == k && clock <= f.start && f.loc != cfg.dummy && forall i :: 0 <= i < k ==> t.rs[i].loc > f.loc
    ensures Inv(cfg, t', f.start)
  {
    assert forall i :: 0 <= i < k ==> t'.rs[i] == t.rs[i];
    assert t'.rs[k] == f;
  }

  /** MAIN RESULT (stack discipline), one entry: slots stay strictly descending and depths stay
      the indices. */
  lemma EntryKeeps(cfg: Config, t: Thread, clock: nat, e: Enter)
    requires Inv(cfg, t, clock) && clock <= e.now <= e.start && e.loc != cfg.dummy
    ensures Inv(cfg, Entry(cfg, t, e), e.start)
  {
    if e.accepted && |t.rs| < cfg.maxStack {
      EntryIs(cfg, t, clock, e);
      hide *;
      KeptKeeps(cfg, t, Entry(cfg, t, e), clock, Kept(cfg, t.rs, e),
                Frame(e.loc, e.child, Kept(cfg, t.rs, e), e.start, 0, e.plt, e.norecord));
    } else {
      hide Entry;
      assert Entry(cfg, t, e) == t by { Refused(cfg, t, e); }
    }
  }

  lemma EstimateLate(cfg: Config, t: Thread, clock: nat, now: nat)
    requires Inv(cfg, t, clock) && clock <= now
    ensures forall i :: 0 <= i < |t.rs| ==> t.rs[i].start <= Estimate(t.rs, now)
  {
    forall i | 0 <= i < |t.rs| ensures t.rs[i].start <= Estimate(t.rs, now) {
      assert t.rs[i].start <= t.rs[|t.rs| - 1].start;
    }
  }

  /** MAIN RESULT (fake exits). The frames an entry closes are the top ones, closed top-down;
      their end times increase strictly and none precedes its frame's start. */
  lemma FakeExitsFit(cfg: Config, t: Thread, clock: nat, e: Enter)
    requires Inv(cfg, t, clock) && clock <= e.now <= e.start && e.accepted && |t.rs| < cfg.maxStack
    ensures var t' := Entry(cfg, t, e);
            && t.closed <= t'.closed
            && var exits := t'.closed[|t.closed|..];
               && |t'.rs| == |t.rs| - |exits| + 1
               && (forall i :: 0 <= i < |exits| ==>
                     exits[i] == t.rs[|t.rs| - 1 - i].(end := exits[i].end) && exits[i].start <= exits[i].end)
               && (forall i, j :: 0 <= i < j < |exits| ==> exits[i].end < exits[j].end)
  {
    EntryIs(cfg, t, clock, e);
    EstimateLate(cfg, t, clock, e.now);
    hide Entry, Inv, Estimate, Kept;
    var exits := FakeExits(t.rs, Kept(cfg, t.rs, e), Estimate(t.rs, e.now));
    assert Entry(cfg, t, e).closed[|t.closed|..] == exits;
  }

  /** When the fake exits end before the new call starts: they may not, since each is stamped one
      tick after the previous one. */
  lemma FakeExitsBeforeStartIff(cfg: Config, t: Thread, clock: nat, e: Enter)
    requires Inv(cfg, t, clock) && clock <= e.now <= e.start && e.accepted && |t.rs| < cfg.maxStack
    ensures var t', est := Entry(cfg, t, e), Estimate(t.rs, e.now);
            (forall i :: |t.closed| <= i < |t'.closed| ==> t'.closed[i].end <= e.start)
            <==> est + |t.rs| - Kept(cfg, t.rs, e) <= e.start + 1
  {
    EntryIs(cfg, t, clock, e);
    var k, t', est := Kept(cfg, t.rs, e), Entry(cfg, t, e), Estimate(t.rs, e.now);
    hide Inv, Entry, Kept, Estimate;
    forall i | |t.closed| <= i < |t'.closed| ensures t'.closed[i].end == est + i - |t.closed| {
      assert t'.closed[i] == FakeExits(t.rs, k, est)[i - |t.closed|];
    }
    if k == |t.rs| {
      assert |t'.closed| == |t.closed|;
    } else {
      assert t'.closed[|t'.closed| - 1].end == est + |t.rs| - k - 1;
    }
  }

  // ----- runs of the traced program -----

  /** An active call: its slot and, once traced, the start time of its latest frame. */
  datatype Active = Active(loc: Addr, traced: bool, start: nat)

  datatype Step = Call(loc: Addr) | Traced(e: Enter) | Return

  datatype Machine = Machine(t: Thread, clock: nat, calls: seq<Active>)
  const START := Machine(Thread([], 0, []), 0, [])

  /** The stack grows down, the clock does not go back, and a traced entry is the deepest call. */
  predicate Possible(cfg: Config, m: Machine, s: Step) {
    match s
    case Call(loc) => loc != cfg.dummy && (m.calls != [] ==> loc < m.calls[|m.calls| - 1].loc)
    case Traced(e) => m.calls != [] && e.loc == m.calls[|m.calls| - 1].loc && m.clock <= e.now <= e.start
    case Return => m.calls != []
  }

  function Next(cfg: Config, m: Machine, s: Step): Machine
    requires Possible(cfg, m, s)
  {
    match s
    case Call(loc) => m.(calls := m.calls + [Active(loc, false, 0)])
    case Traced(e) =>
      var n := |m.calls| - 1;
      Machine(Entry(cfg, m.t, e), e.start,
              if e.accepted && |m.t.rs| < cfg.maxStack then m.calls[n := Active(e.loc, true, e.start)] else m.calls)
    case Return => m.(calls := m.calls[..|m.calls| - 1])
  }

  function Run(cfg: Config, steps: seq<Step>): Machine {
    if steps == [] then START
    else
      var m := Run(cfg, steps[..|steps| - 1]);
      if Possible(cfg, m, steps[|steps| - 1]) then Next(cfg, m, steps[|steps| - 1]) else m
  }

  ghost predicate OnStack(rs: seq<Frame>, c: Active) {
    exists i :: 0 <= i < |rs| && rs[i].loc == c.loc && rs[i].start == c.start
  }

  ghost predicate CallsOk(cfg: Config, calls: seq<Active>) {
    && (forall i, j :: 0 <= i < j < |calls| ==> calls[j].loc < calls[i].loc)
    && (forall i :: 0 <= i < |calls| ==> calls[i].loc != cfg.dummy)
  }

  /** Every traced active call has its frame on the stack. */
  ghost predicate ActiveKept(m: Machine) {
    forall i :: 0 <= i < |m.calls| && m.calls[i].traced ==> OnStack(m.t.rs, m.calls[i])
  }

  lemma NextKeeps(cfg: Config, m: Machine, s: Step)
    requires Inv(cfg, m.t, m.clock) && CallsOk(cfg, m.calls) && Possible(cfg, m, s)
    ensures Inv(cfg, Next(cfg, m, s).t, Next(cfg, m, s).clock) && CallsOk(cfg, Next(cfg, m, s).calls)
  {
    if s.Traced? {
      EntryKeeps(cfg, m.t, m.clock, s.e);
    }
  }

  /** MAIN RESULT (stack discipline). After any run with a monotone clock the slots on the stack
      descend strictly, and each frame's depth is its index. */
  lemma {:induction false} AlwaysDisciplined(cfg: Config, steps: seq<Step>)
    ensures var m := Run(cfg, steps); Inv(cfg, m.t, m.clock) && CallsOk(cfg, m.calls)
  {
    if steps != [] {
      var front := steps[..|steps| - 1];
      AlwaysDisciplined(cfg, front);
      if Possible(cfg, Run(cfg, front), steps[|steps| - 1]) {
        NextKeeps(cfg, Run(cfg, front), steps[|steps| - 1]);
      }
    }
  }

  /** The frame of some call that is still active. */
  ghost predicate IsActive(calls: seq<Active>, f: Frame) {
    exists i :: 0 <= i < |calls| && calls[i].traced && calls[i].loc == f.loc && calls[i].start == f.start
  }

  lemma Discipline(cfg: Config, m: Machine)
    requires Inv(cfg, m.t, m.clock)
    ensures Descending(m.t.rs)
  {
  }

  /** Dropping the frame of an active call loses it: no other frame has its slot. */
  lemma ClosesActive(m: Machine, m': Machine, rs: seq<Frame>, f: Frame, n: nat)
    requires m.t.rs == rs != [] && Descending(rs) && IsActive(m.calls, rs[|rs| - 1]) && n < |m.calls|
    requires m'.t.rs == rs[..|rs| - 1] + [f] && m'.calls == m.calls[n := Active(f.loc, true, f.start)]
    requires f.loc < rs[|rs| - 1].loc && m.calls[n].loc == f.loc
    ensures !ActiveKept(m')
  {
    var top := rs[|rs| - 1];
    var i :| 0 <= i < |m.calls| && m.calls[i].traced && m.calls[i].loc == top.loc && m.calls[i].start == top.start;
    assert m'.calls[i] == m.calls[i];
    assert !OnStack(m'.t.rs, m'.calls[i]);
  }

  /** Otherwise the frames that go are below no active call. */
  lemma KeepsActive(cfg: Config, m: Machine, m': Machine, e: Enter, f: Frame, k: nat)
    requires ActiveKept(m) && m.calls != [] && k <= |m.t.rs|
    requires var n := |m.calls| - 1;
             && m'.calls == m.calls[n := Active(e.loc, true, e.start)]
             && forall i :: 0 <= i < n ==> m.calls[i].loc > e.loc
    requires m'.t.rs == m.t.rs[..k] + [f] && f.loc == e.loc && f.start == e.start
    requires forall j :: k <= j < |m.t.rs| ==> m.t.rs[j].loc <= e.loc || !IsActive(m.calls, m.t.rs[j])
    ensures ActiveKept(m')
  {
    var n, rs := |m.calls| - 1, m.t.rs;
    assert m'.t.rs[k] == f;
    assert OnStack(m'.t.rs, m'.calls[n]);
    forall i | 0 <= i < n && m'.calls[i].traced ensures OnStack(m'.t.rs, m'.calls[i]) {
      assert OnStack(rs, m.calls[i]);
      var j :| 0 <= j < |rs| && rs[j].loc == m.calls[i].loc && rs[j].start == m.calls[i].start;
      assert IsActive(m.calls, rs[j]);
      assert m'.t.rs[j] == rs[j];
    }
  }

  /** MAIN RESULT (what is closed too early). An accepted entry keeps the frames of all active
      calls iff it does not take the PLT sibling branch on a frame that is still active. */
  lemma EntryKeepsActiveIff(cfg: Config, m: Machine, e: Enter)
    requires Inv(cfg, m.t, m.clock) && CallsOk(cfg, m.calls) && ActiveKept(m) && Possible(cfg, m, Traced(e))
    requires e.accepted && |m.t.rs| < cfg.maxStack
    ensures ActiveKept(Next(cfg, m, Traced(e))) <==>
            !(Sibling(cfg, m.t.rs, e.loc, e.child) && IsActive(m.calls, m.t.rs[|m.t.rs| - 1]))
  {
    var m', n := Next(cfg, m, Traced(e)), |m.calls| - 1;
    var rs, k := m.t.rs, Kept(cfg, m.t.rs, e);
    EntryIs(cfg, m.t, m.clock, e);
    AboveSplits(rs, e.loc);
    assert k == if Sibling(cfg, rs, e.loc, e.child) then |rs| - 1 else Above(rs, e.loc);
    assert m'.calls == m.calls[n := Active(e.loc, true, e.start)];
    var top := Frame(e.loc, e.child, k, e.start, 0, e.plt, e.norecord);
    assert m'.t.rs == rs[..k] + [top];
    assert forall i :: 0 <= i < n ==> m.calls[i].loc > e.loc;
    Discipline(cfg, m);
    hide Next, Inv, Sibling, Kept, CallsOk, Entry, Possible;
    if Sibling(cfg, rs, e.loc, e.child) && IsActive(m.calls, rs[|rs| - 1]) {
      ClosesActive(m, m', rs, top, n);
    } else {
      KeepsActive(cfg, m, m', e, top, k);
    }
  }

  predicate NoPlt(steps: seq<Step>) {
    forall i :: 0 <= i < |steps| && steps[i].Traced? ==> !steps[i].e.plt
  }

  lemma ActiveKeptCall(cfg: Config, m: Machine, loc: Addr)
    requires ActiveKept(m) && Possible(cfg, m, Call(loc))
    ensures ActiveKept(Next(cfg, m, Call(loc)))
  {
    forall i | 0 <= i < |m.calls| && m.calls[i].traced ensures OnStack(m.t.rs, m.calls[i]) {}
  }

  lemma ActiveKeptReturn(cfg: Config, m: Machine)
    requires ActiveKept(m) && Possible(cfg, m, Return)
    ensures ActiveKept(Next(cfg, m, Return))
  {
    forall i | 0 <= i < |m.calls| - 1 && m.calls[i].traced ensures OnStack(m.t.rs, m.calls[i]) {}
  }

  /** MAIN RESULT (no call is closed while it runs). After any run without PLT functions, every
      traced call that is still active has its frame on the estimated stack. */
  lemma {:induction false} ActiveNeverClosed(cfg: Config, steps: seq<Step>)
    requires NoPlt(steps)
    ensures ActiveKept(Run(cfg, steps))
    ensures forall i :: 0 <= i < |Run(cfg, steps).t.rs| ==> !Run(cfg, steps).t.rs[i].plt
  {
    if steps != [] {
      var front, s := steps[..|steps| - 1], steps[|steps| - 1];
      var m := Run(cfg, front);
      ActiveNeverClosed(cfg, front);
      AlwaysDisciplined(cfg, front);
      if Possible(cfg, m, s) {
        match s
        case Traced(e) =>
          if e.accepted && |m.t.rs| < cfg.maxStack {
            EntryKeepsActiveIff(cfg, m, e);
            EntryIs(cfg, m.t, m.clock, e);
          }
        case Call(loc) => ActiveKeptCall(cfg, m, loc);
        case Return => ActiveKeptReturn(cfg, m);
      }
    }
  }

  /** MAIN RESULT (a full stack stays full). Once the stack holds maxStack frames the refusal comes
      before any frame could be given its fake exit: whatever returns or is entered afterwards,
      nothing on the thread changes any more. */
  lemma {:induction false} FullForEver(cfg: Config, steps: seq<Step>, more: seq<Step>)
    requires |Run(cfg, steps).t.rs| >= cfg.maxStack
    ensures Run(cfg, steps + more).t == Run(cfg, steps).t
    decreases |more|
  {
    if more == [] {
      assert steps + more == steps;
    } else {
      var front := more[..|more| - 1];
      FullForEver(cfg, steps, front);
      assert (steps + more)[..|steps + more| - 1] == steps + front;
    }
  }

  /** One more step of a run. */
  lemma RunStep(cfg: Config, steps: seq<Step>, s: Step)
    requires Possible(cfg, Run(cfg, steps), s)
    ensures Run(cfg, steps + [s]) == Next(cfg, Run(cfg, steps), s)
  {
    assert (steps + [s])[..|steps|] == steps;
  }

  /** An entry of a plain function that is accepted. */
  function Plain(loc: Addr, child: Addr, time: nat): Step {
    Traced(Enter(loc, child, false, true, false, time, time))
  }

  const NESTED: seq<Step> := [Call(80), Plain(80, 1, 5)] + [Call(60), Plain(60, 2, 5)] + [Return, Return]

  lemma OuterRun(cfg: Config)
    requires cfg == Config(0, 8, map[])
    ensures Run(cfg, [Call(80), Plain(80, 1, 5)]) ==
            Machine(Thread([Frame(80, 1, 0, 5, 0, false, false)], 1, []), 5, [Active(80, true, 5)])
  {
    assert Run(cfg, []) == START;
    hide Run;
    assert [Call(80)] + [Plain(80, 1, 5)] == [Call(80), Plain(80, 1, 5)] && [] + [Call(80)] == [Call(80)];
    RunStep(cfg, [], Call(80));
    RunStep(cfg, [Call(80)], Plain(80, 1, 5));
  }

  lemma InnerRun(cfg: Config)
    requires cfg == Config(0, 8, map[])
    ensures Run(cfg, [Call(80), Plain(80, 1, 5)] + [Call(60), Plain(60, 2, 5)]) ==
            Machine(Thread([Frame(80, 1, 0, 5, 0, false, false), Frame(60, 2, 1, 5, 0, false, false)], 2, []), 5,
                    [Active(80, true, 5), Active(60, true, 5)])
  {
    hide Run;
    var s := [Call(80), Plain(80, 1, 5)];
    OuterRun(cfg);
    RunStep(cfg, s, Call(60));
    RunStep(cfg, s + [Call(60)], Plain(60, 2, 5));
    assert (s + [Call(60)]) + [Plain(60, 2, 5)] == s + [Call(60), Plain(60, 2, 5)];
  }

  /** Two nested calls in one tick of the clock leave two frames when they have returned. */
  lemma NestedRun(cfg: Config)
    requires cfg == Config(0, 8, map[])
    ensures Run(cfg, NESTED) == Machine(Thread([Frame(80, 1, 0, 5, 0, false, false),
                                                Frame(60, 2, 1, 5, 0, false, false)], 2, []), 5, [])
  {
    hide Run;
    var s := [Call(80), Plain(80, 1, 5)] + [Call(60), Plain(60, 2, 5)];
    InnerRun(cfg);
    RunStep(cfg, s, Return);
    RunStep(cfg, s + [Return], Return);
    assert (s + [Return]) + [Return] == NESTED;
  }

  /** Entered within the same tick, the next function gives them fake exits of which the second
      is later than its own start. */
  lemma LateFakeExit()
    ensures var cfg := Config(0, 8, map[]);
            var m := Run(cfg, NESTED + [Call(80)] + [Plain(80, 3, 5)]);
            && m.t.rs == [Frame(80, 3, 0, 5, 0, false, false)]
            && m.t.closed == [Frame(60, 2, 1, 5, 5, false, false), Frame(80, 1, 0, 5, 6, false, false)]
  {
    var cfg := Config(0, 8, map[]);
    NestedRun(cfg);
    hide Run;
    RunStep(cfg, NESTED, Call(80));
    RunStep(cfg, NESTED + [Call(80)], Plain(80, 3, 5));
    EntryIs(cfg, Run(cfg, NESTED + [Call(80)]).t, 5, Plain(80, 3, 5).e);
  }

  lemma PltRun(cfg: Config, s0: Step, s1: Step)
    requires cfg == Config(0, 8, map[1 := 0, 2 := 0])
    requires s0 == Call(80) && s1 == Traced(Enter(80, 1, true, true, false, 1, 1))
    ensures Run(cfg, [s0, s1]) ==
            Machine(Thread([Frame(80, 1, 0, 1, 0, true, false)], 1, []), 1, [Active(80, true, 1)])
  {
    assert Run(cfg, []) == START;
    hide Run;
    assert [] + [s0] == [s0] && [s0] + [s1] == [s0, s1];
    RunStep(cfg, [], s0);
    RunStep(cfg, [s0], s1);
  }

  lemma CallbackRun(cfg: Config, steps: seq<Step>, s2: Step, s3: Step)
    requires cfg == Config(0, 8, map[1 := 0, 2 := 0])
    requires s2 == Call(40) && s3 == Traced(Enter(40, 2, false, true, false, 2, 2))
    requires Run(cfg, steps) == Machine(Thread([Frame(80, 1, 0, 1, 0, true, false)], 1, []), 1, [Active(80, true, 1)])
    ensures var m := Run(cfg, steps + [s2] + [s3]);
            m.t.rs == [Frame(40, 2, 0, 2, 0, false, false)] && |m.calls| == 2 && m.calls[0] == Active(80, true, 1)
  {
    hide Run;
    RunStep(cfg, steps, s2);
    RunStep(cfg, steps + [s2], s3);
  }

  /** A PLT function that calls back into the module it was called from is closed although it is
      still running. */
  lemma CallbackClosesPlt()
    ensures var cfg := Config(0, 8, map[1 := 0, 2 := 0]);
            var steps := [Call(80), Traced(Enter(80, 1, true, true, false, 1, 1)),
                          Call(40), Traced(Enter(40, 2, false, true, false, 2, 2))];
            && |Run(cfg, steps).calls| > 0
            && Run(cfg, steps).calls[0].traced && !OnStack(Run(cfg, steps).t.rs, Run(cfg, steps).calls[0])
  {
    hide Run;
    var cfg := Config(0, 8, map[1 := 0, 2 := 0]);
    var s0, s1, s2, s3 := Call(80), Traced(Enter(80, 1, true, true, false, 1, 1)),
                          Call(40), Traced(Enter(40, 2, false, true, false, 2, 2));
    PltRun(cfg, s0, s1);
    CallbackRun(cfg, [s0, s1], s2, s3);
    assert [s0, s1] + [s2] + [s3] == [s0, s1, s2, s3];
  }
}
