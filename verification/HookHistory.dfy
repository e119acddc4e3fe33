/** Which frames are on the shadow stack, told from the calls of the traced program alone: one
    per accepted entry that found room, and none for any other entry. Neither the entry hook nor
    the exit hook is mentioned in how the expected stack is computed. */
module HookHistory {
  import opened ReturnHooks
  import opened ReturnHooksProofs

  /** An active call and how many accepted entries under it found room. */
  datatype Past = Past(call: Active, entries: nat)

  function CallsIn(h: seq<Past>): (calls: seq<Active>)
    ensures |calls| == |h|
    ensures forall i :: 0 <= i < |h| ==> calls[i] == h[i].call
  {
    if h == [] then [] else CallsIn(h[..|h| - 1]) + [h[|h| - 1].call]
  }

  function Entries(h: seq<Past>): nat {
    if h == [] then 0 else Entries(h[..|h| - 1]) + h[|h| - 1].entries
  }

  /** A call the program can make: its slot is below the caller's. */
  predicate Fits(cfg: Config, h: seq<Past>, loc: Addr, ret: Addr) {
    ret != cfg.hook && (h == [] || loc < h[|h| - 1].call.loc)
  }

  /** A step the program cannot make is skipped. */
  function Extend(cfg: Config, h: seq<Past>, s: Step): seq<Past> {
    var n := |h| - 1;
    match s
    case Call(loc, ret) => if Fits(cfg, h, loc, ret) then h + [Past(Active(loc, ret), 0)] else h
    case Traced(accepted) =>
      if h != [] && accepted && Entries(h) < cfg.maxStack then h[n := h[n].(entries := h[n].entries + 1)] else h
    case Store(_, _) => h
    case Return => if h == [] then h else h[..n]
  }

  /** The active calls and their accepted entries after a run, from the run itself. */
  function History(cfg: Config, steps: seq<Step>): seq<Past> {
    if steps == [] then [] else Extend(cfg, History(cfg, steps[..|steps| - 1]), steps[|steps| - 1])
  }

  /** The frames of one call: the first entry found the call's return address, a later one (a
      tail call) the hook. */
  function Frames(cfg: Config, c: Active, entries: nat): (fs: seq<Hook>)
    ensures |fs| == entries
    ensures forall i :: 0 <= i < entries ==> fs[i] == Hook(c.loc, if i == 0 then c.ret else cfg.hook)
  {
    if entries == 0 then []
    else Frames(cfg, c, entries - 1) + [Hook(c.loc, if entries == 1 then c.ret else cfg.hook)]
  }

  function Stack(cfg: Config, h: seq<Past>): (rs: seq<Hook>)
    ensures |rs| == Entries(h)
  {
    if h == [] then [] else Stack(cfg, h[..|h| - 1]) + Frames(cfg, h[|h| - 1].call, h[|h| - 1].entries)
  }

  /** The machine agrees with the history. */
  predicate Follows(cfg: Config, m: Machine, h: seq<Past>) {
    m.calls == CallsIn(h) && m.rs == Stack(cfg, h)
  }

  lemma CallsSnoc(h: seq<Past>, p: Past)
    ensures CallsIn(h + [p]) == CallsIn(h) + [p.call]
  {
    assert (h + [p])[..|h|] == h;
  }

  lemma StackSnoc(cfg: Config, h: seq<Past>, p: Past)
    ensures Stack(cfg, h + [p]) == Stack(cfg, h) + Frames(cfg, p.call, p.entries)
  {
    assert (h + [p])[..|h|] == h;
  }

  /** Exactly the frames of a call are at the top in its slot, when the one below is not. */
  lemma TopFrames(rs: seq<Hook>, k: nat, loc: Addr)
    requires k <= |rs| && forall j :: |rs| - k <= j < |rs| ==> rs[j].loc == loc
    requires k < |rs| ==> rs[|rs| - k - 1].loc != loc
    ensures ChainLength(rs, loc) == k
  {
  }

  lemma {:induction false} StackSlots(cfg: Config, h: seq<Past>, j: nat)
    requires j < Entries(h)
    ensures exists i :: 0 <= i < |h| && h[i].entries > 0 && Stack(cfg, h)[j].loc == h[i].call.loc
    decreases |h|
  {
    var n := |h| - 1;
    if j < Entries(h[..n]) {
      StackSlots(cfg, h[..n], j);
      var i :| 0 <= i < n && h[..n][i].entries > 0 && Stack(cfg, h[..n])[j].loc == h[..n][i].call.loc;
      assert h[i].call.loc == Stack(cfg, h)[j].loc;
    } else {
      assert h[n].entries > 0 && Stack(cfg, h)[j].loc == h[n].call.loc;
    }
  }

  /** The chain of the deepest call has one frame per counted entry. */
  lemma TopCount(cfg: Config, m: Machine, h: seq<Past>)
    requires Descending(m.calls) && Follows(cfg, m, h) && h != []
    ensures ChainLength(m.rs, m.calls[|m.calls| - 1].loc) == h[|h| - 1].entries
  {
    var n := |h| - 1;
    var below := Stack(cfg, h[..n]);
    if below != [] {
      var j := |below| - 1;
      StackSlots(cfg, h[..n], j);
      var i :| 0 <= i < n && h[..n][i].entries > 0 && below[j].loc == h[..n][i].call.loc;
      assert m.calls[n].loc < m.calls[i].loc;
      assert m.rs[j] == below[j];
    }
    TopFrames(m.rs, h[n].entries, h[n].call.loc);
  }

  /** One more entry under the deepest call is one more frame on top. */
  lemma OneMore(cfg: Config, h: seq<Past>)
    requires h != []
    ensures var n, c := |h| - 1, h[|h| - 1].call;
            var h' := h[n := h[n].(entries := h[n].entries + 1)];
            && CallsIn(h') == CallsIn(h)
            && Stack(cfg, h') == Stack(cfg, h) + [Hook(c.loc, if h[n].entries == 0 then c.ret else cfg.hook)]
  {
    var n := |h| - 1;
    var p := h[n].(entries := h[n].entries + 1);
    assert h[n := p] == h[..n] + [p];
    assert h == h[..n] + [h[n]];
    StackSnoc(cfg, h[..n], p);
    StackSnoc(cfg, h[..n], h[n]);
    CallsSnoc(h[..n], p);
    CallsSnoc(h[..n], h[n]);
  }

  /** What one traced entry does in a machine where every slot holds what it should: a rejected
      one, or one that finds the stack full, changes nothing; any other one leaves the hook in
      its slot and keeps what it found there on top of the stack. */
  lemma EntryEffect(cfg: Config, m: Machine, accepted: bool)
    requires Inv(cfg, m) && m.calls != []
    ensures var c, m' := m.calls[|m.calls| - 1], Next(cfg, m, Traced(accepted));
            if accepted && |m.rs| < cfg.maxStack
            then && Load(m'.mem, c.loc) == cfg.hook
                 && m'.rs == m.rs + [Hook(c.loc, if InRs(m.rs, c.loc) then cfg.hook else c.ret)]
                 && m'.calls == m.calls
            else m' == m
  {
    TracedKeeps(cfg, m, accepted);
    SlotAtEntry(cfg, m);
    hide Chains, AutoRestore;
    var n, c, m' := |m.calls| - 1, m.calls[|m.calls| - 1], Next(cfg, m, Traced(accepted));
    assert Load(m.mem, c.loc) == Expected(cfg, m.rs, c);
    if accepted && |m.rs| < cfg.maxStack {
      assert Load(m'.mem, m'.calls[n].loc) == Expected(cfg, m'.rs, m'.calls[n]);
      assert m'.rs[|m.rs|].loc == c.loc;
    }
  }

  // ----- one step at a time -----

  lemma CallFollows(cfg: Config, m: Machine, h: seq<Past>, loc: Addr, ret: Addr)
    requires Follows(cfg, m, h) && Possible(cfg, m, Call(loc, ret))
    ensures Follows(cfg, Next(cfg, m, Call(loc, ret)), h + [Past(Active(loc, ret), 0)])
  {
    CallsSnoc(h, Past(Active(loc, ret), 0));
    StackSnoc(cfg, h, Past(Active(loc, ret), 0));
    assert Stack(cfg, h) + [] == Stack(cfg, h);
  }

  lemma EntryFollows(cfg: Config, m: Machine, h: seq<Past>)
    requires Inv(cfg, m) && Follows(cfg, m, h) && h != [] && Entries(h) < cfg.maxStack
    ensures Follows(cfg, Next(cfg, m, Traced(true)), h[|h| - 1 := h[|h| - 1].(entries := h[|h| - 1].entries + 1)])
  {
    var c := m.calls[|m.calls| - 1];
    EntryEffect(cfg, m, true);
    TopCount(cfg, m, h);
    SlotAtEntry(cfg, m);
    OneMore(cfg, h);
    hide Inv, Next, Stack, CallsIn, ChainLength;
    var k := ChainLength(m.rs, c.loc);
    if k > 0 {
      assert m.rs[|m.rs| - 1].loc == c.loc;
    }
  }

  lemma ReturnFollows(cfg: Config, m: Machine, h: seq<Past>)
    requires Inv(cfg, m) && Follows(cfg, m, h) && h != []
    ensures Possible(cfg, m, Return) && Follows(cfg, Next(cfg, m, Return), h[..|h| - 1])
  {
    var n := |h| - 1;
    ReturnParts(cfg, m);
    TopCount(cfg, m, h);
    assert Stack(cfg, h) == Stack(cfg, h[..n]) + Frames(cfg, h[n].call, h[n].entries);
  }

  lemma NextFollows(cfg: Config, m: Machine, h: seq<Past>, s: Step)
    requires Inv(cfg, m) && Follows(cfg, m, h)
    ensures Possible(cfg, m, s) ==> Follows(cfg, Next(cfg, m, s), Extend(cfg, h, s))
    ensures !Possible(cfg, m, s) ==> Extend(cfg, h, s) == h
  {
    hide Inv, Stack, CallsIn;
    match s
    case Call(loc, ret) => if Possible(cfg, m, s) { CallFollows(cfg, m, h, loc, ret); }
    case Traced(accepted) => if h != [] && accepted && Entries(h) < cfg.maxStack { EntryFollows(cfg, m, h); }
    case Store(a, v) =>
    case Return => if h != [] { ReturnFollows(cfg, m, h); }
  }

  /** MAIN RESULT (the shadow stack is the history). After any run the active calls are those
      the program made and has not returned from, and the shadow stack holds exactly one frame
      per accepted entry that found room, in order. */
  lemma {:induction false} StackIsHistory(cfg: Config, steps: seq<Step>)
    ensures Follows(cfg, Run(cfg, steps), History(cfg, steps))
  {
    if steps != [] {
      var front := steps[..|steps| - 1];
      StackIsHistory(cfg, front);
      RunKeeps(cfg, front);
      NextFollows(cfg, Run(cfg, front), History(cfg, front), steps[|steps| - 1]);
    }
  }

  // ----- every moment of a run -----

  lemma {:induction false} Present(cfg: Config, h: seq<Past>, i: nat)
    requires i < |h| && h[i].entries > 0
    ensures InRs(Stack(cfg, h), h[i].call.loc)
    decreases |h|
  {
    var n := |h| - 1;
    if i < n {
      Present(cfg, h[..n], i);
      var j :| 0 <= j < Entries(h[..n]) && Stack(cfg, h[..n])[j].loc == h[i].call.loc;
      assert Stack(cfg, h)[j].loc == h[i].call.loc;
    } else {
      assert Stack(cfg, h)[Entries(h[..n])].loc == h[n].call.loc;
    }
  }

  /** The frame on top belongs to the deepest call that has one. */
  lemma {:induction false} LastFrame(cfg: Config, h: seq<Past>) returns (t: nat)
    requires Stack(cfg, h) != []
    ensures t < |h| && h[t].entries > 0 && forall j :: t < j < |h| ==> h[j].entries == 0
    ensures Stack(cfg, h)[|Stack(cfg, h)| - 1].loc == h[t].call.loc
  {
    var n := |h| - 1;
    if h[n].entries > 0 {
      t := n;
    } else {
      assert Stack(cfg, h) == Stack(cfg, h[..n]);
      t := LastFrame(cfg, h[..n]);
    }
  }

  lemma HasFrame(cfg: Config, m: Machine, h: seq<Past>, i: nat)
    requires Descending(m.calls) && Follows(cfg, m, h) && i < |h|
    ensures InRs(m.rs, h[i].call.loc) <==> h[i].entries > 0
  {
    Apart(m.calls);
    if h[i].entries > 0 {
      Present(cfg, h, i);
    }
    if j :| 0 <= j < |m.rs| && m.rs[j].loc == m.calls[i].loc {
      StackSlots(cfg, h, j);
      var x :| 0 <= x < |h| && h[x].entries > 0 && m.rs[j].loc == h[x].call.loc;
      assert m.calls[x].loc == m.calls[i].loc;
      assert x == i;
    }
  }

  lemma TopFrame(cfg: Config, m: Machine, h: seq<Past>, i: nat)
    requires Descending(m.calls) && Follows(cfg, m, h) && i < |h|
    ensures m.rs != [] && m.rs[|m.rs| - 1].loc == h[i].call.loc <==>
            h[i].entries > 0 && forall j :: i < j < |h| ==> h[j].entries == 0
  {
    HasFrame(cfg, m, h, i);
    Apart(m.calls);
    if m.rs != [] {
      var t := LastFrame(cfg, h);
      assert m.calls[t].loc == m.rs[|m.rs| - 1].loc;
    }
  }

  /** MAIN RESULT (accepted calls are hooked). After any run a slot holds the hook iff its call
      has an accepted entry that found room (with auto-recover: and no call deeper than it has),
      and otherwise the call's return address. */
  lemma HookedIff(cfg: Config, steps: seq<Step>, i: nat)
    ensures var h := History(cfg, steps);
            i < |h| ==>
              Load(Run(cfg, steps).mem, h[i].call.loc) ==
              if h[i].entries > 0 && (cfg.autoRecover ==> forall j :: i < j < |h| ==> h[j].entries == 0)
              then cfg.hook else h[i].call.ret
  {
    var m, h := Run(cfg, steps), History(cfg, steps);
    RunKeeps(cfg, steps);
    StackIsHistory(cfg, steps);
    if i < |h| {
      assert Load(m.mem, m.calls[i].loc) == Expected(cfg, m.rs, m.calls[i]);
      HasFrame(cfg, m, h, i);
      TopFrame(cfg, m, h, i);
    }
  }

  /** MAIN RESULT (a rejected call is left alone). At any moment an accepted entry that finds
      room leaves the hook in the deepest call's slot and one frame on top that keeps what the
      slot held; any other entry leaves memory and stack as they were. */
  lemma EntryDoes(cfg: Config, steps: seq<Step>, accepted: bool)
    ensures var m, h := Run(cfg, steps), History(cfg, steps);
            var m' := Run(cfg, steps + [Traced(accepted)]);
            if h != [] && accepted && Entries(h) < cfg.maxStack
            then var loc := h[|h| - 1].call.loc;
                 && Load(m'.mem, loc) == cfg.hook
                 && m'.rs == m.rs + [Hook(loc, Load(m.mem, loc))]
            else m' == m
  {
    var m := Run(cfg, steps);
    RunKeeps(cfg, steps);
    StackIsHistory(cfg, steps);
    assert (steps + [Traced(accepted)])[..|steps|] == steps;
    if m.calls != [] {
      EntryEffect(cfg, m, accepted);
      SlotAtEntry(cfg, m);
    }
  }

  /** The last value the program itself stored at an address. */
  function Stored(steps: seq<Step>, a: Addr): Addr {
    if steps == [] then 0
    else
      match steps[|steps| - 1]
      case Store(b, v) => if b == a then v else Stored(steps[..|steps| - 1], a)
      case _ => Stored(steps[..|steps| - 1], a)
  }

  /** An address that is no call's return slot. */
  predicate NoSlot(steps: seq<Step>, a: Addr) {
    forall i :: 0 <= i < |steps| && steps[i].Call? ==> steps[i].loc != a
  }

  lemma EntryElsewhere(cfg: Config, m: Machine, accepted: bool, a: Addr)
    requires Inv(cfg, m) && m.calls != [] && !LiveSlot(m.calls, a)
    ensures Load(Next(cfg, m, Traced(accepted)).mem, a) == Load(m.mem, a)
  {
    var i := EntryMemory(cfg, m);
    hide Inv, Entry;
    assert m.calls[|m.calls| - 1].loc != a;
  }

  lemma ReturnElsewhere(cfg: Config, m: Machine, a: Addr)
    requires Inv(cfg, m) && m.calls != [] && !LiveSlot(m.calls, a)
    ensures Load(Next(cfg, m, Return).mem, a) == Load(m.mem, a)
    ensures !LiveSlot(Next(cfg, m, Return).calls, a)
  {
    ReturnParts(cfg, m);
    var k := ChainLength(m.rs, m.calls[|m.calls| - 1].loc);
    if k < |m.rs| {
      FramesHaveCalls(cfg, m.rs, m.calls, |m.rs| - k - 1);
    }
    hide Inv, Landing;
  }

  lemma NextElsewhere(cfg: Config, m: Machine, s: Step, a: Addr)
    requires Inv(cfg, m) && Possible(cfg, m, s) && !LiveSlot(m.calls, a) && (s.Call? ==> s.loc != a)
    ensures Load(Next(cfg, m, s).mem, a) == if s.Store? && s.a == a then s.v else Load(m.mem, a)
    ensures !LiveSlot(Next(cfg, m, s).calls, a)
  {
    match s
    case Call(loc, ret) => hide Inv;
    case Traced(accepted) =>
      EntryElsewhere(cfg, m, accepted, a);
      hide Inv, McountEntry;
    case Store(b, v) => hide Inv;
    case Return => ReturnElsewhere(cfg, m, a);
  }

  /** MAIN RESULT (nothing else is touched). After any run an address that never was a return
      slot holds what the program last stored there. */
  lemma {:induction false} RestUntouched(cfg: Config, steps: seq<Step>, a: Addr)
    requires NoSlot(steps, a)
    ensures Load(Run(cfg, steps).mem, a) == Stored(steps, a) && !LiveSlot(Run(cfg, steps).calls, a)
  {
    if steps != [] {
      var front, m := steps[..|steps| - 1], Run(cfg, steps[..|steps| - 1]);
      assert NoSlot(front, a);
      RestUntouched(cfg, front, a);
      RunKeeps(cfg, front);
      if Possible(cfg, m, steps[|steps| - 1]) {
        NextElsewhere(cfg, m, steps[|steps| - 1], a);
      }
    }
  }
}
