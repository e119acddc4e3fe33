/** Return-address transparency: whatever the program does, every return lands where the
    program meant it to, and the hook is where it should be and nowhere else. */
module ReturnHooksProofs {
  import opened ReturnHooks

  // ----- the chains on the shadow stack -----

  lemma {:induction false} FramesHaveCalls(cfg: Config, rs: seq<Hook>, calls: seq<Active>, j: nat)
    requires Chains(cfg, rs, calls) && j < |rs|
    ensures LiveSlot(calls, rs[j].loc)
    decreases |calls|
  {
    var n := |calls| - 1;
    var k := ChainLength(rs, calls[n].loc);
    if j < |rs| - k {
      var below, rest := rs[..|rs| - k], calls[..n];
      FramesHaveCalls(cfg, below, rest, j);
      hide Chains, Chain, ChainLength;
      var i :| 0 <= i < n && rest[i].loc == below[j].loc;
      assert calls[i].loc == rs[j].loc;
    } else {
      assert calls[n].loc == rs[j].loc;
    }
  }

  /** Below the chain of the deepest call no frame sits in that call's slot. */
  lemma BelowIsOther(cfg: Config, rs: seq<Hook>, calls: seq<Active>, j: nat)
    requires Chains(cfg, rs, calls) && Descending(calls) && calls != []
    requires j < |rs| - ChainLength(rs, calls[|calls| - 1].loc)
    ensures rs[j].loc > calls[|calls| - 1].loc
  {
    var n := |calls| - 1;
    var k := ChainLength(rs, calls[n].loc);
    FramesHaveCalls(cfg, rs[..|rs| - k], calls[..n], j);
    var i :| 0 <= i < n && calls[..n][i].loc == rs[j].loc;
    assert calls[n].loc < calls[i].loc;
  }

  /** The topmost chain starts with the frame auto-restore looks for. */
  lemma {:induction false} TopChain(cfg: Config, rs: seq<Hook>, calls: seq<Active>) returns (i: nat)
    requires Chains(cfg, rs, calls) && rs != []
    ensures i < |calls| && calls[i].loc == rs[|rs| - 1].loc
    ensures RestoreTarget(cfg, rs) >= 0
    ensures rs[RestoreTarget(cfg, rs)] == Hook(calls[i].loc, calls[i].ret)
    decreases |calls|
  {
    var n := |calls| - 1;
    var k := ChainLength(rs, calls[n].loc);
    if k == 0 {
      assert rs[..|rs|] == rs;
      i := TopChain(cfg, rs, calls[..n]);
    } else {
      i := n;
      assert rs[|rs| - k].ip == calls[n].ret != cfg.hook;
    }
  }

  lemma {:induction false} ChainLengthSnoc(rs: seq<Hook>, h: Hook)
    ensures ChainLength(rs + [h], h.loc) == 1 + ChainLength(rs, h.loc)
  {
    assert (rs + [h])[..|rs|] == rs;
  }

  // ----- one step at a time -----

  lemma CallKeeps(cfg: Config, m: Machine, loc: Addr, ret: Addr)
    requires Inv(cfg, m) && Possible(cfg, m, Call(loc, ret))
    ensures Inv(cfg, Next(cfg, m, Call(loc, ret)))
  {
    var m' := Next(cfg, m, Call(loc, ret));
    assert m'.calls[..|m.calls|] == m.calls;
    forall j | 0 <= j < |m.rs| ensures m.rs[j].loc != loc {
      FramesHaveCalls(cfg, m.rs, m.calls, j);
    }
    assert ChainLength(m.rs, loc) == 0;
    assert m.rs[..|m.rs|] == m.rs;
  }

  lemma StoreKeeps(cfg: Config, m: Machine, a: Addr, v: Addr)
    requires Inv(cfg, m) && Possible(cfg, m, Store(a, v))
    ensures Inv(cfg, Next(cfg, m, Store(a, v)))
  {
  }

  /** Chains for the deepest call and the others. */
  lemma LastChain(cfg: Config, rs: seq<Hook>, calls: seq<Active>)
    requires calls != []
    ensures var c := calls[|calls| - 1];
            var k := ChainLength(rs, c.loc);
            Chains(cfg, rs, calls) <==>
            Chain(cfg, rs, k, c) && c.ret != cfg.hook && Chains(cfg, rs[..|rs| - k], calls[..|calls| - 1])
  {
  }

  lemma ChainSnoc(cfg: Config, rs: seq<Hook>, k: nat, c: Active, ip: Addr)
    requires k <= |rs| && Chain(cfg, rs, k, c) && ip == if k == 0 then c.ret else cfg.hook
    ensures Chain(cfg, rs + [Hook(c.loc, ip)], k + 1, c)
  {
  }

  /** A new frame goes on top of the deepest call's chain. */
  lemma PushChain(cfg: Config, rs: seq<Hook>, calls: seq<Active>, ip: Addr)
    requires Chains(cfg, rs, calls) && calls != []
    requires ChainLength(rs, calls[|calls| - 1].loc) == 0 ==> ip == calls[|calls| - 1].ret
    requires ChainLength(rs, calls[|calls| - 1].loc) > 0 ==> ip == cfg.hook
    ensures Chains(cfg, rs + [Hook(calls[|calls| - 1].loc, ip)], calls)
  {
    hide *;
    var c := calls[|calls| - 1];
    var h := Hook(c.loc, ip);
    ChainLengthSnoc(rs, h);
    LastChain(cfg, rs, calls);
    LastChain(cfg, rs + [h], calls);
    var k := ChainLength(rs, c.loc);
    ChainSnoc(cfg, rs, k, c, ip);
    assert (rs + [h])[..|rs + [h]| - (k + 1)] == rs[..|rs| - k];
  }

  /** What a traced entry finds in the deepest call's slot. */
  lemma SlotAtEntry(cfg: Config, m: Machine)
    requires Inv(cfg, m) && m.calls != []
    ensures var c := m.calls[|m.calls| - 1];
            Load(m.mem, c.loc) == if ChainLength(m.rs, c.loc) == 0 then c.ret else cfg.hook
    ensures var c := m.calls[|m.calls| - 1];
            ChainLength(m.rs, c.loc) == 0 ==> !InRs(m.rs, c.loc)
  {
    hide Chain, Chains;
    var c := m.calls[|m.calls| - 1];
    assert Load(m.mem, c.loc) == Expected(cfg, m.rs, c);
    if ChainLength(m.rs, c.loc) == 0 {
      forall j | 0 <= j < |m.rs| ensures m.rs[j].loc != c.loc {
        BelowIsOther(cfg, m.rs, m.calls, j);
      }
    } else {
      assert m.rs[|m.rs| - 1].loc == c.loc;
    }
  }

  /** Which call, if any, auto-restore repairs at a traced entry, and the memory it leaves. */
  lemma EntryMemory(cfg: Config, m: Machine) returns (i: nat)
    requires Inv(cfg, m) && m.calls != []
    ensures var loc := m.calls[|m.calls| - 1].loc;
            if m.rs == [] || m.rs[|m.rs| - 1].loc == loc || !cfg.autoRecover
            then Entry(cfg, m.mem, m.rs, loc).0 == m.mem[loc := cfg.hook]
            else i < |m.calls| && m.calls[i].loc == m.rs[|m.rs| - 1].loc &&
                 Entry(cfg, m.mem, m.rs, loc).0 == m.mem[loc := cfg.hook][m.calls[i].loc := m.calls[i].ret]
  {
    hide Chains, SlotsRight;
    var loc := m.calls[|m.calls| - 1].loc;
    var rs' := m.rs + [Hook(loc, Load(m.mem, loc))];
    assert rs'[..|rs'| - 1] == m.rs;
    i := 0;
    if m.rs != [] {
      i := TopChain(cfg, m.rs, m.calls);
    }
  }

  lemma Apart(calls: seq<Active>)
    requires Descending(calls)
    ensures forall x, y :: 0 <= x < y < |calls| ==> calls[x].loc != calls[y].loc
  {
  }

  lemma InRsSnoc(rs: seq<Hook>, h: Hook, loc: Addr)
    ensures InRs(rs + [h], loc) <==> InRs(rs, loc) || h.loc == loc
  {
    if j :| 0 <= j < |rs| && rs[j].loc == loc {
      assert (rs + [h])[j].loc == loc;
    }
    assert (rs + [h])[|rs|] == h;
  }

  lemma EntrySlot(cfg: Config, m: Machine, i: nat)
    requires Inv(cfg, m) && i < |m.calls|
    ensures var c := m.calls[|m.calls| - 1];
            Load(Entry(cfg, m.mem, m.rs, c.loc).0, m.calls[i].loc) ==
            Expected(cfg, m.rs + [Hook(c.loc, Load(m.mem, c.loc))], m.calls[i])
  {
    var top := EntryMemory(cfg, m);
    SlotAtEntry(cfg, m);
    Apart(m.calls);
    assert Load(m.mem, m.calls[i].loc) == Expected(cfg, m.rs, m.calls[i]);
    hide Chains, Entry, SlotsRight, Descending, InRs, ChainLength;
    var c := m.calls[|m.calls| - 1];
    InRsSnoc(m.rs, Hook(c.loc, Load(m.mem, c.loc)), m.calls[i].loc);
  }

  lemma TracedKeeps(cfg: Config, m: Machine, accepted: bool)
    requires Inv(cfg, m) && Possible(cfg, m, Traced(accepted))
    ensures Inv(cfg, Next(cfg, m, Traced(accepted)))
  {
    hide Chains, Expected, Load, AutoRestore;
    if accepted && |m.rs| < cfg.maxStack {
      var c := m.calls[|m.calls| - 1];
      var rs' := m.rs + [Hook(c.loc, Load(m.mem, c.loc))];
      SlotAtEntry(cfg, m);
      PushChain(cfg, m.rs, m.calls, Load(m.mem, c.loc));
      forall i | 0 <= i < |m.calls|
        ensures Load(Next(cfg, m, Traced(accepted)).mem, m.calls[i].loc) == Expected(cfg, rs', m.calls[i])
      {
        EntrySlot(cfg, m, i);
      }
    }
  }

  /** Repeated exits unwind exactly one chain and hand back its return address. */
  lemma {:induction false} ExitsUnwind(cfg: Config, mem: Memory, rs: seq<Hook>, k: nat, c: Active)
    requires 0 < k <= |rs| && Chain(cfg, rs, k, c) && c.ret != cfg.hook
    requires k < |rs| ==> rs[|rs| - k - 1].loc != c.loc
    ensures Exits(cfg, mem, rs) ==
            (c.ret, if cfg.autoRecover && k < |rs| then mem[rs[|rs| - k - 1].loc := cfg.hook] else mem, rs[..|rs| - k])
    decreases k
  {
    if k > 1 {
      var rs' := rs[..|rs| - 1];
      ExitsUnwind(cfg, mem, rs', k - 1, c);
      assert rs'[..|rs'| - (k - 1)] == rs[..|rs| - k];
    }
  }

  /** MAIN RESULT (transparency), one return. */
  lemma ReturnLands(cfg: Config, m: Machine)
    requires Inv(cfg, m) && m.calls != []
    ensures Landing(cfg, m).0 == m.calls[|m.calls| - 1].ret
  {
    var c := m.calls[|m.calls| - 1];
    var k := ChainLength(m.rs, c.loc);
    assert Load(m.mem, c.loc) == Expected(cfg, m.rs, c);
    if k > 0 {
      ExitsUnwind(cfg, m.mem, m.rs, k, c);
      assert m.rs[|m.rs| - 1].loc == c.loc;
    } else {
      forall j | 0 <= j < |m.rs| ensures m.rs[j].loc != c.loc {
        BelowIsOther(cfg, m.rs, m.calls, j);
      }
    }
  }

  /** What a return leaves on the shadow stack and in memory. */
  lemma ReturnLeaves(cfg: Config, m: Machine)
    requires Inv(cfg, m) && m.calls != []
    ensures var k := ChainLength(m.rs, m.calls[|m.calls| - 1].loc);
            && Landing(cfg, m).2 == m.rs[..|m.rs| - k]
            && Landing(cfg, m).1 == if cfg.autoRecover && 0 < k < |m.rs|
                                    then m.mem[m.rs[|m.rs| - k - 1].loc := cfg.hook] else m.mem
  {
    var c := m.calls[|m.calls| - 1];
    var k := ChainLength(m.rs, c.loc);
    assert Load(m.mem, c.loc) == Expected(cfg, m.rs, c);
    if k > 0 {
      ExitsUnwind(cfg, m.mem, m.rs, k, c);
      assert m.rs[|m.rs| - 1].loc == c.loc;
    } else {
      forall j | 0 <= j < |m.rs| ensures m.rs[j].loc != c.loc {
        BelowIsOther(cfg, m.rs, m.calls, j);
      }
      assert m.rs[..|m.rs|] == m.rs;
    }
  }

  lemma SlotsOf(cfg: Config, mem: Memory, rs: seq<Hook>, calls: seq<Active>, n: nat)
    requires n <= |calls| && forall i :: 0 <= i < n ==> Load(mem, calls[i].loc) == Expected(cfg, rs, calls[i])
    ensures SlotsRight(cfg, mem, rs, calls[..n])
  {
    hide Load, Expected;
  }

  /** Cutting off the top chain, the slot of another call still holds what it should. */
  lemma CutExpected(cfg: Config, rs: seq<Hook>, k: nat, c: Active, d: Active, mem: Memory, mem': Memory)
    requires k <= |rs| && d.loc != c.loc && (forall i :: |rs| - k <= i < |rs| ==> rs[i].loc == c.loc)
    requires Load(mem, d.loc) == Expected(cfg, rs, d)
    requires mem' == if cfg.autoRecover && 0 < k < |rs| then mem[rs[|rs| - k - 1].loc := cfg.hook] else mem
    ensures Load(mem', d.loc) == Expected(cfg, rs[..|rs| - k], d)
  {
    var rs' := rs[..|rs| - k];
    if j :| 0 <= j < |rs| && rs[j].loc == d.loc {
      assert j < |rs'| && rs'[j].loc == d.loc;
    }
    if j :| 0 <= j < |rs'| && rs'[j].loc == d.loc {
      assert rs[j].loc == d.loc;
    }
  }

  /** The machine after a return, piece by piece. */
  lemma ReturnParts(cfg: Config, m: Machine)
    requires Inv(cfg, m) && m.calls != []
    ensures var n, m' := |m.calls| - 1, Next(cfg, m, Return);
            var k := ChainLength(m.rs, m.calls[n].loc);
            var rs' := m.rs[..|m.rs| - k];
            && m'.rs == rs' && m'.calls == m.calls[..n] && Chains(cfg, rs', m.calls[..n])
            && m'.mem == if cfg.autoRecover && 0 < k < |m.rs| then m.mem[m.rs[|m.rs| - k - 1].loc := cfg.hook]
                         else m.mem
  {
    ReturnLeaves(cfg, m);
    hide SlotsRight, Descending, Landing, Chain;
  }

  lemma OtherSlots(cfg: Config, m: Machine)
    requires Inv(cfg, m) && m.calls != []
    ensures var n := |m.calls| - 1;
            && Descending(m.calls[..n])
            && forall i :: 0 <= i < n ==>
                 m.calls[i].loc != m.calls[n].loc && Load(m.mem, m.calls[i].loc) == Expected(cfg, m.rs, m.calls[i])
  {
    hide Chains, Load, Expected;
  }

  lemma CanReturn(cfg: Config, m: Machine)
    requires m.calls != []
    ensures Possible(cfg, m, Return)
  {
  }

  lemma InvOf(cfg: Config, m: Machine)
    requires Descending(m.calls) && Chains(cfg, m.rs, m.calls) && SlotsRight(cfg, m.mem, m.rs, m.calls)
    ensures Inv(cfg, m)
  {
    hide Descending, Chains, SlotsRight;
  }

  lemma ReturnKeeps(cfg: Config, m: Machine)
    requires Inv(cfg, m) && m.calls != []
    ensures Inv(cfg, Next(cfg, m, Return))
  {
    hide *;
    var n := |m.calls| - 1;
    var k := ChainLength(m.rs, m.calls[n].loc);
    assert Possible(cfg, m, Return) by { CanReturn(cfg, m); }
    var rs', m' := m.rs[..|m.rs| - k], Next(cfg, m, Return);
    ReturnParts(cfg, m);
    OtherSlots(cfg, m);
    forall i | 0 <= i < n ensures Load(m'.mem, m.calls[i].loc) == Expected(cfg, rs', m.calls[i]) {
      CutExpected(cfg, m.rs, k, m.calls[n], m.calls[i], m.mem, m'.mem);
    }
    SlotsOf(cfg, m'.mem, rs', m.calls, n);
    InvOf(cfg, m');
  }

  lemma NextKeeps(cfg: Config, m: Machine, s: Step)
    requires Inv(cfg, m) && Possible(cfg, m, s)
    ensures Inv(cfg, Next(cfg, m, s))
  {
    match s
    case Call(loc, ret) => CallKeeps(cfg, m, loc, ret);
    case Traced(accepted) => TracedKeeps(cfg, m, accepted);
    case Store(a, v) => StoreKeeps(cfg, m, a, v);
    case Return => ReturnKeeps(cfg, m);
  }

  // ----- all runs -----

  const START := Machine(map[], [], [])

  /** The machine after a run, or the last possible machine if a step was not possible. */
  function Run(cfg: Config, steps: seq<Step>): Machine {
    if steps == [] then START
    else
      var m := Run(cfg, steps[..|steps| - 1]);
      if Possible(cfg, m, steps[|steps| - 1]) then Next(cfg, m, steps[|steps| - 1]) else m
  }

  lemma {:induction false} RunKeeps(cfg: Config, steps: seq<Step>)
    ensures Inv(cfg, Run(cfg, steps))
  {
    if steps != [] {
      var front := steps[..|steps| - 1];
      RunKeeps(cfg, front);
      if Possible(cfg, Run(cfg, front), steps[|steps| - 1]) {
        NextKeeps(cfg, Run(cfg, front), steps[|steps| - 1]);
      }
    }
  }

  /** MAIN RESULT (transparency). After any run of calls, traced entries (accepted or not), tail calls, stores
      and returns, with or without auto-recover, returning from the deepest call lands at the
      return address the program stored for it. */
  lemma Transparent(cfg: Config, steps: seq<Step>)
    ensures var m := Run(cfg, steps); m.calls != [] ==> Landing(cfg, m).0 == m.calls[|m.calls| - 1].ret
  {
    RunKeeps(cfg, steps);
    if Run(cfg, steps).calls != [] {
      ReturnLands(cfg, Run(cfg, steps));
    }
  }

  /** MAIN RESULT (what an unwinder sees). With auto-recover on, at any moment a return slot
      of an active call holds the hook iff the topmost frame sits in it, and otherwise the
      genuine return address. */
  lemma OnlyTopHooked(cfg: Config, steps: seq<Step>, i: nat)
    ensures var m := Run(cfg, steps);
            cfg.autoRecover && i < |m.calls| ==>
              Load(m.mem, m.calls[i].loc) ==
              if m.rs != [] && m.rs[|m.rs| - 1].loc == m.calls[i].loc then cfg.hook else m.calls[i].ret
  {
    RunKeeps(cfg, steps);
    var m := Run(cfg, steps);
    if i < |m.calls| {
      assert Load(m.mem, m.calls[i].loc) == Expected(cfg, m.rs, m.calls[i]);
    }
  }
}
