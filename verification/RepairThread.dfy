/** The restore, rehook and exception loops as they walk the array of frames and write through
    parent_loc, proved against StackRepair. */
module RepairThread {
  import opened StackRepair

  /** Walking from the top, one frame more. */
  lemma TopFrame(cfg: Config, mem: Memory, rs: seq<Frame>, n: nat)
    requires n < |rs|
    ensures Restore(cfg, mem, rs[..n + 1]) ==
            Restore(cfg, if IsHook(cfg, rs[n].ip) then mem else mem[rs[n].loc := rs[n].ip], rs[..n])
    ensures Rehook(cfg, mem, rs[..n + 1]) == Rehook(cfg, mem[rs[n].loc := HookOf(cfg, rs[n])], rs[..n])
  {
    var up := rs[..n + 1];
    assert up[..n] == rs[..n];
    var w, h := (rs[n].loc, rs[n].ip), (rs[n].loc, HookOf(cfg, rs[n]));
    assert ([h] + Rehooks(cfg, rs[..n]))[1..] == Rehooks(cfg, rs[..n]);
    if IsHook(cfg, rs[n].ip) {
      assert [] + Restores(cfg, rs[..n]) == Restores(cfg, rs[..n]);
    } else {
      assert ([w] + Restores(cfg, rs[..n]))[1..] == Restores(cfg, rs[..n]);
    }
  }

  /** Unwinding from frame n down. */
  lemma UnwindTop(cfg: Config, mem: Memory, rs: seq<Frame>, n: nat, frameAddr: Addr, clock: seq<nat>)
    requires n < |rs| <= |clock|
    ensures var up, below := rs[..n + 1], Unwind(cfg, mem, rs[..n], frameAddr, clock);
            Unwind(cfg, mem, up, frameAddr, clock) ==
            if rs[n].loc == cfg.dummy then Unwound(up, [])
            else if rs[n].loc > frameAddr then
              var i := ChainStart(up, n);
              Unwound(up[i := up[i].(ip := Load(mem, up[i].loc))], [])
            else Unwound(below.kept, [Closed(rs[n], clock[n])] + below.closed)
  {
    hide ChainStart, Load;
    assert rs[..n + 1][..n] == rs[..n];
  }

  lemma EmptyUnwind(cfg: Config, mem: Memory, rs: seq<Frame>, frameAddr: Addr, clock: seq<nat>)
    requires rs == []
    ensures Unwind(cfg, mem, rs, frameAddr, clock) == Unwound([], [])
  {
  }

  lemma Associate(a: seq<Frame>, f: Frame, b: seq<Frame>)
    ensures a + ([f] + b) == (a + [f]) + b
  {
  }

  class RepairThread {
    const cfg: Config
    const rstack: array<Frame>
    var idx: nat
    var mem: Memory
    /** The frames handed to mcount_exit_filter_record, in order. */
    var closed: seq<Frame>

    ghost predicate Valid()
      reads this
    {
      idx <= rstack.Length
    }

    ghost function Frames(): seq<Frame>
      requires Valid()
      reads this, rstack
    {
      rstack[..idx]
    }

    constructor (cfg: Config, size: nat, mem: Memory)
      ensures Valid() && fresh(rstack) && rstack.Length == size && this.cfg == cfg && this.mem == mem
      ensures Frames() == [] && closed == []
    {
      this.cfg, this.mem, idx, closed := cfg, mem, 0, [];
      rstack := new Frame[size](_ => Frame(0, 0, false, false, 0));
    }

    /** mcount_rstack_restore. */
    method Restore()
      requires Valid()
      modifies this`mem
      ensures mem == StackRepair.Restore(cfg, old(mem), Frames())
    {
      ghost var rs := Frames();
      assert rs[..|rs|] == rs;
      var i: nat := idx;
      while i > 0
        invariant i <= idx
        invariant StackRepair.Restore(cfg, mem, rs[..i]) == StackRepair.Restore(cfg, old(mem), rs)
      {
        i := i - 1;
        TopFrame(cfg, mem, rs, i);
        if !IsHook(cfg, rstack[i].ip) {
          mem := mem[rstack[i].loc := rstack[i].ip];
        }
      }
    }

    /** mcount_rstack_rehook. */
    method Rehook()
      requires Valid()
      modifies this`mem
      ensures mem == StackRepair.Rehook(cfg, old(mem), Frames())
    {
      ghost var rs := Frames();
      assert rs[..|rs|] == rs;
      var i: nat := idx;
      while i > 0
        invariant i <= idx
        invariant StackRepair.Rehook(cfg, mem, rs[..i]) == StackRepair.Rehook(cfg, old(mem), rs)
      {
        i := i - 1;
        TopFrame(cfg, mem, rs, i);
        mem := mem[rstack[i].loc := HookOf(cfg, rstack[i])];
      }
    }

    /** The inner walk to the first frame of the tail-call chain. */
    method FindChainStart(top: nat) returns (i: nat)
      requires Valid() && top < idx
      ensures i == ChainStart(Frames(), top)
    {
      i := top;
      while i > 0 && rstack[top].loc == rstack[i - 1].loc
        invariant i <= top && rstack[i].loc == rstack[top].loc
        invariant ChainStart(Frames(), top) == ChainStart(Frames(), i)
      {
        i := i - 1;
      }
    }

    /** mcount_rstack_rehook_exception. */
    method RehookException(frameAddr: Addr, clock: seq<nat>)
      requires Valid() && |clock| >= idx
      modifies this, rstack
      ensures Valid()
      ensures var u := Unwind(cfg, old(mem), old(Frames()), frameAddr, clock);
              && Frames() == u.kept && closed == old(closed) + u.closed
              && mem == StackRepair.Rehook(cfg, old(mem), u.kept)
    {
      hide ChainStart, StackRepair.Rehook, Load, Unwind;
      ghost var rs := Frames();
      ghost var u := Unwind(cfg, mem, rs, frameAddr, clock);
      assert rs[..|rs|] == rs;
      var n: nat := idx;
      while n > 0
        invariant n <= idx == old(idx)
        invariant mem == old(mem)
        invariant rstack[..n] == rs[..n]
        invariant var v := Unwind(cfg, mem, rs[..n], frameAddr, clock);
                  u.kept == v.kept && closed + v.closed == old(closed) + u.closed
      {
        n := n - 1;
        UnwindTop(cfg, mem, rs, n, frameAddr, clock);
        assert rs[..n + 1][..n] == rs[..n];
        assert rstack[n] == rs[..n + 1][n];
        if rstack[n].loc == cfg.dummy {
          n := n + 1;
          break;
        }
        if rstack[n].loc > frameAddr {
          idx := n + 1;
          var i := FindChainStart(n);
          rstack[i] := rstack[i].(ip := Load(mem, rstack[i].loc));
          assert rstack[..idx] == u.kept;
          n := n + 1;
          break;
        }
        ghost var v := Unwind(cfg, mem, rs[..n], frameAddr, clock);
        if !rstack[n].norecord {
          rstack[n] := rstack[n].(end := clock[n]);
        }
        Associate(closed, rstack[n], v.closed);
        closed := closed + [rstack[n]];
      }
      if n == 0 {
        EmptyUnwind(cfg, mem, rs[..0], frameAddr, clock);
      }
      idx := n;
      Rehook();
    }
  }
}
