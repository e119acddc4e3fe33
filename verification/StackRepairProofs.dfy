/** Restore, rehook and the unwinding of exceptions, slot by slot. */
module StackRepairProofs {
  import opened StackRepair

  // ----- what a slot holds after each of the two loops -----

  /** The lowest frame that sits in slot `a`, or -1. */
  function First(rs: seq<Frame>, a: Addr): (i: int)
    ensures -1 <= i < |rs|
    ensures i >= 0 ==> rs[i].loc == a && Starts(rs, i)
    ensures forall k :: 0 <= k < (if i < 0 then |rs| else i) ==> rs[k].loc != a
  {
    if rs == [] then -1
    else
      var p := First(rs[..|rs| - 1], a);
      if p >= 0 then p else if rs[|rs| - 1].loc == a then |rs| - 1 else -1
  }

  lemma FirstIn(rs: seq<Frame>, a: Addr)
    ensures First(rs, a) >= 0 ==> rs[First(rs, a)] in rs
  {
  }

  /** The highest frame that sits in slot `a`, or -1. */
  function Last(rs: seq<Frame>, a: Addr): (i: int)
    ensures -1 <= i < |rs|
    ensures i >= 0 ==> rs[i].loc == a && Ends(rs, i)
    ensures forall k :: i < k < |rs| ==> rs[k].loc != a
  {
    if rs == [] then -1
    else if rs[|rs| - 1].loc == a then |rs| - 1
    else Last(rs[..|rs| - 1], a)
  }

  lemma ShapedBelow(cfg: Config, rs: seq<Frame>)
    requires Shaped(cfg, rs) && rs != []
    ensures Shaped(cfg, rs[..|rs| - 1])
  {
    var below := rs[..|rs| - 1];
    forall i {:trigger Starts(below, i)} | 0 <= i < |below| ensures Starts(below, i) <==> !IsHook(cfg, below[i].ip) {
      assert Starts(rs, i) <==> !IsHook(cfg, rs[i].ip);
    }
  }

  lemma ApplyAppend(mem: Memory, u: seq<(Addr, Addr)>, w: (Addr, Addr), v: seq<(Addr, Addr)>)
    requires u == [w] + v
    ensures Apply(mem, u) == Apply(mem[w.0 := w.1], v)
  {
    assert u[1..] == v;
  }

  /** In a shaped stack the frames of one slot are neighbours, so the top frame holds a genuine
      address exactly when it is the only one in its slot. */
  lemma TopStarts(cfg: Config, rs: seq<Frame>)
    requires Shaped(cfg, rs) && rs != []
    ensures IsHook(cfg, rs[|rs| - 1].ip) <==> First(rs[..|rs| - 1], rs[|rs| - 1].loc) >= 0
  {
    var n := |rs| - 1;
    assert Starts(rs, n) <==> !IsHook(cfg, rs[n].ip);
    var p := First(rs[..n], rs[n].loc);
    assert 0 <= p < n - 1 ==> rs[n].loc <= rs[n - 1].loc <= rs[p].loc;
    assert p < 0 && n > 0 ==> rs[..n][n - 1].loc != rs[n].loc;
  }

  lemma {:induction false} RestoredSlot(cfg: Config, mem: Memory, rs: seq<Frame>, a: Addr)
    requires Shaped(cfg, rs)
    ensures Load(Restore(cfg, mem, rs), a) == if First(rs, a) >= 0 then rs[First(rs, a)].ip else Load(mem, a)
    ensures a in Restore(cfg, mem, rs) <==> a in mem || First(rs, a) >= 0
    decreases |rs|
  {
    if rs != [] {
      hide Shaped;
      var n := |rs| - 1;
      ShapedBelow(cfg, rs);
      TopStarts(cfg, rs);
      if IsHook(cfg, rs[n].ip) {
        assert Restores(cfg, rs) == Restores(cfg, rs[..n]);
        RestoredSlot(cfg, mem, rs[..n], a);
      } else {
        var w := (rs[n].loc, rs[n].ip);
        ApplyAppend(mem, Restores(cfg, rs), w, Restores(cfg, rs[..n]));
        RestoredSlot(cfg, mem[w.0 := w.1], rs[..n], a);
      }
    }
  }

  lemma {:induction false} RehookedSlot(cfg: Config, mem: Memory, rs: seq<Frame>, a: Addr)
    ensures Load(Rehook(cfg, mem, rs), a) == if First(rs, a) >= 0 then HookOf(cfg, rs[First(rs, a)]) else Load(mem, a)
    ensures a in Rehook(cfg, mem, rs) <==> a in mem || First(rs, a) >= 0
    decreases |rs|
  {
    if rs != [] {
      var n := |rs| - 1;
      var w := (rs[n].loc, HookOf(cfg, rs[n]));
      ApplyAppend(mem, Rehooks(cfg, rs), w, Rehooks(cfg, rs[..n]));
      RehookedSlot(cfg, mem[w.0 := w.1], rs[..n], a);
    }
  }

  // ----- main results -----

  lemma {:induction false} WriteIn(cfg: Config, rs: seq<Frame>, w: (Addr, Addr))
    requires Shaped(cfg, rs)
    ensures w in Restores(cfg, rs) <==> First(rs, w.0) >= 0 && w.1 == rs[First(rs, w.0)].ip
    decreases |rs|
  {
    if rs != [] {
      hide Shaped, Starts;
      ShapedBelow(cfg, rs);
      TopStarts(cfg, rs);
      WriteIn(cfg, rs[..|rs| - 1], w);
    }
  }

  lemma {:induction false} WritesDiffer(cfg: Config, rs: seq<Frame>, p: nat, q: nat)
    requires Shaped(cfg, rs) && p < q < |Restores(cfg, rs)|
    ensures Restores(cfg, rs)[p].0 != Restores(cfg, rs)[q].0
    decreases |rs|
  {
    hide Shaped, Starts;
    var n := |rs| - 1;
    var rest := Restores(cfg, rs[..n]);
    ShapedBelow(cfg, rs);
    TopStarts(cfg, rs);
    if IsHook(cfg, rs[n].ip) {
      WritesDiffer(cfg, rs[..n], p, q);
    } else if p > 0 {
      WritesDiffer(cfg, rs[..n], p - 1, q - 1);
    } else {
      WriteIn(cfg, rs[..n], rest[q - 1]);
    }
  }

  /** MAIN RESULT (restore writes once). Whatever mix of mcount and PLT frames and tail calls:
      restore writes each slot in use exactly once, with that slot's genuine return address, and
      nothing else. */
  lemma WritesOnce(cfg: Config, rs: seq<Frame>)
    requires Shaped(cfg, rs)
    ensures forall p, q :: 0 <= p < q < |Restores(cfg, rs)| ==> Restores(cfg, rs)[p].0 != Restores(cfg, rs)[q].0
    ensures forall w :: w in Restores(cfg, rs) <==> First(rs, w.0) >= 0 && w.1 == rs[First(rs, w.0)].ip
  {
    hide Shaped, Restores, First;
    forall p, q | 0 <= p < q < |Restores(cfg, rs)| ensures Restores(cfg, rs)[p].0 != Restores(cfg, rs)[q].0 {
      WritesDiffer(cfg, rs, p, q);
    }
    forall w ensures w in Restores(cfg, rs) <==> First(rs, w.0) >= 0 && w.1 == rs[First(rs, w.0)].ip {
      WriteIn(cfg, rs, w);
    }
  }

  lemma SlotEnds(cfg: Config, mem: Memory, rs: seq<Frame>, a: Addr)
    requires Hooked(cfg, mem, rs) && First(rs, a) >= 0
    ensures a in mem && mem[a] == HookOf(cfg, rs[Last(rs, a)]) && Last(rs, a) >= 0
  {
    assert Last(rs, a) >= 0;
    assert Ends(rs, Last(rs, a));
  }

  lemma BelowStartDiffers(cfg: Config, rs: seq<Frame>, i: nat)
    requires Shaped(cfg, rs) && Starts(rs, i)
    ensures forall p :: 0 <= p < i ==> rs[p].loc != rs[i].loc
  {
    forall p | 0 <= p < i ensures rs[p].loc != rs[i].loc {
      assert p < i - 1 ==> rs[i - 1].loc <= rs[p].loc;
    }
  }

  lemma OnlyStart(cfg: Config, rs: seq<Frame>, i: nat)
    requires Shaped(cfg, rs) && Starts(rs, i)
    ensures First(rs, rs[i].loc) == i
  {
    BelowStartDiffers(cfg, rs, i);
  }

  lemma RepairedSlot(cfg: Config, mem: Memory, rs: seq<Frame>, a: Addr)
    requires Shaped(cfg, rs) && Hooked(cfg, mem, rs) && a in mem
    ensures Load(Rehook(cfg, Restore(cfg, mem, rs), rs), a) ==
            if First(rs, a) >= 0 then HookOf(cfg, rs[First(rs, a)]) else mem[a]
    ensures EndsAgree(rs) ==> Load(Rehook(cfg, Restore(cfg, mem, rs), rs), a) == mem[a]
  {
    RehookedSlot(cfg, Restore(cfg, mem, rs), rs, a);
    RestoredSlot(cfg, mem, rs, a);
    if First(rs, a) >= 0 {
      SlotEnds(cfg, mem, rs, a);
      assert Starts(rs, First(rs, a)) && Ends(rs, Last(rs, a));
    }
  }

  /** MAIN RESULT (restore then rehook). On a shaped stack with every slot hooked, rehooking
      after restoring gives back the same memory iff every chain ends with the kind of frame
      it starts with. */
  lemma RepairIsIdentityIff(cfg: Config, mem: Memory, rs: seq<Frame>)
    requires Shaped(cfg, rs) && Hooked(cfg, mem, rs) && cfg.mcountHook != cfg.pltHook
    ensures Rehook(cfg, Restore(cfg, mem, rs), rs) == mem <==> EndsAgree(rs)
  {
    var mem' := Rehook(cfg, Restore(cfg, mem, rs), rs);
    forall a ensures a in mem' <==> a in mem {
      RehookedSlot(cfg, Restore(cfg, mem, rs), rs, a);
      RestoredSlot(cfg, mem, rs, a);
      if First(rs, a) >= 0 {
        SlotEnds(cfg, mem, rs, a);
      }
    }
    if EndsAgree(rs) {
      forall a | a in mem ensures mem'[a] == mem[a] {
        RepairedSlot(cfg, mem, rs, a);
      }
    } else {
      var i, j :| Starts(rs, i) && Ends(rs, j) && rs[i].loc == rs[j].loc && rs[i].plt != rs[j].plt;
      RepairedSlot(cfg, mem, rs, rs[i].loc);
      OnlyStart(cfg, rs, i);
      assert mem[rs[j].loc] == HookOf(cfg, rs[j]);
      assert Load(mem', rs[i].loc) == HookOf(cfg, rs[i]);
    }
  }

  /** The mcount-only case of RepairIsIdentityIff. */
  lemma McountRepair(cfg: Config, mem: Memory, rs: seq<Frame>)
    requires Shaped(cfg, rs) && Hooked(cfg, mem, rs) && cfg.mcountHook != cfg.pltHook
    requires forall i :: 0 <= i < |rs| ==> !rs[i].plt
    ensures Rehook(cfg, Restore(cfg, mem, rs), rs) == mem
  {
    assert EndsAgree(rs);
    RepairIsIdentityIff(cfg, mem, rs);
  }

  /** A PLT function tail-called from a traced function: rehook leaves the wrong hook. */
  lemma MixedChainDiffers()
    ensures var cfg := Config(1, 2, 0);
            var rs := [Frame(80, 500, false, false, 0), Frame(80, 1, true, false, 0)];
            var mem := map[80 := 2];
            Shaped(cfg, rs) && Hooked(cfg, mem, rs) && Rehook(cfg, Restore(cfg, mem, rs), rs) == map[80 := 1]
  {
    var cfg := Config(1, 2, 0);
    var rs := [Frame(80, 500, false, false, 0), Frame(80, 1, true, false, 0)];
    var mem := map[80 := 2];
    assert Starts(rs, 0) && !Starts(rs, 1) && !Ends(rs, 0);
    assert Shaped(cfg, rs) && Hooked(cfg, mem, rs);
    var mem' := Rehook(cfg, Restore(cfg, mem, rs), rs);
    forall a ensures (a in mem' <==> a == 80) && Load(mem', a) == if a == 80 then 1 else 0 {
      RehookedSlot(cfg, Restore(cfg, mem, rs), rs, a);
      RestoredSlot(cfg, mem, rs, a);
      if a == 80 {
        OnlyStart(cfg, rs, 0);
      }
    }
    assert mem'[80] == 1;
  }

  /** MAIN RESULT (rehook then restore). Whatever the mix of frames, restoring a rehooked stack
      gives back a memory that held the genuine return addresses. */
  lemma RestoreUndoesRehook(cfg: Config, mem: Memory, rs: seq<Frame>)
    requires Shaped(cfg, rs) && Genuine(mem, rs)
    ensures Restore(cfg, Rehook(cfg, mem, rs), rs) == mem
  {
    forall a
      ensures a in Restore(cfg, Rehook(cfg, mem, rs), rs) <==> a in mem
      ensures Load(Restore(cfg, Rehook(cfg, mem, rs), rs), a) == Load(mem, a)
    {
      RestoredSlot(cfg, Rehook(cfg, mem, rs), rs, a);
      RehookedSlot(cfg, mem, rs, a);
      if First(rs, a) >= 0 {
        assert Starts(rs, First(rs, a));
      }
    }
    var mem' := Restore(cfg, Rehook(cfg, mem, rs), rs);
    forall a | a in mem ensures mem'[a] == mem[a] {
      assert Load(mem', a) == Load(mem, a);
    }
  }

  // ----- exceptions -----

  lemma StartsBelow(rs: seq<Frame>, i: int)
    requires rs != [] && Starts(rs[..|rs| - 1], i)
    ensures Starts(rs, i)
  {
  }

  /** How many frames, from the bottom, are left: the walk down from the top ends at the first
      frame that a cygprof hook pushed or that sits above the landing frame. */
  function Stop(cfg: Config, rs: seq<Frame>, frameAddr: Addr): (k: nat)
    ensures k <= |rs|
    ensures forall i :: k <= i < |rs| ==> rs[i].loc != cfg.dummy && rs[i].loc <= frameAddr
    ensures k > 0 ==> rs[k - 1].loc == cfg.dummy || rs[k - 1].loc > frameAddr
  {
    if rs == [] || rs[|rs| - 1].loc == cfg.dummy || rs[|rs| - 1].loc > frameAddr then |rs|
    else Stop(cfg, rs[..|rs| - 1], frameAddr)
  }

  /** The frames from `k` up, from the top down: a recordable one got its end time, and nothing
      else about any of them changed. */
  ghost predicate ClosedOff(rs: seq<Frame>, k: nat, clock: seq<nat>, closed: seq<Frame>)
    requires k <= |rs| <= |clock|
  {
    && |closed| == |rs| - k
    && forall m :: 0 <= m < |closed| ==>
         var f := rs[|rs| - 1 - m];
         && closed[m].end == (if f.norecord then f.end else clock[|rs| - 1 - m])
         && closed[m].loc == f.loc && closed[m].ip == f.ip
         && closed[m].plt == f.plt && closed[m].norecord == f.norecord
  }

  lemma NoneClosed(rs: seq<Frame>, clock: seq<nat>)
    requires |rs| <= |clock|
    ensures ClosedOff(rs, |rs|, clock, [])
  {
  }

  lemma ClosedOneMore(rs: seq<Frame>, k: nat, clock: seq<nat>, closed: seq<Frame>)
    requires k < |rs| <= |clock| && ClosedOff(rs[..|rs| - 1], k, clock, closed)
    ensures ClosedOff(rs, k, clock, [Closed(rs[|rs| - 1], clock[|rs| - 1])] + closed)
  {
  }

  /** The first frame of the tail-call chain at the top took over what its slot holds now. */
  ghost predicate Refreshed(mem: Memory, rs: seq<Frame>, kept: seq<Frame>)
    requires rs != []
  {
    var loc := rs[|rs| - 1].loc;
    exists i :: Starts(rs, i) && (forall j :: i <= j < |rs| ==> rs[j].loc == loc)
                && kept == rs[i := rs[i].(ip := Load(mem, loc))]
  }

  lemma UnwindEnds(cfg: Config, mem: Memory, rs: seq<Frame>, frameAddr: Addr, clock: seq<nat>)
    requires rs != [] && |clock| >= |rs| && Stop(cfg, rs, frameAddr) == |rs|
    ensures var u := Unwind(cfg, mem, rs, frameAddr, clock);
            && u.closed == []
            && if rs[|rs| - 1].loc == cfg.dummy then u.kept == rs else Refreshed(mem, rs, u.kept)
  {
    assert Starts(rs, ChainStart(rs, |rs| - 1));
  }

  lemma UnwindGoesOn(cfg: Config, mem: Memory, rs: seq<Frame>, frameAddr: Addr, clock: seq<nat>)
    requires rs != [] && |clock| >= |rs| && Stop(cfg, rs, frameAddr) < |rs|
    ensures var n := |rs| - 1;
            var v := Unwind(cfg, mem, rs[..n], frameAddr, clock);
            && Unwind(cfg, mem, rs, frameAddr, clock) == Unwound(v.kept, [Closed(rs[n], clock[n])] + v.closed)
            && Stop(cfg, rs, frameAddr) == Stop(cfg, rs[..n], frameAddr)
  {
    hide Closed;
  }

  /** MAIN RESULT (what an exception unwinds). On any stack and any memory: the frames above
      where the walk ends are closed from the top down; those below are kept as they are, except
      that, when the walk ends above the landing frame, the first frame of the tail-call chain
      it ends in takes over what its slot holds now. */
  lemma {:induction false} UnwindDoes(cfg: Config, mem: Memory, rs: seq<Frame>, frameAddr: Addr, clock: seq<nat>)
    requires |clock| >= |rs|
    ensures var u, k := Unwind(cfg, mem, rs, frameAddr, clock), Stop(cfg, rs, frameAddr);
            && ClosedOff(rs, k, clock, u.closed)
            && if k == 0 || rs[k - 1].loc == cfg.dummy then u.kept == rs[..k] else Refreshed(mem, rs[..k], u.kept)
    decreases |rs|
  {
    if rs == [] {
      NoneClosed(rs, clock);
    } else {
      var n, k := |rs| - 1, Stop(cfg, rs, frameAddr);
      if k == |rs| {
        UnwindEnds(cfg, mem, rs, frameAddr, clock);
        hide *;
        NoneClosed(rs, clock);
        assert rs[..k] == rs;
      } else {
        UnwindGoesOn(cfg, mem, rs, frameAddr, clock);
        hide *;
        UnwindDoes(cfg, mem, rs[..n], frameAddr, clock);
        ClosedOneMore(rs, k, clock, Unwind(cfg, mem, rs[..n], frameAddr, clock).closed);
        assert rs[..n][..k] == rs[..k];
      }
    }
  }

  /** On a stack of mcount frames that is in order, exactly the frames above the landing frame are left. */
  lemma StopSplits(cfg: Config, rs: seq<Frame>, frameAddr: Addr)
    requires Shaped(cfg, rs) && forall i :: 0 <= i < |rs| ==> rs[i].loc != cfg.dummy
    ensures forall i :: 0 <= i < |rs| ==> (rs[i].loc > frameAddr <==> i < Stop(cfg, rs, frameAddr))
  {
  }

  lemma SameRefreshed(mem: Memory, rs: seq<Frame>, kept: seq<Frame>)
    requires rs != [] && Refreshed(mem, rs, kept)
    requires forall i :: Starts(rs, i) && rs[i].loc == rs[|rs| - 1].loc ==> Load(mem, rs[|rs| - 1].loc) == rs[i].ip
    ensures kept == rs
  {
    var loc := rs[|rs| - 1].loc;
    var i :| Starts(rs, i) && (forall j :: i <= j < |rs| ==> rs[j].loc == loc)
             && kept == rs[i := rs[i].(ip := Load(mem, loc))];
    assert rs[i].(ip := Load(mem, loc)) == rs[i];
  }

  lemma StillGenuine(mem: Memory, rs: seq<Frame>, k: nat, frameAddr: Addr)
    requires 0 < k <= |rs| && rs[k - 1].loc > frameAddr
    requires forall i {:trigger Starts(rs, i)} ::
               0 <= i < |rs| && rs[i].loc > frameAddr && Starts(rs, i) ==> Load(mem, rs[i].loc) == rs[i].ip
    ensures forall i :: Starts(rs[..k], i) && rs[..k][i].loc == rs[..k][|rs[..k]| - 1].loc ==>
                          Load(mem, rs[..k][|rs[..k]| - 1].loc) == rs[..k][i].ip
  {
    hide Load;
    forall i | Starts(rs[..k], i) && rs[..k][i].loc == rs[k - 1].loc ensures Load(mem, rs[k - 1].loc) == rs[..k][i].ip {
      assert Starts(rs, i);
    }
  }

  /** On a stack of mcount frames that is in order and whose slots above the landing frame hold
      genuine addresses, the frames above the landing frame stay unchanged, tail-call chains
      included, and the others are closed. */
  lemma UnwindKeeps(cfg: Config, mem: Memory, rs: seq<Frame>, frameAddr: Addr, clock: seq<nat>)
    requires Shaped(cfg, rs) && |clock| >= |rs|
    requires forall i :: 0 <= i < |rs| ==> rs[i].loc != cfg.dummy
    requires forall i {:trigger Starts(rs, i)} ::
               0 <= i < |rs| && rs[i].loc > frameAddr && Starts(rs, i) ==> Load(mem, rs[i].loc) == rs[i].ip
    ensures exists k :: 0 <= k <= |rs| && (forall i :: 0 <= i < |rs| ==> (rs[i].loc > frameAddr <==> i < k))
                        && Unwind(cfg, mem, rs, frameAddr, clock).kept == rs[..k]
                        && ClosedOff(rs, k, clock, Unwind(cfg, mem, rs, frameAddr, clock).closed)
  {
    hide *;
    var u, k := Unwind(cfg, mem, rs, frameAddr, clock), Stop(cfg, rs, frameAddr);
    UnwindDoes(cfg, mem, rs, frameAddr, clock);
    StopSplits(cfg, rs, frameAddr);
    if k > 0 {
      StillGenuine(mem, rs, k, frameAddr);
      SameRefreshed(mem, rs[..k], u.kept);
    }
  }

  /** MAIN RESULT (exception). A stack of mcount frames with every slot hooked is restored when
      the exception is thrown; unwinder and destructors then write what they like, except to the
      return slots above the landing frame. At the catch exactly the frames above the landing
      frame are left, unchanged and with their slots hooked as before; the others are closed from
      the top down; and nothing else in memory is touched. */
  lemma ThrowThenCatch(cfg: Config, mem: Memory, mem1: Memory, rs: seq<Frame>, frameAddr: Addr, clock: seq<nat>)
    requires Shaped(cfg, rs) && Hooked(cfg, mem, rs) && |clock| >= |rs|
    requires forall i :: 0 <= i < |rs| ==> !rs[i].plt && rs[i].loc != cfg.dummy
    requires forall i :: 0 <= i < |rs| && rs[i].loc > frameAddr ==>
               Load(mem1, rs[i].loc) == Load(Restore(cfg, mem, rs), rs[i].loc)
    ensures var u := Unwind(cfg, mem1, rs, frameAddr, clock);
            && (exists k :: 0 <= k <= |rs| && (forall i :: 0 <= i < |rs| ==> (rs[i].loc > frameAddr <==> i < k))
                            && u.kept == rs[..k] && ClosedOff(rs, k, clock, u.closed))
            && (forall f :: f in u.kept ==>
                              Load(Rehook(cfg, mem1, u.kept), f.loc) == cfg.mcountHook == Load(mem, f.loc))
            && (forall a :: (forall f :: f in u.kept ==> f.loc != a) ==>
                              Load(Rehook(cfg, mem1, u.kept), a) == Load(mem1, a))
  {
    forall i {:trigger Starts(rs, i)} | 0 <= i < |rs| && rs[i].loc > frameAddr && Starts(rs, i)
      ensures Load(mem1, rs[i].loc) == rs[i].ip
    {
      RestoredSlot(cfg, mem, rs, rs[i].loc);
      OnlyStart(cfg, rs, i);
    }
    UnwindKeeps(cfg, mem1, rs, frameAddr, clock);
    var kept := Unwind(cfg, mem1, rs, frameAddr, clock).kept;
    forall f | f in kept ensures Load(Rehook(cfg, mem1, kept), f.loc) == cfg.mcountHook == Load(mem, f.loc) {
      RehookedSlot(cfg, mem1, kept, f.loc);
      assert First(kept, f.loc) >= 0;
      assert First(rs, f.loc) >= 0;
      SlotEnds(cfg, mem, rs, f.loc);
    }
    forall a | forall f :: f in kept ==> f.loc != a ensures Load(Rehook(cfg, mem1, kept), a) == Load(mem1, a) {
      RehookedSlot(cfg, mem1, kept, a);
      FirstIn(kept, a);
    }
  }
}
