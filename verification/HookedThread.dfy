/** __mcount_entry, __mcount_exit, mcount_auto_restore and mcount_auto_rehook as they update the
    array of frames and write through parent_loc, proved against ReturnHooks. */
module HookedThread {
  import opened ReturnHooks

  lemma RestoreTargetUnique(cfg: Config, rs: seq<Hook>, k: int)
    requires -1 <= k < |rs|
    requires k >= 0 ==> rs[k].ip != cfg.hook
    requires forall i :: k < i < |rs| ==> rs[i].ip == cfg.hook
    ensures k == RestoreTarget(cfg, rs)
  {
  }

  class HookedThread {
    const cfg: Config
    const rstack: array<Hook>
    var idx: nat
    var mem: Memory

    ghost predicate Valid()
      reads this
    {
      rstack.Length == cfg.maxStack && idx <= cfg.maxStack
    }

    ghost function Frames(): (rs: seq<Hook>)
      requires Valid()
      reads this, rstack
    {
      rstack[..idx]
    }

    constructor (cfg: Config, mem: Memory)
      ensures Valid() && fresh(rstack) && this.cfg == cfg && this.mem == mem && Frames() == []
    {
      this.cfg, this.mem, idx := cfg, mem, 0;
      rstack := new Hook[cfg.maxStack](_ => Hook(0, 0));
    }

    /** mcount_auto_restore: give the caller's slot its return address back. */
    method Restore()
      requires Valid()
      modifies this`mem
      ensures mem == AutoRestore(cfg, old(mem), Frames())
    {
      if idx < 2 || rstack[idx - 1].loc == rstack[idx - 2].loc {
        return;
      }
      ghost var below := Frames()[..idx - 1];
      var prev := idx - 2;
      while prev >= 0
        invariant -1 <= prev <= idx - 2 && mem == old(mem)
        invariant forall i :: prev < i <= idx - 2 ==> rstack[i].ip == cfg.hook
      {
        if rstack[prev].ip != cfg.hook {
          mem := mem[rstack[prev].loc := rstack[prev].ip];
          RestoreTargetUnique(cfg, below, prev);
          return;
        }
        prev := prev - 1;
      }
      RestoreTargetUnique(cfg, below, -1);
    }

    /** mcount_auto_rehook: hook the caller's slot again. */
    method Rehook()
      requires Valid()
      modifies this`mem
      ensures mem == AutoRehook(cfg, old(mem), Frames())
    {
      if idx < 2 || rstack[idx - 1].loc == rstack[idx - 2].loc {
        return;
      }
      mem := mem[rstack[idx - 2].loc := cfg.hook];
    }

    /** __mcount_entry; `accepted` is what the filters say. */
    method McountEntry(loc: Addr, accepted: bool) returns (hooked: bool)
      requires Valid()
      modifies this, rstack
      ensures Valid() && hooked == (accepted && old(idx) < cfg.maxStack)
      ensures (mem, Frames()) == ReturnHooks.McountEntry(cfg, old(mem), old(Frames()), loc, accepted)
    {
      if idx >= cfg.maxStack || !accepted {
        return false;
      }
      rstack[idx] := Hook(loc, Load(mem, loc));
      idx := idx + 1;
      assert Frames() == old(Frames()) + [Hook(loc, Load(mem, loc))];
      mem := mem[loc := cfg.hook];
      if cfg.autoRecover {
        Restore();
      }
      hooked := true;
    }

    /** __mcount_exit. */
    method McountExit() returns (retaddr: Addr)
      requires Valid() && idx > 0
      modifies this
      ensures Valid()
      ensures (retaddr, mem, Frames()) == Exit(cfg, old(mem), old(Frames()))
    {
      retaddr := rstack[idx - 1].ip;
      if cfg.autoRecover {
        Rehook();
      }
      idx := idx - 1;
      assert Frames() == old(Frames())[..idx];
    }

    /** mcount_return: the assembly jumps to the address mcount_exit hands back, which for a
        tail call is the hook itself, so exits repeat. */
    method McountReturn() returns (retaddr: Addr)
      requires Valid()
      modifies this
      ensures Valid()
      ensures (retaddr, mem, Frames()) == Exits(cfg, old(mem), old(Frames()))
    {
      retaddr := cfg.hook;
      while retaddr == cfg.hook && idx > 0
        invariant Valid()
        invariant retaddr == cfg.hook ==> Exits(cfg, mem, Frames()) == Exits(cfg, old(mem), old(Frames()))
        invariant retaddr != cfg.hook ==> (retaddr, mem, Frames()) == Exits(cfg, old(mem), old(Frames()))
        decreases idx
      {
        retaddr := McountExit();
      }
    }
  }
}
