/** mcount_rstack_inject_return and the entry hook in estimate-return mode as they update the
    array of frames, proved against EstimateReturn. */
module EstimateThread {
  import opened EstimateReturn

  class EstimateThread {
    const cfg: Config
    const rstack: array<Frame>
    var idx: nat
    var recordIdx: nat
    /** The frames handed to mcount_exit_filter_record, in order. */
    var closed: seq<Frame>

    ghost predicate Valid()
      reads this
    {
      rstack.Length == cfg.maxStack && idx <= cfg.maxStack
    }

    ghost function Abs(): Thread
      requires Valid()
      reads this, rstack
    {
      Thread(rstack[..idx], recordIdx, closed)
    }

    constructor (cfg: Config)
      ensures Valid() && fresh(rstack) && this.cfg == cfg && Abs() == Thread([], 0, [])
    {
      this.cfg, idx, recordIdx, closed := cfg, 0, 0, [];
      rstack := new Frame[cfg.maxStack](_ => Frame(0, 0, 0, 0, 0, false, false));
    }

    /** Give the top frame a fake exit at `end` and drop it. */
    method CloseTop(end: nat)
      requires Valid() && idx > 0
      modifies this, rstack
      ensures Valid() && Abs() == EstimateReturn.CloseTop(old(Abs()), end)
    {
      var top := idx - 1;
      rstack[top] := rstack[top].(end := end);
      closed := closed + [rstack[top]];
      if !rstack[top].norecord && recordIdx > 0 {
        recordIdx := recordIdx - 1;
      }
      idx := top;
      assert rstack[..idx] == old(rstack[..idx])[..top];
    }

    /** Whether the frame just below idx has returned, read from the array. */
    lemma TopFrame(fp: Addr, end: nat)
      requires Valid() && idx > 0
      ensures var t, top := Abs(), rstack[idx - 1];
              && t.rs != [] && t.rs[|t.rs| - 1] == top
              && PopReturned(cfg, t, fp, end) ==
                   if top.loc == cfg.dummy || top.loc > fp then t
                   else PopReturned(cfg, EstimateReturn.CloseTop(t, end), fp, end + 1)
    {
    }

    /** mcount_rstack_inject_return. */
    method InjectReturn(fp: Addr, child: Addr, now: nat)
      requires Valid()
      modifies this, rstack
      ensures Valid() && idx <= old(idx)
      ensures Abs() == EstimateReturn.InjectReturn(cfg, old(Abs()), fp, child, now)
    {
      hide SameModule, PopReturned, EstimateReturn.CloseTop;
      var estimated: nat := 0;
      if idx > 0 {
        var top := rstack[idx - 1];
        estimated := (now + top.start) / 2;
        if top.plt && top.loc > fp && SameModule(cfg, top.child, child) {
          CloseTop(estimated);
          recordIdx := idx;
          return;
        }
      }
      while idx > 0
        invariant Valid() && idx <= old(idx)
        invariant PopReturned(cfg, Abs(), fp, estimated) ==
                  PopReturned(cfg, old(Abs()), fp, Estimate(old(Abs()).rs, now))
        decreases idx
      {
        TopFrame(fp, estimated);
        if rstack[idx - 1].loc == cfg.dummy || rstack[idx - 1].loc > fp {
          break;
        }
        CloseTop(estimated);
        estimated := estimated + 1;
      }
      if idx == 0 {
        assert PopReturned(cfg, Abs(), fp, estimated) == Abs() by {
          NothingLeft(fp, estimated);
        }
      }
      recordIdx := idx;
    }

    lemma NothingLeft(fp: Addr, end: nat)
      requires Valid() && idx == 0
      ensures PopReturned(cfg, Abs(), fp, end) == Abs()
    {
    }

    /** __mcount_entry, or the PLT hook, in estimate-return mode. */
    method Entry(e: Enter) returns (entered: bool)
      requires Valid()
      modifies this, rstack
      ensures Valid() && entered == (e.accepted && old(idx) < cfg.maxStack)
      ensures Abs() == EstimateReturn.Entry(cfg, old(Abs()), e)
    {
      if idx >= cfg.maxStack || !e.accepted {
        return false;
      }
      InjectReturn(e.loc, e.child, e.now);
      ghost var t := Abs();
      rstack[idx] := Frame(e.loc, e.child, recordIdx, e.start, 0, e.plt, e.norecord);
      idx := idx + 1;
      assert rstack[..idx] == t.rs + [rstack[idx - 1]];
      if !e.norecord {
        recordIdx := recordIdx + 1;
      }
      entered := true;
    }
  }
}
