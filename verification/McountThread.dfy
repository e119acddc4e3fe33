/** struct mcount_thread_data as an object: the hooks of the -finstrument-functions path and
    record_trace_data as they update the array of frames in place, proved against CygprofStack. */
module McountThread {
  import opened CygprofStack
  import opened LazyRecording
  import opened Wrappers

  lemma {:induction false} EntriesStep(fs: seq<Frame>, lo: nat)
    requires lo < |fs|
    ensures |Entries(fs, lo)| == |Entries(fs, lo + 1)| + if fs[lo].norecord then 0 else 1
  {
    if lo + 1 < |fs| {
      EntriesStep(fs[..|fs| - 1], lo);
    }
  }

  lemma FirstUnwrittenUnique(fs: seq<Frame>, lo: nat)
    requires lo <= |fs|
    requires forall i :: lo <= i < |fs| ==> !fs[i].written
    requires lo > 0 ==> fs[lo - 1].written
    ensures lo == FirstUnwritten(fs)
  {
    FirstUnwrittenIs(fs);
  }

  lemma EntriesSnoc(fs: seq<Frame>, k: nat, lo: nat)
    requires lo <= k < |fs|
    ensures Entries(fs[..k + 1], lo) ==
            Entries(fs[..k], lo) + if fs[k].norecord then [] else [Entry(fs[k].start, fs[k].func, fs[k].depth)]
  {
    assert fs[..k + 1][..k] == fs[..k];
  }

  /** The frames from lo up to k have been handled by the forward walk. */
  ghost predicate WrittenTo(was: seq<Frame>, now: seq<Frame>, lo: nat, k: nat) {
    && |now| == |was|
    && forall i :: 0 <= i < |was| ==>
                     now[i] == if lo <= i < k && !was[i].norecord then was[i].(written := true) else was[i]
  }

  lemma WrittenStep(was: seq<Frame>, now: seq<Frame>, lo: nat, k: nat)
    requires WrittenTo(was, now, lo, k) && lo <= k < |was|
    ensures now[k] == was[k]
    ensures WrittenTo(was, if was[k].norecord then now else now[k := was[k].(written := true)], lo, k + 1)
  {
  }

  lemma WrittenIsMark(was: seq<Frame>, now: seq<Frame>, lo: nat, k: nat)
    requires WrittenTo(was, now, lo, k) && lo <= k <= |was|
    ensures now[..k] == Mark(was[..k], lo) && forall i :: k <= i < |was| ==> now[i] == was[i]
  {
  }

  class McountThread {
    const cfg: Config
    const rstack: array<Frame>
    var idx: nat
    var recordIdx: nat
    var warned: bool
    var inCount: int
    var outCount: int
    var depth: nat
    var out: seq<Rec>

    ghost predicate Valid() {
      ConfigOk(cfg) && rstack.Length == cfg.maxStack
    }

    ghost function Abs(): (t: Thread)
      requires Valid()
      reads this, rstack
      ensures Shaped(cfg, t)
    {
      Thread(idx, recordIdx, warned, Ctl(inCount, outCount, depth), rstack[..Min(idx, cfg.maxStack)], out)
    }

    constructor (cfg: Config)
      requires ConfigOk(cfg)
      ensures Valid() && fresh(rstack) && this.cfg == cfg && Abs() == EMPTY
    {
      this.cfg := cfg;
      rstack := new Frame[cfg.maxStack](_ => Frame(0, 0, 0, 0, false, false, false, false, false, false, 0));
      idx, recordIdx, warned, inCount, outCount, depth, out := 0, 0, false, 0, 0, 0, [];
    }

    /** The walk down to the lowest unwritten frame, counting what will be recorded. */
    method CountUnwritten(top: nat) returns (lo: nat, count: int)
      requires top < rstack.Length
      ensures lo == FirstUnwritten(rstack[..top + 1]) && count == |Entries(rstack[..top + 1], lo)|
    {
      ghost var fs := rstack[..top + 1];
      lo, count := top + 1, 0;
      while lo > 0 && !rstack[lo - 1].written
        invariant lo <= top + 1
        invariant count == |Entries(fs, lo)|
        invariant forall i :: lo <= i <= top ==> !rstack[i].written
      {
        EntriesStep(fs, lo - 1);
        if !rstack[lo - 1].norecord {
          count := count + 1;
        }
        lo := lo - 1;
      }
      FirstUnwrittenUnique(fs, lo);
    }

    /** The walk up that writes the ENTRY of every recordable frame from `lo` to `top`. */
    method WriteEntries(lo: nat, top: nat, total: int) returns (count: int)
      requires lo <= top + 1 <= rstack.Length
      modifies this`out, rstack
      ensures rstack[..top + 1] == Mark(old(rstack[..top + 1]), lo)
      ensures out == old(out) + Entries(old(rstack[..top + 1]), lo)
      ensures forall i :: top < i < rstack.Length ==> rstack[i] == old(rstack[i])
      ensures count == total - |Entries(old(rstack[..top + 1]), lo)|
    {
      ghost var was, fs := rstack[..], rstack[..top + 1];
      count := total;
      var k := lo;
      assert Entries(fs[..lo], lo) == [];
      assert WrittenTo(was, rstack[..], lo, lo);
      while k <= top
        invariant lo <= k <= top + 1
        invariant WrittenTo(was, rstack[..], lo, k)
        invariant out == old(out) + Entries(fs[..k], lo)
        invariant count == total - |Entries(fs[..k], lo)|
      {
        hide WrittenTo, Entries;
        EntriesSnoc(fs, k, lo);
        WrittenStep(was, rstack[..], lo, k);
        if !rstack[k].norecord {
          out := out + [Entry(rstack[k].start, rstack[k].func, rstack[k].depth)];
          rstack[k] := rstack[k].(written := true);
          count := count - 1;
        }
        k := k + 1;
      }
      WrittenIsMark(was, rstack[..], lo, k);
      assert fs[..k] == fs && was[..k] == fs && rstack[..][..k] == rstack[..k];
    }

    /** record_trace_data: ENTRYs of unwritten frames bottom up, then this frame's EXIT if it
        has ended. Its closing assertion on the record count always holds. */
    method RecordTraceData(top: nat)
      requires Valid() && top < cfg.maxStack
      modifies this`out, rstack
      ensures rstack[..top + 1] == RecordTrace(old(rstack[..top + 1])).0
      ensures out == old(out) + RecordTrace(old(rstack[..top + 1])).1
      ensures forall i :: top < i < rstack.Length ==> rstack[i] == old(rstack[i])
    {
      ghost var fs := rstack[..top + 1];
      var lo, count := CountUnwritten(top);
      if rstack[top].end != 0 {
        count := count + 1;
      }
      count := WriteEntries(lo, top, count);
      ghost var marked := rstack[..top + 1];
      assert marked[top].end == fs[top].end && marked[top].func == fs[top].func && marked[top].depth == fs[top].depth;
      if rstack[top].end != 0 {
        out := out + [Exit(rstack[top].end, rstack[top].func, rstack[top].depth)];
        rstack[top] := rstack[top].(written := true);
        count := count - 1;
        assert rstack[..top + 1] == marked[top := marked[top].(written := true)];
      }
      assert count == 0;
    }

    /** mcount_entry_filter_check past the stack check. */
    method FilterCheck(f: Func) returns (accepted: bool, matched: Option<Mode>)
      requires Valid()
      modifies this`inCount, this`outCount, this`depth
      ensures var v := CygprofStack.FilterCheck(cfg, old(Ctl(inCount, outCount, depth)), f);
              Ctl(inCount, outCount, depth) == v.ctl && accepted == v.accepted && matched == v.matched
    {
      if outCount > 0 {
        return false, None;
      }
      matched := if f in cfg.filters then Some(cfg.filters[f]) else None;
      if matched.Some? {
        if matched.value.In? {
          inCount := inCount + 1;
        } else {
          outCount := outCount + 1;
        }
        depth := 0;
      } else if ModeIn(cfg) && inCount == 0 {
        return false, None;
      }
      if depth >= cfg.limit {
        return false, matched;
      }
      depth := depth + 1;
      accepted := true;
    }

    /** __cygprof_entry. */
    method CygprofEntry(f: Func, now: nat)
      requires Valid()
      modifies this, rstack
      ensures Abs() == Enter(cfg, old(Abs()), f, now)
    {
      hide RecordTrace, CygprofStack.FilterCheck;
      if idx >= cfg.maxStack {
        if !warned {
          RecordTraceData(cfg.maxStack - 1);
          warned := true;
        }
        idx := idx + 1;
        return;
      }
      warned := false;
      var savedDepth, traced := depth, outCount == 0;
      var accepted, matched := FilterCheck(f);
      var norecord := !accepted || outCount > 0 || (inCount == 0 && ModeIn(cfg));
      rstack[idx] := Frame(f, recordIdx, if accepted then now else 0, 0, norecord,
                           matched == Some(In), matched == Some(Out),
                           traced && f in cfg.callers, traced && f in cfg.traced, false, savedDepth);
      idx := idx + 1;
      if !norecord {
        recordIdx := recordIdx + 1;
      }
    }

    /** mcount_exit_filter_record for the top frame, whose end time is set. */
    method ExitFilterRecord(top: nat)
      requires Valid() && top < cfg.maxStack && idx == top + 1
      modifies this`inCount, this`outCount, this`depth, this`recordIdx, this`out, rstack
      ensures var fr := old(rstack[top]);
              && Ctl(inCount, outCount, depth) == Restored(old(Ctl(inCount, outCount, depth)), fr)
              && recordIdx == (if fr.norecord || old(recordIdx) == 0 then old(recordIdx) else old(recordIdx) - 1)
              && var fs := old(rstack[..top + 1]);
                 if !fr.norecord && Triggers(cfg, fr)
                 then out == old(out) + RecordTrace(fs).1 && rstack[..top + 1] == RecordTrace(fs).0
                 else out == old(out) && rstack[..top + 1] == fs
    {
      var fr := rstack[top];
      if fr.filtered {
        inCount := inCount - 1;
      } else if fr.notrace {
        outCount := outCount - 1;
      }
      depth := fr.savedDepth;
      if !fr.norecord {
        if recordIdx > 0 {
          recordIdx := recordIdx - 1;
        }
        if Triggers(cfg, fr) {
          RecordTraceData(top);
        }
      }
    }

    /** __cygprof_exit. */
    method CygprofExit(now: nat)
      requires Valid() && idx > 0
      modifies this, rstack
      ensures Abs() == Leave(cfg, old(Abs()), now)
    {
      hide RecordTrace, Triggers, Restored;
      if idx > cfg.maxStack {
        idx := idx - 1;
        return;
      }
      var top := idx - 1;
      if !rstack[top].norecord {
        rstack[top] := rstack[top].(end := now);
      }
      assert rstack[..idx] == old(rstack[..idx])[top := rstack[top]];
      ExitFilterRecord(top);
      ghost var fs := rstack[..top + 1];
      idx := top;
      assert rstack[..idx] == fs[..top];
    }
  }
}
