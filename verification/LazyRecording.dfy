/** Recording on demand produces the serialisation of the call tree pruned to the calls worth
    keeping, and what is produced is well nested at every moment. */
module LazyRecording {
  import opened CygprofStack
  import opened FilterPath
  import opened Wrappers

  // ----- the invariant of the shadow stack -----

  predicate Recorded(cfg: Config, path: seq<Func>) {
    PathAccepted(cfg, path) && |path| <= cfg.maxStack
  }

  /** How many of the calls on the path are recorded. */
  function RecordedOn(cfg: Config, path: seq<Func>): nat {
    if path == [] then 0
    else RecordedOn(cfg, path[..|path| - 1]) + if Recorded(cfg, path) then 1 else 0
  }

  /** The frame of the last call of the path, but for its times and its WRITTEN flag. */
  ghost predicate FrameFits(cfg: Config, fr: Frame, path: seq<Func>)
    requires path != []
  {
    var front := path[..|path| - 1];
    && fr.func == path[|path| - 1]
    && fr.depth == RecordedOn(cfg, front)
    && fr.norecord == !PathAccepted(cfg, path)
    && fr.savedDepth == CtlAt(cfg, front).depth
    && fr.filtered == (VerdictAt(cfg, path).matched == Some(In))
    && fr.notrace == (VerdictAt(cfg, path).matched == Some(Out))
    && fr.end == 0
    && (fr.written ==> !fr.norecord)
    && (!fr.norecord ==> fr.caller == (fr.func in cfg.callers) && fr.trace == (fr.func in cfg.traced))
  }

  ghost predicate StackFits(cfg: Config, fs: seq<Frame>, path: seq<Func>) {
    && |fs| <= |path|
    && forall i :: 0 <= i < |fs| ==> FrameFits(cfg, fs[i], path[..i + 1])
  }

  /** A recordable frame below a written one is written. */
  ghost predicate WrittenBelow(fs: seq<Frame>) {
    forall i, j :: 0 <= i < j < |fs| && fs[j].written ==> fs[i].norecord || fs[i].written
  }

  ghost predicate AllWritten(fs: seq<Frame>) {
    forall i :: 0 <= i < |fs| ==> fs[i].norecord || fs[i].written
  }

  function Held(cfg: Config, path: seq<Func>): seq<Func> {
    path[..Min(|path|, cfg.maxStack)]
  }

  /** The functions whose ENTRY is open after the records, or None if some EXIT does not
      close the latest open ENTRY of its function or some depth is not the nesting level. */
  function Nesting(recs: seq<Rec>): Option<seq<Func>> {
    if recs == [] then Some([])
    else
      var before := Nesting(recs[..|recs| - 1]);
      if before.None? then None
      else
        var open := before.value;
        match recs[|recs| - 1]
        case Entry(_, f, d) => if d == |open| then Some(open + [f]) else None
        case Exit(_, f, d) =>
          if open != [] && open[|open| - 1] == f && d == |open| - 1 then Some(open[..|open| - 1]) else None
  }

  /** The functions of the written frames, lowest first. */
  function OpenCalls(fs: seq<Frame>): seq<Func> {
    if fs == [] then []
    else OpenCalls(fs[..|fs| - 1]) + if fs[|fs| - 1].written then [fs[|fs| - 1].func] else []
  }

  /** The whole thread state is determined by the path of active calls, except for times,
      WRITTEN flags and the overflow warning. */
  ghost predicate Inv(cfg: Config, t: Thread, path: seq<Func>) {
    && Shaped(cfg, t)
    && t.idx == |path|
    && t.ctl == CtlAt(cfg, Held(cfg, path))
    && t.recordIdx == RecordedOn(cfg, Held(cfg, path))
    && StackFits(cfg, t.rstack, path)
    && WrittenBelow(t.rstack)
    && (t.warned ==> AllWritten(t.rstack))
    && Nesting(t.out) == Some(OpenCalls(t.rstack))
  }

  // ----- well-nested records -----

  /** The functions of the recordable frames, lowest first. */
  function Recordable(fs: seq<Frame>): seq<Func> {
    if fs == [] then []
    else Recordable(fs[..|fs| - 1]) + if fs[|fs| - 1].norecord then [] else [fs[|fs| - 1].func]
  }

  // ----- flushing -----

  /** The frames with every recordable one written. */
  function MarkAll(fs: seq<Frame>): (r: seq<Frame>)
    ensures |r| == |fs|
  {
    seq(|fs|, i requires 0 <= i < |fs| => if fs[i].norecord then fs[i] else fs[i].(written := true))
  }

  /** The ENTRY records still owed for the frames. */
  function Pending(fs: seq<Frame>): seq<Rec> {
    if fs == [] then []
    else
      var top := fs[|fs| - 1];
      Pending(fs[..|fs| - 1]) + if top.norecord || top.written then [] else [Entry(top.start, top.func, top.depth)]
  }

  lemma {:induction false} FirstUnwrittenIs(fs: seq<Frame>)
    ensures var lo := FirstUnwritten(fs);
            && (forall i :: lo <= i < |fs| ==> !fs[i].written)
            && (lo > 0 ==> fs[lo - 1].written)
  {
    if fs != [] && !fs[|fs| - 1].written {
      FirstUnwrittenIs(fs[..|fs| - 1]);
    }
  }

  lemma {:induction false} NothingPending(fs: seq<Frame>)
    requires AllWritten(fs)
    ensures Pending(fs) == []
  {
    if fs != [] {
      NothingPending(fs[..|fs| - 1]);
    }
  }

  lemma {:induction false} EntriesArePending(fs: seq<Frame>, lo: nat)
    requires lo <= |fs|
    requires forall i :: lo <= i < |fs| ==> !fs[i].written
    requires forall i :: 0 <= i < lo ==> fs[i].norecord || fs[i].written
    ensures Entries(fs, lo) == Pending(fs)
  {
    if fs != [] {
      if lo == |fs| {
        NothingPending(fs);
      } else {
        EntriesArePending(fs[..|fs| - 1], lo);
      }
    }
  }

  /** The backward walk may stop at the first written frame. */
  lemma FlushIsPending(fs: seq<Frame>)
    requires WrittenBelow(fs)
    ensures Flush(fs) == (MarkAll(fs), Pending(fs))
  {
    var lo := FirstUnwritten(fs);
    FirstUnwrittenIs(fs);
    EntriesArePending(fs, lo);
    assert Mark(fs, lo) == MarkAll(fs);
  }

  lemma MarkAllWrites(fs: seq<Frame>)
    ensures AllWritten(MarkAll(fs)) && WrittenBelow(MarkAll(fs))
    ensures AllWritten(fs) ==> MarkAll(fs) == fs
    ensures MarkAll(MarkAll(fs)) == MarkAll(fs)
    ensures Pending(MarkAll(fs)) == []
  {
    NothingPending(MarkAll(fs));
  }

  lemma MarkAllSnoc(fs: seq<Frame>, fr: Frame)
    ensures MarkAll(fs + [fr]) == MarkAll(fs) + [if fr.norecord then fr else fr.(written := true)]
    ensures Pending(fs + [fr]) ==
            Pending(fs) + if fr.norecord || fr.written then [] else [Entry(fr.start, fr.func, fr.depth)]
  {
    assert (fs + [fr])[..|fs|] == fs;
  }

  lemma StackFitsMark(cfg: Config, fs: seq<Frame>, path: seq<Func>)
    requires StackFits(cfg, fs, path)
    ensures StackFits(cfg, MarkAll(fs), path)
  {
    forall i | 0 <= i < |fs| ensures FrameFits(cfg, MarkAll(fs)[i], path[..i + 1]) {
      assert FrameFits(cfg, fs[i], path[..i + 1]);
    }
  }

  // ----- nesting under a flush -----

  lemma NestOne(recs: seq<Rec>, r: Rec)
    ensures Nesting(recs + [r]) ==
            if Nesting(recs).None? then None
            else
              var open := Nesting(recs).value;
              if r.Entry? then (if r.depth == |open| then Some(open + [r.func]) else None)
              else if open != [] && open[|open| - 1] == r.func && r.depth == |open| - 1
              then Some(open[..|open| - 1]) else None
  {
    assert (recs + [r])[..|recs|] == recs;
  }

  lemma {:induction false} RecordableCount(cfg: Config, fs: seq<Frame>, path: seq<Func>)
    requires StackFits(cfg, fs, path) && |fs| <= cfg.maxStack
    ensures |Recordable(fs)| == RecordedOn(cfg, path[..|fs|])
  {
    if fs != [] {
      var n := |fs| - 1;
      RecordableCount(cfg, fs[..n], path);
      assert FrameFits(cfg, fs[n], path[..n + 1]);
      assert path[..n + 1][..n] == path[..n];
    }
  }

  lemma {:induction false} AllWrittenOpen(fs: seq<Frame>)
    requires AllWritten(fs) && forall i :: 0 <= i < |fs| ==> fs[i].written ==> !fs[i].norecord
    ensures OpenCalls(fs) == Recordable(fs)
  {
    if fs != [] {
      AllWrittenOpen(fs[..|fs| - 1]);
    }
  }

  /** One more unwritten frame, at the nesting level the frames below it open. */
  lemma NestTop(front: seq<Frame>, top: Frame, out: seq<Rec>)
    requires Nesting(out + Pending(front)) == Some(Recordable(front))
    requires !top.written && (!top.norecord ==> top.depth == |Recordable(front)|)
    ensures Nesting(out + Pending(front + [top])) == Some(Recordable(front + [top]))
  {
    hide Nesting;
    assert (front + [top])[..|front|] == front;
    if top.norecord {
      assert Pending(front + [top]) == Pending(front);
      assert Recordable(front + [top]) == Recordable(front);
    } else {
      var r := Entry(top.start, top.func, top.depth);
      assert out + Pending(front + [top]) == (out + Pending(front)) + [r];
      NestOne(out + Pending(front), r);
    }
  }

  lemma FrontParts(cfg: Config, fs: seq<Frame>, path: seq<Func>)
    requires StackFits(cfg, fs, path) && WrittenBelow(fs) && fs != []
    ensures StackFits(cfg, fs[..|fs| - 1], path) && WrittenBelow(fs[..|fs| - 1])
  {
    hide FrameFits;
  }

  lemma OpenBelow(fs: seq<Frame>)
    requires fs != [] && !fs[|fs| - 1].written
    ensures OpenCalls(fs) == OpenCalls(fs[..|fs| - 1])
  {
    assert OpenCalls(fs[..|fs| - 1]) + [] == OpenCalls(fs[..|fs| - 1]);
  }

  /** What a stack whose top is unwritten says about the frames below it. */
  lemma FrontFits(cfg: Config, fs: seq<Frame>, path: seq<Func>)
    requires StackFits(cfg, fs, path) && |fs| <= cfg.maxStack && WrittenBelow(fs)
    requires fs != [] && !fs[|fs| - 1].written
    ensures var n := |fs| - 1;
            && StackFits(cfg, fs[..n], path) && WrittenBelow(fs[..n]) && OpenCalls(fs) == OpenCalls(fs[..n])
            && (!fs[n].norecord ==> fs[n].depth == |Recordable(fs[..n])|)
  {
    hide Recordable, OpenCalls, RecordedOn, PathAccepted, VerdictAt, CtlAt;
    var n := |fs| - 1;
    FrontParts(cfg, fs, path);
    OpenBelow(fs);
    RecordableCount(cfg, fs[..n], path);
    assert FrameFits(cfg, fs[n], path[..n + 1]);
    hide StackFits, WrittenBelow;
    assert path[..n + 1][..n] == path[..n];
  }

  lemma TopWritten(cfg: Config, fs: seq<Frame>, path: seq<Func>)
    requires StackFits(cfg, fs, path) && WrittenBelow(fs) && fs != [] && fs[|fs| - 1].written
    ensures AllWritten(fs) && forall i :: 0 <= i < |fs| ==> fs[i].written ==> !fs[i].norecord
  {
    forall i | 0 <= i < |fs| ensures fs[i].written ==> !fs[i].norecord {
      assert FrameFits(cfg, fs[i], path[..i + 1]);
    }
  }

  /** A flush opens exactly the unwritten recordable calls, each at its nesting level. */
  lemma {:induction false} FlushNests(cfg: Config, fs: seq<Frame>, path: seq<Func>, out: seq<Rec>)
    requires StackFits(cfg, fs, path) && |fs| <= cfg.maxStack && WrittenBelow(fs)
    requires Nesting(out) == Some(OpenCalls(fs))
    ensures Nesting(out + Pending(fs)) == Some(Recordable(fs))
  {
    hide Nesting, StackFits, WrittenBelow;
    assert out + [] == out;
    if fs != [] {
      hide OpenCalls, Recordable, Pending;
      var n := |fs| - 1;
      if fs[n].written {
        TopWritten(cfg, fs, path);
        AllWrittenOpen(fs);
        NothingPending(fs);
      } else {
        FrontFits(cfg, fs, path);
        FlushNests(cfg, fs[..n], path, out);
        NestTop(fs[..n], fs[n], out);
        assert fs == fs[..n] + [fs[n]];
      }
    }
  }

  lemma {:induction false} MarkAllOpen(fs: seq<Frame>)
    ensures Recordable(MarkAll(fs)) == Recordable(fs)
    ensures (forall i :: 0 <= i < |fs| ==> fs[i].written ==> !fs[i].norecord) ==>
              OpenCalls(MarkAll(fs)) == Recordable(fs)
  {
    if fs != [] {
      var front := fs[..|fs| - 1];
      MarkAllOpen(front);
      assert MarkAll(fs)[..|fs| - 1] == MarkAll(front);
    }
  }

  // ----- every entry and exit keeps the invariant -----

  lemma StackFitsPath(cfg: Config, fs: seq<Frame>, path: seq<Func>, path': seq<Func>)
    requires StackFits(cfg, fs, path)
    requires |fs| <= |path'| && path[..|fs|] == path'[..|fs|]
    ensures StackFits(cfg, fs, path')
  {
    forall i | 0 <= i < |fs| ensures FrameFits(cfg, fs[i], path'[..i + 1]) {
      assert FrameFits(cfg, fs[i], path[..i + 1]);
      assert path[..|fs|][..i + 1] == path[..i + 1] && path'[..|fs|][..i + 1] == path'[..i + 1];
    }
  }

  lemma OpenSnoc(fs: seq<Frame>, fr: Frame)
    ensures OpenCalls(fs + [fr]) == OpenCalls(fs) + if fr.written then [fr.func] else []
    ensures !fr.written ==> OpenCalls(fs + [fr]) == OpenCalls(fs)
    ensures Recordable(fs + [fr]) == Recordable(fs) + if fr.norecord then [] else [fr.func]
  {
    assert (fs + [fr])[..|fs|] == fs;
  }

  lemma NewFrameFits(cfg: Config, t: Thread, path: seq<Func>, f: Func, now: nat)
    requires Inv(cfg, t, path) && |path| < cfg.maxStack
    ensures FrameFits(cfg, NewFrame(cfg, t, f, now), path + [f])
    ensures RecordedOn(cfg, path + [f]) == t.recordIdx + if NewFrame(cfg, t, f, now).norecord then 0 else 1
    ensures CtlAt(cfg, path + [f]) == FilterCheck(cfg, t.ctl, f).ctl
  {
    var p := path + [f];
    assert p[..|p| - 1] == path && Held(cfg, path) == path;
    RecordIffAccepted(cfg, p);
    OutIsOne(cfg, path);
    OutIsOne(cfg, p);
    HasStep(cfg, p, Out);
  }

  /** The flush at the stack limit. */
  lemma OverflowKeeps(cfg: Config, t: Thread, path: seq<Func>)
    requires Inv(cfg, t, path) && t.rstack != []
    ensures RecordTrace(t.rstack) == (MarkAll(t.rstack), Pending(t.rstack))
    ensures Nesting(t.out + Pending(t.rstack)) == Some(OpenCalls(MarkAll(t.rstack)))
    ensures WrittenBelow(MarkAll(t.rstack)) && AllWritten(MarkAll(t.rstack))
  {
    var fs := t.rstack;
    assert FrameFits(cfg, fs[|fs| - 1], path[..|fs|]);
    FlushIsPending(fs);
    FlushNests(cfg, fs, path, t.out);
    MarkAllWrites(fs);
    forall i | 0 <= i < |fs| ensures fs[i].written ==> !fs[i].norecord {
      assert FrameFits(cfg, fs[i], path[..i + 1]);
    }
    MarkAllOpen(fs);
  }

  lemma EnterFull(cfg: Config, t: Thread, path: seq<Func>, f: Func, now: nat)
    requires Inv(cfg, t, path) && t.idx >= cfg.maxStack
    ensures Inv(cfg, Enter(cfg, t, f, now), path + [f])
  {
    hide FrameFits, Nesting, OpenCalls, CtlAt, RecordedOn, FilterCheck, RecordTrace, WrittenBelow, AllWritten;
    hide Pending, MarkAll;
    var p := path + [f];
    assert p[..|t.rstack|] == path[..|t.rstack|];
    StackFitsPath(cfg, t.rstack, path, p);
    assert Held(cfg, p) == Held(cfg, path);
    if !t.warned {
      OverflowKeeps(cfg, t, path);
      StackFitsMark(cfg, t.rstack, p);
    }
  }

  lemma StackFitsPush(cfg: Config, fs: seq<Frame>, path: seq<Func>, fr: Frame, f: Func)
    requires StackFits(cfg, fs, path) && |fs| == |path| && FrameFits(cfg, fr, path + [f])
    ensures StackFits(cfg, fs + [fr], path + [f])
  {
    hide FrameFits;
    var p := path + [f];
    assert p[..|fs|] == path[..|fs|];
    StackFitsPath(cfg, fs, path, p);
    assert p[..|fs| + 1] == p;
  }

  lemma EnterPush(cfg: Config, t: Thread, path: seq<Func>, f: Func, now: nat)
    requires Inv(cfg, t, path) && t.idx < cfg.maxStack
    ensures Inv(cfg, Enter(cfg, t, f, now), path + [f])
  {
    hide FrameFits, Nesting, OpenCalls, CtlAt, RecordedOn, FilterCheck, RecordTrace, StackFits;
    var p, fr := path + [f], NewFrame(cfg, t, f, now);
    NewFrameFits(cfg, t, path, f, now);
    assert Held(cfg, p) == p && Held(cfg, path) == path;
    OpenSnoc(t.rstack, fr);
    StackFitsPush(cfg, t.rstack, path, fr, f);
  }

  lemma EnterKeeps(cfg: Config, t: Thread, path: seq<Func>, f: Func, now: nat)
    requires Inv(cfg, t, path)
    ensures Inv(cfg, Enter(cfg, t, f, now), path + [f])
  {
    if t.idx >= cfg.maxStack {
      EnterFull(cfg, t, path, f, now);
    } else {
      EnterPush(cfg, t, path, f, now);
    }
  }

  /** record_trace_data on a recordable top frame that has ended. */
  lemma RecordTraceIs(below: seq<Frame>, top: Frame)
    requires !top.norecord && top.end != 0 && WrittenBelow(below + [top])
    ensures RecordTrace(below + [top]) ==
            (MarkAll(below) + [top.(written := true)],
             Pending(below + [top]) + [Exit(top.end, top.func, top.depth)])
  {
    var fs := below + [top];
    FlushIsPending(fs);
    MarkAllSnoc(below, top);
    var marked := MarkAll(fs);
    assert marked[|fs| - 1] == top.(written := true);
    assert marked[|fs| - 1 := marked[|fs| - 1].(written := true)] == MarkAll(below) + [top.(written := true)];
  }

  /** What mcount_exit_filter_record writes for a recordable top frame that ends at `now`. */
  lemma LeaveRecords(cfg: Config, t: Thread, path: seq<Func>, now: nat)
    requires Inv(cfg, t, path) && 0 < t.idx <= cfg.maxStack && now > 0
    requires !t.rstack[t.idx - 1].norecord && Triggers(cfg, t.rstack[t.idx - 1].(end := now))
    ensures var top := t.rstack[t.idx - 1];
            && Leave(cfg, t, now).rstack == MarkAll(t.rstack[..t.idx - 1])
            && Leave(cfg, t, now).out == t.out + (Pending(t.rstack) + [Exit(now, top.func, top.depth)])
  {
    hide FrameFits, Nesting, OpenCalls, CtlAt, RecordedOn, FilterCheck, Flush, RecordTrace, Pending, MarkAll, Triggers;
    var n := t.idx - 1;
    var top, below := t.rstack[n], t.rstack[..n];
    var fr := top.(end := now);
    assert t.rstack == below + [top] && t.rstack[n := fr] == below + [fr];
    MarkAllSnoc(below, top);
    MarkAllSnoc(below, fr);
    RecordTraceIs(below, fr);
    assert (MarkAll(below) + [fr.(written := true)])[..n] == MarkAll(below);
  }

  lemma PopKeeps(cfg: Config, t: Thread, path: seq<Func>, now: nat)
    requires Inv(cfg, t, path) && 0 < t.idx <= cfg.maxStack
    ensures var front := path[..|path| - 1];
            && Restored(t.ctl, t.rstack[t.idx - 1]) == CtlAt(cfg, front)
            && t.recordIdx == RecordedOn(cfg, front) + (if t.rstack[t.idx - 1].norecord then 0 else 1)
            && StackFits(cfg, t.rstack[..t.idx - 1], front)
            && Held(cfg, front) == front && Held(cfg, path) == path
  {
    var n := t.idx - 1;
    var front := path[..n];
    assert FrameFits(cfg, t.rstack[n], path[..n + 1]);
    assert path[..n + 1] == path;
    forall i | 0 <= i < n ensures FrameFits(cfg, t.rstack[i], front[..i + 1]) {
      assert FrameFits(cfg, t.rstack[i], path[..i + 1]);
      assert front[..i + 1] == path[..i + 1];
    }
  }

  lemma InvStack(cfg: Config, t: Thread, path: seq<Func>)
    requires Inv(cfg, t, path) && t.idx <= cfg.maxStack
    ensures |t.rstack| == t.idx == |path| && StackFits(cfg, t.rstack, path) && WrittenBelow(t.rstack)
    ensures Nesting(t.out) == Some(OpenCalls(t.rstack))
  {
    hide StackFits, WrittenBelow, Nesting, OpenCalls, CtlAt, RecordedOn;
  }

  /** The nesting level of the top frame and of those below it. */
  lemma TopFits(cfg: Config, fs: seq<Frame>, path: seq<Func>)
    requires StackFits(cfg, fs, path) && fs != [] && |fs| <= cfg.maxStack && !fs[|fs| - 1].norecord
    ensures var n := |fs| - 1;
            && Recordable(fs) == Recordable(fs[..n]) + [fs[n].func]
            && fs[n].depth == |Recordable(fs[..n])|
            && OpenCalls(MarkAll(fs[..n])) == Recordable(fs[..n])
  {
    hide OpenCalls, RecordedOn, PathAccepted, VerdictAt, CtlAt;
    var n := |fs| - 1;
    assert FrameFits(cfg, fs[n], path[..n + 1]);
    assert path[..n + 1][..n] == path[..n];
    RecordableCount(cfg, fs[..n], path);
    forall i | 0 <= i < n ensures fs[..n][i].written ==> !fs[..n][i].norecord {
      assert FrameFits(cfg, fs[i], path[..i + 1]);
    }
    MarkAllOpen(fs[..n]);
  }

  lemma RecsAssociate(a: seq<Rec>, b: seq<Rec>, c: seq<Rec>)
    ensures a + (b + c) == (a + b) + c
  {
  }

  /** The EXIT closes the call the flush has just opened, or had opened before. */
  lemma LeaveNests(cfg: Config, t: Thread, path: seq<Func>, now: nat)
    requires Inv(cfg, t, path) && 0 < t.idx <= cfg.maxStack && !t.rstack[t.idx - 1].norecord
    ensures var top := t.rstack[t.idx - 1];
            Nesting(t.out + (Pending(t.rstack) + [Exit(now, top.func, top.depth)])) ==
            Some(OpenCalls(MarkAll(t.rstack[..t.idx - 1])))
  {
    hide *;
    InvStack(cfg, t, path);
    FlushNests(cfg, t.rstack, path, t.out);
    TopFits(cfg, t.rstack, path);
    var top := t.rstack[t.idx - 1];
    var r := Exit(now, top.func, top.depth);
    RecsAssociate(t.out, Pending(t.rstack), [r]);
    NestOne(t.out + Pending(t.rstack), r);
  }

  lemma LeaveRecording(cfg: Config, t: Thread, path: seq<Func>, now: nat)
    requires Inv(cfg, t, path) && 0 < t.idx <= cfg.maxStack && now > 0
    requires !t.rstack[t.idx - 1].norecord && Triggers(cfg, t.rstack[t.idx - 1].(end := now))
    ensures Inv(cfg, Leave(cfg, t, now), path[..|path| - 1])
  {
    hide FrameFits, Nesting, OpenCalls, CtlAt, RecordedOn, FilterCheck, RecordTrace, Pending, MarkAll;
    hide PathAccepted, StackFits;
    var below, front := t.rstack[..t.idx - 1], path[..|path| - 1];
    PopKeeps(cfg, t, path, now);
    LeaveRecords(cfg, t, path, now);
    StackFitsMark(cfg, below, front);
    MarkAllWrites(below);
    LeaveNests(cfg, t, path, now);
  }

  lemma LeaveSilently(cfg: Config, t: Thread, path: seq<Func>, now: nat)
    requires Inv(cfg, t, path) && 0 < t.idx <= cfg.maxStack && now > 0
    requires t.rstack[t.idx - 1].norecord || !Triggers(cfg, t.rstack[t.idx - 1].(end := now))
    ensures Inv(cfg, Leave(cfg, t, now), path[..|path| - 1])
  {
    hide Nesting, OpenCalls, CtlAt, RecordedOn, FilterCheck, RecordTrace, PathAccepted;
    var n := t.idx - 1;
    var top, below := t.rstack[n], t.rstack[..n];
    PopKeeps(cfg, t, path, now);
    assert t.rstack == below + [top];
    OpenSnoc(below, top);
    assert FrameFits(cfg, top, path[..n + 1]);
    hide FrameFits, StackFits;
    assert !top.written;
    assert Leave(cfg, t, now).rstack == below;
  }

  lemma LeaveKeeps(cfg: Config, t: Thread, path: seq<Func>, now: nat)
    requires Inv(cfg, t, path) && path != [] && now > 0
    ensures Inv(cfg, Leave(cfg, t, now), path[..|path| - 1])
  {
    hide FrameFits, Nesting, OpenCalls, CtlAt, RecordedOn, FilterCheck, Triggers, PathAccepted;
    hide WrittenBelow, AllWritten;
    var front := path[..|path| - 1];
    if t.idx > cfg.maxStack {
      assert Held(cfg, front) == Held(cfg, path);
      assert front[..|t.rstack|] == path[..|t.rstack|];
      StackFitsPath(cfg, t.rstack, path, front);
    } else if !t.rstack[t.idx - 1].norecord && Triggers(cfg, t.rstack[t.idx - 1].(end := now)) {
      LeaveRecording(cfg, t, path, now);
    } else {
      LeaveSilently(cfg, t, path, now);
    }
  }
}
