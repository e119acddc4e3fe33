/** get_shmem_buffer and get_new_shmem_buffer (libmcount/record.c) as the loops they are,
    run by one thread with nobody interfering, and proved to be the very sequence of
    indivisible actions that BufferProtocol interleaves. */
module ShmemThread {
  import opened BufferProtocol

  /** The thread is still looking for a buffer. */
  predicate Switching(th: Tracee) {
    th.phase.Scanning? || th.phase.Marking? || th.phase.Clearing? || th.phase.Shrinking? || th.phase.Announcing?
  }

  function Stage(p: Phase): nat {
    match p
    case Scanning(_, _) => 5
    case Marking(_, _) => 4
    case Clearing(_) => 3
    case Shrinking(_, _, _) => 2
    case Announcing(_) => 1
    case _ => 0
  }

  function Remaining(th: Tracee): int {
    match th.phase
    case Scanning(i, _) => th.nrBuf - i
    case Shrinking(j, _, _) => th.nrBuf - j
    case _ => 0
  }

  predicate WellPlaced(th: Tracee) {
    && IndexOk(th)
    && !th.dead
    && (th.phase.Scanning? ==> th.phase.i <= th.nrBuf)
    && (th.phase.Shrinking? ==> th.phase.j <= th.nrBuf)
    && (th.phase.Clearing? || th.phase.Shrinking? ==> th.bufs[th.curr].flag.recording)
  }

  /** The actions of a thread that switches buffers, up to the first one after the switch. */
  function Alone(th: Tracee, mapped: bool, sent: seq<Note>): (r: (Tracee, seq<Note>))
    requires WellPlaced(th)
    ensures WellPlaced(r.0) && !Switching(r.0)
    decreases Stage(th.phase), Remaining(th)
  {
    if Switching(th) then
      var (th', more) := TraceeStep(th, Go(mapped, []), 0);
      Alone(th', mapped, sent + more)
    else (th, sent)
  }

  /** The first of the buffers k..n that nobody records to, or n. */
  function FirstFreeFrom(bufs: seq<Shm>, n: nat, k: nat): (i: nat)
    requires k <= n <= |bufs|
    ensures k <= i <= n
    ensures forall x :: k <= x < i ==> bufs[x].flag.recording
    ensures i < n ==> !bufs[i].flag.recording
    decreases n - k
  {
    if k < n && bufs[k].flag.recording then FirstFreeFrom(bufs, n, k + 1) else k
  }

  /** How many of the buffers k..n are unused: WRITTEN, and nothing else. */
  function Unused(bufs: seq<Shm>, k: nat, n: nat): (c: nat)
    requires n <= |bufs|
    decreases n - k
  {
    if k >= n then 0 else (if bufs[k].flag == WRITTEN_ONLY then 1 else 0) + Unused(bufs, k + 1, n)
  }

  ghost predicate OthersKept(bufs: seq<Shm>, bufs': seq<Shm>, f: nat) {
    |bufs| <= |bufs'| && forall k :: 0 <= k < |bufs| && k != f ==> bufs'[k] == bufs[k]
  }

  lemma {:induction false} UnusedFew(bufs: seq<Shm>, k: nat, n: nat)
    requires n <= |bufs|
    ensures Unused(bufs, k, n) <= if k < n then n - k else 0
    decreases n - k
  {
    if k < n {
      UnusedFew(bufs, k + 1, n);
    }
  }

  lemma {:induction false} UnusedSame(bufs: seq<Shm>, bufs': seq<Shm>, k: nat, n: nat)
    requires n <= |bufs| == |bufs'| && forall i :: k <= i < n ==> bufs[i] == bufs'[i]
    ensures Unused(bufs, k, n) == Unused(bufs', k, n)
    decreases n - k
  {
    if k < n {
      UnusedSame(bufs, bufs', k + 1, n);
    }
  }

  lemma AnnounceSettles(th: Tracee, mapped: bool)
    requires WellPlaced(th) && th.phase.Announcing?
    ensures var (r, sent) := Alone(th, mapped, []);
            && r.curr == th.curr && sent == [RecStart(th.curr)] && r.bufs == th.bufs && r.nrBuf == th.nrBuf
            && (r.phase == if th.losts > 0 then Losing(th.phase.todo) else Putting(th.phase.todo))
  {
    var sent: seq<Note> := [RecStart(th.curr)];
    assert [] + sent == sent;
  }

  lemma {:induction false} ShrinkSettles(th: Tracee, mapped: bool)
    requires WellPlaced(th) && th.phase.Shrinking?
    ensures var (r, sent) := Alone(th, mapped, []);
            && r.curr == th.curr && sent == [RecStart(th.curr)] && r.bufs == th.bufs
            && (r.phase == if th.losts > 0 then Losing(th.phase.todo) else Putting(th.phase.todo))
            && r.nrBuf == if th.phase.count + Unused(th.bufs, th.phase.j, th.nrBuf) >= 3
                             && th.bufs[th.nrBuf - 1].flag == WRITTEN_ONLY then th.nrBuf - 1 else th.nrBuf
    decreases th.nrBuf - th.phase.j
  {
    var (th', more) := TraceeStep(th, Go(mapped, []), 0);
    assert [] + more == [];
    if th'.phase.Shrinking? {
      ShrinkSettles(th', mapped);
    } else {
      AnnounceSettles(th', mapped);
    }
  }

  /** The switch took buffer f: it alone is emptied, marked and announced, and of the first n
      buffers the last is given up iff it and at least three behind f are unused. */
  ghost predicate Took(bufs: seq<Shm>, n: nat, f: nat, r: Tracee, sent: seq<Note>)
    requires 0 < n <= |bufs|
  {
    && r.curr == f < |r.bufs| && sent == [RecStart(f)] && OthersKept(bufs, r.bufs, f)
    && r.bufs[f].flag.recording && r.bufs[f].data == []
    && r.nrBuf == if Unused(bufs, f + 1, n) >= 3 && bufs[n - 1].flag == WRITTEN_ONLY then n - 1 else n
  }

  lemma ClearSettles(th: Tracee, mapped: bool)
    requires WellPlaced(th) && th.phase.Clearing?
    ensures var (r, sent) := Alone(th, mapped, []);
            && Took(th.bufs, th.nrBuf, th.curr, r, sent)
            && (r.phase == if th.losts > 0 then Losing(th.phase.todo) else Putting(th.phase.todo))
  {
    var th' := TraceeStep(th, Go(mapped, []), 0).0;
    assert [] + TraceeStep(th, Go(mapped, []), 0).1 == [];
    assert Alone(th, mapped, []) == Alone(th', mapped, []);
    hide Unused, Alone;
    UnusedFew(th.bufs, th.curr + 1, th.nrBuf);
    UnusedSame(th.bufs, th'.bufs, th.curr + 1, th.nrBuf);
    if th'.phase.Shrinking? {
      ShrinkSettles(th', mapped);
    } else {
      AnnounceSettles(th', mapped);
    }
  }

  lemma MarkSettles(th: Tracee, mapped: bool)
    requires WellPlaced(th) && th.phase.Marking?
    ensures var (r, sent) := Alone(th, mapped, []);
            && Took(th.bufs, th.nrBuf, th.phase.i, r, sent)
            && (r.phase == if th.losts > 0 then Losing(th.phase.todo) else Putting(th.phase.todo))
  {
    var f := th.phase.i;
    var th' := TraceeStep(th, Go(mapped, []), 0).0;
    assert [] + TraceeStep(th, Go(mapped, []), 0).1 == [];
    assert Alone(th, mapped, []) == Alone(th', mapped, []);
    hide Alone, Unused;
    ClearSettles(th', mapped);
    UnusedSame(th.bufs, th'.bufs, f + 1, th.nrBuf);
    var (r, _) := Alone(th', mapped, []);
    assert OthersKept(th.bufs, r.bufs, f);
    assert th'.bufs[th.nrBuf - 1].flag == th.bufs[th.nrBuf - 1].flag || f == th.nrBuf - 1;
    UnusedFew(th.bufs, f + 1, th.nrBuf);
  }

  /** One step of the scan. */
  lemma ScanStep(th: Tracee, mapped: bool)
    requires WellPlaced(th) && th.phase.Scanning?
    ensures var (th', more) := TraceeStep(th, Go(mapped, []), 0);
            var i, todo := th.phase.i, th.phase.todo;
            && more == [] && WellPlaced(th') && Alone(th, mapped, []) == Alone(th', mapped, [])
            && if i < th.nrBuf then
                 th' == th.(phase := if th.bufs[i].flag.recording then Scanning(i + 1, todo) else Marking(i, todo))
               else if mapped then
                 && th'.phase == Marking(i, todo) && th'.nrBuf == i + 1 && th'.losts == th.losts
                 && OthersKept(th.bufs, th'.bufs, i)
               else th' == th.(losts := th.losts + 2, curr := -1, phase := Idle) && Alone(th', mapped, []) == (th', [])
  {
    var (th', more) := TraceeStep(th, Go(mapped, []), 0);
    assert [] + more == [];
  }

  /** What a switch did that found f the first free of n buffers (or n, if none is): it took that
      one or a new one, or counts two losses if there is none to be had. */
  ghost predicate Switched(bufs: seq<Shm>, n: nat, losts: nat, todo: seq<Bytes>, f: nat, mapped: bool,
                           r: Tracee, sent: seq<Note>)
    requires f <= n <= |bufs|
  {
    if f == n && !mapped then
      r.curr == -1 && sent == [] && r.bufs == bufs && r.nrBuf == n && r.losts == losts + 2 && r.phase == Idle
    else
      && (r.phase == if losts > 0 then Losing(todo) else Putting(todo))
      && if f < n then Took(bufs, n, f, r, sent)
         else
           && r.curr == f < |r.bufs| && sent == [RecStart(f)] && OthersKept(bufs, r.bufs, f)
           && r.bufs[f].flag.recording && r.bufs[f].data == [] && r.nrBuf == n + 1
  }

  lemma ReuseSettles(th: Tracee, mapped: bool)
    requires WellPlaced(th) && th.phase.Scanning? && th.phase.i < th.nrBuf && !th.bufs[th.phase.i].flag.recording
    ensures var (r, sent) := Alone(th, mapped, []);
            Switched(th.bufs, th.nrBuf, th.losts, th.phase.todo, th.phase.i, mapped, r, sent)
  {
    ScanStep(th, mapped);
    hide TraceeStep, Alone, Took, WellPlaced;
    MarkSettles(TraceeStep(th, Go(mapped, []), 0).0, mapped);
  }

  lemma NewSettles(th: Tracee, mapped: bool)
    requires WellPlaced(th) && th.phase.Scanning? && th.phase.i == th.nrBuf
    ensures var (r, sent) := Alone(th, mapped, []);
            Switched(th.bufs, th.nrBuf, th.losts, th.phase.todo, th.phase.i, mapped, r, sent)
  {
    ScanStep(th, mapped);
    hide TraceeStep, Alone, WellPlaced;
    if mapped {
      MarkSettles(TraceeStep(th, Go(mapped, []), 0).0, mapped);
    }
  }

  /** A switch chooses the first free buffer or a new one, empties it, marks it RECORDING,
      announces exactly it, and touches no other buffer; the last buffer is given up iff it and at
      least three behind the chosen one are unused. Without a buffer two losses are counted. */
  lemma {:induction false} SwitchChooses(th: Tracee, mapped: bool)
    requires WellPlaced(th) && th.phase.Scanning?
    ensures var (r, sent) := Alone(th, mapped, []);
            var f := FirstFreeFrom(th.bufs, th.nrBuf, th.phase.i);
            Switched(th.bufs, th.nrBuf, th.losts, th.phase.todo, f, mapped, r, sent)
    decreases th.nrBuf - th.phase.i
  {
    hide TraceeStep, Alone, Switched;
    if th.phase.i == th.nrBuf {
      NewSettles(th, mapped);
    } else if th.bufs[th.phase.i].flag.recording {
      ScanStep(th, mapped);
      SwitchChooses(TraceeStep(th, Go(mapped, []), 0).0, mapped);
    } else {
      ReuseSettles(th, mapped);
    }
  }

  /** A record goes into the current buffer iff it fits, to the last byte; otherwise the buffer, if
      there is one, is announced as finished and the search for another begins. */
  lemma BeginFits(th: Tracee, act: Act, maxSize: nat)
    requires Enabled(th, act) && IndexOk(th) && th.phase.Idle? && act.Begin?
    ensures var (r, sent) := TraceeStep(th, act, maxSize);
            if th.curr >= 0 && |th.bufs[th.curr].data| + act.need <= maxSize
            then r == th.(phase := Putting(act.pieces)) && sent == []
            else r == th.(phase := Scanning(0, act.pieces)) && sent == if th.curr >= 0 then [RecEnd(th.curr)] else []
  {
  }

  /** A thread that finishes announces its current buffer, and does nothing any more. */
  lemma FinishEnds(th: Tracee, maxSize: nat, act: Act)
    requires Enabled(th, Finish) && IndexOk(th)
    ensures th.phase.Idle?
    ensures var (r, sent) := TraceeStep(th, Finish, maxSize);
            && r.curr == -1 && r.bufs == th.bufs && r.log == th.log && !Enabled(r, act)
            && sent == if th.curr >= 0 && th.bufs[th.curr].flag.recording then [RecEnd(th.curr)] else []
  {
  }

  /** One more step of the shrinking loop, which sends nothing. */
  lemma ShrinkStep(th: Tracee, mapped: bool, sent: seq<Note>)
    requires WellPlaced(th) && th.phase.Shrinking?
    ensures WellPlaced(TraceeStep(th, Go(mapped, []), 0).0)
    ensures Alone(th, mapped, sent) == Alone(TraceeStep(th, Go(mapped, []), 0).0, mapped, sent)
  {
    assert sent + [] == sent;
  }

  /** struct mcount_shmem as an object. */
  class Shmem {
    var bufs: seq<Shm>
    var nrBuf: nat
    var curr: int
    var losts: nat
    var sent: seq<Note>

    constructor ()
      ensures bufs == [FRESH, FRESH] && nrBuf == 2 && curr == 0 && losts == 0 && sent == []
    {
      bufs, nrBuf, curr, losts, sent := [FRESH, FRESH], 2, 0, 0, [];
    }

    ghost function At(phase: Phase): Tracee
      reads this
    {
      Tracee(bufs, nrBuf, curr, losts, phase, false, [])
    }

    ghost predicate Valid()
      reads this
    {
      2 <= nrBuf <= |bufs| && -1 <= curr < nrBuf
    }

    /** The loop that always takes the first buffer available. */
    method Scan(mapped: bool, ghost todo: seq<Bytes>, ghost goal: (Tracee, seq<Note>)) returns (idx: nat)
      requires Valid() && Alone(At(Scanning(0, todo)), mapped, sent) == goal
      ensures idx <= nrBuf && (idx < nrBuf ==> !bufs[idx].flag.recording)
      ensures Alone(At(Scanning(idx, todo)), mapped, sent) == goal
    {
      idx := 0;
      while idx < nrBuf && bufs[idx].flag.recording
        invariant idx <= nrBuf
        invariant Alone(At(Scanning(idx, todo)), mapped, sent) == goal
      {
        assert sent + [] == sent;
        idx := idx + 1;
      }
    }

    /** The REC_START message for the current buffer. */
    method Announce(mapped: bool, ghost todo: seq<Bytes>, ghost goal: (Tracee, seq<Note>))
      requires 0 <= curr < nrBuf <= |bufs|
      requires Alone(At(Announcing(todo)), mapped, sent) == goal
      modifies this`sent
      ensures At(goal.0.phase) == goal.0 && sent == goal.1
    {
      ghost var last := if losts > 0 then Losing(todo) else Putting(todo);
      assert goal == Alone(At(last), mapped, sent + [RecStart(curr)]) == (At(last), sent + [RecStart(curr)]);
      sent := sent + [RecStart(curr)];
    }

    /** The loop that frees the last buffer when three or more behind the chosen one are idle. */
    method Shrink(idx: nat, mapped: bool, ghost todo: seq<Bytes>, ghost goal: (Tracee, seq<Note>))
      requires idx + 3 <= nrBuf <= |bufs| && curr == idx
      requires bufs[idx].flag.recording
      requires Alone(At(Shrinking(idx + 1, 0, todo)), mapped, sent) == goal
      modifies this
      ensures idx < nrBuf <= |bufs| && curr == idx
      ensures bufs == old(bufs) && losts == old(losts) && sent == old(sent)
      ensures Alone(At(Announcing(todo)), mapped, sent) == goal
    {
      hide Alone;
      var i, count := idx + 1, 0;
      while i < nrBuf
        invariant idx + 1 <= i <= nrBuf
        invariant At(Idle) == old(At(Idle)) && sent == old(sent)
        invariant Alone(At(Shrinking(i, count, todo)), mapped, sent) == goal
      {
        ShrinkStep(At(Shrinking(i, count, todo)), mapped, sent);
        if bufs[i].flag == WRITTEN_ONLY {
          count := count + 1;
        }
        i := i + 1;
      }
      ShrinkStep(At(Shrinking(i, count, todo)), mapped, sent);
      if count >= 3 && bufs[nrBuf - 1].flag == WRITTEN_ONLY {
        nrBuf := nrBuf - 1;
      }
    }

    /** The chosen buffer: mark it RECORDING, empty it, shrink the tail, announce it. */
    method Start(idx: nat, mapped: bool, ghost todo: seq<Bytes>, ghost goal: (Tracee, seq<Note>))
      requires idx < nrBuf <= |bufs|
      requires Alone(At(Marking(idx, todo)), mapped, sent) == goal
      modifies this
      ensures At(goal.0.phase) == goal.0 && sent == goal.1
      ensures idx < nrBuf <= |bufs| && curr == idx
    {
      assert sent + [] == sent;
      bufs := SetFlag(bufs, idx, bufs[idx].flag.(recording := true));
      curr := idx;
      assert Alone(At(Clearing(todo)), mapped, sent) == goal;
      bufs := SetData(bufs, idx, []);
      if idx + 3 <= nrBuf {
        Shrink(idx, mapped, todo, goal);
      }
      assert Alone(At(Announcing(todo)), mapped, sent) == goal;
      Announce(mapped, todo, goal);
    }

    /** get_new_shmem_buffer: scan, map or give up, then start the chosen buffer. */
    method GetNewShmemBuffer(mapped: bool, ghost todo: seq<Bytes>)
      requires Valid()
      modifies this
      ensures var (r, more) := Alone(old(At(Scanning(0, todo))), mapped, old(sent));
              At(r.phase) == r && sent == more
      ensures nrBuf <= |bufs| && -1 <= curr < nrBuf
    {
      ghost var goal := Alone(At(Scanning(0, todo)), mapped, sent);
      var idx := Scan(mapped, todo, goal);
      assert sent + [] == sent;
      if idx == nrBuf {
        if !mapped {
          losts := losts + 2;
          curr := -1;
          return;
        }
        bufs := if nrBuf < |bufs| then bufs[nrBuf := FRESH] else bufs + [FRESH];
        nrBuf := nrBuf + 1;
      }
      Start(idx, mapped, todo, goal);
    }
  }
}
