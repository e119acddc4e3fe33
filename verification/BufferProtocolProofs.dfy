/** Every action on a thread's buffers keeps the conveyor-belt invariant of BufferProtocol. */
module BufferProtocolProofs {
  import opened BufferProtocol

  // ----- sequences of names and messages -----

  lemma Regroup(a: Bytes, b: Bytes, c: Bytes)
    ensures a + (b + c) == (a + b) + c
  {
  }

  lemma {:induction false} FlatAppend(bufs: seq<Shm>, p: seq<nat>, q: seq<nat>)
    ensures Flat(bufs, p + q) == Flat(bufs, p) + Flat(bufs, q)
  {
    if p == [] {
      assert p + q == q;
    } else {
      assert (p + q)[1..] == p[1..] + q;
      FlatAppend(bufs, p[1..], q);
    }
  }

  lemma FlatOne(bufs: seq<Shm>, i: nat)
    ensures Flat(bufs, [i]) == DataOf(bufs, i)
  {
    assert [i][1..] == [];
  }

  lemma {:induction false} FlatFrame(bufs: seq<Shm>, bufs': seq<Shm>, q: seq<nat>)
    requires forall i :: i in q ==> DataOf(bufs, i) == DataOf(bufs', i)
    ensures Flat(bufs, q) == Flat(bufs', q)
  {
    if q != [] {
      assert q[0] in q;
      FlatFrame(bufs, bufs', q[1..]);
    }
  }

  lemma {:induction false} StartsAppend(p: seq<Note>, q: seq<Note>)
    ensures Starts(p + q) == Starts(p) + Starts(q)
  {
    if p == [] {
      assert p + q == q;
    } else {
      assert (p + q)[1..] == p[1..] + q;
      StartsAppend(p[1..], q);
      var first := if p[0].RecStart? then [p[0].i] else [];
      assert first + (Starts(p[1..]) + Starts(q)) == (first + Starts(p[1..])) + Starts(q);
    }
  }

  lemma {:induction false} FollowAppend(c: Cursor, p: seq<Note>, q: seq<Note>)
    ensures Follow(c, p + q) == Follow(Follow(c, p), q)
    decreases |p|
  {
    if p == [] {
      assert p + q == q;
    } else {
      assert (p + q)[1..] == p[1..] + q;
      FollowAppend(Advance(c, p[0]), p[1..], q);
    }
  }

  lemma {:induction false} BrokenStays(p: seq<Note>)
    ensures Follow(Broken, p) == Broken
    decreases |p|
  {
    if p != [] {
      BrokenStays(p[1..]);
    }
  }

  /** The open buffer is the last one announced. */
  lemma {:induction false} OpenIsLast(c: Cursor, p: seq<Note>, i: nat)
    requires Follow(c, p) == Open(i)
    ensures Starts(p) == [] ==> c == Open(i)
    ensures Starts(p) != [] ==> Starts(p)[|Starts(p)| - 1] == i
    decreases |p|
  {
    if p != [] {
      OpenIsLast(Advance(c, p[0]), p[1..], i);
      if p[0].RecEnd? && Starts(p[1..]) == [] {
        assert false;
      }
    }
  }

  lemma OpenEndsBelt(v: Local, i: nat)
    requires ServerOk(v.srv) && Follow(CursorOf(v.open), v.pipe) == Open(i)
    ensures v.open + Starts(v.pipe) != [] && Belt(v)[|Belt(v)| - 1] == i
  {
    BrokenStays(v.pipe);
    OpenIsLast(CursorOf(v.open), v.pipe, i);
  }

  // ----- the thread's own actions -----

  /** What one action appends to the thread's log. */
  function Appended(th: Tracee, act: Act): Bytes {
    if th.phase.Losing? && act.Go? then act.lost
    else if th.phase.Putting? && th.phase.todo != [] then th.phase.todo[0]
    else []
  }

  /** Between its REC_START and its WRITTEN flag a buffer that is not the open one is never
      chosen, written to, cleared or unmapped by the traced thread, whatever it does. */
  lemma InFlightUntouched(th: Tracee, belt: seq<nat>, act: Act, maxSize: nat, i: nat)
    requires ThreadInv(th, belt) && Enabled(th, act)
    requires i in belt && OpenOf(th) != Open(i)
    ensures i < TraceeStep(th, act, maxSize).0.nrBuf <= |TraceeStep(th, act, maxSize).0.bufs|
    ensures TraceeStep(th, act, maxSize).0.bufs[i] == th.bufs[i]
  {
    assert i < th.nrBuf;
  }

  /** The open buffer only grows, by exactly what is logged. */
  lemma OpenGrows(th: Tracee, belt: seq<nat>, act: Act, maxSize: nat, i: nat)
    requires ThreadInv(th, belt) && Enabled(th, act)
    requires OpenOf(th) == Open(i)
    ensures i < |th.bufs| && i < |TraceeStep(th, act, maxSize).0.bufs|
    ensures TraceeStep(th, act, maxSize).0.bufs[i].data == th.bufs[i].data + Appended(th, act)
  {
  }

  lemma AppendsOnlyWhenOpen(th: Tracee, belt: seq<nat>, act: Act, maxSize: nat)
    requires ThreadInv(th, belt) && Enabled(th, act)
    ensures TraceeStep(th, act, maxSize).0.log == th.log + Appended(th, act)
    ensures Appended(th, act) != [] ==> OpenOf(th) == Open(th.curr)
  {
  }

  lemma MessageMatchesPhase(th: Tracee, belt: seq<nat>, act: Act, maxSize: nat)
    requires ThreadInv(th, belt) && Enabled(th, act)
    ensures var (th', sent) := TraceeStep(th, act, maxSize);
            && Follow(OpenOf(th), sent) == OpenOf(th')
            && (forall i :: i in Starts(sent) ==> i !in belt && DataOf(th'.bufs, i) == [])
            && (sent == [] || (|sent| == 1 && Starts(sent) == if sent[0].RecStart? then [sent[0].i] else []))
  {
    var (th', sent) := TraceeStep(th, act, maxSize);
    if sent != [] {
      assert sent == [sent[0]] && sent[1..] == [];
      assert Starts(sent[1..]) == [];
      assert Follow(OpenOf(th), sent) == Follow(Advance(OpenOf(th), sent[0]), []);
    }
  }

  lemma ThreadKeepsBirth(th: Tracee, belt: seq<nat>, act: Act, maxSize: nat)
    requires ThreadInv(th, belt) && Enabled(th, act)
    requires th.phase.Unborn? || th.phase.Arming? || th.phase.Idle?
    ensures ThreadInv(TraceeStep(th, act, maxSize).0, belt)
  {
  }

  lemma ThreadKeepsScan(th: Tracee, belt: seq<nat>, act: Act, maxSize: nat)
    requires ThreadInv(th, belt) && Enabled(th, act)
    requires th.phase.Scanning? || th.phase.Marking?
    ensures ThreadInv(TraceeStep(th, act, maxSize).0, belt)
  {
  }

  lemma ThreadKeepsReset(th: Tracee, belt: seq<nat>, act: Act, maxSize: nat)
    requires ThreadInv(th, belt) && Enabled(th, act)
    requires th.phase.Clearing? || th.phase.Losing? || th.phase.Putting?
    ensures ThreadInv(TraceeStep(th, act, maxSize).0, belt)
  {
  }

  /** Only a buffer that is WRITTEN and nothing else is unmapped, so it is on no belt. */
  lemma ThreadKeepsShrink(th: Tracee, belt: seq<nat>, act: Act, maxSize: nat)
    requires ThreadInv(th, belt) && Enabled(th, act) && th.phase.Shrinking?
    ensures ThreadInv(TraceeStep(th, act, maxSize).0, belt)
  {
    var th' := TraceeStep(th, act, maxSize).0;
    if th'.nrBuf < th.nrBuf {
      assert !th.bufs[th'.nrBuf].flag.recording;
    }
  }

  lemma ThreadKeepsStart(th: Tracee, belt: seq<nat>, act: Act, maxSize: nat)
    requires ThreadInv(th, belt) && Enabled(th, act)
    requires th.phase.Prepared? || th.phase.Announcing?
    ensures var (th', sent) := TraceeStep(th, act, maxSize);
            sent != [] && sent[0].RecStart? && ThreadInv(th', belt + [sent[0].i])
  {
  }

  lemma ThreadKeeps(th: Tracee, belt: seq<nat>, act: Act, maxSize: nat)
    requires ThreadInv(th, belt) && Enabled(th, act)
    ensures var (th', sent) := TraceeStep(th, act, maxSize); ThreadInv(th', belt + Starts(sent))
  {
    MessageMatchesPhase(th, belt, act, maxSize);
    assert belt + [] == belt;
    match th.phase
    case Unborn => ThreadKeepsBirth(th, belt, act, maxSize);
    case Prepared => ThreadKeepsStart(th, belt, act, maxSize);
    case Arming => ThreadKeepsBirth(th, belt, act, maxSize);
    case Idle => ThreadKeepsBirth(th, belt, act, maxSize);
    case Scanning(_, _) => ThreadKeepsScan(th, belt, act, maxSize);
    case Marking(_, _) => ThreadKeepsScan(th, belt, act, maxSize);
    case Clearing(_) => ThreadKeepsReset(th, belt, act, maxSize);
    case Shrinking(_, _, _) => ThreadKeepsShrink(th, belt, act, maxSize);
    case Announcing(_) => ThreadKeepsStart(th, belt, act, maxSize);
    case Losing(_) => ThreadKeepsReset(th, belt, act, maxSize);
    case Putting(_) => ThreadKeepsReset(th, belt, act, maxSize);
  }

  /** The local view after an action of the thread. */
  function AfterTracee(v: Local, act: Act, maxSize: nat): Local
    requires IndexOk(v.th) && Enabled(v.th, act)
  {
    var (th, sent) := TraceeStep(v.th, act, maxSize);
    v.(th := th, pipe := v.pipe + sent)
  }

  /** If only the last buffer of the load grows, the flattened load grows by the same bytes. */
  lemma LastGrows(bufs: seq<Shm>, bufs': seq<Shm>, front: seq<nat>, last: nat, more: Bytes)
    requires forall n :: n in front ==> DataOf(bufs, n) == DataOf(bufs', n)
    requires DataOf(bufs', last) == DataOf(bufs, last) + more
    ensures Flat(bufs', front + [last]) == Flat(bufs, front + [last]) + more
  {
    FlatAppend(bufs, front, [last]);
    FlatAppend(bufs', front, [last]);
    FlatFrame(bufs, bufs', front);
    FlatOne(bufs, last);
    FlatOne(bufs', last);
    Regroup(Flat(bufs, front), DataOf(bufs, last), more);
  }

  /** What the belt and the load gain from the messages of one action. */
  lemma SentMoves(v: Local, sent: seq<Note>)
    requires ServerOk(v.srv)
    ensures Belt(v.(pipe := v.pipe + sent)) == Belt(v) + Starts(sent)
    ensures Load(v.(pipe := v.pipe + sent)) == Load(v) + Starts(sent)
    ensures Follow(CursorOf(v.open), v.pipe + sent) == Follow(Follow(CursorOf(v.open), v.pipe), sent)
  {
    StartsAppend(v.pipe, sent);
    FollowAppend(CursorOf(v.open), v.pipe, sent);
  }

  /** The open buffer is the last of the load and nowhere else in it. */
  lemma OpenEndsLoad(v: Local, i: nat)
    requires Shape(v) && NoDup(Belt(v)) && Follow(CursorOf(v.open), v.pipe) == Open(i)
    ensures Load(v) != [] && Load(v)[|Load(v)| - 1] == i
    ensures i !in Load(v)[..|Load(v)| - 1]
  {
    OpenEndsBelt(v, i);
    var belt, load := Belt(v), Load(v);
    var skip := |belt| - |load|;
    assert load != [];
    assert load == belt[skip..];
  }

  lemma LoadInBelt(v: Local)
    requires ServerOk(v.srv)
    ensures forall n :: n in Load(v) ==> n in Belt(v)
  {
  }

  lemma Fits(v: Local)
    requires Inv(v)
    ensures ServerOk(v.srv) && IndexOk(v.th) && ThreadInv(v.th, Belt(v))
  {
  }

  lemma OnBelt(th: Tracee, belt: seq<nat>, n: nat)
    requires ThreadInv(th, belt) && n in belt
    ensures n < th.nrBuf <= |th.bufs|
  {
  }

  lemma LoadUntouched(v: Local, act: Act, maxSize: nat, n: nat)
    requires Inv(v) && Enabled(v.th, act) && n in Load(v) && OpenOf(v.th) != Open(n)
    ensures DataOf(v.th.bufs, n) == DataOf(TraceeStep(v.th, act, maxSize).0.bufs, n)
  {
    hide TraceeStep, ThreadInv, Flat, Follow, OpenOf;
    LoadInBelt(v);
    InFlightUntouched(v.th, Belt(v), act, maxSize, n);
    OnBelt(v.th, Belt(v), n);
  }

  /** The open buffer ends the load, is there once, and grows by what is appended. */
  lemma OpenLast(v: Local, act: Act, maxSize: nat, i: nat)
    requires Inv(v) && Enabled(v.th, act) && OpenOf(v.th) == Open(i)
    ensures Load(v) != [] && Load(v)[|Load(v)| - 1] == i && i !in Load(v)[..|Load(v)| - 1]
    ensures DataOf(TraceeStep(v.th, act, maxSize).0.bufs, i) == DataOf(v.th.bufs, i) + Appended(v.th, act)
  {
    hide TraceeStep, Flat, Follow, OpenOf, Belt, Load, BeltGuarded, PhaseOk;
    OpenEndsLoad(v, i);
    OpenGrows(v.th, Belt(v), act, maxSize, i);
  }

  /** The saved part of the log does not change; the load accounts for what is appended. */
  lemma LoadGrows(v: Local, act: Act, maxSize: nat)
    requires Inv(v) && Enabled(v.th, act)
    ensures Flat(TraceeStep(v.th, act, maxSize).0.bufs, Load(v)) == Flat(v.th.bufs, Load(v)) + Appended(v.th, act)
  {
    hide *;
    Fits(v);
    var bufs', load := TraceeStep(v.th, act, maxSize).0.bufs, Load(v);
    AppendsOnlyWhenOpen(v.th, Belt(v), act, maxSize);
    forall n | n in load && OpenOf(v.th) != Open(n) ensures DataOf(v.th.bufs, n) == DataOf(bufs', n) {
      LoadUntouched(v, act, maxSize, n);
    }
    if OpenOf(v.th).Open? {
      var i := OpenOf(v.th).i;
      OpenLast(v, act, maxSize, i);
      var front := load[..|load| - 1];
      assert load == front + [i];
      LastGrows(v.th.bufs, bufs', front, i, Appended(v.th, act));
    } else {
      FlatFrame(v.th.bufs, bufs', load);
      assert Appended(v.th, act) == [];
      assert Flat(v.th.bufs, load) + [] == Flat(v.th.bufs, load);
    }
  }

  /** A buffer just announced holds nothing. */
  lemma EmptyStarts(bufs: seq<Shm>, sent: seq<Note>, belt: seq<nat>)
    requires forall i :: i in Starts(sent) ==> i !in belt && DataOf(bufs, i) == []
    requires sent == [] || (|sent| == 1 && Starts(sent) == if sent[0].RecStart? then [sent[0].i] else [])
    ensures Flat(bufs, Starts(sent)) == []
  {
    if Starts(sent) != [] {
      FlatOne(bufs, sent[0].i);
      assert sent[0].i in Starts(sent);
    }
  }

  /** The equation between log, file and load after an action of the thread. */
  lemma TraceeKeepsEquation(v: Local, act: Act, maxSize: nat)
    requires Inv(v) && Enabled(v.th, act)
    ensures var (th', sent) := TraceeStep(v.th, act, maxSize);
            th'.log == v.file + Flat(th'.bufs, Load(v) + Starts(sent))
  {
    var (th', sent) := TraceeStep(v.th, act, maxSize);
    MessageMatchesPhase(v.th, Belt(v), act, maxSize);
    AppendsOnlyWhenOpen(v.th, Belt(v), act, maxSize);
    LoadGrows(v, act, maxSize);
    FlatAppend(th'.bufs, Load(v), Starts(sent));
    EmptyStarts(th'.bufs, sent, Belt(v));
    hide TraceeStep, ThreadInv, Flat, Belt, Load, Starts, Appended, Follow, OpenOf;
    Regroup(v.file, Flat(v.th.bufs, Load(v)), Appended(v.th, act));
    assert Flat(th'.bufs, Load(v)) + [] == Flat(th'.bufs, Load(v));
  }

  /** The served buffer is not the open one. */
  lemma ServedNotOpen(v: Local)
    requires Inv(v) && v.srv.Server? && v.srv.phase.Releasing?
    ensures Belt(v) != [] && Belt(v)[0] == v.srv.head[v.srv.phase.k]
    ensures OpenOf(v.th) != Open(Belt(v)[0])
  {
    if OpenOf(v.th) == Open(Belt(v)[0]) {
      OpenEndsBelt(v, Belt(v)[0]);
      assert false;
    }
  }

  /** The buffer whose WRITTEN flag is about to be raised stays empty. */
  lemma TraceeKeepsShape(v: Local, act: Act, maxSize: nat)
    requires Inv(v) && Enabled(v.th, act)
    ensures Shape(AfterTracee(v, act, maxSize))
  {
    assert IndexOk(v.th);
    hide TraceeStep, ThreadInv, Flat, Follow, OpenOf, Belt;
    if v.srv.Server? && v.srv.phase.Releasing? {
      var i := v.srv.head[v.srv.phase.k];
      ServedNotOpen(v);
      assert i in Belt(v);
      InFlightUntouched(v.th, Belt(v), act, maxSize, i);
      OnBelt(v.th, Belt(v), i);
    }
  }

  /** The belt and the load are names only. */
  lemma BeltIgnoresThread(v: Local, th: Tracee)
    requires ServerOk(v.srv)
    ensures Belt(v.(th := th)) == Belt(v) && Load(v.(th := th)) == Load(v)
  {
  }

  lemma NotBroken(v: Local)
    requires Inv(v)
    ensures Shape(v) && Follow(CursorOf(v.open), v.pipe) != Broken
  {
    hide ThreadInv, Flat, Belt, Load, Shape, Follow;
  }

  lemma TraceeKeepsInv(v: Local, act: Act, maxSize: nat)
    requires Inv(v) && Enabled(v.th, act)
    ensures Inv(AfterTracee(v, act, maxSize))
  {
    var (th', sent) := TraceeStep(v.th, act, maxSize);
    ThreadKeeps(v.th, Belt(v), act, maxSize);
    MessageMatchesPhase(v.th, Belt(v), act, maxSize);
    TraceeKeepsEquation(v, act, maxSize);
    TraceeKeepsShape(v, act, maxSize);
    SentMoves(v, sent);
    BeltIgnoresThread(v.(pipe := v.pipe + sent), th');
    hide TraceeStep, ThreadInv, Flat, Belt, Load, Starts, Follow, OpenOf, Shape;
    NotBroken(v);
  }

  // ----- the main thread -----

  /** Passing buffers on without touching them keeps the invariant. */
  lemma Passed(v: Local, v': Local)
    requires Sound(v) && Shape(v') && v'.th == v.th && v'.file == v.file
    requires Belt(v') == Belt(v) && Load(v') == Load(v)
    ensures Sound(v')
  {
    hide ThreadInv, Flat, Belt, Load, Shape;
  }

  lemma ReceiveMoves(v: Local)
    requires Shape(v) && v.pipe != [] && v.hand == []
    requires Follow(CursorOf(v.open), v.pipe) != Broken
    ensures var v' := ReceiveStep(v);
            && Shape(v') && Belt(v') == Belt(v) && Load(v') == Load(v)
            && Follow(CursorOf(v'.open), v'.pipe) == Follow(CursorOf(v.open), v.pipe)
  {
    hide Held;
    BrokenStays(v.pipe[1..]);
    var v' := ReceiveStep(v);
    match v.pipe[0]
    case RecStart(i) =>
      assert v.open == [];
      assert Belt(v') == Belt(v);
    case RecEnd(i) =>
      assert v.open == [i];
      assert Belt(v') == Belt(v);
  }

  lemma ReceiveKeeps(v: Local)
    requires Inv(v) && v.pipe != [] && v.hand == []
    ensures Inv(ReceiveStep(v))
  {
    hide Sound, Follow, Belt, Load, Shape;
    NotBroken(v);
    ReceiveMoves(v);
    Passed(v, ReceiveStep(v));
  }

  /** A shorter belt of the same buffers asks for less. */
  lemma ThreadInvShorter(th: Tracee, belt: seq<nat>, belt': seq<nat>)
    requires ThreadInv(th, belt) && NoDup(belt')
    requires forall i :: i in belt' ==> i in belt
    ensures ThreadInv(th, belt')
  {
    if belt' != [] {
      assert belt'[0] in belt';
      assert belt != [];
    }
  }

  /** Sound in three parts. */
  lemma SoundParts(v: Local)
    ensures Sound(v) <==> Shape(v) && ThreadInv(v.th, Belt(v)) && v.th.log == v.file + Flat(v.th.bufs, Load(v))
  {
    hide Shape, ThreadInv, Flat, Belt, Load;
  }

  lemma Grouped(a: seq<nat>, b: seq<nat>, c: seq<nat>, d: seq<nat>)
    ensures a + b + c + d == a + b + (c + d)
  {
  }

  lemma FirstOut(a: seq<nat>, b: seq<nat>)
    requires a != []
    ensures (a + b)[1..] == a[1..] + b
  {
  }

  lemma Around(front: seq<nat>, i: nat, open: seq<nat>, starts: seq<nat>)
    ensures var back := open + starts;
            && front + [i] + open + starts == front + [i] + back
            && front + [] + open + starts == front + back
            && (front != [] ==> && (front + [i] + back)[1..] == front[1..] + [i] + back
                                && (front + back)[1..] == front[1..] + back)
  {
    var back := open + starts;
    Grouped(front, [i], open, starts);
    Grouped(front, [], open, starts);
    assert front + [] == front;
    if front != [] {
      FirstOut(front + [i], back);
      FirstOut(front, [i]);
      FirstOut(front, back);
    }
  }

  lemma HeldServing(srv: Server)
    requires ServerOk(srv)
    ensures srv.Server? && !srv.phase.Checking? ==> Held(srv) != []
  {
  }

  /** Belt and load around the buffer in the main thread's hands. */
  lemma HandSplits(v: Local, i: nat)
    requires Shape(v) && v.hand == [i]
    ensures Shape(v.(hand := []))
    ensures var front, back := Held(v.srv) + v.queue, v.open + Starts(v.pipe);
            && Belt(v) == front + [i] + back && Belt(v.(hand := [])) == front + back
            && if Load(v) == Belt(v) then Load(v.(hand := [])) == front + back
               else front != [] && Load(v) == front[1..] + [i] + back && Load(v.(hand := [])) == front[1..] + back
  {
    HeldServing(v.srv);
    hide Starts, Held;
    Around(Held(v.srv) + v.queue, i, v.open, Starts(v.pipe));
  }

  lemma ShapeServer(v: Local)
    requires Shape(v)
    ensures ServerOk(v.srv)
  {
  }

  lemma DropEmpty(bufs: seq<Shm>, front: seq<nat>, i: nat, back: seq<nat>)
    requires DataOf(bufs, i) == []
    ensures Flat(bufs, front + [i] + back) == Flat(bufs, front + back)
  {
    FlatAppend(bufs, front + [i], back);
    FlatAppend(bufs, front, [i]);
    FlatAppend(bufs, front, back);
    FlatOne(bufs, i);
  }

  lemma NoDupWithout(front: seq<nat>, i: nat, back: seq<nat>)
    requires NoDup(front + [i] + back)
    ensures NoDup(front + back)
    ensures forall n :: n in front + back ==> n in front + [i] + back
  {
    var q, r := front + [i] + back, front + back;
    assert forall a :: 0 <= a < |r| ==> r[a] == q[if a < |front| then a else a + 1];
  }

  lemma ExamineMoves(v: Local, i: nat)
    requires Shape(v) && v.hand == [i] && NoDup(Belt(v))
    requires DataOf(v.th.bufs, i) == []
    ensures NoDup(Belt(v.(hand := []))) && forall n :: n in Belt(v.(hand := [])) ==> n in Belt(v)
    ensures Flat(v.th.bufs, Load(v.(hand := []))) == Flat(v.th.bufs, Load(v))
  {
    HandSplits(v, i);
    ShapeServer(v);
    hide *;
    var front, back := Held(v.srv) + v.queue, v.open + Starts(v.pipe);
    NoDupWithout(front, i, back);
    if Load(v) == Belt(v) {
      DropEmpty(v.th.bufs, front, i, back);
    } else {
      DropEmpty(v.th.bufs, front[1..], i, back);
    }
  }

  lemma ThreadNoDup(th: Tracee, belt: seq<nat>)
    requires ThreadInv(th, belt)
    ensures NoDup(belt)
  {
  }

  /** A buffer that is not worth keeping holds no data. */
  lemma UnworthyIsEmpty(th: Tracee, belt: seq<nat>, i: nat)
    requires ThreadInv(th, belt) && i in belt
    ensures !Worthwhile(th, i) ==> DataOf(th.bufs, i) == []
  {
  }

  lemma ExamineKeeps(v: Local)
    requires Sound(v) && |v.hand| == 1
    ensures Sound(ExamineStep(v))
  {
    var v' := ExamineStep(v);
    if v' != v {
      var i := v.hand[0];
      SoundParts(v);
      SoundParts(v');
      UnworthyIsEmpty(v.th, Belt(v), i) by {
        assert i in Belt(v);
      }
      ThreadNoDup(v.th, Belt(v));
      assert v' == v.(hand := []);
      assert !Worthwhile(v.th, i);
      HandSplits(v, i);
      hide *;
      assert v.hand == [i];
      ExamineMoves(v, i);
      ThreadInvShorter(v.th, Belt(v), Belt(v'));
    }
  }

  lemma EnqueueMoves(v: Local)
    requires Shape(v)
    ensures Shape(EnqueueStep(v)) && Belt(EnqueueStep(v)) == Belt(v) && Load(EnqueueStep(v)) == Load(v)
  {
    assert Belt(EnqueueStep(v)) == Belt(v);
  }

  lemma EnqueueKeeps(v: Local)
    requires Sound(v)
    ensures Sound(EnqueueStep(v))
  {
    hide ThreadInv, Flat, Belt, Load, Shape;
    EnqueueMoves(v);
    Passed(v, EnqueueStep(v));
  }

  lemma FlushMoves(v: Local)
    requires Shape(v) && v.open != [] && v.hand == []
    ensures Shape(FlushStep(v)) && Belt(FlushStep(v)) == Belt(v) && Load(FlushStep(v)) == Load(v)
  {
    hide Starts, Held;
    var front := Held(v.srv) + v.queue;
    assert front + [] + v.open == front + [v.open[0]] + v.open[1..];
  }

  lemma FlushKeeps(v: Local)
    requires Sound(v) && v.open != [] && v.hand == []
    ensures Sound(FlushStep(v))
  {
    hide ThreadInv, Flat, Belt, Load, Shape;
    FlushMoves(v);
    Passed(v, FlushStep(v));
  }

  /** Resetting the size of the first buffer of the belt, once its data is saved. */
  lemma ResetFirst(th: Tracee, belt: seq<nat>)
    requires ThreadInv(th, belt) && belt != []
    ensures belt[0] < |th.bufs|
    ensures ThreadInv(th.(bufs := SetData(th.bufs, belt[0], [])), belt)
    ensures Flat(SetData(th.bufs, belt[0], []), belt[1..]) == Flat(th.bufs, belt[1..])
  {
    var i := belt[0];
    assert i in belt;
    FlatFrame(th.bufs, SetData(th.bufs, i, []), belt[1..]);
  }

  lemma DrainMoves(v: Local)
    requires Shape(v) && v.srv.NoServer? && v.queue != []
    ensures var v' := DrainStep(v);
            && Belt(v) != [] && Belt(v)[0] == v.queue[0] && Load(v) == Belt(v)
            && Shape(v') && Belt(v') == Belt(v)[1..] == Load(v')
  {
    hide Starts;
    var rest := v.hand + v.open + Starts(v.pipe);
    assert Held(v.srv) == [];
    assert Belt(v) == v.queue + rest;
    assert Belt(DrainStep(v)) == v.queue[1..] + rest;
  }

  lemma FlatFirst(bufs: seq<Shm>, q: seq<nat>)
    requires q != []
    ensures Flat(bufs, q) == DataOf(bufs, q[0]) + Flat(bufs, q[1..])
  {
  }

  lemma DrainKeeps(v: Local)
    requires Sound(v) && v.srv.NoServer? && v.queue != []
    ensures Sound(DrainStep(v))
  {
    var v' := DrainStep(v);
    SoundParts(v);
    SoundParts(v');
    DrainMoves(v);
    hide ThreadInv, Flat, Belt, Load, Shape, Sound;
    var belt := Belt(v);
    ResetFirst(v.th, belt);
    ThreadInvShorter(v'.th, belt, Belt(v')) by {
      ThreadNoDup(v.th, belt);
    }
    FlatFirst(v.th.bufs, belt);
    Regroup(v.file, DataOf(v.th.bufs, belt[0]), Flat(v.th.bufs, belt[1..]));
  }

  // ----- the writer -----

  lemma TakeMoves(v: Local)
    requires Shape(v) && v.srv.NoServer? && v.queue != []
    ensures Shape(TakeStep(v)) && Belt(TakeStep(v)) == Belt(v) && Load(TakeStep(v)) == Load(v)
  {
    assert Belt(TakeStep(v)) == Belt(v);
  }

  lemma TakeKeeps(v: Local)
    requires Inv(v) && v.srv.NoServer? && v.queue != []
    ensures Inv(TakeStep(v))
  {
    hide Sound, Follow, Belt, Load, Shape;
    NotBroken(v);
    TakeMoves(v);
    Passed(v, TakeStep(v));
  }

  /** Raising WRITTEN on the first buffer of the belt takes it off the belt. It cannot be
      the open one, which is the last. */
  lemma ReleaseFirst(th: Tracee, belt: seq<nat>)
    requires ThreadInv(th, belt) && belt != [] && DataOf(th.bufs, belt[0]) == []
    requires OpenOf(th) != Open(belt[0])
    ensures belt[0] < |th.bufs|
    ensures ThreadInv(th.(bufs := SetFlag(th.bufs, belt[0], WRITTEN_ONLY)), belt[1..])
    ensures Flat(SetFlag(th.bufs, belt[0], WRITTEN_ONLY), belt[1..]) == Flat(th.bufs, belt[1..])
  {
    var i := belt[0];
    assert i in belt;
    ThreadInvShorter(th, belt, belt[1..]);
    FlatFrame(th.bufs, SetFlag(th.bufs, i, WRITTEN_ONLY), belt[1..]);
  }

  /** Between saving and releasing the belt stands still. */
  lemma ServingMoves(v: Local)
    requires Shape(v) && v.srv.Server? && (v.srv.phase.Saving? || v.srv.phase.Zeroing?)
    ensures Belt(v) != [] && Belt(v)[0] == v.srv.head[v.srv.phase.k]
    ensures Belt(WriteStep(v)) == Belt(v)
    ensures Load(v) == if v.srv.phase.Saving? then Belt(v) else Belt(v)[1..]
    ensures Load(WriteStep(v)) == Belt(v)[1..]
  {
    hide Starts;
    assert Held(v.srv)[0] == v.srv.head[v.srv.phase.k];
    assert Held(WriteStep(v).srv) == Held(v.srv);
  }

  lemma SaveKeeps(v: Local)
    requires Inv(v) && v.srv.Server? && v.srv.phase.Saving?
    ensures Inv(WriteStep(v))
  {
    var v', belt := WriteStep(v), Belt(v);
    SoundParts(v);
    SoundParts(v');
    ServingMoves(v);
    hide ThreadInv, Flat, Belt, Load, Sound, Follow;
    FlatFirst(v.th.bufs, belt);
    Regroup(v.file, DataOf(v.th.bufs, belt[0]), Flat(v.th.bufs, belt[1..]));
  }

  lemma ZeroStep(v: Local, i: nat)
    requires Shape(v) && v.srv.Server? && v.srv.phase.Zeroing? && i == v.srv.head[v.srv.phase.k]
    ensures var v' := WriteStep(v);
            && v'.file == v.file && v'.open == v.open && v'.pipe == v.pipe
            && (i < |v.th.bufs| ==> v'.th == v.th.(bufs := SetData(v.th.bufs, i, [])))
            && Shape(v') && OpenOf(v'.th) == OpenOf(v.th)
  {
  }

  lemma InvOf(v: Local)
    ensures Inv(v) <==> Sound(v) && Follow(CursorOf(v.open), v.pipe) == OpenOf(v.th)
  {
    hide Sound, Follow;
  }

  lemma ZeroKeeps(v: Local)
    requires Inv(v) && v.srv.Server? && v.srv.phase.Zeroing?
    ensures Inv(WriteStep(v))
  {
    var v', i := WriteStep(v), v.srv.head[v.srv.phase.k];
    SoundParts(v);
    SoundParts(v');
    ServingMoves(v);
    ZeroStep(v, i);
    assert Follow(CursorOf(v.open), v.pipe) == OpenOf(v.th);
    hide *;
    ResetFirst(v.th, Belt(v));
    InvOf(v');
  }

  lemma HeldRest(v: Local)
    requires ServerOk(v.srv) && v.srv.Server? && v.srv.phase.Releasing?
    ensures ServerOk(WriteStep(v).srv) && Held(v.srv) == [v.srv.head[v.srv.phase.k]] + Held(WriteStep(v).srv)
  {
    var k := v.srv.phase.k;
    assert v.srv.head[k..] == [v.srv.head[k]] + v.srv.head[k + 1..];
  }

  lemma DropFirst(i: nat, a: seq<nat>, b: seq<nat>)
    ensures ([i] + a + b)[1..] == a + b
  {
  }

  lemma ReleaseMoves(v: Local)
    requires ServerOk(v.srv) && v.srv.Server? && v.srv.phase.Releasing?
    ensures ServerOk(WriteStep(v).srv)
    ensures Belt(WriteStep(v)) == Belt(v)[1..] == Load(v) == Load(WriteStep(v))
  {
    hide Starts;
    var k, v' := v.srv.phase.k, WriteStep(v);
    HeldRest(v);
    hide Held;
    DropFirst(v.srv.head[k], Held(v'.srv), v.queue + v.hand + v.open + Starts(v.pipe));
    assert Held(v.srv) + v.queue + v.hand + v.open + Starts(v.pipe) ==
           Held(v.srv) + (v.queue + v.hand + v.open + Starts(v.pipe));
    assert Held(v'.srv) + v.queue + v.hand + v.open + Starts(v.pipe) ==
           Held(v'.srv) + (v.queue + v.hand + v.open + Starts(v.pipe));
  }

  lemma ReleaseKeeps(v: Local)
    requires Inv(v) && v.srv.Server? && v.srv.phase.Releasing?
    ensures Inv(WriteStep(v))
  {
    ServedNotOpen(v);
    ReleaseFirst(v.th, Belt(v));
    ReleaseMoves(v);
  }

  lemma CheckMoves(v: Local)
    requires Shape(v) && v.srv.Server? && v.srv.phase.Checking?
    ensures Shape(WriteStep(v)) && Belt(WriteStep(v)) == Belt(v) && Load(WriteStep(v)) == Load(v)
  {
    assert Belt(WriteStep(v)) == Belt(v);
  }

  lemma CheckKeeps(v: Local)
    requires Inv(v) && v.srv.Server? && v.srv.phase.Checking?
    ensures Inv(WriteStep(v))
  {
    hide Sound, Follow, Belt, Load, Shape;
    NotBroken(v);
    CheckMoves(v);
    Passed(v, WriteStep(v));
  }

  lemma WriteKeeps(v: Local)
    requires Inv(v) && v.srv.Server?
    ensures Inv(WriteStep(v))
  {
    match v.srv.phase
    case Saving(_) => SaveKeeps(v);
    case Zeroing(_) => ZeroKeeps(v);
    case Releasing(_) => ReleaseKeeps(v);
    case Checking => CheckKeeps(v);
  }
}
