/** Every interleaving of the pipeline keeps, for every thread id, the conveyor-belt
    invariant; hence what each data file holds at any time and at the end. */
module RecordingPipelineProofs {
  import opened BufferProtocol
  import opened BufferProtocolProofs
  import opened RecordingPipeline

  // ----- lists of names -----

  lemma {:induction false} OfTidAppend(p: seq<Name>, q: seq<Name>, t: Tid)
    ensures OfTid(p + q, t) == OfTid(p, t) + OfTid(q, t)
  {
    if p == [] {
      assert p + q == q;
    } else {
      assert (p + q)[1..] == p[1..] + q;
      OfTidAppend(p[1..], q, t);
      var first := if p[0].tid == t then [p[0]] else [];
      assert first + (OfTid(p[1..], t) + OfTid(q, t)) == (first + OfTid(p[1..], t)) + OfTid(q, t);
    }
  }

  lemma {:induction false} OfTidAll(q: seq<Name>, t: Tid)
    ensures forall k :: 0 <= k < |OfTid(q, t)| ==> OfTid(q, t)[k].tid == t
    ensures OfTid(OfTid(q, t), t) == OfTid(q, t)
  {
    if q != [] {
      OfTidAll(q[1..], t);
      assert OfTid(q, t) == (if q[0].tid == t then [q[0]] else []) + OfTid(q[1..], t);
      if q[0].tid == t {
        assert OfTid(q, t)[1..] == OfTid(q[1..], t);
      } else {
        assert OfTid(q, t) == OfTid(q[1..], t);
      }
    }
  }

  lemma {:induction false} OfTidRest(q: seq<Name>, t: Tid, u: Tid)
    ensures OfTid(NotOfTid(q, t), u) == if u == t then [] else OfTid(q, u)
  {
    if q != [] {
      OfTidRest(q[1..], t, u);
      if q[0].tid != t {
        assert NotOfTid(q, t)[1..] == NotOfTid(q[1..], t);
      } else {
        assert NotOfTid(q, t) == NotOfTid(q[1..], t);
      }
      if q[0].tid != u {
        assert OfTid(q, u) == OfTid(q[1..], u);
      }
    }
  }

  lemma IndicesCons(n: Name, q: seq<Name>)
    ensures Indices([n] + q) == [n.i] + Indices(q)
  {
  }

  lemma RemoveCons(k: nat, q: seq<nat>, i: nat)
    ensures RemoveFirst([k] + q, i) == if k == i then q else [k] + RemoveFirst(q, i)
  {
    assert ([k] + q)[1..] == q;
  }

  lemma OfTidCons(n: Name, q: seq<Name>, t: Tid)
    ensures OfTid([n] + q, t) == if n.tid == t then [n] + OfTid(q, t) else OfTid(q, t)
  {
    assert ([n] + q)[1..] == q;
  }

  lemma {:induction false} OfTidWithout(q: seq<Name>, n: Name, t: Tid)
    ensures Indices(OfTid(Without(q, n), t)) ==
            if t == n.tid then RemoveFirst(Indices(OfTid(q, t)), n.i) else Indices(OfTid(q, t))
  {
    if q != [] {
      var m, rest := q[0], q[1..];
      OfTidWithout(rest, n, t);
      assert Without(q, n) == if m == n then rest else [m] + Without(rest, n);
      assert q == [m] + rest;
      hide *;
      OfTidCons(m, rest, t);
      OfTidCons(m, Without(rest, n), t);
      IndicesCons(m, OfTid(rest, t));
      IndicesCons(m, OfTid(Without(rest, n), t));
      RemoveCons(m.i, Indices(OfTid(rest, t)), n.i);
    }
  }

  lemma IndicesAppend(p: seq<Name>, q: seq<Name>)
    ensures Indices(p + q) == Indices(p) + Indices(q)
  {
  }

  lemma OfTidOne(n: Name, t: Tid)
    ensures Indices(OfTid([n], t)) == if n.tid == t then [n.i] else []
  {
    assert [n][1..] == [];
  }

  lemma IndicesSnoc(q: seq<Name>, n: Name, t: Tid)
    ensures Indices(OfTid(q + [n], t)) == Indices(OfTid(q, t)) + if n.tid == t then [n.i] else []
  {
    OfTidAppend(q, [n], t);
    OfTidOne(n, t);
    IndicesAppend(OfTid(q, t), OfTid([n], t));
  }

  /** The first name of a list, seen by each thread. */
  lemma FirstName(q: seq<Name>, t: Tid)
    requires q != []
    ensures q[0].tid == t ==> Indices(OfTid(q, t)) != [] && Indices(OfTid(q, t))[0] == q[0].i
    ensures q[0].tid == t ==> Indices(OfTid(q, t))[1..] == Indices(OfTid(q[1..], t))
    ensures q[0].tid != t ==> OfTid(q, t) == OfTid(q[1..], t)
  {
    assert OfTid(q, t) == (if q[0].tid == t then [q[0]] else []) + OfTid(q[1..], t);
  }

  lemma {:induction false} NotesAppend(p: seq<Msg>, q: seq<Msg>, t: Tid)
    ensures NotesOf(p + q, t) == NotesOf(p, t) + NotesOf(q, t)
  {
    if p == [] {
      assert p + q == q;
    } else {
      assert (p + q)[1..] == p[1..] + q;
      NotesAppend(p[1..], q, t);
      var first := if p[0].tid == t then [p[0].note] else [];
      assert first + (NotesOf(p[1..], t) + NotesOf(q, t)) == (first + NotesOf(p[1..], t)) + NotesOf(q, t);
    }
  }

  lemma {:induction false} NotesOfTagged(t: Tid, notes: seq<Note>, u: Tid)
    ensures NotesOf(Tagged(t, notes), u) == if u == t then notes else []
  {
    if notes != [] {
      assert Tagged(t, notes)[1..] == Tagged(t, notes[1..]);
      NotesOfTagged(t, notes[1..], u);
    }
  }

  // ----- writer_list -----

  lemma ServingIs(ws: seq<Writer>, w: nat)
    requires WritersOk(ws) && w < |ws| && ws[w].listed
    ensures Serving(ws, ws[w].tid) == w
  {
  }

  lemma ServingNone(ws: seq<Writer>, t: Tid)
    ensures Serving(ws, t) == |ws| <==> forall w :: 0 <= w < |ws| && ws[w].listed ==> ws[w].tid != t
  {
  }

  lemma ServingSame(ws: seq<Writer>, ws': seq<Writer>, t: Tid)
    requires |ws| == |ws'|
    requires forall x :: 0 <= x < |ws| ==> (ws[x].listed && ws[x].tid == t <==> ws'[x].listed && ws'[x].tid == t)
    ensures Serving(ws, t) == Serving(ws', t)
  {
  }

  /** Replacing one listed writer by itself with other buffers. */
  lemma ServerChanges(ws: seq<Writer>, w: nat, wr: Writer, t: Tid)
    requires WritersOk(ws) && w < |ws| && ws[w].listed && wr.listed && wr.tid == ws[w].tid
    requires WritersOk(ws[w := wr])
    ensures t != wr.tid ==> ServerOf(ws[w := wr], t) == ServerOf(ws, t)
    ensures t == wr.tid ==> Serving(ws, t) == w
    ensures t == wr.tid ==> ServerOf(ws[w := wr], t) == Server(wr.phase, Indices(wr.head), Indices(wr.bufs))
  {
    ServingIs(ws, w);
    ServingIs(ws[w := wr], w);
    if t != wr.tid {
      ServingSame(ws, ws[w := wr], t);
    }
  }

  // ----- what the invariant gives and keeps locally -----

  lemma GoodFacts(m: Main, v: Local)
    requires Good(m, v)
    ensures Sound(v) && (!Flushed(m) ==> Inv(v))
    ensures v.srv.Server? ==> v.queue == []
  {
  }

  lemma DeadThread(th: Tracee, belt: seq<nat>)
    requires ThreadInv(th, belt)
    ensures ThreadInv(th.(dead := true), belt) && OpenOf(th.(dead := true)) == OpenOf(th)
  {
  }

  lemma DeadShape(v: Local)
    requires Shape(v)
    ensures Shape(v.(th := v.th.(dead := true)))
  {
  }

  lemma GoodKill(m: Main, v: Local)
    requires Good(m, v)
    ensures Good(m, v.(th := v.th.(dead := true)))
  {
    BeltIgnoresThread(v, v.th.(dead := true));
    hide ThreadInv, Belt, Load, Shape, Flat, Follow, OpenOf, Flushed;
    DeadThread(v.th, Belt(v));
    DeadShape(v);
  }

  lemma GoodExamine(m: Main, v: Local)
    requires Good(m, v) && |v.hand| == 1
    ensures Good(m, ExamineStep(v))
  {
    ExamineKeeps(v);
  }

  lemma GoodEnqueue(m: Main, v: Local)
    requires Good(m, v)
    ensures Good(m, EnqueueStep(v))
  {
    EnqueueKeeps(v);
  }

  /** All views are good if the changed one is and the others are the same. */
  lemma OneViewChanged(s: State, s': State, t: Tid)
    requires forall u :: Good(s.main, View(s, u))
    requires forall u :: u != t ==> View(s', u) == View(s, u)
    requires Flushed(s.main) == Flushed(s'.main)
    requires Good(s.main, View(s', t))
    ensures forall u :: Good(s'.main, View(s', u))
  {
    forall u ensures Good(s'.main, View(s', u)) {
      assert Good(s.main, View(s, u));
    }
  }

  lemma NoViewChanged(s: State, s': State)
    requires forall u :: Good(s.main, View(s, u))
    requires forall u :: View(s', u) == View(s, u)
    requires Flushed(s.main) == Flushed(s'.main)
    ensures forall u :: Good(s'.main, View(s', u))
  {
    forall u ensures Good(s'.main, View(s', u)) {
      assert Good(s.main, View(s, u));
    }
  }

  // ----- the traced threads -----

  lemma Joined(a: seq<Msg>, b: seq<Msg>, c: seq<Msg>)
    ensures a + (b + c) == a + b + c
    ensures b == [] ==> a + c + b == a + b + c
  {
  }

  /** The messages of the action join those of its thread. */
  lemma TraceeNotes(s: State, t: Tid, act: Act, u: Tid)
    requires IndexOk(ThreadOf(s, t)) && Enabled(ThreadOf(s, t), act) && !Stopped(s.main)
    requires s.connected ==> s.dropped == []
    ensures var s', notes := TraceeNext(s, t, act), NotesOf(s.pipe + s.dropped, u);
            NotesOf(s'.pipe + s'.dropped, u) ==
            if u == t then notes + TraceeStep(ThreadOf(s, t), act, s.maxSize).1 else notes
  {
    hide TraceeStep, NotesOf, Tagged;
    var s', sent := TraceeNext(s, t, act), TraceeStep(ThreadOf(s, t), act, s.maxSize).1;
    Joined(s.pipe, s.dropped, Tagged(t, sent));
    assert s'.pipe + s'.dropped == (s.pipe + s.dropped) + Tagged(t, sent);
    NotesAppend(s.pipe + s.dropped, Tagged(t, sent), u);
    NotesOfTagged(t, sent, u);
    hide *;
    assert NotesOf(s.pipe + s.dropped, u) + [] == NotesOf(s.pipe + s.dropped, u);
  }

  lemma TraceeNextView(s: State, t: Tid, act: Act, u: Tid)
    requires IndexOk(ThreadOf(s, t)) && Enabled(ThreadOf(s, t), act) && !Stopped(s.main)
    requires s.connected ==> s.dropped == []
    ensures View(TraceeNext(s, t, act), u) ==
            if u == t then AfterTracee(View(s, t), act, s.maxSize) else View(s, u)
  {
    var s' := TraceeNext(s, t, act);
    TraceeNotes(s, t, act, u);
    hide TraceeStep, ServerOf, OfTid, NotesOf, Tagged, Indices;
    var v := View(s, u);
    assert View(s', u) == v.(th := ThreadOf(s', u), pipe := NotesOf(s'.pipe + s'.dropped, u));
    assert ThreadOf(s', u) == if u == t then TraceeStep(ThreadOf(s, t), act, s.maxSize).0 else ThreadOf(s, u);
  }

  lemma ViewThread(s: State, t: Tid)
    ensures View(s, t).th == ThreadOf(s, t)
  {
  }

  lemma GoodTracee(m: Main, v: Local, act: Act, maxSize: nat)
    requires Good(m, v) && !Flushed(m) && IndexOk(v.th) && Enabled(v.th, act)
    ensures Good(m, AfterTracee(v, act, maxSize))
  {
    TraceeKeepsInv(v, act, maxSize);
  }

  lemma TraceeNextKeeps(s: State, t: Tid, act: Act)
    requires GInv(s)
    ensures GInv(TraceeNext(s, t, act))
  {
    hide Good, View, AfterTracee, TraceeStep, WritersOk;
    var s' := TraceeNext(s, t, act);
    if s' != s {
      ViewThread(s, t);
      forall u ensures View(s', u) == if u == t then AfterTracee(View(s, t), act, s.maxSize) else View(s, u) {
        TraceeNextView(s, t, act, u);
      }
      GoodTracee(s.main, View(s, t), act, s.maxSize);
      OneViewChanged(s, s', t);
    }
  }

  /** The view when only threads, writers and files have changed. */
  lemma FramedView(s: State, s': State, u: Tid)
    requires s' == s.(threads := s'.threads, files := s'.files, writers := s'.writers)
    ensures View(s', u) ==
            View(s, u).(th := ThreadOf(s', u), file := FileOf(s', u), srv := ServerOf(s'.writers, u))
    ensures View(s, u).th == ThreadOf(s, u) && View(s, u).file == FileOf(s, u)
  {
    hide NotesOf, OfTid, Indices, ServerOf, ThreadOf, FileOf, HandOf;
  }

  /** A closed pipe changes nothing that has been sent. */
  lemma HangupKeeps(s: State)
    requires GInv(s)
    ensures GInv(s.(connected := false))
  {
    hide Good, WritersOk, AllOver;
    var s' := s.(connected := false);
    forall u ensures View(s', u) == View(s, u) {}
    NoViewChanged(s, s');
  }

  lemma KillNextKeeps(s: State, t: Tid)
    requires GInv(s)
    ensures GInv(KillNext(s, t))
  {
    hide Good;
    var s' := KillNext(s, t);
    if s' != s {
      GoodKill(s.main, View(s, t));
      OneViewChanged(s, s', t);
    }
  }

  // ----- the main thread -----

  lemma FirstNote(q: seq<Msg>, t: Tid)
    requires q != []
    ensures NotesOf(q, t) == (if q[0].tid == t then [q[0].note] else []) + NotesOf(q[1..], t)
    ensures q[0].tid != t ==> NotesOf(q, t) == NotesOf(q[1..], t)
  {
  }

  lemma FirstOut(n: Note, rest: seq<Note>)
    ensures ([n] + rest)[0] == n && ([n] + rest)[1..] == rest
    ensures [] + rest == rest
  {
  }

  lemma OpenedView(s: State, back: Back, u: Tid)
    requires s.pipe != [] && (s.main.Polling? || s.main.Reading?) && s.pipe[0].note.RecStart?
    requires NotesOf(s.pipe + s.dropped, u) ==
             (if s.pipe[0].tid == u then [s.pipe[0].note] else []) + NotesOf(s.pipe[1..] + s.dropped, u)
    ensures View(ReceiveNext(s, back), u) == if u == s.pipe[0].tid then ReceiveStep(View(s, u)) else View(s, u)
  {
    var n, rest := Name(s.pipe[0].tid, s.pipe[0].note.i), NotesOf(s.pipe[1..] + s.dropped, u);
    IndicesSnoc(s.open, n, u);
    FirstOut(s.pipe[0].note, rest);
    hide ServerOf, NotesOf, OfTid, Indices;
    assert Indices(OfTid(s.open, u)) + [] == Indices(OfTid(s.open, u));
    var v, v' := View(s, u), View(ReceiveNext(s, back), u);
    assert v'.th == v.th && v'.hand == v.hand && v'.queue == v.queue && v'.srv == v.srv && v'.file == v.file;
    assert v'.pipe == rest;
    hide View;
  }

  lemma EndedView(s: State, back: Back, u: Tid)
    requires s.pipe != [] && (s.main.Polling? || s.main.Reading?) && s.pipe[0].note.RecEnd?
    requires NotesOf(s.pipe + s.dropped, u) ==
             (if s.pipe[0].tid == u then [s.pipe[0].note] else []) + NotesOf(s.pipe[1..] + s.dropped, u)
    ensures View(ReceiveNext(s, back), u) == if u == s.pipe[0].tid then ReceiveStep(View(s, u)) else View(s, u)
  {
    OfTidWithout(s.open, Name(s.pipe[0].tid, s.pipe[0].note.i), u);
    FirstOut(s.pipe[0].note, NotesOf(s.pipe[1..] + s.dropped, u));
    hide ServerOf, NotesOf, OfTid, Indices, RemoveFirst, Without;
  }

  lemma ReceiveView(s: State, back: Back, u: Tid)
    requires s.pipe != [] && (s.main.Polling? || s.main.Reading?)
    ensures s.pipe[0].tid == u ==> View(s, u).pipe != []
    ensures View(s, u).hand == []
    ensures View(ReceiveNext(s, back), u) == if u == s.pipe[0].tid then ReceiveStep(View(s, u)) else View(s, u)
  {
    var rest := s.pipe[1..] + s.dropped;
    assert (s.pipe + s.dropped)[1..] == rest && (s.pipe + s.dropped)[0] == s.pipe[0];
    FirstNote(s.pipe + s.dropped, u);
    assert View(s, u).hand == [];
    if s.pipe[0].note.RecStart? {
      OpenedView(s, back, u);
    } else {
      EndedView(s, back, u);
    }
  }

  lemma GoodReceive(m: Main, v: Local)
    requires Good(m, v) && !Flushed(m) && v.pipe != [] && v.hand == []
    ensures Good(m, ReceiveStep(v))
  {
    ReceiveKeeps(v);
  }

  /** Reading one message, in either loop. */
  lemma ReceiveNextKeeps(s: State, back: Back)
    requires GInv(s) && (s.main.Polling? || s.main.Reading?) && s.pipe != []
    requires back.ToPolling? || (back.ToReading? && !s.connected)
    ensures GInv(ReceiveNext(s, back))
  {
    hide Good, View, WritersOk, AllOver, ReceiveStep;
    var s', t := ReceiveNext(s, back), s.pipe[0].tid;
    ReceiveView(s, back, t);
    forall u ensures View(s', u) == if u == t then ReceiveStep(View(s, u)) else View(s, u) {
      ReceiveView(s, back, u);
    }
    GoodReceive(s.main, View(s, t));
    OneViewChanged(s, s', t);
  }

  lemma SeenHangup(s: State)
    requires GInv(s)
    ensures s.main.Reading? ==> !s.connected
  {
    hide Good;
  }

  /** A change of stage that no thread sees. */
  lemma StageMoves(s: State, m: Main, u: Tid)
    requires !s.main.Holding? && !m.Holding?
    ensures View(s.(main := m), u) == View(s, u)
  {
    hide NotesOf, OfTid, Indices, ServerOf;
  }

  lemma StageKeeps(s: State, m: Main)
    requires !s.main.Holding? && !m.Holding? && (forall u :: Good(s.main, View(s, u)))
    requires !Flushed(s.main) || Flushed(m)
    ensures AllOver(s.(main := m)) == AllOver(s)
    ensures forall u :: Good(m, View(s.(main := m), u))
  {
    hide View, Inv, Sound;
    forall u ensures Good(m, View(s.(main := m), u)) {
      StageMoves(s, m, u);
      assert Good(s.main, View(s, u));
      GoodFacts(s.main, View(s, u));
    }
  }

  lemma IdleReads(s: State)
    requires GInv(s) && (s.main.Polling? || s.main.Reading?) && s.pipe == []
    ensures GInv(MainNext(s))
  {
    hide Good, WritersOk, AllOver, View;
    StageKeeps(s, MainNext(s).main);
  }

  lemma ReadingKeeps(s: State)
    requires GInv(s) && (s.main.Polling? || s.main.Reading?)
    ensures GInv(MainNext(s))
  {
    if s.pipe == [] {
      IdleReads(s);
    } else {
      hide GInv, ReceiveNext;
      SeenHangup(s);
      ReceiveNextKeeps(s, if s.main.Polling? && s.connected then ToPolling else ToReading);
    }
  }

  lemma WaitingKeeps(s: State)
    requires GInv(s) && (s.main.Waiting? || s.main.Joining?)
    ensures GInv(MainNext(s))
  {
    hide Good, WritersOk, View, AllOver;
    StageKeeps(s, MainNext(s).main);
  }

  lemma ExaminingKeeps(s: State)
    requires GInv(s) && s.main.Holding? && !s.main.examined
    ensures GInv(MainNext(s))
  {
    hide Good, WritersOk, Serving, ServerOf, OfTid, NotesOf;
    var t, s' := s.main.name.tid, MainNext(s);
    assert View(s', t) == ExamineStep(View(s, t));
    GoodExamine(s.main, View(s, t));
    OneViewChanged(s, s', t);
  }

  lemma PassedView(s: State, u: Tid)
    requires s.main.Holding? && s.main.examined && Serving(s.writers, s.main.name.tid) < |s.writers|
    requires ServerOf(s.writers, s.main.name.tid).Server?
    requires var n, w := s.main.name, Serving(s.writers, s.main.name.tid);
             ServerOf(s.writers[w := s.writers[w].(bufs := s.writers[w].bufs + [n])], u) ==
             if u == n.tid then ServerOf(s.writers, u).(bufs := ServerOf(s.writers, u).bufs + [n.i])
             else ServerOf(s.writers, u)
    ensures View(MainNext(s), u) == if u == s.main.name.tid then EnqueueStep(View(s, u)) else View(s, u)
  {
    hide WritersOk, ServerOf, OfTid, NotesOf, Indices, Serving;
  }

  lemma QueuedView(s: State, u: Tid)
    requires s.main.Holding? && s.main.examined && Serving(s.writers, s.main.name.tid) == |s.writers|
    requires ServerOf(s.writers, s.main.name.tid).NoServer?
    ensures View(MainNext(s), u) == if u == s.main.name.tid then EnqueueStep(View(s, u)) else View(s, u)
  {
    var n, s' := s.main.name, MainNext(s);
    IndicesSnoc(s.queue, n, u);
    assert s' == s.(queue := s.queue + [n], main := s'.main) && !s'.main.Holding?;
    hide WritersOk, ServerOf, OfTid, NotesOf, Indices, Serving, MainNext, ThreadOf, FileOf;
    assert HandOf(s.main, u) == if n.tid == u then [n.i] else [];
    assert HandOf(s'.main, u) == [];
    hide HandOf;
    assert Indices(OfTid(s.queue, u)) + [] == Indices(OfTid(s.queue, u));
  }

  /** Passing a buffer to the writer of its thread, if there is one. */
  lemma EnqueueServer(ws: seq<Writer>, n: Name, u: Tid)
    requires WritersOk(ws)
    ensures var w := Serving(ws, n.tid);
            if w < |ws| then
              var ws' := ws[w := ws[w].(bufs := ws[w].bufs + [n])];
              && WritersOk(ws') && ServerOf(ws, n.tid).Server?
              && ServerOf(ws', u) == if u == n.tid then ServerOf(ws, u).(bufs := ServerOf(ws, u).bufs + [n.i])
                                     else ServerOf(ws, u)
            else ServerOf(ws, n.tid).NoServer?
  {
    var w := Serving(ws, n.tid);
    if w < |ws| {
      var wr' := ws[w].(bufs := ws[w].bufs + [n]);
      assert WritersOk(ws[w := wr']);
      ServerChanges(ws, w, wr', u);
      IndicesAppend(ws[w].bufs, [n]);
      assert Indices([n]) == [n.i];
    }
  }

  lemma EnqueueingView(s: State, u: Tid)
    requires WritersOk(s.writers) && s.main.Holding? && s.main.examined
    ensures WritersOk(MainNext(s).writers)
    ensures View(MainNext(s), u) == if u == s.main.name.tid then EnqueueStep(View(s, u)) else View(s, u)
  {
    var n := s.main.name;
    EnqueueServer(s.writers, n, u);
    if Serving(s.writers, n.tid) < |s.writers| {
      PassedView(s, u);
    } else {
      QueuedView(s, u);
    }
  }

  lemma EnqueueingKeeps(s: State)
    requires GInv(s) && s.main.Holding? && s.main.examined
    ensures GInv(MainNext(s))
  {
    hide Good, View, EnqueueStep;
    var t, s' := s.main.name.tid, MainNext(s);
    forall u ensures View(s', u) == if u == t then EnqueueStep(View(s, u)) else View(s, u) {
      EnqueueingView(s, u);
    }
    EnqueueingView(s, t);
    GoodEnqueue(s.main, View(s, t));
    OneViewChanged(s, s', t);
  }

  lemma FlushView(s: State, u: Tid)
    requires s.main.Flushing? && s.open != []
    ensures View(s, u).hand == [] && (u == s.open[0].tid ==> View(s, u).open != [])
    ensures View(MainNext(s), u) == if u == s.open[0].tid then FlushStep(View(s, u)) else View(s, u)
  {
    hide NotesOf, Serving, ServerOf, OfTid, Indices;
    FirstName(s.open, u);
  }

  lemma FlushedKeeps(s: State)
    requires GInv(s) && s.main.Flushing? && s.open == []
    ensures GInv(MainNext(s))
  {
    hide Good, WritersOk, View, AllOver;
    StageKeeps(s, Draining);
  }

  lemma GoodFlush(m: Main, v: Local)
    requires Good(m, v) && Flushed(m) && v.open != [] && v.hand == []
    ensures Good(m, FlushStep(v))
  {
    FlushKeeps(v);
  }

  lemma FlushesOne(s: State)
    requires GInv(s) && s.main.Flushing? && s.open != []
    ensures GInv(MainNext(s))
  {
    hide Good, View, FlushStep, WritersOk;
    var s', t := MainNext(s), s.open[0].tid;
    FlushView(s, t);
    forall u ensures View(s', u) == if u == t then FlushStep(View(s, u)) else View(s, u) {
      FlushView(s, u);
    }
    GoodFlush(s.main, View(s, t));
    OneViewChanged(s, s', t);
  }

  lemma FlushingKeeps(s: State)
    requires GInv(s) && s.main.Flushing?
    ensures GInv(MainNext(s))
  {
    if s.open == [] {
      FlushedKeeps(s);
    } else {
      FlushesOne(s);
    }
  }

  /** Appending a buffer to its file is seen by its thread only. */
  lemma FiledIs(s: State, n: Name, u: Tid)
    ensures ThreadOf(Filed(s, n), u) == ThreadOf(s, u)
    ensures FileOf(Filed(s, n), u) ==
            if u == n.tid then FileOf(s, u) + DataOf(ThreadOf(s, u).bufs, n.i) else FileOf(s, u)
  {
  }

  /** So is changing its buffers; an unknown thread has none. */
  lemma WithBufsIs(s: State, n: Name, bufs: seq<Shm>, u: Tid)
    requires n.tid !in s.threads ==> bufs == []
    ensures var s' := WithBufs(s, n, bufs);
            && ThreadOf(s', u) == (if u == n.tid then ThreadOf(s, u).(bufs := bufs) else ThreadOf(s, u))
            && FileOf(s', u) == FileOf(s, u)
            && (AllOver(s) ==> AllOver(s'))
  {
  }

  /** What draining leaves alone. */
  lemma DrainFrame(s: State)
    requires s.queue != []
    ensures var s', n := DrainNext(s), s.queue[0];
            var written := WithBufs(Filed(s, n), n, Zeroed(s, n));
            && s' == s.(threads := s'.threads, files := s'.files, queue := s.queue[1..])
            && (AllOver(s) ==> AllOver(s'))
            && forall u :: ThreadOf(s', u) == ThreadOf(written, u) && FileOf(s', u) == FileOf(written, u)
  {
    var n := s.queue[0];
    WithBufsIs(Filed(s, n), n, Zeroed(s, n), n.tid);
    assert AllOver(s) ==> AllOver(Filed(s, n));
  }

  lemma DrainView(s: State, u: Tid)
    requires s.main.Draining? && s.queue != []
    ensures u == s.queue[0].tid ==> View(s, u).queue != []
    ensures View(DrainNext(s), u) == if u == s.queue[0].tid then DrainStep(View(s, u)) else View(s, u)
  {
    var n := s.queue[0];
    FirstName(s.queue, u);
    FiledIs(s, n, u);
    WithBufsIs(Filed(s, n), n, Zeroed(s, n), u);
    DrainFrame(s);
    hide NotesOf, Serving, ServerOf, OfTid, Indices, Filed, WithBufs, DrainNext, ThreadOf, FileOf;
  }

  lemma DrainedKeeps(s: State)
    requires GInv(s) && s.main.Draining? && s.queue == []
    ensures GInv(MainNext(s))
  {
    hide Good, WritersOk, View, AllOver;
    StageKeeps(s, MainNext(s).main);
  }

  /** Once the writers are joined no thread is served. */
  lemma AllExited(s: State, t: Tid)
    requires GInv(s) && Flushed(s.main)
    ensures View(s, t).srv.NoServer?
  {
    hide Good;
    ServingNone(s.writers, t);
  }

  lemma GoodDrain(m: Main, v: Local)
    requires Good(m, v) && Flushed(m) && v.srv.NoServer? && v.queue != []
    ensures Good(m, DrainStep(v))
  {
    DrainKeeps(v);
  }

  lemma DrainsOne(s: State)
    requires GInv(s) && s.main.Draining? && s.queue != []
    ensures GInv(MainNext(s))
  {
    hide Good, View, DrainStep, WritersOk, AllOver;
    var s', t := DrainNext(s), s.queue[0].tid;
    assert MainNext(s) == s';
    DrainFrame(s);
    hide DrainNext, MainNext;
    DrainView(s, t);
    forall u ensures View(s', u) == if u == t then DrainStep(View(s, u)) else View(s, u) {
      DrainView(s, u);
    }
    AllExited(s, t);
    GoodDrain(s.main, View(s, t));
    OneViewChanged(s, s', t);
  }

  lemma DrainingKeeps(s: State)
    requires GInv(s) && s.main.Draining?
    ensures GInv(MainNext(s))
  {
    if s.queue == [] {
      DrainedKeeps(s);
    } else {
      DrainsOne(s);
    }
  }

  lemma MainNextKeeps(s: State)
    requires GInv(s)
    ensures GInv(MainNext(s))
  {
    hide Good;
    match s.main
    case Polling => ReadingKeeps(s);
    case Reading => ReadingKeeps(s);
    case Waiting => WaitingKeeps(s);
    case Holding(_, _, examined) => if examined { EnqueueingKeeps(s); } else { ExaminingKeeps(s); }
    case Joining => WaitingKeeps(s);
    case Flushing => FlushingKeeps(s);
    case Draining => DrainingKeeps(s);
    case Finished =>
  }

  // ----- the writers -----

  lemma FirstOfTid(q: seq<Name>)
    requires q != []
    ensures OfTid(q, q[0].tid) != []
  {
  }

  lemma TakeServer(s: State, w: nat, u: Tid)
    requires WritersOk(s.writers) && w < |s.writers| && !s.writers[w].listed && !s.writers[w].exited && s.queue != []
    requires ServerOf(s.writers, s.queue[0].tid).NoServer?
    ensures var ws := WriterNext(s, w, false).writers;
            && WritersOk(ws)
            && ServerOf(ws, u) == if u == s.queue[0].tid then Server(Saving(0), Indices(OfTid(s.queue, u)), [])
                                  else ServerOf(s.writers, u)
  {
    var t, s' := s.queue[0].tid, WriterNext(s, w, false);
    OfTidAll(s.queue, t);
    FirstOfTid(s.queue);
    ServingNone(s.writers, t);
    hide OfTid, NotOfTid;
    assert WritersOk(s'.writers);
    ServingIs(s'.writers, w);
    if u != t {
      ServingSame(s.writers, s'.writers, u);
    }
  }

  lemma TakeView(s: State, w: nat, u: Tid)
    requires WritersOk(s.writers) && w < |s.writers| && !s.writers[w].listed && !s.writers[w].exited && s.queue != []
    requires View(s, s.queue[0].tid).srv.NoServer?
    ensures WritersOk(WriterNext(s, w, false).writers)
    ensures u == s.queue[0].tid ==> View(s, u).queue != []
    ensures View(WriterNext(s, w, false), u) == if u == s.queue[0].tid then TakeStep(View(s, u)) else View(s, u)
  {
    var t, s' := s.queue[0].tid, WriterNext(s, w, false);
    OfTidRest(s.queue, t, u);
    TakeServer(s, w, u);
    FirstOfTid(s.queue);
    hide WritersOk, ServerOf, OfTid, NotOfTid;
    assert Indices([]) == [];
  }

  lemma GoodTake(m: Main, v: Local)
    requires Good(m, v) && !Flushed(m) && v.srv.NoServer? && v.queue != []
    ensures Good(m, TakeStep(v))
  {
    TakeKeeps(v);
  }

  lemma TakingKeeps(s: State, w: nat)
    requires GInv(s) && w < |s.writers| && !s.writers[w].listed && !s.writers[w].exited && s.queue != []
    ensures GInv(WriterNext(s, w, false))
  {
    hide Good;
    var t, s' := s.queue[0].tid, WriterNext(s, w, false);
    assert Good(s.main, View(s, t));
    GoodFacts(s.main, View(s, t));
    assert View(s, t).queue[0] == s.queue[0].i;
    forall u ensures View(s', u) == if u == t then TakeStep(View(s, u)) else View(s, u) {
      TakeView(s, w, u);
    }
    TakeView(s, w, t);
    GoodTake(s.main, View(s, t));
    OneViewChanged(s, s', t);
  }

  lemma OthersDiffer(ws: seq<Writer>, w: nat)
    requires WritersOk(ws) && w < |ws| && ws[w].listed
    ensures forall x :: 0 <= x < |ws| && x != w && ws[x].listed ==> ws[x].tid != ws[w].tid
  {
  }

  lemma LeavingServer(ws: seq<Writer>, w: nat, u: Tid)
    requires WritersOk(ws) && w < |ws| && ws[w].listed
    ensures ServerOf(ws[w := Writer(false, false, -1, Checking, [], [])], u) ==
            if u == ws[w].tid then NoServer else ServerOf(ws, u)
  {
    hide Indices;
    var ws' := ws[w := Writer(false, false, -1, Checking, [], [])];
    ServingIs(ws, w);
    if u == ws[w].tid {
      OthersDiffer(ws, w);
      ServingNone(ws', u);
    } else {
      ServingSame(ws, ws', u);
    }
  }

  lemma ServedView(s: State, w: nat)
    requires WritersOk(s.writers) && w < |s.writers| && s.writers[w].listed
    ensures View(s, s.writers[w].tid).srv ==
            Server(s.writers[w].phase, Indices(s.writers[w].head), Indices(s.writers[w].bufs))
    ensures ServerOk(View(s, s.writers[w].tid).srv)
  {
    ServingIs(s.writers, w);
  }

  lemma LeavingView(s: State, w: nat, u: Tid)
    requires WritersOk(s.writers) && w < |s.writers| && s.writers[w].listed
    requires s.writers[w].phase.Checking? && s.writers[w].bufs == []
    ensures View(s, s.writers[w].tid).srv.Server? && ServerOk(View(s, s.writers[w].tid).srv)
    ensures View(WriterNext(s, w, false), u) == if u == s.writers[w].tid then WriteStep(View(s, u)) else View(s, u)
  {
    LeavingServer(s.writers, w, u);
    ServedView(s, w);
    hide WritersOk, ServerOf, OfTid, NotesOf, Indices;
  }

  lemma WritingView(s: State, w: nat, u: Tid)
    requires WritersOk(s.writers) && w < |s.writers| && s.writers[w].listed
    requires s.writers[w].phase.Checking? ==> s.writers[w].bufs != []
    ensures WritersOk(WriterNext(s, w, false).writers)
    ensures ServerOf(WriterNext(s, w, false).writers, u) ==
            if u == s.writers[w].tid
            then Server(WriterNext(s, w, false).writers[w].phase, Indices(WriterNext(s, w, false).writers[w].head),
                        Indices(WriterNext(s, w, false).writers[w].bufs))
            else ServerOf(s.writers, u)
  {
    var s' := WriterNext(s, w, false);
    var wr, wr' := s.writers[w], s'.writers[w];
    assert s'.writers == s.writers[w := wr'];
    assert WritersOk(s'.writers);
    ServerChanges(s.writers, w, wr', u);
  }

  /** A listed writer with a buffer in hand works on that buffer. */
  lemma WriterWrites(s: State, w: nat, stop: bool)
    requires WritersOk(s.writers) && w < |s.writers| && s.writers[w].listed && !s.writers[w].phase.Checking?
    ensures s.writers[w].phase.k < |s.writers[w].head| && WriterNext(s, w, stop) == WriteNext(s, w)
  {
    hide WriteNext;
  }

  /** What it leaves alone. */
  lemma WriteFrame(s: State, w: nat)
    requires w < |s.writers| && !s.writers[w].phase.Checking? && s.writers[w].phase.k < |s.writers[w].head|
    ensures var s' := WriteNext(s, w);
            && |s'.writers| == |s.writers|
            && s' == s.(threads := s'.threads, files := s'.files, writers := s'.writers)
            && s'.writers == s.writers[w := s.writers[w].(phase := s'.writers[w].phase)]
  {
    hide FileOf, ThreadOf, Zeroed, Released, DataOf;
  }

  lemma WriteOver(s: State, w: nat)
    requires w < |s.writers| && !s.writers[w].phase.Checking? && s.writers[w].phase.k < |s.writers[w].head|
    ensures AllOver(s) ==> AllOver(WriteNext(s, w))
  {
    var n := s.writers[w].head[s.writers[w].phase.k];
    WithBufsIs(s, n, Zeroed(s, n), n.tid);
    WithBufsIs(s, n, Released(s, n), n.tid);
    hide WithBufs, Over;
  }

  lemma WriteOthers(s: State, w: nat, u: Tid)
    requires w < |s.writers| && !s.writers[w].phase.Checking? && s.writers[w].phase.k < |s.writers[w].head|
    requires u != s.writers[w].head[s.writers[w].phase.k].tid
    ensures ThreadOf(WriteNext(s, w), u) == ThreadOf(s, u) && FileOf(WriteNext(s, w), u) == FileOf(s, u)
  {
    hide Zeroed, Released, DataOf;
  }

  lemma SameFields(s: State, s': State, t: Tid)
    requires s'.threads == s.threads && s'.files == s.files
    ensures ThreadOf(s', t) == ThreadOf(s, t) && FileOf(s', t) == FileOf(s, t)
  {
  }

  lemma SavingOwn(s: State, w: nat, v: Local)
    requires w < |s.writers| && !s.writers[w].phase.Checking? && s.writers[w].phase.k < |s.writers[w].head|
    requires var wr, k := s.writers[w], s.writers[w].phase.k;
             && v.srv == Server(wr.phase, Indices(wr.head), Indices(wr.bufs))
             && v.th == ThreadOf(s, wr.head[k].tid) && v.file == FileOf(s, wr.head[k].tid)
    requires s.writers[w].phase.Saving?
    ensures var s', t := WriteNext(s, w), s.writers[w].head[s.writers[w].phase.k].tid;
            && w < |s'.writers|
            && WriteStep(v) == v.(th := ThreadOf(s', t), file := FileOf(s', t),
                                  srv := v.srv.(phase := s'.writers[w].phase))
  {
    var n := s.writers[w].head[s.writers[w].phase.k];
    FiledIs(s, n, n.tid);
    SameFields(Filed(s, n), WriteNext(s, w), n.tid);
    hide Filed, ThreadOf, FileOf;
  }

  lemma ZeroingOwn(s: State, w: nat, v: Local)
    requires w < |s.writers| && !s.writers[w].phase.Checking? && s.writers[w].phase.k < |s.writers[w].head|
    requires var wr, k := s.writers[w], s.writers[w].phase.k;
             && v.srv == Server(wr.phase, Indices(wr.head), Indices(wr.bufs))
             && v.th == ThreadOf(s, wr.head[k].tid) && v.file == FileOf(s, wr.head[k].tid)
    requires s.writers[w].phase.Zeroing?
    ensures var s', t := WriteNext(s, w), s.writers[w].head[s.writers[w].phase.k].tid;
            && w < |s'.writers|
            && WriteStep(v) == v.(th := ThreadOf(s', t), file := FileOf(s', t),
                                  srv := v.srv.(phase := s'.writers[w].phase))
  {
    var n := s.writers[w].head[s.writers[w].phase.k];
    WithBufsIs(s, n, Zeroed(s, n), n.tid);
    SameFields(WithBufs(s, n, Zeroed(s, n)), WriteNext(s, w), n.tid);
    hide WithBufs, ThreadOf, FileOf;
  }

  lemma ReleasingOwn(s: State, w: nat, v: Local)
    requires w < |s.writers| && !s.writers[w].phase.Checking? && s.writers[w].phase.k < |s.writers[w].head|
    requires var wr, k := s.writers[w], s.writers[w].phase.k;
             && v.srv == Server(wr.phase, Indices(wr.head), Indices(wr.bufs))
             && v.th == ThreadOf(s, wr.head[k].tid) && v.file == FileOf(s, wr.head[k].tid)
    requires s.writers[w].phase.Releasing?
    ensures var s', t := WriteNext(s, w), s.writers[w].head[s.writers[w].phase.k].tid;
            && w < |s'.writers|
            && WriteStep(v) == v.(th := ThreadOf(s', t), file := FileOf(s', t),
                                  srv := v.srv.(phase := s'.writers[w].phase))
  {
    var n := s.writers[w].head[s.writers[w].phase.k];
    WithBufsIs(s, n, Released(s, n), n.tid);
    SameFields(WithBufs(s, n, Released(s, n)), WriteNext(s, w), n.tid);
    hide WithBufs, ThreadOf, FileOf;
  }

  /** What it does to its own thread is WriteStep. */
  lemma WriteOwn(s: State, w: nat, v: Local)
    requires w < |s.writers| && !s.writers[w].phase.Checking? && s.writers[w].phase.k < |s.writers[w].head|
    requires var wr, k := s.writers[w], s.writers[w].phase.k;
             && v.srv == Server(wr.phase, Indices(wr.head), Indices(wr.bufs))
             && v.th == ThreadOf(s, wr.head[k].tid) && v.file == FileOf(s, wr.head[k].tid)
    ensures var s', t := WriteNext(s, w), s.writers[w].head[s.writers[w].phase.k].tid;
            && w < |s'.writers|
            && WriteStep(v) == v.(th := ThreadOf(s', t), file := FileOf(s', t),
                                  srv := v.srv.(phase := s'.writers[w].phase))
  {
    hide WriteStep, WriteNext;
    match s.writers[w].phase
    case Saving(_) => SavingOwn(s, w, v);
    case Zeroing(_) => ZeroingOwn(s, w, v);
    case Releasing(_) => ReleasingOwn(s, w, v);
  }

  lemma SpliceNext(s: State, w: nat)
    requires WritersOk(s.writers) && w < |s.writers| && s.writers[w].listed
    requires s.writers[w].phase.Checking? && s.writers[w].bufs != []
    ensures var wr := s.writers[w];
            && WriterNext(s, w, false) ==
               s.(writers := s.writers[w := wr.(phase := Saving(0), head := wr.bufs, bufs := [])])
            && Indices(wr.bufs) != [] && Indices([]) == []
  {
    hide WriteNext;
  }

  lemma SplicingView(s: State, w: nat, u: Tid)
    requires WritersOk(s.writers) && w < |s.writers| && s.writers[w].listed
    requires s.writers[w].phase.Checking? && s.writers[w].bufs != []
    requires ServerOk(View(s, s.writers[w].tid).srv) && View(s, s.writers[w].tid).srv.Server?
    ensures View(WriterNext(s, w, false), u) ==
            if u == s.writers[w].tid then WriteStep(View(s, u)) else View(s, u)
  {
    var s' := WriterNext(s, w, false);
    WritingView(s, w, u);
    ServedView(s, w);
    SpliceNext(s, w);
    SameFields(s, s', u);
    hide WritersOk, ServerOf, Indices, WriterNext, ThreadOf, FileOf, View;
    FramedView(s, s', u);
  }

  lemma HeadIsOwn(ws: seq<Writer>, w: nat)
    requires WritersOk(ws) && w < |ws| && ws[w].listed && !ws[w].phase.Checking?
    ensures ws[w].phase.k < |ws[w].head| && ws[w].head[ws[w].phase.k].tid == ws[w].tid
  {
  }

  lemma SavingView(s: State, w: nat, u: Tid)
    requires WritersOk(s.writers) && w < |s.writers| && s.writers[w].listed && !s.writers[w].phase.Checking?
    requires ServerOk(View(s, s.writers[w].tid).srv) && View(s, s.writers[w].tid).srv.Server?
    ensures View(WriterNext(s, w, false), u) ==
            if u == s.writers[w].tid then WriteStep(View(s, u)) else View(s, u)
  {
    HeadIsOwn(s.writers, w);
    WriterWrites(s, w, false);
    WritingView(s, w, u);
    ServedView(s, w);
    WriteFrame(s, w);
    hide WritersOk, ServerOf, Indices, WriterNext, WriteNext, WriteStep, ThreadOf, FileOf, View;
    FramedView(s, WriteNext(s, w), u);
    if u == s.writers[w].tid {
      WriteOwn(s, w, View(s, u));
    } else {
      WriteOthers(s, w, u);
    }
  }

  lemma WritingViewAll(s: State, w: nat, u: Tid)
    requires WritersOk(s.writers) && w < |s.writers| && s.writers[w].listed
    requires s.writers[w].phase.Checking? ==> s.writers[w].bufs != []
    ensures ServerOk(View(s, s.writers[w].tid).srv) && View(s, s.writers[w].tid).srv.Server?
    ensures View(WriterNext(s, w, false), u) ==
            if u == s.writers[w].tid then WriteStep(View(s, u)) else View(s, u)
  {
    ServedView(s, w);
    if s.writers[w].phase.Checking? {
      SplicingView(s, w, u);
    } else {
      SavingView(s, w, u);
    }
  }

  /** What a writer leaves alone. */
  lemma WriterFrame(s: State, w: nat, stop: bool)
    requires WritersOk(s.writers) && w < |s.writers|
    ensures var s' := WriterNext(s, w, stop);
            && s' == s.(threads := s'.threads, files := s'.files, writers := s'.writers, queue := s'.queue)
            && (s.queue == [] ==> s'.queue == [])
            && |s'.writers| == |s.writers|
            && (AllOver(s) ==> AllOver(s'))
            && (forall x :: 0 <= x < |s.writers| && s.writers[x].exited ==> s'.writers[x].exited)
  {
    if s.writers[w].listed && !s.writers[w].phase.Checking? {
      WriterWrites(s, w, stop);
      WriteFrame(s, w);
      WriteOver(s, w);
      hide WriterNext, WriteNext, WritersOk, AllOver;
    } else {
      hide WritersOk, WriteNext, OfTid;
    }
  }

  /** The invariant after the step of a writer. */
  lemma WriterKeeps(s: State, s': State)
    requires GInv(s) && WritersOk(s'.writers) && |s'.writers| == |s.writers|
    requires s' == s.(threads := s'.threads, files := s'.files, writers := s'.writers, queue := s'.queue)
    requires (s.queue == [] ==> s'.queue == []) && (AllOver(s) ==> AllOver(s'))
    requires forall x :: 0 <= x < |s.writers| && s.writers[x].exited ==> s'.writers[x].exited
    requires forall u :: Good(s'.main, View(s', u))
    ensures GInv(s')
  {
    hide Good, View, WritersOk, AllOver;
  }

  lemma ListedMeansRunning(s: State, w: nat)
    requires GInv(s) && w < |s.writers| && s.writers[w].listed
    ensures WritersOk(s.writers) && !Flushed(s.main)
    ensures forall u :: Good(s.main, View(s, u))
  {
    hide Good, View, AllOver;
  }

  lemma LeaverUnlisted(s: State, w: nat)
    requires w < |s.writers| && s.writers[w].listed && !s.writers[w].exited
    requires s.writers[w].phase.Checking? && s.writers[w].bufs == []
    ensures WriterNext(s, w, false).writers == s.writers[w := Writer(false, false, -1, Checking, [], [])]
  {
  }

  lemma WritersStayOk(s: State, w: nat)
    requires WritersOk(s.writers) && w < |s.writers| && s.writers[w].listed
    ensures WritersOk(WriterNext(s, w, false).writers)
  {
    hide WriteNext, WriterNext;
    if s.writers[w].phase.Checking? && s.writers[w].bufs == [] {
      LeaverUnlisted(s, w);
    } else {
      WritingView(s, w, s.writers[w].tid);
    }
  }

  lemma GoodWrite(m: Main, v: Local)
    requires Good(m, v) && !Flushed(m) && v.srv.Server? && ServerOk(v.srv)
    ensures Good(m, WriteStep(v))
  {
    WriteKeeps(v);
  }

  lemma WritingKeeps(s: State, w: nat)
    requires GInv(s) && w < |s.writers| && s.writers[w].listed
    ensures GInv(WriterNext(s, w, false))
  {
    hide *;
    var t, s' := s.writers[w].tid, WriterNext(s, w, false);
    ListedMeansRunning(s, w);
    ServedView(s, w);
    WriterFrame(s, w, false);
    WritersStayOk(s, w);
    forall u ensures View(s', u) == if u == t then WriteStep(View(s, u)) else View(s, u) {
      if s.writers[w].phase.Checking? && s.writers[w].bufs == [] {
        LeavingView(s, w, u);
      } else {
        WritingViewAll(s, w, u);
      }
    }
    GoodWrite(s.main, View(s, t));
    OneViewChanged(s, s', t);
    WriterKeeps(s, s');
  }

  lemma ExitingView(s: State, w: nat, u: Tid)
    requires w < |s.writers| && !s.writers[w].listed
    ensures View(s.(writers := s.writers[w := s.writers[w].(exited := true)]), u) == View(s, u)
  {
    ServingSame(s.writers, s.writers[w := s.writers[w].(exited := true)], u);
  }

  lemma ExitingKeeps(s: State, w: nat)
    requires GInv(s) && w < |s.writers| && !s.writers[w].listed
    ensures GInv(s.(writers := s.writers[w := s.writers[w].(exited := true)]))
  {
    hide Good, View;
    var s' := s.(writers := s.writers[w := s.writers[w].(exited := true)]);
    forall u ensures View(s', u) == View(s, u) {
      ExitingView(s, w, u);
    }
    NoViewChanged(s, s');
  }

  lemma ListedRuns(s: State, w: nat)
    requires GInv(s) && w < |s.writers| && s.writers[w].listed
    ensures !s.writers[w].exited
  {
    hide Good;
  }

  lemma WriterNextKeeps(s: State, w: nat, stop: bool)
    requires GInv(s) && w < |s.writers|
    ensures GInv(WriterNext(s, w, stop))
  {
    hide GInv;
    var wr := s.writers[w];
    if wr.listed {
      assert !wr.exited by { ListedRuns(s, w); }
      assert WriterNext(s, w, stop) == WriterNext(s, w, false);
      WritingKeeps(s, w);
    } else if !stop && !wr.exited && s.queue != [] {
      TakingKeeps(s, w);
    } else if WriterNext(s, w, stop) != s {
      ExitingKeeps(s, w);
    }
  }

  // ----- all runs -----

  lemma NextKeeps(s: State, a: Action)
    requires GInv(s)
    ensures GInv(Next(s, a))
  {
    match a
    case ByTracee(t, act) => TraceeNextKeeps(s, t, act);
    case Kill(t) => KillNextKeeps(s, t);
    case Hangup => HangupKeeps(s);
    case ByMain => MainNextKeeps(s);
    case ByWriter(w, stop) => if w < |s.writers| { WriterNextKeeps(s, w, stop); }
  }

  lemma NothingOk()
    ensures Inv(NOTHING)
  {
    assert Belt(NOTHING) == [];
  }

  lemma InitOk(nrThread: nat, maxSize: nat)
    ensures GInv(Init(nrThread, maxSize))
  {
    hide Inv;
    var s := Init(nrThread, maxSize);
    NothingOk();
    forall t ensures View(s, t) == NOTHING {
      ServingNone(s.writers, t);
    }
  }

  lemma {:induction false} ExecKeeps(s: State, run: seq<Action>)
    requires GInv(s)
    ensures GInv(Exec(s, run))
    decreases |run|
  {
    if run != [] {
      NextKeeps(s, run[0]);
      ExecKeeps(Next(s, run[0]), run[1..]);
    }
  }

  lemma {:induction false} ExecSplit(s: State, p: seq<Action>, q: seq<Action>)
    ensures Exec(s, p + q) == Exec(Exec(s, p), q)
    decreases |p|
  {
    if p == [] {
      assert p + q == q;
    } else {
      assert (p + q)[1..] == p[1..] + q;
      ExecSplit(Next(s, p[0]), p[1..], q);
    }
  }

  /** The state after a run from the start of the recorder. */
  function Reached(nrThread: nat, maxSize: nat, run: seq<Action>): State {
    Exec(Init(nrThread, maxSize), run)
  }

  function LogOf(s: State, t: Tid): Bytes {
    ThreadOf(s, t).log
  }

  lemma ReachedOk(nrThread: nat, maxSize: nat, run: seq<Action>, t: Tid)
    ensures GInv(Reached(nrThread, maxSize, run))
    ensures Sound(View(Reached(nrThread, maxSize, run), t))
  {
    hide Inv, Sound;
    InitOk(nrThread, maxSize);
    ExecKeeps(Init(nrThread, maxSize), run);
    var s := Reached(nrThread, maxSize, run);
    assert Good(s.main, View(s, t));
    GoodFacts(s.main, View(s, t));
  }

  /** MAIN RESULT (order and ownership). In every interleaving and for every thread id, what
      the thread has appended so far is its data file, then the contents of the buffers its
      writer has not saved yet, then of those passed to that writer directly, then of those
      in buf_write_list, then of the one in the main thread's hands, then of those still
      announced, each buffer once and in the order of their REC_START. */
  lemma FileThenLoad(nrThread: nat, maxSize: nat, run: seq<Action>, t: Tid)
    ensures var s := Reached(nrThread, maxSize, run);
            var v := View(s, t);
            && ServerOk(v.srv)
            && LogOf(s, t) == FileOf(s, t) + Flat(ThreadOf(s, t).bufs, Load(v))
            && NoDup(Belt(v))
            && FileOf(s, t) <= LogOf(s, t)
  {
    ReachedOk(nrThread, maxSize, run, t);
  }

  /** MAIN RESULT (one writer per thread). */
  lemma OneOwner(nrThread: nat, maxSize: nat, run: seq<Action>, x: nat, y: nat)
    ensures var s := Reached(nrThread, maxSize, run);
            (&& x < |s.writers| && y < |s.writers| && s.writers[x].listed && s.writers[y].listed
             && s.writers[x].tid == s.writers[y].tid) ==> x == y
    ensures var s := Reached(nrThread, maxSize, run);
            x < |s.writers| && s.writers[x].listed ==> OfTid(s.queue, s.writers[x].tid) == []
  {
    var s := Reached(nrThread, maxSize, run);
    if x < |s.writers| && s.writers[x].listed {
      var t := s.writers[x].tid;
      ReachedOk(nrThread, maxSize, run, t);
      ServedView(s, x);
      assert |View(s, t).queue| == |OfTid(s.queue, t)|;
    } else {
      ReachedOk(nrThread, maxSize, run, 0);
    }
  }

  /** MAIN RESULT (hand-off). In every interleaving, nothing a traced thread does next can
      choose, clear, overwrite or unmap a buffer whose REC_END is out and whose WRITTEN flag
      is not up yet. */
  lemma HandOffSafe(nrThread: nat, maxSize: nat, run: seq<Action>, t: Tid, act: Act, i: nat)
    ensures var s := Reached(nrThread, maxSize, run);
            var v := View(s, t);
            var th' := ThreadOf(TraceeNext(s, t, act), t);
            ServerOk(v.srv) && (i in Belt(v) && OpenOf(v.th) != Open(i) ==>
              && i < v.th.nrBuf <= |v.th.bufs| && i < th'.nrBuf <= |th'.bufs|
              && th'.bufs[i] == v.th.bufs[i])
  {
    var s := Reached(nrThread, maxSize, run);
    var v := View(s, t);
    ReachedOk(nrThread, maxSize, run, t);
    if i in Belt(v) && OpenOf(v.th) != Open(i) {
      assert i < v.th.nrBuf;
      if Enabled(v.th, act) {
        InFlightUntouched(v.th, Belt(v), act, s.maxSize, i);
      }
    }
  }
}
