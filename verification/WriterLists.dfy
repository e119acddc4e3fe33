/** The recorder's lists as the linked lists they are: writer_thread, write_buf_list,
    copy_to_buffer and record_remaining_buffer (cmds/record.c) as loops over mutable state.
    The sections under write_list_lock do exactly what RecordingPipeline takes as one step. */
module WriterLists {
  import opened BufferProtocol
  import opened BufferProtocolProofs
  import opened RecordingPipeline
  import opened RecordingPipelineProofs

  function FileIn(files: map<Tid, Bytes>, t: Tid): Bytes {
    if t in files then files[t] else []
  }

  function DataIn(shm: map<Name, Shm>, n: Name): Bytes {
    if n in shm then shm[n].data else []
  }

  /** What write_buf_list leaves in the files: one file per thread id, appended to in list order. */
  function Saved(files: map<Tid, Bytes>, shm: map<Name, Shm>, q: seq<Name>): map<Tid, Bytes> {
    if q == [] then files
    else
      var n := q[|q| - 1];
      var before := Saved(files, shm, q[..|q| - 1]);
      before[n.tid := FileIn(before, n.tid) + DataIn(shm, n)]
  }

  function Contents(shm: map<Name, Shm>, q: seq<Name>): Bytes {
    if q == [] then [] else Contents(shm, q[..|q| - 1]) + DataIn(shm, q[|q| - 1])
  }

  lemma SavedSnoc(files: map<Tid, Bytes>, shm: map<Name, Shm>, q: seq<Name>, n: Name)
    ensures var f := Saved(files, shm, q); Saved(files, shm, q + [n]) == f[n.tid := FileIn(f, n.tid) + DataIn(shm, n)]
  {
    assert (q + [n])[..|q|] == q;
  }

  /** The next of distinct names. */
  lemma NextName(q: seq<Name>, k: nat)
    requires k < |q| && forall a, b :: 0 <= a < b < |q| ==> q[a] != q[b]
    ensures q[..k + 1] == q[..k] + [q[k]] && q[k] in q && q[k] !in q[..k]
    ensures forall n :: n in q[..k + 1] <==> n in q[..k] || n == q[k]
  {
  }

  lemma FileGrows(files: map<Tid, Bytes>, t: Tid, more: Bytes, u: Tid)
    ensures FileIn(files[t := FileIn(files, t) + more], u) ==
            if u == t then FileIn(files, u) + more else FileIn(files, u)
  {
  }

  lemma OfTidSnoc(q: seq<Name>, n: Name, t: Tid)
    ensures OfTid(q + [n], t) == OfTid(q, t) + if n.tid == t then [n] else []
    ensures n.tid != t ==> OfTid(q + [n], t) == OfTid(q, t)
  {
    OfTidAppend(q, [n], t);
    assert [n][1..] == [];
  }

  lemma ContentsSnoc(shm: map<Name, Shm>, q: seq<Name>, n: Name)
    ensures Contents(shm, q + [n]) == Contents(shm, q) + DataIn(shm, n)
  {
    assert (q + [n])[..|q|] == q;
  }

  /** Each file grows by the contents of its own buffers, in list order, and by nothing else. */
  lemma {:induction false} SavedByTid(files: map<Tid, Bytes>, shm: map<Name, Shm>, q: seq<Name>, t: Tid)
    ensures FileIn(Saved(files, shm, q), t) == FileIn(files, t) + Contents(shm, OfTid(q, t))
  {
    if q == [] {
      assert FileIn(files, t) + [] == FileIn(files, t);
    } else {
      hide *;
      var front, n := q[..|q| - 1], q[|q| - 1];
      assert q == front + [n];
      SavedByTid(files, shm, front, t);
      SavedSnoc(files, shm, front, n);
      FileGrows(Saved(files, shm, front), n.tid, DataIn(shm, n), t);
      OfTidSnoc(front, n, t);
      if n.tid == t {
        ContentsSnoc(shm, OfTid(front, t), n);
        Regroup(FileIn(files, t), Contents(shm, OfTid(front, t)), DataIn(shm, n));
      }
    }
  }

  lemma {:induction false} NotOfTidAppend(p: seq<Name>, q: seq<Name>, t: Tid)
    ensures NotOfTid(p + q, t) == NotOfTid(p, t) + NotOfTid(q, t)
  {
    if p == [] {
      assert p + q == q;
    } else {
      assert (p + q)[1..] == p[1..] + q;
      NotOfTidAppend(p[1..], q, t);
      var first := if p[0].tid != t then [p[0]] else [];
      assert first + (NotOfTid(p[1..], t) + NotOfTid(q, t)) == (first + NotOfTid(p[1..], t)) + NotOfTid(q, t);
    }
  }

  class Lists {
    var queue: seq<Name>
    var writers: seq<Writer>
    var files: map<Tid, Bytes>
    var shm: map<Name, Shm>

    constructor (nrThread: nat)
      ensures queue == [] && writers == seq(nrThread, _ => STARTED) && files == map[] && shm == map[]
    {
      queue, writers, files, shm := [], seq(nrThread, _ => STARTED), map[], map[];
    }

    /** What the lock protects, as RecordingPipeline sees it. */
    ghost function Locked(): State
      reads this
    {
      State(map[], true, [], [], [], Polling, queue, writers, map[], 0)
    }

    /** The first lock section of writer_thread: the first queued buffer, then every other
        one of the same thread, moved to the tail of the local list. */
    method TakeBuffers(w: nat)
      requires w < |writers| && !writers[w].listed && !writers[w].exited && queue != []
      modifies this`queue, this`writers
      ensures Locked() == WriterNext(old(Locked()), w, false)
    {
      ghost var all := queue;
      var tid := queue[0].tid;
      var head: seq<Name> := [queue[0]];
      var pos: nat := 1;
      var kept: seq<Name> := [];
      assert all[..1] == [all[0]] && [all[0]][1..] == [];
      while pos < |queue|
        invariant 1 <= pos <= |queue| && queue == all && writers == old(writers)
        invariant head == OfTid(all[..pos], tid) && kept == NotOfTid(all[..pos], tid)
      {
        var buf := queue[pos];
        assert all[..pos + 1] == all[..pos] + [buf];
        OfTidAppend(all[..pos], [buf], tid);
        NotOfTidAppend(all[..pos], [buf], tid);
        assert [buf][1..] == [];
        if buf.tid == tid {
          head := head + [buf];
        } else {
          kept := kept + [buf];
        }
        pos := pos + 1;
      }
      assert all[..pos] == all;
      queue := kept;
      writers := writers[w := Writer(true, false, tid, Saving(0), head, [])];
    }

    /** The second lock section: splice the buffers passed directly, or leave writer_list. */
    method TakeDirect(w: nat) returns (again: bool)
      requires w < |writers| && writers[w].listed && !writers[w].exited && writers[w].phase.Checking?
      modifies this`writers
      ensures again == (old(writers)[w].bufs != [])
      ensures Locked() == WriterNext(old(Locked()), w, false)
    {
      var wr := writers[w];
      again := wr.bufs != [];
      writers := writers[w := if again then wr.(phase := Saving(0), head := wr.bufs, bufs := [])
                              else Writer(false, false, -1, Checking, [], [])];
    }

    /** copy_to_buffer: to the first listed writer of this thread, else to the end of the queue. */
    method CopyToBuffer(n: Name) returns (kicked: bool)
      modifies this`queue, this`writers
      ensures kicked <==> forall w :: 0 <= w < |old(writers)| && old(writers)[w].listed ==> old(writers)[w].tid != n.tid
      ensures Locked() == EnqueueNext(old(Locked()), n, Polling)
    {
      var w := 0;
      while w < |writers| && !(writers[w].listed && writers[w].tid == n.tid)
        invariant w <= |writers|
        invariant forall x :: 0 <= x < w ==> !(writers[x].listed && writers[x].tid == n.tid)
      {
        w := w + 1;
      }
      kicked := w == |writers|;
      if kicked {
        queue := queue + [n];
      } else {
        writers := writers[w := writers[w].(bufs := writers[w].bufs + [n])];
      }
    }

    /** write_buf_list over a local list: append, reset, raise WRITTEN, one buffer at a time. */
    method WriteBufList(head: seq<Name>)
      requires forall a, b :: 0 <= a < b < |head| ==> head[a] != head[b]
      requires forall n :: n in head ==> n in shm
      modifies this`files, this`shm
      ensures files == Saved(old(files), old(shm), head)
      ensures shm.Keys == old(shm).Keys
      ensures forall n :: n in shm ==> shm[n] == if n in head then Shm(WRITTEN_ONLY, []) else old(shm)[n]
    {
      var k := 0;
      assert head[..0] == [];
      while k < |head|
        invariant 0 <= k <= |head|
        invariant files == Saved(old(files), old(shm), head[..k])
        invariant shm.Keys == old(shm).Keys
        invariant forall n :: n in shm ==> shm[n] == if n in head[..k] then Shm(WRITTEN_ONLY, []) else old(shm)[n]
      {
        var n := head[k];
        NextName(head, k);
        SavedSnoc(old(files), old(shm), head[..k], n);
        files := files[n.tid := FileIn(files, n.tid) + shm[n].data];
        shm := shm[n := shm[n].(data := [])];
        shm := shm[n := shm[n].(flag := WRITTEN_ONLY)];
        k := k + 1;
      }
      assert head[..k] == head;
    }

    /** record_remaining_buffer: after all writers are gone, write what is still queued. */
    method RecordRemainingBuffer()
      requires forall a, b :: 0 <= a < b < |queue| ==> queue[a] != queue[b]
      requires forall n :: n in queue ==> n in shm
      modifies this`files, this`shm, this`queue
      ensures files == Saved(old(files), old(shm), old(queue)) && queue == []
      ensures shm.Keys == old(shm).Keys
      ensures forall n :: n in shm ==> shm[n] == if n in old(queue) then old(shm)[n].(data := []) else old(shm)[n]
    {
      ghost var all := queue;
      ghost var k := 0;
      while queue != []
        invariant 0 <= k <= |all| && queue == all[k..]
        invariant files == Saved(old(files), old(shm), all[..k])
        invariant shm.Keys == old(shm).Keys
        invariant forall n :: n in shm ==> shm[n] == if n in all[..k] then old(shm)[n].(data := []) else old(shm)[n]
        decreases |queue|
      {
        var n := queue[0];
        NextName(all, k);
        SavedSnoc(old(files), old(shm), all[..k], n);
        files := files[n.tid := FileIn(files, n.tid) + shm[n].data];
        shm := shm[n := shm[n].(data := [])];
        queue := queue[1..];
        k := k + 1;
      }
      assert all[..k] == all;
    }
  }
}
