/** In every interleaving the reserved ranges tile the table, and who has room to write. */
module SymbolTableProofs {
  import opened SymbolTable

  lemma AppendKeeps(log: seq<Alloc>, a: Alloc, i: nat)
    requires i < |log| && AllocRight(log, i)
    ensures AllocRight(log + [a], i)
  {
    assert (log + [a])[..i] == log[..i];
    assert (log + [a])[..i + 1] == log[..i + 1];
  }

  lemma AppendProc(s: State, s': State, a: Alloc, t: Proc)
    requires ProcRight(s, t) && s'.log == s.log + [a]
    ensures ProcRight(s', t)
  {
    if t.Trying? {
      assert s'.log[..t.seen] == s.log[..t.seen];
    }
  }

  lemma ReservedRight(s: State, a: Alloc)
    requires a in s.log
    ensures ProcRight(s, Reserved(a))
  {
  }

  lemma WrapAdd(a: nat, b: nat)
    ensures (a % U32 + b) % U32 == (a + b) % U32
  {
  }

  lemma NewRight(s: State, p: nat)
    requires Inv(s) && s.hdr == HeaderOf(s.log) && Possible(s, Cas(p)) && s.hdr == ProcOf(s, p).expected
    ensures var s' := Next(s, Cas(p)); AllocRight(s'.log, |s.log|) && s'.hdr == HeaderOf(s'.log)
  {
    var s', t, n := Next(s, Cas(p)), ProcOf(s, p), |s.log|;
    assert ProcRight(s, t);
    hide Inv, ProcRight;
    assert s'.log[..n] == s.log && s'.log[..n + 1] == s'.log;
    WrapAdd(n, 1);
    WrapAdd(Total(s.log), t.size);
  }

  /** A swap that succeeds reserves the next address and the next bytes. */
  lemma SwapKeeps(s: State, p: nat)
    requires Inv(s) && Possible(s, Cas(p)) && s.hdr == ProcOf(s, p).expected
    ensures Inv(Next(s, Cas(p)))
  {
    hide ProcRight, Total;
    var s', t := Next(s, Cas(p)), ProcOf(s, p);
    var n := |s.log|;
    var a := s'.log[n];
    NewRight(s, p);
    forall i | 0 <= i < |s'.log| ensures AllocRight(s'.log, i) {
      if i < n {
        AppendKeeps(s.log, a, i);
      }
    }
    forall q | q in s'.procs ensures ProcRight(s', s'.procs[q]) {
      if q == p {
        ReservedRight(s', a);
      } else {
        AppendProc(s, s', a, s.procs[q]);
      }
    }
  }

  lemma NextKeeps(s: State, t: Step)
    requires Inv(s) && Possible(s, t)
    ensures Inv(Next(s, t))
  {
    assert s.log[..|s.log|] == s.log;
    if t.Cas? && s.hdr == ProcOf(s, t.p).expected {
      SwapKeeps(s, t.p);
    }
  }

  lemma {:induction false} RunKeeps(steps: seq<Step>)
    ensures Inv(Run(steps))
  {
    if steps != [] {
      var front := steps[..|steps| - 1];
      RunKeeps(front);
      if Possible(Run(front), steps[|steps| - 1]) {
        NextKeeps(Run(front), steps[|steps| - 1]);
      }
    }
  }

  predicate SizesOk(log: seq<Alloc>) {
    forall k :: 0 <= k < |log| ==> log[k].size >= 20
  }

  lemma {:induction false} TotalGrows(log: seq<Alloc>, i: nat, j: nat)
    requires i <= j <= |log| && SizesOk(log)
    ensures Total(log[..i]) + 20 * (j - i) <= Total(log[..j])
    decreases j
  {
    if i < j {
      TotalGrows(log, i, j - 1);
      assert log[..j][..j - 1] == log[..j - 1];
    } else {
      assert log[..i] == log[..j];
    }
  }

  lemma TotalStep(log: seq<Alloc>, i: nat)
    requires i < |log|
    ensures Total(log[..i + 1]) == Total(log[..i]) + log[i].size
  {
    assert log[..i + 1][..i] == log[..i];
  }

  lemma SizesRight(s: State)
    requires Inv(s)
    ensures SizesOk(s.log)
  {
    forall k | 0 <= k < |s.log| ensures s.log[k].size >= 20 {
      assert AllocRight(s.log, k);
    }
  }

  lemma Small(x: nat)
    requires x < U32
    ensures x % U32 == x
  {
  }

  lemma AllocExact(log: seq<Alloc>, i: nat)
    requires i < |log| && AllocRight(log, i) && i + 1 < U32 && Total(log[..i + 1]) < U32
    requires Total(log[..i + 1]) == Total(log[..i]) + log[i].size
    ensures log[i].addr == i + 1 && log[i].lo == Total(log[..i]) && log[i].hi == Total(log[..i + 1])
    ensures log[i].size >= 20
  {
    hide Total;
    Small(i + 1);
    Small(Total(log[..i]));
    Small(Total(log[..i + 1]));
  }

  /** Without wrap-around a reservation is what plain addition gives. */
  lemma Exact(s: State, i: nat)
    requires Inv(s) && Total(s.log) < U32 && i < |s.log|
    ensures var a := s.log[i];
            && a.addr == i + 1 && a.lo == Total(s.log[..i]) && a.hi == Total(s.log[..i + 1]) == a.lo + a.size
            && HEADER_SIZE + 20 * i <= a.lo && a.size >= 20 && a.hi <= Total(s.log)
  {
    var log := s.log;
    SizesRight(s);
    assert AllocRight(log, i);
    assert Total(log[..0]) == HEADER_SIZE;
    hide *;
    assert log[..|log|] == log;
    TotalGrows(log, 0, i);
    TotalGrows(log, i + 1, |log|);
    TotalStep(log, i);
    AllocExact(log, i);
  }

  lemma {:induction false} EndIs(s: State, k: nat)
    requires Inv(s) && Total(s.log) < U32 && k <= |s.log|
    ensures EndOf(s.log, k) == Total(s.log[..k])
  {
    hide Inv;
    if k > 0 {
      Exact(s, k - 1);
    }
  }

  lemma OffsetIs(s: State)
    requires Inv(s) && Total(s.log) < U32
    ensures s.hdr.offset == Total(s.log)
  {
  }

  lemma TilesWhenSmall(s: State)
    requires Inv(s) && Total(s.log) < U32
    ensures Tiled(s)
    ensures forall i :: 0 <= i < |s.log| ==> s.log[i].addr == i + 1
  {
    hide Total, Inv, EndOf;
    forall i | 0 <= i < |s.log| ensures InPlace(s.log, i) && s.log[i].addr == i + 1 {
      Exact(s, i);
      EndIs(s, i);
    }
    EndIs(s, |s.log|);
    OffsetIs(s);
    assert s.log[..|s.log|] == s.log;
  }

  /** Tiled ranges up to reservation k leave no room for a wrap-around. */
  lemma {:induction false} SmallWhenTiled(s: State, k: nat)
    requires Inv(s) && Tiled(s) && k <= |s.log|
    ensures Total(s.log[..k]) < U32
    decreases k
  {
    if k > 0 {
      SmallWhenTiled(s, k - 1);
      assert AllocRight(s.log, k - 1) && InPlace(s.log, k - 1);
      TotalStep(s.log, k - 1);
    }
  }

  /** MAIN RESULT (tiling). Whatever the interleaving: the reserved ranges tile the table from
      the header to the offset, each as long as asked for, iff the header plus all sizes fit in
      32 bits; and then the addresses handed out are 1, 2, 3, ... without repeats. */
  lemma TiledIff(steps: seq<Step>)
    ensures var s := Run(steps); Tiled(s) <==> Total(s.log) < U32
    ensures var s := Run(steps); Total(s.log) < U32 ==> forall i :: 0 <= i < |s.log| ==> s.log[i].addr == i + 1
  {
    var s := Run(steps);
    RunKeeps(steps);
    if Total(s.log) < U32 {
      TilesWhenSmall(s);
    }
    if Tiled(s) {
      SmallWhenTiled(s, |s.log|);
      assert s.log[..|s.log|] == s.log;
    }
  }

  /** MAIN RESULT (no overlap). */
  lemma RangesDisjoint(steps: seq<Step>, i: nat, j: nat)
    requires Total(Run(steps).log) < U32 && i < j < |Run(steps).log|
    ensures var log := Run(steps).log;
            && HEADER_SIZE <= log[i].lo < log[i].hi <= log[j].lo < log[j].hi <= Run(steps).hdr.offset
            && log[i].addr != log[j].addr
  {
    var s := Run(steps);
    hide Run, Total, Inv;
    RunKeeps(steps);
    SizesRight(s);
    Exact(s, i);
    Exact(s, j);
    TotalGrows(s.log, i + 1, j);
    OffsetIs(s);
  }

  lemma SeenHeader(s: State, t: Proc)
    requires Inv(s) && ProcRight(s, t) && t.Trying?
    ensures t.seen <= |s.log| && t.expected == HeaderOf(s.log[..t.seen]) && s.hdr == HeaderOf(s.log)
  {
  }

  lemma HeaderSmall(log: seq<Alloc>)
    requires Total(log) < U32
    ensures HeaderOf(log).offset == Total(log)
  {
    hide Total;
  }

  /** MAIN RESULT (lock freedom). A swap succeeds iff nobody has reserved anything since the
      process read the header: every failed swap is paid for by another process's success. */
  lemma SwapSucceedsIff(steps: seq<Step>, p: nat)
    requires var s := Run(steps); Possible(s, Cas(p)) && Total(s.log) < U32
    ensures var s := Run(steps); s.hdr == ProcOf(s, p).expected <==> ProcOf(s, p).seen == |s.log|
  {
    var s := Run(steps);
    RunKeeps(steps);
    var t := ProcOf(s, p);
    assert ProcRight(s, t);
    SizesRight(s);
    SeenHeader(s, t);
    hide *;
    assert s.log[..|s.log|] == s.log;
    TotalGrows(s.log, t.seen, |s.log|);
    HeaderSmall(s.log[..t.seen]);
    HeaderSmall(s.log);
  }

  /** What a reservation takes from the table: the next address and the bytes of its line. */
  function Taken(s: State, p: nat, size: nat): Alloc {
    Alloc(p, (s.hdr.count + 1) % U32, s.hdr.offset, (s.hdr.offset + size) % U32, size)
  }

  /** MAIN RESULT (two tries). In any state, with nobody else in between, a process that tries to
      swap has its reservation after one try or after two: a failed one reads the header anew. */
  lemma TwoTries(s: State, p: nat)
    requires Possible(s, Cas(p))
    ensures var s1, line := Next(s, Cas(p)), Taken(s, p, ProcOf(s, p).size);
            if s.hdr == ProcOf(s, p).expected
            then ProcOf(s1, p) == Reserved(line) && s1.log == s.log + [line]
            else && Possible(s1, Cas(p))
                 && var s2 := Next(s1, Cas(p));
                 ProcOf(s2, p) == Reserved(line) && s2.log == s.log + [line]
  {
    var s1 := Next(s, Cas(p));
    if s.hdr != ProcOf(s, p).expected {
      assert ProcOf(s1, p) == Trying(s.hdr, ProcOf(s, p).size, |s.log|);
    }
  }

  /** A process alone gets, for a name, a line of 20 characters more at the first try. */
  lemma OneTryAlone(s: State, p: nat, name: nat)
    requires Possible(s, Read(p, name))
    ensures var s1, line := Next(s, Read(p, name)), Taken(s, p, name + 20);
            && Possible(s1, Cas(p))
            && ProcOf(Next(s1, Cas(p)), p) == Reserved(line) && Next(s1, Cas(p)).log == s.log + [line]
  {
    assert ProcOf(Next(s, Read(p, name)), p) == Trying(s.hdr, name + 20, |s.log|);
  }

  // ----- room to write -----

  lemma StepGrows(s: State, t: Step)
    requires Possible(s, t)
    ensures Total(s.log) <= Total(Next(s, t).log)
  {
    var s' := Next(s, t);
    if t.Cas? && s.hdr == ProcOf(s, t.p).expected {
      assert s'.log[..|s.log|] == s.log;
    }
  }

  /** The lines of a process end later and later. */
  ghost predicate EndsOk(s: State) {
    forall p :: LastEnd(s, p) <= s.hdr.offset
                && (ProcOf(s, p).Reserved? ==> LastEnd(s, p) <= ProcOf(s, p).line.hi <= s.hdr.offset)
  }

  /** The offset after a swap, without wrap-around. */
  lemma SwapMoves(s: State, p: nat)
    requires Inv(s) && Possible(s, Cas(p)) && s.hdr == ProcOf(s, p).expected
    requires Total(Next(s, Cas(p)).log) < U32
    ensures Next(s, Cas(p)).hdr.offset == s.hdr.offset + ProcOf(s, p).size
  {
    var s' := Next(s, Cas(p));
    assert s'.log[..|s.log|] == s.log;
    SwapKeeps(s, p);
    OffsetIs(s');
    OffsetIs(s);
  }

  /** Only a swap moves the offset; a comparison moves one end to its line's, a fork copies one. */
  lemma EndsMove(s: State, t: Step, q: nat)
    requires Possible(s, t)
    ensures var s', swaps := Next(s, t), t.Cas? && s.hdr == ProcOf(s, t.p).expected;
            && (!swaps ==> s'.hdr == s.hdr)
            && (if t.Enlarge? && q == t.p then LastEnd(s', q) == ProcOf(s, q).line.hi && !ProcOf(s', q).Reserved?
                else if t.Fork? && q == t.child then LastEnd(s', q) == LastEnd(s, t.p) && !ProcOf(s', q).Reserved?
                else LastEnd(s', q) == LastEnd(s, q))
            && (ProcOf(s', q).Reserved? ==> ProcOf(s', q) == ProcOf(s, q) ||
                                            (swaps && q == t.p && ProcOf(s', q).line.hi == s'.hdr.offset))
  {
    hide Bumped, Longer;
  }

  lemma EndsKept(s: State, t: Step)
    requires Inv(s) && Possible(s, t) && EndsOk(s) && Total(Next(s, t).log) < U32
    ensures EndsOk(Next(s, t))
  {
    if t.Cas? && s.hdr == ProcOf(s, t.p).expected {
      SwapMoves(s, t.p);
    }
    var s' := Next(s, t);
    hide Inv, Total, Next, ProcOf, LastEnd;
    forall q ensures LastEnd(s', q) <= s'.hdr.offset
                     && (ProcOf(s', q).Reserved? ==> LastEnd(s', q) <= ProcOf(s', q).line.hi <= s'.hdr.offset)
    {
      EndsMove(s, t, q);
      assert LastEnd(s, q) <= s.hdr.offset && LastEnd(s, t.p) <= s.hdr.offset;
    }
  }

  /** What the sizes are as long as there has been room: each mapping is the whole tables up to
      the end of the process's latest line, and the file is as long as the longest mapping. */
  ghost predicate Sized(s: State) {
    && (forall p :: MappedOf(s, p) == TABLE_SIZE * (LastEnd(s, p) / TABLE_SIZE + 1))
    && (exists p :: MappedOf(s, p) == s.file)
  }

  /** Comparing a line that ends at `hi`, after one that ended at `e`, with the mapping. */
  lemma Tables(e: nat, hi: nat, m: nat)
    requires e <= hi < U32 && m == TABLE_SIZE * (e / TABLE_SIZE + 1)
    ensures hi < m ==> m == TABLE_SIZE * (hi / TABLE_SIZE + 1) && hi / TABLE_SIZE <= e / TABLE_SIZE + 1
    ensures hi >= m ==> (hi / TABLE_SIZE <= e / TABLE_SIZE + 1 <==> hi < m + TABLE_SIZE)
    ensures m <= hi < m + TABLE_SIZE ==> m + TABLE_SIZE == TABLE_SIZE * (hi / TABLE_SIZE + 1)
    ensures m <= hi ==> Longer(m) == m + TABLE_SIZE || (Longer(m) < m && m + TABLE_SIZE >= U32)
  {
  }

  lemma EnlargeViews(s: State, p: nat)
    requires ProcOf(s, p).Reserved?
    ensures var s', line := EnlargeNext(s, p), ProcOf(s, p).line;
            && ProcOf(s', p) == Placed(line) && LastEnd(s', p) == line.hi
            && MappedOf(s', p) == (if line.hi >= MappedOf(s, p) then Longer(MappedOf(s, p)) else MappedOf(s, p))
            && s'.file == (if line.hi >= MappedOf(s, p) then Longer(MappedOf(s, p)) else s.file)
            && (forall q :: q != p ==> ProcOf(s', q) == ProcOf(s, q) && LastEnd(s', q) == LastEnd(s, q)
                                       && MappedOf(s', q) == MappedOf(s, q))
  {
    hide Longer;
  }

  lemma NoGrowth(s: State, s': State, p: nat)
    requires ProcOf(s, p).Reserved? && HasRoom(s) && Sized(s) && ProcOf(s, p).line.hi < MappedOf(s, p)
    requires ProcOf(s', p) == Placed(ProcOf(s, p).line) && LastEnd(s', p) == ProcOf(s, p).line.hi && s'.file == s.file
    requires MappedOf(s, p) == TABLE_SIZE * (LastEnd(s', p) / TABLE_SIZE + 1) == MappedOf(s', p)
    requires forall q :: q != p ==> ProcOf(s', q) == ProcOf(s, q) && LastEnd(s', q) == LastEnd(s, q)
                                    && MappedOf(s', q) == MappedOf(s, q)
    ensures HasRoom(s') && Sized(s')
  {
    hide ProcOf, MappedOf, LastEnd;
    var q :| MappedOf(s, q) == s.file;
    assert MappedOf(s', q) == s'.file;
  }

  lemma Growth(s: State, s': State, p: nat)
    requires ProcOf(s, p).Reserved? && HasRoom(s) && Sized(s)
    requires ProcOf(s', p) == Placed(ProcOf(s, p).line) && LastEnd(s', p) == ProcOf(s, p).line.hi
    requires s'.file == MappedOf(s', p) >= s.file && LastEnd(s', p) < MappedOf(s', p)
    requires MappedOf(s', p) == TABLE_SIZE * (LastEnd(s', p) / TABLE_SIZE + 1)
    requires forall q :: q != p ==> ProcOf(s', q) == ProcOf(s, q) && LastEnd(s', q) == LastEnd(s, q)
                                    && MappedOf(s', q) == MappedOf(s, q)
    ensures HasRoom(s') && Sized(s')
  {
    hide ProcOf, MappedOf, LastEnd;
  }

  lemma NoRoom(s: State, s': State, p: nat)
    requires ProcOf(s, p).Reserved? && Sized(s)
    requires ProcOf(s', p) == Placed(ProcOf(s, p).line) && s'.file == MappedOf(s', p)
    requires ProcOf(s, p).line.hi >= MappedOf(s', p) || (MappedOf(s', p) < s.file && MappedOf(s, p) <= MappedOf(s', p))
    requires forall q :: q != p ==> MappedOf(s', q) == MappedOf(s, q)
    ensures !HasRoom(s')
  {
    hide MappedOf;
    var q :| MappedOf(s, q) == s.file;
    if ProcOf(s, p).line.hi < MappedOf(s', p) {
      assert q != p;
      assert MappedOf(s', q) > s'.file;
    }
  }

  /** One comparison, from a state with room. */
  lemma EnlargeIff(s: State, p: nat)
    requires ProcOf(s, p).Reserved? && HasRoom(s) && Sized(s)
    requires LastEnd(s, p) <= ProcOf(s, p).line.hi < U32
    ensures var s' := EnlargeNext(s, p);
            && (HasRoom(s') <==> Near(s, p) && !Shrinks(s, p))
            && (HasRoom(s') ==> Sized(s'))
  {
    var s', line, m := EnlargeNext(s, p), ProcOf(s, p).line, MappedOf(s, p);
    Tables(LastEnd(s, p), line.hi, m);
    EnlargeViews(s, p);
    hide EnlargeNext, Longer;
    if line.hi < m {
      NoGrowth(s, s', p);
    } else if Near(s, p) && !Shrinks(s, p) {
      Growth(s, s', p);
    } else {
      NoRoom(s, s', p);
    }
  }

  /** No other step takes room away. */
  lemma OtherSteps(s: State, t: Step)
    requires Possible(s, t) && !t.Enlarge? && HasRoom(s) && Sized(s)
    ensures HasRoom(Next(s, t)) && Sized(Next(s, t))
  {
    var s' := Next(s, t);
    var longest :| MappedOf(s, longest) == s.file;
    assert MappedOf(s', longest) == s'.file;
    forall q
      ensures MappedOf(s', q) == TABLE_SIZE * (LastEnd(s', q) / TABLE_SIZE + 1)
      ensures MappedOf(s', q) <= s'.file && (ProcOf(s', q).Placed? ==> Fits(s', q, ProcOf(s', q).line))
    {
      assert MappedOf(s, q) <= s.file && MappedOf(s, t.p) <= s.file;
      assert MappedOf(s, q) == TABLE_SIZE * (LastEnd(s, q) / TABLE_SIZE + 1);
    }
  }

  lemma StartRoom()
    ensures HasRoom(START) && Sized(START) && EndsOk(START)
  {
    assert MappedOf(START, 0) == START.file;
  }

  lemma {:induction false} RunEnds(steps: seq<Step>)
    requires Total(Run(steps).log) < U32
    ensures EndsOk(Run(steps))
  {
    if steps == [] {
      StartRoom();
    } else {
      var front, t := steps[..|steps| - 1], steps[|steps| - 1];
      var s := Run(front);
      RunKeeps(front);
      hide Total, Inv, EndsOk;
      if Possible(s, t) {
        StepGrows(s, t);
        RunEnds(front);
        EndsKept(s, t);
      } else {
        RunEnds(front);
      }
    }
  }

  lemma LineSmall(s: State, p: nat)
    requires EndsOk(s) && Inv(s) && Total(s.log) < U32 && ProcOf(s, p).Reserved?
    ensures LastEnd(s, p) <= ProcOf(s, p).line.hi < U32
  {
    OffsetIs(s);
  }

  /** MAIN RESULT (room to write). In every run of any number of forked processes that stays
      within 32 bits: at every moment all mappings are backed by the file and all lines about to
      be written lie inside their process's mapping and the file, iff each line ends at most one
      table past the previous line of its process and no process sets a length below the
      current one. */
  lemma {:induction false} RoomIff(steps: seq<Step>)
    requires Total(Run(steps).log) < U32
    ensures AlwaysRoom(steps) <==> AlwaysNear(steps) && NeverShrinks(steps)
    ensures AlwaysRoom(steps) ==> Sized(Run(steps))
  {
    if steps == [] {
      StartRoom();
    } else {
      var front, t := steps[..|steps| - 1], steps[|steps| - 1];
      var s := Run(front);
      RunKeeps(front);
      hide Total, Inv, EndsOk, HasRoom, Sized, Near, Shrinks;
      if Possible(s, t) {
        StepGrows(s, t);
        RoomIff(front);
        RunEnds(front);
        if AlwaysRoom(front) {
          assert HasRoom(s);
          if t.Enlarge? {
            LineSmall(s, t.p);
            EnlargeIff(s, t.p);
          } else {
            OtherSteps(s, t);
          }
        }
      } else {
        RoomIff(front);
        assert AlwaysRoom(front) ==> HasRoom(s);
      }
    }
  }

  // ----- one process alone -----

  predicate Solo(steps: seq<Step>, p: nat) {
    forall i :: 0 <= i < |steps| ==>
      steps[i].p == p && !steps[i].Fork? && (steps[i].Read? ==> EntrySize(steps[i].name) <= TABLE_SIZE)
  }

  /** With nobody else, each line follows the previous one, and the file is the mapping. */
  ghost predicate SoloOk(s: State, p: nat) {
    var from := if LastEnd(s, p) == 0 then HEADER_SIZE else LastEnd(s, p);
    && s.file == MappedOf(s, p) && s.hdr.offset >= HEADER_SIZE
    && (ProcOf(s, p).Trying? ==> ProcOf(s, p).size <= TABLE_SIZE)
    && (if ProcOf(s, p).Reserved? then ProcOf(s, p).line.hi == s.hdr.offset <= from + TABLE_SIZE
        else s.hdr.offset == from)
  }

  lemma SoloStep(s: State, t: Step, p: nat)
    requires Inv(s) && Possible(s, t) && SoloOk(s, p) && Solo([t], p) && Total(Next(s, t).log) < U32
    ensures SoloOk(Next(s, t), p)
  {
    assert [t][0] == t;
    StepGrows(s, t);
    if t.Cas? && s.hdr == ProcOf(s, p).expected {
      SwapMoves(s, p);
    }
    hide Inv, Total;
  }

  lemma {:induction false} SoloRun(steps: seq<Step>, p: nat)
    requires Solo(steps, p) && Total(Run(steps).log) < U32
    ensures SoloOk(Run(steps), p)
  {
    if steps != [] {
      var front, t := steps[..|steps| - 1], steps[|steps| - 1];
      var s := Run(front);
      RunKeeps(front);
      assert Solo([t], p) && Solo(front, p);
      hide Total, Inv, SoloOk, Solo;
      if Possible(s, t) {
        StepGrows(s, t);
        SoloRun(front, p);
        SoloStep(s, t, p);
      } else {
        SoloRun(front, p);
      }
    }
  }

  /** One process alone always compares a near line; it shortens the file only when its mapping
      has reached the last table size of 32 bits, and the new size wraps to 0. */
  lemma SoloCompares(s: State, p: nat)
    requires SoloOk(s, p) && ProcOf(s, p).Reserved? && ProcOf(s, p).line.hi < U32
    requires LastEnd(s, p) < U32 - TABLE_SIZE && MappedOf(s, p) == TABLE_SIZE * (LastEnd(s, p) / TABLE_SIZE + 1)
    ensures Near(s, p) && (Shrinks(s, p) <==> ProcOf(s, p).line.hi >= U32 - TABLE_SIZE)
  {
  }

  lemma SizedAt(s: State, p: nat)
    requires Sized(s)
    ensures MappedOf(s, p) == TABLE_SIZE * (LastEnd(s, p) / TABLE_SIZE + 1)
  {
  }

  /** MAIN RESULT (one process). Alone, with lines of at most a table size, a process has room at
      every moment iff its latest line ends below 4 GiB less one table size. */
  lemma {:induction false} SoloFits(steps: seq<Step>, p: nat)
    requires Solo(steps, p) && Total(Run(steps).log) < U32
    ensures AlwaysRoom(steps) <==> LastEnd(Run(steps), p) < U32 - TABLE_SIZE
  {
    RoomIff(steps);
    if steps == [] {
      StartRoom();
    } else {
      var front, t := steps[..|steps| - 1], steps[|steps| - 1];
      var s := Run(front);
      RunKeeps(front);
      assert Solo(front, p) && t.p == p && !t.Fork?;
      hide Total, Inv, SoloOk, Solo, HasRoom, Sized, Near, Shrinks, EndsOk;
      if Possible(s, t) {
        StepGrows(s, t);
        SoloFits(front, p);
        SoloRun(front, p);
        RunEnds(front);
        RoomIff(front);
        if t.Enlarge? {
          LineSmall(s, p);
          if AlwaysRoom(front) {
            SizedAt(s, p);
            SoloCompares(s, p);
          }
        }
      } else {
        SoloFits(front, p);
        RoomIff(front);
      }
    }
  }

  // ----- runs without room -----

  lemma RunStep(steps: seq<Step>, t: Step)
    requires Possible(Run(steps), t)
    ensures Run(steps + [t]) == Next(Run(steps), t)
    ensures AlwaysNear(steps + [t]) <==> AlwaysNear(steps) && (t.Enlarge? ==> Near(Run(steps), t.p))
    ensures NeverShrinks(steps + [t]) <==> NeverShrinks(steps) && (t.Enlarge? ==> !Shrinks(Run(steps), t.p))
  {
    hide Next, Near, Shrinks;
    assert (steps + [t])[..|steps|] == steps;
  }

  lemma BumpedSmall(h: Header, size: nat)
    requires h.count + 1 < U32 && h.offset + size < U32
    ensures Bumped(h, size) == Header(h.count + 1, h.offset + size)
  {
  }

  /** The processes, mappings and latest ends other than those of p. */
  ghost predicate SameBut(s: State, s': State, p: nat) {
    forall q :: q != p ==> ProcOf(s', q) == ProcOf(s, q) && MappedOf(s', q) == MappedOf(s, q)
                           && LastEnd(s', q) == LastEnd(s, q)
  }

  /** A process reads the header and swaps with nobody in between. */
  lemma Reserves(steps: seq<Step>, p: nat, name: nat)
    requires ProcOf(Run(steps), p).Idle?
    requires Run(steps).hdr.count + 1 < U32 && Run(steps).hdr.offset + EntrySize(name) < U32
    ensures var s, t := Run(steps), steps + [Read(p, name), Cas(p)];
            var s' := Run(t);
            && s'.hdr == Header(s.hdr.count + 1, s.hdr.offset + EntrySize(name))
            && ProcOf(s', p).Reserved? && ProcOf(s', p).line.lo == s.hdr.offset
            && ProcOf(s', p).line.hi == s'.hdr.offset
            && s'.file == s.file && MappedOf(s', p) == MappedOf(s, p) && LastEnd(s', p) == LastEnd(s, p)
            && SameBut(s, s', p)
            && (AlwaysNear(t) <==> AlwaysNear(steps)) && (NeverShrinks(t) <==> NeverShrinks(steps))
  {
    BumpedSmall(Run(steps).hdr, EntrySize(name));
    hide Run, Bumped, AlwaysNear, NeverShrinks;
    RunStep(steps, Read(p, name));
    RunStep(steps + [Read(p, name)], Cas(p));
    assert (steps + [Read(p, name)]) + [Cas(p)] == steps + [Read(p, name), Cas(p)];
  }

  lemma Enlarges(steps: seq<Step>, p: nat)
    requires ProcOf(Run(steps), p).Reserved?
    ensures var s, t, line := Run(steps), steps + [Enlarge(p)], ProcOf(Run(steps), p).line;
            var s' := Run(t);
            && s'.hdr == s.hdr && ProcOf(s', p) == Placed(line) && LastEnd(s', p) == line.hi
            && MappedOf(s', p) == (if line.hi >= MappedOf(s, p) then Longer(MappedOf(s, p)) else MappedOf(s, p))
            && s'.file == (if line.hi >= MappedOf(s, p) then Longer(MappedOf(s, p)) else s.file)
            && SameBut(s, s', p)
            && (AlwaysNear(t) <==> AlwaysNear(steps) && Near(s, p))
            && (NeverShrinks(t) <==> NeverShrinks(steps) && !Shrinks(s, p))
  {
    hide Run, AlwaysNear, NeverShrinks, Near, Shrinks, Longer, ProcOf, MappedOf, LastEnd;
    EnlargeViews(Run(steps), p);
    RunStep(steps, Enlarge(p)) by {
      assert Possible(Run(steps), Enlarge(p));
    }
  }

  lemma Writes(steps: seq<Step>, p: nat)
    requires ProcOf(Run(steps), p).Placed?
    ensures var s, t := Run(steps), steps + [Write(p)];
            var s' := Run(t);
            && s'.hdr == s.hdr && ProcOf(s', p) == Idle && s'.file == s.file
            && MappedOf(s', p) == MappedOf(s, p) && LastEnd(s', p) == LastEnd(s, p)
            && SameBut(s, s', p)
            && (AlwaysNear(t) <==> AlwaysNear(steps)) && (NeverShrinks(t) <==> NeverShrinks(steps))
  {
    hide Run, AlwaysNear, NeverShrinks;
    RunStep(steps, Write(p));
  }

  /** A whole call of get_new_sym_addr. */
  function Line(p: nat, name: nat): seq<Step> {
    [Read(p, name), Cas(p)] + [Enlarge(p)] + [Write(p)]
  }

  /** A call with nobody in between, in a run without a far line or a lowered length so far. */
  lemma Calls(steps: seq<Step>, p: nat, name: nat)
    requires ProcOf(Run(steps), p).Idle?
    requires Run(steps).hdr.count + 1 < U32 && Run(steps).hdr.offset + EntrySize(name) < U32
    ensures var s, t, hi := Run(steps), steps + Line(p, name), Run(steps).hdr.offset + EntrySize(name);
            var s' := Run(t);
            && s'.hdr == Header(s.hdr.count + 1, hi) && ProcOf(s', p).Idle? && LastEnd(s', p) == hi
            && MappedOf(s', p) == (if hi >= MappedOf(s, p) then Longer(MappedOf(s, p)) else MappedOf(s, p))
            && s'.file == (if hi >= MappedOf(s, p) then Longer(MappedOf(s, p)) else s.file)
            && SameBut(s, s', p)
            && (AlwaysNear(steps) && hi / TABLE_SIZE <= LastEnd(s, p) / TABLE_SIZE + 1 ==> AlwaysNear(t))
            && (NeverShrinks(steps) && (hi >= MappedOf(s, p) ==> Longer(MappedOf(s, p)) >= s.file) ==> NeverShrinks(t))
  {
    hide Run, NeverShrinks, AlwaysNear, Longer;
    var t := steps + [Read(p, name), Cas(p)];
    Reserves(steps, p, name);
    Enlarges(t, p);
    Writes(t + [Enlarge(p)], p);
    assert t + [Enlarge(p)] + [Write(p)] == steps + Line(p, name);
  }

  /** Process 0 fills almost two tables, and process 1 then has its first line behind them. */
  const FULL: seq<Step> := Line(0, TABLE_SIZE - 48) + Line(0, TABLE_SIZE - 41)

  lemma FullRun()
    ensures var s := Run(FULL);
            && s.hdr == Header(2, 2 * TABLE_SIZE - 1) && s.file == 2 * TABLE_SIZE
            && (forall q :: ProcOf(s, q).Idle?) && MappedOf(s, 1) == TABLE_SIZE && LastEnd(s, 1) == 0
            && NeverShrinks(FULL)
  {
    assert Run([]) == START && NeverShrinks([]);
    hide Run, NeverShrinks, AlwaysNear, Line;
    var s1 := Line(0, TABLE_SIZE - 48);
    assert [] + s1 == s1;
    Calls([], 0, TABLE_SIZE - 48);
    Calls(s1, 0, TABLE_SIZE - 41);
  }

  /** The first condition is needed: although no length is ever lowered, process 1 enlarges its
      mapping once and is to write beyond it. */
  lemma SecondProcessMisses()
    ensures var run := FULL + [Read(1, 0), Cas(1)] + [Enlarge(1)];
            var s := Run(run);
            NeverShrinks(run) && ProcOf(s, 1).Placed? && ProcOf(s, 1).line.hi >= MappedOf(s, 1)
  {
    FullRun();
    hide Run, NeverShrinks, AlwaysNear;
    Reserves(FULL, 1, 0);
    Enlarges(FULL + [Read(1, 0), Cas(1)], 1);
  }

  /** Process 1 has its first line across the end of the first table, and is held up before it
      enlarges the file; process 0 has two lines after it. */
  const LAG: seq<Step> := [Read(1, TABLE_SIZE - 28), Cas(1)] + Line(0, 0) + Line(0, TABLE_SIZE - 20)

  lemma LagRun()
    ensures var s := Run(LAG);
            && s.hdr == Header(3, 2 * TABLE_SIZE + 60) && s.file == 3 * TABLE_SIZE && ProcOf(s, 0).Idle?
            && MappedOf(s, 0) == 3 * TABLE_SIZE && LastEnd(s, 0) == 2 * TABLE_SIZE + 60
            && ProcOf(s, 1).Reserved? && ProcOf(s, 1).line.hi == TABLE_SIZE + 40
            && MappedOf(s, 1) == TABLE_SIZE && LastEnd(s, 1) == 0
            && AlwaysNear(LAG)
  {
    assert Run([]) == START && AlwaysNear([]);
    hide Run, NeverShrinks, AlwaysNear, Line;
    var s1 := [Read(1, TABLE_SIZE - 28), Cas(1)];
    assert [] + s1 == s1;
    Reserves([], 1, TABLE_SIZE - 28);
    Calls(s1, 0, 0);
    Calls(s1 + Line(0, 0), 0, TABLE_SIZE - 20);
  }

  /** The second condition is needed: although every line is near the previous one of its process,
      process 1 cuts the file to two tables, and process 0 is to write its next line, inside its
      mapping, behind the end of the file. */
  lemma LaggardShrinks()
    ensures var run := LAG + [Enlarge(1)] + [Read(0, 0), Cas(0)] + [Enlarge(0)];
            var s := Run(run);
            && AlwaysNear(run) && ProcOf(s, 0).Placed?
            && s.file <= ProcOf(s, 0).line.lo < ProcOf(s, 0).line.hi < MappedOf(s, 0)
  {
    LagRun();
    hide Run, NeverShrinks, AlwaysNear;
    Enlarges(LAG, 1);
    var s1 := LAG + [Enlarge(1)];
    Reserves(s1, 0, 0);
    Enlarges(s1 + [Read(0, 0), Cas(0)], 0);
  }
}
