/** The fill level never passes the end of the buffer, exactly when the buffer size allows it. */
module ShmemBoundsProofs {
  import opened ShmemBounds

  lemma AlignUp(n: nat)
    ensures Align8(n) % 8 == 0 && n <= Align8(n) < n + 8
  {
  }

  /** The check uses the unaligned size; the aligned one still fits when the space left is a
      multiple of 8 up to a remainder below 4. */
  lemma AlignedFits(level: nat, args: nat, max: nat)
    requires level % 8 == 0 && args % 4 == 0 && max % 8 < 4 && level + RECORD + args <= max
    ensures level + RECORD + Align8(args) <= max
  {
    AlignUp(args);
    var a, b, c := level / 8, args / 4, max / 8;
    assert level == 8 * a && args == 4 * b && max == 8 * c + max % 8;
    assert Align8(args) <= args + 4;
  }

  lemma GetBufferRoom(bufsize: nat, f: Fill, size: nat, env: Env)
    requires bufsize >= SMALLEST && Bounded(bufsize, f) && size <= RECORD + 1024
    ensures var (f', ok) := GetBuffer(bufsize, f, size, env);
            Bounded(bufsize, f') && (ok ==> f'.Fill? && f'.level + size <= MaxSize(bufsize))
  {
  }

  /** What a record or event fills is a multiple of 8 and fits where it was let in. */
  lemma FilledFits(level: nat, op: Op, max: nat)
    requires Wellformed(op) && level % 8 == 0 && max % 8 < 4 && level + Asked(op) <= max
    ensures Filled(op) % 8 == 0 && level + Filled(op) <= max
  {
    hide Align8;
    match op
    case Event(dsize, _) => AlignUp(dsize + 2);
    case Record(args, _) =>
      AlignUp(args);
      AlignedFits(level, args, max);
  }

  lemma AskedSmall(op: Op)
    requires Wellformed(op)
    ensures Asked(op) <= RECORD + 1024
  {
    if op.Event? {
      AlignUp(op.dsize + 2);
    }
  }

  lemma DoKeeps(bufsize: nat, f: Fill, op: Op)
    requires bufsize >= SMALLEST && bufsize % 8 < 4 && Bounded(bufsize, f) && Wellformed(op)
    ensures Bounded(bufsize, Do(bufsize, f, op))
  {
    AskedSmall(op);
    GetBufferRoom(bufsize, f, Asked(op), op.env);
    var (f', ok) := GetBuffer(bufsize, f, Asked(op), op.env);
    hide Asked, Filled, Wellformed, GetBuffer;
    if ok {
      FilledFits(f'.level, op, MaxSize(bufsize));
    }
  }

  /** MAIN RESULT (buffer bounds). For a page-multiple buffer size, or any whose last bits leave
      less than 4 bytes over: after every sequence of events and records, whatever buffers were
      to be had, the fill level is a multiple of 8 and within the buffer. */
  lemma {:induction false} AlwaysBounded(bufsize: nat, ops: seq<Op>)
    requires bufsize >= SMALLEST && bufsize % 8 < 4 && AllOk(ops)
    ensures Bounded(bufsize, Run(bufsize, ops))
  {
    if ops != [] {
      AlwaysBounded(bufsize, ops[..|ops| - 1]);
      DoKeeps(bufsize, Run(bufsize, ops[..|ops| - 1]), ops[|ops| - 1]);
    }
  }

  const FINE := Env(false, true)

  lemma Snoc(bufsize: nat, ops: seq<Op>, op: Op)
    requires bufsize >= HEADER
    ensures Run(bufsize, ops + [op]) == Do(bufsize, Run(bufsize, ops), op)
  {
    assert (ops + [op])[..|ops|] == ops;
  }

  /** A buffer can be filled to any multiple of 8 that fits, except 8 itself. */
  lemma {:induction false} FillTo(bufsize: nat, level: nat) returns (ops: seq<Op>)
    requires bufsize >= HEADER && level % 8 == 0 && level != 8 && level <= MaxSize(bufsize)
    ensures AllOk(ops) && Run(bufsize, ops) == Fill(level, 0)
    decreases level
  {
    if level == 0 {
      ops := [];
    } else {
      var op := if level == 24 then Record(8, FINE) else Record(0, FINE);
      var before := FillTo(bufsize, level - Filled(op));
      Snoc(bufsize, before, op);
      ops := before + [op];
    }
  }

  /** With 20 bytes left at a multiple of 8, a record with 4 bytes of data takes 24. */
  lemma Overfills(bufsize: nat, level: nat)
    requires bufsize >= SMALLEST && bufsize % 8 >= 4 && level == MaxSize(bufsize) - MaxSize(bufsize) % 8 - 16
    ensures Wellformed(Record(4, FINE)) && !Bounded(bufsize, Do(bufsize, Fill(level, 0), Record(4, FINE)))
  {
    AlignUp(4);
  }

  lemma OneMoreOk(ops: seq<Op>, op: Op)
    requires AllOk(ops) && Wellformed(op)
    ensures AllOk(ops + [op])
  {
    hide Wellformed;
  }

  /** MAIN RESULT (exactly when). The fill level stays within the buffer for all sequences iff
      the buffer size modulo 8 is below 4; otherwise a record with 4 bytes of argument data can
      be let in and padded past the end. */
  lemma BoundedIff(bufsize: nat)
    requires bufsize >= SMALLEST
    ensures (forall ops :: AllOk(ops) ==> Bounded(bufsize, Run(bufsize, ops))) <==> bufsize % 8 < 4
  {
    if bufsize % 8 < 4 {
      forall ops | AllOk(ops) ensures Bounded(bufsize, Run(bufsize, ops)) {
        AlwaysBounded(bufsize, ops);
      }
    } else {
      var max := MaxSize(bufsize);
      var level := max - max % 8 - 16;
      var before := FillTo(bufsize, level);
      var op := Record(4, FINE);
      Overfills(bufsize, level);
      hide *;
      Snoc(bufsize, before, op);
      OneMoreOk(before, op);
    }
  }

  // ----- what is in the buffer -----

  /** The blocks in the current buffer by their sizes, whether there is one, and how many records
      and events got no buffer since there was. */
  datatype History = History(blocks: seq<nat>, missed: nat, open: bool)

  /** Up to the next multiple of 8. */
  function Padded(n: nat): nat { n + (8 - n % 8) % 8 }

  function Need(op: Op): nat {
    match op
    case Event(dsize, _) => if dsize == 0 then 16 else 16 + Padded(2 + dsize)
    case Record(args, _) => 16 + args
  }

  function Size(op: Op): nat {
    match op
    case Event(_, _) => Need(op)
    case Record(args, _) => 16 + Padded(args)
  }

  function Total(blocks: seq<nat>): nat {
    if blocks == [] then 0 else Total(blocks[..|blocks| - 1]) + blocks[|blocks| - 1]
  }

  /** A block goes into the current buffer if header, blocks and what it needs fit; otherwise,
      unless tracing is over, into a new one, after a LOST record if any had got no buffer. */
  function Extend(bufsize: nat, h: History, op: Op): History {
    if h.open && 16 + Total(h.blocks) + Need(op) <= bufsize then h.(blocks := h.blocks + [Size(op)])
    else if op.env.done then h
    else if !op.env.available then History([], h.missed + 1, false)
    else History((if h.missed == 0 then [] else [16]) + [Size(op)], 0, true)
  }

  function HistoryOf(bufsize: nat, ops: seq<Op>): History {
    if ops == [] then History([], 0, true) else Extend(bufsize, HistoryOf(bufsize, ops[..|ops| - 1]), ops[|ops| - 1])
  }

  lemma PaddedIs(n: nat)
    ensures Padded(n) == Align8(n)
  {
  }

  lemma TotalSnoc(blocks: seq<nat>, n: nat)
    ensures Total(blocks + [n]) == Total(blocks) + n
  {
    assert (blocks + [n])[..|blocks|] == blocks;
  }

  lemma FirstBlocks(n: nat)
    ensures Total([] + [n]) == n && Total([16] + [n]) == 16 + n
  {
    TotalSnoc([], n);
    TotalSnoc([16], n);
    TotalSnoc([], 16);
    assert [] + [16] == [16];
  }

  lemma SizesAre(op: Op)
    ensures Need(op) == Asked(op) && Size(op) == Filled(op)
  {
    match op
    case Event(dsize, _) => PaddedIs(2 + dsize);
    case Record(args, _) => PaddedIs(args);
  }

  predicate Agrees(f: Fill, h: History) {
    if h.open then f == Fill(Total(h.blocks), 0) && h.missed == 0 else f == NoBuffer(2 * h.missed)
  }

  lemma DoAgrees(bufsize: nat, f: Fill, h: History, op: Op)
    requires bufsize >= HEADER && Agrees(f, h)
    ensures Agrees(Do(bufsize, f, op), Extend(bufsize, h, op))
  {
    SizesAre(op);
    TotalSnoc(h.blocks, Size(op));
    FirstBlocks(Size(op));
    hide Need, Size, Asked, Filled, Total;
  }

  /** MAIN RESULT (what is in the buffer). After any sequence of events and records the buffer is
      filled by exactly one block for each that got it, a LOST record first if some had got none,
      and two losses are counted for each of these. */
  lemma {:induction false} FillIsHistory(bufsize: nat, ops: seq<Op>)
    requires bufsize >= HEADER
    ensures var h := HistoryOf(bufsize, ops);
            Run(bufsize, ops) == if h.open then Fill(Total(h.blocks), 0) else NoBuffer(2 * h.missed)
    ensures Agrees(Run(bufsize, ops), HistoryOf(bufsize, ops))
  {
    if ops != [] {
      var front := ops[..|ops| - 1];
      FillIsHistory(bufsize, front);
      hide Do, Extend;
      DoAgrees(bufsize, Run(bufsize, front), HistoryOf(bufsize, front), ops[|ops| - 1]);
    }
  }
}
