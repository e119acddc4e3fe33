/** Saved code stays where it is and what it is: slots do not overlap, used and frozen bytes are never
    written again, lookups find what was saved, and copied branches reach their targets. */
module CodePagesProofs {
  import opened CodePages
  import opened Wrappers

  // ----- the parts of one slot -----

  /** MAIN RESULT (parts apart). The code, the branch table and the saved original bytes of a slot
      follow one another without overlap and end within it. */
  lemma PartsApart(info: Info, jmp: seq<Byte>)
    ensures InsnSize(info, jmp) <= PatchSize(info, jmp)
    ensures info.modified ==>
              && InsnSize(info, jmp) + TableSize(info) <= OrigOffset(info, jmp)
              && OrigOffset(info, jmp) + |info.orig| <= PatchSize(info, jmp)
  {
    if info.modified {
      AlignedEnd(info, jmp);
    } else {
      AlignUp(InsnSize(info, jmp), 32);
    }
  }

  lemma SpliceAt(s: seq<Byte>, at: nat, b: seq<Byte>)
    requires at + |b| <= |s|
    ensures At(Splice(s, at, b), at, b)
  {
  }

  /** A splice elsewhere leaves a part as it is. */
  lemma SpliceKeeps(s: seq<Byte>, at: nat, b: seq<Byte>, from: nat, c: seq<Byte>)
    requires at + |b| <= |s| && At(s, from, c) && (from + |c| <= at || at + |b| <= from)
    ensures At(Splice(s, at, b), from, c)
  {
    var r := Splice(s, at, b);
    SpliceIs(s, at, b);
    forall i | 0 <= i < |c| ensures r[from..from + |c|][i] == c[i] {
      assert s[from..from + |c|][i] == c[i];
    }
  }

  lemma WrittenHolds(bytes: seq<Byte>, t: Slot)
    requires BranchesOk(t.info) && t.at + PatchSize(t.info, t.jmp) <= |bytes|
    ensures Holds(Written(bytes, t.at, t.info, t.jmp), t)
  {
    hide PatchSize, OrigOffset, Code, Table, TableSize, At, Splice;
    PartsApart(t.info, t.jmp);
    var code, n := Code(t.info, t.jmp), InsnSize(t.info, t.jmp);
    if t.info.modified {
      var o, table := OrigOffset(t.info, t.jmp), Table(t.info, t.jmp);
      var b1 := Splice(bytes, t.at + o, t.info.orig);
      var b2 := Splice(b1, t.at + n, table);
      SpliceAt(bytes, t.at + o, t.info.orig);
      SpliceKeeps(b1, t.at + n, table, t.at + o, t.info.orig);
      SpliceAt(b1, t.at + n, table);
      SpliceKeeps(b2, t.at, code, t.at + o, t.info.orig);
      SpliceKeeps(b2, t.at, code, t.at + n, table);
      SpliceAt(b2, t.at, code);
    } else {
      SpliceAt(bytes, t.at, code);
    }
  }

  lemma SpliceAbove(s: seq<Byte>, at: nat, b: seq<Byte>, p: nat)
    requires at + |b| <= |s| && p <= at
    ensures Splice(s, at, b)[..p] == s[..p]
  {
  }

  /** Nothing below the slot is written. */
  lemma WrittenAbove(bytes: seq<Byte>, p: nat, info: Info, jmp: seq<Byte>)
    requires BranchesOk(info) && p + PatchSize(info, jmp) <= |bytes|
    ensures Written(bytes, p, info, jmp)[..p] == bytes[..p]
  {
    hide PatchSize, OrigOffset, Code, Table, Splice;
    PartsApart(info, jmp);
    if info.modified {
      var o, n, table := OrigOffset(info, jmp), InsnSize(info, jmp), Table(info, jmp);
      var b1 := Splice(bytes, p + o, info.orig);
      SpliceAbove(bytes, p + o, info.orig, p);
      SpliceAbove(b1, p + n, table, p);
      SpliceAbove(Splice(b1, p + n, table), p, Code(info, jmp), p);
    } else {
      SpliceAbove(bytes, p, Code(info, jmp), p);
    }
  }

  lemma PrefixHolds(b: seq<Byte>, c: seq<Byte>, p: nat, t: Slot)
    requires BranchesOk(t.info) && Holds(b, t) && t.at + PatchSize(t.info, t.jmp) <= p <= |b|
    requires p <= |c| && b[..p] == c[..p]
    ensures Holds(c, t)
  {
    hide PatchSize, OrigOffset, Code, Table;
    PartsApart(t.info, t.jmp);
    assert forall from: nat, x: seq<Byte> :: At(b, from, x) && from + |x| <= p ==> At(c, from, x) by {
      forall from: nat, x: seq<Byte> | At(b, from, x) && from + |x| <= p ensures At(c, from, x) {
        assert b[from..from + |x|] == b[..p][from..from + |x|];
        assert c[from..from + |x|] == c[..p][from..from + |x|];
      }
    }
  }

  // ----- pages only grow -----

  /** s' has all of s: the same pages in the same order, what is below each position unchanged,
      and frozen pages unchanged altogether. */
  ghost predicate Extends(s: State, s': State) {
    && |s.pages| <= |s'.pages|
    && forall i :: 0 <= i < |s.pages| ==>
         && |s'.pages[i].bytes| == |s.pages[i].bytes|
         && s.pages[i].pos <= s'.pages[i].pos
         && s.pages[i].pos <= |s.pages[i].bytes|
         && s'.pages[i].bytes[..s.pages[i].pos] == s.pages[i].bytes[..s.pages[i].pos]
         && (s.pages[i].frozen ==> s'.pages[i] == s.pages[i])
  }

  lemma ExtendsTrans(s: State, t: State, u: State)
    requires Extends(s, t) && Extends(t, u)
    ensures Extends(s, u)
  {
    forall i | 0 <= i < |s.pages|
      ensures u.pages[i].bytes[..s.pages[i].pos] == s.pages[i].bytes[..s.pages[i].pos]
    {
      var p, q := s.pages[i].pos, t.pages[i].pos;
      assert u.pages[i].bytes[..p] == u.pages[i].bytes[..q][..p];
      assert t.pages[i].bytes[..p] == t.pages[i].bytes[..q][..p];
    }
  }

  lemma PagesForIs(pages: seq<Page>, size: nat)
    ensures var r := PagesFor(pages, size);
            && |pages| <= |r| && r[..|pages|] == pages
            && (forall i :: |pages| <= i < |r| ==> r[i] == FreshPage())
            && !r[|r| - 1].frozen
            && (size <= CHUNK ==> r[|r| - 1].pos + size <= CHUNK)
  {
  }

  lemma SaveExtends(s: State, info: Info, callSize: nat, jmp: seq<Byte>)
    requires Shaped(s) && Saveable(info, jmp)
    ensures Extends(s, SaveCode(s, info, callSize, jmp))
  {
    hide Written, PatchSize, PagesFor, OrigOffset, InsnSize;
    var size := PatchSize(info, jmp);
    var r := PagesFor(s.pages, size);
    PagesForIs(s.pages, size);
    var n := |r| - 1;
    WrittenAbove(r[n].bytes, r[n].pos, info, jmp);
    assert forall i :: 0 <= i < |s.pages| ==> r[i] == s.pages[i] by {
      assert forall i :: 0 <= i < |s.pages| ==> r[..|s.pages|][i] == r[i];
    }
  }

  lemma DoExtends(s: State, op: Op)
    requires Shaped(s)
    ensures Extends(s, Do(s, op))
  {
    hide Saveable, SaveCode;
    if op.Save? && Saveable(op.info, op.jmp) {
      SaveExtends(s, op.info, op.callSize, op.jmp);
    }
  }

  /** MAIN RESULT (frozen pages). Whatever is saved and frozen after some point: the pages of
      that point are still there, bytes once used are never written again, and no byte of a page
      that was frozen is. */
  lemma {:induction false} RunExtends(s: State, ops: seq<Op>)
    requires Shaped(s)
    ensures Extends(s, Run(s, ops))
  {
    if ops == [] {
    } else {
      hide Extends, Do, Shaped;
      var front := ops[..|ops| - 1];
      RunExtends(s, front);
      DoExtends(Run(s, front), ops[|ops| - 1]);
      ExtendsTrans(s, Run(s, front), Run(s, ops));
    }
  }

  // ----- slots -----

  lemma SlotKept(s: State, s': State, t: Slot)
    requires Shaped(s) && Shaped(s') && Extends(s, s') && SlotOk(s, t)
    ensures SlotOk(s', t)
  {
    hide Holds, PatchSize;
    PrefixHolds(s.pages[t.page].bytes, s'.pages[t.page].bytes, s.pages[t.page].pos, t);
  }

  lemma NewSlot(s: State, info: Info, callSize: nat, jmp: seq<Byte>)
    requires Inv(s) && Saveable(info, jmp)
    ensures var s' := SaveCode(s, info, callSize, jmp);
            var t := s'.slots[|s.slots|];
            && SlotOk(s', t) && s'.code[info.addr + callSize] == EntryOf(t)
            && forall i :: 0 <= i < |s.slots| ==> Apart(s.slots[i], t)
  {
    hide Holds, PatchSize, OrigOffset, Written, PagesFor, InsnSize, Splice;
    var s' := SaveCode(s, info, callSize, jmp);
    var t := s'.slots[|s.slots|];
    var r := PagesFor(s.pages, PatchSize(info, jmp));
    PagesForIs(s.pages, PatchSize(info, jmp));
    WrittenHolds(r[|r| - 1].bytes, t);
    forall i | 0 <= i < |s.slots| ensures Apart(s.slots[i], t) {
      assert SlotOk(s, s.slots[i]);
      assert r[..|s.pages|][s.slots[i].page] == r[s.slots[i].page];
    }
  }

  lemma AllKept(s: State, s': State)
    requires Inv(s) && Shaped(s') && Extends(s, s')
    ensures forall i :: 0 <= i < |s.slots| ==> SlotOk(s', s.slots[i])
  {
    hide SlotOk, Extends, Shaped, CodeOk, Apart;
    forall i | 0 <= i < |s.slots| ensures SlotOk(s', s.slots[i]) {
      SlotKept(s, s', s.slots[i]);
    }
  }

  lemma InvParts(s: State)
    requires Inv(s)
    ensures Shaped(s) && CodeOk(s.code, s.slots)
  {
    hide CodeOk, SlotOk, Apart;
  }

  lemma SlotsSnoc(now: seq<Slot>, was: seq<Slot>, t: Slot)
    requires |now| == |was| + 1 && now[..|was|] == was && now[|was|] == t
    ensures now == was + [t]
  {
  }

  lemma OneMore(s: State, s': State, t: Slot)
    requires Inv(s) && Shaped(s') && s'.slots == s.slots + [t] && CodeOk(s'.code, s'.slots) && SlotOk(s', t)
    requires forall i :: 0 <= i < |s.slots| ==> SlotOk(s', s.slots[i]) && Apart(s.slots[i], t)
    ensures Inv(s')
  {
    hide SlotOk, Apart, CodeOk, Shaped;
  }

  lemma LatestSave(slots: seq<Slot>, t: Slot)
    ensures forall a :: LastSave(slots + [t], a) == if a == t.key then |slots| else LastSave(slots, a)
  {
    assert (slots + [t])[..|slots|] == slots;
  }

  lemma CodeKept(code: map<nat, Entry>, slots: seq<Slot>, t: Slot)
    requires CodeOk(code, slots)
    ensures CodeOk(code[t.key := EntryOf(t)], slots + [t])
  {
    LatestSave(slots, t);
    hide LastSave, EntryOf;
  }

  lemma SavedFields(s: State, info: Info, callSize: nat, jmp: seq<Byte>)
    requires Shaped(s) && Saveable(info, jmp)
    ensures var s' := SaveCode(s, info, callSize, jmp);
            && |s'.slots| == |s.slots| + 1 && s'.slots[..|s.slots|] == s.slots
            && s'.slots[|s.slots|].key == info.addr + callSize
            && s'.slots[|s.slots|].info == info && s'.slots[|s.slots|].jmp == jmp
            && s'.code == s.code[info.addr + callSize := EntryOf(s'.slots[|s.slots|])]
  {
    hide PagesFor, PatchSize, OrigOffset, Written, InsnSize;
  }

  lemma SaveKeeps(s: State, info: Info, callSize: nat, jmp: seq<Byte>)
    requires Inv(s) && Saveable(info, jmp)
    ensures Inv(SaveCode(s, info, callSize, jmp))
  {
    hide *;
    InvParts(s);
    var s' := SaveCode(s, info, callSize, jmp);
    SaveExtends(s, info, callSize, jmp);
    NewSlot(s, info, callSize, jmp);
    SavedFields(s, info, callSize, jmp);
    AllKept(s, s');
    var t := s'.slots[|s.slots|];
    SlotsSnoc(s'.slots, s.slots, t);
    CodeKept(s.code, s.slots, t);
    OneMore(s, s', t);
  }

  lemma FreezeKeeps(s: State)
    requires Inv(s)
    ensures Inv(FreezeCode(s))
  {
    DoExtends(s, Freeze);
    hide SlotOk, Apart, EntryOf, Extends;
    forall i | 0 <= i < |s.slots| ensures SlotOk(FreezeCode(s), s.slots[i]) {
      SlotKept(s, FreezeCode(s), s.slots[i]);
    }
  }

  lemma {:induction false} RunKeeps(ops: seq<Op>)
    ensures Inv(Run(START, ops))
  {
    if ops != [] {
      hide SaveCode, FreezeCode, SlotOk, Saveable;
      var front, op := ops[..|ops| - 1], ops[|ops| - 1];
      RunKeeps(front);
      if op.Freeze? {
        FreezeKeeps(Run(START, front));
      } else if Saveable(op.info, op.jmp) {
        SaveKeeps(Run(START, front), op.info, op.callSize, op.jmp);
      }
    }
  }

  /** MAIN RESULT (slots). After any sequence of saves and freezes, two slots of the same page do
      not overlap and every slot lies inside its page. */
  lemma SlotsApart(ops: seq<Op>, i: nat, j: nat)
    requires i < j < |Run(START, ops).slots|
    ensures var s := Run(START, ops); var t, u := s.slots[i], s.slots[j];
            && t.page < |s.pages| && u.page < |s.pages|
            && (t.page == u.page ==> t.at + PatchSize(t.info, t.jmp) <= u.at)
            && u.at + PatchSize(u.info, u.jmp) <= s.pages[u.page].pos <= CHUNK == |s.pages[u.page].bytes|
  {
    RunKeeps(ops);
    hide Run, Holds;
    var s := Run(START, ops);
    assert SlotOk(s, s.slots[i]) && SlotOk(s, s.slots[j]) && Apart(s.slots[i], s.slots[j]);
  }

  /** MAIN RESULT (finding code). At any time the code found for an address is the code of the
      latest save for it, still byte for byte what was saved, jump and saved original included. */
  lemma FindsLatest(ops: seq<Op>, a: nat)
    ensures var s := Run(START, ops); var i := LastSave(s.slots, a);
            && (a in s.code <==> i >= 0)
            && (i >= 0 ==>
                  var t, e := s.slots[i], s.code[a];
                  && e.page < |s.pages| && BranchesOk(t.info)
                  && At(s.pages[e.page].bytes, e.insn, Code(t.info, t.jmp)) && e.insnSize == |Code(t.info, t.jmp)|
                  && (t.info.modified ==>
                        At(s.pages[e.page].bytes, e.orig, t.info.orig) && e.origSize == |t.info.orig|))
  {
    RunKeeps(ops);
    hide Run, Code, OrigOffset, PatchSize, At;
    var s := Run(START, ops);
    var i := LastSave(s.slots, a);
    if i >= 0 {
      assert SlotOk(s, s.slots[i]);
    }
  }

  // ----- sizes and places -----

  lemma Multiples(q: nat)
    ensures q * 16 % 16 == 0 && q * 32 % 32 == 0
  {
  }

  lemma AlignedIs(n: nat)
    ensures Align(n, 16) % 16 == 0 && n <= Align(n, 16) < n + 16
    ensures Align(n, 32) % 32 == 0 && n <= Align(n, 32) < n + 32
  {
    Multiples((n + 15) / 16);
    Multiples((n + 31) / 32);
    AlignUp(n, 16);
    AlignUp(n, 32);
    assert Align(n, 16) == (n + 15) / 16 * 16 && Align(n, 32) == (n + 31) / 32 * 32;
    hide Align;
  }

  /** A slot is the smallest multiple of 32 with room for its parts, the first two of them rounded
      up to multiples of 16; the original bytes are at its end. */
  lemma SlotSize(info: Info, jmp: seq<Byte>) returns (code: nat, orig: nat)
    ensures var need := if info.modified then code + orig + 16 * Entries(info, 0) else |info.insns| + |jmp|;
            PatchSize(info, jmp) % 32 == 0 && need <= PatchSize(info, jmp) < need + 32
    ensures code % 16 == 0 && |info.insns| + |jmp| <= code < |info.insns| + |jmp| + 16
    ensures orig % 16 == 0 && |info.orig| <= orig < |info.orig| + 16
    ensures OrigOffset(info, jmp) == if info.modified then PatchSize(info, jmp) - orig else 0
  {
    code, orig := Align(InsnSize(info, jmp), 16), Align(|info.orig|, 16);
    var need := if info.modified then code + orig + TableSize(info) else InsnSize(info, jmp);
    AlignedIs(InsnSize(info, jmp));
    AlignedIs(|info.orig|);
    AlignedIs(need);
    hide Align, Entries;
  }

  lemma FreshIs()
    ensures FreshPage().pos == 0 && !FreshPage().frozen && |FreshPage().bytes| == CHUNK
    ensures forall i :: 0 <= i < CHUNK ==> FreshPage().bytes[i] == 0
  {
  }

  /** Where a save goes: right after what the last page holds, if that page is not frozen and has
      room to its end, else to the start of a new page. */
  lemma SavePlace(s: State, info: Info, callSize: nat, jmp: seq<Byte>)
    requires Shaped(s) && Saveable(info, jmp)
    ensures var s', n := SaveCode(s, info, callSize, jmp), |s.pages|;
            var t := s'.slots[|s.slots|];
            if n > 0 && !s.pages[n - 1].frozen && s.pages[n - 1].pos + PatchSize(info, jmp) <= CHUNK
            then |s'.pages| == n && t.page == n - 1 && t.at == s.pages[n - 1].pos
            else |s'.pages| == n + 1 && t.page == n && t.at == 0
  {
    hide Written, PatchSize, OrigOffset, InsnSize, FreshPage;
    assert FreshPage().pos == 0 && !FreshPage().frozen by { FreshIs(); }
  }

  lemma FreezeAll(s: State)
    requires Shaped(s)
    ensures var s' := Do(s, Freeze);
            |s'.pages| == |s.pages| &&
            forall i :: 0 <= i < |s.pages| ==> s'.pages[i].frozen && s'.pages[i].bytes == s.pages[i].bytes
  {
  }

  /** MAIN RESULT (frozen for good). Whatever happens after a freeze, every page there was then
      stays frozen and keeps all its bytes. */
  lemma FrozenForGood(s: State, ops: seq<Op>, i: nat)
    requires Shaped(s) && i < |s.pages|
    ensures var s' := Run(Do(s, Freeze), ops);
            i < |s'.pages| && s'.pages[i].frozen && s'.pages[i].bytes == s.pages[i].bytes
  {
    FreezeAll(s);
    RunExtends(Do(s, Freeze), ops);
    hide Do, Run, Shaped;
  }

  /** The bytes of a page behind its position are zero. */
  predicate UnusedZero(p: Page) {
    forall i :: p.pos <= i < |p.bytes| ==> p.bytes[i] == 0
  }

  lemma SpliceBelow(s: seq<Byte>, at: nat, b: seq<Byte>, q: nat)
    requires at + |b| <= q <= |s|
    ensures forall i :: q <= i < |s| ==> Splice(s, at, b)[i] == s[i]
  {
    SpliceIs(s, at, b);
  }

  lemma WrittenBelow(bytes: seq<Byte>, p: nat, info: Info, jmp: seq<Byte>)
    requires BranchesOk(info) && p + PatchSize(info, jmp) <= |bytes|
    ensures forall i :: p + PatchSize(info, jmp) <= i < |bytes| ==> Written(bytes, p, info, jmp)[i] == bytes[i]
  {
    hide PatchSize, OrigOffset, Code, Table, Splice;
    PartsApart(info, jmp);
    var q := p + PatchSize(info, jmp);
    if info.modified {
      var o, n, table := OrigOffset(info, jmp), InsnSize(info, jmp), Table(info, jmp);
      var b1 := Splice(bytes, p + o, info.orig);
      SpliceBelow(bytes, p + o, info.orig, q);
      SpliceBelow(b1, p + n, table, q);
      SpliceBelow(Splice(b1, p + n, table), p, Code(info, jmp), q);
    } else {
      SpliceBelow(bytes, p, Code(info, jmp), q);
    }
  }

  lemma SaveLeavesZero(s: State, info: Info, callSize: nat, jmp: seq<Byte>)
    requires Shaped(s) && Saveable(info, jmp) && forall p :: p in s.pages ==> UnusedZero(p)
    ensures forall p :: p in SaveCode(s, info, callSize, jmp).pages ==> UnusedZero(p)
  {
    hide Written, PatchSize, OrigOffset, InsnSize, PagesFor, FreshPage;
    var r := PagesFor(s.pages, PatchSize(info, jmp));
    var n := |r| - 1;
    PagesForIs(s.pages, PatchSize(info, jmp));
    FreshIs();
    forall i | 0 <= i < |r| ensures UnusedZero(r[i]) {
      if i < |s.pages| {
        assert r[..|s.pages|][i] == r[i] && r[i] in s.pages;
      }
    }
    WrittenBelow(r[n].bytes, r[n].pos, info, jmp);
  }

  lemma FreezeLeavesZero(s: State)
    requires Shaped(s) && forall p :: p in s.pages ==> UnusedZero(p)
    ensures forall p :: p in FreezeCode(s).pages ==> UnusedZero(p)
  {
    forall i | 0 <= i < |s.pages| ensures UnusedZero(s.pages[i].(frozen := true)) {
      assert UnusedZero(s.pages[i]);
    }
  }

  /** MAIN RESULT (nothing behind the position). After any run of saves and freezes the bytes of a
      page that no save has used are still zero. */
  lemma {:induction false} RunLeavesZero(ops: seq<Op>)
    ensures forall p :: p in Run(START, ops).pages ==> UnusedZero(p)
  {
    if ops != [] {
      hide SaveCode, Saveable, UnusedZero;
      var front, op := ops[..|ops| - 1], ops[|ops| - 1];
      RunLeavesZero(front);
      var s := Run(START, front);
      if op.Freeze? {
        FreezeLeavesZero(s);
      } else if Saveable(op.info, op.jmp) {
        SaveLeavesZero(s, op.info, op.callSize, op.jmp);
      }
    }
  }

  // ----- branches -----

  /** The trampolines made for branches k up to j. */
  function EntriesUpTo(info: Info, k: nat, j: nat): nat
    requires k <= j <= |info.branches|
    decreases j - k
  {
    if k == j then 0
    else (if InPrologue(info, info.branches[k].target) then 0 else 1) + EntriesUpTo(info, k + 1, j)
  }

  predicate DistinctBranches(info: Info) {
    forall i, j :: 0 <= i < j < |info.branches| ==> info.branches[i].index != info.branches[j].index
  }

  lemma {:induction false} Untouched(info: Info, k: nat, insns: seq<Byte>, offset: nat, x: nat)
    requires k <= |info.branches| && |insns| == |info.insns| && BranchesOk(info) && x < |insns|
    requires forall j :: k <= j < |info.branches| ==> info.branches[j].index + 1 != x
    ensures PatchBranches(info, k, insns, offset).0[x] == insns[x]
    decreases |info.branches| - k
  {
    if k < |info.branches| {
      var b := info.branches[k];
      if InPrologue(info, b.target) {
        Untouched(info, k + 1, insns[b.index + 1 := Low8(b.target - (b.insnAddr + b.insnSize))], offset, x);
      } else {
        Untouched(info, k + 1, insns[b.index + 1 := Low8(offset - (b.index + JCC8))], offset + ENTRY, x);
      }
    }
  }

  lemma {:induction false} UpToWithin(info: Info, k: nat, j: nat)
    requires k <= j < |info.branches| && !InPrologue(info, info.branches[j].target)
    ensures EntriesUpTo(info, k, j) < Entries(info, k)
    ensures EntriesUpTo(info, k, j) <= j - k
    decreases j - k
  {
    if k < j {
      UpToWithin(info, k + 1, j);
    }
  }

  lemma ShiftAt(head: seq<Byte>, rest: seq<Byte>, from: nat, b: seq<Byte>)
    requires At(rest, from, b)
    ensures At(head + rest, |head| + from, b)
  {
    assert (head + rest)[|head| + from..|head| + from + |b|] == rest[from..from + |b|];
  }

  /** Branch j out of the function gets the displacement to its own trampoline. */
  lemma {:induction false} PatchedBranch(info: Info, k: nat, insns: seq<Byte>, offset: nat, j: nat)
    requires k <= j < |info.branches| && |insns| == |info.insns| && BranchesOk(info) && DistinctBranches(info)
    requires !InPrologue(info, info.branches[j].target)
    ensures var (code, table) := PatchBranches(info, k, insns, offset);
            var b, e := info.branches[j], ENTRY * EntriesUpTo(info, k, j);
            && code[b.index + 1] == Low8(offset + e - (b.index + JCC8))
            && At(table, e, Trampoline(b.target))
    decreases |info.branches| - k
  {
    hide InPrologue, Low8, Trampoline;
    var b := info.branches[k];
    UpToWithin(info, k, j);
    if k == j {
      var next := insns[b.index + 1 := Low8(offset - (b.index + JCC8))];
      Untouched(info, k + 1, next, offset + ENTRY, b.index + 1);
      var (_, rest) := PatchBranches(info, k + 1, next, offset + ENTRY);
      assert (Trampoline(b.target) + rest)[..ENTRY] == Trampoline(b.target);
    } else if InPrologue(info, b.target) {
      hide At;
      PatchedBranch(info, k + 1, insns[b.index + 1 := Low8(b.target - (b.insnAddr + b.insnSize))], offset, j);
    } else {
      var next := insns[b.index + 1 := Low8(offset - (b.index + JCC8))];
      PatchedBranch(info, k + 1, next, offset + ENTRY, j);
      var (_, rest) := PatchBranches(info, k + 1, next, offset + ENTRY);
      ShiftAt(Trampoline(b.target), rest, ENTRY * EntriesUpTo(info, k + 1, j), Trampoline(info.branches[j].target));
    }
  }

  lemma SmallDisplacement(d: nat)
    requires d < 128
    ensures Signed8(Low8(d)) == d
  {
  }

  // ----- what the bytes mean -----

  /** The number stored little-endian. */
  function FromLe(b: seq<Byte>): nat {
    if b == [] then 0 else b[0] as nat + 256 * FromLe(b[1..])
  }

  function Range(n: nat): nat { if n == 0 then 1 else 256 * Range(n - 1) }

  lemma {:induction false} LeIsRead(v: nat, n: nat)
    requires v < Range(n)
    ensures FromLe(Le(v, n)) == v
  {
    if n > 0 {
      LeIsRead(v / 256, n - 1);
      assert Le(v, n)[1..] == Le(v / 256, n - 1);
    }
  }

  /** An indirect jump through the word right behind it, and the word. */
  predicate Leads(bytes: seq<Byte>, at: nat, target: nat) {
    && at + ENTRY <= |bytes|
    && bytes[at..at + 7] == [0x3e, 0xff, 0x25, 0, 0, 0, 0]
    && FromLe(bytes[at + 7..at + 15]) == target && bytes[at + 15] == 0
  }

  lemma PartOf(bytes: seq<Byte>, from: nat, part: seq<Byte>, lo: nat, hi: nat)
    requires At(bytes, from, part) && lo <= hi <= |part|
    ensures bytes[from + lo..from + hi] == part[lo..hi]
  {
    forall i | 0 <= i < hi - lo ensures bytes[from + lo..from + hi][i] == part[lo..hi][i] {
      assert bytes[from..from + |part|][lo + i] == part[lo + i];
    }
  }

  lemma ByteOf(bytes: seq<Byte>, from: nat, part: seq<Byte>, i: nat)
    requires At(bytes, from, part) && i < |part|
    ensures from + i < |bytes| && bytes[from + i] == part[i]
  {
    assert bytes[from..from + |part|][i] == part[i];
  }

  lemma TrampolineLeads(bytes: seq<Byte>, at: nat, target: Word)
    requires At(bytes, at, Trampoline(target))
    ensures Leads(bytes, at, target)
  {
    assert Range(2) == 0x1_0000 && Range(4) == 0x1_0000_0000 && Range(6) == 0x1_0000_0000_0000;
    LeIsRead(target, 8);
    var head := [0x3e, 0xff, 0x25, 0, 0, 0, 0];
    assert Trampoline(target)[..7] == head && Trampoline(target)[7..15] == Le(target, 8) && Trampoline(target)[15] == 0;
    hide Trampoline, FromLe, Le;
    PartOf(bytes, at, Trampoline(target), 0, 7);
    PartOf(bytes, at, Trampoline(target), 7, 15);
    ByteOf(bytes, at, Trampoline(target), 15);
  }

  /** The bytes of a copied piece of code, by what they are: the jump back at its end, and before
      it the instructions as they were, but for the displacements of modified branches. A branch
      to the prologue keeps the distance it had. */
  predicate Spelled(info: Info, jmp: seq<Byte>, code: seq<Byte>) {
    && |code| == |info.insns| + |jmp| && code[|info.insns|..] == jmp
    && (!info.modified ==> code[..|info.insns|] == info.insns)
    && (forall x :: 0 <= x < |info.insns| && (forall b :: b in info.branches ==> b.index + 1 != x) ==>
          code[x] == info.insns[x])
    && (info.modified ==>
          forall b :: b in info.branches && info.addr <= b.target < info.addr + |info.orig|
                      && b.index + 1 < |info.insns| ==>
            var d := b.target - (b.insnAddr + b.insnSize);
            -128 <= d < 128 ==> Signed8(code[b.index + 1]) == d)
  }

  lemma {:induction false} PrologueBranch(info: Info, k: nat, insns: seq<Byte>, offset: nat, j: nat)
    requires k <= j < |info.branches| && |insns| == |info.insns| && BranchesOk(info) && DistinctBranches(info)
    requires InPrologue(info, info.branches[j].target)
    ensures var b := info.branches[j];
            PatchBranches(info, k, insns, offset).0[b.index + 1] == Low8(b.target - (b.insnAddr + b.insnSize))
    decreases |info.branches| - k
  {
    hide InPrologue, Low8, Trampoline;
    var b := info.branches[k];
    if InPrologue(info, b.target) {
      var next := insns[b.index + 1 := Low8(b.target - (b.insnAddr + b.insnSize))];
      if k == j {
        Untouched(info, k + 1, next, offset, b.index + 1);
      } else {
        PrologueBranch(info, k + 1, next, offset, j);
      }
    } else {
      var next := insns[b.index + 1 := Low8(offset - (b.index + JCC8))];
      PrologueBranch(info, k + 1, next, offset + ENTRY, j);
    }
  }

  lemma NearDisplacement(d: int)
    requires -128 <= d < 128
    ensures Signed8(Low8(d)) == d
  {
  }

  lemma CodeSpelled(info: Info, jmp: seq<Byte>)
    requires BranchesOk(info) && DistinctBranches(info)
    ensures Spelled(info, jmp, Code(info, jmp))
  {
    hide Low8, Signed8, PatchBranches, DistinctBranches;
    var code := Code(info, jmp);
    if info.modified {
      forall x | 0 <= x < |info.insns| && (forall b :: b in info.branches ==> b.index + 1 != x)
        ensures code[x] == info.insns[x]
      {
        Untouched(info, 0, info.insns, InsnSize(info, jmp), x);
      }
      forall b | b in info.branches && InPrologue(info, b.target) && -128 <= b.target - (b.insnAddr + b.insnSize) < 128
        ensures Signed8(code[b.index + 1]) == b.target - (b.insnAddr + b.insnSize)
      {
        var j :| 0 <= j < |info.branches| && info.branches[j] == b;
        PrologueBranch(info, 0, info.insns, InsnSize(info, jmp), j);
        NearDisplacement(b.target - (b.insnAddr + b.insnSize));
      }
    }
  }

  /** MAIN RESULT (branches reach). In a slot of the sizes the tracer uses, a copied branch that
      leaves the function jumps, by its one-byte displacement, to the table entry that holds its
      target: the displacement is never out of range. */
  lemma BranchesReach(info: Info, jmp: seq<Byte>, j: nat)
    requires info.modified && BranchesOk(info) && DistinctBranches(info) && j < |info.branches| <= 3
    requires |info.insns| <= 64 && |jmp| <= 15 && !InPrologue(info, info.branches[j].target)
    ensures var b := info.branches[j];
            var lands := b.index + JCC8 + Signed8(Code(info, jmp)[b.index + 1]);
            && InsnSize(info, jmp) <= lands
            && Leads(Table(info, jmp), lands - InsnSize(info, jmp), b.target)
  {
    var b, e := info.branches[j], ENTRY * EntriesUpTo(info, 0, j);
    PatchedBranch(info, 0, info.insns, InsnSize(info, jmp), j);
    UpToWithin(info, 0, j);
    assert Code(info, jmp)[b.index + 1] == Low8(InsnSize(info, jmp) + e - (b.index + JCC8));
    hide Code, PatchBranches, Entries, EntriesUpTo, DistinctBranches, At, Leads, Trampoline, Low8, Signed8, InPrologue;
    TrampolineLeads(Table(info, jmp), e, b.target);
    SmallDisplacement(InsnSize(info, jmp) + e - (b.index + JCC8));
  }

  lemma Within(bytes: seq<Byte>, from: nat, part: seq<Byte>, at: nat, target: nat)
    requires At(bytes, from, part) && Leads(part, at, target)
    ensures Leads(bytes, from + at, target)
  {
    PartOf(bytes, from, part, at, at + 7);
    PartOf(bytes, from, part, at + 7, at + 15);
    ByteOf(bytes, from, part, at + 15);
  }

  /** A branch, in code that starts at `at`, jumps to an entry that leads to its target. */
  predicate BranchLeads(b: Branch, bytes: seq<Byte>, at: nat) {
    && at + b.index + 1 < |bytes|
    && var lands := at + b.index + JCC8 + Signed8(bytes[at + b.index + 1]);
    lands >= 0 && Leads(bytes, lands, b.target)
  }

  /** All branches out of the function do, in a slot of the sizes the tracer uses. */
  predicate BranchesLead(info: Info, jmp: seq<Byte>, bytes: seq<Byte>, at: nat) {
    info.modified && |info.branches| <= 3 && |info.insns| <= 64 && |jmp| <= 15 ==>
      forall b :: b in info.branches && !(info.addr <= b.target < info.addr + |info.orig|) ==>
        BranchLeads(b, bytes, at)
  }

  lemma HeldParts(t: Slot, bytes: seq<Byte>, j: nat)
    requires BranchesOk(t.info) && Holds(bytes, t) && t.info.modified && j < |t.info.branches|
    ensures t.info.branches[j].index + 1 < |Code(t.info, t.jmp)|
    ensures At(bytes, t.at, Code(t.info, t.jmp))
    ensures At(bytes, t.at + InsnSize(t.info, t.jmp), Table(t.info, t.jmp))
  {
    hide Code, Table, At, OrigOffset;
  }

  lemma LeadsOn(b: Branch, bytes: seq<Byte>, at: nat)
    requires at + b.index + 1 < |bytes| && at + b.index + JCC8 + Signed8(bytes[at + b.index + 1]) >= 0
    requires Leads(bytes, at + b.index + JCC8 + Signed8(bytes[at + b.index + 1]), b.target)
    ensures BranchLeads(b, bytes, at)
  {
    hide Leads, Signed8;
  }

  lemma OneBranchLeads(t: Slot, bytes: seq<Byte>, j: nat)
    requires BranchesOk(t.info) && DistinctBranches(t.info) && Holds(bytes, t)
    requires t.info.modified && j < |t.info.branches| <= 3 && |t.info.insns| <= 64 && |t.jmp| <= 15
    requires !InPrologue(t.info, t.info.branches[j].target)
    ensures BranchLeads(t.info.branches[j], bytes, t.at)
  {
    hide *;
    var info, jmp := t.info, t.jmp;
    var b, code, table, n := info.branches[j], Code(info, jmp), Table(info, jmp), InsnSize(info, jmp);
    HeldParts(t, bytes, j);
    BranchesReach(info, jmp, j);
    ByteOf(bytes, t.at, code, b.index + 1);
    var lands := b.index + JCC8 + Signed8(code[b.index + 1]);
    Within(bytes, t.at + n, table, lands - n, b.target);
    LeadsOn(b, bytes, t.at);
  }

  lemma AllBranchesLead(t: Slot, bytes: seq<Byte>)
    requires BranchesOk(t.info) && DistinctBranches(t.info) && Holds(bytes, t)
    ensures BranchesLead(t.info, t.jmp, bytes, t.at)
  {
    hide BranchesOk, DistinctBranches, Holds, BranchLeads;
    var info := t.info;
    if info.modified && |info.branches| <= 3 && |info.insns| <= 64 && |t.jmp| <= 15 {
      forall b | b in info.branches && !InPrologue(info, b.target) ensures BranchLeads(b, bytes, t.at) {
        var j :| 0 <= j < |info.branches| && info.branches[j] == b;
        OneBranchLeads(t, bytes, j);
      }
    }
  }

  /** A saved slot, where its bytes are: the code is spelled as saved, and each branch out of the
      function jumps to a table entry that leads to its target. */
  lemma SlotSpelled(t: Slot, bytes: seq<Byte>)
    requires BranchesOk(t.info) && DistinctBranches(t.info) && Holds(bytes, t)
    ensures t.at + InsnSize(t.info, t.jmp) <= |bytes|
    ensures Spelled(t.info, t.jmp, bytes[t.at..t.at + InsnSize(t.info, t.jmp)])
    ensures BranchesLead(t.info, t.jmp, bytes, t.at)
  {
    AllBranchesLead(t, bytes);
    CodeSpelled(t.info, t.jmp);
    hide Code, Table, Spelled, BranchesLead, OrigOffset, InsnSize, DistinctBranches, BranchesOk;
  }

  /** MAIN RESULT (the code that is found). At any time the bytes found for an address are those
      of the latest save: the instructions it saved, in place, then its jump back, and every
      branch out of the function leading to its target through the table. */
  lemma FoundCodeIs(ops: seq<Op>, a: nat)
    requires forall t :: t in Run(START, ops).slots ==> DistinctBranches(t.info)
    ensures var s := Run(START, ops); var i := LastSave(s.slots, a);
            && (a in s.code <==> i >= 0)
            && (i >= 0 ==>
                  var info, jmp, e := s.slots[i].info, s.slots[i].jmp, s.code[a];
                  && e.page < |s.pages| && e.insnSize == |info.insns| + |jmp|
                  && e.insn + e.insnSize <= |s.pages[e.page].bytes|
                  && Spelled(info, jmp, s.pages[e.page].bytes[e.insn..e.insn + e.insnSize])
                  && BranchesLead(info, jmp, s.pages[e.page].bytes, e.insn))
  {
    RunKeeps(ops);
    hide Run, Spelled, BranchesLead, OrigOffset, PatchSize, Holds, LastSave, DistinctBranches;
    var s := Run(START, ops);
    var i := LastSave(s.slots, a);
    if i >= 0 {
      var t := s.slots[i];
      assert SlotOk(s, t);
      SlotSpelled(t, s.pages[t.page].bytes);
    }
  }
}
