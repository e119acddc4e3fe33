/** The code pages as writable arrays of bytes: mcount_save_code with its copies and
    mcount_freeze_code, proved against CodePages. */
module CodeWriter {
  import opened CodePages
  import CodePagesProofs
  import opened Wrappers

  lemma SpliceTwice(s: seq<Byte>, at: nat, x: seq<Byte>, y: seq<Byte>)
    requires at + |x| + |y| <= |s|
    ensures Splice(Splice(s, at, x), at + |x|, y) == Splice(s, at, x + y)
  {
    SpliceIs(s, at, x);
    SpliceIs(Splice(s, at, x), at + |x|, y);
    SpliceIs(s, at, x + y);
  }

  lemma SpliceNothing(s: seq<Byte>, at: nat)
    requires at <= |s|
    ensures Splice(s, at, []) == s
  {
  }

  method Memcpy(dst: array<Byte>, at: nat, src: seq<Byte>)
    requires at + |src| <= dst.Length
    modifies dst
    ensures dst[..] == Splice(old(dst[..]), at, src)
  {
    var i := 0;
    while i < |src|
      invariant 0 <= i <= |src|
      invariant forall k :: 0 <= k < dst.Length ==> dst[k] == if at <= k < at + i then src[k - at] else old(dst[k])
    {
      dst[at + i] := src[i];
      i := i + 1;
    }
    SpliceIs(old(dst[..]), at, src);
  }

  lemma EntriesFrom(info: Info, k: nat)
    requires k < |info.branches|
    ensures Entries(info, k) == (if InPrologue(info, info.branches[k].target) then 0 else 1) + Entries(info, k + 1)
  {
  }

  /** mcount_arch_patch_branch: the table goes right after the copied code of the slot at `p`. */
  method PatchBranch(info: Info, dst: array<Byte>, p: nat, insnSize: nat) returns (insns: seq<Byte>)
    requires BranchesOk(info) && p + insnSize + TableSize(info) <= dst.Length
    modifies dst
    ensures insns == PatchBranches(info, 0, info.insns, insnSize).0
    ensures dst[..] == Splice(old(dst[..]), p + insnSize, PatchBranches(info, 0, info.insns, insnSize).1)
  {
    hide Splice, Trampoline, Low8;
    ghost var (done, table) := PatchBranches(info, 0, info.insns, insnSize);
    var offset: nat, k: nat := insnSize, 0;
    insns := info.insns;
    while k < |info.branches|
      invariant k <= |info.branches| && |insns| == |info.insns| && p + offset + ENTRY * Entries(info, k) <= dst.Length
      invariant var (d, rest) := PatchBranches(info, k, insns, offset);
                d == done && Splice(dst[..], p + offset, rest) == Splice(old(dst[..]), p + insnSize, table)
    {
      EntriesFrom(info, k);
      var b := info.branches[k];
      if InPrologue(info, b.target) {
        insns := insns[b.index + 1 := Low8(b.target - (b.insnAddr + b.insnSize))];
      } else {
        insns := insns[b.index + 1 := Low8(offset - (b.index + JCC8))];
        SpliceTwice(dst[..], p + offset, Trampoline(b.target), PatchBranches(info, k + 1, insns, offset + ENTRY).1);
        Memcpy(dst, p + offset, Trampoline(b.target));
        offset := offset + ENTRY;
      }
      k := k + 1;
    }
    SpliceNothing(dst[..], p + offset);
  }

  lemma OrigFits(info: Info, jmp: seq<Byte>)
    requires info.modified
    ensures OrigOffset(info, jmp) + |info.orig| <= PatchSize(info, jmp)
  {
    AlignedEnd(info, jmp);
  }

  lemma PlainFits(info: Info, jmp: seq<Byte>)
    requires !info.modified
    ensures InsnSize(info, jmp) <= PatchSize(info, jmp)
  {
    AlignUp(InsnSize(info, jmp), 32);
  }

  /** The copies of one slot, in the order they are made. */
  method WriteSlot(info: Info, jmp: seq<Byte>, dst: array<Byte>, p: nat)
    requires BranchesOk(info) && p + PatchSize(info, jmp) <= dst.Length
    modifies dst
    ensures dst[..] == Written(old(dst[..]), p, info, jmp)
  {
    hide PatchSize, OrigOffset, PatchBranches, Splice, TableSize;
    var insns := info.insns;
    if info.modified {
      AlignedEnd(info, jmp);
      OrigFits(info, jmp);
      Memcpy(dst, p + OrigOffset(info, jmp), info.orig);
      insns := PatchBranch(info, dst, p, InsnSize(info, jmp));
    } else {
      AlignUp(InsnSize(info, jmp), 32);
      PlainFits(info, jmp);
    }
    SpliceTwice(dst[..], p, insns, jmp);
    Memcpy(dst, p, insns);
    Memcpy(dst, p + |insns|, jmp);
  }

  ghost function PagesOf(pages: seq<array<Byte>>, pos: seq<nat>, frozen: seq<bool>): (r: seq<Page>)
    requires |pos| == |frozen| == |pages|
    reads pages
    ensures |r| == |pages|
  {
    seq(|pages|, i requires 0 <= i < |pages| reads pages => Page(pages[i][..], pos[i], frozen[i]))
  }

  lemma PageAt(pages: seq<array<Byte>>, pos: seq<nat>, frozen: seq<bool>, i: nat)
    requires |pos| == |frozen| == |pages| && i < |pages|
    ensures PagesOf(pages, pos, frozen)[i] == Page(pages[i][..], pos[i], frozen[i])
  {
  }

  class CodeWriter {
    var pages: seq<array<Byte>>
    var pos: seq<nat>
    var frozen: seq<bool>
    var code: map<nat, Entry>
    ghost var slots: seq<Slot>

    ghost predicate Valid()
      reads this`pages, this`pos, this`frozen
    {
      && |pos| == |frozen| == |pages|
      && (forall i :: 0 <= i < |pages| ==> pages[i].Length == CHUNK && pos[i] <= CHUNK)
      && (forall i, j :: 0 <= i < j < |pages| ==> pages[i] != pages[j])
    }

    ghost function Pages(): (r: seq<Page>)
      requires Valid()
      reads this`pages, this`pos, this`frozen, pages
      ensures |r| == |pages|
    {
      PagesOf(pages, pos, frozen)
    }

    ghost function Abs(): (s: State)
      requires Valid()
      reads this, pages
      ensures Shaped(s)
    {
      State(Pages(), code, slots)
    }

    constructor ()
      ensures Valid() && Abs() == START
    {
      pages, pos, frozen, code, slots := [], [], [], map[], [];
    }

    /** alloc_codepage. */
    method AllocCodepage()
      requires Valid()
      modifies this`pages, this`pos, this`frozen
      ensures Valid() && Pages() == old(Pages()) + [FreshPage()]
      ensures |pages| == |old(pages)| + 1 && pages[..|old(pages)|] == old(pages) && fresh(pages[|old(pages)|])
    {
      var page := new Byte[CHUNK](_ => 0 as Byte);
      pages, pos, frozen := pages + [page], pos + [0], frozen + [false];
      assert page[..] == FreshPage().bytes;
    }

    /** The checks of mcount_save_code for room and for a frozen page. */
    method MakeRoom(size: nat)
      requires Valid()
      modifies this`pages, this`pos, this`frozen
      ensures Valid() && Pages() == PagesFor(old(Pages()), size) && |pages| > 0
      ensures |old(pages)| <= |pages| && pages[..|old(pages)|] == old(pages)
      ensures forall i :: |old(pages)| <= i < |pages| ==> fresh(pages[i])
    {
      hide FreshPage;
      if pages == [] || pos[|pages| - 1] + size > CHUNK {
        AllocCodepage();
      }
      if frozen[|pages| - 1] {
        AllocCodepage();
      }
    }

    /** Writing the slot at the position of the last page. */
    method FillSlot(info: Info, jmp: seq<Byte>)
      requires Valid() && |pages| > 0 && BranchesOk(info) && pos[|pages| - 1] + PatchSize(info, jmp) <= CHUNK
      modifies this`pos, pages[|pages| - 1]
      ensures Valid()
      ensures var n := |pages| - 1; var page := old(Pages())[n];
              Pages() == old(Pages())[n := Page(Written(page.bytes, page.pos, info, jmp),
                                                page.pos + PatchSize(info, jmp), page.frozen)]
    {
      hide PatchSize, Written;
      var n := |pages| - 1;
      WriteSlot(info, jmp, pages[n], pos[n]);
      pos := pos[n := pos[n] + PatchSize(info, jmp)];
      assert forall i :: 0 <= i < n ==> pages[i][..] == old(pages[i][..]);
    }

    /** mcount_save_code. */
    method SaveCode(info: Info, callSize: nat, jmp: seq<Byte>)
      requires Valid() && Saveable(info, jmp)
      modifies this, pages
      ensures Valid() && Abs() == CodePages.SaveCode(old(Abs()), info, callSize, jmp)
      ensures forall a :: a in pages && a !in old(pages) ==> fresh(a)
    {
      hide PatchSize, Written, OrigOffset, InsnSize, PagesFor, FreshPage, PagesOf;
      MakeRoom(PatchSize(info, jmp));
      CodePagesProofs.PagesForIs(old(Pages()), PatchSize(info, jmp));
      var n := |pages| - 1;
      PageAt(pages, pos, frozen, n);
      var p := pos[n];
      code := code[info.addr + callSize := Entry(n, p, p + OrigOffset(info, jmp), |info.orig|, InsnSize(info, jmp))];
      slots := slots + [Slot(n, p, info.addr + callSize, info, jmp)];
      FillSlot(info, jmp);
    }

    /** mcount_freeze_code. */
    method FreezeCode()
      requires Valid()
      modifies this`frozen
      ensures Valid() && Abs() == CodePages.FreezeCode(old(Abs()))
    {
      var i := 0;
      while i < |pages|
        invariant 0 <= i <= |pages| && Valid()
        invariant forall k :: 0 <= k < |pages| ==> frozen[k] == (k < i || old(frozen[k]))
      {
        if !frozen[i] {
          frozen := frozen[i := true];
        }
        i := i + 1;
      }
      assert Pages() == CodePages.FreezeCode(old(Abs())).pages;
    }

    /** mcount_find_code: under the invariant all saves and freezes keep, the latest save. */
    method FindCode(a: nat) returns (e: Option<Entry>)
      requires Valid()
      ensures e == if a in code then Some(code[a]) else None
      ensures CodePages.Inv(Abs()) ==>
                e == if LastSave(slots, a) < 0 then None else Some(EntryOf(slots[LastSave(slots, a)]))
    {
      e := if a in code then Some(code[a]) else None;
    }
  }
}
