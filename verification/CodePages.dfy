/** Out-of-line copies of patched instructions: alloc_codepage, mcount_save_code,
    mcount_freeze_code and mcount_find_code (libmcount/dynamic.c), with the branch table of
    x86_64 (arch/x86_64/mcount-dynamic.c). */
module CodePages {
  import opened Wrappers

  const CHUNK: nat := 8 * 4096
  const ENTRY: nat := 16
  const JCC8: nat := 2

  function Align(n: nat, a: nat): nat
    requires a > 0
  {
    (n + a - 1) / a * a
  }

  /** Storing an int into a byte, and reading it as a signed displacement. */
  function Low8(v: int): Byte { (v % 256) as Byte }
  function Signed8(b: Byte): int { if b < 128 then b as int else b as int - 256 }

  function Le(v: nat, n: nat): (r: seq<Byte>)
    ensures |r| == n
  {
    if n == 0 then [] else [(v % 256) as Byte] + Le(v / 256, n - 1)
  }

  /** Values of an unsigned long. */
  type Word = n: nat | n < 0x1_0000_0000_0000_0000

  /** A conditional branch copied to `index`, two bytes long there. */
  datatype Branch = Branch(index: nat, target: Word, insnAddr: nat, insnSize: nat)

  /** struct mcount_disasm_info: the instructions to copy and the bytes they come from. */
  datatype Info = Info(addr: nat, insns: seq<Byte>, orig: seq<Byte>, modified: bool, branches: seq<Branch>)

  predicate InPrologue(info: Info, a: nat) {
    info.addr <= a < info.addr + |info.orig|
  }

  // ----- the layout of one slot -----

  /** The trampolines the branches from k on need. */
  function Entries(info: Info, k: nat): nat
    requires k <= |info.branches|
    decreases |info.branches| - k
  {
    if k == |info.branches| then 0
    else (if InPrologue(info, info.branches[k].target) then 0 else 1) + Entries(info, k + 1)
  }

  function InsnSize(info: Info, jmp: seq<Byte>): nat { |info.insns| + |jmp| }

  function TableSize(info: Info): nat { ENTRY * Entries(info, 0) }

  function PatchSize(info: Info, jmp: seq<Byte>): nat {
    if info.modified then Align(Align(InsnSize(info, jmp), 16) + Align(|info.orig|, 16) + TableSize(info), 32)
    else Align(InsnSize(info, jmp), 32)
  }

  lemma AlignUp(n: nat, a: nat)
    requires a > 0
    ensures n <= Align(n, a) < n + a
  {
    var q, r := (n + a - 1) / a, (n + a - 1) % a;
    assert n + a - 1 == q * a + r;
  }

  lemma AlignedEnd(info: Info, jmp: seq<Byte>)
    requires info.modified
    ensures InsnSize(info, jmp) + TableSize(info) + Align(|info.orig|, 16) <= PatchSize(info, jmp)
    ensures |info.orig| <= Align(|info.orig|, 16)
  {
    AlignUp(InsnSize(info, jmp), 16);
    AlignUp(|info.orig|, 16);
    AlignUp(Align(InsnSize(info, jmp), 16) + Align(|info.orig|, 16) + TableSize(info), 32);
  }

  /** Where the saved original bytes start in the slot. */
  function OrigOffset(info: Info, jmp: seq<Byte>): (o: nat) {
    if info.modified then AlignedEnd(info, jmp); PatchSize(info, jmp) - Align(|info.orig|, 16) else 0
  }

  // ----- mcount_arch_patch_branch -----

  /** notrack jmp *(rip), then the target. */
  function Trampoline(target: nat): (r: seq<Byte>)
    ensures |r| == ENTRY
  {
    [0x3e, 0xff, 0x25, 0, 0, 0, 0] + Le(target, 8) + [0]
  }

  predicate BranchesOk(info: Info) {
    forall k :: 0 <= k < |info.branches| ==> info.branches[k].index + 1 < |info.insns|
  }

  /** The branches from k on: the instructions with new displacements, and the trampolines, the
      first of which goes to `offset`. */
  function PatchBranches(info: Info, k: nat, insns: seq<Byte>, offset: nat): (r: (seq<Byte>, seq<Byte>))
    requires k <= |info.branches| && |insns| == |info.insns| && BranchesOk(info)
    ensures |r.0| == |insns| && |r.1| == ENTRY * Entries(info, k)
    decreases |info.branches| - k
  {
    if k == |info.branches| then (insns, [])
    else
      var b := info.branches[k];
      if InPrologue(info, b.target) then
        PatchBranches(info, k + 1, insns[b.index + 1 := Low8(b.target - (b.insnAddr + b.insnSize))], offset)
      else
        var (done, table) :=
          PatchBranches(info, k + 1, insns[b.index + 1 := Low8(offset - (b.index + JCC8))], offset + ENTRY);
        (done, Trampoline(b.target) + table)
  }

  /** What is copied to the start of the slot, and the table right after it. */
  function Code(info: Info, jmp: seq<Byte>): (r: seq<Byte>)
    requires BranchesOk(info)
    ensures |r| == InsnSize(info, jmp)
  {
    (if info.modified then PatchBranches(info, 0, info.insns, InsnSize(info, jmp)).0 else info.insns) + jmp
  }

  function Table(info: Info, jmp: seq<Byte>): (r: seq<Byte>)
    requires BranchesOk(info)
    ensures |r| == TableSize(info)
  {
    PatchBranches(info, 0, info.insns, InsnSize(info, jmp)).1
  }

  // ----- pages -----

  datatype Page = Page(bytes: seq<Byte>, pos: nat, frozen: bool)

  /** struct mcount_orig_insn, with pointers as a page number and offsets. */
  datatype Entry = Entry(page: nat, insn: nat, orig: nat, origSize: nat, insnSize: nat)

  /** A save that was made: its place, its key and what it saved. */
  datatype Slot = Slot(page: nat, at: nat, key: nat, info: Info, jmp: seq<Byte>)

  datatype State = State(pages: seq<Page>, code: map<nat, Entry>, slots: seq<Slot>)
  const START := State([], map[], [])

  function FreshPage(): Page {
    Page(seq(CHUNK, _ => 0 as Byte), 0, false)
  }

  function Splice(s: seq<Byte>, at: nat, b: seq<Byte>): (r: seq<Byte>)
    requires at + |b| <= |s|
    ensures |r| == |s|
  {
    s[..at] + b + s[at + |b|..]
  }

  lemma SpliceIs(s: seq<Byte>, at: nat, b: seq<Byte>)
    requires at + |b| <= |s|
    ensures forall i :: 0 <= i < |s| ==> Splice(s, at, b)[i] == if at <= i < at + |b| then b[i - at] else s[i]
  {
  }

  predicate Saveable(info: Info, jmp: seq<Byte>) {
    BranchesOk(info) && PatchSize(info, jmp) <= CHUNK
  }

  /** The three copies: original bytes, branch table, and last the code. */
  function Written(bytes: seq<Byte>, p: nat, info: Info, jmp: seq<Byte>): (r: seq<Byte>)
    requires BranchesOk(info) && p + PatchSize(info, jmp) <= |bytes|
    ensures |r| == |bytes|
  {
    if info.modified then
      AlignedEnd(info, jmp);
      var b1 := Splice(bytes, p + OrigOffset(info, jmp), info.orig);
      var b2 := Splice(b1, p + InsnSize(info, jmp), Table(info, jmp));
      Splice(b2, p, Code(info, jmp))
    else
      AlignUp(InsnSize(info, jmp), 32);
      Splice(bytes, p, Code(info, jmp))
  }

  /** The page list after the checks for room, and then for a frozen page. */
  function PagesFor(pages: seq<Page>, size: nat): (r: seq<Page>)
    ensures r != []
  {
    var roomy := if pages == [] || pages[|pages| - 1].pos + size > CHUNK then pages + [FreshPage()] else pages;
    if roomy[|roomy| - 1].frozen then roomy + [FreshPage()] else roomy
  }

  datatype Op = Save(info: Info, callSize: nat, jmp: seq<Byte>) | Freeze

  predicate Shaped(s: State) {
    forall i :: 0 <= i < |s.pages| ==> |s.pages[i].bytes| == CHUNK && s.pages[i].pos <= CHUNK
  }

  function SaveCode(s: State, info: Info, callSize: nat, jmp: seq<Byte>): (r: State)
    requires Shaped(s) && Saveable(info, jmp)
    ensures Shaped(r)
  {
    var pages := PagesFor(s.pages, PatchSize(info, jmp));
    var n := |pages| - 1;
    var p := pages[n].pos;
    var page := Page(Written(pages[n].bytes, p, info, jmp), p + PatchSize(info, jmp), pages[n].frozen);
    var entry := Entry(n, p, p + OrigOffset(info, jmp), |info.orig|, InsnSize(info, jmp));
    State(pages[n := page], s.code[info.addr + callSize := entry],
          s.slots + [Slot(n, p, info.addr + callSize, info, jmp)])
  }

  function FreezeCode(s: State): (r: State)
    requires Shaped(s)
    ensures Shaped(r) && |r.pages| == |s.pages|
  {
    s.(pages := seq(|s.pages|, i requires 0 <= i < |s.pages| => s.pages[i].(frozen := true)))
  }

  function Do(s: State, op: Op): (r: State)
    requires Shaped(s)
    ensures Shaped(r)
  {
    match op
    case Save(info, callSize, jmp) => if Saveable(info, jmp) then SaveCode(s, info, callSize, jmp) else s
    case Freeze => FreezeCode(s)
  }

  function Run(s: State, ops: seq<Op>): (r: State)
    requires Shaped(s)
    ensures Shaped(r)
  {
    if ops == [] then s else Do(Run(s, ops[..|ops| - 1]), ops[|ops| - 1])
  }

  // ----- the properties -----

  predicate At(bytes: seq<Byte>, from: nat, b: seq<Byte>) {
    from + |b| <= |bytes| && bytes[from..from + |b|] == b
  }

  /** The slot still holds what was saved: code, branch table and original bytes. */
  predicate Holds(bytes: seq<Byte>, t: Slot)
    requires BranchesOk(t.info)
  {
    && At(bytes, t.at, Code(t.info, t.jmp))
    && (t.info.modified ==>
          && At(bytes, t.at + InsnSize(t.info, t.jmp), Table(t.info, t.jmp))
          && At(bytes, t.at + OrigOffset(t.info, t.jmp), t.info.orig))
  }

  ghost predicate SlotOk(s: State, t: Slot)
    requires Shaped(s)
  {
    && Saveable(t.info, t.jmp) && t.page < |s.pages|
    && t.at + PatchSize(t.info, t.jmp) <= s.pages[t.page].pos
    && Holds(s.pages[t.page].bytes, t)
  }

  predicate Apart(t: Slot, u: Slot) {
    t.page == u.page ==> t.at + PatchSize(t.info, t.jmp) <= u.at
  }

  /** The latest save for a key, or -1. */
  function LastSave(slots: seq<Slot>, key: nat): (i: int)
    ensures -1 <= i < |slots|
    ensures i >= 0 ==> slots[i].key == key
    ensures forall j :: i < j < |slots| ==> slots[j].key != key
  {
    if slots == [] then -1
    else if slots[|slots| - 1].key == key then |slots| - 1
    else LastSave(slots[..|slots| - 1], key)
  }

  function EntryOf(t: Slot): Entry {
    Entry(t.page, t.at, t.at + OrigOffset(t.info, t.jmp), |t.info.orig|, InsnSize(t.info, t.jmp))
  }

  /** Every key leads to the latest save for it. */
  ghost predicate CodeOk(code: map<nat, Entry>, slots: seq<Slot>) {
    && (forall a :: a in code <==> LastSave(slots, a) >= 0)
    && (forall a :: a in code ==> code[a] == EntryOf(slots[LastSave(slots, a)]))
  }

  ghost predicate Inv(s: State) {
    && Shaped(s)
    && (forall i :: 0 <= i < |s.slots| ==> SlotOk(s, s.slots[i]))
    && (forall i, j :: 0 <= i < j < |s.slots| ==> Apart(s.slots[i], s.slots[j]))
    && CodeOk(s.code, s.slots)
  }
}
