/** The symbol table that traced Python processes share: get_new_sym_addr reserves an address and
    a byte range with a compare-and-swap loop on a 64-bit header, enlarges the shared file and its
    own mapping if the range ends beyond it, and writes its line (python/trace-python.c). Any
    number of forked processes interleave, one access to what they share per step. */
module SymbolTable {
  const U32: nat := 0x1_0000_0000
  const HEADER_SIZE: nat := 48
  const TABLE_SIZE: nat := 0x10_0000

  /** The two halves of the shared 64-bit value. */
  datatype Header = Header(count: nat, offset: nat)

  /** A reservation: who made it, the address it got, its bytes [lo, hi) and the size asked for. */
  datatype Alloc = Alloc(proc: nat, addr: nat, lo: nat, hi: nat, size: nat)

  /** A process outside get_new_sym_addr; in the loop with the header it will compare, where
      `seen` is how many reservations had been made when it read that header; with its range
      reserved; or about to write its line. */
  datatype Proc =
    | Idle
    | Trying(expected: Header, size: nat, seen: nat)
    | Reserved(line: Alloc)
    | Placed(line: Alloc)

  /** `mapped` is each process's own uftrace_symtab_size and `file` the length of the shared file.
      `log`, all reservations in order, and `ends`, where the latest line of each process ends
      (that of its parent at the fork, or 0), are history variables. */
  datatype State = State(hdr: Header, procs: map<nat, Proc>, mapped: map<nat, nat>, ends: map<nat, nat>,
                         file: nat, log: seq<Alloc>)
  const START := State(Header(0, HEADER_SIZE), map[], map[], map[], TABLE_SIZE, [])

  datatype Step = Read(p: nat, name: nat) | Cas(p: nat) | Enlarge(p: nat) | Write(p: nat) | Fork(p: nat, child: nat)

  function ProcOf(s: State, p: nat): Proc {
    if p in s.procs then s.procs[p] else Idle
  }

  function MappedOf(s: State, p: nat): nat {
    if p in s.mapped then s.mapped[p] else TABLE_SIZE
  }

  function LastEnd(s: State, p: nat): nat {
    if p in s.ends then s.ends[p] else 0
  }

  /** A step starts the loop for a name of the given length, tries one swap, enlarges file and
      mapping if need be, writes the line, or forks a process with a number not used before. */
  predicate Possible(s: State, t: Step) {
    match t
    case Read(p, _) => ProcOf(s, p).Idle?
    case Cas(p) => ProcOf(s, p).Trying?
    case Enlarge(p) => ProcOf(s, p).Reserved?
    case Write(p) => ProcOf(s, p).Placed?
    case Fork(p, q) => ProcOf(s, p).Idle? && p != q && q !in s.procs && q !in s.mapped && q !in s.ends
  }

  /** The line holds an address, two spaces, a type and a newline besides the name. */
  function EntrySize(name: nat): nat { name + 20 }

  function Bumped(h: Header, size: nat): Header {
    Header((h.count + 1) % U32, (h.offset + size) % U32)
  }

  /** The new size of a mapping that is too short, an unsigned int. */
  function Longer(mapped: nat): nat {
    (mapped + TABLE_SIZE) % U32
  }

  /** ftruncate and mremap: the file gets the length of the process's own new mapping, whatever
      it was. */
  function EnlargeNext(s: State, p: nat): State
    requires ProcOf(s, p).Reserved?
  {
    var line, m := ProcOf(s, p).line, MappedOf(s, p);
    var s' := s.(procs := s.procs[p := Placed(line)], ends := s.ends[p := line.hi]);
    if line.hi >= m then s'.(mapped := s.mapped[p := Longer(m)], file := Longer(m)) else s'
  }

  function Next(s: State, t: Step): State
    requires Possible(s, t)
  {
    match t
    case Read(p, name) => s.(procs := s.procs[p := Trying(s.hdr, EntrySize(name), |s.log|)])
    case Cas(p) =>
      var t := ProcOf(s, p);
      if s.hdr == t.expected then
        var bumped := Bumped(t.expected, t.size);
        var line := Alloc(p, bumped.count, t.expected.offset, bumped.offset, t.size);
        s.(hdr := bumped, procs := s.procs[p := Reserved(line)], log := s.log + [line])
      else s.(procs := s.procs[p := Trying(s.hdr, t.size, |s.log|)])
    case Enlarge(p) => EnlargeNext(s, p)
    case Write(p) => s.(procs := s.procs[p := Idle])
    case Fork(p, q) => s.(mapped := s.mapped[q := MappedOf(s, p)], ends := s.ends[q := LastEnd(s, p)])
  }

  function Run(steps: seq<Step>): State {
    if steps == [] then START
    else
      var s := Run(steps[..|steps| - 1]);
      if Possible(s, steps[|steps| - 1]) then Next(s, steps[|steps| - 1]) else s
  }

  // ----- the invariant -----

  /** The header and all bytes reserved so far, without any wrap-around. */
  function Total(log: seq<Alloc>): nat {
    if log == [] then HEADER_SIZE else Total(log[..|log| - 1]) + log[|log| - 1].size
  }

  function HeaderOf(log: seq<Alloc>): Header {
    Header(|log| % U32, Total(log) % U32)
  }

  predicate AllocRight(log: seq<Alloc>, i: nat)
    requires i < |log|
  {
    && log[i].addr == (i + 1) % U32 && log[i].size >= 20
    && log[i].lo == Total(log[..i]) % U32 && log[i].hi == Total(log[..i + 1]) % U32
  }

  predicate ProcRight(s: State, t: Proc) {
    && (t.Trying? ==> t.seen <= |s.log| && t.size >= 20 && t.expected == HeaderOf(s.log[..t.seen]))
    && (t.Reserved? || t.Placed? ==> t.line in s.log)
  }

  predicate Inv(s: State) {
    && s.hdr == HeaderOf(s.log)
    && (forall i :: 0 <= i < |s.log| ==> AllocRight(s.log, i))
    && (forall p :: p in s.procs ==> ProcRight(s, s.procs[p]))
  }

  // ----- the properties -----

  /** Where the first k ranges end. */
  function EndOf(log: seq<Alloc>, k: nat): nat
    requires k <= |log|
  {
    if k == 0 then HEADER_SIZE else log[k - 1].hi
  }

  predicate InPlace(log: seq<Alloc>, i: nat)
    requires i < |log|
  {
    log[i].lo == EndOf(log, i) && log[i].hi == log[i].lo + log[i].size
  }

  /** The ranges follow one another from the header to the current offset. */
  predicate Tiled(s: State) {
    && (forall i :: 0 <= i < |s.log| ==> InPlace(s.log, i))
    && s.hdr.offset == EndOf(s.log, |s.log|)
  }

  // ----- room to write -----

  /** The line, with its terminating NUL, is inside the process's mapping and inside the file. */
  predicate Fits(s: State, p: nat, line: Alloc) {
    line.hi < MappedOf(s, p) && line.hi < s.file
  }

  /** Every mapping is backed by the file, and whoever is about to write has room for it. */
  ghost predicate HasRoom(s: State) {
    forall p :: MappedOf(s, p) <= s.file && (ProcOf(s, p).Placed? ==> Fits(s, p, ProcOf(s, p).line))
  }

  /** There was room at every moment of the run. */
  ghost predicate AlwaysRoom(steps: seq<Step>) {
    HasRoom(Run(steps)) && (steps != [] ==> AlwaysRoom(steps[..|steps| - 1]))
  }

  /** THE CONDITIONS, on the steps where a process compares its line with its mapping. Counted in
      whole tables, the line ends at most one table past the previous line of the process; and
      the process sets no length below the current one. */
  predicate Near(s: State, p: nat)
    requires ProcOf(s, p).Reserved?
  {
    ProcOf(s, p).line.hi / TABLE_SIZE <= LastEnd(s, p) / TABLE_SIZE + 1
  }

  predicate Shrinks(s: State, p: nat)
    requires ProcOf(s, p).Reserved?
  {
    ProcOf(s, p).line.hi >= MappedOf(s, p) && Longer(MappedOf(s, p)) < s.file
  }

  predicate AlwaysNear(steps: seq<Step>) {
    steps == [] ||
    (var front, t := steps[..|steps| - 1], steps[|steps| - 1];
     AlwaysNear(front) && (t.Enlarge? && Possible(Run(front), t) ==> Near(Run(front), t.p)))
  }

  predicate NeverShrinks(steps: seq<Step>) {
    steps == [] ||
    (var front, t := steps[..|steps| - 1], steps[|steps| - 1];
     NeverShrinks(front) && (t.Enlarge? && Possible(Run(front), t) ==> !Shrinks(Run(front), t.p)))
  }
}
