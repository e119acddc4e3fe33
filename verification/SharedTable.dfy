/** get_new_sym_addr as the loop it is, while other processes reserve entries in between. */
module SharedTable {
  import opened SymbolTable
  import SymbolTableProofs

  /** One more reservation, as the header stands. */
  function Reserve(log: seq<Alloc>, p: nat, size: nat): (r: seq<Alloc>)
    ensures |r| == |log| + 1
  {
    log + [Alloc(p, (|log| + 1) % U32, Total(log) % U32, (Total(log) + size) % U32, size)]
  }

  lemma ReserveBumps(log: seq<Alloc>, p: nat, size: nat)
    ensures Bumped(HeaderOf(log), size) == HeaderOf(Reserve(log, p, size))
    ensures Total(Reserve(log, p, size)) == Total(log) + size
  {
    assert Reserve(log, p, size)[..|log|] == log;
    SymbolTableProofs.WrapAdd(|log|, 1);
    SymbolTableProofs.WrapAdd(Total(log), size);
    assert Total(Reserve(log, p, size)) == Total(log) + size;
    hide Total, Reserve;
  }

  function ReserveAll(log: seq<Alloc>, others: seq<(nat, nat)>): seq<Alloc> {
    if others == [] then log
    else
      var last := others[|others| - 1];
      Reserve(ReserveAll(log, others[..|others| - 1]), last.0, EntrySize(last.1))
  }

  lemma {:induction false} ReserveAllExtends(log: seq<Alloc>, others: seq<(nat, nat)>)
    ensures log <= ReserveAll(log, others)
  {
    if others != [] {
      ReserveAllExtends(log, others[..|others| - 1]);
    }
  }

  /** The new entry between the two headers. */
  lemma ReserveLast(log: seq<Alloc>, p: nat, size: nat)
    ensures var r := Reserve(log, p, size);
            && log <= r && r[|log|].addr == HeaderOf(r).count
            && r[|log|].lo == HeaderOf(log).offset && r[|log|].hi == HeaderOf(r).offset
  {
    ReserveBumps(log, p, size);
    hide Total;
  }

  class SharedTable {
    var hdr: Header
    /** The length of the shared file, and this process's own uftrace_symtab_size. */
    var file: nat
    var mapped: nat
    ghost var log: seq<Alloc>

    ghost predicate Valid()
      reads this
    {
      hdr == HeaderOf(log)
    }

    constructor ()
      ensures Valid() && log == [] && file == mapped == TABLE_SIZE
    {
      hdr, file, mapped, log := Header(0, HEADER_SIZE), TABLE_SIZE, TABLE_SIZE, [];
    }

    /** __sync_val_compare_and_swap on the 64-bit value. */
    method CompareAndSwap(expected: Header, desired: Header) returns (was: Header)
      modifies this`hdr
      ensures was == old(hdr) && hdr == if was == expected then desired else was
    {
      was := hdr;
      if was == expected {
        hdr := desired;
      }
    }

    /** Other processes, each a process number and a name length, complete their reservations. */
    method Interfere(others: seq<(nat, nat)>)
      requires Valid()
      modifies this`hdr, this`log
      ensures Valid() && log == ReserveAll(old(log), others)
    {
      var i := 0;
      assert others[..0] == [];
      while i < |others|
        invariant 0 <= i <= |others| && Valid() && log == ReserveAll(old(log), others[..i])
      {
        assert others[..i + 1][..i] == others[..i];
        ReserveBumps(log, others[i].0, EntrySize(others[i].1));
        hdr := Bumped(hdr, EntrySize(others[i].1));
        log := Reserve(log, others[i].0, EntrySize(others[i].1));
        i := i + 1;
      }
      assert others[..i] == others;
    }

    /** Other processes, which may set the length of the file. */
    method Resize(length: nat)
      modifies this`file
      ensures file == length
    {
      file := length;
    }

    /** ftruncate and mremap, if the line ends beyond the mapping. */
    method Enlarge(hi: nat)
      modifies this`file, this`mapped
      ensures mapped == if hi >= old(mapped) then Longer(old(mapped)) else old(mapped)
      ensures file == if hi >= old(mapped) then mapped else old(file)
    {
      if hi >= mapped {
        var size := (mapped + TABLE_SIZE) % U32;
        file := size;
        mapped := size;
      }
    }

    /** get_new_sym_addr of process `p`; `others[k]` run before its k-th swap, and by the time it
        enlarges the file others have made it `length` bytes long. It reserves one entry, on top of
        everything reserved by the time its swap succeeds. */
    method GetNewSymAddr(p: nat, name: nat, others: seq<seq<(nat, nat)>>, length: nat)
        returns (addr: nat, offset: nat, ghost before: seq<Alloc>)
      requires Valid()
      modifies this
      ensures Valid() && old(log) <= before && log == Reserve(before, p, EntrySize(name))
      ensures addr == log[|before|].addr && offset == log[|before|].lo
      ensures others == [] ==> before == old(log)
      ensures var hi := log[|before|].hi;
              && mapped == (if hi >= old(mapped) then Longer(old(mapped)) else old(mapped))
              && file == (if hi >= old(mapped) then mapped else length)
    {
      hide HeaderOf, Bumped, Reserve, ReserveAll, Longer, Total;
      var expected, k := hdr, 0;
      while true
        invariant 0 <= k && Valid() && expected == hdr && old(log) <= log
        invariant k == 0 ==> log == old(log)
        invariant others == [] ==> k == 0
        invariant mapped == old(mapped)
        decreases |others| - k
      {
        before := log;
        if k < |others| {
          Interfere(others[k]);
          ReserveAllExtends(before, others[k]);
          before := log;
        }
        var desired := Bumped(expected, EntrySize(name));
        var was := CompareAndSwap(expected, desired);
        if was == expected {
          ReserveBumps(before, p, EntrySize(name));
          ReserveLast(before, p, EntrySize(name));
          log := Reserve(log, p, EntrySize(name));
          Resize(length);
          Enlarge(desired.offset);
          return desired.count, expected.offset, before;
        }
        expected := was;
        k := k + 1;
      }
    }
  }
}
