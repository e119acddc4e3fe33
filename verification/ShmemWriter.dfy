/** The same operations writing bytes into a buffer, proved against ShmemBounds: every write falls
    inside the buffer and earlier bytes stay. */
module ShmemWriter {
  import opened ShmemBounds
  import opened ShmemBoundsProofs
  import opened Wrappers

  class ShmemWriter {
    const bufsize: nat
    var data: array?<Byte>
    var size: nat
    var losts: nat

    ghost predicate Valid()
      reads this
    {
      && bufsize >= SMALLEST && bufsize % 8 < 4
      && (data != null ==> data.Length == MaxSize(bufsize))
      && Bounded(bufsize, Abs())
    }

    ghost function Abs(): Fill
      reads this
    {
      if data == null then NoBuffer(losts) else Fill(size, losts)
    }

    constructor (bufsize: nat, first: array<Byte>)
      requires bufsize >= SMALLEST && bufsize % 8 < 4 && first.Length == MaxSize(bufsize)
      ensures Valid() && this.bufsize == bufsize && data == first && Abs() == Fill(0, 0)
    {
      this.bufsize, data, size, losts := bufsize, first, 0, 0;
    }

    /** Copy `bytes` to the end of what is filled. */
    method Put(bytes: seq<Byte>)
      requires data != null && size + |bytes| <= data.Length
      modifies data
      ensures data[..size + |bytes|] == old(data[..size]) + bytes
      ensures forall i :: size + |bytes| <= i < data.Length ==> data[i] == old(data[i])
    {
      var i := 0;
      while i < |bytes|
        invariant 0 <= i <= |bytes|
        invariant data[..size + i] == old(data[..size]) + bytes[..i]
        invariant forall k :: size + i <= k < data.Length ==> data[k] == old(data[k])
      {
        data[size + i] := bytes[i];
        assert data[..size + i + 1] == data[..size + i] + [bytes[i]];
        i := i + 1;
      }
      assert bytes[..i] == bytes;
    }

    /** get_shmem_buffer; `next` is the buffer get_new_shmem_buffer comes up with, if any, and
        `lost` the bytes of the LOST record. */
    method GetBuffer(asked: nat, done: bool, next: array?<Byte>, lost: seq<Byte>) returns (ok: bool)
      requires Valid() && |lost| == RECORD && asked <= RECORD + 1024
      requires next != null ==> next != data && next.Length == MaxSize(bufsize)
      modifies this`data, this`size, this`losts, next
      ensures Valid()
      ensures (Abs(), ok) == ShmemBounds.GetBuffer(bufsize, old(Abs()), asked, Env(done, next != null))
      ensures ok ==> data != null && size + asked <= MaxSize(bufsize)
      ensures data == old(data) || data == next
      ensures ok ==> data[..size] == if data == old(data) then old(data[..size])
                                     else if old(losts) > 0 then lost else []
      ensures old(data) != null ==> old(data)[..] == old(data[..])
    {
      if data != null && size + asked <= MaxSize(bufsize) {
        return true;
      }
      if done {
        return false;
      }
      data := next;
      size := 0;
      if data == null {
        losts := losts + 2;
        return false;
      }
      if losts > 0 {
        Put(lost);
        size := RECORD;
        losts := 0;
      }
      ok := true;
    }

    /** The writing part of record_ret_stack. */
    method PutRecord(record: seq<Byte>, args: seq<Byte>)
      requires Valid() && data != null && |record| == RECORD && |args| <= ARGS_MAX && |args| % 4 == 0
      requires size + RECORD + |args| <= MaxSize(bufsize)
      modifies this`size, data
      ensures Valid() && size == old(size) + RECORD + Align8(|args|)
      ensures |args| <= Align8(|args|)
      ensures data[..old(size) + RECORD + |args|] == old(data[..size]) + record + args
    {
      AlignedFits(size, |args|, MaxSize(bufsize));
      AlignUp(|args|);
      hide Align8;
      ghost var base := data[..size];
      Put(record);
      size := size + RECORD;
      Put(args);
      assert data[..|base| + RECORD + |args|] == base + record + args;
      size := size + Align8(|args|);
    }

    /** record_ret_stack: the record, then its argument data padded to 8 bytes. */
    method RecordRetStack(record: seq<Byte>, args: seq<Byte>, done: bool, next: array?<Byte>, lost: seq<Byte>)
        returns (ok: bool)
      requires Valid() && |record| == RECORD && |lost| == RECORD && |args| <= ARGS_MAX && |args| % 4 == 0
      requires next != null ==> next != data && next.Length == MaxSize(bufsize)
      modifies this`data, this`size, this`losts, data, next
      ensures Valid() && Abs() == Do(bufsize, old(Abs()), Record(|args|, Env(done, next != null)))
      ensures ok ==>
                && data != null
                && var base := if data == old(data) then old(data[..size]) else if old(losts) > 0 then lost else [];
                   && size == |base| + RECORD + Align8(|args|) && |args| <= Align8(|args|) && size <= data.Length
                   && data[..|base| + RECORD + |args|] == base + record + args
      ensures old(data) != null && !(ok && data == old(data)) ==> old(data)[..] == old(data[..])
    {
      ok := GetBuffer(RECORD + |args|, done, next, lost);
      hide ShmemBounds.GetBuffer, Bounded, Align8;
      if ok {
        PutRecord(record, args);
      }
    }
  }
}
