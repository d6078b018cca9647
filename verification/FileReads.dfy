/** Reading archive files: tarfs_read (sys/tarfs.c) and sys_read (sys/fs.c), which threads
    the offset of the open file through its reads. */
module FileReads {
  import opened Basics
  import opened Util

  const FILE_LIMIT: nat := 0x8000_0000   // sizes are kept in an int

  type File = s: seq<bv8> | |s| < FILE_LIMIT witness []

  /** The number of bytes a read copies; negative when the offset is past the end. */
  function ReadSize(length: nat, size: nat, offset: nat): (n: int)
  {
    if offset + size >= length then length - offset else size
  }

  /** The bytes a read delivers. */
  function Chunk(data: File, size: nat, offset: nat): (c: seq<bv8>)
  {
    if ReadSize(|data|, size, offset) <= 0 then [] else data[offset..offset + ReadSize(|data|, size, offset)]
  }

  class OpenFile {
    const data: File
    var offset: nat

    constructor (data: File)
      ensures this.data == data && offset == 0
    {
      this.data := data;
      offset := 0;
    }

    /** tarfs_read into `buf` from position `at`; the file's own offset moves by what was
        copied, wherever the read was from. */
    method Read(buf: array<bv8>, at: nat, size: nat, offset: nat) returns (n: int)
      requires at + size <= buf.Length && offset + size < WORD_LIMIT
      modifies this`offset, buf
      ensures n == ReadSize(|data|, size, offset)
      ensures this.offset == (old(this.offset) + n) % WORD_LIMIT
      ensures forall i | 0 <= i < buf.Length ::
                buf[i] == if at <= i < at + n then data[offset + (i - at)] else old(buf[i])
    {
      n := size;
      if offset + size >= |data| {
        n := |data| - offset;
      }
      MemCopy(buf, at, data, offset, n);
      this.offset := (this.offset + n) % WORD_LIMIT;
    }

    /** sys_read on a descriptor for this file. */
    method SysRead(buf: array<bv8>, count: nat) returns (n: int)
      requires count <= buf.Length && offset + count < WORD_LIMIT
      modifies this`offset, buf
      ensures n == ReadSize(|data|, count, old(offset)) && offset == old(offset) + n
      ensures old(offset) <= |data| ==>
                0 <= n && buf[..n] == Chunk(data, count, old(offset)) && offset <= |data|
    {
      n := Read(buf, 0, count, offset);
    }
  }

  // ---------------------------------------------------------------- sequential reads

  /** What a sequence of reads of the given sizes delivers, and where it leaves the offset. */
  function ReadAll(data: File, offset: nat, sizes: seq<nat>): (r: (seq<bv8>, nat))
    requires offset <= |data|
    ensures r.1 <= |data|
    decreases |sizes|
  {
    if sizes == [] then ([], offset)
    else
      var c := Chunk(data, sizes[0], offset);
      var rest := ReadAll(data, offset + |c|, sizes[1..]);
      (c + rest.0, rest.1)
  }

  function Sum(sizes: seq<nat>): (n: nat)
  {
    if sizes == [] then 0 else sizes[0] + Sum(sizes[1..])
  }

  /** Sequential reads deliver consecutive pieces of the file, as much as was asked for or
      is left; once they have asked for the whole file they have delivered it. */
  lemma {:induction false} ReadsDeliver(data: File, offset: nat, sizes: seq<nat>)
    requires offset <= |data|
    ensures var (bytes, end) := ReadAll(data, offset, sizes);
            && offset <= end && bytes == data[offset..end]
            && end == if offset + Sum(sizes) <= |data| then offset + Sum(sizes) else |data|
    decreases |sizes|
  {
    if sizes != [] {
      var c := Chunk(data, sizes[0], offset);
      ReadsDeliver(data, offset + |c|, sizes[1..]);
      var end := ReadAll(data, offset + |c|, sizes[1..]).1;
      assert data[offset..end] == data[offset..offset + |c|] + data[offset + |c|..end];
    }
  }

  /** A read with a positive size returns 0 exactly at the end of the file. */
  lemma ZeroOnlyAtEnd(data: File, offset: nat, size: nat)
    requires offset <= |data| && 0 < size
    ensures ReadSize(|data|, size, offset) == 0 <==> offset == |data|
    ensures offset < |data| ==> 0 < ReadSize(|data|, size, offset) <= |data| - offset
  {
  }
}
