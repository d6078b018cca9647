/** do_file_fault (sys/page_faults.c): pages of a file-backed region are read when they are
    touched.  Whatever the alignment of the region, each page ends up as if the segment had
    been loaded at once: file bytes inside the region, zeros around it. */
module DemandPaging {
  import opened Basics
  import opened Util
  import opened FileReads

  /** A region backed by a file: addresses [start, end) hold the file from `fileOffset` on;
      the rest of `memSize` is to be zero. */
  datatype Segment = Segment(start: nat, end: nat, memSize: nat, fileOffset: nat, write: bool)

  /** The segment lies within its file and in the user half. */
  predicate Within(seg: Segment, data: File)
  {
    && PAGE <= seg.start <= seg.end < 0x8000_0000_0000 && seg.start + seg.memSize < 0x8000_0000_0000
    && seg.fileOffset + (seg.end - seg.start) <= |data|
  }

  /** The test of find_vma on a file-backed region, the address after the last included. */
  predicate Accepts(seg: Segment, v: nat)
  {
    seg.start <= v <= if seg.end - seg.start < seg.memSize then seg.start + seg.memSize else seg.end
  }

  /** Every address of the segment in the file or in memory is accepted, and so is the one after
      the last: a page that begins there is loaded although the program has nothing in it. */
  lemma AcceptsOneMore(seg: Segment, v: nat)
    requires seg.start <= seg.end
    ensures Accepts(seg, v) <==> seg.start <= v && (v <= seg.end || v <= seg.start + seg.memSize)
    ensures Accepts(Segment(0x60_1000, 0x60_1800, 0x1000, 0, true), 0x60_2000)
  {
  }

  /** find_vma: the place of the first region that accepts the address, or the number of regions. */
  function Found(segs: seq<Segment>, v: nat): (k: nat)
    ensures k <= |segs| && (k < |segs| ==> Accepts(segs[k], v)) && forall j | 0 <= j < k :: !Accepts(segs[j], v)
  {
    if segs == [] || Accepts(segs[0], v) then 0 else 1 + Found(segs[1..], v)
  }

  /** The byte at address `v` of the segment loaded at once. */
  function EagerByte(data: File, seg: Segment, v: nat): (b: bv8)
    requires Within(seg, data)
  {
    if seg.start <= v < seg.end then data[seg.fileOffset + (v - seg.start)] else 0
  }

  function EagerPage(data: File, seg: Segment, a: nat): (p: seq<bv8>)
    requires Within(seg, data)
    ensures |p| == PAGE
  {
    seq(PAGE, i requires 0 <= i < PAGE => EagerByte(data, seg, a + i))
  }

  /** The handler answers 1 except for a region that starts on the page and has no file
      bytes: there the empty read counts as a failure. */
  predicate Succeeds(seg: Segment, a: nat)
  {
    !(a == seg.start == seg.end)
  }

  /** do_file_fault on the page buffer that is mapped at the faulting page. */
  method FileFault(file: OpenFile, seg: Segment, address: nat, page: array<bv8>) returns (ok: bool)
    requires Within(seg, file.data) && seg.start <= address < 0x8000_0000_0000 && page.Length == PAGE
    modifies file`offset, page
    ensures ok <==> Succeeds(seg, PageRoundUp(address))
    ensures page[..] == EagerPage(file.data, seg, PageRoundUp(address))
  {
    var align := PageRoundUp(address);
    MemZero(page, 0, PAGE - 1);
    assert forall i | 0 <= i < PAGE :: page[i] == 0;
    ok := true;
    if align < seg.start {
      var diff := seg.start - align;
      var toRead := if seg.end >= align + PAGE then (align + PAGE) - seg.start else seg.end - seg.start;
      var _ := file.Read(page, diff, toRead, seg.fileOffset);
    } else if align > seg.start && align < seg.end {
      var toRead := if seg.end >= align + PAGE then PAGE else seg.end - align;
      var _ := file.Read(page, 0, toRead, seg.fileOffset + (align - seg.start));
    } else if seg.start == align {
      var toRead := if seg.end >= align + PAGE then PAGE else seg.end - seg.start;
      var n := file.Read(page, 0, toRead, seg.fileOffset);
      if n <= 0 || n < toRead {
        ok := false;
      }
    }
    assert forall i | 0 <= i < PAGE :: page[i] == EagerByte(file.data, seg, align + i);
  }

  // ---------------------------------------------------------------- a program of several segments

  /** No address belongs to two segments. */
  ghost predicate Disjoint(segs: seq<Segment>)
  {
    forall j, k | 0 <= j < k < |segs| :: segs[j].end <= segs[k].start || segs[k].end <= segs[j].start
  }

  ghost predicate AllWithin(segs: seq<Segment>, data: File)
  {
    forall k | 0 <= k < |segs| :: Within(segs[k], data)
  }

  /** The whole program loaded at once. */
  function ProgramByte(data: File, segs: seq<Segment>, v: nat): (b: bv8)
    requires AllWithin(segs, data)
    decreases |segs|
  {
    if segs == [] then 0
    else if segs[0].start <= v < segs[0].end then EagerByte(data, segs[0], v)
    else
      assert forall k | 0 <= k < |segs[1..]| :: segs[1..][k] == segs[k + 1];
      ProgramByte(data, segs[1..], v)
  }

  lemma {:induction false} ProgramByteAt(data: File, segs: seq<Segment>, v: nat, k: nat)
    requires AllWithin(segs, data) && Disjoint(segs) && k < |segs|
    ensures segs[k].start <= v < segs[k].end ==> ProgramByte(data, segs, v) == EagerByte(data, segs[k], v)
    decreases |segs|
  {
    if 0 < k {
      assert forall j | 0 <= j < |segs[1..]| :: segs[1..][j] == segs[j + 1];
      ProgramByteAt(data, segs[1..], v, k - 1);
    }
  }

  lemma {:induction false} ProgramByteNowhere(data: File, segs: seq<Segment>, v: nat)
    requires AllWithin(segs, data) && forall k | 0 <= k < |segs| :: !(segs[k].start <= v < segs[k].end)
    ensures ProgramByte(data, segs, v) == 0
    decreases |segs|
  {
    if segs != [] {
      assert forall j | 0 <= j < |segs[1..]| :: segs[1..][j] == segs[j + 1];
      ProgramByteNowhere(data, segs[1..], v);
    }
  }

  /** Segment `j` has no byte other than zero in the page at `a`. */
  ghost predicate BlankIn(data: File, seg: Segment, a: nat)
    requires Within(seg, data)
  {
    forall v | a <= v < a + PAGE && seg.start <= v < seg.end :: EagerByte(data, seg, v) == 0
  }

  /** The page read by a fault in segment `k` is the page of the loaded program if and only
      if every other segment is blank in it.  When two segments share a page, the bytes of
      the one that did not fault are lost otherwise. */
  lemma PageIsProgramPage(data: File, segs: seq<Segment>, a: nat, k: nat)
    requires AllWithin(segs, data) && Disjoint(segs) && k < |segs|
    ensures IsProgramPage(data, segs, a, EagerPage(data, segs[k], a)) <==>
            forall j | 0 <= j < |segs| && j != k :: BlankIn(data, segs[j], a)
  {
    hide ProgramByte;
    var p := EagerPage(data, segs[k], a);
    if forall j | 0 <= j < |segs| && j != k :: BlankIn(data, segs[j], a) {
      forall i | 0 <= i < PAGE
        ensures p[i] == ProgramByte(data, segs, a + i)
      {
        var v := a + i;
        assert p[i] == EagerByte(data, segs[k], v);
        ProgramByteAt(data, segs, v, k);
        if j :| 0 <= j < |segs| && segs[j].start <= v < segs[j].end {
          ProgramByteAt(data, segs, v, j);
        } else {
          ProgramByteNowhere(data, segs, v);
        }
      }
    }
    if forall i | 0 <= i < PAGE :: p[i] == ProgramByte(data, segs, a + i) {
      forall j | 0 <= j < |segs| && j != k
        ensures BlankIn(data, segs[j], a)
      {
        forall v | a <= v < a + PAGE && segs[j].start <= v < segs[j].end
          ensures EagerByte(data, segs[j], v) == 0
        {
          ProgramByteAt(data, segs, v, j);
          assert p[v - a] == ProgramByte(data, segs, a + (v - a));
          assert p[v - a] == EagerByte(data, segs[k], v);
        }
      }
    }
  }

  /** The page is that of the program loaded at once. */
  ghost predicate IsProgramPage(data: File, segs: seq<Segment>, a: nat, p: seq<bv8>)
    requires AllWithin(segs, data)
  {
    |p| == PAGE && forall i | 0 <= i < PAGE :: p[i] == ProgramByte(data, segs, a + i)
  }

  /** Two segments of one byte each in one page: a fault in the first reads a page without the
      byte of the second. */
  lemma SharedPageLosesByte()
    ensures var segs := [Segment(0x5000, 0x5001, 1, 0, false), Segment(0x5001, 0x5002, 1, 1, false)];
            && AllWithin(segs, [1, 2]) && Disjoint(segs)
            && EagerPage([1, 2], segs[0], 0x5000)[1] == 0 && ProgramByte([1, 2], segs, 0x5001) == 2
            && !IsProgramPage([1, 2], segs, 0x5000, EagerPage([1, 2], segs[0], 0x5000))
  {
    var segs := [Segment(0x5000, 0x5001, 1, 0, false), Segment(0x5001, 0x5002, 1, 1, false)];
    ProgramByteAt([1, 2], segs, 0x5001, 1);
    var p := EagerPage([1, 2], segs[0], 0x5000);
    assert p[1] != ProgramByte([1, 2], segs, 0x5000 + 1);
  }

  /** The segment has file bytes in the page at `a`. */
  predicate HasBytesIn(seg: Segment, a: nat)
  {
    seg.start < seg.end && seg.start < a + PAGE && a < seg.end
  }

  /** A page in which no segment has file bytes is blank in the program. */
  lemma BlankProgramPage(data: File, segs: seq<Segment>, a: nat, p: seq<bv8>)
    requires AllWithin(segs, data) && |p| == PAGE && forall k | 0 <= k < |segs| :: !HasBytesIn(segs[k], a)
    ensures IsProgramPage(data, segs, a, p) <==> forall i | 0 <= i < PAGE :: p[i] == 0
  {
    hide ProgramByte;
    forall v | a <= v < a + PAGE
      ensures ProgramByte(data, segs, v) == 0
    {
      assert forall k | 0 <= k < |segs| :: !HasBytesIn(segs[k], a);
      ProgramByteNowhere(data, segs, v);
    }
  }
}
