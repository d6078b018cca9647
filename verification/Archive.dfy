/** The walk of tarfs_init over a ustar archive (sys/tarfs.c) with oct2dec and my_memcmp
    (sys/util.c), against a writer of archives in the ustar Interchange Format of the pax
    utility of POSIX.1. */
module Archive {
  type Byte = x: int | 0 <= x < 256

  const BLOCK := 512
  const SIZE_AT := 124
  const SIZE_DIGITS := 11
  const TYPE_AT := 156
  const MAGIC_AT := 257
  const NAME_SIZE := 100
  const FIRST_INODE := 3

  // ---------------------------------------------------------------- octal numbers

  function Power8(n: nat): (r: nat)
    ensures 0 < r
  {
    if n == 0 then 1 else 8 * Power8(n - 1)
  }

  /** The digits that a writer puts into a size field. */
  function Octal(x: nat, digits: nat): (r: seq<Byte>)
    ensures |r| == digits
  {
    if digits == 0 then [] else Octal(x / 8, digits - 1) + [48 + x % 8]
  }

  /** The value that oct2dec accumulates. */
  function OctalValue(s: seq<Byte>): (r: int)
  {
    if s == [] then 0 else OctalValue(s[..|s| - 1]) * 8 + (s[|s| - 1] as int - 48)
  }

  /** oct2dec reads back what was written. */
  lemma {:induction false} OctalRoundTrip(x: nat, digits: nat)
    requires x < Power8(digits)
    ensures OctalValue(Octal(x, digits)) == x
  {
    if 0 < digits {
      OctalRoundTrip(x / 8, digits - 1);
      var s := Octal(x, digits);
      assert s[..|s| - 1] == Octal(x / 8, digits - 1);
    }
  }

  /** oct2dec. */
  method OctToDec(a: seq<Byte>, at: nat, size: nat) returns (n: int)
    requires at + size <= |a|
    ensures n == OctalValue(a[at..at + size])
  {
    n := 0;
    var i := 0;
    while i < size
      invariant i <= size && n == OctalValue(a[at..at + i])
    {
      ghost var s := a[at..at + i + 1];
      assert s[..|s| - 1] == a[at..at + i] && s[|s| - 1] == a[at + i];
      n := n * 8;
      n := n + (a[at + i] as int - 48);
      i := i + 1;
    }
  }

  // ---------------------------------------------------------------- the comparison of the magic

  function Sum(s: seq<Byte>): (r: int)
  {
    if s == [] then 0 else Sum(s[..|s| - 1]) + s[|s| - 1]
  }

  /** my_memcmp adds up the differences, so it is 0 exactly when the sums agree. */
  method MemCmp(a: seq<Byte>, at: nat, b: seq<Byte>) returns (diff: int)
    requires at + |b| <= |a|
    ensures diff == Sum(a[at..at + |b|]) - Sum(b)
  {
    diff := 0;
    var i := 0;
    while i < |b|
      invariant i <= |b| && diff == Sum(a[at..at + i]) - Sum(b[..i])
    {
      ghost var s, t := a[at..at + i + 1], b[..i + 1];
      assert s[..|s| - 1] == a[at..at + i] && t[..|t| - 1] == b[..i];
      diff := diff + (a[at + i] as int - 48) - (b[i] as int - 48);
      i := i + 1;
    }
    assert b[..|b|] == b;
  }

  function Magic(): (r: seq<Byte>)
    ensures |r| == 5
  {
    [117, 115, 116, 97, 114]
  }

  lemma {:induction false} SumZero(s: seq<Byte>)
    requires forall i | 0 <= i < |s| :: s[i] == 0
    ensures Sum(s) == 0
  {
    if s != [] {
      SumZero(s[..|s| - 1]);
    }
  }

  lemma {:induction false} SumAtLeast(s: seq<Byte>)
    ensures 0 <= Sum(s) && (s != [] ==> s[|s| - 1] <= Sum(s))
  {
    if s != [] {
      SumAtLeast(s[..|s| - 1]);
    }
  }

  // ---------------------------------------------------------------- the writer

  datatype Kind = Normal | HardLink | SymLink | CharDev | BlkDev | Directory | NamedPipe

  /** One file to be archived.  The header fields that the walk does not look at are whatever
      they are. */
  datatype File = File(name: seq<Byte>, owner: seq<Byte>, stamp: seq<Byte>, typeFlag: Byte,
                       link: seq<Byte>, rest: seq<Byte>, data: seq<Byte>)

  /** The fields have their sizes, and the length of the contents fits its field. */
  ghost predicate WellFormed(f: File)
  {
    && |f.name| == NAME_SIZE && |f.owner| == 24 && |f.stamp| == 21 && |f.link| == 100 && |f.rest| == 250
    && |f.data| < Power8(SIZE_DIGITS)
  }

  function Header(f: File): (r: seq<Byte>)
  {
    f.name + f.owner + Octal(|f.data|, SIZE_DIGITS) + f.stamp + [f.typeFlag] + f.link + Magic() + f.rest
  }

  function Zeros(n: nat): (r: seq<Byte>)
    ensures |r| == n && forall i | 0 <= i < n :: r[i] == 0
  {
    seq(n, _ => 0)
  }

  function Padding(n: nat): (r: nat)
  {
    (n + 511) / 512 * 512 - n
  }

  function Member(f: File): (r: seq<Byte>)
  {
    Header(f) + f.data + Zeros(Padding(|f.data|))
  }

  function Written(files: seq<File>): (r: seq<Byte>)
  {
    if files == [] then Zeros(2 * BLOCK) else Member(files[0]) + Written(files[1..])
  }

  // ---------------------------------------------------------------- what the walk should record

  /** `data` is the place of the contents, if the file has a place. */
  datatype Data = None | Place(at: nat)

  datatype Inode = Inode(number: nat, size: int, typeFlag: Byte, data: Data, name: seq<Byte>)

  function KindOf(flag: Byte): (r: Kind)
  {
    if flag == 48 then Normal else if flag == 49 then HardLink else if flag == 50 then SymLink
    else if flag == 51 then CharDev else if flag == 52 then BlkDev else if flag == 53 then Directory
    else NamedPipe
  }

  /** Where member `k` starts. */
  function Start(files: seq<File>, k: nat): (r: nat)
    requires k <= |files|
  {
    if k == 0 then 0 else Start(files, k - 1) + |Member(files[k - 1])|
  }

  const INT_LIMIT := 0x8000_0000

  /** What is left of a number that is kept in an int. */
  function AsInt(n: int): (r: int)
    ensures -INT_LIMIT <= r < INT_LIMIT && (r - n) % (2 * INT_LIMIT) == 0
  {
    var low := n % (2 * INT_LIMIT);
    if low < INT_LIMIT then low else low - 2 * INT_LIMIT
  }

  function Recorded(files: seq<File>, k: nat): (r: Inode)
    requires k < |files|
  {
    var f := files[k];
    Inode(FIRST_INODE + k, AsInt(|f.data|), f.typeFlag,
          if KindOf(f.typeFlag) == Normal then Place(Start(files, k) + BLOCK) else None, f.name)
  }

  /** The recorded size is the one that was written if and only if it is below 2 GiB; a larger
      one is recorded short by a multiple of 4 GiB, and may be negative. */
  lemma SizeExact(files: seq<File>, k: nat)
    requires k < |files| && WellFormed(files[k])
    ensures Recorded(files, k).size == |files[k].data| <==> |files[k].data| < INT_LIMIT
    ensures Recorded(files, k).size < 0 <==> INT_LIMIT <= |files[k].data| % (2 * INT_LIMIT)
  {
  }

  // ---------------------------------------------------------------- the walk

  /** The fields of a header are where the walk looks for them. */
  lemma HeaderFields(f: File)
    requires WellFormed(f)
    ensures var h := Header(f);
            && |h| == BLOCK && h[..NAME_SIZE] == f.name && h[TYPE_AT] == f.typeFlag
            && h[SIZE_AT..SIZE_AT + SIZE_DIGITS] == Octal(|f.data|, SIZE_DIGITS)
            && h[MAGIC_AT..MAGIC_AT + 5] == Magic()
  {
  }

  /** Whole blocks, and as many as the walk skips. */
  lemma MemberSize(f: File)
    requires WellFormed(f)
    ensures |Member(f)| == ((|f.data| + 511) / 512 + 1) * 512
  {
    HeaderFields(f);
  }

  lemma {:induction false} WrittenSplit(files: seq<File>, k: nat)
    requires k <= |files|
    ensures Start(files, k) <= |Written(files)|
    ensures Written(files)[Start(files, k)..] == Written(files[k..])
  {
    hide Member;
    if k == 0 {
      assert files[0..] == files;
    } else {
      WrittenSplit(files, k - 1);
      var tail := files[k - 1..];
      assert tail[1..] == files[k..] && tail[0] == files[k - 1];
      var s, a, b := Start(files, k - 1), Written(files), Member(files[k - 1]);
      assert a[s..] == b + Written(files[k..]);
      assert a[s..][|b|..] == a[s + |b|..];
    }
  }

  /** The contents of a member are where the walk puts the place of a regular file. */
  lemma DataAt(files: seq<File>, k: nat)
    requires k < |files| && WellFormed(files[k])
    ensures var at, n := Start(files, k) + BLOCK, |files[k].data|;
            at + n <= |Written(files)| && Written(files)[at..at + n] == files[k].data
  {
    hide Header, Octal, Member, WellFormed, Start;
    WrittenSplit(files, k);
    var f, a, s, tail := files[k], Written(files), Start(files, k), files[k..];
    assert tail[0] == f && tail[1..] == files[k + 1..];
    MemberData(f, Written(tail[1..]));
    SliceOfTail(a, s, BLOCK, BLOCK + |f.data|);
  }

  lemma SliceOfTail(a: seq<Byte>, s: nat, i: nat, j: nat)
    requires s <= |a| && i <= j <= |a[s..]|
    ensures s + j <= |a| && a[s..][i..j] == a[s + i..s + j]
  {
  }

  lemma MemberData(f: File, rest: seq<Byte>)
    requires WellFormed(f)
    ensures var m := Member(f) + rest;
            BLOCK + |f.data| <= |m| && m[BLOCK..BLOCK + |f.data|] == f.data
  {
    HeaderFields(f);
    hide Header;
  }

  /** Inode `i` is the one of the `k`-th file of archive `a`: it has a place if and only if the
      file has the flag of a regular file, and the contents are at that place. */
  ghost predicate Describes(i: Inode, k: nat, f: File, a: seq<Byte>)
  {
    && i.number == 3 + k && i.name == f.name && i.typeFlag == f.typeFlag
    && (i.data.Place? <==> f.typeFlag == 48)
    && (i.data.Place? ==> i.data.at + |f.data| <= |a| && a[i.data.at..i.data.at + |f.data|] == f.data)
  }

  lemma RecordedDescribes(files: seq<File>, k: nat)
    requires k < |files| && WellFormed(files[k])
    ensures Describes(Recorded(files, k), k, files[k], Written(files))
  {
    hide Written, WellFormed, Start;
    DataAt(files, k);
  }

  /** The loop of tarfs_init. */
  method Walk(a: seq<Byte>, ghost files: seq<File>) returns (inodes: seq<Inode>)
    requires a == Written(files) && forall f | f in files :: WellFormed(f)
    ensures |inodes| == |files| && forall k | 0 <= k < |files| :: inodes[k] == Recorded(files, k)
    ensures forall k | 0 <= k < |files| :: inodes[k].size == |files[k].data| <==> |files[k].data| < INT_LIMIT
    ensures forall k | 0 <= k < |files| :: Describes(inodes[k], k, files[k], a)
  {
    hide Written, Start, Sum, OctalValue, Magic, WellFormed;
    inodes := [];
    var temp, number := 0, FIRST_INODE;
    ghost var k := 0;
    Enter(files, 0);
    var diff := MemCmp(a, temp + MAGIC_AT, Magic());
    while diff == 0
      invariant k <= |files| && temp == Start(files, k) && number == FIRST_INODE + k && |inodes| == k
      invariant temp + BLOCK <= |a| && diff == Sum(a[temp + MAGIC_AT..temp + MAGIC_AT + 5]) - Sum(Magic())
      invariant forall j | 0 <= j < k :: inodes[j] == Recorded(files, j)
      decreases |files| - k
    {
      Enter(files, k);
      var size := OctToDec(a, temp + SIZE_AT, SIZE_DIGITS);
      var flag := a[temp + TYPE_AT];
      var place := if KindOf(flag) == Normal then Place(temp + BLOCK) else None;
      inodes := inodes + [Inode(number, AsInt(size), flag, place, a[temp..temp + NAME_SIZE])];
      number := number + 1;
      temp := temp + ((size + 511) / 512 + 1) * 512;
      k := k + 1;
      Enter(files, k);
      diff := MemCmp(a, temp + MAGIC_AT, Magic());
    }
    Enter(files, k);
    forall j | 0 <= j < |files|
      ensures inodes[j].size == |files[j].data| <==> |files[j].data| < INT_LIMIT
      ensures Describes(inodes[j], j, files[j], a)
    {
      SizeExact(files, j);
      RecordedDescribes(files, j);
    }
  }

  /** What the walk sees when it gets to member `k`, or to the end of the archive. */
  lemma Enter(files: seq<File>, k: nat)
    requires k <= |files| && forall f | f in files :: WellFormed(f)
    ensures var a, s := Written(files), Start(files, k);
            && s + BLOCK <= |a| && (k == 0 ==> s == 0)
            && (Sum(a[s + MAGIC_AT..s + MAGIC_AT + 5]) == Sum(Magic()) <==> k < |files|)
            && (k < |files| ==>
                  && OctalValue(a[s + SIZE_AT..s + SIZE_AT + SIZE_DIGITS]) == |files[k].data|
                  && a[s + TYPE_AT] == files[k].typeFlag && a[s..s + NAME_SIZE] == files[k].name
                  && Start(files, k + 1) == s + ((|files[k].data| + 511) / 512 + 1) * 512)
  {
    hide Header, Octal, OctalValue, Member, WellFormed;
    WrittenSplit(files, k);
    var a, s, tail := Written(files), Start(files, k), files[k..];
    var m := Written(tail);
    assert a[s..] == m;
    if k < |files| {
      assert tail[0] == files[k];
      SizeFits(files[k]);
      MemberSize(files[k]);
      OctalRoundTrip(|files[k].data|, SIZE_DIGITS);
      HeaderSeen(a, s, files[k], files[k + 1..]);
    } else {
      assert |m| == 2 * BLOCK;
      assert a[s + MAGIC_AT..s + MAGIC_AT + 5] == m[MAGIC_AT..MAGIC_AT + 5];
      SumZero(m[MAGIC_AT..MAGIC_AT + 5]);
      SumAtLeast(Magic());
    }
  }

  lemma SizeFits(f: File)
    requires WellFormed(f)
    ensures |f.data| < Power8(SIZE_DIGITS)
  {
  }

  lemma HeaderSeen(a: seq<Byte>, s: nat, f: File, rest: seq<File>)
    requires WellFormed(f) && s <= |a| && a[s..] == Member(f) + Written(rest)
    ensures s + BLOCK <= |a| && a[s..s + BLOCK] == Header(f)
    ensures a[s + MAGIC_AT..s + MAGIC_AT + 5] == Magic()
    ensures a[s + SIZE_AT..s + SIZE_AT + SIZE_DIGITS] == Octal(|f.data|, SIZE_DIGITS)
    ensures a[s + TYPE_AT] == f.typeFlag && a[s..s + NAME_SIZE] == f.name
  {
    HeaderFields(f);
    hide Header, Octal;
    var m := a[s..];
    assert m[..BLOCK] == Header(f);
    assert a[s..s + BLOCK] == m[..BLOCK];
    var h := a[s..s + BLOCK];
    assert a[s + MAGIC_AT..s + MAGIC_AT + 5] == h[MAGIC_AT..MAGIC_AT + 5];
    assert a[s + SIZE_AT..s + SIZE_AT + SIZE_DIGITS] == h[SIZE_AT..SIZE_AT + SIZE_DIGITS];
    assert a[s..s + NAME_SIZE] == h[..NAME_SIZE];
  }
}
