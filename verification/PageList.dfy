/** The list of physical pages (sys/phys_mmgr.c): one record per page, a first-fit
    scan that hands pages out, and reference counts of 32 bits that wrap.

    The functions give each operation on the list as a value; the methods of
    `FrameList` are the loops over the array, proved against them. */
module PageList {
  import opened Basics

  const COUNT_LIMIT: nat := 0x1_0000_0000
  const RECORD_SIZE: nat := 16   // sizeof(struct page)

  /** `inUse` is the source's flag `is_free_page`, which is set while the page is taken. */
  datatype Page = Page(addr: nat, count: nat, inUse: bool)

  function Up(n: nat): (r: nat)
  {
    (n + 1) % COUNT_LIMIT
  }

  function Down(n: nat): (r: nat)
  {
    (n + COUNT_LIMIT - 1) % COUNT_LIMIT
  }

  /** Index of the first page not in use, or the length of the list. */
  function FirstFree(s: seq<Page>): (k: nat)
    ensures k <= |s|
    ensures forall i | 0 <= i < k :: s[i].inUse
    ensures k < |s| ==> !s[k].inUse
  {
    if s == [] || !s[0].inUse then 0 else 1 + FirstFree(s[1..])
  }

  /** Index of the first page with address `a`, or the length of the list. */
  function IndexOf(s: seq<Page>, a: nat): (k: nat)
    ensures k <= |s|
    ensures forall i | 0 <= i < k :: s[i].addr != a
    ensures k < |s| ==> s[k].addr == a
  {
    if s == [] || s[0].addr == a then 0 else 1 + IndexOf(s[1..], a)
  }

  /** What the scan does to a taken page it passes: a count of zero becomes one. */
  function Repaired(p: Page): (r: Page)
  {
    if p.inUse && p.count == 0 then p.(count := 1) else p
  }

  function RepairedBelow(s: seq<Page>, k: nat): (r: seq<Page>)
    ensures |r| == |s|
    ensures forall i | 0 <= i < |s| :: r[i] == if i < k then Repaired(s[i]) else s[i]
  {
    seq(|s|, i requires 0 <= i < |s| => if i < k then Repaired(s[i]) else s[i])
  }

  /** The list after phys_mem_alloc. */
  function AllocPages(s: seq<Page>): (r: seq<Page>)
    ensures |r| == |s|
  {
    var k := FirstFree(s);
    var t := RepairedBelow(s, k);
    if k == |s| then t else t[k := Page(s[k].addr, Up(s[k].count), true)]
  }

  /** The address phys_mem_alloc returns; 0 when no page is left. */
  function AllocAddr(s: seq<Page>): (a: nat)
  {
    var k := FirstFree(s);
    if k == |s| then 0 else s[k].addr
  }

  /** The list after phys_mem_free. */
  function FreePages(s: seq<Page>, a: nat): (r: seq<Page>)
    ensures |r| == |s|
  {
    var k := IndexOf(s, a);
    if k == |s| || !s[k].inUse then s
    else
      var c := Down(s[k].count);
      s[k := Page(s[k].addr, c, c != 0)]
  }

  /** The list after every page with address `a` has its count changed by `delta`. */
  function Adjusted(s: seq<Page>, a: nat, delta: nat -> nat): (r: seq<Page>)
    ensures |r| == |s|
    ensures forall i | 0 <= i < |s| ::
              r[i] == if s[i].addr == a then s[i].(count := delta(s[i].count)) else s[i]
  {
    seq(|s|, i requires 0 <= i < |s| =>
      if s[i].addr == a then s[i].(count := delta(s[i].count)) else s[i])
  }

  function IncPages(s: seq<Page>, a: nat): (r: seq<Page>)
    ensures |r| == |s|
  {
    Adjusted(s, a, Up)
  }

  function DecPages(s: seq<Page>, a: nat): (r: seq<Page>)
    ensures |r| == |s|
  {
    Adjusted(s, a, Down)
  }

  /** The record get_page_from_phys_addr finds, or the zeroed one it returns instead. */
  function PageAt(s: seq<Page>, a: nat): (p: Page)
  {
    var k := IndexOf(s, a);
    if k == |s| then Page(0, 0, false) else s[k]
  }

  // ---------------------------------------------------------------- the list as built

  /** Consecutive page addresses from `base`, counts of 32 bits. */
  ghost predicate Listed(s: seq<Page>, base: nat)
  {
    && 0 < base
    && base % PAGE == 0
    && forall i | 0 <= i < |s| :: s[i].addr == base + PAGE * i && s[i].count < COUNT_LIMIT
  }

  /** A page that is not in use has a count of zero. */
  ghost predicate FreeMeansZero(s: seq<Page>)
  {
    forall i | 0 <= i < |s| && !s[i].inUse :: s[i].count == 0
  }

  /** The pages in use are exactly the first `n`. */
  ghost predicate Dense(s: seq<Page>, n: nat)
  {
    n <= |s| && forall i | 0 <= i < |s| :: s[i].inUse <==> i < n
  }

  lemma FirstFreeUnique(s: seq<Page>, k: nat)
    requires k <= |s|
    requires forall i | 0 <= i < k :: s[i].inUse
    requires k < |s| ==> !s[k].inUse
    ensures FirstFree(s) == k
  {
  }

  lemma IndexOfFirst(s: seq<Page>, a: nat, k: nat)
    requires k <= |s|
    requires forall i | 0 <= i < k :: s[i].addr != a
    requires k < |s| ==> s[k].addr == a
    ensures IndexOf(s, a) == k
  {
  }

  lemma IndexOfListed(s: seq<Page>, base: nat, k: nat)
    requires Listed(s, base) && k < |s|
    ensures IndexOf(s, s[k].addr) == k
  {
    var j := IndexOf(s, s[k].addr);
    assert j < |s| ==> s[j].addr == base + PAGE * j;
  }

  /** initialize_free_list: the pages that hold the list itself are marked as taken,
      but their number is rounded down. */
  function InitialPages(n: nat, base: nat): (s: seq<Page>)
    ensures |s| == n
  {
    seq(n, i requires 0 <= i < n => Page(base + PAGE * i, 0, i < n * RECORD_SIZE / PAGE))
  }

  lemma InitialListed(n: nat, base: nat)
    requires 0 < base && base % PAGE == 0
    ensures var s := InitialPages(n, base);
            Sound(s, base) && Dense(s, n * RECORD_SIZE / PAGE)
  {
  }

  /** The list occupies the bytes from `base` up to `base + n * RECORD_SIZE`.  The first
      page handed out lies clear of them exactly when the number of pages is a multiple
      of 256; otherwise it holds the tail of the list itself. */
  lemma FirstPageClearOfList(n: nat, base: nat)
    requires 0 < n && 0 < base && base % PAGE == 0
    ensures var s := InitialPages(n, base);
            base + n * RECORD_SIZE <= AllocAddr(s) <==> n % 256 == 0
  {
    var s := InitialPages(n, base);
    var k := n * RECORD_SIZE / PAGE;
    FirstFreeUnique(s, k);
  }

  // ---------------------------------------------------------------- runs

  datatype Op = Alloc | Free(a: nat) | Inc(a: nat) | Dec(a: nat)

  function Apply(s: seq<Page>, op: Op): (r: seq<Page>)
    ensures |r| == |s|
  {
    match op
    case Alloc => AllocPages(s)
    case Free(a) => FreePages(s, a)
    case Inc(a) => IncPages(s, a)
    case Dec(a) => DecPages(s, a)
  }

  /** The list after the first `i` operations of `ops`. */
  function Run(s: seq<Page>, ops: seq<Op>, i: nat): (r: seq<Page>)
    requires i <= |ops|
    ensures |r| == |s|
  {
    if i == 0 then s else Apply(Run(s, ops, i - 1), ops[i - 1])
  }

  /** The callers change the count only of pages they hold. */
  ghost predicate Allowed(s: seq<Page>, op: Op)
  {
    match op
    case Alloc => true
    case Free(_) => true
    case Inc(a) => var k := IndexOf(s, a); k < |s| ==> s[k].inUse
    case Dec(a) => var k := IndexOf(s, a); k < |s| ==> s[k].inUse
  }

  /** The first `i` operations are allowed where they occur. */
  ghost predicate AllAllowed(s: seq<Page>, ops: seq<Op>, i: nat)
    requires i <= |ops|
  {
    i == 0 || (AllAllowed(s, ops, i - 1) && Allowed(Run(s, ops, i - 1), ops[i - 1]))
  }

  ghost predicate Sound(s: seq<Page>, base: nat)
  {
    Listed(s, base) && FreeMeansZero(s)
  }

  lemma {:induction false} AllowedBefore(s: seq<Page>, ops: seq<Op>, i: nat, j: nat)
    requires i <= j <= |ops| && AllAllowed(s, ops, j)
    ensures AllAllowed(s, ops, i)
  {
    if i < j {
      AllowedBefore(s, ops, i, j - 1);
    }
  }

  lemma ApplyKeeps(s: seq<Page>, base: nat, op: Op)
    requires Sound(s, base) && Allowed(s, op)
    ensures Sound(Apply(s, op), base)
  {
    if op.Inc? || op.Dec? {
      forall i | 0 <= i < |s| && s[i].addr == op.a
        ensures s[i].inUse
      {
        IndexOfListed(s, base, i);
      }
    }
  }

  lemma {:induction false} RunKeeps(s: seq<Page>, base: nat, ops: seq<Op>, i: nat)
    requires Sound(s, base) && i <= |ops| && AllAllowed(s, ops, i)
    ensures Sound(Run(s, ops, i), base)
  {
    if i != 0 {
      RunKeeps(s, base, ops, i - 1);
      ApplyKeeps(Run(s, ops, i - 1), base, ops[i - 1]);
    }
  }

  /** In every run, the pages below the one handed out are all in use, it is not, and
      only the count and flag of that page change, apart from zero counts of the pages that the
      scan passes, which become one. */
  lemma AllocTakesLowest(s: seq<Page>, base: nat, k: nat)
    requires Sound(s, base) && k < |s|
    ensures AllocAddr(s) == s[k].addr <==> !s[k].inUse && forall i | 0 <= i < k :: s[i].inUse
    ensures AllocAddr(s) == s[k].addr ==> AllocPages(s)[k] == Page(s[k].addr, 1, true)
    ensures AllocAddr(s) != s[k].addr ==>
              AllocPages(s)[k] == if s[k].count == 0 && forall i | 0 <= i <= k :: s[i].inUse then s[k].(count := 1)
                                  else s[k]
  {
    if !s[k].inUse && forall i | 0 <= i < k :: s[i].inUse {
      FirstFreeUnique(s, k);
    }
    var j := FirstFree(s);
    assert j < |s| ==> s[j].addr == base + PAGE * j;
  }

  /** A taken page stays taken through one operation unless that operation frees it at
      count one. */
  lemma StaysInUse(s: seq<Page>, base: nat, op: Op, k: nat)
    requires Listed(s, base) && k < |s| && s[k].inUse
    ensures Apply(s, op)[k].inUse <==> !(op == Free(s[k].addr) && s[k].count == 1)
  {
    match op
    case Free(a) =>
      IndexOfListed(s, base, k);
    case _ =>
  }

  ghost predicate FreesLast(s: seq<Page>, op: Op, a: nat)
  {
    op == Free(a) && PageAt(s, a).count == 1
  }

  /** A page taken after the first `i` operations is still taken after `j`, unless some
      operation in between freed it. */
  lemma {:induction false} HeldOrFreed(s: seq<Page>, base: nat, ops: seq<Op>, i: nat, j: nat, k: nat) returns (m: nat)
    requires Sound(s, base) && i <= j <= |ops| && AllAllowed(s, ops, j)
    requires k < |s| && Run(s, ops, i)[k].inUse
    ensures Run(s, ops, j)[k].inUse ||
            (i <= m < j && FreesLast(Run(s, ops, m), ops[m], s[k].addr))
    decreases j - i
  {
    hide Sound, Run, FreesLast;
    m := i;
    if i < j {
      m := HeldOrFreed(s, base, ops, i, j - 1, k);
      if Run(s, ops, j - 1)[k].inUse {
        HeldStep(s, base, ops, j - 1, k);
        m := j - 1;
      }
    }
  }

  lemma HeldStep(s: seq<Page>, base: nat, ops: seq<Op>, j: nat, k: nat)
    requires Sound(s, base) && j < |ops| && AllAllowed(s, ops, j + 1) && k < |s| && Run(s, ops, j)[k].inUse
    ensures Run(s, ops, j + 1)[k].inUse || FreesLast(Run(s, ops, j), ops[j], s[k].addr)
  {
    var t := Run(s, ops, j);
    RunKeeps(s, base, ops, j);
    IndexOfListed(t, base, k);
    StaysInUse(t, base, ops[j], k);
  }

  /** The page an allocation in a run hands out: free before it, taken after it. */
  lemma AllocatedAt(s: seq<Page>, base: nat, ops: seq<Op>, i: nat) returns (k: nat)
    requires Sound(s, base) && i < |ops| && AllAllowed(s, ops, i) && ops[i] == Alloc
    requires AllocAddr(Run(s, ops, i)) != 0
    ensures k < |s| && AllocAddr(Run(s, ops, i)) == s[k].addr == base + PAGE * k
    ensures !Run(s, ops, i)[k].inUse && Run(s, ops, i + 1)[k].inUse
  {
    var t := Run(s, ops, i);
    k := FirstFree(t);
    RunKeeps(s, base, ops, i);
    AllocTakesLowest(t, base, k);
  }

  /** No page is handed out twice without being freed in between: if the allocations at
      positions i < j of a run return the same page, the operation at some position `m`
      strictly between them frees it while its count is one. */
  lemma NoDoubleAllocation(s: seq<Page>, base: nat, ops: seq<Op>, i: nat, j: nat) returns (m: nat)
    requires Sound(s, base) && i < j < |ops| && AllAllowed(s, ops, j)
    requires ops[i] == Alloc && ops[j] == Alloc
    requires AllocAddr(Run(s, ops, i)) == AllocAddr(Run(s, ops, j)) != 0
    ensures i < m < j && FreesLast(Run(s, ops, m), ops[m], AllocAddr(Run(s, ops, i)))
  {
    hide Sound, Run, AllAllowed, FreesLast, AllocAddr;
    AllowedBefore(s, ops, i, j);
    var k := AllocatedAt(s, base, ops, i);
    var k' := AllocatedAt(s, base, ops, j);
    assert k == k';
    m := HeldOrFreed(s, base, ops, i + 1, j, k);
  }

  // ---------------------------------------------------------------- several allocations

  /** The page at `a` is listed and in use. */
  predicate Held(s: seq<Page>, a: nat)
  {
    PageAt(s, a).inUse
  }

  function AllocMany(s: seq<Page>, k: nat): (r: seq<Page>)
    ensures |r| == |s|
    decreases k
  {
    if k == 0 then s else AllocMany(AllocPages(s), k - 1)
  }

  /** The addresses that the next `k` allocations return. */
  function Given(s: seq<Page>, k: nat): (r: seq<nat>)
    ensures |r| == k
    decreases k
  {
    if k == 0 then [] else [AllocAddr(s)] + Given(AllocPages(s), k - 1)
  }

  /** What one allocation does to the pages in use, on any list. */
  ghost predicate TookOne(s: seq<Page>, s': seq<Page>, f: nat)
  {
    && !Held(s, f) && PageAt(s', f) == Page(f, 1, true) && f % PAGE == 0 && 0 < f
    && forall a | a != f ::
         Held(s', a) == Held(s, a) && (Held(s, a) && 0 < PageAt(s, a).count ==> PageAt(s', a) == PageAt(s, a))
  }

  lemma AllocTookOne(s: seq<Page>, base: nat)
    requires Sound(s, base) && AllocAddr(s) != 0
    ensures Sound(AllocPages(s), base) && TookOne(s, AllocPages(s), AllocAddr(s))
    ensures AllocAddr(AllocPages(s)) != 0 ==> AllocAddr(s) < AllocAddr(AllocPages(s))
  {
    ApplyKeeps(s, base, Alloc);
    AllocRises(s, base);
    var s', k := AllocPages(s), FirstFree(s);
    IndexOfListed(s, base, k);
    IndexOfListed(s', base, k);
    forall a | a != s[k].addr
      ensures Held(s', a) == Held(s, a) && (Held(s, a) && 0 < PageAt(s, a).count ==> PageAt(s', a) == PageAt(s, a))
    {
      SamePlace(s, s', a);
    }
  }

  lemma AllocRises(s: seq<Page>, base: nat)
    requires Listed(s, base) && AllocAddr(s) != 0
    ensures AllocAddr(AllocPages(s)) != 0 ==> AllocAddr(s) < AllocAddr(AllocPages(s))
  {
    assert forall i | 0 <= i <= FirstFree(s) :: AllocPages(s)[i].inUse;
  }

  lemma SamePlace(s: seq<Page>, s': seq<Page>, a: nat)
    requires |s'| == |s| && forall i | 0 <= i < |s| :: s'[i].addr == s[i].addr
    ensures IndexOf(s', a) == IndexOf(s, a)
  {
    IndexOfFirst(s', a, IndexOf(s, a));
  }

  /** What allocations that all succeed do to the pages in use, on any list: the pages handed
      out were free and have count 1, and every other page is used as before. */
  ghost predicate TookAll(s: seq<Page>, s': seq<Page>, fs: seq<nat>)
  {
    && (forall f | f in fs :: !Held(s, f) && PageAt(s', f) == Page(f, 1, true) && f % PAGE == 0 && 0 < f)
    && (forall i, j | 0 <= i < j < |fs| :: fs[i] < fs[j])
    && forall a | a !in fs ::
         Held(s', a) == Held(s, a) && (Held(s, a) && 0 < PageAt(s, a).count ==> PageAt(s', a) == PageAt(s, a))
  }

  lemma {:induction false} AllocManyTook(s: seq<Page>, base: nat, k: nat)
    requires Sound(s, base) && 0 !in Given(s, k)
    ensures Sound(AllocMany(s, k), base) && TookAll(s, AllocMany(s, k), Given(s, k))
    decreases k
  {
    hide AllocPages, AllocAddr, Sound, PageAt;
    if k != 0 {
      var s1, f, rest := AllocPages(s), AllocAddr(s), Given(AllocPages(s), k - 1);
      assert Given(s, k) == [f] + rest && f in Given(s, k);
      AllocTookOne(s, base);
      AllocManyTook(s1, base, k - 1);
      assert f !in rest;
      forall i, j | 0 <= i < j < k
        ensures Given(s, k)[i] < Given(s, k)[j]
      {
        if i == 0 {
          assert rest[0] in rest && rest[0] == AllocAddr(s1);
          assert rest[0] == rest[j - 1] || rest[0] < rest[j - 1];
        }
      }
    }
  }

  lemma {:induction false} GivenSplit(s: seq<Page>, a: nat, b: nat)
    ensures AllocMany(s, a + b) == AllocMany(AllocMany(s, a), b)
    ensures Given(s, a + b) == Given(s, a) + Given(AllocMany(s, a), b)
    decreases a
  {
    hide AllocPages, AllocAddr;
    if a != 0 {
      GivenSplit(AllocPages(s), a - 1, b);
    }
  }

  // ---------------------------------------------------------------- allocation only

  lemma AllocDense(s: seq<Page>, base: nat, n: nat)
    requires Sound(s, base) && Dense(s, n) && n < |s|
    ensures AllocAddr(s) == base + PAGE * n
    ensures Sound(AllocPages(s), base) && Dense(AllocPages(s), n + 1)
    ensures forall i | 0 <= i < n && 0 < s[i].count :: AllocPages(s)[i] == s[i]
    ensures AllocPages(s)[n].count == 1
  {
    FirstFreeUnique(s, n);
    ApplyKeeps(s, base, Alloc);
  }

  /** Allocation alone: counts of held pages are kept and the first `n'` pages are taken. */
  ghost predicate Took(s: seq<Page>, s': seq<Page>, base: nat, n: nat, n': nat)
  {
    && Sound(s', base) && Dense(s', n') && |s'| == |s| && n <= n'
    && forall i | 0 <= i < n && i < |s| && 0 < s[i].count :: s'[i] == s[i]
  }

  lemma TookTransitive(s: seq<Page>, s1: seq<Page>, s2: seq<Page>, base: nat, n: nat, n1: nat, n2: nat)
    requires Took(s, s1, base, n, n1) && Took(s1, s2, base, n1, n2)
    ensures Took(s, s2, base, n, n2)
  {
  }

  lemma AllocTook(s: seq<Page>, base: nat, n: nat)
    requires Sound(s, base) && Dense(s, n) && n < |s|
    ensures Took(s, AllocPages(s), base, n, n + 1)
  {
    AllocDense(s, base, n);
  }

  lemma TookNothing(s: seq<Page>, base: nat, n: nat)
    requires Sound(s, base) && Dense(s, n)
    ensures Took(s, s, base, n, n)
  {
  }

  /** On a list without holes the pages handed out are the next ones. */
  lemma {:induction false} DenseMany(s: seq<Page>, base: nat, n: nat, k: nat)
    requires Sound(s, base) && Dense(s, n) && n + k <= |s|
    ensures Took(s, AllocMany(s, k), base, n, n + k) && 0 !in Given(s, k)
    ensures forall i | 0 <= i < k :: Given(s, k)[i] == base + PAGE * (n + i)
    decreases k
  {
    hide AllocPages, AllocAddr, Took;
    if k == 0 {
      TookNothing(s, base, n);
    } else {
      AllocDense(s, base, n);
      AllocTook(s, base, n);
      DenseMany(AllocPages(s), base, n + 1, k - 1);
      TookTransitive(s, AllocPages(s), AllocMany(s, k), base, n, n + 1, n + k);
    }
  }

  /** The first `n` pages have positive counts. */
  ghost predicate Positive(s: seq<Page>, n: nat)
  {
    forall i | 0 <= i < n && i < |s| :: 0 < s[i].count
  }

  /** An allocation repairs the counts below the page it takes. */
  lemma PositiveOne(s: seq<Page>, base: nat, n: nat)
    requires Sound(s, base) && Dense(s, n) && n < |s|
    ensures Positive(AllocPages(s), n + 1)
  {
    FirstFreeUnique(s, n);
  }

  lemma {:induction false} PositiveMany(s: seq<Page>, base: nat, n: nat, k: nat)
    requires Sound(s, base) && Dense(s, n) && n + k <= |s| && (0 < k || Positive(s, n))
    ensures Positive(AllocMany(s, k), n + k)
    decreases k
  {
    if k != 0 {
      AllocDense(s, base, n);
      PositiveOne(s, base, n);
      PositiveMany(AllocPages(s), base, n + 1, k - 1);
    }
  }

  /** A page that was given back is the next to be handed out, which undoes the giving back. */
  lemma Refill(s: seq<Page>, base: nat, n: nat, f: nat)
    requires Sound(s, base) && Dense(s, n) && Positive(s, n)
    requires base <= f < base + PAGE * n && (f - base) % PAGE == 0 && PageAt(s, f).count == 1
    ensures AllocAddr(FreePages(s, f)) == f && AllocPages(FreePages(s, f)) == s
  {
    var k := (f - base) / PAGE;
    assert s[k].addr == f;
    IndexOfListed(s, base, k);
    var s' := FreePages(s, f);
    FirstFreeUnique(s', k);
    assert AllocPages(s') == s;
  }

  // ---------------------------------------------------------------- the loops

  class FrameList {
    const pages: array<Page>

    /** initialize_free_list */
    constructor (n: nat, base: nat)
      ensures fresh(pages) && pages[..] == InitialPages(n, base)
    {
      pages := new Page[n](i => Page(base + PAGE * i, 0, false));
      new;
      var reserved := n * RECORD_SIZE / PAGE;
      for i := 0 to reserved
        invariant reserved <= n
        invariant forall j | 0 <= j < n :: pages[j] == Page(base + PAGE * j, 0, j < i)
      {
        pages[i] := pages[i].(inUse := true);
      }
    }

    /** phys_mem_alloc */
    method Alloc() returns (a: nat)
      modifies pages
      ensures pages[..] == AllocPages(old(pages[..]))
      ensures a == AllocAddr(old(pages[..]))
    {
      ghost var was := pages[..];
      var i := 0;
      while i < pages.Length
        invariant i <= pages.Length
        invariant pages[..] == RepairedBelow(was, i)
        invariant forall j | 0 <= j < i :: was[j].inUse
      {
        if pages[i].inUse {
          if pages[i].count == 0 {
            pages[i] := pages[i].(count := 1);
          }
        } else {
          FirstFreeUnique(was, i);
          pages[i] := pages[i].(inUse := true);
          pages[i] := pages[i].(count := Up(pages[i].count));
          return pages[i].addr;
        }
        i := i + 1;
      }
      FirstFreeUnique(was, i);
      return 0;
    }

    /** phys_mem_free */
    method Free(a: nat)
      modifies pages
      ensures pages[..] == FreePages(old(pages[..]), a)
    {
      var i := 0;
      while i < pages.Length
        invariant i <= pages.Length
        invariant pages[..] == old(pages[..])
        invariant forall j | 0 <= j < i :: pages[j].addr != a
      {
        if pages[i].addr == a {
          IndexOfFirst(pages[..], a, i);
          if pages[i].inUse {
            pages[i] := pages[i].(count := Down(pages[i].count));
            if pages[i].count == 0 {
              pages[i] := pages[i].(inUse := false);
            }
          }
          return;
        }
        i := i + 1;
      }
      IndexOfFirst(pages[..], a, i);
    }

    /** increment_reference_count_of_page */
    method Increment(a: nat)
      modifies pages
      ensures pages[..] == IncPages(old(pages[..]), a)
    {
      for i := 0 to pages.Length
        invariant forall j | 0 <= j < pages.Length ::
                    pages[j] == if j < i && old(pages[j]).addr == a
                                then old(pages[j]).(count := Up(old(pages[j]).count))
                                else old(pages[j])
      {
        if pages[i].addr == a {
          pages[i] := pages[i].(count := Up(pages[i].count));
        }
      }
    }

    /** decrement_reference_count_of_page */
    method Decrement(a: nat)
      modifies pages
      ensures pages[..] == DecPages(old(pages[..]), a)
    {
      for i := 0 to pages.Length
        invariant forall j | 0 <= j < pages.Length ::
                    pages[j] == if j < i && old(pages[j]).addr == a
                                then old(pages[j]).(count := Down(old(pages[j]).count))
                                else old(pages[j])
      {
        if pages[i].addr == a {
          pages[i] := pages[i].(count := Down(pages[i].count));
        }
      }
    }

    /** The search of get_page_from_phys_addr; the page it allocates first is the caller's. */
    method Find(a: nat) returns (p: Page)
      ensures p == PageAt(pages[..], a)
    {
      for i := 0 to pages.Length
        invariant forall j | 0 <= j < i :: pages[j].addr != a
      {
        if pages[i].addr == a {
          IndexOfFirst(pages[..], a, i);
          return pages[i];
        }
      }
      IndexOfFirst(pages[..], a, pages.Length);
      return Page(0, 0, false);
    }
  }
}
