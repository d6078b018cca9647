/** The doubly linked list of regions (add_vma, find_vma_prev and insert_vma of sys/memory.c,
    dup_mm of sys/process.c), and mmap on it. */
module RegionList {
  import opened Basics
  import opened Vmas
  import Util

  class Entry {
    const lo: nat
    const hi: nat
    var prev: Entry?
    var next: Entry?

    constructor (lo: nat, hi: nat)
      ensures this.lo == lo && this.hi == hi && prev == null && next == null
    {
      this.lo, this.hi := lo, hi;
      prev, next := null, null;
    }

    function Value(): (r: Span)
    {
      Span(lo, hi)
    }
  }

  /** The links in both directions follow the sequence. */
  ghost predicate Linked(l: seq<Entry>)
    reads l`prev, l`next
  {
    && (forall i | 0 <= i < |l| - 1 :: l[i].next == l[i + 1])
    && (forall i | 0 < i < |l| :: l[i].prev == l[i - 1])
    && (l != [] ==> l[0].prev == null && l[|l| - 1].next == null)
  }

  ghost function Spans(l: seq<Entry>): (r: seq<Span>)
    ensures |r| == |l| && forall i | 0 <= i < |l| :: r[i] == l[i].Value()
  {
    seq(|l|, i requires 0 <= i < |l| => l[i].Value())
  }

  function With(e: seq<Entry>, v: Entry, k: nat): (r: seq<Entry>)
    requires k <= |e|
  {
    e[..k] + [v] + e[k..]
  }

  /** The links of entry `i` once `v` is before entry `k`. */
  function NextOf(e: seq<Entry>, v: Entry, k: nat, i: nat): (r: Entry?)
  {
    if i == k - 1 then v else if i + 1 < |e| then e[i + 1] else null
  }

  function PrevOf(e: seq<Entry>, v: Entry, k: nat, i: nat): (r: Entry?)
    requires i < |e|
  {
    if i == k then v else if 0 < i then e[i - 1] else null
  }

  lemma WithAt(e: seq<Entry>, v: Entry, k: nat, i: nat)
    requires k <= |e| && i <= |e|
    ensures |With(e, v, k)| == |e| + 1
    ensures With(e, v, k)[i] == if i < k then e[i] else if i == k then v else e[i - 1]
  {
  }

  lemma WithDistinct(e: seq<Entry>, v: Entry, k: nat)
    requires k <= |e| && v !in e && NoDup(e)
    ensures NoDup(With(e, v, k))
  {
    hide With;
    WithAt(e, v, k, 0);
    var r := With(e, v, k);
    forall i, j | 0 <= i < j < |r|
      ensures r[i] != r[j]
    {
      WithAt(e, v, k, i);
      WithAt(e, v, k, j);
    }
  }

  /** The links that an insertion leaves follow the new sequence. */
  lemma LinkedWith(e: seq<Entry>, v: Entry, k: nat)
    requires k <= |e|
    requires forall i | 0 <= i < |e| :: e[i].next == NextOf(e, v, k, i) && e[i].prev == PrevOf(e, v, k, i)
    requires v.prev == (if k == 0 then null else e[k - 1]) && v.next == if k < |e| then e[k] else null
    ensures Linked(With(e, v, k))
  {
    hide With;
    var r := With(e, v, k);
    WithAt(e, v, k, 0);
    WithAt(e, v, k, |e|);
    forall i | 0 <= i < |r| - 1
      ensures r[i].next == r[i + 1]
    {
      WithAt(e, v, k, i);
      WithAt(e, v, k, i + 1);
    }
    forall i | 0 < i < |r|
      ensures r[i].prev == r[i - 1]
    {
      WithAt(e, v, k, i);
      WithAt(e, v, k, i - 1);
    }
  }

  class Regions {
    var head: Entry?
    ghost var entries: seq<Entry>

    ghost predicate Valid()
      reads this, entries`prev, entries`next
    {
      && (entries == [] ==> head == null) && (entries != [] ==> head == entries[0])
      && Linked(entries) && NoDup(entries)
    }

    constructor ()
      ensures Valid() && entries == []
    {
      head, entries := null, [];
    }

    /** find_vma_prev; `written` says whether it has set its result `prev`. */
    method FindPrev(v: Entry) returns (found: bool, written: bool, prev: Entry?)
      requires Valid()
      ensures var place := FindPlace(Spans(entries), v.Value());
              && (found <==> place != Overlap) && (written <==> place != Unset)
              && (place.After? ==>
                    && place.count <= |entries|
                    && prev == if place.count == 0 then null else entries[place.count - 1])
    {
      ghost var l := Spans(entries);
      prev := null;
      var c := head;
      if c == null {
        return true, true, null;
      }
      if v.hi <= c.lo {
        return true, true, null;
      }
      ghost var i := 0;
      while c != null
        invariant i <= |entries| && (i < |entries| ==> c == entries[i]) && (i == |entries| ==> c == null)
        invariant FindPlace(l, v.Value()) == PlaceFrom(l, v.Value(), i)
        decreases |entries| - i
      {
        if Overlapping(c.Value(), v.Value()) {
          return false, true, null;
        }
        if c.next != null {
          if v.lo >= c.hi && v.hi <= c.next.lo {
            return true, true, c;
          }
        } else if v.lo >= c.hi {
          return true, true, c;
        }
        c := c.next;
        i := i + 1;
      }
      found, written := true, false;
    }

    /** insert_vma. */
    method Insert(v: Entry, prev: Entry?, ghost k: nat)
      requires Valid() && v !in entries && k <= |entries| && prev == if k == 0 then null else entries[k - 1]
      modifies this, v`prev, v`next, entries`prev, entries`next
      ensures Valid() && entries == With(old(entries), v, k)
    {
      ghost var e := entries;
      var next: Entry?;
      if prev != null {
        next := prev.next;
        prev.next := v;
      } else {
        next := head;
        head := v;
      }
      assert next == if k < |e| then e[k] else null;
      v.prev := prev;
      v.next := next;
      if next != null {
        next.prev := v;
      }
      entries := With(e, v, k);
      assert forall i | 0 <= i < |e| :: e[i].next == NextOf(e, v, k, i) && e[i].prev == PrevOf(e, v, k, i);
      LinkedWith(e, v, k);
      WithDistinct(e, v, k);
    }

    /** add_vma, where find_vma_prev sets its result. */
    method Add(v: Entry) returns (ok: bool, ghost k: nat)
      requires Valid() && v !in entries && FindPlace(Spans(entries), v.Value()) != Unset
      modifies this, v`prev, v`next, entries`prev, entries`next
      ensures Valid() && (ok <==> FindPlace(Spans(old(entries)), v.Value()).After?)
      ensures ok ==> k <= |old(entries)| && FindPlace(Spans(old(entries)), v.Value()) == After(k)
      ensures ok ==> entries == With(old(entries), v, k)
      ensures !ok ==> entries == old(entries)
      ensures Ordered(Spans(old(entries))) && v.lo < v.hi ==>
                && Ordered(Spans(entries))
                && (ok <==> !exists i :: 0 <= i < |old(entries)| && Share(old(entries)[i].Value(), v.Value()))
    {
      hide Share, Linked, NoDup, FindPlace;
      ghost var l := Spans(entries);
      assert forall i | 0 <= i < |l| :: l[i] == entries[i].Value();
      if Ordered(l) && v.lo < v.hi {
        FindPlaceExact(l, v.Value());
      }
      var found, written, prev := FindPrev(v);
      if !found {
        return false, 0;
      }
      k := FindPlace(l, v.Value()).count;
      if Ordered(l) && v.lo < v.hi {
        assert Fits(l, v.Value(), k);
        InsertedOrdered(l, v.Value(), k);
      }
      SpansWith(entries, v, k);
      Insert(v, prev, k);
      ok := true;
    }

    /** do_first_fit_search. */
    method FirstFitSearch(hint: nat, len: nat) returns (r: Address)
      requires Valid() && entries != [] && NoWrap(Spans(entries), hint, len)
      ensures r == FirstFit(Spans(entries), hint, len) && IsFirstFit(Spans(entries), hint, len, r)
    {
      hide IsFirstFit;
      ghost var l := Spans(entries);
      FirstFitExact(l, hint, len, FirstFit(l, hint, len));
      var c := head;
      var addr: nat := hint;
      if addr < c.lo && addr + len < c.hi {
        return At(addr);
      }
      ghost var i := 0;
      while c.next != null
        invariant 0 <= i < |entries| && c == entries[i]
        invariant FirstFitFrom(l, hint, len, 0) == FirstFitFrom(l, addr, len, i)
        decreases |entries| - i
      {
        if addr >= c.hi && addr + PAGE + len <= c.next.lo {
          break;
        }
        c := c.next;
        i := i + 1;
        addr := c.hi + 1;
      }
      if c.next == null {
        return if c.hi + len > KERNBASE then Nowhere else At(c.hi + 1);
      } else {
        return At(addr);
      }
    }

    /** do_mmap and mmap_region of an anonymous region.  An address that the search does not
        find comes back as the largest word, which is above the kernel base. */
    method Mmap(hint: nat, len: nat) returns (r: Mapping, ghost v: Entry?, ghost k: nat)
      requires Valid() && entries != [] && NoWrap(Spans(entries), Hint(hint), len)
      requires var l := Spans(entries);
               var at := FirstFit(l, Hint(hint), len);
               at.At? && at.addr <= KERNBASE ==> FindPlace(l, Region(at.addr, len)) != Unset
      modifies this, entries`prev, entries`next
      ensures Valid()
      ensures !r.Mapped? ==> entries == old(entries)
      ensures r.Mapped? ==>
                && v != null && v !in old(entries) && v.Value() == Region(r.addr, len)
                && k <= |old(entries)| && entries == With(old(entries), v, k)
      ensures r == Null <==> len == 0 || Util.PageRoundUp(len) > KERNBASE
      ensures r != Null ==>
                var l := Spans(old(entries));
                var at := FirstFit(l, Hint(hint), len);
                r == if at.At? && at.addr <= KERNBASE && FindPlace(l, Region(at.addr, len)).After?
                     then Mapped(at.addr) else Failed
      ensures r.Mapped? ==> FindPlace(Spans(old(entries)), v.Value()) == After(k)
      ensures Ordered(Spans(old(entries))) ==> Ordered(Spans(entries))
      ensures Ordered(Spans(old(entries))) && r != Null && old(entries)[0].lo <= Hint(hint) ==>
                var at := FirstFit(Spans(old(entries)), Hint(hint), len);
                r == if at.At? && at.addr <= KERNBASE then Mapped(at.addr) else Failed
    {
      hide Share, Linked, NoDup, Overlapping, FirstFit, FindPlace, With;
      r, v, k := Failed, null, 0;
      var rounded := Util.PageRoundUp(len);
      if rounded == 0 || rounded > KERNBASE {
        return Null, null, 0;
      }
      var at := FirstFitSearch(Hint(hint), len);
      if at == Nowhere || at.addr > KERNBASE {
        return;
      }
      if Ordered(Spans(entries)) {
        PlacementAccepted(Spans(entries), Hint(hint), len);
      }
      RegionLengthExact(len);
      var entry := new Entry(at.addr, at.addr + 4095 * (len / 4097 + 1));
      var ok, place := Add(entry);
      if ok {
        r, v, k := Mapped(at.addr), entry, place;
      }
    }

    /** The part of the loop of dup_mm that links a copy in. */
    method Append(v: Entry, last: Entry?)
      requires Valid() && v !in entries && v.next == null
      requires last == if entries == [] then null else entries[|entries| - 1]
      modifies this, v`prev, entries`next
      ensures Valid() && entries == old(entries) + [v]
    {
      hide NoDup;
      ghost var e := entries;
      if last == null {
        v.prev := null;
        head := v;
      } else {
        v.prev := last;
        last.next := v;
      }
      entries := e + [v];
      assert forall i | 0 <= i < |e| :: e[i].next == NextOf(e, v, |e|, i) && e[i].prev == PrevOf(e, v, |e|, i);
      LinkedWith(e, v, |e|);
      WithDistinct(e, v, |e|);
      AtEnd(e, v);
    }

    lemma NextIs(i: nat)
      requires Valid() && i < |entries|
      ensures entries[i].next == if i + 1 < |entries| then entries[i + 1] else null
    {
    }

    /** dup_mm: a new list with the same regions. */
    method Duplicate() returns (m: Regions)
      requires Valid()
      ensures fresh(m) && m.Valid() && fresh(set v | v in m.entries)
      ensures Spans(m.entries) == Spans(entries)
    {
      hide Linked, NoDup;
      m := new Regions();
      var c := head;
      var last: Entry? := null;
      ghost var i := 0;
      while c != null
        invariant fresh(m) && m.Valid() && Valid() && fresh(set v | v in m.entries)
        invariant i <= |entries| && c == (if i < |entries| then entries[i] else null)
        invariant last == if m.entries == [] then null else m.entries[|m.entries| - 1]
        invariant Spans(m.entries) == Spans(entries)[..i]
        decreases |entries| - i
      {
        NextIs(i);
        var copy := new Entry(c.lo, c.hi);
        copy.next := null;
        m.Append(copy, last);
        last := copy;
        c := c.next;
        i := i + 1;
      }
    }
  }

  /** On an ordered list, and on one that ends with the stack, find_vma_prev sets its result
      for every region mmap asks for. */
  lemma AlwaysPlaced(l: seq<Span>, stack: Span, addr: nat, len: nat)
    ensures Ordered(l) ==> FindPlace(l, Region(addr, len)) != Unset
    ensures BelowStack(l, stack) ==> FindPlace(l + [stack], Region(addr, len)) != Unset
  {
    RegionLengthExact(len);
    if Ordered(l) {
      FindPlaceExact(l, Region(addr, len));
    }
    if BelowStack(l, stack) {
      FindPlaceByStack(l, stack, Region(addr, len));
    }
  }

  lemma AtEnd(e: seq<Entry>, v: Entry)
    ensures With(e, v, |e|) == e + [v]
  {
  }

  datatype Mapping = Null | Failed | Mapped(addr: nat)

  lemma SpansWith(e: seq<Entry>, v: Entry, k: nat)
    requires k <= |e|
    ensures Spans(With(e, v, k)) == Inserted(Spans(e), v.Value(), k)
  {
  }
}
