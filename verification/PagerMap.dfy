/**
  The page map of one paging object: direct for small objects, two-level for large
  ones, growing by doubling. It stands for a partial map from page numbers to blocks.
*/
module PagerMap {
  import opened Prelude

  const PAGEMAP_ENTRIES := 64
  const MAX_DOUBLED := 1024          // four megabytes, in pages

  datatype Entry = NoBlock | Block(part: nat, off: nat)

  datatype PageMap = Direct(entries: seq<Entry>) | Indirect(maps: seq<Option<seq<Entry>>>)

  /** `cur` is the partition new blocks come from, if there is one. */
  datatype Pager = Pager(pmap: PageMap, size: nat, cur: Option<nat>)

  function Level1(size: nat): nat
    requires size > 0
  {
    (size - 1) / PAGEMAP_ENTRIES + 1
  }

  function Empty(n: nat): seq<Entry> {
    seq(n, _ => NoBlock)
  }

  /** Sizes an object can have: a power of two up to one map block, or whole map blocks. */
  predicate SizeOk(n: nat) {
    n == 1 || n == 2 || n == 4 || n == 8 || n == 16 || n == 32 || (n >= PAGEMAP_ENTRIES && n % PAGEMAP_ENTRIES == 0)
  }

  predicate MapOk(pg: Pager) {
    SizeOk(pg.size)
    && if pg.size > PAGEMAP_ENTRIES
       then pg.pmap.Indirect? && |pg.pmap.maps| == Level1(pg.size)
            && forall i :: 0 <= i < |pg.pmap.maps| && pg.pmap.maps[i].Some? ==>
                 |pg.pmap.maps[i].value| == PAGEMAP_ENTRIES
       else pg.pmap.Direct? && |pg.pmap.entries| == pg.size
  }

  lemma SecondLevel(size: nat, page: nat)
    requires size > 0 && page < size
    ensures page / PAGEMAP_ENTRIES < Level1(size)
  {
  }

  /** pager_read_offset: the block of a page, or none. */
  function At(pg: Pager, page: nat): Entry
    requires MapOk(pg) && page < pg.size
  {
    match pg.pmap
    case Direct(es) => es[page]
    case Indirect(ms) =>
      SecondLevel(pg.size, page);
      if ms[page / PAGEMAP_ENTRIES].None? then NoBlock else ms[page / PAGEMAP_ENTRIES].value[page % PAGEMAP_ENTRIES]
  }

  predicate HasSecond(pg: Pager, page: nat)
    requires MapOk(pg) && page < pg.size
  {
    pg.pmap.Indirect? ==> (SecondLevel(pg.size, page); pg.pmap.maps[page / PAGEMAP_ENTRIES].Some?)
  }

  /** The store into the map entry of a page whose second-level block exists. */
  function Put(pg: Pager, page: nat, e: Entry): Pager
    requires MapOk(pg) && page < pg.size && HasSecond(pg, page)
  {
    match pg.pmap
    case Direct(es) => pg.(pmap := Direct(es[page := e]))
    case Indirect(ms) =>
      SecondLevel(pg.size, page);
      var i := page / PAGEMAP_ENTRIES;
      pg.(pmap := Indirect(ms[i := Some(ms[i].value[page % PAGEMAP_ENTRIES := e])]))
  }

  /** Storing one entry changes that page and no other. */
  lemma PutAt(pg: Pager, page: nat, e: Entry, q: nat)
    requires MapOk(pg) && page < pg.size && HasSecond(pg, page) && q < pg.size
    ensures MapOk(Put(pg, page, e)) && At(Put(pg, page, e), q) == if q == page then e else At(pg, q)
    ensures HasSecond(pg, q) ==> HasSecond(Put(pg, page, e), q)
  {
    SecondLevel(pg.size, page);
    SecondLevel(pg.size, q);
    assert q / PAGEMAP_ENTRIES == page / PAGEMAP_ENTRIES && q % PAGEMAP_ENTRIES == page % PAGEMAP_ENTRIES ==> q == page;
  }

  /** Supplying an empty second-level block where there is none. */
  function WithSecond(pg: Pager, page: nat): Pager
    requires MapOk(pg) && page < pg.size
  {
    if HasSecond(pg, page) then pg
    else
      SecondLevel(pg.size, page);
      pg.(pmap := Indirect(pg.pmap.maps[page / PAGEMAP_ENTRIES := Some(Empty(PAGEMAP_ENTRIES))]))
  }

  lemma WithSecondAt(pg: Pager, page: nat, q: nat)
    requires MapOk(pg) && page < pg.size && q < pg.size
    ensures MapOk(WithSecond(pg, page)) && HasSecond(WithSecond(pg, page), page)
    ensures At(WithSecond(pg, page), q) == At(pg, q)
  {
    SecondLevel(pg.size, page);
    SecondLevel(pg.size, q);
  }

  // ---------- growing ----------

  /** A fresh map of the given size. */
  function FreshMap(size: nat): PageMap
    requires size > 0
  {
    if size > PAGEMAP_ENTRIES then Indirect(seq(Level1(size), _ => None)) else Direct(Empty(size))
  }

  /** The map after pager_extend, in each of its three cases. */
  function Extended(pg: Pager, newsize: nat): Pager
    requires MapOk(pg) && pg.size <= newsize && SizeOk(newsize)
  {
    if pg.size > PAGEMAP_ENTRIES then
      var more := if Level1(newsize) > |pg.pmap.maps| then Level1(newsize) - |pg.pmap.maps| else 0;
      pg.(pmap := Indirect(pg.pmap.maps + seq(more, _ => None)), size := newsize)
    else if newsize > PAGEMAP_ENTRIES then
      var first := pg.pmap.entries + Empty(PAGEMAP_ENTRIES - pg.size);
      pg.(pmap := Indirect([Some(first)] + seq(Level1(newsize) - 1, _ => None)), size := newsize)
    else
      pg.(pmap := Direct(pg.pmap.entries + Empty(newsize - pg.size)), size := newsize)
  }

  /** Growth changes no binding and adds only empty ones. */
  lemma ExtendedAt(pg: Pager, newsize: nat, q: nat)
    requires MapOk(pg) && pg.size <= newsize && SizeOk(newsize) && q < newsize
    ensures MapOk(Extended(pg, newsize)) && At(Extended(pg, newsize), q) == if q < pg.size then At(pg, q) else NoBlock
  {
    var pg' := Extended(pg, newsize);
    assert Level1(newsize) >= Level1(pg.size);
    SecondLevel(newsize, q);
    if q < pg.size { SecondLevel(pg.size, q); }
    if pg.size > PAGEMAP_ENTRIES && q >= pg.size {
      assert q / PAGEMAP_ENTRIES >= |pg.pmap.maps|;
    }
  }

  lemma FreshAt(size: nat, cur: Option<nat>, q: nat)
    requires SizeOk(size) && q < size
    ensures MapOk(Pager(FreshMap(size), size, cur)) && At(Pager(FreshMap(size), size, cur), q) == NoBlock
  {
    SecondLevel(size, q);
  }

  /** The doubling loop: stops, covers the request, and overshoots by less than a factor of two. */
  method DoubleUp(start: nat, want: nat) returns (i: nat)
    requires SizeOk(start)
    ensures SizeOk(i) && start <= i && want <= i && (i == start || i < 2 * want)
  {
    i := start;
    while i < want
      invariant SizeOk(i) && start <= i && (i == start || i < 2 * want)
      decreases want - i
    {
      i := 2 * i;
    }
  }

  /** The size pager_alloc gives to an object of `size` pages. */
  method InitialSize(size: nat) returns (n: nat)
    ensures SizeOk(n) && size <= n
  {
    if size <= MAX_DOUBLED {
      n := DoubleUp(1, size);
    } else {
      n := RoundUp(size, PAGEMAP_ENTRIES);
    }
  }

  /** pager_extend: grows the object to at least `want` pages. */
  method Extend(pg: Pager, want: nat) returns (pg': Pager)
    requires MapOk(pg) && pg.size < want
    ensures want <= pg'.size && SizeOk(pg'.size) && pg' == Extended(pg, pg'.size)
    ensures want <= MAX_DOUBLED ==> pg'.size < 2 * want
  {
    var n;
    if want <= MAX_DOUBLED {
      n := DoubleUp(pg.size, want);
    } else {
      n := RoundUp(want, PAGEMAP_ENTRIES);
    }
    if pg.size > PAGEMAP_ENTRIES {
      var ms := MoreBlocks(pg.pmap.maps, Level1(n));
      return Pager(Indirect(ms), n, pg.cur);
    }
    var es := MoreEntries(pg.pmap.entries, if n > PAGEMAP_ENTRIES then PAGEMAP_ENTRIES else n);
    if n > PAGEMAP_ENTRIES {
      var ms := MoreBlocks([Some(es)], Level1(n));
      return Pager(Indirect(ms), n, pg.cur);
    }
    return Pager(Direct(es), n, pg.cur);
  }

  /** The copy of a first-level map into a larger one. */
  method MoreBlocks(was: seq<Option<seq<Entry>>>, n: nat) returns (ms: seq<Option<seq<Entry>>>)
    ensures ms == was + seq(if n > |was| then n - |was| else 0, _ => None)
  {
    ms := [];
    var i := 0;
    while i < |was|
      invariant i <= |was| && ms == was[..i]
    {
      ms := ms + [was[i]];
      i := i + 1;
    }
    while i < n
      invariant |was| <= i && (i <= n || i == |was|) && ms == was + seq(i - |was|, _ => None)
    {
      ms := ms + [None];
      i := i + 1;
    }
  }

  /** The copy of a map block into a larger one. */
  method MoreEntries(was: seq<Entry>, n: nat) returns (es: seq<Entry>)
    requires |was| <= n
    ensures es == was + Empty(n - |was|)
  {
    es := [];
    var i := 0;
    while i < |was|
      invariant i <= |was| && es == was[..i]
    {
      es := es + [was[i]];
      i := i + 1;
    }
    while i < n
      invariant |was| <= i <= n && es == was + Empty(i - |was|)
    {
      es := es + [NoBlock];
      i := i + 1;
    }
  }
}
