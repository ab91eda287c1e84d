/**
  The default pager's storage as a value: all partitions and all paging objects. The
  invariant says who owns which block; each elementary change says what it keeps.
*/
module PagerSystem {
  import opened Prelude
  import opened PagerParts
  import opened PagerMap

  datatype Sys = Sys(parts: seq<Option<Partition>>, pagers: map<nat, Pager>)

  predicate HasPart(s: Sys, p: nat) {
    p < |s.parts| && s.parts[p].Some?
  }

  predicate BitSet(s: Sys, p: nat, o: nat) {
    HasPart(s, p) && Bit(s.parts[p].value, o)
  }

  /** The map entry of a page; pages outside an object have none. */
  function EntryOf(s: Sys, pid: nat, page: nat): Entry {
    if pid in s.pagers && MapOk(s.pagers[pid]) && page < s.pagers[pid].size then At(s.pagers[pid], page) else NoBlock
  }

  /** What a page holds, as seen through the maps. */
  function Data(s: Sys, pid: nat, page: nat): Option<Page> {
    match EntryOf(s, pid, page)
    case NoBlock => None
    case Block(p, o) =>
      if HasPart(s, p) && o < |s.parts[p].value.blocks| then Some(s.parts[p].value.blocks[o]) else None
  }

  // ---------- the invariant ----------

  ghost predicate PartAtOk(s: Sys, p: nat) {
    HasPart(s, p) ==> PartOk(s.parts[p].value)
  }

  ghost predicate PagerAtOk(s: Sys, pid: nat) {
    pid in s.pagers ==> MapOk(s.pagers[pid]) && (s.pagers[pid].cur.Some? ==> HasPart(s, s.pagers[pid].cur.value))
  }

  /** A mapped page has a block that is marked and not spare. */
  ghost predicate NameOk(s: Sys, spare: set<(nat, nat)>, pid: nat, page: nat) {
    var e := EntryOf(s, pid, page);
    e.Block? ==> BitSet(s, e.part, e.off) && (e.part, e.off) !in spare
  }

  ghost predicate Sole(s: Sys, pid: nat, page: nat, pid': nat, page': nat) {
    EntryOf(s, pid, page).Block? && EntryOf(s, pid, page) == EntryOf(s, pid', page') ==> pid == pid' && page == page'
  }

  ghost predicate Named(s: Sys, p: nat, o: nat) {
    exists pid, page :: EntryOf(s, pid, page) == Block(p, o)
  }

  /** A marked block is mapped by a page, or is one the operation in progress holds. */
  ghost predicate MarkOk(s: Sys, spare: set<(nat, nat)>, p: nat, o: nat) {
    (BitSet(s, p, o) ==> (p, o) in spare || Named(s, p, o)) && ((p, o) in spare ==> BitSet(s, p, o))
  }

  ghost predicate Inv(s: Sys, spare: set<(nat, nat)>) {
    (forall p :: PartAtOk(s, p)) && (forall pid :: PagerAtOk(s, pid))
    && (forall pid, page :: NameOk(s, spare, pid, page))
    && (forall pid, page, pid', page' :: Sole(s, pid, page, pid', page'))
    && forall p, o :: MarkOk(s, spare, p, o)
  }

  /** The two states agree on what every page is mapped to. */
  ghost predicate SameEntries(s: Sys, s': Sys) {
    forall pid, page :: EntryOf(s', pid, page) == EntryOf(s, pid, page)
  }

  lemma KeepNamed(s: Sys, s': Sys, p: nat, o: nat)
    requires SameEntries(s, s')
    ensures Named(s, p, o) <==> Named(s', p, o)
  {
    if Named(s, p, o) {
      var pid, page :| EntryOf(s, pid, page) == Block(p, o);
      assert EntryOf(s', pid, page) == Block(p, o);
    }
    if Named(s', p, o) {
      var pid, page :| EntryOf(s', pid, page) == Block(p, o);
      assert EntryOf(s, pid, page) == Block(p, o);
    }
  }

  // ---------- blocks ----------

  function WithPart(s: Sys, p: nat, x: Partition): Sys
    requires p < |s.parts|
  {
    s.(parts := s.parts[p := Some(x)])
  }

  lemma TakeInv(s: Sys, spare: set<(nat, nat)>, p: nat, o: nat)
    requires Inv(s, spare) && HasPart(s, p) && o < s.parts[p].value.total && !Bit(s.parts[p].value, o)
    ensures o / NB_BM < |s.parts[p].value.bitmap|
    ensures var s' := WithPart(s, p, Taken(s.parts[p].value, o));
      Inv(s', spare + {(p, o)}) && SameEntries(s, s') && forall pid, page :: Data(s', pid, page) == Data(s, pid, page)
  {
    assert PartAtOk(s, p);
    TakenOk(s.parts[p].value, o);
    var s' := WithPart(s, p, Taken(s.parts[p].value, o));
    forall q ensures PartAtOk(s', q) { assert PartAtOk(s, q); }
    forall pid ensures PagerAtOk(s', pid) { assert PagerAtOk(s, pid); }
    forall pid, page ensures NameOk(s', spare + {(p, o)}, pid, page) { assert NameOk(s, spare, pid, page); }
    forall a, b, c, d ensures Sole(s', a, b, c, d) { assert Sole(s, a, b, c, d); }
    forall q, r ensures MarkOk(s', spare + {(p, o)}, q, r) { assert MarkOk(s, spare, q, r); KeepNamed(s, s', q, r); }
  }

  lemma GiveInv(s: Sys, spare: set<(nat, nat)>, p: nat, o: nat)
    requires Inv(s, spare) && (p, o) in spare
    ensures HasPart(s, p) && o / NB_BM < |s.parts[p].value.bitmap|
    ensures var s' := WithPart(s, p, Given(s.parts[p].value, o));
      Inv(s', spare - {(p, o)}) && SameEntries(s, s') && forall pid, page :: Data(s', pid, page) == Data(s, pid, page)
  {
    assert MarkOk(s, spare, p, o);
    assert PartAtOk(s, p);
    GivenOk(s.parts[p].value, o);
    var s' := WithPart(s, p, Given(s.parts[p].value, o));
    forall q ensures PartAtOk(s', q) { assert PartAtOk(s, q); }
    forall pid ensures PagerAtOk(s', pid) { assert PagerAtOk(s, pid); }
    forall pid, page ensures NameOk(s', spare - {(p, o)}, pid, page) { assert NameOk(s, spare, pid, page); }
    forall a, b, c, d ensures Sole(s', a, b, c, d) { assert Sole(s, a, b, c, d); }
    forall q, r ensures MarkOk(s', spare - {(p, o)}, q, r) { assert MarkOk(s, spare, q, r); KeepNamed(s, s', q, r); }
  }

  function Stored(x: Partition, o: nat, d: Page): Partition
    requires o < |x.blocks|
  {
    x.(blocks := x.blocks[o := d])
  }

  /** Writing a block changes the contents of the one page that owns it, if any. */
  lemma StoreInv(s: Sys, spare: set<(nat, nat)>, p: nat, o: nat, d: Page)
    requires Inv(s, spare) && HasPart(s, p) && o < |s.parts[p].value.blocks| && |d| == PAGE_SIZE
    ensures var s' := WithPart(s, p, Stored(s.parts[p].value, o, d));
      Inv(s', spare) && SameEntries(s, s')
      && forall pid, page :: Data(s', pid, page)
           == if EntryOf(s, pid, page) == Block(p, o) then Some(d) else Data(s, pid, page)
  {
    var x := s.parts[p].value;
    var s' := WithPart(s, p, Stored(x, o, d));
    assert forall q: nat :: Bit(Stored(x, o, d), q) == Bit(x, q);
    assert Used(Stored(x, o, d)) == Used(x);
    forall q ensures PartAtOk(s', q) { assert PartAtOk(s, q); }
    forall pid ensures PagerAtOk(s', pid) { assert PagerAtOk(s, pid); }
    forall pid, page ensures NameOk(s', spare, pid, page) { assert NameOk(s, spare, pid, page); }
    forall a, b, c, e ensures Sole(s', a, b, c, e) { assert Sole(s, a, b, c, e); }
    forall q, r ensures MarkOk(s', spare, q, r) { assert MarkOk(s, spare, q, r); KeepNamed(s, s', q, r); }
  }

  // ---------- maps ----------

  function WithPager(s: Sys, pid: nat, pg: Pager): Sys {
    s.(pagers := s.pagers[pid := pg])
  }

  /** A pager may be replaced by one with the same bindings and any valid current partition. */
  lemma ReshapeInv(s: Sys, spare: set<(nat, nat)>, pid: nat, pg: Pager)
    requires Inv(s, spare) && MapOk(pg) && (pg.cur.Some? ==> HasPart(s, pg.cur.value))
    requires forall page: nat :: page < pg.size ==> At(pg, page) == EntryOf(s, pid, page)
    requires pid in s.pagers ==> s.pagers[pid].size <= pg.size
    ensures Inv(WithPager(s, pid, pg), spare) && SameEntries(s, WithPager(s, pid, pg))
    ensures forall c, page :: Data(WithPager(s, pid, pg), c, page) == Data(s, c, page)
  {
    var s' := WithPager(s, pid, pg);
    forall c, page ensures EntryOf(s', c, page) == EntryOf(s, c, page) {}
    forall q ensures PartAtOk(s', q) { assert PartAtOk(s, q); }
    forall c ensures PagerAtOk(s', c) { assert PagerAtOk(s, c); }
    forall c, page ensures NameOk(s', spare, c, page) { assert NameOk(s, spare, c, page); }
    forall a, b, c, e ensures Sole(s', a, b, c, e) { assert Sole(s, a, b, c, e); }
    forall q, r ensures MarkOk(s', spare, q, r) { assert MarkOk(s, spare, q, r); KeepNamed(s, s', q, r); }
  }

  ghost predicate CanPut(s: Sys, pid: nat, page: nat) {
    pid in s.pagers && MapOk(s.pagers[pid]) && page < s.pagers[pid].size && HasSecond(s.pagers[pid], page)
  }

  lemma PutEntry(s: Sys, pid: nat, page: nat, e: Entry, c: nat, q: nat)
    requires CanPut(s, pid, page)
    ensures var s' := WithPager(s, pid, Put(s.pagers[pid], page, e));
      EntryOf(s', c, q) == if c == pid && q == page then e else EntryOf(s, c, q)
  {
    PutAt(s.pagers[pid], page, e, if q < s.pagers[pid].size then q else page);
  }

  /** A spare block becomes the block of a page that had none. */
  lemma BindInv(s: Sys, spare: set<(nat, nat)>, pid: nat, page: nat, p: nat, o: nat)
    requires Inv(s, spare) && CanPut(s, pid, page) && EntryOf(s, pid, page).NoBlock? && (p, o) in spare
    ensures Inv(WithPager(s, pid, Put(s.pagers[pid], page, Block(p, o))), spare - {(p, o)})
  {
    var s' := WithPager(s, pid, Put(s.pagers[pid], page, Block(p, o)));
    var left := spare - {(p, o)};
    PutAt(s.pagers[pid], page, Block(p, o), page);
    assert MarkOk(s, spare, p, o);
    forall c, q ensures EntryOf(s', c, q) == if c == pid && q == page then Block(p, o) else EntryOf(s, c, q) {
      PutEntry(s, pid, page, Block(p, o), c, q);
    }
    forall q ensures PartAtOk(s', q) { assert PartAtOk(s, q); }
    forall c ensures PagerAtOk(s', c) { assert PagerAtOk(s, c); }
    forall c, q ensures NameOk(s', left, c, q) { assert NameOk(s, spare, c, q); }
    forall a, b, c, e ensures Sole(s', a, b, c, e) {
      assert Sole(s, a, b, c, e) && NameOk(s, spare, a, b) && NameOk(s, spare, c, e);
    }
    forall q, r ensures MarkOk(s', left, q, r) { BindMark(s, spare, s', pid, page, p, o, q, r); }
  }

  lemma BindMark(s: Sys, spare: set<(nat, nat)>, s': Sys, pid: nat, page: nat, p: nat, o: nat, q: nat, r: nat)
    requires s'.parts == s.parts && MarkOk(s, spare, q, r) && EntryOf(s, pid, page).NoBlock?
    requires forall c, i :: EntryOf(s', c, i) == if c == pid && i == page then Block(p, o) else EntryOf(s, c, i)
    ensures MarkOk(s', spare - {(p, o)}, q, r)
  {
    if q == p && r == o {
      assert EntryOf(s', pid, page) == Block(q, r);
    } else if Named(s, q, r) {
      var c, i :| EntryOf(s, c, i) == Block(q, r);
      assert EntryOf(s', c, i) == Block(q, r);
    }
  }

  /** The block of a page becomes spare when its map entry is invalidated. */
  lemma UnbindInv(s: Sys, spare: set<(nat, nat)>, pid: nat, page: nat)
    requires Inv(s, spare) && CanPut(s, pid, page) && EntryOf(s, pid, page).Block?
    ensures var e := EntryOf(s, pid, page);
      Inv(WithPager(s, pid, Put(s.pagers[pid], page, NoBlock)), spare + {(e.part, e.off)})
  {
    var e := EntryOf(s, pid, page);
    var s' := WithPager(s, pid, Put(s.pagers[pid], page, NoBlock));
    var more := spare + {(e.part, e.off)};
    PutAt(s.pagers[pid], page, NoBlock, page);
    assert NameOk(s, spare, pid, page);
    forall c, q ensures EntryOf(s', c, q) == if c == pid && q == page then NoBlock else EntryOf(s, c, q) {
      PutEntry(s, pid, page, NoBlock, c, q);
    }
    forall q ensures PartAtOk(s', q) { assert PartAtOk(s, q); }
    forall c ensures PagerAtOk(s', c) { assert PagerAtOk(s, c); }
    forall c, q ensures NameOk(s', more, c, q) { assert NameOk(s, spare, c, q) && Sole(s, pid, page, c, q); }
    forall a, b, c, f ensures Sole(s', a, b, c, f) { assert Sole(s, a, b, c, f); }
    forall q, r ensures MarkOk(s', more, q, r) { UnbindMark(s, spare, s', pid, page, q, r); }
  }

  lemma UnbindMark(s: Sys, spare: set<(nat, nat)>, s': Sys, pid: nat, page: nat, q: nat, r: nat)
    requires s'.parts == s.parts && MarkOk(s, spare, q, r) && NameOk(s, spare, pid, page)
    requires EntryOf(s, pid, page).Block?
    requires forall c, i :: EntryOf(s', c, i) == if c == pid && i == page then NoBlock else EntryOf(s, c, i)
    ensures var e := EntryOf(s, pid, page);
      MarkOk(s', spare + {(e.part, e.off)}, q, r)
  {
    var e := EntryOf(s, pid, page);
    if (q, r) != (e.part, e.off) && Named(s, q, r) {
      var c, i :| EntryOf(s, c, i) == Block(q, r);
      assert EntryOf(s', c, i) == Block(q, r);
    }
  }

  /** What an entry change does to the contents seen through the maps. */
  lemma PutData(s: Sys, pid: nat, page: nat, e: Entry, c: nat, q: nat)
    requires CanPut(s, pid, page)
    ensures var s' := WithPager(s, pid, Put(s.pagers[pid], page, e));
      (c != pid || q != page ==> Data(s', c, q) == Data(s, c, q))
      && (e.NoBlock? ==> Data(s', pid, page).None?)
      && (e.Block? && HasPart(s, e.part) && e.off < |s.parts[e.part].value.blocks| ==>
            Data(s', pid, page) == Some(s.parts[e.part].value.blocks[e.off]))
  {
    PutEntry(s, pid, page, e, c, q);
    PutEntry(s, pid, page, e, pid, page);
  }

  // ---------- moving a page to another partition ----------

  /** The block part of pager_move_page: `d` is written to (np, no), and (p, o) is released. */
  function PartsMoved(s: Sys, p: nat, o: nat, np: nat, no: nat, d: Page): Sys
    requires HasPart(s, p) && HasPart(s, np) && p != np
    requires o < |s.parts[p].value.blocks| && no < |s.parts[np].value.blocks|
    requires o / NB_BM < |s.parts[p].value.bitmap| && no / NB_BM < |s.parts[np].value.bitmap|
  {
    var s1 := WithPart(s, np, Taken(s.parts[np].value, no));
    var s2 := WithPart(s1, p, Given(s.parts[p].value, o));
    WithPart(s2, np, Stored(s1.parts[np].value, no, d))
  }

  lemma PutTwice(pg: Pager, page: nat, e: Entry)
    requires MapOk(pg) && page < pg.size && HasSecond(pg, page)
    ensures MapOk(Put(pg, page, NoBlock)) && HasSecond(Put(pg, page, NoBlock), page)
    ensures Put(Put(pg, page, NoBlock), page, e) == Put(pg, page, e)
  {
    PutAt(pg, page, NoBlock, page);
    if pg.pmap.Indirect? {
      SecondLevel(pg.size, page);
      var i, j, ms := page / PAGEMAP_ENTRIES, page % PAGEMAP_ENTRIES, pg.pmap.maps;
      assert ms[i].value[j := NoBlock][j := e] == ms[i].value[j := e];
      assert ms[i := Some(ms[i].value[j := NoBlock])][i := Some(ms[i].value[j := e])]
          == ms[i := Some(ms[i].value[j := e])];
    } else {
      assert pg.pmap.entries[page := NoBlock][page := e] == pg.pmap.entries[page := e];
    }
  }

  lemma BlockInRange(s: Sys, spare: set<(nat, nat)>, p: nat, o: nat)
    requires Inv(s, spare) && BitSet(s, p, o)
    ensures o < |s.parts[p].value.blocks| && o / NB_BM < |s.parts[p].value.bitmap|
    ensures |s.parts[p].value.blocks[o]| == PAGE_SIZE
  {
    assert PartAtOk(s, p);
  }

  /** The first half of a move: a block is taken and filled, and no page notices. */
  lemma CopyInv(s: Sys, np: nat, no: nat, d: Page)
    requires Inv(s, {}) && HasPart(s, np) && no < s.parts[np].value.total && !Bit(s.parts[np].value, no)
    requires |d| == PAGE_SIZE
    ensures no < |s.parts[np].value.blocks| && no / NB_BM < |s.parts[np].value.bitmap|
    ensures var s2 := WithPart(s, np, Stored(Taken(s.parts[np].value, no), no, d));
      Inv(s2, {(np, no)}) && SameEntries(s, s2) && forall c, q :: Data(s2, c, q) == Data(s, c, q)
  {
    assert PartAtOk(s, np);
    TakeInv(s, {}, np, no);
    assert {} + {(np, no)} == {(np, no)};
    var s1 := WithPart(s, np, Taken(s.parts[np].value, no));
    StoreInv(s1, {(np, no)}, np, no, d);
    SpareUnnamed(s1, {(np, no)}, np, no);
    var s2 := WithPart(s, np, Stored(Taken(s.parts[np].value, no), no, d));
    assert s2 == WithPart(s1, np, Stored(s1.parts[np].value, no, d));
  }

  /** The second half: the old block is released and the page re-pointed at the copy. */
  lemma RepointInv(s: Sys, pid: nat, page: nat, np: nat, no: nat)
    requires Inv(s, {(np, no)}) && CanPut(s, pid, page) && EntryOf(s, pid, page).Block?
    requires HasPart(s, np) && no < |s.parts[np].value.blocks|
    ensures var e := EntryOf(s, pid, page);
      HasPart(s, e.part) && e.off / NB_BM < |s.parts[e.part].value.bitmap|
      && var s1 := WithPart(s, e.part, Given(s.parts[e.part].value, e.off));
         var s' := WithPager(s1, pid, Put(s.pagers[pid], page, Block(np, no)));
         Inv(s', {})
         && forall c, q :: Data(s', c, q)
              == if c == pid && q == page then Some(s.parts[np].value.blocks[no]) else Data(s, c, q)
  {
    var e := EntryOf(s, pid, page);
    var p, o := e.part, e.off;
    UnbindInv(s, {(np, no)}, pid, page);
    var s3 := WithPager(s, pid, Put(s.pagers[pid], page, NoBlock));
    GiveInv(s3, {(np, no)} + {(p, o)}, p, o);
    var s4 := WithPart(s3, p, Given(s3.parts[p].value, o));
    PutTwice(s.pagers[pid], page, Block(np, no));
    PutEntry(s, pid, page, NoBlock, pid, page);
    assert NameOk(s, {(np, no)}, pid, page);
    BindInv(s4, {(np, no)} + {(p, o)} - {(p, o)}, pid, page, np, no);
    assert {(np, no)} + {(p, o)} - {(p, o)} - {(np, no)} == {};
    var s' := WithPager(WithPart(s, p, Given(s.parts[p].value, o)), pid, Put(s.pagers[pid], page, Block(np, no)));
    assert s'.pagers == s4.pagers[pid := Put(s4.pagers[pid], page, Block(np, no))];
    forall c, q
      ensures Data(s', c, q)
           == if c == pid && q == page then Some(s.parts[np].value.blocks[no]) else Data(s, c, q)
    {
      PutData(s, pid, page, NoBlock, c, q);
      PutData(s4, pid, page, Block(np, no), c, q);
    }
  }

  /** A block just taken is filled and the page re-pointed at it: the page holds the block, all others are as before. */
  lemma MoveInv(s: Sys, pid: nat, page: nat, np: nat, no: nat, d: Page)
    requires Inv(s, {}) && CanPut(s, pid, page) && EntryOf(s, pid, page).Block? && EntryOf(s, pid, page).part != np
    requires HasPart(s, np) && no < s.parts[np].value.total && !Bit(s.parts[np].value, no) && |d| == PAGE_SIZE
    ensures var e := EntryOf(s, pid, page);
      HasPart(s, e.part) && e.off < |s.parts[e.part].value.blocks| && no < |s.parts[np].value.blocks|
      && e.off / NB_BM < |s.parts[e.part].value.bitmap| && no / NB_BM < |s.parts[np].value.bitmap|
      && var s' := WithPager(PartsMoved(s, e.part, e.off, np, no, d), pid, Put(s.pagers[pid], page, Block(np, no)));
         Inv(s', {}) && forall c, q :: Data(s', c, q) == if c == pid && q == page then Some(d) else Data(s, c, q)
  {
    var e := EntryOf(s, pid, page);
    assert NameOk(s, {}, pid, page);
    BlockInRange(s, {}, e.part, e.off);
    CopyInv(s, np, no, d);
    var s2 := WithPart(s, np, Stored(Taken(s.parts[np].value, no), no, d));
    assert EntryOf(s2, pid, page) == e;
    RepointInv(s2, pid, page, np, no);
    assert WithPart(s2, e.part, Given(s.parts[e.part].value, e.off)).parts
        == PartsMoved(s, e.part, e.off, np, no, d).parts;
  }

  lemma SpareUnnamed(s: Sys, spare: set<(nat, nat)>, p: nat, o: nat)
    requires Inv(s, spare) && (p, o) in spare
    ensures forall c, q :: EntryOf(s, c, q) != Block(p, o)
  {
    forall c, q ensures EntryOf(s, c, q) != Block(p, o) { assert NameOk(s, spare, c, q); }
  }

  // ---------- partitions and objects coming and going ----------

  /** Changes that leave every entry, every bit and every partition in place keep the invariant. */
  lemma FrameInv(s: Sys, s': Sys, spare: set<(nat, nat)>)
    requires Inv(s, spare) && SameEntries(s, s')
    requires forall p :: PartAtOk(s', p)
    requires forall pid :: PagerAtOk(s', pid)
    requires forall p, o :: BitSet(s', p, o) <==> BitSet(s, p, o)
    ensures Inv(s', spare)
  {
    forall c, q ensures NameOk(s', spare, c, q) { assert NameOk(s, spare, c, q); }
    forall a, b, c, e ensures Sole(s', a, b, c, e) { assert Sole(s, a, b, c, e); }
    forall q, r ensures MarkOk(s', spare, q, r) { assert MarkOk(s, spare, q, r); KeepNamed(s, s', q, r); }
  }

  lemma SetAwayInv(s: Sys, p: nat, away: bool)
    requires Inv(s, {}) && HasPart(s, p)
    ensures var s' := WithPart(s, p, s.parts[p].value.(goingAway := away));
      Inv(s', {}) && forall c, q :: Data(s', c, q) == Data(s, c, q)
  {
    var x := s.parts[p].value;
    var y := x.(goingAway := away);
    var s' := WithPart(s, p, y);
    assert forall o: nat :: Bit(y, o) == Bit(x, o);
    assert Used(y) == Used(x);
    forall q ensures PartAtOk(s', q) { assert PartAtOk(s, q); }
    forall c ensures PagerAtOk(s', c) { assert PagerAtOk(s, c); }
    FrameInv(s, s', {});
  }

  function NoWords(n: nat): seq<Word> {
    seq(n, _ => seq(NB_BM, _ => false))
  }

  function NewPartition(total: nat, id: nat, blocks: seq<Page>): Partition {
    Partition(total, total, id, NoWords(HowMany(total, NB_BM)), false, blocks)
  }

  lemma NewPartitionOk(total: nat, id: nat, blocks: seq<Page>)
    requires |blocks| == total && forall o :: 0 <= o < total ==> |blocks[o]| == PAGE_SIZE
    ensures PartOk(NewPartition(total, id, blocks)) && forall o: nat :: !Bit(NewPartition(total, id, blocks), o)
  {
    var x := NewPartition(total, id, blocks);
    assert forall o: nat :: !Bit(x, o);
    assert Used(x) == {};
  }

  /** Placing a new partition into a slot that was empty or did not exist. */
  lemma NewPartInv(s: Sys, s': Sys, p: nat)
    requires Inv(s, {}) && s'.pagers == s.pagers && HasPart(s', p) && !HasPart(s, p)
    requires PartOk(s'.parts[p].value) && forall o: nat :: !Bit(s'.parts[p].value, o)
    requires forall q: nat :: q != p ==>
      HasPart(s', q) == HasPart(s, q) && (HasPart(s, q) ==> s'.parts[q] == s.parts[q])
    ensures Inv(s', {}) && forall c, q :: Data(s', c, q) == Data(s, c, q)
  {
    forall q ensures PartAtOk(s', q) { assert PartAtOk(s, q); }
    forall c ensures PagerAtOk(s', c) { assert PagerAtOk(s, c); }
    FrameInv(s, s', {});
    forall c, q ensures Data(s', c, q) == Data(s, c, q) { assert NameOk(s, {}, c, q); }
  }

  /** Nobody's map and nobody's current partition refers to `p`. */
  ghost predicate Abandons(s: Sys, pid: nat, p: nat) {
    pid in s.pagers ==>
      s.pagers[pid].cur != Some(p) && forall q: nat :: EntryOf(s, pid, q).Block? ==> EntryOf(s, pid, q).part != p
  }

  /** An abandoned partition has an empty bitmap and can go without loss. */
  lemma DropPartInv(s: Sys, p: nat)
    requires Inv(s, {}) && HasPart(s, p) && forall pid :: Abandons(s, pid, p)
    ensures forall o: nat :: !Bit(s.parts[p].value, o)
    ensures var s' := s.(parts := s.parts[p := None]);
      Inv(s', {}) && forall c, q :: Data(s', c, q) == Data(s, c, q)
  {
    forall o: nat ensures !Bit(s.parts[p].value, o) {
      assert MarkOk(s, {}, p, o);
      forall c, q ensures EntryOf(s, c, q) != Block(p, o) { assert Abandons(s, c, p); }
    }
    var s' := s.(parts := s.parts[p := None]);
    forall q ensures PartAtOk(s', q) { assert PartAtOk(s, q); }
    forall c ensures PagerAtOk(s', c) { assert PagerAtOk(s, c) && Abandons(s, c, p); }
    forall c, q ensures EntryOf(s', c, q) == EntryOf(s, c, q) {}
    FrameInv(s, s', {});
    forall c, q ensures Data(s', c, q) == Data(s, c, q) { assert Abandons(s, c, p); }
  }

  /** An object without blocks can be forgotten. */
  lemma DropPagerInv(s: Sys, pid: nat)
    requires Inv(s, {}) && forall q: nat :: EntryOf(s, pid, q).NoBlock?
    ensures var s' := s.(pagers := s.pagers - {pid});
      Inv(s', {}) && forall c, q :: Data(s', c, q) == Data(s, c, q)
  {
    var s' := s.(pagers := s.pagers - {pid});
    forall c, q ensures EntryOf(s', c, q) == EntryOf(s, c, q) {}
    forall q ensures PartAtOk(s', q) { assert PartAtOk(s, q); }
    forall c ensures PagerAtOk(s', c) { assert PagerAtOk(s, c); }
    FrameInv(s, s', {});
  }
}
