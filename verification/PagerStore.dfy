/**
  The default pager's storage operations, in place: choosing partitions, allocating and
  releasing blocks, reading and writing pages through the maps, and moving everything
  off a partition that is being removed.
*/
module PagerStore {
  import opened Prelude
  import opened PagerParts
  import opened PagerMap
  import opened PagerSystem

  /** How a device answers one transfer request; it always makes some progress or fails. */
  datatype Xfer = Fail | Moved(n: nat)

  /** A device's answers to successive requests. */
  type Device = nat -> Xfer

  /** How an attempt to remove a partition ends. */
  datatype Removal = Unknown | Removed(p: nat) | Full(p: nat) | Died(p: nat)

  /** How moving pages off a partition ends: all moved, no room for more, or a panic. */
  datatype Progress = Finished | NoRoom | Crashed

  /** How a read or write ends; a panic is the pager's own. */
  datatype Rc = Success | Absent | Error | Panic

  // ---------- the packed form of a map entry ----------

  const NO_INDEX := 0xff
  const OFFSETS := 0x100_0000

  /** A map entry is one word: eight bits of partition index over 24 bits of block number; all ones means none. */
  function Pack(e: Entry): nat {
    match e
    case NoBlock => NO_INDEX * OFFSETS + (OFFSETS - 1)
    case Block(p, o) => p % (NO_INDEX + 1) * OFFSETS + o % OFFSETS
  }

  function Unpack(w: nat): Entry {
    if w == NO_INDEX * OFFSETS + (OFFSETS - 1) then NoBlock else Block(w / OFFSETS, w % OFFSETS)
  }

  /** Exactly the entries that survive being stored in a word. */
  lemma PackExact(e: Entry)
    ensures Unpack(Pack(e)) == e <==>
      (e.Block? ==> e.part <= NO_INDEX && e.off < OFFSETS && !(e.part == NO_INDEX && e.off == OFFSETS - 1))
  {
    if e.Block? {
      var p, o := e.part % (NO_INDEX + 1), e.off % OFFSETS;
      assert (p * OFFSETS + o) / OFFSETS == p && (p * OFFSETS + o) % OFFSETS == o;
    }
  }

  /** Partitions whose blocks can all be named by a packed entry. */
  predicate FitsAt(parts: seq<Option<Partition>>, p: nat) {
    p < |parts| && parts[p].Some? ==> p < NO_INDEX && parts[p].value.total <= OFFSETS
  }

  predicate Fits(parts: seq<Option<Partition>>) {
    forall p :: 0 <= p < |parts| ==> FitsAt(parts, p)
  }

  lemma FitsPart(parts: seq<Option<Partition>>, p: nat, x: Option<Partition>)
    requires Fits(parts) && p < |parts| && (x.Some? ==> parts[p].Some? && x.value.total == parts[p].value.total)
    ensures Fits(parts[p := x])
  {
    var list := parts[p := x];
    forall q: nat | q < |list| ensures FitsAt(list, q) { assert FitsAt(parts, q); }
  }

  /** So no map entry in use loses bits or reads as "none". */
  lemma EntriesSurvive(s: Sys, pid: nat, page: nat)
    requires Inv(s, {}) && Fits(s.parts)
    ensures Unpack(Pack(EntryOf(s, pid, page))) == EntryOf(s, pid, page)
  {
    var e := EntryOf(s, pid, page);
    PackExact(e);
    assert NameOk(s, {}, pid, page);
    if e.Block? { assert PartAtOk(s, e.part) && FitsAt(s.parts, e.part); }
  }

  /** There is a slot a byte can name. */
  predicate Vacant(parts: seq<Option<Partition>>) {
    |parts| < NO_INDEX || exists j :: 0 <= j < NO_INDEX && parts[j].None?
  }

  /** The rule of choose_partition. */
  predicate Suits(parts: seq<Option<Partition>>, i: nat, bytes: nat, avoid: Option<nat>) {
    i < |parts| && parts[i].Some? && avoid != Some(i) && !parts[i].value.goingAway
    && parts[i].value.free * PAGE_SIZE >= bytes
  }

  /** Nothing but page (pid, page) looks different. */
  ghost predicate OthersKept(s: Sys, s': Sys, pid: nat, page: nat) {
    forall c, q :: c != pid || q != page ==> Data(s', c, q) == Data(s, c, q) && EntryOf(s', c, q) == EntryOf(s, c, q)
  }

  /** No object goes away or shrinks. */
  ghost predicate SizesKept(s: Sys, s': Sys) {
    forall c :: c in s.pagers ==> c in s'.pagers && s.pagers[c].size <= s'.pagers[c].size
  }

  ghost predicate AllKept(s: Sys, s': Sys) {
    forall c, q :: Data(s', c, q) == Data(s, c, q)
  }

  /** A transfer that succeeds moves at least a byte. */
  ghost predicate Answers(dev: Device) {
    forall i :: dev(i).Moved? ==> dev(i).n > 0
  }

  ghost predicate Fails(dev: Device) {
    exists i :: dev(i).Fail?
  }

  /** One of the transfers from `a` up to `b` fails. */
  ghost predicate FailsIn(dev: Device, a: nat, b: nat) {
    exists i :: a <= i < b && dev(i).Fail?
  }

  predicate IsWhole(x: Xfer) {
    x.Moved? && x.n >= PAGE_SIZE
  }

  /** The transfers from `a` up to `b` all move whole pages. */
  ghost predicate WholeIn(dev: Device, a: nat, b: nat) {
    forall i :: a <= i < b ==> IsWhole(dev(i))
  }

  /** What a block holds after a page was read from one and written over the other in one transfer each. */
  function Carried(from: Page, onto: Page, rd: Xfer, wr: Xfer): (d: Page)
    requires rd.Moved? && wr.Moved? && |from| == |onto| == PAGE_SIZE
    ensures |d| == PAGE_SIZE && (IsWhole(rd) && IsWhole(wr) ==> d == from)
  {
    var k := CarriedBytes(rd, wr);
    from[..k] + onto[k..]
  }

  function CarriedBytes(rd: Xfer, wr: Xfer): (k: nat)
    requires rd.Moved? && wr.Moved?
    ensures k <= PAGE_SIZE
  {
    var size := if rd.n < PAGE_SIZE then rd.n else PAGE_SIZE;
    if wr.n < size then wr.n else size
  }

  /** A page survives being carried exactly if the bytes that did not arrive were there already. */
  lemma CarriedExact(from: Page, onto: Page, rd: Xfer, wr: Xfer)
    requires rd.Moved? && wr.Moved? && |from| == |onto| == PAGE_SIZE
    ensures Carried(from, onto, rd, wr) == from <==>
      var k := CarriedBytes(rd, wr);
      from[k..] == onto[k..]
  {
    var k := CarriedBytes(rd, wr);
    assert from == from[..k] + from[k..];
    assert Carried(from, onto, rd, wr)[k..] == onto[k..];
  }

  /** A page of ones, read one byte short onto a block of zeros, has lost its last byte. */
  lemma ShortReadLoses()
    ensures var from, onto := seq(PAGE_SIZE, _ => 1 as byte), seq(PAGE_SIZE, _ => 0 as byte);
      Carried(from, onto, Moved(PAGE_SIZE - 1), Moved(PAGE_SIZE)) != from
  {
    var from, onto := seq(PAGE_SIZE, _ => 1 as byte), seq(PAGE_SIZE, _ => 0 as byte);
    assert Carried(from, onto, Moved(PAGE_SIZE - 1), Moved(PAGE_SIZE))[PAGE_SIZE - 1] == 0;
  }

  /** A page while others are moved off partition `p`: it keeps its contents if it was elsewhere or all came whole. */
  ghost predicate RelocatedAt(s: Sys, s': Sys, p: nat, whole: bool, pid: nat, page: nat) {
    (Data(s', pid, page).Some? <==> Data(s, pid, page).Some?)
    && (Off(s, pid, page, p) ==> EntryOf(s', pid, page) == EntryOf(s, pid, page))
    && (whole || Off(s, pid, page, p) ==> Data(s', pid, page) == Data(s, pid, page))
  }

  ghost predicate Relocated(s: Sys, s': Sys, p: nat, whole: bool) {
    forall pid, page :: RelocatedAt(s, s', p, whole, pid, page)
  }

  lemma RelocatedTrans(s: Sys, m: Sys, s': Sys, p: nat, dev: Device, a: nat, b: nat, c: nat)
    requires a <= b <= c && Relocated(s, m, p, WholeIn(dev, a, b)) && Relocated(m, s', p, WholeIn(dev, b, c))
    ensures Relocated(s, s', p, WholeIn(dev, a, c))
  {
    forall pid, page ensures RelocatedAt(s, s', p, WholeIn(dev, a, c), pid, page) {
      assert RelocatedAt(s, m, p, WholeIn(dev, a, b), pid, page);
      assert RelocatedAt(m, s', p, WholeIn(dev, b, c), pid, page);
    }
  }

  lemma WholeKept(s: Sys, s': Sys, p: nat)
    requires Relocated(s, s', p, true)
    ensures AllKept(s, s')
  {
    forall c, q ensures Data(s', c, q) == Data(s, c, q) { assert RelocatedAt(s, s', p, true, c, q); }
  }

  /** The first `k` bytes of the page are new and the rest is as it was. */
  ghost predicate Torn(was: Option<Page>, now: Option<Page>, data: Page, k: nat) {
    was.Some? && now.Some? && k <= |data| && k <= |was.value| && now.value == data[..k] + was.value[k..]
  }

  /** The page is not on partition `p`. */
  predicate Off(s: Sys, pid: nat, page: nat, p: nat) {
    EntryOf(s, pid, page).Block? ==> EntryOf(s, pid, page).part != p
  }

  /** The same slots are in use, and the same partitions are on their way out. */
  ghost predicate SameSlots(s: Sys, s': Sys) {
    |s'.parts| == |s.parts| && forall p :: 0 <= p < |s.parts| ==> SameSlot(s, s', p)
  }

  ghost predicate SameSlot(s: Sys, s': Sys, p: nat) {
    HasPart(s', p) == HasPart(s, p) && (HasPart(s, p) ==> s'.parts[p].value.goingAway == s.parts[p].value.goingAway)
  }

  /** Every partition is full or on its way out. */
  ghost predicate NoSpace(parts: seq<Option<Partition>>) {
    forall i :: 0 <= i < |parts| ==> !Suits(parts, i, PAGE_SIZE, None)
  }

  class DefaultPager {
    var parts: seq<Option<Partition>>
    var pagers: map<nat, Pager>

    function S(): Sys
      reads this
    {
      Sys(parts, pagers)
    }

    ghost predicate Valid()
      reads this
    {
      Inv(S(), {}) && Fits(parts)
    }

    constructor ()
      ensures Valid() && parts == [] && pagers == map[]
    {
      parts, pagers := [], map[];
    }

    // ---------- partitions ----------

    /** choose_partition: the first partition that suits. */
    method ChoosePartition(bytes: nat, avoid: Option<nat>) returns (r: Option<nat>)
      ensures r.Some? ==>
        Suits(parts, r.value, bytes, avoid) && forall j :: 0 <= j < r.value ==> !Suits(parts, j, bytes, avoid)
      ensures r.None? ==> forall j :: 0 <= j < |parts| ==> !Suits(parts, j, bytes, avoid)
    {
      var i := 0;
      while i < |parts|
        invariant i <= |parts| && forall j :: 0 <= j < i ==> !Suits(parts, j, bytes, avoid)
      {
        if avoid != Some(i) && parts[i].Some? && !parts[i].value.goingAway && parts[i].value.free * PAGE_SIZE >= bytes {
          return Some(i);
        }
        i := i + 1;
      }
      return None;
    }

    /** pager_alloc_page: the lowest free block of a usable partition. */
    method AllocPage(pindex: Option<nat>) returns (r: Option<nat>)
      requires Valid() && (pindex.Some? ==> pindex.value < |parts|)
      modifies this`parts
      ensures Fits(parts) && (r.None? ==> parts == old(parts))
      ensures r.Some? <==> pindex.Some? && Suits(old(parts), pindex.value, PAGE_SIZE, None)
      ensures r.Some? ==>
        pindex.Some? && HasPart(old(S()), pindex.value) && r.value < old(parts)[pindex.value].value.total
      ensures r.Some? ==> var x := old(parts)[pindex.value].value;
        !Bit(x, r.value) && (forall q :: 0 <= q < r.value ==> Bit(x, q)) && r.value / NB_BM < |x.bitmap|
        && S() == WithPart(old(S()), pindex.value, Taken(x, r.value))
    {
      if pindex.None? { return None; }
      var p := pindex.value;
      if parts[p].None? || parts[p].value.goingAway { return None; }
      if parts[p].value.free == 0 { return None; }
      assert PartAtOk(S(), p);
      UsedBound(parts[p].value);
      var o := FindClear(parts[p].value);
      TakenOk(parts[p].value, o);
      FitsPart(parts, p, Some(Taken(parts[p].value, o)));
      parts := parts[p := Some(Taken(parts[p].value, o))];
      return Some(o);
    }

    /** pager_dealloc_page */
    method DeallocPage(p: nat, o: nat)
      requires HasPart(S(), p) && o < parts[p].value.total && o / NB_BM < |parts[p].value.bitmap| && Fits(parts)
      modifies this`parts
      ensures Fits(parts)
      ensures S() == WithPart(old(S()), p, Given(old(parts)[p].value, o))
    {
      FitsPart(parts, p, Some(Given(parts[p].value, o)));
      parts := parts[p := Some(Given(parts[p].value, o))];
    }

    // ---------- the map of one object ----------

    /** Replace an object's map by one with the same bindings. */
    method Reshape(pid: nat, pg: Pager)
      requires Valid() && pid in pagers && MapOk(pg) && pagers[pid].size <= pg.size
      requires pg.cur.Some? ==> HasPart(S(), pg.cur.value)
      requires forall page: nat :: page < pg.size ==> At(pg, page) == EntryOf(S(), pid, page)
      modifies this`pagers
      ensures Valid() && pagers == old(pagers)[pid := pg] && SameEntries(old(S()), S()) && AllKept(old(S()), S())
    {
      ReshapeInv(S(), {}, pid, pg);
      pagers := pagers[pid := pg];
    }

    /** An object that found no partition when it was created gets another chance. */
    method PickPartition(pid: nat, page: nat) returns (ok: bool)
      requires Valid() && pid in pagers
      modifies this`pagers
      ensures Valid() && pid in pagers && SameEntries(old(S()), S()) && AllKept(old(S()), S())
      ensures ok == pagers[pid].cur.Some? && SizesKept(old(S()), S())
      ensures !ok <==> old(pagers)[pid].cur.None? && NoSpace(parts)
    {
      assert PagerAtOk(S(), pid);
      var pg := pagers[pid];
      if pg.cur.Some? { return true; }
      var size := if page > pg.size then page else pg.size;
      var newPart := ChoosePartition(size * PAGE_SIZE, None);
      if newPart.None? { newPart := ChoosePartition(PAGE_SIZE, None); }
      if newPart.None? { return false; }
      assert Suits(parts, newPart.value, PAGE_SIZE, None);
      SameAt(pg, newPart);
      Reshape(pid, pg.(cur := newPart));
      return true;
    }

    /** Extend the object and supply the second-level block, so that the page's entry exists. */
    method MakeRoom(pid: nat, page: nat)
      requires Valid() && pid in pagers
      modifies this`pagers
      ensures Valid() && CanPut(S(), pid, page) && pagers[pid].cur == old(pagers)[pid].cur && SizesKept(old(S()), S())
      ensures SameEntries(old(S()), S()) && AllKept(old(S()), S())
    {
      assert PagerAtOk(S(), pid);
      if page >= pagers[pid].size { GrowObject(pid, page); }
      SecondSame(S(), pid, page);
      Reshape(pid, WithSecond(pagers[pid], page));
    }

    /** Extend the object until it has the page. */
    method GrowObject(pid: nat, page: nat)
      requires Valid() && pid in pagers && MapOk(pagers[pid]) && page >= pagers[pid].size
      modifies this`pagers
      ensures Valid() && pid in pagers && MapOk(pagers[pid]) && page < pagers[pid].size
      ensures pagers[pid].cur == old(pagers)[pid].cur && pagers == old(pagers)[pid := pagers[pid]]
      ensures SameEntries(old(S()), S()) && AllKept(old(S()), S())
    {
      assert PagerAtOk(S(), pid);
      var pg := Extend(pagers[pid], page + 1);
      ExtendedSame(S(), pid, pg.size);
      Reshape(pid, pg);
    }

    /** Take a block from the object's partition, or failing that from any other, which becomes the object's. */
    method GetRoom(pid: nat) returns (r: Option<(nat, nat)>)
      requires Valid() && pid in pagers && pagers[pid].cur.Some?
      modifies this
      ensures r.None? ==> S() == old(S())
      ensures r.None? <==> NoSpace(old(parts))
      ensures Fits(parts)
      ensures r.Some? ==> Inv(S(), {r.value}) && SameEntries(old(S()), S()) && AllKept(old(S()), S())
      ensures r.Some? ==> pagers == old(pagers)[pid := old(pagers)[pid].(cur := Some(r.value.0))]
    {
      assert PagerAtOk(S(), pid);
      var cur := pagers[pid].cur;
      var off := AllocPage(cur);
      if off.None? {
        var newPart := ChoosePartition(PAGE_SIZE, cur);
        if newPart.None? {
          forall i | 0 <= i < |parts| ensures !Suits(parts, i, PAGE_SIZE, None) {
            assert !Suits(parts, i, PAGE_SIZE, cur);
          }
          return None;
        }
        assert Suits(parts, newPart.value, PAGE_SIZE, None);
        SameAt(pagers[pid], newPart);
        Reshape(pid, pagers[pid].(cur := newPart));
        cur := newPart;
        TakeAny(S(), cur.value);
        off := AllocPage(cur);
      } else {
        assert pagers == old(pagers)[pid := pagers[pid].(cur := cur)];
        TakeAny(old(S()), cur.value);
      }
      return Some((cur.value, off.value));
    }

    /** pager_write_offset: the block of a page, taken now if it had none. */
    method WriteOffset(pid: nat, page: nat) returns (r: Entry)
      requires Valid() && pid in pagers
      modifies this
      ensures Valid() && pid in pagers && OthersKept(old(S()), S(), pid, page) && SizesKept(old(S()), S())
      ensures r.NoBlock? <==>
        NoSpace(old(parts)) && (old(pagers)[pid].cur.None? || old(EntryOf(S(), pid, page)).NoBlock?)
      ensures r.NoBlock? ==> EntryOf(S(), pid, page) == old(EntryOf(S(), pid, page)) && AllKept(old(S()), S())
      ensures r.Block? ==> EntryOf(S(), pid, page) == r
      ensures old(EntryOf(S(), pid, page)).Block? && r.Block? ==>
        r == old(EntryOf(S(), pid, page)) && AllKept(old(S()), S())
    {
      var ok := PickPartition(pid, page);
      if !ok { return NoBlock; }
      MakeRoom(pid, page);
      r := At(pagers[pid], page);
      if r.NoBlock? { r := BindNew(pid, page); }
    }

    /** Give a page that has an entry but no block a new one. */
    method BindNew(pid: nat, page: nat) returns (r: Entry)
      requires Valid() && CanPut(S(), pid, page) && EntryOf(S(), pid, page).NoBlock? && pagers[pid].cur.Some?
      modifies this
      ensures Valid() && pid in pagers && OthersKept(old(S()), S(), pid, page) && SizesKept(old(S()), S())
      ensures r.NoBlock? <==> NoSpace(old(parts))
      ensures r.NoBlock? ==> S() == old(S())
      ensures r.Block? ==> EntryOf(S(), pid, page) == r
    {
      var room := GetRoom(pid);
      if room.None? { return NoBlock; }
      r := Block(room.value.0, room.value.1);
      assert CanPut(S(), pid, page);
      BoundPage(S(), pid, page, r);
      pagers := pagers[pid := Put(pagers[pid], page, r)];
    }

    /** pager_release_offset: give a page's block back. */
    method ReleaseOffset(pid: nat, page: nat)
      requires Valid() && EntryOf(S(), pid, page).Block?
      modifies this
      ensures Valid() && OthersKept(old(S()), S(), pid, page) && EntryOf(S(), pid, page).NoBlock?
      ensures SizesKept(old(S()), S())
    {
      ReleasedPage(S(), pid, page);
      var e := At(pagers[pid], page);
      pagers := pagers[pid := Put(pagers[pid], page, NoBlock)];
      DeallocPage(e.part, e.off);
    }

    /** default_read, with the release of a block whose page the kernel keeps. */
    method Read(pid: nat, page: nat, dev: Device, deallocate: bool) returns (rc: Rc, data: Page)
      requires Valid() && pid in pagers && Answers(dev)
      modifies this
      ensures rc.Panic? <==> page >= old(pagers)[pid].size
      ensures rc.Absent? <==> !rc.Panic? && old(Data(S(), pid, page)).None?
      ensures rc.Error? ==> Fails(dev)
      ensures rc.Success? ==> old(Data(S(), pid, page)) == Some(data)
      ensures Valid() && OthersKept(old(S()), S(), pid, page) && SizesKept(old(S()), S())
      ensures !rc.Success? || !deallocate ==> S() == old(S())
      ensures rc.Success? && deallocate ==> EntryOf(S(), pid, page).NoBlock?
    {
      data := [];
      assert PagerAtOk(S(), pid) && NameOk(S(), {}, pid, page);
      if page >= pagers[pid].size { return Panic, []; }
      var e := At(pagers[pid], page);
      if e.NoBlock? { return Absent, []; }
      BlockInRange(S(), {}, e.part, e.off);
      var ok;
      ok, data := Fetch(parts[e.part].value.blocks[e.off], dev);
      if !ok { return Error, []; }
      if deallocate { ReleaseOffset(pid, page); }
      return Success, data;
    }

    /** The copying loop of default_read: however the device splits the transfer, the whole block arrives. */
    method Fetch(block: Page, dev: Device) returns (ok: bool, data: Page)
      requires |block| == PAGE_SIZE && Answers(dev)
      ensures ok ==> data == block
      ensures !ok ==> Fails(dev)
    {
      data := [];
      var i, size := 0, PAGE_SIZE;
      while size != 0
        invariant size + |data| == PAGE_SIZE && size >= 0 && i <= |data| && data == block[..|data|]
        decreases size
      {
        if dev(i).Fail? { return false, data; }
        var rsize := if dev(i).n < size then dev(i).n else size;
        data := data + block[|data|..|data| + rsize];
        size := size - rsize;
        i := i + 1;
      }
      return true, data;
    }

    /** One transfer to the block of a page. */
    method StoreBlock(pid: nat, page: nat, e: Entry, block: Page)
      requires Valid() && e.Block? && EntryOf(S(), pid, page) == e && |block| == PAGE_SIZE
      modifies this`parts
      ensures Valid() && EntryOf(S(), pid, page) == e && Data(S(), pid, page) == Some(block)
      ensures OthersKept(old(S()), S(), pid, page)
    {
      StoredPage(S(), pid, page, block);
      FitsPart(parts, e.part, Some(Stored(parts[e.part].value, e.off, block)));
      parts := parts[e.part := Some(Stored(parts[e.part].value, e.off, block))];
    }

    /** One pass of that loop: the device takes up to `n` bytes. */
    method SendPiece(pid: nat, page: nat, e: Entry, data: Page, ghost first: Page, block: Page, at: nat, n: nat)
      returns (block': Page, at': nat)
      requires Valid() && e.Block? && EntryOf(S(), pid, page) == e && |data| == |first| == PAGE_SIZE
      requires at < PAGE_SIZE && n > 0 && block == data[..at] + first[at..]
      modifies this`parts
      ensures Valid() && EntryOf(S(), pid, page) == e && OthersKept(old(S()), S(), pid, page)
      ensures at < at' <= PAGE_SIZE && block' == data[..at'] + first[at'..] && Data(S(), pid, page) == Some(block')
    {
      var wsize := if n < PAGE_SIZE - at then n else PAGE_SIZE - at;
      Spliced(data, first, at, wsize);
      block' := block[..at] + data[at..at + wsize] + block[at + wsize..];
      StoreBlock(pid, page, e, block');
      at' := at + wsize;
    }

    /** The loop of default_write; `done` is how much of the page is new when the device fails. */
    method Send(pid: nat, page: nat, e: Entry, data: Page, dev: Device) returns (ok: bool, ghost done: nat)
      requires Valid() && e.Block? && EntryOf(S(), pid, page) == e && Answers(dev) && |data| == PAGE_SIZE
      modifies this`parts
      ensures Valid() && OthersKept(old(S()), S(), pid, page)
      ensures ok ==> Data(S(), pid, page) == Some(data)
      ensures !ok ==> Fails(dev) && Torn(old(Data(S(), pid, page)), Data(S(), pid, page), data, done)
    {
      EntryMeansData(S(), pid, page);
      var block := parts[e.part].value.blocks[e.off];
      ghost var first := block;
      var i, at := 0, 0;
      while at != PAGE_SIZE
        invariant i <= at <= PAGE_SIZE && Valid() && EntryOf(S(), pid, page) == e
        invariant OthersKept(old(S()), S(), pid, page) && |first| == PAGE_SIZE
        invariant Data(S(), pid, page) == Some(block) && block == data[..at] + first[at..]
        decreases PAGE_SIZE - at
      {
        if dev(i).Fail? { return false, at; }
        block, at := SendPiece(pid, page, e, data, first, block, at, dev(i).n);
        i := i + 1;
      }
      assert block == data;
      return true, at;
    }

    /** default_write */
    method Write(pid: nat, page: nat, data: Page, dev: Device) returns (rc: Rc)
      requires Valid() && pid in pagers && Answers(dev) && |data| == PAGE_SIZE
      modifies this
      ensures Valid() && OthersKept(old(S()), S(), pid, page) && SizesKept(old(S()), S())
      ensures rc.Success? ==> Data(S(), pid, page) == Some(data)
      ensures rc.Success? || rc.Error?
      ensures rc.Error? ==> NoSpace(old(parts)) || Fails(dev)
      ensures NoSpace(old(parts)) && old(Data(S(), pid, page)).None? ==> rc.Error? && AllKept(old(S()), S())
      ensures rc.Error? && old(Data(S(), pid, page)).Some? ==>
        exists k :: Torn(old(Data(S(), pid, page)), Data(S(), pid, page), data, k)
    {
      EntryMeansData(S(), pid, page);
      ghost var was := Data(S(), pid, page);
      var e := WriteOffset(pid, page);
      if e.NoBlock? {
        assert was.Some? ==> Torn(was, Data(S(), pid, page), data, 0);
        return Error;
      }
      ghost var done;
      var ok;
      ok, done := Send(pid, page, e, data, dev);
      return if ok then Success else Error;
    }

    // ---------- objects and partitions coming ----------

    /**
      create_paging_partition: the lowest empty slot, in a list that doubles when it is full. Neither
      the slot nor the size is checked against the packed form of a map entry.
    */
    method CreatePartition(id: nat, total: nat, blocks: seq<Page>) returns (i: nat)
      requires Valid() && |blocks| == total && forall o :: 0 <= o < total ==> |blocks[o]| == PAGE_SIZE
      modifies this`parts
      ensures Inv(S(), {}) && SameEntries(old(S()), S()) && AllKept(old(S()), S())
      ensures Valid() <==> Vacant(old(parts)) && total <= OFFSETS
      ensures HasPart(S(), i) && !HasPart(old(S()), i) && parts[i].value == NewPartition(total, id, blocks)
      ensures forall j :: 0 <= j < i ==> HasPart(old(S()), j)
      ensures forall j: nat :: j != i ==>
        HasPart(S(), j) == HasPart(old(S()), j) && (HasPart(S(), j) ==> parts[j] == old(parts)[j])
    {
      var list := parts;
      i := 0;
      while i < |list| && list[i].Some?
        invariant i <= |list| && forall j :: 0 <= j < i ==> list[j].Some?
      {
        i := i + 1;
      }
      if i == |list| {
        var n := if i > 0 then 2 * i else 2;
        list := list + seq(n - i, _ => None);
      }
      NewPartitionOk(total, id, blocks);
      list := list[i := Some(NewPartition(total, id, blocks))];
      NewPartInv(S(), Sys(list, pagers), i);
      forall j: nat | j < |list| && j != i ensures FitsAt(list, j) { assert j < |parts| ==> FitsAt(parts, j); }
      assert Fits(list) <==> FitsAt(list, i);
      parts := list;
    }

    /** pager_port_alloc with pager_alloc: a new object of `bytes` bytes, all its pages absent. */
    method CreatePager(pid: nat, bytes: nat)
      requires Valid() && pid !in pagers
      modifies this`pagers
      ensures Valid() && pid in pagers && pagers[pid].size * PAGE_SIZE >= bytes / PAGE_SIZE * PAGE_SIZE
      ensures SameEntries(old(S()), S()) && AllKept(old(S()), S()) && pagers == old(pagers)[pid := pagers[pid]]
      ensures pagers[pid].cur.None? ==> forall i :: 0 <= i < |parts| ==> !Suits(parts, i, 0, None)
    {
      var part := ChoosePartition(bytes, None);
      if part.None? { part := ChoosePartition(0, None); }
      var size := InitialSize(bytes / PAGE_SIZE);
      var pg := Pager(FreshMap(size), size, part);
      forall q: nat | q < size ensures At(pg, q) == EntryOf(S(), pid, q) { FreshAt(size, part, q); }
      FreshAt(size, part, 0);
      ReshapeInv(S(), {}, pid, pg);
      pagers := pagers[pid := pg];
    }

    // ---------- an object going ----------

    /**
      The release of one block while its object is being torn down. The map is left as it is;
      `g` is the state with the entries released so far cleared from it.
    */
    method DropEntry(pid: nat, page: nat, ghost g: Sys) returns (ghost g': Sys)
      requires Inv(g, {}) && g.parts == parts && Fits(parts) && pid in pagers && MapOk(pagers[pid])
      requires page < pagers[pid].size
      requires EntryOf(g, pid, page) == At(pagers[pid], page)
      modifies this`parts
      ensures Inv(g', {}) && g'.parts == parts && Fits(parts) && OthersKept(g, g', pid, page)
      ensures EntryOf(g', pid, page).NoBlock?
      ensures g'.pagers.Keys == g.pagers.Keys && forall c :: c in g.pagers && c != pid ==> g'.pagers[c] == g.pagers[c]
    {
      var e := At(pagers[pid], page);
      g' := g;
      if e.Block? {
        ReleasedPage(g, pid, page);
        g' := WithPart(WithPager(g, pid, Put(g.pagers[pid], page, NoBlock)), e.part, Given(parts[e.part].value, e.off));
        DeallocPage(e.part, e.off);
      }
    }

    /** Release the blocks of pages lo up to hi, in order. */
    method DropRange(pid: nat, lo: nat, hi: nat, ghost g: Sys) returns (ghost g': Sys)
      requires Inv(g, {}) && g.parts == parts && Fits(parts) && pid in pagers && pid in g.pagers
      requires MapOk(pagers[pid]) && lo <= hi <= pagers[pid].size
      requires forall q :: lo <= q < hi ==> EntryOf(g, pid, q) == At(pagers[pid], q)
      modifies this`parts
      ensures Inv(g', {}) && g'.parts == parts && Fits(parts) && pid in g'.pagers
      ensures forall q: nat :: EntryOf(g', pid, q) == if lo <= q < hi then NoBlock else EntryOf(g, pid, q)
      ensures forall c: nat, q: nat :: c != pid ==> Data(g', c, q) == Data(g, c, q)
      ensures g'.pagers.Keys == g.pagers.Keys && forall c :: c in g.pagers && c != pid ==> g'.pagers[c] == g.pagers[c]
    {
      g' := g;
      var j := lo;
      while j < hi
        invariant lo <= j <= hi && Inv(g', {}) && g'.parts == parts && Fits(parts) && pid in g'.pagers
        invariant forall q: nat :: EntryOf(g', pid, q) == if lo <= q < j then NoBlock else EntryOf(g, pid, q)
        invariant forall c: nat, q: nat :: c != pid ==> Data(g', c, q) == Data(g, c, q)
        invariant g'.pagers.Keys == g.pagers.Keys
        invariant forall c :: c in g.pagers && c != pid ==> g'.pagers[c] == g.pagers[c]
      {
        g' := DropEntry(pid, j, g');
        j := j + 1;
      }
    }

    /** pager_dealloc: every block of the object goes back, and the object is gone. */
    method DestroyPager(pid: nat)
      requires Valid() && pid in pagers
      modifies this
      ensures Valid() && pagers == old(pagers) - {pid}
      ensures forall c: nat, q: nat :: c != pid ==> Data(S(), c, q) == old(Data(S(), c, q))
    {
      assert PagerAtOk(S(), pid);
      ghost var g := S();
      if pagers[pid].size > PAGEMAP_ENTRIES {
        var i := Level1(pagers[pid].size);
        while i > 0
          invariant pagers == old(pagers) && 0 <= i <= Level1(pagers[pid].size)
          invariant Inv(g, {}) && g.parts == parts && Fits(parts) && pid in g.pagers
          invariant forall q: nat ::
            EntryOf(g, pid, q) == if q < i * PAGEMAP_ENTRIES then EntryOf(old(S()), pid, q) else NoBlock
          invariant forall c: nat, q: nat :: c != pid ==> Data(g, c, q) == old(Data(S(), c, q))
          invariant g.pagers.Keys == pagers.Keys && forall c :: c in pagers && c != pid ==> g.pagers[c] == pagers[c]
        {
          i := i - 1;
          if pagers[pid].pmap.maps[i].Some? {
            g := DropRange(pid, i * PAGEMAP_ENTRIES, (i + 1) * PAGEMAP_ENTRIES, g);
          } else {
            forall q: nat | i * PAGEMAP_ENTRIES <= q < (i + 1) * PAGEMAP_ENTRIES
              ensures EntryOf(old(S()), pid, q).NoBlock?
            {
              assert q / PAGEMAP_ENTRIES == i;
            }
          }
        }
      } else {
        g := DropRange(pid, 0, pagers[pid].size, g);
      }
      DropPagerInv(g, pid);
      pagers := pagers - {pid};
      assert pagers == g.pagers - {pid};
    }

    // ---------- a partition going ----------

    /**
      pager_move_page: carry a block to another partition and release the original. A failed transfer is
      a panic; a short one is not noticed. `at` counts the transfers asked of the device.
    */
    method MovePage(e: Entry, dev: Device, at: nat) returns (how: Progress, r: Entry, at': nat)
      requires Valid() && e.Block? && BitSet(S(), e.part, e.off)
      modifies this`parts
      ensures at <= at' && (how.Crashed? <==> FailsIn(dev, at, at'))
      ensures how.NoRoom? ==>
        S() == old(S()) && forall j :: 0 <= j < |parts| ==> !Suits(parts, j, PAGE_SIZE, Some(e.part))
      ensures how.Finished? ==> Fits(parts) && at' == at + 2 && dev(at).Moved? && dev(at + 1).Moved?
      ensures how.Finished? ==> MovesTo(old(S()), e, r) && !old(parts)[r.part].value.goingAway
      ensures how.Finished? ==> S() == PartsMoved(old(S()), e.part, e.off, r.part, r.off,
        Carried(old(parts)[e.part].value.blocks[e.off], old(parts)[r.part].value.blocks[r.off], dev(at), dev(at + 1)))
    {
      r, at' := NoBlock, at;
      BlockInRange(S(), {}, e.part, e.off);
      var newPindex := ChoosePartition(PAGE_SIZE, Some(e.part));
      if newPindex.None? { return NoRoom, r, at'; }
      var np := newPindex.value;
      assert PartAtOk(S(), np);
      assert Suits(parts, np, PAGE_SIZE, None);
      var off := AllocPage(newPindex);
      r := Block(np, off.value);
      assert PartAtOk(old(S()), e.part);
      how, at' := Carry(e, r, dev, at);
    }

    /** The transfers of pager_move_page, with the release of the old block between them. */
    method Carry(e: Entry, r: Entry, dev: Device, at: nat) returns (how: Progress, at': nat)
      requires MoveFits(S(), e, r) && e.off < parts[e.part].value.total && Fits(parts)
      requires |parts[e.part].value.blocks[e.off]| == |parts[r.part].value.blocks[r.off]| == PAGE_SIZE
      modifies this`parts
      ensures at <= at' && (how.Crashed? <==> FailsIn(dev, at, at')) && !how.NoRoom?
      ensures how.Finished? ==> Fits(parts) && at' == at + 2 && dev(at).Moved? && dev(at + 1).Moved?
      ensures how.Finished? ==>
        var x, y := old(parts)[e.part].value, old(parts)[r.part].value;
        var d := Carried(x.blocks[e.off], y.blocks[r.off], dev(at), dev(at + 1));
        S() == WithPart(WithPart(old(S()), e.part, Given(x, e.off)), r.part, Stored(y, r.off, d))
    {
      ghost var from := parts[e.part].value.blocks[e.off];
      at' := at + 1;
      if dev(at).Fail? { return Crashed, at'; }
      var size := if dev(at).n < PAGE_SIZE then dev(at).n else PAGE_SIZE;
      var raddr := parts[e.part].value.blocks[e.off][..size];
      DeallocPage(e.part, e.off);
      at' := at + 2;
      if dev(at + 1).Fail? { return Crashed, at'; }
      var wsize := if dev(at + 1).n < size then dev(at + 1).n else size;
      var block := raddr[..wsize] + parts[r.part].value.blocks[r.off][wsize..];
      assert raddr[..wsize] == from[..wsize];
      FitsPart(parts, r.part, Some(Stored(parts[r.part].value, r.off, block)));
      parts := parts[r.part := Some(Stored(parts[r.part].value, r.off, block))];
      return Finished, at';
    }

    /** One step of pager_realloc. */
    method MoveIfOn(pid: nat, page: nat, pindex: nat, dev: Device, at: nat) returns (how: Progress, at': nat)
      requires Valid() && pid in pagers && MapOk(pagers[pid]) && page < pagers[pid].size
      modifies this
      ensures at <= at' && (how.Crashed? <==> FailsIn(dev, at, at'))
      ensures !how.Crashed? ==>
        Valid() && Relocated(old(S()), S(), pindex, WholeIn(dev, at, at')) && SameSlots(old(S()), S())
      ensures !how.Crashed? ==> pid in pagers && pagers == old(pagers)[pid := pagers[pid]]
      ensures !how.Crashed? ==> pid in pagers && pagers[pid].size == old(pagers)[pid].size
      ensures !how.Crashed? ==> forall q: nat :: q != page ==> EntryOf(S(), pid, q) == old(EntryOf(S(), pid, q))
      ensures how.Finished? ==> Off(S(), pid, page, pindex)
      ensures how.NoRoom? ==> forall j :: 0 <= j < |parts| ==> !Suits(parts, j, PAGE_SIZE, Some(pindex))
    {
      var e := At(pagers[pid], page);
      how, at' := Finished, at;
      assert pagers == pagers[pid := pagers[pid]];
      if e.Block? && e.part == pindex {
        assert NameOk(S(), {}, pid, page);
        var r;
        how, r, at' := MovePage(e, dev, at);
        if how.Finished? {
          MovedPage(old(S()), pid, page, r, dev, at);
          pagers := pagers[pid := Put(pagers[pid], page, r)];
        }
      }
    }

    /** The inner loops of pager_realloc: move pages lo up to hi. */
    method MoveRange(pid: nat, lo: nat, hi: nat, pindex: nat, dev: Device, at: nat) returns (how: Progress, at': nat)
      requires Valid() && pid in pagers && MapOk(pagers[pid]) && lo <= hi <= pagers[pid].size
      modifies this
      ensures at <= at' && (how.Crashed? <==> FailsIn(dev, at, at'))
      ensures !how.Crashed? ==>
        Valid() && Relocated(old(S()), S(), pindex, WholeIn(dev, at, at')) && SameSlots(old(S()), S())
      ensures !how.Crashed? ==> pid in pagers && pagers == old(pagers)[pid := pagers[pid]]
      ensures !how.Crashed? ==> pid in pagers && pagers[pid].size == old(pagers)[pid].size
      ensures !how.Crashed? ==>
        forall q: nat :: q < lo || hi <= q ==> EntryOf(S(), pid, q) == old(EntryOf(S(), pid, q))
      ensures how.Finished? ==> forall q: nat :: lo <= q < hi ==> Off(S(), pid, q, pindex)
      ensures how.NoRoom? ==> forall j :: 0 <= j < |parts| ==> !Suits(parts, j, PAGE_SIZE, Some(pindex))
    {
      var j := lo;
      how, at' := Finished, at;
      assert pagers == pagers[pid := pagers[pid]];
      while j < hi
        invariant lo <= j <= hi && Valid() && SameSlots(old(S()), S()) && at <= at' && !FailsIn(dev, at, at')
        invariant Relocated(old(S()), S(), pindex, WholeIn(dev, at, at')) && how.Finished?
        invariant pid in pagers && pagers == old(pagers)[pid := pagers[pid]]
        invariant pagers[pid].size == old(pagers)[pid].size
        invariant forall q: nat :: q < lo || hi <= q ==> EntryOf(S(), pid, q) == old(EntryOf(S(), pid, q))
        invariant forall q: nat :: lo <= q < j ==> Off(S(), pid, q, pindex)
      {
        assert PagerAtOk(S(), pid);
        ghost var mid, was := S(), at';
        how, at' := MoveIfOn(pid, j, pindex, dev, at');
        if how.Crashed? { return; }
        SlotsTrans(old(S()), mid, S());
        RelocatedTrans(old(S()), mid, S(), pindex, dev, at, was, at');
        if how.NoRoom? { return; }
        forall q: nat | lo <= q <= j ensures Off(S(), pid, q, pindex) {
          assert q < j ==> Off(mid, pid, q, pindex);
        }
        j := j + 1;
      }
    }

    /** pager_realloc: move everything an object has on partition `pindex` somewhere else. */
    method Realloc(pid: nat, pindex: nat, dev: Device, at: nat) returns (how: Progress, at': nat)
      requires Valid() && pid in pagers && HasPart(S(), pindex) && parts[pindex].value.goingAway
      modifies this
      ensures at <= at' && (how.Crashed? <==> FailsIn(dev, at, at'))
      ensures !how.Crashed? ==>
        Valid() && Relocated(old(S()), S(), pindex, WholeIn(dev, at, at')) && SameSlots(old(S()), S())
      ensures !how.Crashed? ==> pid in pagers && pagers == old(pagers)[pid := pagers[pid]]
      ensures !how.Crashed? ==> pid in pagers && pagers[pid].size == old(pagers)[pid].size
      ensures how.Finished? ==> Abandons(S(), pid, pindex)
      ensures how.NoRoom? ==> forall j :: 0 <= j < |parts| ==> !Suits(parts, j, PAGE_SIZE, Some(pindex))
    {
      how, at' := ReallocPages(pid, pindex, dev, at);
      if how.Finished? {
        assert SameSlot(old(S()), S(), pindex) && PagerAtOk(S(), pid);
        var part := ChoosePartition(0, None);
        SameAt(pagers[pid], part);
        ghost var mid := S();
        Reshape(pid, pagers[pid].(cur := part));
        SameRelocated(old(S()), mid, S(), pindex, WholeIn(dev, at, at'));
        assert SameSlots(mid, S()) by { forall p: nat | p < |parts| ensures SameSlot(mid, S(), p) {} }
        SlotsTrans(old(S()), mid, S());
        forall q: nat ensures EntryOf(S(), pid, q).Block? ==> EntryOf(S(), pid, q).part != pindex {
          assert Off(mid, pid, q, pindex);
        }
      }
    }

    method ReallocPages(pid: nat, pindex: nat, dev: Device, at: nat) returns (how: Progress, at': nat)
      requires Valid() && pid in pagers
      modifies this
      ensures at <= at' && (how.Crashed? <==> FailsIn(dev, at, at'))
      ensures !how.Crashed? ==>
        Valid() && Relocated(old(S()), S(), pindex, WholeIn(dev, at, at')) && SameSlots(old(S()), S())
      ensures !how.Crashed? ==> pid in pagers && pagers == old(pagers)[pid := pagers[pid]]
      ensures !how.Crashed? ==> pid in pagers && pagers[pid].size == old(pagers)[pid].size
      ensures how.Finished? ==> forall q: nat :: Off(S(), pid, q, pindex)
      ensures how.NoRoom? ==> forall j :: 0 <= j < |parts| ==> !Suits(parts, j, PAGE_SIZE, Some(pindex))
    {
      assert PagerAtOk(S(), pid);
      if pagers[pid].size > PAGEMAP_ENTRIES {
        assert pagers == pagers[pid := pagers[pid]];
        how, at' := Finished, at;
        var i, n := 0, Level1(pagers[pid].size);
        while i < n
          invariant i <= n && Valid() && SameSlots(old(S()), S()) && at <= at' && !FailsIn(dev, at, at')
          invariant Relocated(old(S()), S(), pindex, WholeIn(dev, at, at')) && how.Finished?
          invariant pid in pagers && pagers == old(pagers)[pid := pagers[pid]]
          invariant pagers[pid].size == old(pagers)[pid].size
          invariant forall q: nat :: q < i * PAGEMAP_ENTRIES ==> Off(S(), pid, q, pindex)
        {
          assert PagerAtOk(S(), pid);
          ghost var mid, was := S(), at';
          if pagers[pid].pmap.maps[i].None? {
            forall q: nat | i * PAGEMAP_ENTRIES <= q < (i + 1) * PAGEMAP_ENTRIES ensures Off(S(), pid, q, pindex) {
              assert q / PAGEMAP_ENTRIES == i;
            }
          } else {
            how, at' := MoveRange(pid, i * PAGEMAP_ENTRIES, (i + 1) * PAGEMAP_ENTRIES, pindex, dev, at');
            if how.Crashed? { return; }
            SlotsTrans(old(S()), mid, S());
            RelocatedTrans(old(S()), mid, S(), pindex, dev, at, was, at');
            if how.NoRoom? { return; }
            forall q: nat | q < i * PAGEMAP_ENTRIES ensures Off(S(), pid, q, pindex) {
              assert Off(mid, pid, q, pindex);
            }
          }
          i := i + 1;
        }
      } else {
        how, at' := MoveRange(pid, 0, pagers[pid].size, pindex, dev, at);
      }
    }

    /** The search of destroy_paging_partition. */
    method FindPartition(id: nat) returns (r: Option<nat>)
      ensures r.Some? ==> HasPart(S(), r.value) && parts[r.value].value.id == id
      ensures r.None? ==> forall p :: 0 <= p < |parts| && parts[p].Some? ==> parts[p].value.id != id
    {
      var p := 0;
      while p < |parts|
        invariant p <= |parts| && forall q :: 0 <= q < p && parts[q].Some? ==> parts[q].value.id != id
      {
        if parts[p].Some? && parts[p].value.id == id { return Some(p); }
        p := p + 1;
      }
      return None;
    }

    /** The relocation of every object, in any order, up to the first that does not fit. */
    method Evacuate(pindex: nat, dev: Device) returns (how: Progress, at: nat)
      requires Valid() && HasPart(S(), pindex) && parts[pindex].value.goingAway
      modifies this
      ensures how.Crashed? <==> FailsIn(dev, 0, at)
      ensures !how.Crashed? ==>
        Valid() && Relocated(old(S()), S(), pindex, WholeIn(dev, 0, at)) && SameSlots(old(S()), S())
      ensures !how.Crashed? ==> pagers.Keys == old(pagers).Keys && SizesKept(old(S()), S())
      ensures how.Finished? ==> forall c :: Abandons(S(), c, pindex)
      ensures how.NoRoom? ==> forall j :: 0 <= j < |parts| ==> !Suits(parts, j, PAGE_SIZE, Some(pindex))
    {
      var todo := pagers.Keys;
      how, at := Finished, 0;
      while todo != {}
        invariant Valid() && SameSlots(old(S()), S()) && pagers.Keys == old(pagers).Keys && SizesKept(old(S()), S())
        invariant how.Finished? && !FailsIn(dev, 0, at) && Relocated(old(S()), S(), pindex, WholeIn(dev, 0, at))
        invariant todo <= pagers.Keys && forall c :: c !in todo ==> Abandons(S(), c, pindex)
        decreases todo
      {
        var pid :| pid in todo;
        assert SameSlot(old(S()), S(), pindex);
        ghost var mid, was := S(), at;
        how, at := Realloc(pid, pindex, dev, at);
        if how.Crashed? { return; }
        SlotsTrans(old(S()), mid, S());
        RelocatedTrans(old(S()), mid, S(), pindex, dev, 0, was, at);
        if how.NoRoom? { return; }
        todo := todo - {pid};
        forall c | c !in todo ensures Abandons(S(), c, pindex) {
          if c != pid { AbandonsKept(mid, S(), c, pindex); }
        }
      }
    }

    /** The mark of a partition on its way out, set or taken back. */
    method SetAway(p: nat, away: bool)
      requires Valid() && HasPart(S(), p)
      modifies this`parts
      ensures Valid() && parts == old(parts)[p := Some(old(parts)[p].value.(goingAway := away))]
      ensures AllKept(old(S()), S()) && SameEntries(old(S()), S())
    {
      SetAwayInv(S(), p, away);
      FitsPart(parts, p, Some(parts[p].value.(goingAway := away)));
      parts := parts[p := Some(parts[p].value.(goingAway := away))];
    }

    /** The abandoned partition's slot is emptied. */
    method DropPart(p: nat)
      requires Valid() && HasPart(S(), p) && forall c :: Abandons(S(), c, p)
      modifies this`parts
      ensures Valid() && parts == old(parts)[p := None] && AllKept(old(S()), S()) && SameEntries(old(S()), S())
      ensures forall c, q :: Off(S(), c, q, p)
    {
      DropPartInv(S(), p);
      FitsPart(parts, p, None);
      ghost var s := S();
      parts := parts[p := None];
      forall c, q ensures Off(S(), c, q, p) { assert Abandons(s, c, p) && EntryOf(S(), c, q) == EntryOf(s, c, q); }
    }

    /** destroy_paging_partition; `at` counts the transfers asked of the device. */
    method DestroyPartition(id: nat, dev: Device) returns (r: Removal, at: nat)
      requires Valid()
      modifies this
      ensures r.Died? <==> FailsIn(dev, 0, at)
      ensures !r.Died? ==> Valid() && pagers.Keys == old(pagers).Keys && SizesKept(old(S()), S())
      ensures r.Unknown? <==> forall p :: 0 <= p < |old(parts)| && old(parts)[p].Some? ==> old(parts)[p].value.id != id
      ensures r.Unknown? ==> S() == old(S())
      ensures !r.Unknown? ==> HasPart(old(S()), r.p) && old(parts)[r.p].value.id == id
      ensures r.Removed? || r.Full? ==> Relocated(old(S()), S(), r.p, WholeIn(dev, 0, at))
      ensures r.Removed? || r.Full? ==>
        |parts| == |old(parts)| && forall j: nat :: j < |parts| && j != r.p ==> SameSlot(old(S()), S(), j)
      ensures r.Removed? ==> !HasPart(S(), r.p) && forall c, q :: Off(S(), c, q, r.p)
      ensures r.Full? ==> HasPart(S(), r.p) && !parts[r.p].value.goingAway
      ensures r.Full? ==> forall j :: 0 <= j < |parts| ==> !Suits(parts, j, PAGE_SIZE, Some(r.p))
    {
      at := 0;
      var found := FindPartition(id);
      if found.None? { return Unknown, at; }
      var pindex := found.value;
      SetAway(pindex, true);
      ghost var away := S();
      var how;
      how, at := Evacuate(pindex, dev);
      if how.Crashed? { return Died(pindex), at; }
      assert SameSlot(away, S(), pindex);
      ghost var done := S();
      forall j: nat | j < |parts| && j != pindex ensures SameSlot(old(S()), done, j) {
        assert SameSlot(away, done, j);
      }
      if how.Finished? {
        DropPart(pindex);
        r := Removed(pindex);
      } else {
        ghost var mid := parts;
        SetAway(pindex, false);
        forall j | 0 <= j < |parts| ensures !Suits(parts, j, PAGE_SIZE, Some(pindex)) {
          assert !Suits(mid, j, PAGE_SIZE, Some(pindex));
        }
        r := Full(pindex);
      }
      RelocatedAround(old(S()), away, done, S(), pindex, WholeIn(dev, 0, at));
      forall j: nat | j < |parts| && j != pindex ensures SameSlot(old(S()), S(), j) {
        assert SameSlot(old(S()), done, j);
      }
    }
  }

  /** A state with the same entries and contents is relocated from the same places. */
  lemma SameRelocated(s: Sys, m: Sys, s': Sys, p: nat, whole: bool)
    requires Relocated(s, m, p, whole) && SameEntries(m, s') && AllKept(m, s')
    ensures Relocated(s, s', p, whole)
  {
    forall c, q ensures RelocatedAt(s, s', p, whole, c, q) { assert RelocatedAt(s, m, p, whole, c, q); }
  }

  lemma RelocatedAround(s: Sys, a: Sys, b: Sys, s': Sys, p: nat, whole: bool)
    requires SameEntries(s, a) && AllKept(s, a) && Relocated(a, b, p, whole) && SameEntries(b, s') && AllKept(b, s')
    ensures Relocated(s, s', p, whole)
  {
    forall c, q ensures RelocatedAt(s, s', p, whole, c, q) { assert RelocatedAt(a, b, p, whole, c, q); }
  }

  /** A map that is not touched stays off the partition. */
  lemma AbandonsKept(s: Sys, s': Sys, c: nat, p: nat)
    requires Abandons(s, c, p) && (c in s'.pagers ==> c in s.pagers && s'.pagers[c] == s.pagers[c])
    ensures Abandons(s', c, p)
  {
    if c in s'.pagers {
      forall q: nat ensures EntryOf(s', c, q) == EntryOf(s, c, q) {}
    }
  }

  lemma SlotsTrans(s: Sys, m: Sys, s': Sys)
    requires SameSlots(s, m) && SameSlots(m, s')
    ensures SameSlots(s, s')
  {
    forall p: nat | p < |s.parts| ensures SameSlot(s, s', p) { assert SameSlot(s, m, p) && SameSlot(m, s', p); }
  }

  ghost predicate MoveFits(s: Sys, e: Entry, r: Entry) {
    e.Block? && r.Block? && HasPart(s, e.part) && HasPart(s, r.part) && e.part != r.part
    && e.off < |s.parts[e.part].value.blocks| && r.off < |s.parts[r.part].value.blocks|
    && e.off / NB_BM < |s.parts[e.part].value.bitmap| && r.off / NB_BM < |s.parts[r.part].value.bitmap|
  }

  /** Block `r` is clear, on another partition than `e`, and in range. */
  ghost predicate MovesTo(s: Sys, e: Entry, r: Entry) {
    MoveFits(s, e, r) && r.off < s.parts[r.part].value.total && !Bit(s.parts[r.part].value, r.off)
    && |s.parts[e.part].value.blocks[e.off]| == |s.parts[r.part].value.blocks[r.off]| == PAGE_SIZE
  }

  /** A page moved and re-pointed holds what was carried; it and all others are relocated as they should be. */
  lemma MovedPage(s: Sys, pid: nat, page: nat, r: Entry, dev: Device, at: nat)
    requires Inv(s, {}) && EntryOf(s, pid, page).Block? && MovesTo(s, EntryOf(s, pid, page), r)
    requires dev(at).Moved? && dev(at + 1).Moved?
    ensures CanPut(s, pid, page)
    ensures var e := EntryOf(s, pid, page);
      var d := Carried(s.parts[e.part].value.blocks[e.off], s.parts[r.part].value.blocks[r.off], dev(at), dev(at + 1));
      var s' := WithPager(PartsMoved(s, e.part, e.off, r.part, r.off, d), pid, Put(s.pagers[pid], page, r));
      Inv(s', {}) && Relocated(s, s', e.part, WholeIn(dev, at, at + 2)) && SameSlots(s, s')
      && EntryOf(s', pid, page) == r && Data(s', pid, page) == Some(d) && MapOk(s'.pagers[pid])
      && forall q: nat :: q != page ==> EntryOf(s', pid, q) == EntryOf(s, pid, q)
  {
    var e := EntryOf(s, pid, page);
    var d := Carried(s.parts[e.part].value.blocks[e.off], s.parts[r.part].value.blocks[r.off], dev(at), dev(at + 1));
    MoveInv(s, pid, page, r.part, r.off, d);
    var s' := WithPager(PartsMoved(s, e.part, e.off, r.part, r.off, d), pid, Put(s.pagers[pid], page, r));
    forall c, q ensures EntryOf(s', c, q) == if c == pid && q == page then r else EntryOf(s, c, q) {
      MovedEntry(s, s', pid, page, r, c, q);
    }
    PutAt(s.pagers[pid], page, r, page);
    forall p: nat | p < |s.parts| ensures SameSlot(s, s', p) {}
    assert Data(s, pid, page) == Some(s.parts[e.part].value.blocks[e.off]);
    assert WholeIn(dev, at, at + 2) ==> IsWhole(dev(at)) && IsWhole(dev(at + 1));
    assert Relocated(s, s', e.part, WholeIn(dev, at, at + 2));
  }

  lemma MovedEntry(s: Sys, s': Sys, pid: nat, page: nat, r: Entry, c: nat, q: nat)
    requires CanPut(s, pid, page) && s'.pagers == s.pagers[pid := Put(s.pagers[pid], page, r)]
    ensures EntryOf(s', c, q) == if c == pid && q == page then r else EntryOf(s, c, q)
  {
    PutEntry(s, pid, page, r, c, q);
    assert EntryOf(s', c, q) == EntryOf(WithPager(s, pid, Put(s.pagers[pid], page, r)), c, q);
  }

  lemma Spliced(data: Page, first: Page, done: nat, n: nat)
    requires |data| == |first| && done + n <= |data|
    ensures var block := data[..done] + first[done..];
      block[..done] + data[done..done + n] + block[done + n..] == data[..done + n] + first[done + n..]
  {
  }

  lemma EntryMeansData(s: Sys, pid: nat, page: nat)
    requires Inv(s, {})
    ensures Data(s, pid, page).Some? <==> EntryOf(s, pid, page).Block?
    ensures Data(s, pid, page).Some? ==> |Data(s, pid, page).value| == PAGE_SIZE
  {
    assert NameOk(s, {}, pid, page);
    if EntryOf(s, pid, page).Block? { BlockInRange(s, {}, EntryOf(s, pid, page).part, EntryOf(s, pid, page).off); }
  }

  lemma StoredPage(s: Sys, pid: nat, page: nat, d: Page)
    requires Inv(s, {}) && EntryOf(s, pid, page).Block? && |d| == PAGE_SIZE
    ensures var e := EntryOf(s, pid, page);
      HasPart(s, e.part) && e.off < |s.parts[e.part].value.blocks|
      && var s' := WithPart(s, e.part, Stored(s.parts[e.part].value, e.off, d));
         Inv(s', {}) && OthersKept(s, s', pid, page) && EntryOf(s', pid, page) == e
  {
    var e := EntryOf(s, pid, page);
    assert NameOk(s, {}, pid, page);
    BlockInRange(s, {}, e.part, e.off);
    StoreInv(s, {}, e.part, e.off, d);
    var s' := WithPart(s, e.part, Stored(s.parts[e.part].value, e.off, d));
    forall c, q | c != pid || q != page
      ensures Data(s', c, q) == Data(s, c, q) && EntryOf(s', c, q) == EntryOf(s, c, q)
    {
      assert Sole(s, pid, page, c, q);
    }
  }

  lemma ReleasedPage(s: Sys, pid: nat, page: nat)
    requires Inv(s, {}) && EntryOf(s, pid, page).Block?
    ensures CanPut(s, pid, page)
    ensures var e := EntryOf(s, pid, page);
      var s1 := WithPager(s, pid, Put(s.pagers[pid], page, NoBlock));
      HasPart(s, e.part) && e.off < s.parts[e.part].value.total && e.off / NB_BM < |s.parts[e.part].value.bitmap|
      && var s2 := WithPart(s1, e.part, Given(s.parts[e.part].value, e.off));
         Inv(s2, {}) && OthersKept(s, s2, pid, page) && EntryOf(s2, pid, page).NoBlock?
  {
    var e := EntryOf(s, pid, page);
    assert NameOk(s, {}, pid, page) && PartAtOk(s, e.part);
    BlockInRange(s, {}, e.part, e.off);
    UnbindInv(s, {}, pid, page);
    var s1 := WithPager(s, pid, Put(s.pagers[pid], page, NoBlock));
    GiveInv(s1, {} + {(e.part, e.off)}, e.part, e.off);
    assert {} + {(e.part, e.off)} - {(e.part, e.off)} == {};
    var s2 := WithPart(s1, e.part, Given(s.parts[e.part].value, e.off));
    forall c, q | c != pid || q != page
      ensures Data(s2, c, q) == Data(s, c, q) && EntryOf(s2, c, q) == EntryOf(s, c, q)
    {
      PutData(s, pid, page, NoBlock, c, q);
      PutEntry(s, pid, page, NoBlock, c, q);
    }
    PutEntry(s, pid, page, NoBlock, pid, page);
  }

  lemma BoundPage(s: Sys, pid: nat, page: nat, e: Entry)
    requires e.Block? && Inv(s, {(e.part, e.off)}) && CanPut(s, pid, page) && EntryOf(s, pid, page).NoBlock?
    ensures var s' := WithPager(s, pid, Put(s.pagers[pid], page, e));
      Inv(s', {}) && OthersKept(s, s', pid, page) && EntryOf(s', pid, page) == e
  {
    BindInv(s, {(e.part, e.off)}, pid, page, e.part, e.off);
    assert {(e.part, e.off)} - {(e.part, e.off)} == {};
    var s' := WithPager(s, pid, Put(s.pagers[pid], page, e));
    forall c, q | c != pid || q != page
      ensures Data(s', c, q) == Data(s, c, q) && EntryOf(s', c, q) == EntryOf(s, c, q)
    {
      PutData(s, pid, page, e, c, q);
      PutEntry(s, pid, page, e, c, q);
    }
    PutEntry(s, pid, page, e, pid, page);
  }

  /** Whatever free block is taken, it is the operation's spare and nothing else changes. */
  lemma TakeAny(s: Sys, p: nat)
    requires Inv(s, {}) && HasPart(s, p)
    ensures forall o: nat :: o < s.parts[p].value.total && !Bit(s.parts[p].value, o) ==>
      o / NB_BM < |s.parts[p].value.bitmap| && var s' := WithPart(s, p, Taken(s.parts[p].value, o));
      Inv(s', {(p, o)}) && SameEntries(s, s') && AllKept(s, s')
  {
    forall o: nat | o < s.parts[p].value.total && !Bit(s.parts[p].value, o)
      ensures o / NB_BM < |s.parts[p].value.bitmap| && var s' := WithPart(s, p, Taken(s.parts[p].value, o));
        Inv(s', {(p, o)}) && SameEntries(s, s') && AllKept(s, s')
    {
      TakeInv(s, {}, p, o);
      assert {} + {(p, o)} == {(p, o)};
    }
  }

  lemma SameAt(pg: Pager, cur: Option<nat>)
    requires MapOk(pg)
    ensures MapOk(pg.(cur := cur)) && forall q: nat :: q < pg.size ==> At(pg.(cur := cur), q) == At(pg, q)
  {
  }

  lemma ExtendedSame(s: Sys, pid: nat, newsize: nat)
    requires pid in s.pagers && MapOk(s.pagers[pid]) && s.pagers[pid].size <= newsize && SizeOk(newsize)
    ensures var pg := Extended(s.pagers[pid], newsize);
      MapOk(pg) && pg.size == newsize && pg.cur == s.pagers[pid].cur
      && forall q: nat :: q < newsize ==> At(pg, q) == EntryOf(s, pid, q)
  {
    ExtendedAt(s.pagers[pid], newsize, 0);
    forall q: nat | q < newsize ensures At(Extended(s.pagers[pid], newsize), q) == EntryOf(s, pid, q) {
      ExtendedAt(s.pagers[pid], newsize, q);
    }
  }

  lemma SecondSame(s: Sys, pid: nat, page: nat)
    requires pid in s.pagers && MapOk(s.pagers[pid]) && page < s.pagers[pid].size
    ensures var pg := WithSecond(s.pagers[pid], page);
      MapOk(pg) && HasSecond(pg, page) && pg.size == s.pagers[pid].size && pg.cur == s.pagers[pid].cur
      && forall q: nat :: q < pg.size ==> At(pg, q) == EntryOf(s, pid, q)
  {
    WithSecondAt(s.pagers[pid], page, page);
    forall q: nat | q < s.pagers[pid].size ensures At(WithSecond(s.pagers[pid], page), q) == EntryOf(s, pid, q) {
      WithSecondAt(s.pagers[pid], page, q);
    }
  }

  lemma UsedBound(p: Partition)
    requires PartOk(p)
    ensures p.free >= 0
  {
    SubCard(Used(p), p.total);
  }

  lemma {:induction false} SubCard(s: set<nat>, n: nat)
    requires forall o :: o in s ==> o < n
    ensures |s| <= n
  {
    if n == 0 {
      assert s == {};
    } else {
      SubCard(s - {n - 1}, n - 1);
    }
  }

  /** A partition of one page too many is accepted, and its last page cannot be named. */
  method OnePageTooMany() returns (d: DefaultPager)
    ensures fresh(d) && Inv(d.S(), {}) && !d.Valid()
    ensures Unpack(Pack(Block(0, OFFSETS))) != Block(0, OFFSETS)
  {
    d := new DefaultPager();
    var i := d.CreatePartition(1, OFFSETS + 1, seq(OFFSETS + 1, _ => seq(PAGE_SIZE, _ => 0)));
    PackExact(Block(0, OFFSETS));
  }

  /** Byte 255 is the mark of "no partition", so the partition that gets slot 255 is lost. */
  method OnePartitionTooMany() returns (d: DefaultPager)
    ensures fresh(d) && Inv(d.S(), {}) && HasPart(d.S(), NO_INDEX) && !d.Valid()
  {
    d := new DefaultPager();
    var i := 0;
    while i < NO_INDEX
      invariant i <= NO_INDEX && fresh(d) && d.Valid() && forall j: nat :: HasPart(d.S(), j) <==> j < i
    {
      assert !HasPart(d.S(), i);
      var j := d.CreatePartition(i, 0, []);
      i := i + 1;
    }
    assert HasPart(d.S(), NO_INDEX - 1) && !HasPart(d.S(), NO_INDEX);
    assert forall j: nat :: j < NO_INDEX ==> HasPart(d.S(), j);
    i := d.CreatePartition(i, 0, []);
  }
}
