/**
  The boot-time power-of-two allocator: intrusive free lists, one per size, and a bump
  pointer into space obtained from the virtual memory system. The lock is dropped
  while space is being obtained, so other threads may change everything meanwhile.
*/
module Kalloc {
  import opened Prelude
  import opened Sums

  const MINSIZE := 4
  const KLIST_MAX := 13

  function Size(i: nat): (r: nat)
    ensures r >= MINSIZE
  {
    if i == 0 then MINSIZE else 2 * Size(i - 1)
  }

  lemma {:induction false} SizeMono(i: nat, j: nat)
    requires i < j
    ensures Size(i) < Size(j)
  {
    if i + 1 < j { SizeMono(i, j - 1); }
  }

  /** `i` is the smallest class whose blocks hold `size` bytes. */
  ghost predicate IsClass(size: nat, i: nat) {
    size <= Size(i) && forall j :: 0 <= j < i ==> Size(j) < size
  }

  /** Requests served from the lists, where blocks must be smaller than `max`. */
  ghost predicate Small(size: nat, max: nat) {
    size < max && exists i :: IsClass(size, i) && Size(i) < max
  }

  /** Allocation and release agree on the class, because there is only one. */
  lemma ClassUnique(size: nat, i: nat, j: nat)
    requires IsClass(size, i) && IsClass(size, j)
    ensures i == j
  {
  }

  lemma LargestSize()
    ensures Size(12) == 16 * 1024
  {
    assert Size(4) == 64;
    assert Size(8) == 16 * Size(4);
    assert Size(12) == 16 * Size(8);
  }

  /** The list array is long enough for every class that is ever used to index it. */
  lemma {:induction false} ListInRange(i: nat)
    ensures Size(i) < 16 * 1024 <==> i < KLIST_MAX - 1
  {
    LargestSize();
    if i > 12 { SizeMono(12, i); } else if i < 12 { SizeMono(i, 12); }
  }

  /** An address range. */
  datatype Region = Region(lo: nat, len: nat)

  predicate Disjoint(a: Region, b: Region) {
    a.lo + a.len <= b.lo || b.lo + b.len <= a.lo
  }

  /**
    The allocator. `carved` gives the class of every block ever cut from the space, `free` the
    members of each list, head first, and `mapped` counts the space obtained.
  */
  datatype State = State(
    heads: seq<nat>,
    mem: map<nat, nat>,
    next: nat,
    end: nat,
    wasted: nat,
    carved: map<nat, nat>,
    free: seq<seq<nat>>,
    live: set<nat>,
    mapped: nat)

  function Block(s: State, a: nat): Region
    requires a in s.carved
  {
    Region(a, Size(s.carved[a]))
  }

  ghost predicate Shape(s: State) {
    |s.heads| == KLIST_MAX && |s.free| == KLIST_MAX && 0 < s.next <= s.end
  }

  /** List `i` is threaded through the first words of its blocks. */
  ghost predicate HeadAt(s: State, i: nat) {
    i < |s.heads| && i < |s.free| ==> s.heads[i] == if s.free[i] == [] then 0 else s.free[i][0]
  }

  ghost predicate ChainAt(s: State, i: nat, k: nat) {
    i < |s.free| && k < |s.free[i]| ==>
      var a := s.free[i][k];
      a in s.carved && s.carved[a] == i && a in s.mem && s.mem[a] == if k + 1 < |s.free[i]| then s.free[i][k + 1] else 0
  }

  ghost predicate OnceAt(s: State, i: nat, j: nat, k: nat) {
    i < |s.free| && j < k < |s.free[i]| ==> s.free[i][j] != s.free[i][k]
  }

  /** Every block is in use or on its list, and not both. */
  ghost predicate OwnedAt(s: State, a: nat) {
    (a in s.carved ==> a > 0 && s.carved[a] < |s.free| && (a in s.live <==> a !in s.free[s.carved[a]]))
    && (a in s.live ==> a in s.carved)
  }

  ghost predicate ApartAt(s: State, a: nat, b: nat) {
    a in s.carved && b in s.carved && a != b ==> Disjoint(Block(s, a), Block(s, b))
  }

  ghost predicate TailAt(s: State, a: nat) {
    a in s.carved ==> a + Size(s.carved[a]) <= s.next || a >= s.end
  }

  /** Space some thread has mapped and not yet brought in overlaps nothing. */
  ghost predicate HeldAt(s: State, r: Region, a: nat) {
    a in s.carved ==> Disjoint(Block(s, a), r)
  }

  ghost predicate HeldOk(s: State, held: set<Region>, r: Region) {
    r in held ==> r.lo > 0 && r.len > 0 && (r.lo + r.len <= s.next || r.lo >= s.end) && forall a :: HeldAt(s, r, a)
  }

  ghost predicate HeldApart(held: set<Region>, r: Region, q: Region) {
    r in held && q in held && r != q ==> Disjoint(r, q)
  }

  ghost function CarvedBytes(s: State): int {
    Total(s.carved, (i: nat) => Size(i))
  }

  ghost predicate Inv(s: State, held: set<Region>) {
    Shape(s) && s.mapped == CarvedBytes(s) + (s.end - s.next) + s.wasted
    && (forall i :: HeadAt(s, i)) && (forall i, k :: ChainAt(s, i, k)) && (forall i, j, k :: OnceAt(s, i, j, k))
    && (forall a :: OwnedAt(s, a)) && (forall a, b :: ApartAt(s, a, b)) && (forall a :: TailAt(s, a))
    && (forall r :: HeldOk(s, held, r)) && forall r, q :: HeldApart(held, r, q)
  }

  // ---------- the elementary changes ----------

  function Popped(s: State, i: nat): State
    requires i < |s.heads| && i < |s.free| && s.free[i] != [] && s.heads[i] in s.mem
  {
    s.(heads := s.heads[i := s.mem[s.heads[i]]], free := s.free[i := s.free[i][1..]], live := s.live + {s.heads[i]})
  }

  /** Taking the head of a list makes a free block live. */
  lemma PoppedInv(s: State, held: set<Region>, i: nat)
    requires Inv(s, held) && i < KLIST_MAX && s.heads[i] != 0
    ensures s.free[i] != [] && s.heads[i] in s.mem && s.heads[i] in s.carved && s.carved[s.heads[i]] == i
    ensures s.heads[i] !in s.live
    ensures Inv(Popped(s, i), held)
  {
    assert HeadAt(s, i) && ChainAt(s, i, 0);
    var a := s.heads[i];
    assert OwnedAt(s, a);
    var s' := Popped(s, i);
    assert s'.free[i] == s.free[i][1..];
    forall j ensures HeadAt(s', j) { assert HeadAt(s, j); }
    forall j: nat, k: nat ensures ChainAt(s', j, k) { assert ChainAt(s, j, k) && ChainAt(s, j, k + 1); }
    forall j: nat, k: nat, m: nat ensures OnceAt(s', j, k, m) {
      assert OnceAt(s, j, k, m) && OnceAt(s, j, k + 1, m + 1);
    }
    forall b ensures OwnedAt(s', b) { assert OwnedAt(s, b); PopMember(s, i, b); }
    forall b, c ensures ApartAt(s', b, c) { assert ApartAt(s, b, c); }
    forall b ensures TailAt(s', b) { assert TailAt(s, b); }
    forall r ensures HeldOk(s', held, r) { HeldSame(s, s', held, r); }
  }

  lemma PopMember(s: State, i: nat, b: nat)
    requires i < |s.free| && s.free[i] != [] && forall j, k, m :: OnceAt(s, j, k, m)
    ensures b in s.free[i][1..] <==> b in s.free[i] && b != s.free[i][0]
  {
    if b in s.free[i] && b != s.free[i][0] {
      var k: nat :| k < |s.free[i]| && s.free[i][k] == b;
      assert s.free[i][1..][k - 1] == b;
    }
    if b in s.free[i][1..] {
      var k: nat :| k < |s.free[i]| - 1 && s.free[i][1..][k] == b;
      assert OnceAt(s, i, 0, k + 1);
    }
  }

  /** Held space is unaffected by what happens to the lists. */
  lemma HeldSame(s: State, s': State, held: set<Region>, r: Region)
    requires s'.carved == s.carved && s'.next == s.next && s'.end == s.end && HeldOk(s, held, r)
    ensures HeldOk(s', held, r)
  {
    if r in held {
      forall a ensures HeldAt(s', r, a) { assert HeldAt(s, r, a); }
    }
  }

  function Pushed(s: State, i: nat, a: nat): State
    requires i < |s.heads| && i < |s.free|
  {
    s.(mem := s.mem[a := s.heads[i]], heads := s.heads[i := a],
       free := s.free[i := [a] + s.free[i]], live := s.live - {a})
  }

  /** Releasing a live block to its own list. */
  lemma PushedInv(s: State, held: set<Region>, i: nat, a: nat)
    requires Inv(s, held) && a in s.live && a in s.carved && s.carved[a] == i
    ensures i < KLIST_MAX && Inv(Pushed(s, i, a), held)
  {
    assert OwnedAt(s, a) && HeadAt(s, i);
    var s' := Pushed(s, i, a);
    assert s'.free[i] == [a] + s.free[i];
    forall j ensures HeadAt(s', j) { assert HeadAt(s, j); }
    forall j: nat, k: nat ensures ChainAt(s', j, k) { PushChain(s, held, i, a, j, k); }
    forall j: nat, k: nat, m: nat ensures OnceAt(s', j, k, m) {
      assert OnceAt(s, j, k, m);
      if j == i && k < m < |s'.free[i]| && k > 0 { assert OnceAt(s, j, k - 1, m - 1); }
    }
    forall b ensures OwnedAt(s', b) { assert OwnedAt(s, b); }
    forall b, c ensures ApartAt(s', b, c) { assert ApartAt(s, b, c); }
    forall b ensures TailAt(s', b) { assert TailAt(s, b); }
    forall r ensures HeldOk(s', held, r) { HeldSame(s, s', held, r); }
  }

  lemma PushChain(s: State, held: set<Region>, i: nat, a: nat, j: nat, k: nat)
    requires Inv(s, held) && a in s.live && a in s.carved && s.carved[a] == i
    ensures i < KLIST_MAX && ChainAt(Pushed(s, i, a), j, k)
  {
    assert OwnedAt(s, a) && HeadAt(s, i) && ChainAt(s, j, k);
    if j == i && 0 < k <= |s.free[i]| { assert ChainAt(s, j, k - 1); }
  }

  /** Releasing a block and allocating from its class again gives the block back; only its first word was written. */
  lemma PopUndoesPush(s: State, held: set<Region>, i: nat, a: nat)
    requires Inv(s, held) && a in s.live && a in s.carved && s.carved[a] == i
    ensures i < KLIST_MAX && a != 0 && Pushed(s, i, a).heads[i] == a
    ensures Popped(Pushed(s, i, a), i) == s.(mem := s.mem[a := s.heads[i]])
  {
    assert OwnedAt(s, a);
    var p := Pushed(s, i, a);
    assert p.free[i][1..] == s.free[i];
    assert p.heads[i := s.heads[i]] == s.heads;
    assert p.free[i := s.free[i]] == s.free;
    assert s.live - {a} + {a} == s.live;
  }

  function Carve(s: State, i: nat): State {
    s.(carved := s.carved[s.next := i], live := s.live + {s.next}, next := s.next + Size(i))
  }

  /** Cutting a block off the front of the space makes it live; it overlaps no other block. */
  lemma {:induction false} CarveInv(s: State, held: set<Region>, i: nat)
    requires Inv(s, held) && i < KLIST_MAX && s.next + Size(i) <= s.end
    ensures s.next !in s.carved && Inv(Carve(s, i), held)
  {
    var a := s.next;
    assert TailAt(s, a);
    TotalUpdate(s.carved, a, i, (i: nat) => Size(i));
    var s' := Carve(s, i);
    assert OwnedAt(s, a);
    forall j ensures HeadAt(s', j) { assert HeadAt(s, j); }
    forall j: nat, k: nat ensures ChainAt(s', j, k) { assert ChainAt(s, j, k); }
    forall j: nat, k: nat, m: nat ensures OnceAt(s', j, k, m) { assert OnceAt(s, j, k, m); }
    forall b ensures OwnedAt(s', b) { assert OwnedAt(s, b); CarveOwned(s, held, i, b); }
    forall b, c ensures ApartAt(s', b, c) { assert ApartAt(s, b, c) && TailAt(s, b) && TailAt(s, c); }
    forall b ensures TailAt(s', b) { assert TailAt(s, b); }
    forall r ensures HeldOk(s', held, r) {
      assert HeldOk(s, held, r);
      if r in held {
        forall b ensures HeldAt(s', r, b) { assert HeldAt(s, r, b); }
      }
    }
  }

  lemma CarveOwned(s: State, held: set<Region>, i: nat, b: nat)
    requires Inv(s, held) && i < KLIST_MAX && s.next !in s.carved && OwnedAt(s, b)
    ensures OwnedAt(Carve(s, i), b)
  {
    forall k: nat | k < |s.free[i]| ensures s.free[i][k] != s.next { assert ChainAt(s, i, k); }
  }

  /** Bringing in space mapped earlier: contiguous space extends the tail, other space replaces it. */
  function Installed(s: State, r: Region): State
    requires s.next <= s.end
  {
    if r.lo == s.end then s.(end := r.lo + r.len, mapped := s.mapped + r.len)
    else s.(wasted := s.wasted + (s.end - s.next), next := r.lo, end := r.lo + r.len, mapped := s.mapped + r.len)
  }

  lemma InstalledInv(s: State, held: set<Region>, r: Region)
    requires Inv(s, held) && r in held
    ensures Inv(Installed(s, r), held - {r})
  {
    var s' := Installed(s, r);
    assert HeldOk(s, held, r);
    forall j ensures HeadAt(s', j) { assert HeadAt(s, j); }
    forall j: nat, k: nat ensures ChainAt(s', j, k) { assert ChainAt(s, j, k); }
    forall j: nat, k: nat, m: nat ensures OnceAt(s', j, k, m) { assert OnceAt(s, j, k, m); }
    forall b ensures OwnedAt(s', b) { assert OwnedAt(s, b); }
    forall b, c ensures ApartAt(s', b, c) { assert ApartAt(s, b, c); }
    forall b ensures TailAt(s', b) { assert TailAt(s, b) && HeldAt(s, r, b); }
    forall q ensures HeldOk(s', held - {r}, q) {
      assert HeldOk(s, held, q) && HeldApart(held, q, r);
      if q in held - {r} {
        forall b ensures HeldAt(s', q, b) { assert HeldAt(s, q, b); }
      }
    }
    forall q, p ensures HeldApart(held - {r}, q, p) { assert HeldApart(held, q, p); }
  }

  /** A client may write the words of its own blocks without disturbing any list. */
  lemma ClientWriteInv(s: State, held: set<Region>, a: nat, w: nat, v: nat)
    requires Inv(s, held) && a in s.live && a in s.carved && a <= w && w + MINSIZE <= a + Size(s.carved[a])
    ensures Inv(s.(mem := s.mem[w := v]), held)
  {
    var s' := s.(mem := s.mem[w := v]);
    forall j ensures HeadAt(s', j) { assert HeadAt(s, j); }
    forall j: nat, k: nat ensures ChainAt(s', j, k) {
      assert ChainAt(s, j, k);
      if j < |s.free| && k < |s.free[j]| { assert ApartAt(s, a, s.free[j][k]) && OwnedAt(s, a); }
    }
    forall j: nat, k: nat, m: nat ensures OnceAt(s', j, k, m) { assert OnceAt(s, j, k, m); }
    forall b ensures OwnedAt(s', b) { assert OwnedAt(s, b); }
    forall b, c ensures ApartAt(s', b, c) { assert ApartAt(s, b, c); }
    forall b ensures TailAt(s', b) { assert TailAt(s, b); }
    forall r ensures HeldOk(s', held, r) { HeldSame(s, s', held, r); }
  }

  // ---------- the accounts ----------

  ghost function LiveBytes(s: State): int {
    Total(Part(s.carved, s.live, true), (i: nat) => Size(i))
  }

  ghost function FreeBytes(s: State): int {
    Total(Part(s.carved, s.live, false), (i: nat) => Size(i))
  }

  /** The part of a map inside, or outside, a set of keys. */
  ghost function Part(m: map<nat, nat>, live: set<nat>, inside: bool): map<nat, nat> {
    map a | a in m && (a in live <==> inside) :: m[a]
  }

  lemma PartRemove(m: map<nat, nat>, live: set<nat>, inside: bool, k: nat, w: nat -> int)
    requires k in m
    ensures Total(Part(m, live, inside), w)
         == Total(Part(m - {k}, live, inside), w) + if k in live <==> inside then w(m[k]) else 0
  {
    var p := Part(m, live, inside);
    if k in live <==> inside {
      TotalRemove(p, k, w);
      assert p - {k} == Part(m - {k}, live, inside);
    } else {
      assert p == Part(m - {k}, live, inside);
    }
  }

  lemma {:induction false} TotalSplit(m: map<nat, nat>, live: set<nat>, w: nat -> int)
    ensures Total(m, w) == Total(Part(m, live, true), w) + Total(Part(m, live, false), w)
    decreases |m|
  {
    if m == map[] {
      assert Part(m, live, true) == map[] && Part(m, live, false) == map[];
    } else {
      var k :| k in m;
      TotalRemove(m, k, w);
      TotalSplit(m - {k}, live, w);
      PartRemove(m, live, true, k, w);
      PartRemove(m, live, false, k, w);
    }
  }

  /** All the space ever brought in is live, free, in the tail or written off. */
  lemma Accounts(s: State, held: set<Region>)
    requires Inv(s, held)
    ensures s.mapped == LiveBytes(s) + FreeBytes(s) + (s.end - s.next) + s.wasted
  {
    TotalSplit(s.carved, s.live, (i: nat) => Size(i));
  }

  // ---------- the allocator ----------

  class Allocator {
    const page: nat
    var heads: seq<nat>
    var mem: map<nat, nat>
    var next: nat
    var end: nat
    var wasted: nat
    ghost var carved: map<nat, nat>
    ghost var free: seq<seq<nat>>
    ghost var live: set<nat>
    ghost var mapped: nat

    ghost function S(): State
      reads this
    {
      State(heads, mem, next, end, wasted, carved, free, live, mapped)
    }

    function Max(): nat {
      if page > 16 * 1024 then 16 * 1024 else page
    }

    /** kalloc_init */
    constructor (page: nat)
      requires page > 0
      ensures this.page == page && Inv(S(), {}) && live == {} && mapped == 0
    {
      this.page := page;
      heads, mem := seq(KLIST_MAX, _ => 0), map[];
      next, end, wasted := page, page, 0;
      carved, free, live, mapped := map[], seq(KLIST_MAX, _ => []), {}, 0;
    }

    /** The doubling loop that kalloc and kfree share. */
    method SizeClass(size: nat) returns (allocsize: nat, i: nat)
      ensures allocsize == Size(i) && IsClass(size, i)
    {
      allocsize, i := MINSIZE, 0;
      while allocsize < size
        invariant allocsize == Size(i) && forall j :: 0 <= j < i ==> Size(j) < size
        decreases size - allocsize
      {
        allocsize := 2 * allocsize;
        i := i + 1;
      }
    }

    /** What the state is after the lock has been dropped and taken again. */
    method Adopt(s: State)
      modifies this
      ensures S() == s
    {
      heads, mem, next, end, wasted := s.heads, s.mem, s.next, s.end, s.wasted;
      carved, free, live, mapped := s.carved, s.free, s.live, s.mapped;
    }

    method Install(r: Region)
      requires next <= end
      modifies this
      ensures S() == Installed(old(S()), r)
    {
      if r.lo != end {
        wasted := wasted + (end - next);
        next := r.lo;
      }
      end := r.lo + r.len;
      mapped := mapped + r.len;
    }

    /**
      The loop of kget_space. If the tail is too short the lock is dropped, `vm` is the virtual memory
      system's answer, and `others` is what other threads have made of the allocator by the time the
      lock is taken again. One answer is always enough.
    */
    method FindSpace(size: nat, vm: Option<nat>, others: State) returns (ok: bool, ghost phase: int)
      requires page > 0 && next <= end && others.next <= others.end
      modifies this
      ensures 0 <= phase <= 2 && (phase == 0 <==> old(next) + size <= old(end)) && (!ok <==> phase > 0 && vm.None?)
      ensures !ok ==> S() == others
      ensures ok ==> next + size <= end
      ensures ok && phase == 0 ==> S() == old(S())
      ensures ok && phase == 1 ==> S() == others
      ensures ok && phase == 2 ==> S() == Installed(others, Region(vm.value, RoundUp(size, page)))
    {
      PageCovers(page, size);
      var newSpace: Option<nat> := None;
      phase := 0;
      while next + size > end
        invariant 0 <= phase <= 2
        invariant phase > 0 ==> old(next) + size > old(end) && vm.Some?
        invariant phase == 0 ==> S() == old(S()) && newSpace.None?
        invariant phase == 1 ==> newSpace == vm && S() == others
        invariant phase == 2 ==>
          newSpace.None? && S() == Installed(others, Region(vm.value, RoundUp(size, page))) && next + size <= end
        decreases 2 - phase
      {
        if newSpace.None? {
          Adopt(others);
          phase := 1;
          if vm.None? { return false, phase; }
          newSpace := vm;
        } else {
          Install(Region(newSpace.value, RoundUp(size, page)));
          newSpace := None;
          phase := 2;
        }
      }
      return true, phase;
    }

    /** Cutting a block of class `i` off the front of the tail. */
    method Cut(i: nat) returns (addr: nat)
      modifies this
      ensures addr == old(next) && S() == Carve(old(S()), i)
    {
      addr := next;
      next := next + Size(i);
      carved, live := carved[addr := i], live + {addr};
    }

    /** kget_space; `held` is the space that other threads hold. */
    method GetSpace(i: nat, size: nat, vm: Option<nat>, others: State, ghost held: set<Region>)
      returns (addr: nat, ghost pre: State)
      requires page > 0 && i < KLIST_MAX && size == Size(i) && Inv(S(), held)
      requires vm.None? ==> Inv(others, held)
      requires vm.Some? ==>
        var r := Region(vm.value, RoundUp(size, page));
        r !in held && Inv(others, held + {r})
      modifies this
      ensures Inv(S(), held) && (addr == 0 <==> old(next) + size > old(end) && vm.None?)
      ensures addr == 0 ==> S() == others
      ensures addr != 0 ==> S() == Carve(pre, i) && addr == pre.next && pre.next !in pre.carved && pre.next !in pre.live
      ensures addr != 0 ==> SameBlocks(if old(next) + size <= old(end) then old(S()) else others, pre)
    {
      var ok;
      ghost var phase;
      ok, phase := FindSpace(size, vm, others);
      pre := S();
      if !ok { return 0, pre; }
      SpaceReady(others, held, Region(if vm.Some? then vm.value else 0, RoundUp(size, page)), phase, pre);
      CarveInv(pre, held, i);
      assert OwnedAt(pre, pre.next);
      addr := Cut(i);
    }

    /** The bytes actually allocated for a request, and the list they come from when there is one. */
    method Plan(size: nat) returns (allocsize: nat, i: nat)
      ensures size <= allocsize && (allocsize < Max() ==> i < KLIST_MAX && allocsize == Size(i) && IsClass(size, i))
      ensures allocsize < Max() <==> Small(size, Max())
    {
      if size >= Max() { return size, 0; }
      allocsize, i := SizeClass(size);
      ListInRange(i);
      forall j | IsClass(size, j) ensures j == i { ClassUnique(size, i, j); }
    }

    /**
      kalloc; `vm` is the virtual memory system's answer if it has to be asked, for a page or for a
      large block. `mine` are blocks that the other threads leave alone while the lock is dropped.
    */
    method Alloc(size: nat, vm: Option<nat>, others: State, ghost held: set<Region>, ghost mine: set<nat>)
      returns (addr: nat, asked: nat, ghost pre: State)
      requires page > 0 && Inv(S(), held) && (vm.Some? ==> vm.value > 0)
      requires vm.None? ==> Inv(others, held)
      requires vm.Some? ==>
        var r := Region(vm.value, RoundUp(1, page));
        r !in held && Inv(others, held + {r})
      requires mine <= live && Keeps(S(), others, mine)
      modifies this
      ensures Inv(S(), held) && Keeps(old(S()), S(), mine)
      ensures asked >= size && (asked < Max() <==> Small(size, Max()))
      ensures asked >= Max() ==> S() == old(S()) && addr == (if vm.Some? then vm.value else 0)
      ensures asked < Max() && addr == 0 ==> vm.None? && S() == others
      ensures asked < Max() && addr != 0 ==> IsNewBlock(pre, S(), addr, size, asked)
      ensures asked < Max() && addr != 0 ==> SameBlocks(old(S()), pre) || SameBlocks(others, pre)
      ensures asked < Max() && addr != 0 ==>
        forall a :: a in mine ==> a in carved && Disjoint(Region(addr, asked), Block(S(), a))
    {
      pre := S();
      KeepsSelf(pre, held, mine);
      var allocsize, i := Plan(size);
      if allocsize >= Max() { return if vm.Some? then vm.value else 0, allocsize, pre; }
      OnePage(page, allocsize);
      addr, pre := Take(i, allocsize, size, vm, others, held);
      if addr == 0 { return 0, allocsize, pre; }
      ghost var was := old(S());
      if SameBlocks(was, pre) { KeepsSame(was, was, pre, mine); } else { KeepsSame(was, others, pre, mine); }
      NewBlockKeeps(was, pre, S(), held, mine, addr, size, allocsize);
      return addr, allocsize, pre;
    }

    /** A block from list `i`, or else a new one. */
    method Take(i: nat, allocsize: nat, ghost size: nat, vm: Option<nat>, others: State, ghost held: set<Region>)
      returns (addr: nat, ghost pre: State)
      requires page > 0 && i < KLIST_MAX && allocsize == Size(i) && IsClass(size, i) && Inv(S(), held)
      requires vm.None? ==> Inv(others, held)
      requires vm.Some? ==>
        var r := Region(vm.value, RoundUp(allocsize, page));
        r !in held && Inv(others, held + {r})
      modifies this
      ensures Inv(S(), held)
      ensures addr == 0 ==> vm.None? && S() == others
      ensures addr != 0 ==> IsNewBlock(pre, S(), addr, size, allocsize)
      ensures addr != 0 ==> SameBlocks(old(S()), pre) || SameBlocks(others, pre)
    {
      pre := S();
      if heads[i] != 0 {
        addr := Pop(i, held);
      } else {
        addr, pre := GetSpace(i, allocsize, vm, others, held);
      }
    }

    /** Taking the head of list `i`. */
    method Pop(i: nat, ghost held: set<Region>) returns (addr: nat)
      requires Inv(S(), held) && i < KLIST_MAX && heads[i] != 0
      modifies this
      ensures Inv(S(), held) && addr == old(heads)[i]
      ensures live == old(live) + {addr} && addr !in old(live) && mem == old(mem) && carved == old(carved)
      ensures addr in carved && carved[addr] == i && addr != 0
    {
      PoppedInv(S(), held, i);
      ghost var s := S();
      addr := heads[i];
      heads := heads[i := mem[addr]];
      free, live := free[i := free[i][1..]], live + {addr};
      assert S() == Popped(s, i);
    }

    /** kfree, with the size the block was allocated with. Every other live block stays as it is. */
    method Free(addr: nat, size: nat, ghost held: set<Region>) returns (unmapped: nat)
      requires page > 0 && Inv(S(), held)
      requires Small(size, Max()) ==> addr in live && addr in carved && IsClass(size, carved[addr])
      modifies this
      ensures Inv(S(), held) && Keeps(old(S()), S(), old(live) - {addr})
      ensures unmapped > 0 ==> unmapped >= size && S() == old(S())
      ensures unmapped == 0 <==> Small(size, Max())
      ensures unmapped == 0 ==>
        addr in old(carved) && old(carved)[addr] < |old(heads)| && old(carved)[addr] < |old(free)|
      ensures unmapped == 0 ==> S() == Pushed(old(S()), old(carved)[addr], addr)
    {
      var freesize, i := Plan(size);
      ghost var s := S();
      KeepsSelf(s, held, live - {addr});
      if freesize >= Max() { return freesize; }
      ClassUnique(size, i, carved[addr]);
      PushedInv(s, held, i, addr);
      PushKeeps(s, held, i, addr);
      mem := mem[addr := heads[i]];
      heads := heads[i := addr];
      free, live := free[i := [addr] + free[i]], live - {addr};
      assert S() == Pushed(s, i, addr);
      return 0;
    }
  }

  // ---------- what a thread knows of its own blocks ----------

  ghost predicate SameBlocks(s: State, s': State) {
    s'.live == s.live && s'.mem == s.mem && s'.carved == s.carved
  }

  ghost predicate SameWord(s: State, s': State, w: nat) {
    (w in s.mem <==> w in s'.mem) && (w in s.mem ==> s'.mem[w] == s.mem[w])
  }

  ghost predicate KeepsAt(s: State, s': State, a: nat) {
    a in s.live && a in s.carved && a in s'.live && a in s'.carved && s'.carved[a] == s.carved[a]
    && forall w: nat :: a <= w < a + Size(s.carved[a]) ==> SameWord(s, s', w)
  }

  /** The blocks of `mine` stay live and keep their class and every word in them. */
  ghost predicate Keeps(s: State, s': State, mine: set<nat>) {
    forall a :: a in mine ==> KeepsAt(s, s', a)
  }

  lemma KeepsSelf(s: State, held: set<Region>, mine: set<nat>)
    requires Inv(s, held) && mine <= s.live
    ensures Keeps(s, s, mine)
  {
    forall a | a in mine ensures KeepsAt(s, s, a) { assert OwnedAt(s, a); }
  }

  lemma KeepsSame(s: State, mid: State, s': State, mine: set<nat>)
    requires Keeps(s, mid, mine) && SameBlocks(mid, s')
    ensures Keeps(s, s', mine)
  {
    forall a | a in mine ensures KeepsAt(s, s', a) {
      assert KeepsAt(s, mid, a);
      forall w: nat | a <= w < a + Size(s.carved[a]) ensures SameWord(s, s', w) { assert SameWord(s, mid, w); }
    }
  }

  /** A new block is none of the blocks kept so far and overlaps none of them. */
  lemma NewBlockKeeps(was: State, pre: State, s: State, held: set<Region>, mine: set<nat>, a: nat, size: nat,
                      asked: nat)
    requires Keeps(was, pre, mine) && Inv(s, held) && IsNewBlock(pre, s, a, size, asked)
    ensures Keeps(was, s, mine)
    ensures forall b :: b in mine ==> b in s.carved && Disjoint(Region(a, asked), Block(s, b))
  {
    forall b | b in mine ensures KeepsAt(was, s, b) {
      assert KeepsAt(was, pre, b);
      forall w: nat | b <= w < b + Size(was.carved[b]) ensures SameWord(was, s, w) { assert SameWord(was, pre, w); }
    }
    forall b | b in mine ensures b in s.carved && Disjoint(Region(a, asked), Block(s, b)) {
      assert KeepsAt(was, pre, b) && ApartAt(s, a, b);
    }
  }

  /** Releasing a block writes no word of another live block. */
  lemma PushKeeps(s: State, held: set<Region>, i: nat, a: nat)
    requires Inv(s, held) && a in s.live && a in s.carved && s.carved[a] == i && i < KLIST_MAX
    ensures Keeps(s, Pushed(s, i, a), s.live - {a})
  {
    var s' := Pushed(s, i, a);
    forall b | b in s.live - {a} ensures KeepsAt(s, s', b) {
      assert OwnedAt(s, b) && ApartAt(s, a, b);
      forall w: nat | b <= w < b + Size(s.carved[b]) ensures SameWord(s, s', w) { assert w != a; }
    }
  }

  /** `a` was not in use, now is, and is large enough; no word of memory and no other block has changed. */
  ghost predicate IsNewBlock(pre: State, s: State, a: nat, size: nat, asked: nat) {
    a !in pre.live && s.live == pre.live + {a} && s.mem == pre.mem
    && a in s.carved && IsClass(size, s.carved[a]) && asked == Size(s.carved[a])
    && forall b :: b in pre.carved ==> b in s.carved && s.carved[b] == pre.carved[b]
  }

  /** Small requests always ask for exactly one page. */
  lemma OnePage(page: nat, n: nat)
    requires 0 < n < page
    ensures RoundUp(n, page) == page && RoundUp(1, page) == page
  {
    assert (n + page - 1) / page == 1;
  }

  lemma PageCovers(page: nat, n: nat)
    requires page > 0
    ensures RoundUp(n, page) >= n
  {
  }

  /** Whichever way the space was found, the state it is cut from is sound. */
  lemma SpaceReady(others: State, held: set<Region>, r: Region, phase: int, s: State)
    requires phase == 0 ==> Inv(s, held)
    requires phase == 1 ==> r !in held && Inv(others, held + {r}) && s == others
    requires phase == 2 ==> r !in held && Inv(others, held + {r}) && s == Installed(others, r)
    requires 0 <= phase <= 2
    ensures Inv(s, held) && s.next > 0
  {
    if phase == 1 {
      HeldLess(s, held + {r}, held);
    } else if phase == 2 {
      InstalledInv(others, held + {r}, r);
      assert held + {r} - {r} == held;
    }
  }

  lemma HeldLess(s: State, held: set<Region>, less: set<Region>)
    requires Inv(s, held) && less <= held
    ensures Inv(s, less)
  {
    forall r ensures HeldOk(s, less, r) { assert HeldOk(s, held, r); }
    forall r, q ensures HeldApart(less, r, q) { assert HeldApart(held, r, q); }
  }
}
