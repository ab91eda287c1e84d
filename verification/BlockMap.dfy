/**
  The boot-time file reader: an inode's direct and indirect blocks, the walk through
  them with a one-block cache per level, and byte-range reads on top. The numbers of
  direct blocks, of levels and of pointers per block are parameters.
*/
module BlockMap {
  import opened Prelude

  /** Disk block numbers: a signed word that is not negative; 0 is a hole. */
  type Daddr = x: nat | x < 0x8000_0000

  /** A disk block, read as pointers when it is an index block and as bytes when it is data. */
  datatype Content = Content(words: seq<Daddr>, bytes: seq<byte>)

  datatype Layout = Layout(direct: nat, levels: nat, nindir: nat, bsize: nat)

  datatype Inode = Inode(size: nat, blocks: seq<Daddr>)

  /** Reads of blocks outside the map fail. */
  type Device = map<Daddr, Content>

  datatype Mapping = Mapped(b: Daddr) | NotInFile | DeviceError

  function Pow(n: nat, k: nat): nat {
    if k == 0 then 1 else n * Pow(n, k - 1)
  }

  lemma {:induction false} PowPositive(n: nat, k: nat)
    requires n > 0
    ensures Pow(n, k) > 0
  {
    if k > 0 {
      PowPositive(n, k - 1);
      assert n * Pow(n, k - 1) > 0;
    }
  }

  lemma TimesAtLeast(n: nat, p: nat)
    requires n > 0
    ensures n * p >= p
  {
  }

  lemma {:induction false} PowMono(n: nat, j: nat, k: nat)
    requires n > 0 && j <= k
    ensures Pow(n, j) <= Pow(n, k)
  {
    if j < k {
      PowMono(n, j, k - 1);
      TimesAtLeast(n, Pow(n, k - 1));
    }
  }

  ghost predicate DeviceOk(l: Layout, dev: Device) {
    forall b :: b in dev ==> |dev[b].words| == l.nindir && |dev[b].bytes| == l.bsize
  }

  /** Pointers fit a block, and the level table fits a signed word. */
  ghost predicate LayoutOk(l: Layout) {
    l.nindir > 0 && l.bsize > 0 && Pow(l.nindir, l.levels) < 0x8000_0000
  }

  // ---------- the uncached walk ----------

  /** The quotient and remainder by which one level of the tree is chosen. */
  lemma Digit(n: nat, k: nat, fb: nat)
    requires n > 0 && k > 0 && fb < Pow(n, k)
    ensures Pow(n, k - 1) > 0 && fb / Pow(n, k - 1) < n && fb % Pow(n, k - 1) < Pow(n, k - 1)
  {
    PowPositive(n, k - 1);
    var p := Pow(n, k - 1);
    var q := fb / p;
    assert fb == q * p + fb % p;
    assert q < n || q * p >= n * p;
  }

  /** Block `fb` of the tree of height `k` rooted at `b`; a null pointer anywhere is a hole. */
  function Walk(l: Layout, dev: Device, b: Daddr, k: nat, fb: nat): Mapping
    requires LayoutOk(l) && DeviceOk(l, dev) && fb < Pow(l.nindir, k)
    decreases k
  {
    if k == 0 then Mapped(b)
    else if b == 0 then Mapped(0)
    else if b !in dev then DeviceError
    else
      Digit(l.nindir, k, fb);
      Walk(l, dev, dev[b].words[fb / Pow(l.nindir, k - 1)], k - 1, fb % Pow(l.nindir, k - 1))
  }

  /** Block `fb` counted from the start of the trees of heights `level`+1 and up. */
  function InTrees(l: Layout, dev: Device, roots: seq<Daddr>, level: nat, fb: nat): Mapping
    requires LayoutOk(l) && DeviceOk(l, dev) && level <= l.levels && |roots| == l.levels
    decreases l.levels - level
  {
    if level == l.levels then NotInFile
    else if fb < Pow(l.nindir, level + 1) then Walk(l, dev, roots[level], level + 1, fb)
    else InTrees(l, dev, roots, level + 1, fb - Pow(l.nindir, level + 1))
  }

  ghost predicate InodeOk(l: Layout, ino: Inode) {
    |ino.blocks| == l.direct + l.levels
  }

  function Lookup(l: Layout, dev: Device, ino: Inode, fb: nat): Mapping
    requires LayoutOk(l) && DeviceOk(l, dev) && InodeOk(l, ino)
  {
    if fb < l.direct then Mapped(ino.blocks[fb])
    else InTrees(l, dev, ino.blocks[l.direct..], 0, fb - l.direct)
  }

  /** Blocks covered by the trees of heights `level`+1 up to `levels`. */
  function Reach(l: Layout, level: nat): nat
    requires level <= l.levels
    decreases l.levels - level
  {
    if level == l.levels then 0 else Pow(l.nindir, level + 1) + Reach(l, level + 1)
  }

  lemma {:induction false} WalkFinds(l: Layout, dev: Device, b: Daddr, k: nat, fb: nat)
    requires LayoutOk(l) && DeviceOk(l, dev) && fb < Pow(l.nindir, k)
    ensures !Walk(l, dev, b, k, fb).NotInFile?
    decreases k
  {
    if k > 0 && b != 0 && b in dev {
      Digit(l.nindir, k, fb);
      WalkFinds(l, dev, dev[b].words[fb / Pow(l.nindir, k - 1)], k - 1, fb % Pow(l.nindir, k - 1));
    }
  }

  lemma {:induction false} TreesReach(l: Layout, dev: Device, roots: seq<Daddr>, level: nat, fb: nat)
    requires LayoutOk(l) && DeviceOk(l, dev) && level <= l.levels && |roots| == l.levels
    ensures InTrees(l, dev, roots, level, fb).NotInFile? <==> fb >= Reach(l, level)
    decreases l.levels - level
  {
    if level < l.levels {
      if fb < Pow(l.nindir, level + 1) {
        WalkFinds(l, dev, roots[level], level + 1, fb);
      } else {
        TreesReach(l, dev, roots, level + 1, fb - Pow(l.nindir, level + 1));
      }
    }
  }

  /** A block is outside the file's map exactly when it is past the direct blocks and all the trees. */
  lemma {:induction false} NotInFileExact(l: Layout, dev: Device, ino: Inode, fb: nat)
    requires LayoutOk(l) && DeviceOk(l, dev) && InodeOk(l, ino)
    ensures Lookup(l, dev, ino, fb).NotInFile? <==> fb >= l.direct + Reach(l, 0)
  {
    if fb >= l.direct { TreesReach(l, dev, ino.blocks[l.direct..], 0, fb - l.direct); }
  }

  /** Twelve direct blocks and three levels: the ranges that the inode's comment lists. */
  lemma {:induction false} Ext2Reach(l: Layout)
    requires l.direct == 12 && l.levels == 3
    ensures var n := l.nindir;
      l.direct + Reach(l, 0) == 12 + n + n * n + n * (n * n)
  {
    var n := l.nindir;
    assert Pow(n, 0) == 1;
    assert Pow(n, 1) == n * Pow(n, 0) == n;
    assert Pow(n, 2) == n * Pow(n, 1);
    assert Pow(n, 3) == n * Pow(n, 2);
    assert Reach(l, 3) == 0;
    assert Reach(l, 2) == Pow(n, 3);
    assert Reach(l, 1) == Pow(n, 2) + Reach(l, 2);
    assert Reach(l, 0) == Pow(n, 1) + Reach(l, 1);
  }

  // ---------- what a file says ----------

  predicate Readable(l: Layout, dev: Device, ino: Inode, fb: nat)
    requires LayoutOk(l) && DeviceOk(l, dev) && InodeOk(l, ino)
  {
    var m := Lookup(l, dev, ino, fb);
    m.Mapped? && (m.b == 0 || m.b in dev)
  }

  /** The bytes of one block of the file, a hole being zeros. */
  function BlockBytes(l: Layout, dev: Device, b: Daddr): seq<byte>
    requires b == 0 || b in dev
  {
    if b == 0 then seq(l.bsize, _ => 0) else dev[b].bytes
  }

  /** The block that holds byte `i` can be read. */
  predicate ReadableAt(l: Layout, dev: Device, ino: Inode, i: nat)
    requires LayoutOk(l) && DeviceOk(l, dev) && InodeOk(l, ino)
  {
    Readable(l, dev, ino, i / l.bsize)
  }

  function FileByte(l: Layout, dev: Device, ino: Inode, i: nat): byte
    requires LayoutOk(l) && DeviceOk(l, dev) && InodeOk(l, ino) && ReadableAt(l, dev, ino, i)
  {
    BlockBytes(l, dev, Lookup(l, dev, ino, i / l.bsize).b)[i % l.bsize]
  }

  /** Bytes [from, to) lie in the file, in blocks that can be read. */
  ghost predicate RangeOk(l: Layout, dev: Device, ino: Inode, from: nat, to: nat)
    requires LayoutOk(l) && DeviceOk(l, dev) && InodeOk(l, ino)
  {
    to <= ino.size && forall i :: from <= i < to ==> ReadableAt(l, dev, ino, i)
  }

  ghost predicate SaysAt(l: Layout, dev: Device, ino: Inode, from: nat, data: seq<byte>, i: nat)
    requires LayoutOk(l) && DeviceOk(l, dev) && InodeOk(l, ino)
  {
    from <= i < from + |data| ==> ReadableAt(l, dev, ino, i) && data[i - from] == FileByte(l, dev, ino, i)
  }

  /** `data` is what the file holds from byte `from` on. */
  ghost predicate Delivers(l: Layout, dev: Device, ino: Inode, from: nat, data: seq<byte>)
    requires LayoutOk(l) && DeviceOk(l, dev) && InodeOk(l, ino)
  {
    forall i :: SaysAt(l, dev, ino, from, data, i)
  }

  lemma DeliversJoin(l: Layout, dev: Device, ino: Inode, from: nat, a: seq<byte>, b: seq<byte>)
    requires LayoutOk(l) && DeviceOk(l, dev) && InodeOk(l, ino)
    requires Delivers(l, dev, ino, from, a) && Delivers(l, dev, ino, from + |a|, b)
    ensures Delivers(l, dev, ino, from, a + b)
  {
    forall i ensures SaysAt(l, dev, ino, from, a + b, i) {
      assert SaysAt(l, dev, ino, from, a, i) && SaysAt(l, dev, ino, from + |a|, b, i);
    }
  }

  lemma DeliversOk(l: Layout, dev: Device, ino: Inode, from: nat, data: seq<byte>)
    requires LayoutOk(l) && DeviceOk(l, dev) && InodeOk(l, ino)
    requires Delivers(l, dev, ino, from, data) && from + |data| <= ino.size
    ensures RangeOk(l, dev, ino, from, from + |data|)
  {
    forall i | from <= i < from + |data| ensures ReadableAt(l, dev, ino, i) {
      assert SaysAt(l, dev, ino, from, data, i);
    }
  }

  /** A stretch of one block's bytes is what the file says there. */
  lemma BlockDelivers(l: Layout, dev: Device, ino: Inode, at: nat, data: seq<byte>)
    requires LayoutOk(l) && DeviceOk(l, dev) && InodeOk(l, ino) && Readable(l, dev, ino, at / l.bsize)
    requires at % l.bsize + |data| <= l.bsize
    requires data == BlockBytes(l, dev, Lookup(l, dev, ino, at / l.bsize).b)[at % l.bsize..at % l.bsize + |data|]
    ensures Delivers(l, dev, ino, at, data)
  {
    SameBlock(l, at, |data|);
    forall i: nat ensures SaysAt(l, dev, ino, at, data, i) {
      if at <= i < at + |data| { assert i / l.bsize == at / l.bsize && i % l.bsize == at % l.bsize + (i - at); }
    }
  }

  // ---------- the cached reader ----------

  /** One cached index block per level; none yet is block number -1. */
  datatype Slot = Slot(blkno: int, blk: Content)

  ghost predicate SlotOk(dev: Device, s: Slot) {
    s.blkno == -1 || (0 <= s.blkno < 0x8000_0000 && s.blkno in dev && dev[s.blkno] == s.blk)
  }

  ghost predicate CacheOk(l: Layout, dev: Device, cache: seq<Slot>) {
    |cache| == l.levels && forall i :: 0 <= i < |cache| ==> SlotOk(dev, cache[i])
  }

  /** What other threads may have left in the cache each time the lock was dropped for a read. */
  ghost predicate Interference(l: Layout, dev: Device, others: seq<seq<Slot>>) {
    |others| == l.levels && forall i :: 0 <= i < |others| ==> CacheOk(l, dev, others[i])
  }

  datatype Rc = Ok | Outside | Broken

  class File {
    const l: Layout
    const dev: Device
    var ino: Inode
    var nindir: seq<nat>
    var cache: seq<Slot>
    var buf: Option<seq<byte>>
    var bufBlkno: int

    ghost predicate Mounted()
      reads this
    {
      LayoutOk(l) && DeviceOk(l, dev) && InodeOk(l, ino) && CacheOk(l, dev, cache)
      && |nindir| == l.levels && forall i :: 0 <= i < |nindir| ==> nindir[i] == Pow(l.nindir, i + 1)
    }

    /** The data buffer holds the block it claims to hold. */
    ghost predicate BufOk()
      reads this
      requires Mounted()
    {
      bufBlkno == -1
      || (bufBlkno >= 0 && Readable(l, dev, ino, bufBlkno)
          && buf == Some(BlockBytes(l, dev, Lookup(l, dev, ino, bufBlkno).b)))
    }

    ghost predicate Valid()
      reads this
    {
      Mounted() && BufOk()
    }

    /** mount_fs builds the level table; nothing is cached yet. */
    constructor (l: Layout, dev: Device, ino: Inode)
      requires LayoutOk(l) && DeviceOk(l, dev) && InodeOk(l, ino)
      ensures Valid() && this.l == l && this.dev == dev && this.ino == ino
    {
      this.l, this.dev, this.ino := l, dev, ino;
      this.cache := seq(l.levels, _ => Slot(-1, Content([], [])));
      this.buf, this.bufBlkno := None, -1;
      var mult, level, table := 1, 0, [];
      while level < l.levels
        invariant level <= l.levels && mult == Pow(l.nindir, level)
        invariant |table| == level && forall i :: 0 <= i < level ==> table[i] == Pow(l.nindir, i + 1)
      {
        PowMono(l.nindir, level + 1, l.levels);
        mult := mult * l.nindir;
        assert mult < 0x8000_0000;
        table := table + [mult];
        level := level + 1;
      }
      this.nindir := table;
    }

    /** The choice of the tree: what remains of the block number is inside it. */
    method ChooseTree(fileBlock: nat) returns (level: nat, fb: nat)
      requires Mounted()
      ensures level <= l.levels && (level < l.levels ==> fb < Pow(l.nindir, level + 1))
      ensures var roots := ino.blocks[l.direct..];
        InTrees(l, dev, roots, 0, fileBlock)
          == if level == l.levels then NotInFile else Walk(l, dev, roots[level], level + 1, fb)
    {
      level, fb := 0, fileBlock;
      while level < l.levels && fb >= nindir[level]
        invariant level <= l.levels
        invariant InTrees(l, dev, ino.blocks[l.direct..], 0, fileBlock)
               == InTrees(l, dev, ino.blocks[l.direct..], level, fb)
      {
        fb := fb - nindir[level];
        level := level + 1;
      }
    }

    /** The contents of an index block, from the cache if it is there; other threads may use the cache meanwhile. */
    method IndexBlock(level: nat, b: Daddr, others: seq<Slot>) returns (data: Option<Content>)
      requires Mounted() && level < l.levels && b != 0 && CacheOk(l, dev, others)
      modifies this`cache
      ensures Mounted() && data == if b in dev then Some(dev[b]) else None
    {
      if cache[level].blkno == b { return Some(cache[level].blk); }
      cache := others;
      if b !in dev { return None; }
      cache := cache[level := Slot(b, dev[b])];
      return Some(dev[b]);
    }

    /** The loop of block_map: from the root of a tree down to a block of the file. */
    method Descend(root: Daddr, height: nat, fileBlock: nat, others: seq<seq<Slot>>) returns (r: Mapping)
      requires Mounted() && Interference(l, dev, others) && height <= l.levels && fileBlock < Pow(l.nindir, height)
      modifies this`cache
      ensures Mounted() && r == Walk(l, dev, root, height, fileBlock)
    {
      var b: Daddr, k: nat, fb: nat := root, height, fileBlock;
      while k > 0 && b != 0
        invariant Mounted() && k <= height && fb < Pow(l.nindir, k)
        invariant Walk(l, dev, b, k, fb) == Walk(l, dev, root, height, fileBlock)
        decreases k
      {
        var data := IndexBlock(k - 1, b, others[k - 1]);
        if data.None? { return DeviceError; }
        Digit(l.nindir, k, fb);
        var idx, rest := Split(k, fb);
        b, k, fb := data.value.words[idx], k - 1, rest;
      }
      return Mapped(b);
    }

    /** The index into the block at height `k`, and what is left of the block number below it. */
    method Split(k: nat, fb: nat) returns (idx: nat, rest: nat)
      requires Mounted() && 0 < k <= l.levels && fb < Pow(l.nindir, k)
      ensures Pow(l.nindir, k - 1) > 0 && idx == fb / Pow(l.nindir, k - 1) && rest == fb % Pow(l.nindir, k - 1)
    {
      Digit(l.nindir, k, fb);
      if k > 1 {
        idx := fb / nindir[k - 2];
        rest := fb % nindir[k - 2];
      } else {
        idx := fb;
        rest := 0;
      }
    }

    /** block_map: whatever is cached, the answer is the uncached walk's. */
    method MapBlock(fileBlock: nat, others: seq<seq<Slot>>) returns (r: Mapping)
      requires Mounted() && Interference(l, dev, others)
      modifies this`cache
      ensures Mounted() && r == Lookup(l, dev, ino, fileBlock)
    {
      if fileBlock < l.direct { return Mapped(ino.blocks[fileBlock]); }
      var level, fb := ChooseTree(fileBlock - l.direct);
      if level == l.levels { return NotInFile; }
      r := Descend(ino.blocks[level + l.direct], level + 1, fb, others);
    }

    /** Replace the data buffer by block `fb`; the old buffer is gone even when the read fails. */
    method Fill(fb: nat, others: seq<seq<Slot>>) returns (rc: Rc)
      requires Valid() && Interference(l, dev, others)
      modifies this`cache, this`buf, this`bufBlkno
      ensures Mounted()
      ensures rc.Ok? ==> BufOk() && bufBlkno == fb
      ensures rc.Ok? <==> Readable(l, dev, ino, fb)
      ensures rc.Outside? <==> Lookup(l, dev, ino, fb).NotInFile?
      ensures rc.Outside? ==> BufOk()
      ensures rc.Broken? ==> (BufOk() <==> Lookup(l, dev, ino, fb).DeviceError? || old(bufBlkno) == -1)
    {
      var m := MapBlock(fb, others);
      if m.NotInFile? { return Outside; }
      if m.DeviceError? { return Broken; }
      buf := None;
      if m.b == 0 {
        buf := Some(seq(l.bsize, _ => 0));
      } else {
        if m.b !in dev { return Broken; }
        buf := Some(dev[m.b].bytes);
      }
      bufBlkno := fb;
      return Ok;
    }

    /** buf_read_file: where in the buffer byte `offset` is, and how much of the file follows it there. */
    method BufRead(offset: nat, others: seq<seq<Slot>>) returns (rc: Rc, off: nat, size: nat)
      requires Valid() && Interference(l, dev, others)
      modifies this`cache, this`buf, this`bufBlkno
      ensures Mounted()
      ensures rc.Ok? <==> offset < ino.size && Readable(l, dev, ino, offset / l.bsize)
      ensures rc.Ok? ==> BufOk() && bufBlkno == offset / l.bsize && off == offset % l.bsize
      ensures rc.Ok? ==> size > 0 && off + size <= l.bsize && offset + size <= ino.size
      ensures rc.Outside? <==> offset >= ino.size || Lookup(l, dev, ino, offset / l.bsize).NotInFile?
      ensures rc.Outside? ==> BufOk()
    {
      rc, off, size := Ok, 0, 0;
      if offset >= ino.size { return Outside, 0, 0; }
      off := offset % l.bsize;
      var fileBlock: nat := offset / l.bsize;
      if fileBlock != bufBlkno {
        rc := Fill(fileBlock, others);
        if !rc.Ok? { return; }
      }
      size := l.bsize - off;
      if size > ino.size - offset { size := ino.size - offset; }
    }

    /** One pass of ext2_read_file: at least one byte and at most to the end of the block. */
    method Pass(at: nat, want: nat, others: seq<seq<Slot>>) returns (rc: Rc, chunk: seq<byte>)
      requires Valid() && Interference(l, dev, others) && want > 0
      modifies this`cache, this`buf, this`bufBlkno
      ensures Mounted() && (!rc.Broken? ==> BufOk())
      ensures rc.Ok? <==> at < ino.size && Readable(l, dev, ino, at / l.bsize)
      ensures rc.Outside? <==> at >= ino.size || Lookup(l, dev, ino, at / l.bsize).NotInFile?
      ensures rc.Ok? ==> 0 < |chunk| <= want && at + |chunk| <= ino.size
      ensures rc.Ok? ==> Delivers(l, dev, ino, at, chunk)
    {
      chunk := [];
      var off, room;
      rc, off, room := BufRead(at, others);
      if !rc.Ok? { return; }
      var csize := if want > room then room else want;
      chunk := buf.value[off..off + csize];
      BlockDelivers(l, dev, ino, at, chunk);
    }

    /** ext2_read_file */
    method Read(offset: nat, size: nat, others: nat -> seq<seq<Slot>>) returns (rc: Rc, data: seq<byte>)
      requires Valid() && forall k :: Interference(l, dev, others(k))
      modifies this`cache, this`buf, this`bufBlkno
      ensures Mounted() && (!rc.Broken? ==> Valid())
      ensures rc.Ok? <==> size == 0 || RangeOk(l, dev, ino, offset, offset + size)
      ensures rc.Ok? ==> |data| == size && Delivers(l, dev, ino, offset, data)
    {
      data := [];
      var pass := 0;
      while |data| < size
        invariant |data| <= size && Valid() && (|data| > 0 ==> offset + |data| <= ino.size)
        invariant Delivers(l, dev, ino, offset, data)
        decreases size - |data|
      {
        var chunk;
        rc, chunk := Pass(offset + |data|, size - |data|, others(pass));
        if !rc.Ok? {
          assert !(offset + |data| < ino.size && ReadableAt(l, dev, ino, offset + |data|));
          return;
        }
        DeliversJoin(l, dev, ino, offset, data, chunk);
        data := data + chunk;
        pass := pass + 1;
      }
      if size > 0 { DeliversOk(l, dev, ino, offset, data); }
      return Ok, data;
    }
  }

  /** The buffer does go stale: a file of a hole and an unreadable block, read in that order. */
  method StaleBuffer() returns (f: File, rc: Rc)
    ensures f.Mounted() && rc.Broken? && !f.BufOk()
  {
    f := new File(Layout(2, 0, 1, 1), map[], Inode(2, [0, 7]));
    var first := f.Fill(0, []);
    assert first.Ok? && f.bufBlkno == 0;
    rc := f.Fill(1, []);
  }

  lemma SameBlock(l: Layout, at: nat, n: nat)
    requires l.bsize > 0 && at % l.bsize + n <= l.bsize
    ensures forall i :: at <= i < at + n ==> i / l.bsize == at / l.bsize && i % l.bsize == at % l.bsize + (i - at)
  {
    forall i | at <= i < at + n ensures i / l.bsize == at / l.bsize && i % l.bsize == at % l.bsize + (i - at) {
      DivBy(l.bsize, at / l.bsize, at % l.bsize + (i - at), i);
    }
  }

  lemma DivBy(n: int, q: int, r: int, i: int)
    requires 0 <= r < n && i == q * n + r
    ensures i / n == q && i % n == r
  {
    var d := i / n - q;
    assert i == (i / n) * n + i % n;
    assert d * n == (i / n) * n - q * n;
    assert d >= 1 ==> d * n >= n;
    assert d <= -1 ==> d * n <= -n;
  }
}
