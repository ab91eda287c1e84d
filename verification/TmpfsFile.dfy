/**
  The data of a tmpfs regular file: page frames of a memory object, reached through
  kernel mappings of which the last one-page mapping is kept for the next transfer.
*/
module TmpfsFile {
  import opened Prelude
  import opened TmpfsMem

  const UIO_MAXBYTES := 0x40_0000 - PAGE_SIZE

  // ---------- what the file is meant to be ----------

  function Zeros(n: nat): seq<byte> {
    seq(n, _ => 0)
  }

  /** A prefix, or the contents padded with zeros. */
  function Truncated(s: seq<byte>, n: nat): (r: seq<byte>)
    ensures |r| == n
  {
    if n <= |s| then s[..n] else s + Zeros(n - |s|)
  }

  function Overwritten(s: seq<byte>, off: nat, d: seq<byte>): (r: seq<byte>)
    requires off + |d| <= |s|
    ensures |r| == |s|
  {
    s[..off] + d + s[off + |d|..]
  }

  /** Long enough to take `d` at `off`. */
  function Widened(s: seq<byte>, off: nat, d: seq<byte>): (r: seq<byte>)
    ensures off + |d| <= |r| && |s| <= |r|
  {
    if off + |d| > |s| then Truncated(s, off + |d|) else s
  }

  /** `d` laid over the contents from `off` on, any gap filled with zeros. */
  function Written(s: seq<byte>, off: nat, d: seq<byte>): seq<byte> {
    if d == [] then s else Overwritten(Widened(s, off, d), off, d)
  }

  function Slice(s: seq<byte>, off: nat, n: nat): seq<byte> {
    if off >= |s| then [] else if off + n <= |s| then s[off..off + n] else s[off..]
  }

  /** Of `d`, written over `s` at `off`, the first `done` bytes have arrived. */
  ghost predicate Arrived(b: seq<byte>, s: seq<byte>, off: nat, d: seq<byte>, done: nat) {
    off + |d| <= |s| && done <= |d| && b == Overwritten(s, off, d[..done])
  }

  /** What was written is read back, and the rest of the file reads as before. */
  lemma ReadBack(s: seq<byte>, off: nat, d: seq<byte>, o: nat, n: nat)
    requires d != []
    ensures Slice(Written(s, off, d), off, |d|) == d
    ensures o + n <= off && o + n <= |s| ==> Slice(Written(s, off, d), o, n) == Slice(s, o, n)
    ensures |s| <= o && o + n <= off ==> Slice(Written(s, off, d), o, n) == Zeros(n)
  {
  }

  // ---------- frames ----------

  function PagesFor(size: nat): (n: nat)
    ensures n * PAGE_SIZE == RoundPage(size)
  {
    RoundPage(size) / PAGE_SIZE
  }

  ghost predicate FramesOk(pages: seq<nat>, frames: map<nat, seq<byte>>) {
    (forall i :: 0 <= i < |pages| ==> pages[i] in frames && |frames[pages[i]]| == PAGE_SIZE)
    && forall i, j :: 0 <= i < j < |pages| ==> pages[i] != pages[j]
  }

  /** All bytes of the object in order, including the slack behind the end of the file. */
  ghost function Store(pages: seq<nat>, frames: map<nat, seq<byte>>): (s: seq<byte>)
    requires FramesOk(pages, frames)
    ensures |s| == |pages| * PAGE_SIZE
  {
    if pages == [] then [] else Store(pages[..|pages| - 1], frames) + frames[pages[|pages| - 1]]
  }

  lemma {:induction false} StoreAt(pages: seq<nat>, frames: map<nat, seq<byte>>, o: nat)
    requires FramesOk(pages, frames) && o < |pages| * PAGE_SIZE
    ensures o / PAGE_SIZE < |pages| && Store(pages, frames)[o] == frames[pages[o / PAGE_SIZE]][o % PAGE_SIZE]
  {
    var n := |pages| - 1;
    if o < n * PAGE_SIZE {
      StoreAt(pages[..n], frames, o);
    } else {
      assert o / PAGE_SIZE == n && o % PAGE_SIZE == o - n * PAGE_SIZE;
    }
  }

  lemma PutByte(pages: seq<nat>, frames: map<nat, seq<byte>>, o: nat, b: byte)
    requires FramesOk(pages, frames) && o < |pages| * PAGE_SIZE
    ensures var f := pages[o / PAGE_SIZE];
      var frames' := frames[f := frames[f][o % PAGE_SIZE := b]];
      FramesOk(pages, frames') && Store(pages, frames') == Store(pages, frames)[o := b]
  {
    var f := pages[o / PAGE_SIZE];
    var frames' := frames[f := frames[f][o % PAGE_SIZE := b]];
    assert FramesOk(pages, frames');
    var s, s' := Store(pages, frames), Store(pages, frames');
    forall q | 0 <= q < |s| ensures s'[q] == s[o := b][q] {
      StoreAt(pages, frames, q);
      StoreAt(pages, frames', q);
      if pages[q / PAGE_SIZE] == f {
        assert q / PAGE_SIZE == o / PAGE_SIZE;
      }
    }
  }

  lemma {:induction false} SameStore(pages: seq<nat>, frames: map<nat, seq<byte>>, frames': map<nat, seq<byte>>)
    requires FramesOk(pages, frames) && FramesOk(pages, frames')
    requires forall i :: 0 <= i < |pages| ==> frames'[pages[i]] == frames[pages[i]]
    ensures Store(pages, frames') == Store(pages, frames)
  {
    if pages != [] { SameStore(pages[..|pages| - 1], frames, frames'); }
  }

  lemma {:induction false} PrefixStore(pages: seq<nat>, frames: map<nat, seq<byte>>, n: nat)
    requires FramesOk(pages, frames) && n <= |pages|
    ensures FramesOk(pages[..n], frames) && Store(pages[..n], frames) == Store(pages, frames)[..n * PAGE_SIZE]
  {
    if n < |pages| {
      var ini := pages[..|pages| - 1];
      PrefixStore(ini, frames, n);
      assert ini[..n] == pages[..n];
    } else {
      assert pages[..n] == pages;
    }
  }

  lemma {:induction false} DropPages(pages: seq<nat>, frames: map<nat, seq<byte>>, n: nat, frames': map<nat, seq<byte>>)
    requires FramesOk(pages, frames) && n <= |pages|
    requires forall i :: 0 <= i < n ==> pages[i] in frames' && frames'[pages[i]] == frames[pages[i]]
    ensures FramesOk(pages[..n], frames') && Store(pages[..n], frames') == Store(pages, frames)[..n * PAGE_SIZE]
  {
    assert FramesOk(pages[..n], frames');
    PrefixStore(pages, frames, n);
    SameStore(pages[..n], frames, frames');
  }

  lemma AddPage(pages: seq<nat>, frames: map<nat, seq<byte>>, f: nat)
    requires FramesOk(pages, frames) && f !in frames
    ensures FramesOk(pages + [f], frames[f := Zeros(PAGE_SIZE)])
    ensures Store(pages + [f], frames[f := Zeros(PAGE_SIZE)]) == Store(pages, frames) + Zeros(PAGE_SIZE)
  {
    var frames' := frames[f := Zeros(PAGE_SIZE)];
    assert FramesOk(pages, frames') && FramesOk(pages + [f], frames');
    SameStore(pages, frames, frames');
    assert (pages + [f])[..|pages|] == pages;
  }

  lemma ZeroPages(s: seq<byte>, n: nat)
    ensures s + Zeros(n * PAGE_SIZE) + Zeros(PAGE_SIZE) == s + Zeros((n + 1) * PAGE_SIZE)
  {
  }

  /** The frames of a mapping are those of consecutive pages of the object. */
  ghost predicate IsWindow(window: seq<nat>, pages: seq<nat>, base: nat) {
    base + |window| <= |pages| && window == pages[base..base + |window|]
  }

  lemma WindowByte(window: seq<nat>, pages: seq<nat>, base: nat, w: nat)
    requires IsWindow(window, pages, base) && w < |window| * PAGE_SIZE
    ensures w / PAGE_SIZE < |window| && base * PAGE_SIZE + w < |pages| * PAGE_SIZE
    ensures window[w / PAGE_SIZE] == pages[(base * PAGE_SIZE + w) / PAGE_SIZE]
    ensures (base * PAGE_SIZE + w) % PAGE_SIZE == w % PAGE_SIZE
  {
  }

  lemma OverwriteNext(s: seq<byte>, off: nat, d: seq<byte>, i: nat)
    requires off + |d| <= |s| && i < |d|
    ensures Overwritten(s, off, d[..i])[off + i := d[i]] == Overwritten(s, off, d[..i + 1])
  {
    assert d[..i + 1] == d[..i] + [d[i]];
  }

  /** A byte of a mapping is a byte of the object. */
  lemma {:induction false} WindowValue(pages: seq<nat>, frames: map<nat, seq<byte>>, window: seq<nat>, base: nat,
                                       w: nat)
    requires FramesOk(pages, frames) && IsWindow(window, pages, base) && w < |window| * PAGE_SIZE
    ensures w / PAGE_SIZE < |window| && base * PAGE_SIZE + w < |Store(pages, frames)|
    ensures var f := window[w / PAGE_SIZE];
      f in frames && |frames[f]| == PAGE_SIZE
      && frames[f][w % PAGE_SIZE] == Store(pages, frames)[base * PAGE_SIZE + w]
  {
    WindowByte(window, pages, base, w);
    StoreAt(pages, frames, base * PAGE_SIZE + w);
  }

  /** Storing into a byte of a mapping stores into that byte of the object. */
  lemma PutWindow(pages: seq<nat>, frames: map<nat, seq<byte>>, window: seq<nat>, base: nat, w: nat, b: byte)
    requires FramesOk(pages, frames) && IsWindow(window, pages, base) && w < |window| * PAGE_SIZE
    ensures w / PAGE_SIZE < |window| && base * PAGE_SIZE + w < |Store(pages, frames)|
    ensures var f := window[w / PAGE_SIZE];
      f in frames && |frames[f]| == PAGE_SIZE
      && var frames' := frames[f := frames[f][w % PAGE_SIZE := b]];
         FramesOk(pages, frames') && frames'.Keys == frames.Keys
         && Store(pages, frames') == Store(pages, frames)[base * PAGE_SIZE + w := b]
  {
    WindowByte(window, pages, base, w);
    PutByte(pages, frames, base * PAGE_SIZE + w, b);
  }

  lemma PutNext(pages: seq<nat>, frames: map<nat, seq<byte>>, window: seq<nat>, base: nat, pgoff: nat,
                s: seq<byte>, at: nat, data: seq<byte>, i: nat)
    requires FramesOk(pages, frames) && IsWindow(window, pages, base) && at == base * PAGE_SIZE + pgoff
    requires pgoff + |data| <= |window| * PAGE_SIZE && i < |data| && Arrived(Store(pages, frames), s, at, data, i)
    ensures (pgoff + i) / PAGE_SIZE < |window|
    ensures var f := window[(pgoff + i) / PAGE_SIZE];
      f in frames && |frames[f]| == PAGE_SIZE
      && var frames' := frames[f := frames[f][(pgoff + i) % PAGE_SIZE := data[i]]];
         FramesOk(pages, frames') && frames'.Keys == frames.Keys && Arrived(Store(pages, frames'), s, at, data, i + 1)
  {
    OverwriteNext(s, at, data, i);
    PutWindow(pages, frames, window, base, pgoff + i, data[i]);
  }

  lemma WindowFits(window: seq<nat>, pages: seq<nat>, base: nat, n: nat)
    requires IsWindow(window, pages, base) && n <= |window| * PAGE_SIZE
    ensures base * PAGE_SIZE + n <= |pages| * PAGE_SIZE
  {
  }

  lemma OverwriteNone(s: seq<byte>, off: nat, d: seq<byte>)
    requires off <= |s|
    ensures Overwritten(s, off, d[..0]) == s
  {
  }

  /** The pages a transfer touches are pages of the object. */
  lemma PagesCover(page: nat, pgoff: nat, sz: nat, npages: nat)
    requires page * PAGE_SIZE + pgoff + sz <= npages * PAGE_SIZE
    ensures page + PagesFor(pgoff + sz) <= npages && pgoff + sz <= PagesFor(pgoff + sz) * PAGE_SIZE
  {
  }

  method PutAll(ghost pages: seq<nat>, frames: map<nat, seq<byte>>, window: seq<nat>, ghost base: nat, pgoff: nat,
                data: seq<byte>)
    returns (frames': map<nat, seq<byte>>)
    requires FramesOk(pages, frames) && IsWindow(window, pages, base) && pgoff + |data| <= |window| * PAGE_SIZE
    ensures FramesOk(pages, frames') && frames'.Keys == frames.Keys
    ensures base * PAGE_SIZE + pgoff + |data| <= |pages| * PAGE_SIZE
    ensures Store(pages, frames') == Overwritten(Store(pages, frames), base * PAGE_SIZE + pgoff, data)
  {
    ghost var at := base * PAGE_SIZE + pgoff;
    ghost var s := Store(pages, frames);
    frames' := frames;
    WindowFits(window, pages, base, pgoff + |data|);
    OverwriteNone(s, at, data);
    for i := 0 to |data|
      invariant FramesOk(pages, frames') && frames'.Keys == frames.Keys
      invariant Arrived(Store(pages, frames'), s, at, data, i)
    {
      PutNext(pages, frames', window, base, pgoff, s, at, data, i);
      var f := window[(pgoff + i) / PAGE_SIZE];
      frames' := frames'[f := frames'[f][(pgoff + i) % PAGE_SIZE := data[i]]];
    }
    assert data[..|data|] == data;
  }

  // ---------- sequence facts ----------

  lemma OverwritePrefix(s: seq<byte>, n: nat, off: nat, d: seq<byte>)
    requires off + |d| <= n <= |s|
    ensures Overwritten(s, off, d)[..n] == Overwritten(s[..n], off, d)
  {
  }

  lemma OverwriteJoin(s: seq<byte>, off: nat, d: seq<byte>, i: nat, j: nat)
    requires off + |d| <= |s| && i <= j <= |d|
    ensures Overwritten(Overwritten(s, off, d[..i]), off + i, d[i..j]) == Overwritten(s, off, d[..j])
  {
    assert d[..j] == d[..i] + d[i..j];
  }

  lemma WriteJoin(s: seq<byte>, b: seq<byte>, b': seq<byte>, off: nat, d: seq<byte>, done: nat, moved: nat)
    requires Arrived(b, s, off, d, done) && Arrived(b', b, off + done, d[done..], moved)
    ensures Arrived(b', s, off, d, done + moved)
  {
    assert d[done..][..moved] == d[done..done + moved];
    OverwriteJoin(s, off, d, done, done + moved);
  }

  lemma SliceSnoc(b: seq<byte>, lo: nat, i: nat)
    requires lo + i < |b|
    ensures b[lo..lo + i] + [b[lo + i]] == b[lo..lo + i + 1]
  {
  }

  lemma ReadJoin(b: seq<byte>, off: nat, out: seq<byte>, piece: seq<byte>, moved: nat)
    requires off + |out| + moved <= |b| && out == b[off..off + |out|] && piece == b[off + |out|..off + |out| + moved]
    ensures |piece| == moved && out + piece == b[off..off + |out| + moved]
  {
  }

  /** Old slack zeroed up to its page end plus zero pages behind it is the contents padded with zeros. */
  lemma GrownContents(b: seq<byte>, size: nat, more: nat, newsize: nat, b': seq<byte>)
    requires size <= |b| && newsize <= |b| + more && size <= newsize
    requires |b'| == |b| + more
    requires forall o :: 0 <= o < |b'| ==> b'[o] == if o < size then b[o] else 0
    ensures b'[..newsize] == Truncated(b[..size], newsize)
  {
  }

  /** What a failed write leaves, cut back to the old length, is the old contents overlaid by what arrived. */
  lemma PartialWrite(s: seq<byte>, off: nat, d: seq<byte>, k: nat)
    requires d != [] && k <= |d|
    ensures Overwritten(Widened(s, off, d), off, d[..k])[..|s|] == Truncated(Written(s, off, d[..k]), |s|)
  {
    var a, b := Overwritten(Widened(s, off, d), off, d[..k])[..|s|], Truncated(Written(s, off, d[..k]), |s|);
    forall o | 0 <= o < |s| ensures a[o] == b[o] {
      if k > 0 && off <= o < off + k { assert a[o] == d[..k][o - off]; }
    }
  }

  method AddPages(pages: seq<nat>, frames: map<nat, seq<byte>>, next: nat, more: nat)
    returns (pages': seq<nat>, frames': map<nat, seq<byte>>, next': nat)
    requires FramesOk(pages, frames) && forall f :: f in frames ==> f < next
    ensures FramesOk(pages', frames') && |pages'| == |pages| + more && pages <= pages'
    ensures forall f :: f in frames' ==> f < next'
    ensures Store(pages', frames') == Store(pages, frames) + Zeros(more * PAGE_SIZE)
  {
    pages', frames', next' := pages, frames, next;
    ghost var s := Store(pages, frames);
    for k := 0 to more
      invariant FramesOk(pages', frames') && |pages'| == |pages| + k && pages <= pages'
      invariant forall f :: f in frames' ==> f < next'
      invariant Store(pages', frames') == s + Zeros(k * PAGE_SIZE)
    {
      AddPage(pages', frames', next');
      ZeroPages(s, k);
      pages', frames', next' := pages' + [next'], frames'[next' := Zeros(PAGE_SIZE)], next' + 1;
    }
  }

  /** A mapping read byte by byte. */
  method GetAll(ghost pages: seq<nat>, frames: map<nat, seq<byte>>, window: seq<nat>, ghost base: nat, pgoff: nat,
                n: nat)
    returns (out: seq<byte>)
    requires FramesOk(pages, frames) && IsWindow(window, pages, base) && pgoff + n <= |window| * PAGE_SIZE
    ensures base * PAGE_SIZE + pgoff + n <= |Store(pages, frames)|
    ensures out == Store(pages, frames)[base * PAGE_SIZE + pgoff..base * PAGE_SIZE + pgoff + n]
  {
    out := [];
    ghost var at := base * PAGE_SIZE + pgoff;
    ghost var b := Store(pages, frames);
    WindowFits(window, pages, base, pgoff + n);
    for i := 0 to n
      invariant |out| == i && at + i <= |b| && out == b[at..at + i]
    {
      WindowValue(pages, frames, window, base, pgoff + i);
      SliceSnoc(b, at, i);
      out := out + [frames[window[(pgoff + i) / PAGE_SIZE]][(pgoff + i) % PAGE_SIZE]];
    }
  }

  /** A regular file: the frame of each page of its object, and the kept mapping, if there is one. */
  datatype File = File(
    size: nat,
    pages: seq<nat>,
    frames: map<nat, seq<byte>>,
    nextFrame: nat,
    pgnum: Option<nat>,      // the page of the kept mapping
    pgptr: Option<nat>)      // the frame it maps

  const EmptyFile := File(0, [], map[], 0, None, None)

  ghost predicate FileOk(f: File) {
    FramesOk(f.pages, f.frames) && |f.pages| == PagesFor(f.size) && (forall x :: x in f.frames ==> x < f.nextFrame)
    && f.pgnum.Some? == f.pgptr.Some?
    && (f.pgnum.Some? ==> f.pgnum.value < |f.pages| && f.pgptr.value == f.pages[f.pgnum.value])
  }

  /** A file as its users see it. */
  ghost function ContentsOf(f: File): (s: seq<byte>)
    requires FileOk(f)
    ensures |s| == f.size
  {
    Store(f.pages, f.frames)[..f.size]
  }

  class RegFile {
    var size: nat
    var pages: seq<nat>
    var frames: map<nat, seq<byte>>
    var nextFrame: nat
    var pgnum: Option<nat>
    var pgptr: Option<nat>

    function V(): File
      reads this
    {
      File(size, pages, frames, nextFrame, pgnum, pgptr)
    }

    ghost predicate Valid()
      reads this
    {
      FileOk(V())
    }

    ghost function Bytes(): (s: seq<byte>)
      requires Valid()
      reads this
      ensures size <= |s|
    {
      Store(pages, frames)
    }

    ghost function Contents(): (s: seq<byte>)
      requires Valid()
      reads this
      ensures |s| == size
    {
      ContentsOf(V())
    }

    constructor ()
      ensures Valid() && Contents() == [] && V() == EmptyFile
    {
      size, pages, frames, nextFrame, pgnum, pgptr := 0, [], map[], 0, None, None;
    }

    /** The file of a node, taken up for an operation. */
    constructor Of(f: File)
      requires FileOk(f)
      ensures Valid() && V() == f
    {
      size, pages, frames, nextFrame, pgnum, pgptr := f.size, f.pages, f.frames, f.nextFrame, f.pgnum, f.pgptr;
    }

    /** tmpfs_uio_uncache */
    method Uncache()
      requires Valid()
      modifies this`pgnum, this`pgptr
      ensures Valid() && pgnum.None?
    {
      pgnum, pgptr := None, None;
    }

    /** uiomove into a mapping whose frames are those of the pages from `base` on. */
    method CopyIn(window: seq<nat>, ghost base: nat, pgoff: nat, data: seq<byte>)
      requires Valid() && IsWindow(window, pages, base) && pgoff + |data| <= |window| * PAGE_SIZE
      modifies this`frames
      ensures Valid() && base * PAGE_SIZE + pgoff + |data| <= |old(Bytes())|
      ensures Bytes() == Overwritten(old(Bytes()), base * PAGE_SIZE + pgoff, data)
    {
      ghost var was := Bytes();
      frames := PutAll(pages, frames, window, base, pgoff, data);
    }

    /** uiomove out of such a mapping. */
    method CopyOut(window: seq<nat>, ghost base: nat, pgoff: nat, n: nat) returns (out: seq<byte>)
      requires Valid() && IsWindow(window, pages, base) && pgoff + n <= |window| * PAGE_SIZE
      ensures base * PAGE_SIZE + pgoff + n <= |Bytes()|
      ensures out == Bytes()[base * PAGE_SIZE + pgoff..base * PAGE_SIZE + pgoff + n]
    {
      out := GetAll(pages, frames, window, base, pgoff, n);
    }

    /**
      tmpfs_uiomove. `avail` bytes of user memory can be reached before a fault, and
      `maps` mappings can be made before the kernel map is exhausted.
    */
    method UioMove(write: bool, off: nat, len: nat, data: seq<byte>, avail: nat, maps: nat)
      returns (err: bool, moved: nat, out: seq<byte>, maps': nat)
      requires Valid() && 0 < len && off + len <= size && (write ==> |data| == len)
      modifies this`frames, this`pgnum, this`pgptr
      ensures Valid() && moved <= len && moved <= avail && maps' <= maps <= maps' + 1
      ensures write ==> Arrived(Bytes(), old(Bytes()), off, data, moved)
      ensures !write ==> Bytes() == old(Bytes()) && out == Bytes()[off..off + moved]
      ensures !err ==> moved > 0
      ensures err ==> avail < len || maps == 0
    {
      var page, pgoff := off / PAGE_SIZE, off % PAGE_SIZE;
      var ok, window, sz;
      ok, window, sz, maps' := FindWindow(page, pgoff, len, maps);
      if !ok {
        if write { OverwriteNone(Bytes(), off, data); }
        return true, 0, [], maps';
      }
      err, moved, out := Through(write, window, page, pgoff, off, data, sz, avail);
    }

    /** The transfer of up to `sz` bytes; the mapping of a single page is kept for the next one. */
    method Through(write: bool, window: seq<nat>, page: nat, pgoff: nat, ghost off: nat, data: seq<byte>, sz: nat,
                   avail: nat)
      returns (err: bool, moved: nat, out: seq<byte>)
      requires Valid() && IsWindow(window, pages, page) && window != [] && 0 < sz && pgoff + sz <= |window| * PAGE_SIZE
      requires off == page * PAGE_SIZE + pgoff && (write ==> sz <= |data| && off + |data| <= |Bytes()|)
      modifies this`frames, this`pgnum, this`pgptr
      ensures Valid() && moved <= sz && moved <= avail && off + moved <= |old(Bytes())| == |Bytes()|
      ensures write ==> Arrived(Bytes(), old(Bytes()), off, data, moved)
      ensures !write ==> Bytes() == old(Bytes()) && out == Bytes()[off..off + moved]
      ensures if err then avail < sz else moved == sz
    {
      moved := if sz < avail then sz else avail;
      out := Move(write, window, page, pgoff, off, data, moved);
      err := avail < sz;
      if !err && pgoff + sz < PAGE_SIZE {
        pgnum, pgptr := Some(page), Some(window[0]);
      }
    }

    /** The kept mapping if the transfer fits into it, else a new one of at most UIO_MAXBYTES. */
    method FindWindow(page: nat, pgoff: nat, len: nat, maps: nat)
      returns (ok: bool, window: seq<nat>, sz: nat, maps': nat)
      requires Valid() && 0 < len && pgoff < PAGE_SIZE && page * PAGE_SIZE + pgoff + len <= size
      modifies this`pgnum, this`pgptr
      ensures Valid() && 0 < sz <= len && maps' <= maps <= maps' + 1 && (!ok ==> maps == 0)
      ensures ok ==> IsWindow(window, pages, page) && window != [] && pgoff + sz <= |window| * PAGE_SIZE
    {
      maps' := maps;
      sz := len;
      if pgoff + len < PAGE_SIZE && pgnum == Some(page) {
        return true, [pgptr.value], sz, maps';
      }
      if len >= UIO_MAXBYTES { sz := UIO_MAXBYTES; }
      PagesCover(page, pgoff, sz, |pages|);
      if pgnum.Some? { Uncache(); }
      if maps == 0 { return false, [], sz, maps'; }
      maps' := maps - 1;
      window := pages[page..page + PagesFor(pgoff + sz)];
      ok := true;
    }

    method Move(write: bool, window: seq<nat>, ghost base: nat, pgoff: nat, ghost off: nat, data: seq<byte>, n: nat)
      returns (out: seq<byte>)
      requires Valid() && IsWindow(window, pages, base) && pgoff + n <= |window| * PAGE_SIZE
      requires off == base * PAGE_SIZE + pgoff && (write ==> n <= |data| && off + |data| <= |Bytes()|)
      modifies this`frames
      ensures Valid() && off + n <= |old(Bytes())| == |Bytes()|
      ensures write ==> Arrived(Bytes(), old(Bytes()), off, data, n)
      ensures !write ==> Bytes() == old(Bytes()) && out == Bytes()[off..off + n]
    {
      out := [];
      if write {
        CopyIn(window, base, pgoff, data[..n]);
      } else {
        out := CopyOut(window, base, pgoff, n);
      }
    }

    /** uao_grow: further pages of the object, which read as zeros. */
    method Grow(newpages: nat)
      requires FramesOk(pages, frames) && |pages| <= newpages && (forall f :: f in frames ==> f < nextFrame)
      modifies this`pages, this`frames, this`nextFrame
      ensures FramesOk(pages, frames) && |pages| == newpages && (forall f :: f in frames ==> f < nextFrame)
      ensures old(pages) <= pages
      ensures Store(pages, frames) == old(Store(pages, frames)) + Zeros((newpages - |old(pages)|) * PAGE_SIZE)
    {
      pages, frames, nextFrame := AddPages(pages, frames, nextFrame, newpages - |pages|);
    }

    /** tmpfs_zeropg: clear a page from `pgoff` on. */
    method ZeroPage(page: nat, pgoff: nat)
      requires Valid() && page < |pages| && pgoff < PAGE_SIZE
      modifies this`frames
      ensures Valid() && |Bytes()| == |old(Bytes())|
      ensures forall o :: 0 <= o < |Bytes()| ==>
        Bytes()[o] == if page * PAGE_SIZE + pgoff <= o < (page + 1) * PAGE_SIZE then 0 else old(Bytes())[o]
    {
      CopyIn([pages[page]], page, pgoff, Zeros(PAGE_SIZE - pgoff));
    }

    /** uao_shrink: the frames behind page `newpages` are gone. */
    method Shrink(newsize: nat)
      requires Valid() && PagesFor(newsize) <= |pages|
      modifies this
      ensures Valid() && size == newsize && Bytes() == old(Bytes())[..PagesFor(newsize) * PAGE_SIZE]
    {
      var n := PagesFor(newsize);
      if n < |pages| {
        if pgnum.Some? { Uncache(); }
        var gone := set i | n <= i < |pages| :: pages[i];
        assert forall i :: 0 <= i < n ==> pages[i] !in gone;
        DropPages(pages, frames, n, frames - gone);
        pages, frames := pages[..n], frames - gone;
      } else {
        assert Bytes()[..n * PAGE_SIZE] == Bytes();
      }
      size := newsize;
    }

    /** Enlarge the object to cover the new size; the bytes behind the old pages are zeros. */
    method Cover(newsize: nat)
      requires Valid() && size <= newsize
      modifies this
      ensures Valid() && size == newsize && |old(Bytes())| <= |Bytes()|
      ensures Bytes() == old(Bytes()) + Zeros(|Bytes()| - |old(Bytes())|)
    {
      var newpages := PagesFor(newsize);
      if newpages > |pages| {
        Grow(newpages);
      }
      size := newsize;
    }

    /** The part of the last page behind the old end of the file is cleared. */
    method ClearSlack(oldsize: nat, ghost was: seq<byte>)
      requires Valid() && oldsize <= |was| < oldsize + PAGE_SIZE && |was| % PAGE_SIZE == 0 && |was| <= |Bytes()|
      requires Bytes() == was + Zeros(|Bytes()| - |was|)
      modifies this`frames
      ensures Valid() && |Bytes()| == |old(Bytes())|
      ensures forall o :: 0 <= o < |Bytes()| ==> Bytes()[o] == if o < oldsize then was[o] else 0
    {
      if oldsize % PAGE_SIZE != 0 {
        assert (oldsize / PAGE_SIZE + 1) * PAGE_SIZE == |was|;
        ZeroPage(oldsize / PAGE_SIZE, oldsize % PAGE_SIZE);
      } else {
        assert oldsize == |was|;
      }
    }

    /**
      tmpfs_reg_resize. `memOk` is the outcome of charging the mount for the new pages,
      `growOk` that of enlarging the object; both matter only when pages are added.
    */
    method Resize(newsize: nat, memOk: bool, growOk: bool) returns (err: bool)
      requires Valid()
      modifies this
      ensures Valid() && err == (PagesFor(newsize) > PagesFor(old(size)) && (!memOk || !growOk))
      ensures if err then size == old(size) && Bytes() == old(Bytes())
              else size == newsize && Contents() == Truncated(old(Contents()), newsize)
    {
      var oldsize := size;
      ghost var was := Bytes();
      if PagesFor(newsize) > |pages| && (!memOk || !growOk) { return true; }
      if newsize <= oldsize {
        Shrink(newsize);
        assert Bytes()[..newsize] == was[..oldsize][..newsize];
        return false;
      }
      Enlarge(newsize);
      return false;
    }

    /** The part of tmpfs_reg_resize for a larger size. */
    method Enlarge(newsize: nat)
      requires Valid() && size <= newsize
      modifies this
      ensures Valid() && size == newsize && Contents() == Truncated(old(Contents()), newsize)
    {
      var oldsize := size;
      ghost var was := Bytes();
      Cover(newsize);
      if pgnum.Some? { Uncache(); }
      ClearSlack(oldsize, was);
      GrownContents(was, oldsize, |Bytes()| - |was|, newsize, Bytes());
    }

    /** One pass of the copying loop: what has arrived grows by a piece. */
    method WritePiece(ghost was: seq<byte>, off: nat, data: seq<byte>, done: nat, avail: nat, maps: nat)
      returns (err: bool, done': nat, maps': nat)
      requires Valid() && off + |data| <= size && done < |data| && Arrived(Bytes(), was, off, data, done)
      modifies this`frames, this`pgnum, this`pgptr
      ensures Valid() && done <= done' <= |data| && done' - done <= avail && maps' <= maps <= maps' + 1
      ensures Arrived(Bytes(), was, off, data, done')
      ensures !err ==> done < done'
      ensures err ==> avail < |data| - done || maps == 0
    {
      var moved, nothing;
      ghost var b := Bytes();
      err, moved, nothing, maps' := UioMove(true, off + done, |data| - done, data[done..], avail, maps);
      WriteJoin(was, b, Bytes(), off, data, done, moved);
      done' := done + moved;
    }

    /** The copying loop of tmpfs_write, inside the size of the file. */
    method WriteLoop(off: nat, data: seq<byte>, avail: nat, maps: nat) returns (err: bool, done: nat)
      requires Valid() && off + |data| <= size
      modifies this`frames, this`pgnum, this`pgptr
      ensures Valid() && done <= |data| && (!err ==> done == |data|)
      ensures (err ==> avail < |data| || maps < |data|) && (avail < |data| ==> err)
      ensures Contents() == Overwritten(old(Contents()), off, data[..done])
    {
      err, done := false, 0;
      var mapsLeft: nat := maps;
      ghost var was := Bytes();
      assert |Contents()| == size;
      OverwriteNone(was, off, data);
      while !err && done < |data|
        invariant Valid() && done <= |data| && done <= avail && (!err ==> maps <= mapsLeft + done)
        invariant off + |data| <= size <= |was| && Arrived(Bytes(), was, off, data, done)
        invariant err ==> avail < |data| || maps < |data|
        decreases !err, |data| - done
      {
        err, done, mapsLeft := WritePiece(was, off, data, done, avail - done, mapsLeft);
      }
      OverwritePrefix(was, size, off, data[..done]);
    }

    /**
      tmpfs_write. A write that fails half-way is cut back to the old length; what had
      already arrived inside it stays. `done` is how much that was.
    */
    method Write(offset: nat, data: seq<byte>, append: bool, memOk: bool, growOk: bool, avail: nat, maps: nat)
      returns (err: bool, done: nat)
      requires Valid()
      modifies this
      ensures Valid() && done <= |data|
      ensures var off := if append then old(size) else offset;
        var full := data != [] && PagesFor(off + |data|) > PagesFor(old(size)) && (!memOk || !growOk);
        (err ==> full || avail < |data| || maps < |data|) && (full || avail < |data| ==> err)
      ensures var off := if append then old(size) else offset;
        if err then size == old(size) && Contents() == Truncated(Written(old(Contents()), off, data[..done]), old(size))
        else Contents() == Written(old(Contents()), off, data)
    {
      if data == [] { return false, 0; }
      var oldsize := size;
      var off := if append then size else offset;
      ghost var was := Contents();
      if off + |data| > size {
        err := Resize(off + |data|, memOk, growOk);
        if err {
          assert was[..oldsize] == was;
          return true, 0;
        }
      }
      err, done := WriteInside(was, oldsize, off, data, avail, maps);
    }

    /** The rest of tmpfs_write, once a file that held `was` is long enough. */
    method WriteInside(ghost was: seq<byte>, oldsize: nat, off: nat, data: seq<byte>, avail: nat, maps: nat)
      returns (err: bool, done: nat)
      requires Valid() && data != [] && |was| == oldsize && Contents() == Widened(was, off, data)
      modifies this
      ensures Valid() && done <= |data| && (err ==> avail < |data| || maps < |data|) && (avail < |data| ==> err)
      ensures if err then size == oldsize && Contents() == Truncated(Written(was, off, data[..done]), oldsize)
              else Contents() == Written(was, off, data)
    {
      err, done := WriteLoop(off, data, avail, maps);
      if err {
        CutBack(was, off, data, done);
        var _ := Resize(oldsize, true, true);
      } else {
        assert data[..done] == data;
      }
    }

    lemma CutBack(was: seq<byte>, off: nat, data: seq<byte>, done: nat)
      requires done <= |data| && data != []
      ensures Truncated(Overwritten(Widened(was, off, data), off, data[..done]), |was|)
           == Truncated(Written(was, off, data[..done]), |was|)
    {
      PartialWrite(was, off, data, done);
    }

    /** One pass of the loop of tmpfs_read. */
    method ReadPiece(off: nat, n: nat, out: seq<byte>, avail: nat, maps: nat)
      returns (err: bool, out': seq<byte>, maps': nat)
      requires Valid() && |out| < n && off + |out| < size <= |Bytes()| && out == Bytes()[off..off + |out|]
      modifies this`frames, this`pgnum, this`pgptr
      ensures Valid() && Bytes() == old(Bytes()) && |out| <= |out'| <= n && off + |out'| <= size
      ensures out' == Bytes()[off..off + |out'|] && |out'| - |out| <= avail && maps' <= maps <= maps' + 1
      ensures !err ==> |out| < |out'|
      ensures err ==> avail < n - |out| || maps == 0
    {
      var len := if size - (off + |out|) < n - |out| then size - (off + |out|) else n - |out|;
      ghost var b := Bytes();
      var moved, piece;
      err, moved, piece, maps' := UioMove(false, off + |out|, len, [], avail, maps);
      ReadJoin(b, off, out, piece, moved);
      out' := out + piece;
    }

    /** tmpfs_read: the requested part of the contents, or an initial piece of it after a fault. */
    method Read(off: nat, n: nat, avail: nat, maps: nat) returns (err: bool, out: seq<byte>)
      requires Valid()
      modifies this`frames, this`pgnum, this`pgptr
      ensures Valid() && Contents() == old(Contents())
      ensures if err then out <= Slice(Contents(), off, n) else out == Slice(Contents(), off, n)
      ensures (err ==> avail < n || maps < n) && (avail < |Slice(Contents(), off, n)| ==> err)
    {
      err, out := false, [];
      var mapsLeft: nat := maps;
      ghost var b := Bytes();
      assert |Contents()| == size;
      while !err && |out| < n && off + |out| < size
        invariant Valid() && Bytes() == b && size <= |b| && |out| <= n && |out| <= avail
        invariant !err ==> maps <= mapsLeft + |out|
        invariant if off <= size then off + |out| <= size && out == b[off..off + |out|] else out == []
        invariant err ==> avail < n || maps < n
        decreases !err, n - |out|
      {
        err, out, mapsLeft := ReadPiece(off, n, out, avail - |out|, mapsLeft);
      }
      ReadSlice(b, size, off, n, out);
    }

    /** An initial piece of what was asked for; all of it unless it stops short. */
    lemma ReadSlice(b: seq<byte>, size: nat, off: nat, n: nat, out: seq<byte>)
      requires size <= |b| && |out| <= n
      requires if off <= size then off + |out| <= size && out == b[off..off + |out|] else out == []
      ensures out <= Slice(b[..size], off, n)
      ensures |out| == n || off + |out| >= size ==> out == Slice(b[..size], off, n)
    {
    }
  }
}
