/**
  A mount together with the bytes of its files: names, bytes and the memory account in one
  state, changed by the same operations.
*/
module TmpfsVolume {
  import opened Prelude
  import opened TmpfsTree
  import opened TmpfsMem
  import opened TmpfsNames
  import opened TmpfsBill
  import opened TmpfsEdits
  import opened TmpfsMount
  import opened TmpfsRuns
  import F = TmpfsFile

  type Files = map<nat, F.File>

  /** Regular nodes, and only they, have a file, and it has the size of the node. */
  ghost predicate BackedAt(t: Tree, fs: Files, n: nat) {
    (n in t.nodes && t.nodes[n].kind.VReg? <==> n in fs)
    && (n in fs && n in t.nodes ==> F.FileOk(fs[n]) && fs[n].size == t.nodes[n].size)
  }

  ghost predicate Backed(t: Tree, fs: Files) {
    forall n :: BackedAt(t, fs, n)
  }

  ghost function BytesOf(f: F.File): seq<byte> {
    if F.FileOk(f) then F.ContentsOf(f) else []
  }

  /** The bytes of every file. */
  ghost function DataOf(fs: Files): (d: map<nat, seq<byte>>)
    ensures d.Keys == fs.Keys
  {
    map n | n in fs :: BytesOf(fs[n])
  }

  lemma BackedFile(t: Tree, fs: Files, n: nat)
    requires Backed(t, fs) && n in fs
    ensures n in t.nodes && t.nodes[n].kind.VReg? && F.FileOk(fs[n]) && fs[n].size == t.nodes[n].size
    ensures n in DataOf(fs) && DataOf(fs)[n] == F.ContentsOf(fs[n]) && |DataOf(fs)[n]| == fs[n].size
  {
    assert BackedAt(t, fs, n);
  }

  lemma SizedNode(t: Tree, n: nat)
    requires NodesOk(t, {}) && n in t.nodes && t.nodes[n].kind.VReg?
    ensures t.nodes[n].size >= 0 && t.nodes[n].pages * PAGE_SIZE == RoundPage(t.nodes[n].size)
  {
    assert NodeOk(t, {}, n);
  }

  /** One file and its node change together; all others keep their bytes. */
  lemma BackedUpdate(t: Tree, t': Tree, fs: Files, n: nat, f: F.File)
    requires Backed(t, fs) && n in fs && n in t.nodes && n in t'.nodes && t'.nodes == t.nodes[n := t'.nodes[n]]
    requires t'.nodes[n].kind == t.nodes[n].kind && F.FileOk(f) && f.size == t'.nodes[n].size
    ensures Backed(t', fs[n := f]) && DataOf(fs[n := f]) == DataOf(fs)[n := F.ContentsOf(f)]
  {
    var fs' := fs[n := f];
    forall k ensures BackedAt(t', fs', k) { assert BackedAt(t, fs, k) && BackedAt(t, fs, n); }
  }

  /** At most the size of one file has changed, and with it its pages; names, links and flags are as they were. */
  ghost predicate OnlySize(t: Tree, t': Tree, n: nat) {
    t'.root == t.root && n in t.nodes && n in t'.nodes
    && t'.nodes == t.nodes[n := t.nodes[n].(size := t'.nodes[n].size, pages := t'.nodes[n].pages)]
  }

  lemma SameSize(t: Tree, t': Tree, n: nat)
    requires n in t.nodes && t'.nodes == t.nodes && t'.root == t.root
    ensures OnlySize(t, t', n)
  {
  }

  lemma SizeTwice(t: Tree, u: Tree, t': Tree, n: nat)
    requires OnlySize(t, u, n) && OnlySize(u, t', n)
    ensures OnlySize(t, t', n)
  {
  }

  /** The pages a file of `size` bytes lacks for `newsize` can be paid for and added. */
  predicate MayGrow(size: nat, newsize: nat, room: int, growOk: bool) {
    var more := RoundPage(newsize) - RoundPage(size);
    more <= 0 || (room >= more && growOk)
  }

  lemma NoGrowth(size: nat, newsize: nat)
    requires newsize <= size
    ensures RoundPage(newsize) <= RoundPage(size)
  {
  }

  /** A write fails without the pages it needs or at a fault, and only then or for lack of mappings. */
  predicate MayEnd(data: seq<byte>, grown: bool, avail: nat, maps: nat, err: bool) {
    var full := data != [] && !grown;
    (err ==> full || avail < |data| || maps < |data|) && (full || avail < |data| ==> err)
  }

  /** A request to write; whether the object can grow, the bytes before a fault and the mappings there are. */
  datatype Request = Request(offset: nat, data: seq<byte>, append: bool, growOk: bool, avail: nat, maps: nat)

  /** Where a write goes, and how it can end. */
  predicate WriteAnswer(was: seq<byte>, room: int, w: Request, off: nat, err: bool, done: nat) {
    off == (if w.append then |was| else w.offset) && done <= |w.data|
    && MayEnd(w.data, MayGrow(|was|, Reach(|was|, off + |w.data|), room, w.growOk), w.avail, w.maps, err)
  }

  /** What a read gives: the part asked for, or after a fault a beginning of it. */
  predicate ReadAnswer(s: seq<byte>, off: nat, len: nat, avail: nat, maps: nat, err: bool, out: seq<byte>) {
    var part := F.Slice(s, off, len);
    (if err then out <= part else out == part) && (err ==> avail < len || maps < len) && (avail < |part| ==> err)
  }

  /** What a write leaves: all of it, or after a failure what had arrived inside the old length. */
  function Written(was: seq<byte>, off: nat, data: seq<byte>, err: bool, done: nat): seq<byte>
    requires done <= |data|
  {
    if err then F.Truncated(F.Written(was, off, data[..done]), |was|) else F.Written(was, off, data)
  }

  lemma NothingWritten(d: map<nat, seq<byte>>, n: nat, off: nat, data: seq<byte>)
    requires n in d
    ensures d == d[n := Written(d[n], off, data, true, 0)]
    ensures data == [] ==> d == d[n := Written(d[n], off, data, false, 0)]
  {
    assert d[n][..|d[n]|] == d[n];
  }

  /** How long a file of `size` bytes is for a write that ends at `end`. */
  function Reach(size: nat, end: nat): nat {
    if end > size then end else size
  }

  lemma Reached(s: seq<byte>, off: nat, data: seq<byte>)
    ensures F.Widened(s, off, data) == F.Truncated(s, Reach(|s|, off + |data|))
  {
    assert s[..|s|] == s;
  }

  lemma LongEnough(d: map<nat, seq<byte>>, n: nat, room: int, growOk: bool)
    requires n in d
    ensures d == d[n := F.Truncated(d[n], |d[n]|)] && MayGrow(|d[n]|, |d[n]|, room, growOk)
  {
    assert d[n][..|d[n]|] == d[n];
  }

  lemma LastWrite(d: map<nat, seq<byte>>, n: nat, a: seq<byte>, b: seq<byte>)
    ensures d[n := a][n := b] == d[n := b]
  {
  }

  // ---------- operations on names, and what they mean for bytes ----------

  /** The bytes of file `n`: none if it is new, cut or padded by a truncation, and otherwise as they were. */
  ghost predicate BytesAt(op: Op, a: Answer, d: map<nat, seq<byte>>, d': map<nat, seq<byte>>, n: nat) {
    n in d' ==>
      d'[n] == if n !in d then []
               else if op.Truncate? && op.n == n && a == Done(OK) then F.Truncated(d[n], op.size) else d[n]
  }

  ghost predicate BytesFollow(op: Op, a: Answer, d: map<nat, seq<byte>>, d': map<nat, seq<byte>>) {
    forall n :: BytesAt(op, a, d, d', n)
  }

  /** Operations other than truncation change no regular node that stays, and only a create brings one. */
  lemma FilesStay(op: Op, lim: Limits, a: Answer, t: Tree, t': Tree, n: nat)
    requires Admissible(t, op) && Effect(op, lim, a, t, t') && !(op.Truncate? && op.n == n && a == Done(OK))
    ensures n in t.nodes && n in t'.nodes ==> t'.nodes[n].kind == t.nodes[n].kind
    ensures n in t.nodes && n in t'.nodes && t.nodes[n].kind.VReg? ==> t'.nodes[n].size == t.nodes[n].size
    ensures n !in t.nodes && n in t'.nodes ==> op.Create? && a == Done(OK) && t'.nodes[n].kind == op.kind
    ensures n !in t.nodes && n in t'.nodes && t'.nodes[n].kind.VReg? ==> t'.nodes[n].size == 0
    ensures n in t.nodes && n !in t'.nodes ==> op.Forget? && op.n == n
  {
    if op.Create? && a == Done(OK) {
      var k :| Created(t, t', op.d, op.name, op.kind, k);
      assert NodeSteps(t, t', n);
    } else if op.HardLink? || op.Unlink? || op.RemoveDir? || op.Move? {
      assert a == Done(OK) ==> NodeSteps(t, t', n);
    }
  }

  /** The files once the operation has been done on the nodes. */
  ghost predicate Synced(op: Op, a: Answer, t': Tree, fs: Files, fs': Files, n: nat) {
    (n in fs' <==> n in t'.nodes && t'.nodes[n].kind.VReg?)
    && (n in fs' ==>
          if n !in fs then fs'[n] == F.EmptyFile
          else if op.Truncate? && op.n == n && a == Done(OK) then
            F.FileOk(fs[n]) && F.FileOk(fs'[n]) && fs'[n].size == op.size
            && F.ContentsOf(fs'[n]) == F.Truncated(F.ContentsOf(fs[n]), op.size)
          else fs'[n] == fs[n])
  }

  lemma SyncedOk(op: Op, lim: Limits, a: Answer, t: Tree, t': Tree, fs: Files, fs': Files)
    requires Admissible(t, op) && Effect(op, lim, a, t, t') && Backed(t, fs)
    requires forall n :: Synced(op, a, t', fs, fs', n)
    ensures Backed(t', fs') && BytesFollow(op, a, DataOf(fs), DataOf(fs'))
  {
    forall n ensures BackedAt(t', fs', n) { SyncedAt(op, lim, a, t, t', fs, fs', n); }
    forall n ensures BytesAt(op, a, DataOf(fs), DataOf(fs'), n) { SyncedAt(op, lim, a, t, t', fs, fs', n); }
  }

  lemma SyncedAt(op: Op, lim: Limits, a: Answer, t: Tree, t': Tree, fs: Files, fs': Files, n: nat)
    requires Admissible(t, op) && Effect(op, lim, a, t, t') && BackedAt(t, fs, n) && Synced(op, a, t', fs, fs', n)
    ensures BackedAt(t', fs', n) && BytesAt(op, a, DataOf(fs), DataOf(fs'), n)
  {
    if op.Truncate? && op.n == n && a == Done(OK) {
      TruncatedNode(op, lim, a, t, t');
      SyncedCut(op, a, t, t', fs, fs');
    } else {
      FilesStay(op, lim, a, t, t', n);
      if n in t.nodes && n in t'.nodes { SyncedOld(op, a, t, t', fs, fs', n); }
    }
  }

  lemma SyncedCut(op: Op, a: Answer, t: Tree, t': Tree, fs: Files, fs': Files)
    requires op.Truncate? && a == Done(OK) && BackedAt(t, fs, op.n) && Synced(op, a, t', fs, fs', op.n)
    requires op.n in t.nodes && t.nodes[op.n].kind.VReg?
    requires op.n in t'.nodes && t'.nodes[op.n].kind.VReg? && t'.nodes[op.n].size == op.size
    ensures BackedAt(t', fs', op.n) && BytesAt(op, a, DataOf(fs), DataOf(fs'), op.n)
  {
  }

  lemma SyncedOld(op: Op, a: Answer, t: Tree, t': Tree, fs: Files, fs': Files, n: nat)
    requires BackedAt(t, fs, n) && Synced(op, a, t', fs, fs', n) && !(op.Truncate? && op.n == n && a == Done(OK))
    requires n in t.nodes && n in t'.nodes && t'.nodes[n].kind == t.nodes[n].kind
    requires t.nodes[n].kind.VReg? ==> t'.nodes[n].size == t.nodes[n].size
    ensures BackedAt(t', fs', n) && BytesAt(op, a, DataOf(fs), DataOf(fs'), n)
  {
  }

  lemma TruncatedNode(op: Op, lim: Limits, a: Answer, t: Tree, t': Tree)
    requires op.Truncate? && Admissible(t, op) && Effect(op, lim, a, t, t') && a == Done(OK)
    ensures op.n in t'.nodes && t'.nodes[op.n].kind.VReg? && t'.nodes[op.n].size == op.size
  {
  }

  // ---------- runs ----------

  datatype Call =
    | Apply(op: Op)
    | Put(n: nat, w: Request)
    | Get(n: nat, off: nat, len: nat, avail: nat, maps: nat)

  datatype Event = Skipped | Did(a: Answer) | Wrote(off: nat, err: bool, done: nat) | Got(err: bool, out: seq<byte>)

  /** Names and bytes together. */
  datatype View = View(t: Tree, d: map<nat, seq<byte>>)

  /** Sound names, exactly the regular files have bytes, as many as their size, and all of it is paid for. */
  ghost predicate SoundView(v: View, lim: Limits) {
    Inv(v.t, {}) && NamesOk(v.t) && Bytes(v.t) <= lim.capacity && forall n :: SoundFile(v, n)
  }

  ghost predicate SoundFile(v: View, n: nat) {
    (n in v.d <==> n in v.t.nodes && v.t.nodes[n].kind.VReg?)
    && (n in v.d && n in v.t.nodes ==>
          v.t.nodes[n].size == |v.d[n]| && v.t.nodes[n].pages * PAGE_SIZE == RoundPage(|v.d[n]|))
  }

  ghost predicate Happens(c: Call, lim: Limits, e: Event, v: View, v': View) {
    match c
    case Apply(op) =>
      if Passed(v.t, op) then
        e.Did? && Effect(op, lim, e.a, v.t, v'.t) && BytesFollow(op, e.a, v.d, v'.d)
      else e.Skipped? && v' == v
    case Put(n, w) =>
      if n in v.d then
        e.Wrote? && WriteAnswer(v.d[n], lim.capacity - Bytes(v.t), w, e.off, e.err, e.done) && OnlySize(v.t, v'.t, n)
        && v'.d == v.d[n := Written(v.d[n], e.off, w.data, e.err, e.done)]
      else e.Skipped? && v' == v
    case Get(n, off, len, avail, maps) =>
      v' == v && if n in v.d then e.Got? && ReadAnswer(v.d[n], off, len, avail, maps, e.err, e.out) else e.Skipped?
  }

  ghost predicate HappensAt(vs: seq<View>, calls: seq<Call>, lim: Limits, es: seq<Event>, i: nat)
    requires |vs| == |calls| + 1 && |es| == |calls| && i < |calls|
  {
    Happens(calls[i], lim, es[i], vs[i], vs[i + 1])
  }

  ghost predicate AllSound(vs: seq<View>, lim: Limits) {
    forall i :: 0 <= i < |vs| ==> SoundView(vs[i], lim)
  }

  ghost predicate IsHistory(vs: seq<View>, calls: seq<Call>, lim: Limits, es: seq<Event>) {
    |vs| == |calls| + 1 && |es| == |calls| && AllSound(vs, lim)
    && forall i :: 0 <= i < |calls| ==> HappensAt(vs, calls, lim, es, i)
  }

  /** Calls that may change the bytes of file `n`. */
  predicate Touches(c: Call, n: nat) {
    (c.Put? && c.n == n) || (c.Apply? && ((c.op.Truncate? && c.op.n == n) || (c.op.Forget? && c.op.n == n)))
  }

  /** All other calls leave the file in place with its bytes. */
  lemma Untouched(c: Call, lim: Limits, e: Event, v: View, v': View, n: nat)
    requires Happens(c, lim, e, v, v') && SoundFile(v, n) && SoundFile(v', n) && n in v.d && !Touches(c, n)
    ensures n in v'.d && v'.d[n] == v.d[n]
  {
    if c.Apply? && Passed(v.t, c.op) {
      FilesStay(c.op, lim, e.a, v.t, v'.t, n);
      assert n in v'.t.nodes;
      assert BytesAt(c.op, e.a, v.d, v'.d, n);
    }
  }

  lemma {:induction false} BytesKept(vs: seq<View>, calls: seq<Call>, lim: Limits, es: seq<Event>, n: nat, i: nat,
                                     j: nat)
    requires IsHistory(vs, calls, lim, es) && i <= j <= |calls| && n in vs[i].d
    requires forall k :: i <= k < j ==> !Touches(calls[k], n)
    ensures n in vs[j].d && vs[j].d[n] == vs[i].d[n]
    decreases j
  {
    if i < j {
      BytesKept(vs, calls, lim, es, n, i, j - 1);
      assert HappensAt(vs, calls, lim, es, j - 1) && SoundFile(vs[j - 1], n) && SoundFile(vs[j], n);
      Untouched(calls[j - 1], lim, es[j - 1], vs[j - 1], vs[j], n);
    }
  }

  /**
    What a successful write put into a file is what a later read of that place gets, whatever happens
    meanwhile to its names, to other files and to the directories, as long as nobody writes to the file,
    truncates it or lets go of it. Bytes before the write read as before it.
  */
  lemma ReadsWhatWasWritten(vs: seq<View>, calls: seq<Call>, lim: Limits, es: seq<Event>, i: nat, j: nat)
    requires IsHistory(vs, calls, lim, es) && i < j < |calls|
    requires calls[i].Put? && es[i].Wrote? && !es[i].err && calls[i].w.data != []
    requires calls[j].Get? && calls[j].n == calls[i].n
    requires forall k :: i < k < j ==> !Touches(calls[k], calls[i].n)
    ensures calls[i].n in vs[i].d
    ensures es[j].Got? && (es[j].err ==> calls[j].avail < calls[j].len || calls[j].maps < calls[j].len)
    ensures calls[j].off == es[i].off && calls[j].len == |calls[i].w.data| ==>
      if es[j].err then es[j].out <= calls[i].w.data else es[j].out == calls[i].w.data
    ensures var was, end := vs[i].d[calls[i].n], calls[j].off + calls[j].len;
      !es[j].err && end <= es[i].off && end <= |was| ==> es[j].out == F.Slice(was, calls[j].off, calls[j].len)
  {
    var n := calls[i].n;
    assert HappensAt(vs, calls, lim, es, i) && HappensAt(vs, calls, lim, es, j);
    BytesKept(vs, calls, lim, es, n, i + 1, j);
    F.ReadBack(vs[i].d[n], es[i].off, calls[i].w.data, calls[j].off, calls[j].len);
  }

  lemma ExtendSound(vs: seq<View>, lim: Limits, v: View)
    requires AllSound(vs, lim) && SoundView(v, lim)
    ensures AllSound(vs + [v], lim)
  {
  }

  lemma ExtendHistory(vs: seq<View>, calls: seq<Call>, lim: Limits, es: seq<Event>, i: nat, e: Event, v: View)
    requires i < |calls| && IsHistory(vs, calls[..i], lim, es) && SoundView(v, lim)
    requires Happens(calls[i], lim, e, vs[i], v)
    ensures IsHistory(vs + [v], calls[..i + 1], lim, es + [e])
  {
    var vs', calls', es' := vs + [v], calls[..i + 1], es + [e];
    ExtendSound(vs, lim, v);
    forall k | 0 <= k < |calls'| ensures HappensAt(vs', calls', lim, es', k) {
      if k < i { assert HappensAt(vs, calls[..i], lim, es, k); }
    }
  }

  class Volume {
    const m: Mount
    var files: Files
    ghost var contents: map<nat, seq<byte>>    // the bytes of every file

    ghost predicate Valid()
      reads this, m, m.pool
    {
      m.Valid() && Stored()
    }

    ghost predicate Stored()
      reads this, m
    {
      Backed(m.T(), files) && contents == DataOf(files)
    }

    /** A volume whose mount has no files yet. */
    constructor (m: Mount)
      requires m.Valid() && forall n :: n in m.nodes ==> !m.nodes[n].kind.VReg?
      ensures Valid() && this.m == m && contents == map[]
    {
      this.m, files, contents := m, map[], map[];
      new;
      forall n ensures BackedAt(m.T(), files, n) {}
    }

    /** A file's size changes in the mount and in its object; all other files keep their bytes. */
    method Resize(n: nat, newsize: nat, growOk: bool, ghost was: seq<byte>) returns (err: Errno)
      requires Valid() && n in files && n in contents && contents[n] == was
      modifies this, m, m.pool
      ensures Valid() && m.OnlyMine() && n in files && OnlySize(old(m.T()), m.T(), n)
      ensures err.OK? <==> MayGrow(|was|, newsize, old(m.pool.Room(m.me)), growOk)
      ensures contents == if err.OK? then old(contents)[n := F.Truncated(was, newsize)] else old(contents)
    {
      ghost var t := m.T();
      BackedFile(t, files, n);
      err := ResizeNode(n, newsize, growOk);
      if err.OK? {
        var f := ResizeFile(files[n], newsize);
        Store(n, f, t);
      } else {
        SameBacked(t, m.T(), files);
      }
    }

    /** tmpfs_write: bytes, size and account together. A write that fails half-way gives back what it grew by. */
    method Write(n: nat, w: Request, ghost was: seq<byte>) returns (off: nat, err: bool, done: nat)
      requires Valid() && n in files && n in contents && contents[n] == was
      modifies this, m, m.pool
      ensures Valid() && m.OnlyMine() && OnlySize(old(m.T()), m.T(), n)
      ensures WriteAnswer(was, old(m.pool.Room(m.me)), w, off, err, done)
      ensures contents == old(contents)[n := Written(was, off, w.data, err, done)]
    {
      BackedFile(m.T(), files, n);
      off := if w.append then files[n].size else w.offset;
      if w.data == [] {
        SameSize(m.T(), m.T(), n);
        NothingWritten(contents, n, off, w.data);
        return off, false, 0;
      }
      err, done := WriteAt(n, off, w, was);
    }

    method WriteAt(n: nat, off: nat, w: Request, ghost was: seq<byte>) returns (err: bool, done: nat)
      requires Valid() && n in files && n in contents && contents[n] == was && w.data != []
      requires off == if w.append then |was| else w.offset
      modifies this, m, m.pool
      ensures Valid() && m.OnlyMine() && OnlySize(old(m.T()), m.T(), n)
      ensures WriteAnswer(was, old(m.pool.Room(m.me)), w, off, err, done)
      ensures contents == old(contents)[n := Written(was, off, w.data, err, done)]
    {
      BackedFile(m.T(), files, n);
      var oldsize := files[n].size;
      ghost var t, d := m.T(), contents;
      Reached(was, off, w.data);
      var ok := Widen(n, off + |w.data|, w.growOk, was, Reach(|was|, off + |w.data|));
      if !ok {
        NothingWritten(d, n, off, w.data);
        return true, 0;
      }
      ghost var u := m.T();
      err, done := WriteInside(n, was, oldsize, off, w.data, w.avail, w.maps);
      SizeTwice(t, u, m.T(), n);
      LastWrite(d, n, F.Widened(was, off, w.data), Written(was, off, w.data, err, done));
    }

    /** Make the file long enough for the write, if it is not. */
    method Widen(n: nat, end: nat, growOk: bool, ghost was: seq<byte>, ghost to: nat) returns (ok: bool)
      requires Valid() && n in files && n in contents && contents[n] == was && to == Reach(|was|, end)
      modifies this, m, m.pool
      ensures Valid() && m.OnlyMine() && n in files && OnlySize(old(m.T()), m.T(), n)
      ensures ok <==> MayGrow(|was|, to, old(m.pool.Room(m.me)), growOk)
      ensures contents == if ok then old(contents)[n := F.Truncated(was, to)] else old(contents)
    {
      BackedFile(m.T(), files, n);
      if end > files[n].size {
        var err := Resize(n, end, growOk, was);
        return err.OK?;
      }
      SameSize(m.T(), m.T(), n);
      LongEnough(contents, n, m.pool.Room(m.me), growOk);
      return true;
    }

    /** The rest of tmpfs_write, once a file that held `was` is long enough. */
    method WriteInside(n: nat, ghost was: seq<byte>, oldsize: nat, off: nat, data: seq<byte>, avail: nat, maps: nat)
      returns (err: bool, done: nat)
      requires Valid() && n in files && data != [] && |was| == oldsize && n in contents
      requires contents[n] == F.Widened(was, off, data)
      modifies this, m, m.pool
      ensures Valid() && m.OnlyMine() && done <= |data| && OnlySize(old(m.T()), m.T(), n)
      ensures (err ==> avail < |data| || maps < |data|) && (avail < |data| ==> err)
      ensures contents == old(contents)[n := Written(was, off, data, err, done)]
    {
      ghost var t := m.T();
      BackedFile(t, files, n);
      var f;
      f, err, done := WriteFile(files[n], was, oldsize, off, data, avail, maps);
      GiveBack(n, oldsize, err);
      Store(n, f, t);
    }

    /** The file of a node takes the size its node has been given. */
    method Store(n: nat, f: F.File, ghost t: Tree)
      requires Backed(t, files) && contents == DataOf(files) && F.FileOk(f) && n in files && n in m.nodes
      requires OnlySize(t, m.T(), n) && f.size == m.nodes[n].size
      modifies this
      ensures Stored() && n in files && contents == old(contents)[n := F.ContentsOf(f)]
    {
      BackedFile(t, files, n);
      BackedUpdate(t, m.T(), files, n, f);
      files, contents := files[n := f], contents[n := F.ContentsOf(f)];
    }

    method ResizeNode(n: nat, newsize: nat, growOk: bool) returns (err: Errno)
      requires m.Valid() && n in m.nodes && m.nodes[n].kind.VReg? && m.nodes[n].size >= 0
      modifies m, m.pool
      ensures m.Valid() && m.OnlyMine() && n in m.nodes
      ensures err.OK? <==> MayGrow(old(m.nodes[n].size), newsize, old(m.pool.Room(m.me)), growOk)
      ensures OnlySize(old(m.T()), m.T(), n) && (err.OK? ==> m.nodes[n].size == newsize)
      ensures !err.OK? ==> m.nodes == old(m.nodes)
    {
      SizedNode(m.T(), n);
      err := m.Resize(n, newsize, growOk);
    }

    method GiveBack(n: nat, size: nat, err: bool)
      requires m.Valid() && n in m.nodes && m.nodes[n].kind.VReg? && size <= m.nodes[n].size
      modifies m, m.pool
      ensures m.Valid() && m.OnlyMine() && n in m.nodes && OnlySize(old(m.T()), m.T(), n)
      ensures m.nodes[n].size == if err then size else old(m.nodes[n].size)
    {
      SameSize(m.T(), m.T(), n);
      if err { ShrinkNode(n, size); }
    }

    /** Giving pages back always goes through. */
    method ShrinkNode(n: nat, size: nat)
      requires m.Valid() && n in m.nodes && m.nodes[n].kind.VReg? && size <= m.nodes[n].size
      modifies m, m.pool
      ensures m.Valid() && m.OnlyMine() && n in m.nodes && OnlySize(old(m.T()), m.T(), n) && m.nodes[n].size == size
    {
      SizedNode(m.T(), n);
      NoGrowth(m.nodes[n].size, size);
      var _ := m.Resize(n, size, true);
    }

    /** tmpfs_read */
    method Read(n: nat, off: nat, len: nat, avail: nat, maps: nat) returns (err: bool, out: seq<byte>)
      requires Valid() && n in files
      modifies this
      ensures Valid() && contents == old(contents) && n in contents
      ensures ReadAnswer(contents[n], off, len, avail, maps, err, out)
    {
      err, out := Fetch(n, off, len, avail, maps);
    }

    method Fetch(n: nat, off: nat, len: nat, avail: nat, maps: nat) returns (err: bool, out: seq<byte>)
      requires Stored() && n in files
      modifies this
      ensures Stored() && contents == old(contents) && n in contents
      ensures ReadAnswer(contents[n], off, len, avail, maps, err, out)
    {
      BackedFile(m.T(), files, n);
      SameSize(m.T(), m.T(), n);
      var f;
      f, err, out := ReadFile(files[n], off, len, avail, maps);
      assert contents[n := F.ContentsOf(f)] == contents;
      Store(n, f, m.T());
    }

    /**
      Any operation on names, attributes or sizes: its effect on the graph, exactly when it succeeds, and
      with it what becomes of the bytes of every file.
    */
    method Do(op: Op, reclen: string -> nat) returns (a: Answer)
      requires Valid() && Admissible(m.T(), op)
      modifies this, m, m.pool
      ensures m.OnlyMine() && m.Billed(0) && Stored()
      ensures Effect(op, old(LimitsOf(m, reclen)), a, old(m.T()), m.T())
      ensures BytesFollow(op, a, old(contents), contents)
      ensures Valid() <==> !(IntoRemoved(old(m.T()), op) && a == Done(OK))
    {
      ghost var t, lim := m.T(), LimitsOf(m, reclen);
      a := Perform(m, op, reclen);
      Follow(op, a, t, lim);
    }

    /** The files after an operation on the nodes. */
    method Follow(op: Op, a: Answer, ghost t: Tree, ghost lim: Limits)
      requires Admissible(t, op) && Effect(op, lim, a, t, m.T()) && Backed(t, files) && contents == DataOf(files)
      modifies this
      ensures Stored() && BytesFollow(op, a, old(contents), contents)
    {
      if op.Truncate? && a == Done(OK) {
        assert BackedAt(t, files, op.n);
        TruncatedNode(op, lim, a, t, m.T());
      }
      var fs := Sync(op, a);
      SyncedOk(op, lim, a, t, m.T(), files, fs);
      files, contents := fs, DataOf(fs);
    }

    /** A file for a new regular node, another size for a truncated one, and none for a node that is gone. */
    method Sync(op: Op, a: Answer) returns (fs: Files)
      requires op.Truncate? && a == Done(OK) ==>
        op.n in files && F.FileOk(files[op.n]) && op.n in m.nodes && m.nodes[op.n].kind.VReg?
      ensures forall n :: Synced(op, a, m.T(), files, fs, n)
    {
      fs := map n | n in m.nodes && m.nodes[n].kind.VReg? :: if n in files then files[n] else F.EmptyFile;
      if op.Truncate? && a == Done(OK) {
        var f := ResizeFile(files[op.n], op.size);
        fs := fs[op.n := f];
      }
    }

    ghost function Seen(): View
      reads this, m
    {
      View(m.T(), contents)
    }

    lemma Sound(reclen: string -> nat)
      requires Valid()
      ensures SoundView(Seen(), LimitsOf(m, reclen))
    {
      m.RoomIs();
      forall n ensures SoundFile(Seen(), n) {
        assert BackedAt(m.T(), files, n);
        if n in files { assert NodeOk(m.T(), {}, n); }
      }
    }

    /** One call, as far as it makes sense in the state it meets. */
    method Step(c: Call, reclen: string -> nat) returns (e: Event)
      requires Valid()
      modifies this, m, m.pool
      ensures Valid() && m.OnlyMine()
      ensures Happens(c, old(LimitsOf(m, reclen)), e, old(Seen()), Seen())
    {
      match c {
        case Apply(op) => e := StepApply(op, reclen);
        case Put(n, w) => e := StepPut(n, w, reclen);
        case Get(n, off, len, avail, maps) => e := StepGet(n, off, len, avail, maps, reclen);
      }
    }

    method Advance(c: Call, reclen: string -> nat) returns (e: Event)
      requires Valid()
      modifies this, m, m.pool
      ensures Valid() && m.OnlyMine() && LimitsOf(m, reclen) == old(LimitsOf(m, reclen))
      ensures Happens(c, LimitsOf(m, reclen), e, old(Seen()), Seen()) && SoundView(Seen(), LimitsOf(m, reclen))
    {
      e := Step(c, reclen);
      Sound(reclen);
    }

    method StepApply(op: Op, reclen: string -> nat) returns (e: Event)
      requires Valid()
      modifies this, m, m.pool
      ensures Valid() && m.OnlyMine()
      ensures Happens(Apply(op), old(LimitsOf(m, reclen)), e, old(Seen()), Seen())
    {
      if !Passed(m.T(), op) { return Skipped; }
      var a := Do(op, reclen);
      e := Did(a);
    }

    method StepPut(n: nat, w: Request, reclen: string -> nat) returns (e: Event)
      requires Valid()
      modifies this, m, m.pool
      ensures Valid() && m.OnlyMine()
      ensures Happens(Put(n, w), old(LimitsOf(m, reclen)), e, old(Seen()), Seen())
    {
      if n !in files { return Skipped; }
      m.RoomIs();
      var off, err, done := Write(n, w, contents[n]);
      e := Wrote(off, err, done);
    }

    method StepGet(n: nat, off: nat, len: nat, avail: nat, maps: nat, reclen: string -> nat) returns (e: Event)
      requires Valid()
      modifies this
      ensures Valid() && Happens(Get(n, off, len, avail, maps), old(LimitsOf(m, reclen)), e, old(Seen()), Seen())
    {
      if n !in files { return Skipped; }
      var err, out := Read(n, off, len, avail, maps);
      e := Got(err, out);
    }

    /** Any list of calls makes a history. */
    method RunAll(calls: seq<Call>, reclen: string -> nat) returns (ghost vs: seq<View>, es: seq<Event>)
      requires Valid()
      modifies this, m, m.pool
      ensures Valid() && m.OnlyMine() && IsHistory(vs, calls, old(LimitsOf(m, reclen)), es)
      ensures vs[0] == old(Seen()) && vs[|calls|] == Seen()
    {
      ghost var lim := LimitsOf(m, reclen);
      vs, es := [Seen()], [];
      Sound(reclen);
      for i := 0 to |calls|
        invariant Valid() && m.OnlyMine() && LimitsOf(m, reclen) == lim && IsHistory(vs, calls[..i], lim, es)
        invariant vs[0] == old(Seen()) && vs[i] == Seen()
      {
        var e := Advance(calls[i], reclen);
        ExtendHistory(vs, calls, lim, es, i, e, Seen());
        vs, es := vs + [Seen()], es + [e];
      }
      assert calls[..|calls|] == calls;
    }
  }

  lemma SameBacked(t: Tree, t': Tree, fs: Files)
    requires Backed(t, fs) && t'.nodes == t.nodes
    ensures Backed(t', fs)
  {
    forall n ensures BackedAt(t', fs, n) { assert BackedAt(t, fs, n); }
  }

  method ResizeFile(was: F.File, newsize: nat) returns (f: F.File)
    requires F.FileOk(was)
    ensures F.FileOk(f) && f.size == newsize && F.ContentsOf(f) == F.Truncated(F.ContentsOf(was), newsize)
  {
    var file := new F.RegFile.Of(was);
    var _ := file.Resize(newsize, true, true);
    f := file.V();
  }

  method WriteFile(file: F.File, ghost was: seq<byte>, oldsize: nat, off: nat, data: seq<byte>, avail: nat, maps: nat)
    returns (f: F.File, err: bool, done: nat)
    requires F.FileOk(file) && data != [] && |was| == oldsize && F.ContentsOf(file) == F.Widened(was, off, data)
    ensures F.FileOk(f) && done <= |data| && (err ==> avail < |data| || maps < |data|) && (avail < |data| ==> err)
    ensures F.ContentsOf(f) == Written(was, off, data, err, done) && f.size == if err then oldsize else file.size
  {
    var rf := new F.RegFile.Of(file);
    err, done := rf.WriteInside(was, oldsize, off, data, avail, maps);
    f := rf.V();
  }

  method ReadFile(was: F.File, off: nat, len: nat, avail: nat, maps: nat)
    returns (f: F.File, err: bool, out: seq<byte>)
    requires F.FileOk(was)
    ensures F.FileOk(f) && f.size == was.size && F.ContentsOf(f) == F.ContentsOf(was)
    ensures ReadAnswer(F.ContentsOf(was), off, len, avail, maps, err, out)
  {
    var file := new F.RegFile.Of(was);
    err, out := file.Read(off, len, avail, maps);
    f := file.V();
  }
}
