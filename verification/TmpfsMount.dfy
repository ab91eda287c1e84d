/**
  A mounted tmpfs: the operations that create, link, remove and rename, with their
  failure paths, over the node graph and the memory account of the mount.
*/
module TmpfsMount {
  import opened Prelude
  import opened Sums
  import opened TmpfsTree
  import opened TmpfsNames
  import opened TmpfsMem
  import opened TmpfsBill
  import opened TmpfsEdits
  import D = TmpfsDir

  const LINK_MAX := 32767

  datatype Errno =
    | OK | EPERM | ENOENT | EACCES | ENOTDIR | EISDIR | EINVAL | EBUSY | ENFILE | EROFS | ENOSPC | EMLINK | ENOTEMPTY

  predicate SystemFlagged(x: Node) {
    x.flags.sysImmutable || x.flags.sysAppend
  }

  predicate Frozen(x: Node) {
    Immutable(x) || AppendOnly(x)
  }

  /** Two keys written one after the other, in either order and more than once. */
  lemma WriteTwo<T>(m: map<nat, T>, d: nat, x: T, n: nat, y: T)
    requires d != n
    ensures m[n := y][d := x] == m[d := x][n := y]
  {
  }

  lemma WriteTwice<T>(m: map<nat, T>, d: nat, x: T, x': T, n: nat, y: T, y': T)
    requires d != n
    ensures m[n := y'][d := x'][n := y][d := x] == m[d := x][n := y]
    ensures m[n := y'][n := y][d := x'][d := x] == m[d := x][n := y]
  {
  }

  /** Handing out another entry object does not disturb the graph. */
  lemma BumpInv(t: Tree, fl: set<nat>, next: nat)
    requires Inv(t, fl) && t.nextDe <= next
    ensures Inv(t.(nextDe := next), fl) && Bytes(t.(nextDe := next)) == Bytes(t)
  {
    var t' := t.(nextDe := next);
    forall d, k ensures EntAtOk(t', d, k) { assert EntAtOk(t, d, k); }
    forall b, i, c, j ensures Apart(t', b, i, c, j) { assert Apart(t, b, i, c, j); }
    forall m ensures NodeOk(t', fl, m) {
      assert NodeOk(t, fl, m);
      forall c, i | HasEnt(t, c, i, m) ensures HasEnt(t', c, i, m) { HasEntSame(t, t', c, i, m); }
    }
    forall m ensures RootedAt(t', fl, m) {
      assert RootedAt(t, fl, m);
      if m in t.nodes && t.nodes[m].parent.Some? {
        var a: nat :| (a == t.root || a in fl) && Reaches(t, m, a);
        assert Reaches(t, m, a);
        var p :| PathTo(t, p, m, a);
        forall i | 0 <= i < |p| - 1 ensures Link(t', p, i) { assert Link(t, p, i); }
        assert PathTo(t', p, m, a);
      }
    }
  }

  lemma BumpFresh(t: Tree, fl: set<nat>)
    requires EntsOk(t)
    ensures FreshId(t.(nextDe := t.nextDe + 1), t.nextDe)
  {
    var t' := t.(nextDe := t.nextDe + 1);
    forall c, i ensures Differs(t', t.nextDe, c, i) { assert EntAtOk(t, c, i); }
  }

  lemma FreshHasNoId(t: Tree, d: nat, id: nat)
    requires FreshId(t, id) && d in t.nodes
    ensures !D.HasId(t.nodes[d].dir.entries, id)
  {
    forall i | 0 <= i < |t.nodes[d].dir.entries| ensures t.nodes[d].dir.entries[i].id != id {
      assert Differs(t, id, d, i);
    }
  }

  /** A create is no step for the nodes that were there, its directory aside. */
  lemma CreatedSteps(t: Tree, d: nat, n: nat, kind: Kind, len: nat, name: string)
    requires Inv(t, {}) && NamesOk(t) && n !in t.nodes && d in t.nodes && t.nodes[d].kind.VDir? && t.nodes[d].links != 0
    requires !D.Full(t.nodes[d].dir)
    ensures TreeSteps(t, Attached(Allocated(t, n, kind, len), d, t.nextDe, name, n))
  {
    var t1 := Allocated(t, n, kind, len);
    AllocatedOk(t, d, n, kind, len);
    FreshHasNoId(t1, d, t.nextDe);
    AttachSteps(t1, d, t.nextDe, name, n);
    AllocSteps(t, n, t1, Attached(t1, d, t.nextDe, name, n));
  }

  lemma BumpNames(t: Tree, next: nat)
    requires NamesOk(t)
    ensures NamesOk(t.(nextDe := next))
  {
    forall d ensures NamesOkAt(t.(nextDe := next), d) { assert NamesOkAt(t, d); }
  }

  /** Attaching under an unused name binds that name and nothing else. */
  lemma AttachNames(t: Tree, d: nat, id: nat, name: string, n: nat)
    requires NamesOk(t) && d in t.nodes && n in t.nodes && d != n && !D.Full(t.nodes[d].dir) && Bind(t, d, name).None?
    ensures var t' := Attached(t, d, id, name, n);
      NamesOk(t') && forall c, nm :: Bind(t', c, nm) == if c == d && nm == name then Some(n) else Bind(t, c, nm)
  {
    var t' := Attached(t, d, id, name, n);
    var es := t.nodes[d].dir.entries;
    forall c ensures NamesOkAt(t', c) { assert NamesOkAt(t, c); }
    forall c, nm ensures Bind(t', c, nm) == if c == d && nm == name then Some(n) else Bind(t, c, nm) {
      LookupAppend(es, D.Dirent(id, t.nodes[d].dir.nextSeq, name, n), nm);
    }
  }

  /** Detaching unbinds the entry's name and nothing else. */
  lemma DetachNames(t: Tree, d: nat, k: nat)
    requires NamesOk(t) && d in t.nodes && k < |t.nodes[d].dir.entries| && Leaving(t, d, k) in t.nodes
    requires Leaving(t, d, k) != d
    ensures var t' := Detached(t, d, k);
      NamesOk(t')
      && forall c, nm :: Bind(t', c, nm)
           == if c == d && nm == t.nodes[d].dir.entries[k].name then None else Bind(t, c, nm)
  {
    var t' := Detached(t, d, k);
    var es := t.nodes[d].dir.entries;
    assert NamesOkAt(t, d);
    forall c ensures NamesOkAt(t', c) { assert NamesOkAt(t, c); LookupRemoved(es, k, ""); }
    forall c, nm ensures Bind(t', c, nm) == if c == d && nm == es[k].name then None else Bind(t, c, nm) {
      LookupRemoved(es, k, nm);
    }
  }

  lemma LookupIndex(t: Tree, d: nat, name: string) returns (k: nat)
    requires NodesOk(t, {}) && NamesOk(t) && d in t.nodes && D.Lookup(t.nodes[d].dir.entries, name).Some?
    ensures k < |t.nodes[d].dir.entries| && t.nodes[d].dir.entries[k] == D.Lookup(t.nodes[d].dir.entries, name).value
    ensures D.HasId(t.nodes[d].dir.entries, t.nodes[d].dir.entries[k].id)
    ensures D.IndexOf(t.nodes[d].dir.entries, t.nodes[d].dir.entries[k].id) == k
  {
    assert NodeOk(t, {}, d);
    var e := D.Lookup(t.nodes[d].dir.entries, name).value;
    k :| k < |t.nodes[d].dir.entries| && t.nodes[d].dir.entries[k] == e;
  }

  lemma TouchNames(t: Tree, n: nat, y: Node)
    requires NamesOk(t) && n in t.nodes && y.dir.entries == t.nodes[n].dir.entries
    ensures NamesOk(WithNode(t, n, y)) && forall c, nm :: Bind(WithNode(t, n, y), c, nm) == Bind(t, c, nm)
  {
    forall d ensures NamesOkAt(WithNode(t, n, y), d) { assert NamesOkAt(t, d); }
  }

  /** What another size, with the pages it calls for, does to the graph and to the bill. */
  lemma ResizedOk(t: Tree, n: nat, size: nat)
    requires Inv(t, {}) && NamesOk(t) && n in t.nodes && t.nodes[n].kind.VReg?
    ensures t.nodes[n].size >= 0 && t.nodes[n].pages * PAGE_SIZE == RoundPage(t.nodes[n].size)
    ensures var t' := WithNode(t, n, t.nodes[n].(size := size, pages := RoundPage(size) / PAGE_SIZE));
      Inv(t', {}) && NamesOk(t') && Bytes(t') >= 0
      && Bytes(t') == Bytes(t) + RoundPage(size) - t.nodes[n].pages * PAGE_SIZE
  {
    assert NodeOk(t, {}, n);
    var y := t.nodes[n].(size := size, pages := RoundPage(size) / PAGE_SIZE);
    TouchInv(t, n, y);
    TouchNames(t, n, y);
    TotalUpdate(t.nodes, n, y, NodeBytes);
    BytesPositive(WithNode(t, n, y));
  }

  lemma FlaggedOk(t: Tree, n: nat, flags: Flags)
    requires Inv(t, {}) && NamesOk(t) && n in t.nodes
    ensures var t' := WithNode(t, n, t.nodes[n].(flags := flags));
      Inv(t', {}) && NamesOk(t') && Bytes(t') == Bytes(t) && forall c, nm :: Bind(t', c, nm) == Bind(t, c, nm)
  {
    assert NodeOk(t, {}, n);
    var y := t.nodes[n].(flags := flags);
    TouchInv(t, n, y);
    TouchNames(t, n, y);
    TotalUpdate(t.nodes, n, y, NodeBytes);
  }

  /** Directory `n` is as it was, its reader cache aside, and so is everything else. */
  ghost predicate CacheMoved(t: Tree, t': Tree, n: nat) {
    n in t.nodes && n in t'.nodes && t'.nextDe == t.nextDe
    && t'.nodes == t.nodes[n := t.nodes[n].(dir := t.nodes[n].dir.(lastp := t'.nodes[n].dir.lastp))]
  }

  lemma SameCache(t: Tree, n: nat)
    requires n in t.nodes
    ensures CacheMoved(t, t, n)
  {
  }

  lemma BytesPositive(t: Tree)
    ensures Bytes(t) >= 0
  {
    TotalNonNegative(t.nodes, NodeBytes);
  }

  /** What giving up a node does to the bill and to the number of nodes. */
  lemma FreedNode(t: Tree, n: nat)
    requires n in t.nodes
    ensures Bytes(t) >= NodeBytes(t.nodes[n]) && Bytes(WithoutNode(t, n)) == Bytes(t) - NodeBytes(t.nodes[n])
    ensures |t.nodes - {n}| == |t.nodes| - 1
  {
    BytesAtLeast(t, n);
    WithoutNodeBytes(t, n);
    OneFewer(t.nodes, n);
  }

  lemma WithoutNew(t: Tree, n: nat, x: Node)
    requires n !in t.nodes
    ensures WithoutNode(WithNode(t, n, x), n).nodes == t.nodes
  {
  }

  lemma OneFewer(nodes: map<nat, Node>, n: nat)
    requires n in nodes
    ensures |nodes - {n}| == |nodes| - 1
  {
    assert (nodes - {n}).Keys == nodes.Keys - {n};
  }

  /** A linked directory that is not the one in transit hangs from the root. */
  lemma AttachedReaches(t: Tree, fl: set<nat>, d: nat)
    requires Inv(t, fl) && d in t.nodes && t.nodes[d].kind.VDir? && t.nodes[d].links > 0 && d !in fl
    requires forall f :: f in fl ==> f in t.nodes && t.nodes[f].dir.entries == []
    ensures t.nodes[d].parent.Some? && Reaches(t, d, t.root)
  {
    assert NodeOk(t, fl, d) && RootedAt(t, fl, d);
    if f :| f in fl && Reaches(t, d, f) { AncestorNotEmpty(t, fl, f, d); }
  }

  /** The graph once a new node and a new entry for it are allocated but not attached. */
  function Allocated(t: Tree, n: nat, kind: Kind, len: nat): Tree {
    WithNode(t, n, FreshNode(kind, len)).(nextDe := t.nextDe + 1)
  }

  lemma AllocatedOk(t: Tree, d: nat, n: nat, kind: Kind, len: nat)
    requires Inv(t, {}) && NamesOk(t) && n !in t.nodes && d in t.nodes && t.nodes[d].kind.VDir? && t.nodes[d].links != 0
    ensures var t' := Allocated(t, n, kind, len);
      Inv(t', if kind.VDir? then {n} else {}) && NamesOk(t') && FreshId(t', t.nextDe)
      && t.nodes[d].parent.Some? && Reaches(t', d, t.root) && forall c, nm :: Bind(t', c, nm) == Bind(t, c, nm)
  {
    var t1 := WithNode(t, n, FreshNode(kind, len));
    var fl := if kind.VDir? then {n} else {};
    AllocInv(t, n, kind, len);
    BumpInv(t1, fl, t.nextDe + 1);
    BumpFresh(t1, fl);
    assert NodeOk(t, {}, d);
    AttachedReaches(t1.(nextDe := t.nextDe + 1), fl, d);
    forall c ensures NamesOkAt(Allocated(t, n, kind, len), c) { assert NamesOkAt(t, c); }
  }

  /** What a successful create leaves behind. */
  lemma CreatedOk(t: Tree, d: nat, n: nat, kind: Kind, len: nat, name: string)
    requires Inv(t, {}) && NamesOk(t) && n !in t.nodes && d in t.nodes && t.nodes[d].kind.VDir? && t.nodes[d].links != 0
    requires !D.Full(t.nodes[d].dir) && Bind(t, d, name).None?
    ensures var t' := Attached(Allocated(t, n, kind, len), d, t.nextDe, name, n);
      Inv(t', {}) && NamesOk(t') && Bytes(t') == Bytes(Allocated(t, n, kind, len)) + EntBytes(name)
      && forall c, nm :: Bind(t', c, nm) == if c == d && nm == name then Some(n) else Bind(t, c, nm)
  {
    var t1 := Allocated(t, n, kind, len);
    AllocatedOk(t, d, n, kind, len);
    assert {n} - {n} == {};
    AttachInv(t1, if kind.VDir? then {n} else {}, d, t.nextDe, name, n);
    AttachBytes(t1, d, t.nextDe, name, n);
    AttachNames(t1, d, t.nextDe, name, n);
  }

  /** What a hard link does to the graph and to names. */
  ghost predicate LinkEffect(t: Tree, t': Tree, d: nat, n: nat, name: string) {
    NamesOk(t') && d in t.nodes && n in t.nodes && n in t'.nodes && t'.nodes[n].links == t.nodes[n].links + 1
    && (Inv(t', {}) <==> t.nodes[d].parent.Some?) && Rearranged(t, t')
    && forall c, nm :: Bind(t', c, nm) == if c == d && nm == name then Some(n) else Bind(t, c, nm)
  }

  /** A link keeps the graph sound exactly if the directory it goes into has not been removed. */
  lemma LinkedInv(t: Tree, d: nat, n: nat, name: string)
    requires Inv(t, {}) && n in t.nodes && !t.nodes[n].kind.VDir?
    requires d in t.nodes && t.nodes[d].kind.VDir? && !D.Full(t.nodes[d].dir)
    ensures var t' := Attached(t.(nextDe := t.nextDe + 1), d, t.nextDe, name, n);
      Inv(t', {}) <==> t.nodes[d].parent.Some?
  {
    var t1 := t.(nextDe := t.nextDe + 1);
    if t.nodes[d].parent.Some? {
      BumpInv(t, {}, t.nextDe + 1);
      BumpFresh(t, {});
      AttachInv(t1, {}, d, t.nextDe, name, n);
    } else {
      var t' := Attached(t1, d, t.nextDe, name, n);
      assert t'.nodes[d].parent.None? && t'.nodes[d].dir.entries != [];
      assert !NodeOk(t', {}, d);
    }
  }

  ghost predicate Linkable(t: Tree, d: nat, n: nat, name: string) {
    Inv(t, {}) && NamesOk(t) && n in t.nodes && !t.nodes[n].kind.VDir?
    && d in t.nodes && t.nodes[d].kind.VDir? && !D.Full(t.nodes[d].dir) && Bind(t, d, name).None?
  }

  lemma LinkedSteps(t: Tree, d: nat, n: nat, name: string)
    requires Linkable(t, d, n, name)
    ensures Rearranged(t, Attached(t.(nextDe := t.nextDe + 1), d, t.nextDe, name, n))
  {
    var t1 := t.(nextDe := t.nextDe + 1);
    BumpFresh(t, {});
    FreshHasNoId(t1, d, t.nextDe);
    AttachSteps(t1, d, t.nextDe, name, n);
    var t' := Attached(t1, d, t.nextDe, name, n);
    forall m ensures NodeSteps(t, t', m) { assert NodeSteps(t1, t', m); }
  }

  lemma LinkedOk(t: Tree, t': Tree, d: nat, n: nat, name: string)
    requires Linkable(t, d, n, name) && t' == Attached(t.(nextDe := t.nextDe + 1), d, t.nextDe, name, n)
    ensures LinkEffect(t, t', d, n, name)
  {
    var t1 := t.(nextDe := t.nextDe + 1);
    BumpNames(t, t.nextDe + 1);
    AttachNames(t1, d, t.nextDe, name, n);
    LinkedInv(t, d, n, name);
    LinkedSteps(t, d, n, name);
  }

  /** What removing a file entry or an empty directory leaves behind. */
  lemma RemovedOk(t: Tree, d: nat, k: nat)
    requires Inv(t, {}) && NamesOk(t) && Removable(t, d, Some(k))
    ensures var t' := TargetRemoved(t, d, Some(k));
      Inv(t', {}) && NamesOk(t') && Bytes(t') == Bytes(t) - EntBytes(t.nodes[d].dir.entries[k].name)
      && forall c, nm :: Bind(t', c, nm)
           == if c == d && nm == t.nodes[d].dir.entries[k].name then None else Bind(t, c, nm)
  {
    assert EntAtOk(t, d, k);
    TargetRemovedInv(t, d, Some(k));
    DetachBytes(t, d, k);
    DetachNames(t, d, k);
    var n := Leaving(t, d, k);
    var t1 := Detached(t, d, k);
    RelinkBytes(t1, n);
    var t2 := DotDropped(t1, n);
    forall c ensures NamesOkAt(t2, c) { assert NamesOkAt(t1, c); }
    forall c, nm ensures Bind(t2, c, nm) == Bind(t1, c, nm) {}
  }

  lemma RemovedBytes(t: Tree, d: nat, k: nat)
    requires DetachSafe(t, d, k) && t.nodes[d].kind.VDir?
    ensures var t' := TargetRemoved(t, d, Some(k));
      Bytes(t') == Bytes(t) - EntBytes(t.nodes[d].dir.entries[k].name) && Bytes(t') >= 0
  {
    DetachBytes(t, d, k);
    RelinkBytes(Detached(t, d, k), Leaving(t, d, k));
    BytesPositive(TargetRemoved(t, d, Some(k)));
  }

  /** An attached directory of size zero is empty and has exactly two links. */
  lemma RmdirLinks(t: Tree, n: nat)
    requires Inv(t, {}) && n in t.nodes && t.nodes[n].kind.VDir? && t.nodes[n].parent.Some? && t.nodes[n].size <= 0
    ensures t.nodes[n].dir.entries == [] && t.nodes[n].links == 2
  {
    assert NodeOk(t, {}, n);
  }

  ghost predicate EntryAt(t: Tree, d: nat, id: nat, k: nat) {
    d in t.nodes && k < |t.nodes[d].dir.entries| && t.nodes[d].dir.entries[k].id == id
    && D.HasId(t.nodes[d].dir.entries, id) && D.IndexOf(t.nodes[d].dir.entries, id) == k
  }

  ghost predicate EntryNamed(t: Tree, d: nat, k: nat, name: string) {
    d in t.nodes && k < |t.nodes[d].dir.entries| && t.nodes[d].dir.entries[k].name == name
    && Leaving(t, d, k) in t.nodes && Bind(t, d, name) == Some(Leaving(t, d, k))
  }

  ghost predicate DetachSafe(t: Tree, d: nat, k: nat) {
    d in t.nodes && k < |t.nodes[d].dir.entries|
    && var n := Leaving(t, d, k);
       n in t.nodes && n != d && t.nodes[n].links > 0
       && (t.nodes[n].kind.VDir? ==> t.nodes[n].parent == Some(d) && t.nodes[d].links > 0 && t.nodes[n].links >= 2)
  }

  /** The assertions of tmpfs_dir_detach hold for every entry of the graph. */
  lemma DetachAssertions(t: Tree, fl: set<nat>, d: nat, k: nat)
    requires Inv(t, fl) && d in t.nodes && k < |t.nodes[d].dir.entries|
    ensures DetachSafe(t, d, k)
  {
    assert EntAtOk(t, d, k) && NodeOk(t, fl, d) && NodeOk(t, fl, Leaving(t, d, k));
    UnlinkedUnreferenced(t, fl, Leaving(t, d, k), d, k);
  }

  /** What remove and rmdir demand: an entry of the right kind, nothing in it, and no flag in the way. */
  predicate MayRemove(t: Tree, d: nat, name: string, dir: bool) {
    Bind(t, d, name).Some?
    && var n := Bind(t, d, name).value;
       d in t.nodes && n in t.nodes && t.nodes[n].kind.VDir? == dir && (dir ==> t.nodes[n].dir.entries == [])
       && !Frozen(t.nodes[n]) && !AppendOnly(t.nodes[d])
  }

  // ---------- rename ----------

  /**
    What the lookups of a rename meet: directories that are mounted on, directories that the caller may
    not search, and nodes whose vnode cannot be had.
  */
  datatype Lookups = Lookups(mounted: set<nat>, barred: set<nat>, lost: set<nat>)

  /** The vnode of node `n` can be had, and nothing is mounted on it. */
  predicate Gettable(t: Tree, lk: Lookups, n: nat) {
    n !in lk.lost && !(n in t.nodes && t.nodes[n].kind.VDir? && n in lk.mounted)
  }

  /** Directory `d` is still linked, not mounted on, and may be searched. */
  predicate Searchable(t: Tree, lk: Lookups, d: nat)
    requires d in t.nodes
  {
    t.nodes[d].parent.Some? && d !in lk.mounted && d !in lk.barred
  }

  /** Both directories can be searched, source and target can be had, and the move closes no cycle. */
  ghost predicate MayEnter(t: Tree, fd: nat, from: string, td: nat, to: string, lk: Lookups)
    requires fd in t.nodes && td in t.nodes
  {
    Searchable(t, lk, fd) && Searchable(t, lk, td) && Bind(t, fd, from).Some? && Bind(t, td, to) != Some(fd)
    && var f, g := Bind(t, fd, from).value, Bind(t, td, to);
       Gettable(t, lk, f) && (g.Some? ==> Gettable(t, lk, g.value))
       && (fd != td && f in t.nodes && t.nodes[f].kind.VDir? ==> !Reaches(t, td, f))
  }

  /** Source or target is node `n`. */
  predicate Meets(t: Tree, fd: nat, from: string, td: nat, to: string, n: nat) {
    Bind(t, fd, from) == Some(n) || Bind(t, td, to) == Some(n)
  }

  /** Everything the lookup phase of a rename finds out. */
  ghost predicate Entered(t: Tree, fd: nat, from: string, td: nat, to: string, lk: Lookups,
                          err: Errno, fde: Option<D.Dirent>, tde: Option<D.Dirent>)
    requires fd in t.nodes && td in t.nodes
  {
    (err.OK? <==> MayEnter(t, fd, from, td, to, lk))
    && (err.OK? ==> fde == D.Lookup(t.nodes[fd].dir.entries, from) && fde.Some?)
    && (err.OK? ==> tde == D.Lookup(t.nodes[td].dir.entries, to) && Enterable(t, fd, fde.value.node, td, tde))
    && (err.ENOENT? ==> t.nodes[fd].parent.None? || t.nodes[td].parent.None? || Bind(t, fd, from).None?)
    && (err.EACCES? ==> fd in lk.barred || td in lk.barred)
    && (err.EBUSY? ==> exists n :: n in lk.mounted && (n == fd || n == td || Meets(t, fd, from, td, to, n)))
    && (err.ENFILE? ==> exists n :: n in lk.lost && Meets(t, fd, from, td, to, n))
    && (err.ENOTEMPTY? ==> Bind(t, td, to) == Some(fd))
    && (err.EINVAL? ==> Bind(t, fd, from).Some? && Reaches(t, td, Bind(t, fd, from).value))
    && (err.OK? || err.ENOENT? || err.EACCES? || err.EBUSY? || err.ENFILE? || err.ENOTEMPTY? || err.EINVAL?)
  }

  /** Node `f` may take the place of `g`, or an empty place. */
  predicate MayReplace(t: Tree, fd: nat, f: nat, td: nat, g: Option<nat>)
    requires fd in t.nodes && td in t.nodes && f in t.nodes && (g.Some? ==> g.value in t.nodes)
  {
    !Frozen(t.nodes[fd]) && !Frozen(t.nodes[f]) && !Immutable(t.nodes[td]) && !D.Full(t.nodes[td].dir)
    && (g.Some? ==>
          var x := t.nodes[g.value];
          x.kind.VDir? == t.nodes[f].kind.VDir? && (x.kind.VDir? ==> x.dir.entries == [])
          && !Frozen(x) && !AppendOnly(t.nodes[td]))
  }

  /** Both names lead to one directory. */
  ghost predicate OntoItself(t: Tree, fd: nat, from: string, td: nat, to: string, lk: Lookups)
    requires fd in t.nodes && td in t.nodes
  {
    MayEnter(t, fd, from, td, to, lk) && Bind(t, td, to) == Bind(t, fd, from)
    && var f := Bind(t, fd, from).value;
       f in t.nodes && t.nodes[f].kind.VDir?
  }

  /** Exactly the renames that go through, given the memory for the new name. */
  ghost predicate MayRename(t: Tree, fd: nat, from: string, td: nat, to: string, lk: Lookups, permitted: bool)
    requires fd in t.nodes && td in t.nodes
  {
    MayEnter(t, fd, from, td, to, lk)
    && var f, g := Bind(t, fd, from).value, Bind(t, td, to);
       f in t.nodes && (g.Some? ==> g.value in t.nodes)
       && if g == Some(f)
          then !t.nodes[f].kind.VDir?
               && ((fd == td && from == to) || (!Frozen(t.nodes[fd]) && !Frozen(t.nodes[f]) && permitted))
          else MayReplace(t, fd, f, td, g) && permitted
  }

  function NodeOf(de: Option<D.Dirent>): Option<nat> {
    if de.Some? then Some(de.value.node) else None
  }

  /** What decides a rename once the lookups have gone through. */
  lemma {:induction false} RenameOutcome(t: Tree, fd: nat, from: string, td: nat, to: string, lk: Lookups,
                                         permitted: bool)
    requires Inv(t, {}) && NamesOk(t) && fd in t.nodes && td in t.nodes && MayEnter(t, fd, from, td, to, lk)
    ensures var fde, tde := D.Lookup(t.nodes[fd].dir.entries, from).value, D.Lookup(t.nodes[td].dir.entries, to);
      fde.node in t.nodes && (tde.Some? ==> tde.value.node in t.nodes)
      && (MayRename(t, fd, from, td, to, lk, permitted) <==>
          if NodeOf(tde) == Some(fde.node)
          then !t.nodes[fde.node].kind.VDir?
               && (fde.id == tde.value.id || (!Frozen(t.nodes[fd]) && !Frozen(t.nodes[fde.node]) && permitted))
          else permitted && MayReplace(t, fd, fde.node, td, NodeOf(tde)))
  {
    FoundNode(t, fd, from);
    if Bind(t, td, to).Some? {
      FoundNode(t, td, to);
      if Bind(t, fd, from) == Bind(t, td, to) { OntoEffect(t, fd, from, td, to); }
    }
  }

  /** A directory never holds an entry for one of its own ancestors. */
  lemma NoEntryForAncestor(t: Tree, td: nat, k: nat, fd: nat)
    requires Inv(t, {}) && LeadsTo(t, td, k, fd) && fd in t.nodes && t.nodes[fd].kind.VDir? && t.nodes[td].parent.Some?
    ensures !Reaches(t, td, fd)
  {
    assert EntAtOk(t, td, k);
    assert RootedAt(t, {}, td);
    var p :| PathTo(t, p, td, t.root);
    ReachesIffOnPath(t, p, td, fd);
    if fd in p {
      var i := IndexIn(p, fd);
      assert Link(t, p, i);
      PathDistinct(t, p, td, 0, i + 1);
    }
  }

  /** The comparison with the child found by the climb keeps the target out of the moved subtree. */
  lemma MoveIsSafe(t: Tree, fd: nat, kf: nat, td: nat, r: Option<nat>)
    requires Inv(t, {}) && fd in t.nodes && td in t.nodes && t.nodes[td].kind.VDir? && t.nodes[td].parent.Some?
    requires fd != td
    requires kf < |t.nodes[fd].dir.entries| && IsChildAbove(t, fd, td, r)
    ensures var f := Leaving(t, fd, kf);
      f in t.nodes && (r == Some(f) <==> t.nodes[f].kind.VDir? && Reaches(t, td, f)) && (f == td ==> r == Some(f))
  {
    var f := Leaving(t, fd, kf);
    assert EntAtOk(t, fd, kf) && NodeOk(t, {}, f);
    assert PathTo(t, [td], td, td);
    if t.nodes[f].kind.VDir? { CycleIff(t, fd, td, r, f); }
  }

  lemma AboveIsAncestor(t: Tree, fd: nat, td: nat, r: Option<nat>)
    requires IsChildAbove(t, fd, td, r) && r.Some? && fd in t.nodes
    ensures Reaches(t, td, fd)
  {
    var p :| PathTo(t, p, td, r.value);
    var q := [r.value, fd];
    assert Link(t, q, 0);
    PathJoin(t, p, q, td, r.value, fd);
  }

  /** The node a lookup finds is another one than the directory. */
  lemma {:induction false} FoundNode(t: Tree, d: nat, name: string)
    requires Inv(t, {}) && NamesOk(t) && d in t.nodes && D.Lookup(t.nodes[d].dir.entries, name).Some?
    ensures var n := D.Lookup(t.nodes[d].dir.entries, name).value.node;
      n in t.nodes && n != d && Bind(t, d, name) == Some(n)
  {
    var k := LookupIndex(t, d, name);
    DetachAssertions(t, {}, d, k);
  }

  /** MoveIsSafe for the source a lookup found. */
  lemma {:induction false} CycleTest(t: Tree, fd: nat, from: string, td: nat, above: Option<nat>)
    requires Inv(t, {}) && NamesOk(t) && fd in t.nodes && fd != td && D.Lookup(t.nodes[fd].dir.entries, from).Some?
    requires td in t.nodes && t.nodes[td].kind.VDir? && t.nodes[td].parent.Some? && IsChildAbove(t, fd, td, above)
    ensures var f := D.Lookup(t.nodes[fd].dir.entries, from).value.node;
      f in t.nodes && f != fd && Bind(t, fd, from) == Some(f)
      && (above == Some(f) <==> t.nodes[f].kind.VDir? && Reaches(t, td, f)) && (f == td ==> above == Some(f))
  {
    FoundNode(t, fd, from);
    var k := LookupIndex(t, fd, from);
    MoveIsSafe(t, fd, k, td, above);
  }

  /** Below the source directory no name leads back to it. */
  lemma {:induction false} TargetIsNotSource(t: Tree, fd: nat, td: nat, to: string, above: Option<nat>)
    requires Inv(t, {}) && NamesOk(t) && fd in t.nodes && t.nodes[fd].kind.VDir? && td in t.nodes
    requires t.nodes[td].parent.Some?
    requires IsChildAbove(t, fd, td, above) && above.Some? && D.Lookup(t.nodes[td].dir.entries, to).Some?
    ensures D.Lookup(t.nodes[td].dir.entries, to).value.node != fd
  {
    var k := LookupIndex(t, td, to);
    AboveIsAncestor(t, fd, td, above);
    if t.nodes[td].dir.entries[k].node == fd { NoEntryForAncestor(t, td, k, fd); }
  }

  /** Source and target nodes that rename may go on with. */
  ghost predicate Enterable(t: Tree, fd: nat, f: nat, td: nat, tde: Option<D.Dirent>) {
    f in t.nodes && f != fd && f != td
    && (fd != td && t.nodes[f].kind.VDir? ==> !Reaches(t, td, f))
    && (tde.Some? ==> tde.value.node in t.nodes && tde.value.node != td && tde.value.node != fd)
  }

  /** Entries `fde` and `tde` are at `kf` and `kt`, for different nodes, and may be moved and replaced. */
  ghost predicate Shufflable(t: Tree, fd: nat, fde: D.Dirent, kf: nat, td: nat, tde: Option<D.Dirent>,
                             kt: Option<nat>) {
    fd in t.nodes && td in t.nodes && t.nodes[fd].kind.VDir? && t.nodes[td].kind.VDir? && t.nodes[td].parent.Some?
    && EntryAt(t, fd, fde.id, kf) && t.nodes[fd].dir.entries[kf] == fde
    && kt.Some? == tde.Some?
    && (tde.Some? ==>
          EntryAt(t, td, tde.value.id, kt.value) && t.nodes[td].dir.entries[kt.value] == tde.value
          && tde.value.node != fde.node)
    && Enterable(t, fd, fde.node, td, tde) && Removable(t, td, kt) && !D.Full(t.nodes[td].dir)
  }

  predicate EntryThere(t: Tree, d: nat, k: nat) {
    d in t.nodes && k < |t.nodes[d].dir.entries| && Leaving(t, d, k) in t.nodes
  }

  /** The graph after tmpfs_rename_attachdetach: moved and replaced, but under the old name. */
  function Shuffled(t: Tree, fd: nat, kf: nat, td: nat, kt: Option<nat>): Tree
    requires if fd == td then kt.Some? ==> EntryThere(t, td, kt.value)
             else Carriable(t, fd, kf, td, kt)
  {
    if fd == td then TargetRemoved(t, td, kt)
    else
      var e := t.nodes[fd].dir.entries[kf];
      TargetRemoved(Attached(Detached(t, fd, kf), td, e.id, e.name, e.node), td, kt)
  }

  lemma {:induction false} IndexKept(es: seq<D.Dirent>, e: D.Dirent, id: nat)
    requires D.HasId(es, id)
    ensures D.HasId(es + [e], id) && D.IndexOf(es + [e], id) == D.IndexOf(es, id)
  {
    assert (es + [e])[D.IndexOf(es, id)].id == id;
  }

  /** The target entry is still where it was after the source was moved behind it. */
  lemma TargetKept(t: Tree, fd: nat, fde: D.Dirent, kf: nat, td: nat, tde: Option<D.Dirent>, kt: Option<nat>)
    requires Inv(t, {}) && fd != td && Shufflable(t, fd, fde, kf, td, tde, kt)
    ensures Carriable(t, fd, kf, td, kt)
    ensures var t1 := Attached(Detached(t, fd, kf), td, fde.id, fde.name, fde.node);
      Inv(t1, {}) && Removable(t1, td, kt) && Bytes(t1) == Bytes(t) && t1.nodes.Keys == t.nodes.Keys
      && (kt.Some? ==> EntryAt(t1, td, tde.value.id, kt.value) && DetachSafe(t1, td, kt.value))
  {
    var t1 := Attached(Detached(t, fd, kf), td, fde.id, fde.name, fde.node);
    AcrossInv(t, fd, kf, td, kt);
    DetachBytes(t, fd, kf);
    AttachBytes(Detached(t, fd, kf), td, fde.id, fde.name, fde.node);
    if kt.Some? {
      var es := t.nodes[td].dir.entries;
      IndexKept(es, D.Dirent(fde.id, t.nodes[td].dir.nextSeq, fde.name, fde.node), tde.value.id);
      DetachAssertions(t1, {}, td, kt.value);
    }
  }

  /** The source entry may be attached to the target directory once it is detached. */
  lemma CarryReady(t: Tree, fd: nat, kf: nat, td: nat, kt: Option<nat>)
    requires Carriable(t, fd, kf, td, kt)
    ensures var t0 := Detached(t, fd, kf);
      var n := Leaving(t, fd, kf);
      td in t0.nodes && n in t0.nodes && !D.Full(t0.nodes[td].dir) && t0.nodes.Keys == t.nodes.Keys
      && (t0.nodes[n].kind.VDir? ==> t0.nodes[n].parent.None?) && t0.nodes[td].kind == t.nodes[td].kind
  {
  }

  /** Where the moved entry ends up in the target directory. */
  function NewIndex(t: Tree, fd: nat, kf: nat, td: nat, kt: Option<nat>): nat
    requires td in t.nodes && (fd == td && kt.Some? ==> kt.value != kf)
  {
    if fd != td then |t.nodes[td].dir.entries| - (if kt.Some? && |t.nodes[td].dir.entries| > 0 then 1 else 0)
    else if kt.Some? && kt.value < kf then kf - 1 else kf
  }

  lemma MovesAgree(t: Tree, fd: nat, fde: D.Dirent, kf: nat, td: nat, tde: Option<D.Dirent>, kt: Option<nat>,
                   to: string)
    requires Shufflable(t, fd, fde, kf, td, tde, kt) && (fd != td ==> Carriable(t, fd, kf, td, kt))
    ensures fd == td && kt.Some? ==> kt.value != kf
    ensures var t1 := Shuffled(t, fd, kf, td, kt);
      var k := NewIndex(t, fd, kf, td, kt);
      td in t1.nodes && k < |t1.nodes[td].dir.entries|
      && t1.nodes[td].dir.entries[k].id == fde.id && t1.nodes[td].dir.entries[k].name == fde.name
      && RenamedEnt(t1, td, k, to)
         == if fd == td then MovedWithin(t, td, kf, kt, to) else MovedAcross(t, fd, kf, td, kt, to)
  {
    if fd == td {
      WithinAgree(t, fde, kf, td, tde, kt, to);
    } else {
      AcrossAgree(t, fd, fde, kf, td, tde, kt, to);
    }
  }

  lemma WithinAgree(t: Tree, fde: D.Dirent, kf: nat, td: nat, tde: Option<D.Dirent>, kt: Option<nat>, to: string)
    requires Shufflable(t, td, fde, kf, td, tde, kt)
    ensures kt.Some? ==> kt.value != kf
    ensures var t1 := Shuffled(t, td, kf, td, kt);
      var k := NewIndex(t, td, kf, td, kt);
      td in t1.nodes && k < |t1.nodes[td].dir.entries|
      && t1.nodes[td].dir.entries[k].id == fde.id && t1.nodes[td].dir.entries[k].name == fde.name
      && RenamedEnt(t1, td, k, to) == MovedWithin(t, td, kf, kt, to)
  {
    RemovedList(t, td, kt, td);
  }

  lemma AcrossAgree(t: Tree, fd: nat, fde: D.Dirent, kf: nat, td: nat, tde: Option<D.Dirent>, kt: Option<nat>,
                    to: string)
    requires fd != td && Shufflable(t, fd, fde, kf, td, tde, kt) && Carriable(t, fd, kf, td, kt)
    ensures var t1 := Shuffled(t, fd, kf, td, kt);
      var k := NewIndex(t, fd, kf, td, kt);
      td in t1.nodes && k < |t1.nodes[td].dir.entries|
      && t1.nodes[td].dir.entries[k].id == fde.id && t1.nodes[td].dir.entries[k].name == fde.name
      && RenamedEnt(t1, td, k, to) == MovedAcross(t, fd, kf, td, kt, to)
  {
    var t0 := Attached(Detached(t, fd, kf), td, fde.id, fde.name, fde.node);
    RemovedList(t0, td, kt, td);
  }

  lemma ShuffledInv(t: Tree, fd: nat, fde: D.Dirent, kf: nat, td: nat, tde: Option<D.Dirent>, kt: Option<nat>)
    requires Inv(t, {}) && Shufflable(t, fd, fde, kf, td, tde, kt) && (fd != td ==> Carriable(t, fd, kf, td, kt))
    ensures Inv(Shuffled(t, fd, kf, td, kt), {})
  {
    if fd == td {
      TargetRemovedInv(t, td, kt);
    } else {
      TargetKept(t, fd, fde, kf, td, tde, kt);
      TargetRemovedInv(Attached(Detached(t, fd, kf), td, fde.id, fde.name, fde.node), td, kt);
    }
  }

  /** Putting the new name on the shuffled entry completes the rename. */
  lemma RenameDone(t: Tree, fd: nat, fde: D.Dirent, kf: nat, td: nat, tde: Option<D.Dirent>, kt: Option<nat>,
                   to: string)
    requires Inv(t, {}) && NamesOk(t) && Shufflable(t, fd, fde, kf, td, tde, kt) && IsTarget(t, td, kt, to)
    requires fd != td ==> Carriable(t, fd, kf, td, kt)
    ensures fd == td && kt.Some? ==> kt.value != kf
    ensures var t1 := Shuffled(t, fd, kf, td, kt);
      var k := NewIndex(t, fd, kf, td, kt);
      EntryAt(t1, td, fde.id, k) && t1.nodes[td].dir.entries[k].name == fde.name
      && Inv(RenamedEnt(t1, td, k, to), {}) && NamesOk(RenamedEnt(t1, td, k, to))
      && RenameEffect(t, RenamedEnt(t1, td, k, to), fd, fde.name, td, to, fde.node)
      && Rearranged(t, RenamedEnt(t1, td, k, to))
  {
    var t1 := Shuffled(t, fd, kf, td, kt);
    var k := NewIndex(t, fd, kf, td, kt);
    MovesAgree(t, fd, fde, kf, td, tde, kt, to);
    ShuffledInv(t, fd, fde, kf, td, tde, kt);
    assert NodeOk(t1, {}, td);
    EntryAtIndex(t1, td, k);
    if fd == td {
      MovedWithinOk(t, td, kf, kt, to);
      WithinSteps(t, td, kf, kt, to);
    } else {
      MovedAcrossOk(t, fd, kf, td, kt, to);
      AcrossSteps(t, fd, kf, td, kt, to);
    }
  }

  lemma EntryAtIndex(t: Tree, d: nat, k: nat)
    requires d in t.nodes && D.Ok(t.nodes[d].dir) && k < |t.nodes[d].dir.entries|
    ensures EntryAt(t, d, t.nodes[d].dir.entries[k].id, k)
  {
  }

  /** The whole effect of a successful rename on names. */
  ghost predicate Renamed(t: Tree, t': Tree, fd: nat, from: string, td: nat, to: string) {
    Bind(t, fd, from).Some? && RenameEffect(t, t', fd, from, td, to, Bind(t, fd, from).value) && Rearranged(t, t')
  }

  /** The name `from` in `fd` is gone, and nothing else has changed. */
  ghost predicate Unbound(t: Tree, t': Tree, fd: nat, from: string) {
    Rearranged(t, t') && forall c, nm :: Bind(t', c, nm) == if c == fd && nm == from then None else Bind(t, c, nm)
  }

  /** When both names lead to one node, dropping the source name (or nothing, if they are one entry) is that effect. */
  lemma {:induction false} OntoEffect(t: Tree, fd: nat, from: string, td: nat, to: string)
    requires NamesOk(t) && NodesOk(t, {}) && IdsUnique(t) && fd in t.nodes && td in t.nodes
    requires D.Lookup(t.nodes[fd].dir.entries, from).Some? && D.Lookup(t.nodes[td].dir.entries, to).Some?
    requires Bind(t, fd, from) == Bind(t, td, to)
    ensures var same :=
        D.Lookup(t.nodes[fd].dir.entries, from).value.id == D.Lookup(t.nodes[td].dir.entries, to).value.id;
      same == (fd == td && from == to)
      && forall t' :: (if same then t' == t else Unbound(t, t', fd, from)) ==> Renamed(t, t', fd, from, td, to)
  {
    var i := LookupIndex(t, fd, from);
    var j := LookupIndex(t, td, to);
    assert Apart(t, fd, i, td, j);
    SameSteps(t, t);
  }

  lemma SameName(t: Tree, d: nat, k: nat)
    requires d in t.nodes && k < |t.nodes[d].dir.entries|
    ensures RenamedEnt(t, d, k, t.nodes[d].dir.entries[k].name) == t
  {
    var es := t.nodes[d].dir.entries;
    assert es[k := es[k].(name := es[k].name)] == es;
    assert t.nodes[d := t.nodes[d].(dir := D.Rename(t.nodes[d].dir, k, es[k].name))] == t.nodes;
  }

  function RootNode(root: nat): Node {
    FreshNode(VDir, 0).(links := 2, parent := Some(root))
  }

  lemma FreshMountBytes(t: Tree)
    requires t.nodes == map[t.root := RootNode(t.root)]
    ensures Bytes(t) == NODE_BYTES && |t.nodes| == 1
  {
    TotalUpdate(map[], t.root, RootNode(t.root), NodeBytes);
    assert map[][t.root := RootNode(t.root)] == t.nodes;
  }

  lemma FreshMountInv(t: Tree)
    requires t.nodes == map[t.root := RootNode(t.root)]
    ensures Inv(t, {}) && NamesOk(t)
  {
    forall d, k ensures EntAtOk(t, d, k) {}
    forall b, i, c, j ensures Apart(t, b, i, c, j) {}
    forall m ensures NodeOk(t, {}, m) && NamesOkAt(t, m) {}
    forall m ensures RootedAt(t, {}, m) { assert PathTo(t, [t.root], t.root, t.root); }
  }

  lemma DetachedFrame(t: Tree, d: nat, k: nat)
    requires DetachSafe(t, d, k)
    ensures var t' := Detached(t, d, k);
      t'.nodes.Keys == t.nodes.Keys && |t'.nodes[d].dir.entries| == |t.nodes[d].dir.entries| - 1
      && forall n :: n in t.nodes ==>
           t'.nodes[n].kind == t.nodes[n].kind && (n != d ==> t'.nodes[n].dir == t.nodes[n].dir)
  {
  }

  /** When no directory has an entry left, every directory but the root has lost its parent. */
  lemma DrainedExpendable(t: Tree, fl: set<nat>, n: nat)
    requires Inv(t, fl) && n in t.nodes && forall m :: m in t.nodes ==> t.nodes[m].dir.entries == []
    ensures t.nodes[n].kind.VDir? ==> t.nodes[n].parent.None? || n == t.root
  {
    assert NodeOk(t, fl, n);
  }

  /** Taking the first entry off a directory that is being emptied. */
  lemma DrainStep(t: Tree, fl: set<nat>, d: nat)
    requires Inv(t, fl) && d in t.nodes && t.nodes[d].kind.VDir? && t.nodes[d].dir.entries != []
    ensures DetachSafe(t, d, 0)
    ensures var e := t.nodes[d].dir.entries[0];
      EntryAt(t, d, e.id, 0) && Inv(Detached(t, d, 0), AfterDetach(t, fl, e.node))
      && Bytes(Detached(t, d, 0)) == Bytes(t) - EntBytes(e.name) && Bytes(Detached(t, d, 0)) >= 0
  {
    DetachAssertions(t, fl, d, 0);
    assert EntAtOk(t, d, 0) && NodeOk(t, fl, d);
    DetachInv(t, fl, d, 0);
    DetachBytes(t, d, 0);
    EntryAtIndex(t, d, 0);
    BytesPositive(Detached(t, d, 0));
  }

  class Mount {
    const pool: Pool
    const me: nat
    const root: nat
    const nodesMax: nat
    var nodes: map<nat, Node>
    var nodesCnt: nat
    var nextDe: nat          // entry objects handed out so far
    var nextNode: nat        // node objects handed out so far

    function T(): Tree
      reads this
    {
      Tree(nodes, root, nextDe)
    }

    /** The account shows the bytes of the graph plus `held`, what an operation holds on the side. */
    ghost predicate Billed(held: int)
      reads this, pool
    {
      pool.Valid() && me in pool.mounts && pool.mounts[me].used == Bytes(T()) + held
      && nodesCnt == |nodes| <= nodesMax && forall n :: n in nodes ==> n < nextNode
    }

    /** The accounts of other mounts, and the limit of this one, are as they were. */
    twostate predicate OnlyMine()
      reads this, pool
    {
      pool.Others(me) == old(pool.Others(me))
      && (me in old(pool.mounts) ==> me in pool.mounts && pool.mounts[me].limit == old(pool.mounts[me].limit))
    }

    /** All the memory this mount can ever use, given what the others claim. */
    ghost function Capacity(): int
      reads this, pool
      requires me in pool.mounts
    {
      if pool.mounts[me].limit != 0 then pool.mounts[me].limit else pool.limit - Total(pool.Others(me), Claim)
    }

    /** What room there is follows from the graph alone. */
    lemma RoomIs()
      requires Billed(0)
      ensures pool.Room(me) == Capacity() - Bytes(T())
    {
      TotalRemove(pool.mounts, me, Claim);
    }

    ghost predicate Valid()
      reads this, pool
    {
      Billed(0) && Inv(T(), {}) && NamesOk(T())
    }

    /** The root node and the empty tables of tmpfs_mount, once the account is open. */
    constructor (pool: Pool, me: nat, nodesMax: nat)
      requires pool.Valid() && me in pool.mounts && pool.mounts[me].used == 0
      requires pool.Room(me) >= NODE_BYTES && nodesMax >= 3
      modifies pool
      ensures Valid() && this.pool == pool && this.me == me && this.nodesMax == nodesMax
      ensures nodes == map[root := RootNode(root)]
      ensures pool.Others(me) == old(pool.Others(me)) && pool.Room(me) == old(pool.Room(me)) - NODE_BYTES
    {
      this.pool, this.me, this.nodesMax, root := pool, me, nodesMax, 0;
      nodes := map[0 := RootNode(0)];
      nodesCnt, nextDe, nextNode := 1, 0, 1;
      new;
      var ok := pool.Incr(me, NODE_BYTES);
      FreshMountInv(T());
      FreshMountBytes(T());
    }

    // ---------- entries and nodes ----------

    /** tmpfs_dir_attach */
    method DirAttach(d: nat, id: nat, name: string, n: nat)
      requires d in nodes && n in nodes && d != n && !D.Full(nodes[d].dir)
      requires nodes[n].kind.VDir? ==> nodes[n].parent.None?
      modifies this`nodes
      ensures T() == Attached(old(T()), d, id, name, n)
    {
      ghost var m, t' := nodes, Attached(T(), d, id, name, n);
      nodes := nodes[n := nodes[n].(links := nodes[n].links + 1, hint := Some(id))];
      nodes := nodes[d := nodes[d].(dir := D.Attach(nodes[d].dir, id, name, n), size := nodes[d].size + DIRENT_BYTES)];
      ghost var x, y := nodes[d], nodes[n];
      if nodes[n].kind.VDir? {
        nodes := nodes[n := nodes[n].(parent := Some(d))];
        nodes := nodes[d := nodes[d].(links := nodes[d].links + 1)];
      }
      WriteTwo(m, d, t'.nodes[d], n, t'.nodes[n]);
      WriteTwice(m, d, t'.nodes[d], x, n, t'.nodes[n], y);
    }

    /** tmpfs_dir_detach */
    method DirDetach(d: nat, id: nat)
      requires d in nodes && D.HasId(nodes[d].dir.entries, id)
      requires var n := nodes[d].dir.entries[D.IndexOf(nodes[d].dir.entries, id)].node;
        n in nodes && n != d && nodes[n].links > 0
        && (nodes[n].kind.VDir? ==> nodes[n].parent == Some(d) && nodes[d].links > 0)
      modifies this`nodes
      ensures T() == Detached(old(T()), d, D.IndexOf(old(nodes[d].dir.entries), id))
    {
      var k := D.IndexOf(nodes[d].dir.entries, id);
      var n := nodes[d].dir.entries[k].node;
      ghost var m, t' := nodes, Detached(T(), d, k);
      nodes := nodes[n := nodes[n].(hint := None, links := nodes[n].links - 1)];
      ghost var x, y := nodes[d], nodes[n];
      if nodes[n].kind.VDir? {
        nodes := nodes[n := nodes[n].(parent := None)];
        nodes := nodes[d := nodes[d].(links := nodes[d].links - 1)];
        x := nodes[d];
      }
      nodes := nodes[d := nodes[d].(dir := D.Detach(nodes[d].dir, k), size := nodes[d].size - DIRENT_BYTES)];
      WriteTwo(m, d, t'.nodes[d], n, t'.nodes[n]);
      WriteTwice(m, d, t'.nodes[d], x, n, t'.nodes[n], y);
    }

    /** The memory of a new node and of a symlink's target, and the backing object of a file, or nothing at all. */
    method ChargeNode(kind: Kind, len: nat, aobjOk: bool) returns (ok: bool)
      requires pool.Valid() && me in pool.mounts
      modifies pool
      ensures OnlyMine() && pool.Valid() && me in pool.mounts
      ensures ok <==> old(pool.Room(me)) >= NodeBytes(FreshNode(kind, len)) && (kind.VReg? ==> aobjOk)
      ensures var paid := if ok then NodeBytes(FreshNode(kind, len)) else 0;
        pool.mounts[me].used == old(pool.mounts[me].used) + paid && pool.Room(me) == old(pool.Room(me)) - paid
    {
      ok := pool.Incr(me, NODE_BYTES);
      if !ok { return; }
      if kind.VLnk? && len > 0 {
        ok := pool.Incr(me, RoundName(len));
      } else if kind.VReg? {
        ok := aobjOk;
      }
      if !ok { pool.Decr(me, NODE_BYTES); }
    }

    /** tmpfs_node_get, tmpfs_alloc_node; `aobjOk` is the outcome of creating the backing object. */
    method AllocNode(kind: Kind, len: nat, aobjOk: bool, ghost held: int) returns (err: Errno, n: nat)
      requires Billed(held)
      modifies this, pool
      ensures OnlyMine() && Billed(held) && nextDe == old(nextDe) && (err.OK? || err.ENOSPC?)
      ensures err.OK? <==>
        old(nodesCnt) < nodesMax && old(pool.Room(me)) >= NodeBytes(FreshNode(kind, len)) && (kind.VReg? ==> aobjOk)
      ensures err.OK? ==> pool.Room(me) == old(pool.Room(me)) - NodeBytes(FreshNode(kind, len))
      ensures err.OK? ==> n !in old(nodes) && T() == WithNode(old(T()), n, FreshNode(kind, len))
      ensures !err.OK? ==> T() == old(T()) && nodesCnt == old(nodesCnt)
    {
      n := nextNode;
      nodesCnt := nodesCnt + 1;
      if nodesCnt > nodesMax { nodesCnt := nodesCnt - 1; return ENOSPC, n; }
      var ok := ChargeNode(kind, len, aobjOk);
      if !ok { nodesCnt := nodesCnt - 1; return ENOSPC, n; }
      WithNodeBytes(T(), n, FreshNode(kind, len));
      nodes, nextNode := nodes[n := FreshNode(kind, len)], nextNode + 1;
      return OK, n;
    }

    /** What tmpfs_free_node asserts: the list is empty, and a directory other than the root has no parent. */
    ghost predicate Expendable(n: nat)
      reads this
      requires n in nodes
    {
      nodes[n].dir.entries == [] && (nodes[n].kind.VDir? ==> nodes[n].parent.None? || n == root)
    }

    /** tmpfs_free_node */
    method FreeNode(n: nat, ghost held: int)
      requires Billed(held) && held >= 0 && n in nodes && Expendable(n)
      modifies this, pool
      ensures OnlyMine()
      ensures Billed(held) && T() == WithoutNode(old(T()), n) && nextDe == old(nextDe)
    {
      FreedNode(T(), n);
      FreeBody(nodes[n]);
      nodes, nodesCnt := nodes - {n}, nodesCnt - 1;
    }

    /** The memory of a node: a symlink's target, a file's pages, and the node itself. */
    method FreeBody(x: Node)
      requires pool.Valid() && me in pool.mounts && pool.mounts[me].used >= NodeBytes(x) && x.dir.entries == []
      modifies pool
      ensures OnlyMine() && pool.Valid() && me in pool.mounts
      ensures pool.mounts[me].used == old(pool.mounts[me].used) - NodeBytes(x)
    {
      var target := if x.kind.VLnk? && x.size > 0 then RoundName(x.size) else 0;
      var store := PAGE_SIZE * x.pages;
      assert NodeBytes(x) == NODE_BYTES + target + store;
      if target != 0 { pool.Decr(me, target); }
      if store != 0 { pool.Decr(me, store); }
      pool.Decr(me, NODE_BYTES);
    }

    /** Attach an entry whose memory was set aside. */
    method Enter(d: nat, id: nat, name: string, n: nat)
      requires d in nodes && n in nodes && d != n && nodes[d].kind.VDir? && !D.Full(nodes[d].dir)
      requires Billed(EntBytes(name))
      requires nodes[n].kind.VDir? ==> nodes[n].parent.None?
      modifies this`nodes
      ensures T() == Attached(old(T()), d, id, name, n) && Billed(0)
    {
      AttachBytes(T(), d, id, name, n);
      DirAttach(d, id, name, n);
      assert nodes.Keys == old(nodes).Keys;
    }

    /** tmpfs_alloc_dirent */
    method AllocDirent(name: string, ghost held: int) returns (err: Errno, id: nat)
      requires Billed(held)
      modifies this`nextDe, pool
      ensures OnlyMine()
      ensures err.OK? || err.ENOSPC?
      ensures err.OK? <==> old(pool.Room(me)) >= EntBytes(name)
      ensures err.OK? ==> id == old(nextDe) && nextDe == old(nextDe) + 1 && Billed(held + EntBytes(name))
      ensures err.OK? ==> pool.Room(me) == old(pool.Room(me)) - EntBytes(name)
      ensures !err.OK? ==> nextDe == old(nextDe) && Billed(held)
    {
      id := nextDe;
      var ok := pool.Incr(me, DIRENT_BYTES);
      if !ok { return ENOSPC, id; }
      ok := pool.Incr(me, RoundName(|name|));
      if !ok {
        pool.Decr(me, DIRENT_BYTES);
        return ENOSPC, id;
      }
      nextDe := nextDe + 1;
      return OK, id;
    }

    /** tmpfs_free_dirent */
    method FreeDirent(name: string, ghost held: int)
      requires Billed(held + EntBytes(name)) && Bytes(T()) + held >= 0
      modifies pool
      ensures OnlyMine()
      ensures Billed(held) && pool.Room(me) == old(pool.Room(me)) + EntBytes(name)
    {
      pool.Decr(me, RoundName(|name|));
      pool.Decr(me, DIRENT_BYTES);
    }

    // ---------- create, link, remove, rmdir ----------

    /** There is a node to be had, and memory for it and for its entry. */
    ghost predicate Affordable(name: string, kind: Kind, len: nat, aobjOk: bool)
      reads this, pool
      requires me in pool.mounts
    {
      nodesCnt < nodesMax && pool.Room(me) >= NodeBytes(FreshNode(kind, len)) + EntBytes(name)
      && (kind.VReg? ==> aobjOk)
    }

    /** The allocations of tmpfs_alloc_file, undone in full if any of them fails. */
    method NewFile(name: string, kind: Kind, len: nat, aobjOk: bool, vnodeOk: bool)
      returns (err: Errno, n: nat, id: nat)
      requires Billed(0)
      modifies this, pool
      ensures OnlyMine()
      ensures err.OK? ==> n !in old(nodes) && id == old(nextDe) && T() == Allocated(old(T()), n, kind, len)
      ensures err.OK? ==> Billed(EntBytes(name))
      ensures err.OK? ==> pool.Room(me) == old(pool.Room(me)) - NodeBytes(FreshNode(kind, len)) - EntBytes(name)
      ensures !err.OK? ==> nodes == old(nodes) && Billed(0) && old(nextDe) <= nextDe
      ensures err.OK? <==> old(Affordable(name, kind, len, aobjOk)) && vnodeOk
      ensures err.OK? || err.ENOSPC?
    {
      id := 0;
      err, n := AllocNode(kind, len, aobjOk, 0);
      if !err.OK? { return; }
      WithoutNew(old(T()), n, FreshNode(kind, len));
      err, id := NewEntry(name, n, vnodeOk);
    }

    /** The entry for a new node; without it, or without a vnode, the node goes too. */
    method NewEntry(name: string, n: nat, vnodeOk: bool) returns (err: Errno, id: nat)
      requires Billed(0) && n in nodes && Expendable(n)
      modifies this, pool
      ensures OnlyMine() && (err.OK? || err.ENOSPC?)
      ensures err.OK? <==> old(pool.Room(me)) >= EntBytes(name) && vnodeOk
      ensures err.OK? ==> id == old(nextDe) && T() == old(T()).(nextDe := id + 1) && Billed(EntBytes(name))
      ensures err.OK? ==> pool.Room(me) == old(pool.Room(me)) - EntBytes(name)
      ensures !err.OK? ==> nodes == old(nodes) - {n} && Billed(0) && old(nextDe) <= nextDe
    {
      err, id := AllocDirent(name, 0);
      if !err.OK? {
        FreeNode(n, 0);
        return;
      }
      if !vnodeOk {
        DropNew(name, n);
        err := ENOSPC;
      }
    }

    /** The release of an entry and a node that were never attached. */
    method DropNew(name: string, n: nat)
      requires Billed(EntBytes(name)) && n in nodes && Expendable(n)
      modifies this, pool
      ensures OnlyMine()
      ensures Billed(0) && T() == WithoutNode(old(T()), n)
    {
      BytesPositive(T());
      FreeDirent(name, 0);
      FreeNode(n, 0);
    }

    /** The invariant of the mount outlives an operation that failed. */
    twostate lemma Unharmed()
      requires old(Valid()) && nodes == old(nodes) && old(nextDe) <= nextDe && Billed(0)
      ensures Valid()
    {
      BumpInv(old(T()), {}, nextDe);
      BumpNames(old(T()), nextDe);
    }

    /**
      tmpfs_alloc_file, behind create, mknod, mkdir and symlink. `vnodeOk` is the
      outcome of getting a vnode. The name was looked up and found free.
    */
    method AllocFile(d: nat, name: string, kind: Kind, len: nat, aobjOk: bool, vnodeOk: bool)
      returns (err: Errno, n: nat)
      requires Valid() && d in nodes && nodes[d].kind.VDir? && Bind(T(), d, name).None?
      modifies this, pool
      ensures OnlyMine()
      ensures Valid()
      ensures !err.OK? ==> nodes == old(nodes)
      ensures err.EMLINK? <==> kind.VDir? && old(nodes[d].links) == LINK_MAX
      ensures err.OK? <==>
        !err.EMLINK? && !D.Full(old(nodes[d].dir)) && old(nodes[d].links) != 0
        && old(Affordable(name, kind, len, aobjOk)) && vnodeOk
      ensures err.OK? ==> n in nodes && n !in old(nodes) && nodes[n].kind == kind
      ensures err.OK? ==> T() == Attached(Allocated(old(T()), n, kind, len), d, old(nextDe), name, n)
      ensures err.OK? ==> pool.Room(me) == old(pool.Room(me)) - NodeBytes(FreshNode(kind, len)) - EntBytes(name)
      ensures err.OK? ==>
        forall c, nm :: Bind(T(), c, nm) == if c == d && nm == name then Some(n) else Bind(old(T()), c, nm)
    {
      n := 0;
      if kind.VDir? && nodes[d].links == LINK_MAX { return EMLINK, n; }
      if D.Full(nodes[d].dir) { return ENOSPC, n; }
      if nodes[d].links == 0 { return ENOENT, n; }
      var id;
      err, n, id := NewFile(name, kind, len, aobjOk, vnodeOk);
      if !err.OK? {
        Unharmed();
        return;
      }
      CreatedOk(old(T()), d, n, kind, len, name);
      Enter(d, id, name, n);
    }

    /**
      tmpfs_link. The caller never passes a directory. Nothing refuses a directory that has been
      removed: a link into one succeeds like any other, and leaves it with an entry.
    */
    method Link(d: nat, n: nat, name: string) returns (err: Errno)
      requires Valid() && n in nodes && !nodes[n].kind.VDir?
      requires d in nodes && nodes[d].kind.VDir? && Bind(T(), d, name).None?
      modifies this, pool
      ensures OnlyMine() && Billed(0) && NamesOk(T())
      ensures Valid() <==> !err.OK? || old(nodes[d].parent.Some?)
      ensures !err.OK? ==> nodes == old(nodes)
      ensures err.OK? <==>
        old(nodes[n].links) != LINK_MAX && !Frozen(old(nodes[n])) && !D.Full(old(nodes[d].dir))
        && old(pool.Room(me)) >= EntBytes(name)
      ensures err.OK? ==> n in nodes && nodes[n].links == old(nodes[n].links) + 1 && Rearranged(old(T()), T())
      ensures err.OK? ==>
        forall c, nm :: Bind(T(), c, nm) == if c == d && nm == name then Some(n) else Bind(old(T()), c, nm)
    {
      if nodes[n].links == LINK_MAX { return EMLINK; }
      if Frozen(nodes[n]) { return EPERM; }
      if D.Full(nodes[d].dir) { return ENOSPC; }
      err := EnterLink(d, n, name);
    }

    /** EnterNew, with what it does to the graph and to names. */
    method EnterLink(d: nat, n: nat, name: string) returns (err: Errno)
      requires Billed(0) && Linkable(T(), d, n, name)
      modifies this, pool
      ensures OnlyMine() && Billed(0) && (err.OK? <==> old(pool.Room(me)) >= EntBytes(name))
      ensures !err.OK? ==> T() == old(T())
      ensures err.OK? ==> LinkEffect(old(T()), T(), d, n, name)
    {
      ghost var t := T();
      err := EnterNew(d, n, name);
      if err.OK? { LinkedOk(t, T(), d, n, name); }
    }

    /** A further entry for a node, if there is memory for it. */
    method EnterNew(d: nat, n: nat, name: string) returns (err: Errno)
      requires Billed(0) && d in nodes && n in nodes && !nodes[n].kind.VDir?
      requires nodes[d].kind.VDir? && !D.Full(nodes[d].dir)
      modifies this, pool
      ensures OnlyMine() && Billed(0) && (err.OK? <==> old(pool.Room(me)) >= EntBytes(name))
      ensures !err.OK? ==> T() == old(T())
      ensures err.OK? ==> T() == Attached(old(T()).(nextDe := old(nextDe) + 1), d, old(nextDe), name, n)
    {
      var id;
      err, id := AllocDirent(name, 0);
      if err.OK? { Enter(d, id, name, n); }
    }

    /** The entry for (d, name), through the hint when it can be trusted. */
    method FindEntry(d: nat, name: string, n: nat) returns (id: nat, ghost k: nat)
      requires Inv(T(), {}) && NamesOk(T()) && d in nodes && n in nodes && Bind(T(), d, name) == Some(n)
      ensures EntryAt(T(), d, id, k) && nodes[d].dir.entries[k].name == name && Leaving(T(), d, k) == n
    {
      k := LookupIndex(T(), d, name);
      var cached := DirCached(nodes[n]);
      if cached.Some? {
        CachedIsLookup(T(), d, k, n);
        id := cached.value;
      } else {
        var e := D.DirLookup(nodes[d].dir, name);
        id := e.value.id;
      }
    }

    /** Detach an entry and free it; a directory first gives up the link of its virtual '.' entry. */
    method RemoveEntry(d: nat, id: nat, ghost k: nat, ghost held: nat)
      requires Billed(held) && EntryAt(T(), d, id, k) && DetachSafe(T(), d, k) && nodes[d].kind.VDir?
      modifies this`nodes, pool
      ensures OnlyMine()
      ensures T() == TargetRemoved(old(T()), d, Some(k)) && Billed(held) && pool.Room(me) >= old(pool.Room(me))
    {
      RemovedBytes(T(), d, k);
      var e := nodes[d].dir.entries[D.IndexOf(nodes[d].dir.entries, id)];
      Unhook(d, id, k);
      assert nodes.Keys == old(nodes).Keys;
      FreeDirent(e.name, held);
    }

    method Unhook(d: nat, id: nat, ghost k: nat)
      requires EntryAt(T(), d, id, k) && DetachSafe(T(), d, k)
      modifies this`nodes
      ensures T() == TargetRemoved(old(T()), d, Some(k))
    {
      var n := nodes[d].dir.entries[D.IndexOf(nodes[d].dir.entries, id)].node;
      if nodes[n].kind.VDir? {
        nodes := nodes[n := nodes[n].(links := nodes[n].links - 1)];
      }
      DirDetach(d, id);
    }

    /** tmpfs_remove of the file the lookup found. */
    method Remove(d: nat, name: string) returns (err: Errno, ghost k: nat)
      requires Valid() && d in nodes && nodes[d].kind.VDir?
      modifies this, pool
      ensures OnlyMine()
      ensures Valid()
      ensures !err.OK? ==> nodes == old(nodes)
      ensures err.ENOENT? <==> Bind(old(T()), d, name).None?
      ensures err.OK? <==> MayRemove(old(T()), d, name, false)
      ensures err.OK? ==> var n := Bind(old(T()), d, name).value;
        n in nodes && n in old(nodes) && !nodes[n].kind.VDir? && nodes[n].links == old(nodes[n].links) - 1
      ensures err.OK? ==> EntryNamed(old(T()), d, k, name) && T() == TargetRemoved(old(T()), d, Some(k))
      ensures err.OK? ==> pool.Room(me) >= old(pool.Room(me))
      ensures err.OK? ==>
        forall c, nm :: Bind(T(), c, nm) == if c == d && nm == name then None else Bind(old(T()), c, nm)
    {
      var found := D.DirLookup(nodes[d].dir, name);
      k := 0;
      if found.None? { return ENOENT, k; }
      var n := found.value.node;
      k := LookupIndex(T(), d, name);
      DetachAssertions(T(), {}, d, k);
      if nodes[n].kind.VDir? { return EPERM, k; }
      if Frozen(nodes[n]) { return EPERM, k; }
      if AppendOnly(nodes[d]) { return EPERM, k; }
      var id;
      id, k := FindEntry(d, name, n);
      RemovedOk(T(), d, k);
      RemoveEntry(d, id, k, 0);
      return OK, k;
    }

    /** tmpfs_rmdir of the directory the lookup found. */
    method Rmdir(d: nat, name: string) returns (err: Errno, ghost k: nat)
      requires Valid() && d in nodes && nodes[d].kind.VDir?
      modifies this, pool
      ensures OnlyMine()
      ensures Valid()
      ensures !err.OK? ==> nodes == old(nodes)
      ensures err.ENOENT? <==> Bind(old(T()), d, name).None?
      ensures err.OK? <==> MayRemove(old(T()), d, name, true)
      ensures err.OK? ==> var n := Bind(old(T()), d, name).value;
        n in nodes && n in old(nodes) && old(nodes[n].dir.entries) == [] && nodes[n].links == 0 && nodes[n].parent.None?
      ensures err.OK? ==> EntryNamed(old(T()), d, k, name) && T() == TargetRemoved(old(T()), d, Some(k))
      ensures err.OK? ==> pool.Room(me) >= old(pool.Room(me))
      ensures err.OK? ==>
        forall c, nm :: Bind(T(), c, nm) == if c == d && nm == name then None else Bind(old(T()), c, nm)
    {
      var found := D.DirLookup(nodes[d].dir, name);
      k := 0;
      if found.None? { return ENOENT, k; }
      var n := found.value.node;
      k := LookupIndex(T(), d, name);
      DetachAssertions(T(), {}, d, k);
      if !nodes[n].kind.VDir? { return ENOTDIR, k; }
      assert nodes[n].parent == Some(d);
      assert NodeOk(T(), {}, n);
      if nodes[n].size > 0 { return ENOTEMPTY, k; }
      var id;
      id, k := FindEntry(d, name, n);
      if AppendOnly(nodes[d]) || Frozen(nodes[n]) { return EPERM, k; }
      RmdirLinks(T(), n);
      RemovedOk(T(), d, k);
      RemoveEntry(d, id, k, 0);
      return OK, k;
    }

    // ---------- rename ----------

    /** Lock a directory for rename and look up a name in it; a directory that was removed has no parent. */
    method LockFind(d: nat, name: string, lk: Lookups) returns (err: Errno, de: Option<D.Dirent>)
      requires d in nodes
      ensures err.OK? <==> Searchable(T(), lk, d)
      ensures err.OK? ==> de == D.Lookup(nodes[d].dir.entries, name)
      ensures err.ENOENT? ==> nodes[d].parent.None?
      ensures err.EBUSY? ==> d in lk.mounted
      ensures err.EACCES? ==> d in lk.barred
      ensures err.OK? || err.ENOENT? || err.EBUSY? || err.EACCES?
    {
      if nodes[d].parent.None? { return ENOENT, None; }
      if d in lk.mounted { return EBUSY, None; }
      if d in lk.barred { return EACCES, None; }
      de := D.DirLookup(nodes[d].dir, name);
      err := OK;
    }

    /** Get the vnode of a node that was looked up, and refuse mount points. */
    method GetVnode(n: nat, lk: Lookups) returns (err: Errno)
      requires n in nodes
      ensures err.OK? <==> Gettable(T(), lk, n)
      ensures err.ENFILE? ==> n in lk.lost
      ensures err.EBUSY? ==> n in lk.mounted
      ensures err.OK? || err.ENFILE? || err.EBUSY?
    {
      if n in lk.lost { return ENFILE; }
      if nodes[n].kind.VDir? && n in lk.mounted { return EBUSY; }
      return OK;
    }

    /** tmpfs_rename_enter_common */
    method EnterCommon(d: nat, from: string, to: string, lk: Lookups)
      returns (err: Errno, fde: Option<D.Dirent>, tde: Option<D.Dirent>)
      requires Inv(T(), {}) && NamesOk(T()) && d in nodes
      ensures Entered(T(), d, from, d, to, lk, err, fde, tde)
    {
      tde := None;
      err, fde := LockFind(d, from, lk);
      if !err.OK? { return; }
      if fde.None? { return ENOENT, fde, tde; }
      FoundNode(T(), d, from);
      err := GetVnode(fde.value.node, lk);
      if !err.OK? { return; }
      tde := D.DirLookup(nodes[d].dir, to);
      if tde.Some? {
        FoundNode(T(), d, to);
        err := GetVnode(tde.value.node, lk);
      }
    }

    /** tmpfs_rename_lock when the source directory is not above the target: the target goes first. */
    method EnterBeside(fd: nat, from: string, td: nat, to: string, lk: Lookups)
      returns (err: Errno, fde: Option<D.Dirent>, tde: Option<D.Dirent>)
      requires Inv(T(), {}) && NamesOk(T()) && fd in nodes && td in nodes && fd != td
      requires nodes[td].kind.VDir? && nodes[td].parent.Some? && IsChildAbove(T(), fd, td, None)
      ensures Entered(T(), fd, from, td, to, lk, err, fde, tde)
    {
      fde := None;
      err, tde := LockFind(td, to, lk);
      if !err.OK? { return; }
      if tde.Some? {
        FoundNode(T(), td, to);
        if tde.value.node == fd { return ENOTEMPTY, fde, tde; }
        err := GetVnode(tde.value.node, lk);
        if !err.OK? { return; }
      }
      err, fde := LockFind(fd, from, lk);
      if !err.OK? { return; }
      if fde.None? { return ENOENT, fde, tde; }
      CycleTest(T(), fd, from, td, None);
      err := GetVnode(fde.value.node, lk);
    }

    /** tmpfs_rename_lock when the target is below the source directory, by way of its child `above`. */
    method EnterBelow(fd: nat, from: string, td: nat, to: string, lk: Lookups, above: nat)
      returns (err: Errno, fde: Option<D.Dirent>, tde: Option<D.Dirent>)
      requires Inv(T(), {}) && NamesOk(T()) && fd in nodes && td in nodes && fd != td && nodes[fd].kind.VDir?
      requires nodes[td].kind.VDir? && nodes[td].parent.Some? && IsChildAbove(T(), fd, td, Some(above))
      ensures Entered(T(), fd, from, td, to, lk, err, fde, tde)
    {
      tde := None;
      err, fde := LockFind(fd, from, lk);
      if !err.OK? { return; }
      if fde.None? { return ENOENT, fde, tde; }
      CycleTest(T(), fd, from, td, Some(above));
      if fde.value.node == td { return EINVAL, fde, tde; }
      err := GetVnode(fde.value.node, lk);
      if !err.OK? { return; }
      err, tde := LockFind(td, to, lk);
      if !err.OK? { return; }
      if tde.Some? {
        FoundNode(T(), td, to);
        TargetIsNotSource(T(), fd, td, to, Some(above));
        err := GetVnode(tde.value.node, lk);
        if !err.OK? { return; }
      }
      if fde.value.node == above { return EINVAL, fde, tde; }
    }

    /** tmpfs_rename_enter: look up source and target and refuse what cannot be moved. */
    method RenameEnter(fd: nat, from: string, td: nat, to: string, lk: Lookups)
      returns (err: Errno, fde: Option<D.Dirent>, tde: Option<D.Dirent>)
      requires Inv(T(), {}) && NamesOk(T())
      requires fd in nodes && td in nodes && nodes[fd].kind.VDir? && nodes[td].kind.VDir?
      ensures Entered(T(), fd, from, td, to, lk, err, fde, tde)
    {
      if fd == td {
        err, fde, tde := EnterCommon(fd, from, to, lk);
        return;
      }
      if nodes[td].parent.None? { return ENOENT, None, None; }
      var above := Genealogy(T(), fd, td);
      if above.None? {
        err, fde, tde := EnterBeside(fd, from, td, to, lk);
      } else {
        err, fde, tde := EnterBelow(fd, from, td, to, lk, above.value);
      }
    }

    /** The source entry goes to the end of another directory. */
    method Carry(fd: nat, fde: D.Dirent, td: nat, ghost kf: nat, ghost kt: Option<nat>)
      requires Carriable(T(), fd, kf, td, kt) && EntryAt(T(), fd, fde.id, kf) && nodes[fd].dir.entries[kf] == fde
      requires DetachSafe(T(), fd, kf)
      modifies this`nodes
      ensures T() == Attached(Detached(old(T()), fd, kf), td, fde.id, fde.name, fde.node)
    {
      CarryReady(T(), fd, kf, td, kt);
      DirDetach(fd, fde.id);
      DirAttach(td, fde.id, fde.name, fde.node);
    }

    /** The move between two directories, before a target is removed. */
    method CarryOver(fd: nat, fde: D.Dirent, td: nat, tde: Option<D.Dirent>,
                     ghost kf: nat, ghost kt: Option<nat>, ghost held: nat)
      requires Billed(held) && Inv(T(), {}) && fd != td && Shufflable(T(), fd, fde, kf, td, tde, kt)
      modifies this`nodes
      ensures Carriable(old(T()), fd, kf, td, kt)
      ensures T() == Attached(Detached(old(T()), fd, kf), td, fde.id, fde.name, fde.node)
      ensures Billed(held) && td in nodes && nodes[td].kind.VDir?
      ensures kt.Some? ==> EntryAt(T(), td, tde.value.id, kt.value) && DetachSafe(T(), td, kt.value)
    {
      TargetKept(T(), fd, fde, kf, td, tde, kt);
      DetachAssertions(T(), {}, fd, kf);
      Carry(fd, fde, td, kf, kt);
    }

    /** tmpfs_rename_attachdetach */
    method AttachDetach(fd: nat, fde: D.Dirent, td: nat, tde: Option<D.Dirent>,
                        ghost kf: nat, ghost kt: Option<nat>, ghost held: nat)
      requires Billed(held) && Inv(T(), {}) && Shufflable(T(), fd, fde, kf, td, tde, kt)
      modifies this`nodes, pool
      ensures OnlyMine()
      ensures T() == Shuffled(old(T()), fd, kf, td, kt) && Billed(held)
    {
      if fd != td {
        CarryOver(fd, fde, td, tde, kf, kt, held);
      } else if tde.Some? {
        DetachAssertions(T(), {}, td, kt.value);
      }
      if tde.Some? {
        RemoveEntry(td, tde.value.id, kt.value, held);
      }
    }

    /** Give the moved entry its new name, in the memory set aside for it; equal names need none. */
    method CommitName(td: nat, id: nat, to: string, newname: bool, ghost k: nat)
      requires Billed(if newname then RoundName(|to|) else 0) && EntryAt(T(), td, id, k)
      requires !newname ==> nodes[td].dir.entries[k].name == to
      modifies this`nodes, pool
      ensures OnlyMine()
      ensures T() == RenamedEnt(old(T()), td, k, to) && Billed(0)
    {
      ghost var t := T();
      if newname {
        RenamedBytes(t, td, k, to);
        BytesPositive(RenamedEnt(t, td, k, to));
        pool.Decr(me, RoundName(|nodes[td].dir.entries[D.IndexOf(nodes[td].dir.entries, id)].name|));
        nodes := nodes[td := nodes[td].(dir := D.Rename(nodes[td].dir, D.IndexOf(nodes[td].dir.entries, id), to))];
      } else {
        SameName(t, td, k);
      }
    }

    /** The kinds of source and target, their flags, the credentials, and room for another sequence number. */
    method CheckReplace(fd: nat, fn: nat, td: nat, tn: Option<nat>, permitted: bool) returns (err: Errno)
      requires fd in nodes && td in nodes && fn in nodes
      requires tn.Some? ==> tn.value in nodes && NodeOk(T(), {}, tn.value)
      ensures err.OK? <==> permitted && MayReplace(T(), fd, fn, td, tn)
    {
      var f := nodes[fn];
      if tn.Some? {
        var x := nodes[tn.value];
        if f.kind.VDir? && x.kind.VDir? && x.size > 0 { return ENOTEMPTY; }
        if f.kind.VDir? && !x.kind.VDir? { return ENOTDIR; }
        if !f.kind.VDir? && x.kind.VDir? { return EISDIR; }
      }
      if Frozen(nodes[fd]) || Frozen(f) { return EPERM; }
      if Immutable(nodes[td]) || (tn.Some? && AppendOnly(nodes[td])) { return EPERM; }
      if tn.Some? && Frozen(nodes[tn.value]) { return EPERM; }
      if !permitted { return EACCES; }
      if D.Full(nodes[td].dir) { return ENOSPC; }
      return OK;
    }

    /** The move itself: shuffle the entries, then put the new name on the moved one. */
    method Replace(fd: nat, fde: D.Dirent, td: nat, tde: Option<D.Dirent>, to: string, newname: bool,
                   ghost kf: nat, ghost kt: Option<nat>)
      requires Billed(if newname then RoundName(|to|) else 0) && Inv(T(), {}) && NamesOk(T())
      requires !newname ==> fde.name == to
      requires Shufflable(T(), fd, fde, kf, td, tde, kt) && IsTarget(T(), td, kt, to)
      modifies this`nodes, pool
      ensures OnlyMine()
      ensures Valid() && RenameEffect(old(T()), T(), fd, fde.name, td, to, fde.node) && Rearranged(old(T()), T())
    {
      ghost var t := T();
      if fd != td { TargetKept(t, fd, fde, kf, td, tde, kt); }
      RenameDone(t, fd, fde, kf, td, tde, kt, to);
      AttachDetach(fd, fde, td, tde, kf, kt, if newname then RoundName(|to|) else 0);
      CommitName(td, fde.id, to, newname, NewIndex(t, fd, kf, td, kt));
    }

    /** The part of tmpfs_sane_rename in which source and target are different nodes. */
    method RenameOver(fd: nat, fde: D.Dirent, td: nat, tde: Option<D.Dirent>, to: string, newname: bool,
                      permitted: bool,
                      ghost kf: nat, ghost kt: Option<nat>) returns (err: Errno)
      requires Billed(if newname then RoundName(|to|) else 0) && Inv(T(), {}) && NamesOk(T())
      requires !newname ==> fde.name == to
      requires fd in nodes && td in nodes && nodes[fd].kind.VDir? && nodes[td].kind.VDir? && nodes[td].parent.Some?
      requires EntryAt(T(), fd, fde.id, kf) && nodes[fd].dir.entries[kf] == fde
      requires IsTarget(T(), td, kt, to) && kt.Some? == tde.Some?
      requires tde.Some? ==>
        EntryAt(T(), td, tde.value.id, kt.value) && nodes[td].dir.entries[kt.value] == tde.value
        && tde.value.node != fde.node
      requires Enterable(T(), fd, fde.node, td, tde)
      modifies this`nodes, pool
      ensures OnlyMine()
      ensures !err.OK? ==> nodes == old(nodes) && Billed(if newname then RoundName(|to|) else 0)
      ensures err.OK? <==> permitted && MayReplace(old(T()), fd, fde.node, td, NodeOf(tde))
      ensures err.OK? ==> Valid() && RenameEffect(old(T()), T(), fd, fde.name, td, to, fde.node)
      ensures err.OK? ==> Rearranged(old(T()), T())
    {
      if tde.Some? { assert NodeOk(T(), {}, tde.value.node); }
      err := CheckReplace(fd, fde.node, td, NodeOf(tde), permitted);
      if err.OK? { Replace(fd, fde, td, tde, to, newname, kf, kt); }
    }

    /** The part in which both names lead to the same node: at most the source entry goes. */
    method RenameOnto(fd: nat, fde: D.Dirent, tde: D.Dirent, permitted: bool, ghost kf: nat, ghost held: nat)
      returns (err: Errno)
      requires Billed(held) && Inv(T(), {}) && NamesOk(T())
      requires fd in nodes && nodes[fd].kind.VDir? && fde.node in nodes
      requires EntryAt(T(), fd, fde.id, kf) && nodes[fd].dir.entries[kf] == fde
      modifies this`nodes, pool
      ensures OnlyMine()
      ensures Billed(held) && Inv(T(), {}) && NamesOk(T())
      ensures err.EINVAL? <==> old(nodes[fde.node].kind.VDir?)
      ensures err.OK? <==>
        !err.EINVAL? && (fde.id == tde.id || (!Frozen(old(nodes[fd])) && !Frozen(old(nodes[fde.node])) && permitted))
      ensures !err.OK? || fde.id == tde.id ==> nodes == old(nodes)
      ensures err.OK? && fde.id != tde.id ==> Unbound(old(T()), T(), fd, fde.name)
    {
      if nodes[fde.node].kind.VDir? { return EINVAL; }
      if fde.id != tde.id {
        if Frozen(nodes[fd]) || Frozen(nodes[fde.node]) { return EPERM; }
        if !permitted { return EACCES; }
        DetachAssertions(T(), {}, fd, kf);
        RemovedOk(T(), fd, kf);
        RemoveSteps(T(), fd, kf);
        RemoveEntry(fd, fde.id, kf, held);
      }
      return OK;
    }

    /** Everything after the new name's memory was set aside; `spare` says it was not used. */
    method RenameNames(fd: nat, from: string, td: nat, to: string, lk: Lookups, newname: bool, permitted: bool)
      returns (err: Errno, spare: bool)
      requires Billed(if newname then RoundName(|to|) else 0) && Inv(T(), {}) && NamesOk(T())
      requires !newname ==> from == to
      requires fd in nodes && td in nodes && nodes[fd].kind.VDir? && nodes[td].kind.VDir?
      modifies this`nodes, pool
      ensures OnlyMine()
      ensures Billed(if spare then RoundName(|to|) else 0) && Inv(T(), {}) && NamesOk(T())
      ensures !err.OK? ==> nodes == old(nodes)
      ensures err.OK? <==> MayRename(old(T()), fd, from, td, to, lk, permitted)
      ensures err.OK? ==> Renamed(old(T()), T(), fd, from, td, to)
      ensures OntoItself(old(T()), fd, from, td, to, lk) ==> err.EINVAL?
    {
      var fde, tde;
      err, fde, tde := RenameEnter(fd, from, td, to, lk);
      spare := newname;
      if !err.OK? { return; }
      RenameOutcome(T(), fd, from, td, to, lk, permitted);
      if NodeOf(tde) == Some(fde.value.node) {
        err := OntoSame(fd, from, td, to, permitted, fde.value, tde.value, if newname then RoundName(|to|) else 0);
      } else {
        err := OverOther(fd, from, td, to, newname, permitted, fde.value, tde);
        spare := newname && !err.OK?;
      }
    }

    /** RenameOnto, with the effect on names. */
    method OntoSame(fd: nat, from: string, td: nat, to: string, permitted: bool, fde: D.Dirent, tde: D.Dirent,
                    ghost held: nat) returns (err: Errno)
      requires Billed(held) && Inv(T(), {}) && NamesOk(T())
      requires fd in nodes && nodes[fd].kind.VDir? && td in nodes && fde.node in nodes && fde.node == tde.node
      requires D.Lookup(nodes[fd].dir.entries, from) == Some(fde) && D.Lookup(nodes[td].dir.entries, to) == Some(tde)
      modifies this`nodes, pool
      ensures OnlyMine()
      ensures Billed(held) && Inv(T(), {}) && NamesOk(T())
      ensures !err.OK? ==> nodes == old(nodes)
      ensures err.OK? <==>
        !old(nodes[fde.node]).kind.VDir?
        && (fde.id == tde.id || (!Frozen(old(nodes[fd])) && !Frozen(old(nodes[fde.node])) && permitted))
      ensures err.OK? ==> Renamed(old(T()), T(), fd, from, td, to)
      ensures err.EINVAL? <==> old(nodes[fde.node]).kind.VDir?
    {
      OntoEffect(T(), fd, from, td, to);
      ghost var kf := LookupIndex(T(), fd, from);
      err := RenameOnto(fd, fde, tde, permitted, kf, held);
    }

    /** RenameOver, for the entries the lookups found. */
    method OverOther(fd: nat, from: string, td: nat, to: string, newname: bool, permitted: bool,
                     fde: D.Dirent, tde: Option<D.Dirent>) returns (err: Errno)
      requires Billed(if newname then RoundName(|to|) else 0) && Inv(T(), {}) && NamesOk(T())
      requires !newname ==> from == to
      requires fd in nodes && td in nodes && nodes[fd].kind.VDir? && nodes[td].kind.VDir? && nodes[td].parent.Some?
      requires D.Lookup(nodes[fd].dir.entries, from) == Some(fde) && D.Lookup(nodes[td].dir.entries, to) == tde
      requires NodeOf(tde) != Some(fde.node) && Enterable(T(), fd, fde.node, td, tde)
      modifies this`nodes, pool
      ensures OnlyMine()
      ensures !err.OK? ==> nodes == old(nodes) && Billed(if newname then RoundName(|to|) else 0)
      ensures err.OK? <==> permitted && MayReplace(old(T()), fd, fde.node, td, NodeOf(tde))
      ensures err.OK? ==> Valid() && Renamed(old(T()), T(), fd, from, td, to)
    {
      ghost var kf := LookupIndex(T(), fd, from);
      ghost var kt: Option<nat> := None;
      if tde.Some? {
        ghost var k := LookupIndex(T(), td, to);
        kt := Some(k);
      }
      err := RenameOver(fd, fde, td, tde, to, newname, permitted, kf, kt);
    }

    /**
      tmpfs_sane_rename, with posixly_correct off. `lk` is what the lookups meet and `permitted` the
      outcome of the credential checks that follow them.
    */
    method Rename(fd: nat, fc: Component, td: nat, tc: Component, lk: Lookups, permitted: bool) returns (err: Errno)
      requires Valid() && WellFormed(fc) && WellFormed(tc)
      requires fd in nodes && td in nodes && nodes[fd].kind.VDir? && nodes[td].kind.VDir?
      modifies this, pool
      ensures OnlyMine()
      ensures Valid()
      ensures !err.OK? ==> nodes == old(nodes)
      ensures err.OK? <==>
        MayRename(old(T()), fd, Name(fc), td, Name(tc), lk, permitted)
        && (StrnameNeqlen(fc, tc) ==> old(pool.Room(me)) >= RoundName(tc.len))
      ensures err.OK? ==> Renamed(old(T()), T(), fd, Name(fc), td, Name(tc))
      ensures OntoItself(old(T()), fd, Name(fc), td, Name(tc), lk) && !StrnameNeqlen(fc, tc) ==> err.EINVAL?
    {
      var newname := StrnameNeqlen(fc, tc);
      if newname {
        var ok := pool.Incr(me, RoundName(tc.len));
        if !ok { return ENOSPC; }
      } else {
        NeqlenSound(fc, tc);
      }
      err := RenameAndRefund(fd, Name(fc), td, Name(tc), lk, newname, permitted);
    }

    /** RenameNames, and the memory of the new name given back if it was not used. */
    method RenameAndRefund(fd: nat, from: string, td: nat, to: string, lk: Lookups, newname: bool, permitted: bool)
      returns (err: Errno)
      requires Billed(if newname then RoundName(|to|) else 0) && Inv(T(), {}) && NamesOk(T())
      requires !newname ==> from == to
      requires fd in nodes && td in nodes && nodes[fd].kind.VDir? && nodes[td].kind.VDir?
      modifies this`nodes, pool
      ensures OnlyMine() && Valid()
      ensures !err.OK? ==> nodes == old(nodes)
      ensures err.OK? <==> MayRename(old(T()), fd, from, td, to, lk, permitted)
      ensures err.OK? ==> Renamed(old(T()), T(), fd, from, td, to)
      ensures OntoItself(old(T()), fd, from, td, to, lk) ==> err.EINVAL?
    {
      var spare;
      err, spare := RenameNames(fd, from, td, to, lk, newname, permitted);
      if spare {
        BytesPositive(T());
        pool.Decr(me, RoundName(|to|));
      }
    }

    // ---------- attributes, file size, readdir, reclaim ----------

    /** Replace a node by one that differs only in attributes. */
    twostate lemma Touched(n: nat)
      requires old(Valid()) && n in old(nodes) && n in nodes && nodes == old(nodes)[n := nodes[n]]
      requires nextDe == old(nextDe)
      requires SameShape(old(nodes[n]), nodes[n]) && Billed(0)
      ensures Valid() && forall c, nm :: Bind(T(), c, nm) == Bind(old(T()), c, nm)
    {
      TouchInv(old(T()), n, nodes[n]);
      TouchNames(old(T()), n, nodes[n]);
      assert T() == WithNode(old(T()), n, nodes[n]);
    }

    /** The bookkeeping of tmpfs_reg_resize: pages follow the size, and the account follows the pages. */
    method Resize(n: nat, newsize: nat, growOk: bool) returns (err: Errno)
      requires Valid() && n in nodes && nodes[n].kind.VReg?
      modifies this, pool
      ensures OnlyMine()
      ensures Valid() && n in nodes
      ensures !err.OK? ==> nodes == old(nodes)
      ensures err.OK? ==>
        nodes == old(nodes)[n := old(nodes[n]).(size := newsize, pages := RoundPage(newsize) / PAGE_SIZE)]
      ensures err.OK? <==>
        var more := RoundPage(newsize) - old(nodes[n].pages) * PAGE_SIZE;
        more <= 0 || (old(pool.Room(me)) >= more && growOk)
    {
      var newpages := RoundPage(newsize) / PAGE_SIZE;
      ResizedOk(T(), n, newsize);
      var ok := Recharge(RoundPage(nodes[n].size) / PAGE_SIZE, newpages, growOk);
      if !ok { return ENOSPC; }
      nodes := nodes[n := nodes[n].(size := newsize, pages := newpages)];
      return OK;
    }

    /** Charge for added pages, give the charge back if the object cannot grow, refund dropped pages. */
    method Recharge(oldpages: nat, newpages: nat, growOk: bool) returns (ok: bool)
      requires pool.Valid() && me in pool.mounts && pool.mounts[me].used + (newpages - oldpages) * PAGE_SIZE >= 0
      modifies pool
      ensures OnlyMine() && pool.Valid() && me in pool.mounts
      ensures ok <==> newpages <= oldpages || (old(pool.Room(me)) >= (newpages - oldpages) * PAGE_SIZE && growOk)
      ensures pool.mounts[me].used == old(pool.mounts[me].used) + if ok then (newpages - oldpages) * PAGE_SIZE else 0
    {
      if newpages > oldpages {
        ok := pool.Incr(me, (newpages - oldpages) * PAGE_SIZE);
        if ok && !growOk {
          pool.Decr(me, (newpages - oldpages) * PAGE_SIZE);
          ok := false;
        }
        return;
      }
      if newpages < oldpages { pool.Decr(me, (oldpages - newpages) * PAGE_SIZE); }
      return true;
    }

    /**
      tmpfs_chflags, by the owner or another user, who may be the superuser; `secure` says that the security
      level is above 0. Flags other than these four are not modelled.
    */
    method SetFlags(n: nat, flags: Flags, readonly: bool, owner: bool, super: bool, secure: bool) returns (err: Errno)
      requires Valid() && n in nodes
      modifies this`nodes
      ensures Valid() && (err.OK? || err.EROFS? || err.EPERM?)
      ensures forall c, nm :: Bind(T(), c, nm) == Bind(old(T()), c, nm)
      ensures err.OK? <==>
        !readonly && (if super then !(SystemFlagged(old(nodes[n])) && secure)
                      else owner && !SystemFlagged(old(nodes[n])) && !flags.sysImmutable && !flags.sysAppend)
      ensures nodes == if err.OK? then old(nodes)[n := old(nodes[n]).(flags := flags)] else old(nodes)
    {
      if readonly { return EROFS; }
      if !owner && !super { return EPERM; }
      if super {
        if SystemFlagged(nodes[n]) && secure { return EPERM; }
      } else {
        if SystemFlagged(nodes[n]) || flags.sysImmutable || flags.sysAppend { return EPERM; }
      }
      FlaggedOk(T(), n, flags);
      nodes := nodes[n := nodes[n].(flags := flags)];
      return OK;
    }

    /** tmpfs_readdir: a removed directory lists nothing; otherwise only the cache changes. */
    method Readdir(n: nat, offset: nat, resid: nat, moves: nat, reclen: string -> nat)
      returns (out: seq<D.Record>, offset': nat, outcome: D.Outcome)
      requires Valid() && n in nodes && nodes[n].kind.VDir?
      modifies this`nodes
      ensures Valid() && n in nodes && CacheMoved(old(T()), T(), n)
      ensures forall c, nm :: Bind(T(), c, nm) == Bind(old(T()), c, nm)
      ensures old(nodes[n].links) == 0 ==> outcome.Fine? && out == [] && offset' == offset && nodes == old(nodes)
      ensures old(nodes[n].links) != 0 ==>
        if D.ValidOffset(old(nodes[n].dir), offset)
        then D.Delivers(old(nodes[n].dir), offset, resid, moves, reclen, out, offset')
        else outcome.Invalid? && out == [] && offset' == offset && nodes == old(nodes)
    {
      ghost var p, p';
      out, offset', outcome := [], offset, D.Fine;
      SameCache(T(), n);
      if nodes[n].links == 0 { return; }
      assert NodeOk(T(), {}, n);
      var lastp;
      out, offset', lastp, outcome, p, p' := D.GetDents(nodes[n].dir, offset, resid, moves, reclen);
      TotalUpdate(nodes, n, nodes[n].(dir := nodes[n].dir.(lastp := lastp)), NodeBytes);
      SetCache(n, lastp);
    }

    method SetCache(n: nat, lastp: Option<nat>)
      requires Valid() && n in nodes && nodes[n].kind.VDir? && D.Ok(nodes[n].dir.(lastp := lastp))
      requires Bytes(T().(nodes := nodes[n := nodes[n].(dir := nodes[n].dir.(lastp := lastp))])) == Bytes(T())
      modifies this`nodes
      ensures Valid() && nodes == old(nodes)[n := old(nodes[n]).(dir := old(nodes[n]).dir.(lastp := lastp))]
      ensures forall c, nm :: Bind(T(), c, nm) == Bind(old(T()), c, nm)
    {
      nodes := nodes[n := nodes[n].(dir := nodes[n].dir.(lastp := lastp))];
      Touched(n);
    }

    /** tmpfs_reclaim: a node without links goes away with everything it was charged for. */
    method Reclaim(n: nat)
      requires Valid() && n in nodes
      modifies this, pool
      ensures OnlyMine()
      ensures Valid() && nodes == if old(nodes[n].links) == 0 then old(nodes) - {n} else old(nodes)
      ensures forall c, nm :: Bind(T(), c, nm) == Bind(old(T()), c, nm)
    {
      if nodes[n].links == 0 {
        assert NodeOk(T(), {}, n);
        FreeInv(T(), n);
        UnlinkedIsEmpty(T(), n);
        FreeNode(n, 0);
        forall d ensures NamesOkAt(T(), d) { assert NamesOkAt(old(T()), d); }
      }
    }

    // ---------- unmount ----------

    /** First round of tmpfs_unmount for one directory: its entries are detached and freed, front to back. */
    method DrainDirectory(d: nat, ghost fl: set<nat>) returns (ghost fl': set<nat>)
      requires Billed(0) && Inv(T(), fl) && d in nodes && nodes[d].kind.VDir?
      modifies this`nodes, pool
      ensures OnlyMine()
      ensures Billed(0) && Inv(T(), fl') && nodes.Keys == old(nodes.Keys) && nodes[d].dir.entries == []
      ensures forall n :: n in nodes && n != d ==> nodes[n].dir == old(nodes)[n].dir
      ensures forall n :: n in nodes ==> nodes[n].kind == old(nodes)[n].kind
    {
      fl' := fl;
      while nodes[d].dir.entries != []
        invariant OnlyMine() && Billed(0) && Inv(T(), fl') && nodes.Keys == old(nodes.Keys) && d in nodes
        invariant nodes[d].kind.VDir?
        invariant forall n :: n in nodes && n != d ==> nodes[n].dir == old(nodes)[n].dir
        invariant forall n :: n in nodes ==> nodes[n].kind == old(nodes)[n].kind
        decreases |nodes[d].dir.entries|
      {
        fl' := DrainOne(d, fl');
      }
    }

    method DrainOne(d: nat, ghost fl: set<nat>) returns (ghost fl': set<nat>)
      requires Billed(0) && Inv(T(), fl) && d in nodes && nodes[d].kind.VDir? && nodes[d].dir.entries != []
      modifies this`nodes, pool
      ensures OnlyMine()
      ensures Billed(0) && Inv(T(), fl')
      ensures nodes.Keys == old(nodes.Keys) && |nodes[d].dir.entries| == |old(nodes[d].dir.entries)| - 1
      ensures forall n :: n in nodes ==>
        nodes[n].kind == old(nodes)[n].kind && (n != d ==> nodes[n].dir == old(nodes)[n].dir)
    {
      var e := nodes[d].dir.entries[0];
      DrainStep(T(), fl, d);
      DetachedFrame(T(), d, 0);
      fl' := AfterDetach(T(), fl, e.node);
      DirDetach(d, e.id);
      FreeDirent(e.name, 0);
    }

    /** First round of tmpfs_unmount. */
    method DrainAll()
      requires Billed(0) && Inv(T(), {})
      modifies this`nodes, pool
      ensures OnlyMine() && Billed(0) && forall n :: n in nodes ==> Expendable(n)
    {
      var todo := nodes.Keys;
      ghost var fl: set<nat> := {};
      while todo != {}
        invariant Billed(0) && Inv(T(), fl) && todo <= nodes.Keys && OnlyMine()
        invariant forall n :: n in nodes && n !in todo ==> nodes[n].dir.entries == []
      {
        var d :| d in todo;
        if nodes[d].kind.VDir? {
          fl := DrainDirectory(d, fl);
        } else {
          assert NodeOk(T(), fl, d);
        }
        todo := todo - {d};
      }
      forall n | n in nodes ensures Expendable(n) { DrainedExpendable(T(), fl, n); }
    }

    /** Second round of tmpfs_unmount. */
    method FreeAll()
      requires Billed(0) && forall n :: n in nodes ==> Expendable(n)
      modifies this, pool
      ensures OnlyMine() && Billed(0) && nodes == map[]
    {
      while nodes != map[]
        invariant Billed(0) && OnlyMine() && forall n :: n in nodes ==> Expendable(n)
        decreases |nodes|
      {
        var n :| n in nodes;
        OneFewer(nodes, n);
        FreeNode(n, 0);
      }
    }

    /**
      tmpfs_unmount. All entries go, then all nodes; every assertion on the way holds,
      the account ends at zero and the reservation is returned.
    */
    method Unmount()
      requires Valid()
      modifies this, pool
      ensures nodes == map[] && pool.Valid() && pool.mounts == old(pool.Others(me))
    {
      DrainAll();
      FreeAll();
      pool.Close(me);
    }
  }

  // ---------- mounting, and runs of operations ----------

  const INT_MAX := 0x7FFF_FFFF
  const UINT64_MAX := 0xFFFF_FFFF_FFFF_FFFF

  function NodeLimit(memlimit: nat, wanted: nat): (r: nat)
    ensures 3 <= r <= INT_MAX
  {
    var n := if wanted <= 3 then 3 + (if memlimit != 0 then memlimit else UINT64_MAX) / 1024 else wanted;
    if n < INT_MAX then n else INT_MAX
  }

  datatype MountOutcome = Mounted(m: Mount) | Refused | AssertionFails

  /**
    tmpfs_mount. A limited mount is refused when the pool cannot cover its reservation.
    The assertion that the root node could be allocated fails exactly for an unlimited
    mount on a pool with less than one node of room.
  */
  method MountFs(pool: Pool, id: nat, sizeMax: nat, nodesMax: nat) returns (r: MountOutcome)
    requires pool.Valid() && id !in pool.mounts
    modifies pool
    ensures r.Refused? <==> sizeMax != 0 && pool.limit - old(pool.used) < RoundPage(sizeMax)
    ensures r.AssertionFails? <==> sizeMax == 0 && pool.limit - old(pool.used) < NODE_BYTES
    ensures r.Mounted? ==> fresh(r.m) && r.m.Valid() && r.m.pool == pool && r.m.me == id
    ensures r.Mounted? ==>
      r.m.nodes == map[r.m.root := RootNode(r.m.root)] && r.m.nodesMax == NodeLimit(RoundPage(sizeMax), nodesMax)
    ensures r.Mounted? ==>
      pool.Others(id) == old(pool.mounts)
      && pool.Room(id) == (if sizeMax != 0 then RoundPage(sizeMax) else pool.limit - old(pool.used)) - NODE_BYTES
      && r.m.Capacity() == if sizeMax != 0 then RoundPage(sizeMax) else pool.limit - old(pool.used)
    ensures r.Refused? ==> pool.Valid() && pool.mounts == old(pool.mounts)
  {
    var ok := pool.Open(id, sizeMax);
    if !ok { return Refused; }
    if pool.Room(id) < NODE_BYTES { return AssertionFails; }
    var limit := NodeLimit(pool.mounts[id].limit, nodesMax);
    var m := new Mount(pool, id, limit);
    m.RoomIs();
    FreshMountBytes(m.T());
    r := Mounted(m);
  }

  /** The assertion does fail, on a pool without room for one node. */
  method MountOnEmptyPool() returns (r: MountOutcome)
    ensures r.AssertionFails?
  {
    var pool := new Pool(0);
    r := MountFs(pool, 1, 0, 0);
  }

  /** The nodes after a successful create. */
  lemma CreatedNodes(t: Tree, d: nat, n: nat, kind: Kind, len: nat, id: nat, name: string)
    requires d in t.nodes && n !in t.nodes && !D.Full(t.nodes[d].dir)
    ensures var t' := Attached(Allocated(t, n, kind, len), d, id, name, n);
      t'.nodes.Keys == t.nodes.Keys + {n} && t'.nodes[d].dir.nextSeq == t.nodes[d].dir.nextSeq + 1
      && t'.nodes[d].kind == t.nodes[d].kind && Frozen(t'.nodes[d]) == Frozen(t.nodes[d])
      && t'.nodes[d].links == t.nodes[d].links + (if kind.VDir? then 1 else 0)
      && t'.nodes[n].dir == D.NoEntries && t'.nodes[n].kind == kind && !Frozen(t'.nodes[n])
      && (kind.VReg? ==> t'.nodes[n].links == 1) && forall c :: c in t.nodes && c != d ==> t'.nodes[c] == t.nodes[c]
  {
  }

  /** The nodes after a successful rmdir. */
  lemma RemovedNodes(t: Tree, d: nat, k: nat)
    requires DetachSafe(t, d, k)
    ensures var t', g := TargetRemoved(t, d, Some(k)), Leaving(t, d, k);
      t'.nodes.Keys == t.nodes.Keys && t'.nodes[g].dir == t.nodes[g].dir
      && forall c :: c in t.nodes && c != d && c != g ==> t'.nodes[c] == t.nodes[c]
  {
  }

  /** A file or directory with a one-letter name. */
  lemma SmallCosts(name: string, kind: Kind)
    requires |name| == 1 && !kind.VLnk?
    ensures NodeBytes(FreshNode(kind, 0)) == NODE_BYTES && EntBytes(name) == DIRENT_BYTES + NAME_QUANTUM
  {
  }

  /** There is everything it takes to create `left` more nodes with one-letter names in the root, and an entry. */
  ghost predicate Ready(m: Mount, left: nat)
    reads m, m.pool
  {
    m.Valid() && m.root in m.nodes && m.nodes[m.root].kind.VDir? && !Frozen(m.nodes[m.root])
    && 0 < m.nodes[m.root].links < LINK_MAX - left && m.nodes[m.root].dir.nextSeq + left < D.DIRSEQ_END
    && m.nodesCnt + left <= m.nodesMax
    && m.pool.Room(m.me) >= left * (NODE_BYTES + DIRENT_BYTES + NAME_QUANTUM) + DIRENT_BYTES + NAME_QUANTUM
  }

  /** A new mount of one page. */
  method OnePage() returns (m: Mount)
    ensures fresh(m) && fresh(m.pool) && Ready(m, 2) && forall nm :: Bind(m.T(), m.root, nm).None?
  {
    var pool := new Pool(PAGE_SIZE);
    var r := MountFs(pool, 1, PAGE_SIZE, 0);
    m := r.m;
  }

  /** One of those nodes. */
  method Make(m: Mount, name: string, kind: Kind, ghost left: nat) returns (n: nat)
    requires Ready(m, left) && left > 0 && |name| == 1 && !kind.VLnk? && Bind(m.T(), m.root, name).None?
    modifies m, m.pool
    ensures Ready(m, left - 1) && n !in old(m.nodes) && n in m.nodes
    ensures m.nodes[n].dir == D.NoEntries && m.nodes[n].kind == kind && !Frozen(m.nodes[n])
    ensures kind.VReg? ==> m.nodes[n].links == 1
    ensures forall c :: c in old(m.nodes) && c != m.root ==> c in m.nodes && m.nodes[c] == old(m.nodes)[c]
    ensures forall nm :: Bind(m.T(), m.root, nm) == if nm == name then Some(n) else Bind(old(m.T()), m.root, nm)
  {
    ghost var t := m.T();
    SmallCosts(name, kind);
    var err;
    err, n := m.AllocFile(m.root, name, kind, 0, true, true);
    CreatedNodes(t, m.root, n, kind, 0, t.nextDe, name);
  }

  ghost predicate PlainFile(m: Mount, n: nat)
    reads m
  {
    n in m.nodes && m.nodes[n].kind.VReg? && m.nodes[n].links == 1 && !Frozen(m.nodes[n])
  }

  /** A file and an empty directory in the root. */
  method FileAndDirectory() returns (m: Mount, n: nat, d: nat)
    ensures fresh(m) && fresh(m.pool) && Ready(m, 0) && n != m.root && n != d && d != m.root
    ensures PlainFile(m, n) && MayRemove(m.T(), m.root, "d", true)
    ensures Bind(m.T(), m.root, "d") == Some(d) && d in m.nodes && m.nodes[d].dir == D.NoEntries
    ensures m.nodes[d].kind.VDir?
  {
    m := OnePage();
    n := Make(m, "f", VReg, 2);
    d := Make(m, "d", VDir, 1);
  }

  /** The same, once the directory has been removed; its node is still in use. */
  method RemovedDirectory() returns (m: Mount, n: nat, d: nat)
    ensures fresh(m) && fresh(m.pool) && m.Valid() && PlainFile(m, n)
    ensures d in m.nodes && m.nodes[d].kind.VDir? && m.nodes[d].parent.None? && m.nodes[d].dir == D.NoEntries
    ensures m.pool.Room(m.me) >= DIRENT_BYTES + NAME_QUANTUM
  {
    m, n, d := FileAndDirectory();
    ghost var t := m.T();
    var err;
    ghost var k;
    err, k := m.Rmdir(m.root, "d");
    DetachAssertions(t, {}, m.root, k);
    RemovedNodes(t, m.root, k);
  }

  /** A file can be linked into a directory after its removal, and the file system is then no longer sound. */
  method LinkIntoRemoved() returns (m: Mount, n: nat, d: nat)
    ensures fresh(m) && d in m.nodes && Bind(m.T(), d, "g") == Some(n) && !m.Valid() && m.Billed(0)
  {
    m, n, d := RemovedDirectory();
    SmallCosts("g", VReg);
    var err := m.Link(d, n, "g");
  }

  /** The name "d" in front of a terminator. */
  function LetterD(): Component {
    Component(['d', '\0'] + seq(30, _ => 'x'), 1)
  }

  lemma LetterDNames()
    ensures WellFormed(LetterD()) && Name(LetterD()) == "d" && !StrnameNeqlen(LetterD(), LetterD())
  {
  }

  /** A directory renamed onto itself: refused, although nothing would have to be done. */
  method RenameOntoItself() returns (m: Mount, err: Errno)
    ensures fresh(m) && m.Valid() && err.EINVAL?
  {
    var n, d;
    m, n, d := FileAndDirectory();
    LetterDNames();
    RootSearchable(m.T(), d);
    err := m.Rename(m.root, LetterD(), m.root, LetterD(), Lookups({}, {}, {}), true);
  }

  lemma RootSearchable(t: Tree, d: nat)
    requires Inv(t, {}) && NamesOk(t) && t.root in t.nodes && Bind(t, t.root, "d") == Some(d) && d in t.nodes
    requires t.nodes[d].kind.VDir?
    ensures OntoItself(t, t.root, "d", t.root, "d", Lookups({}, {}, {}))
  {
    FoundNode(t, t.root, "d");
  }

  /** In every state of every run the link counts and sizes are exact. */
  lemma LinkCountsExact(t: Tree, n: nat)
    requires Inv(t, {}) && n in t.nodes
    ensures !t.nodes[n].kind.VDir? ==> t.nodes[n].links == Refs(t.nodes, n)
    ensures t.nodes[n].kind.VDir? && (n == t.root || t.nodes[n].parent.Some?) ==>
      t.nodes[n].links == 2 + Subs(t.nodes, t.nodes[n].dir.entries)
    ensures t.nodes[n].kind.VDir? && t.nodes[n].parent.None? ==> t.nodes[n].links == 0 && t.nodes[n].dir.entries == []
    ensures t.nodes[n].kind.VDir? ==> t.nodes[n].size == |t.nodes[n].dir.entries| * DIRENT_BYTES
  {
    assert NodeOk(t, {}, n);
  }
}
