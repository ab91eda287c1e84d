/**
  The tmpfs node graph as a value: nodes addressed by id (a pointer in the C code),
  each directory holding its entry list. Attach and detach are the only operations
  that change the graph; this module says what every one of them keeps.
*/
module TmpfsTree {
  import opened Prelude
  import opened Sums
  import opened TmpfsMem
  import D = TmpfsDir

  datatype Kind = VDir | VReg | VLnk | VOther

  /** The flags that only the superuser may set, and those of the owner. */
  datatype Flags = Flags(sysImmutable: bool, sysAppend: bool, userImmutable: bool, userAppend: bool)

  const NoFlags := Flags(false, false, false, false)

  predicate Immutable(x: Node) {
    x.flags.sysImmutable || x.flags.userImmutable
  }

  predicate AppendOnly(x: Node) {
    x.flags.sysAppend || x.flags.userAppend
  }

  datatype Node = Node(
    kind: Kind,
    links: int,
    hint: Option<nat>,       // the entry attached last, if it is still attached
    parent: Option<nat>,     // directories only; the root is its own parent
    dir: D.Directory,
    size: int,
    pages: nat,              // regular files: pages of backing store
    flags: Flags)

  datatype Tree = Tree(nodes: map<nat, Node>, root: nat, nextDe: nat)

  const DIRENT_BYTES := 48   // sizeof(struct tmpfs_dirent)

  // ---------- the two primitives ----------

  function Weight(x: Node): int {
    if x.kind.VDir? then 1 else 0
  }

  /** tmpfs_dir_attach. */
  function Attached(t: Tree, d: nat, id: nat, name: string, n: nat): Tree
    requires d in t.nodes && n in t.nodes && !D.Full(t.nodes[d].dir)
  {
    var x, y := t.nodes[d], t.nodes[n];
    t.(nodes := t.nodes
       [d := x.(dir := D.Attach(x.dir, id, name, n), size := x.size + DIRENT_BYTES, links := x.links + Weight(y))]
       [n := y.(links := y.links + 1, hint := Some(id), parent := if y.kind.VDir? then Some(d) else y.parent)])
  }

  /** tmpfs_dir_detach of entry number `k`. */
  function Detached(t: Tree, d: nat, k: nat): Tree
    requires d in t.nodes && k < |t.nodes[d].dir.entries| && t.nodes[d].dir.entries[k].node in t.nodes
  {
    var x := t.nodes[d];
    var n := x.dir.entries[k].node;
    var y := t.nodes[n];
    t.(nodes := t.nodes
       [d := x.(dir := D.Detach(x.dir, k), size := x.size - DIRENT_BYTES, links := x.links - Weight(y))]
       [n := y.(links := y.links - 1, hint := None, parent := if y.kind.VDir? then None else y.parent)])
  }

  /** Giving up the link of the virtual '.' entry of a detached, empty directory. */
  function DotDropped(t: Tree, n: nat): Tree
    requires n in t.nodes
  {
    t.(nodes := t.nodes[n := t.nodes[n].(links := t.nodes[n].links - 1)])
  }

  // ---------- counting ----------

  /** Entries that lead to directories. */
  function Subs(nodes: map<nat, Node>, es: seq<D.Dirent>): nat {
    if es == [] then 0
    else Subs(nodes, es[..|es| - 1]) + IsSub(nodes, es[|es| - 1])
  }

  function IsSub(nodes: map<nat, Node>, e: D.Dirent): nat {
    if e.node in nodes && nodes[e.node].kind.VDir? then 1 else 0
  }

  /** Entries of one list that lead to node `n`. */
  function RefsIn(es: seq<D.Dirent>, n: nat): nat {
    if es == [] then 0 else RefsIn(es[..|es| - 1], n) + if es[|es| - 1].node == n then 1 else 0
  }

  function RefsOf(n: nat): Node -> int {
    (x: Node) => RefsIn(x.dir.entries, n)
  }

  /** Entries anywhere that lead to node `n`. */
  ghost function Refs(nodes: map<nat, Node>, n: nat): int {
    Total(nodes, RefsOf(n))
  }

  // ---------- paths ----------

  /** A chain of parent pointers that does not pass through the root on the way. */
  ghost predicate IsPath(t: Tree, p: seq<nat>) {
    |p| > 0 && p[|p| - 1] in t.nodes && forall i :: 0 <= i < |p| - 1 ==> Link(t, p, i)
  }

  ghost predicate Link(t: Tree, p: seq<nat>, i: int) {
    0 <= i < |p| - 1 && p[i] in t.nodes && p[i] != t.root && t.nodes[p[i]].parent == Some(p[i + 1])
  }

  ghost predicate PathTo(t: Tree, p: seq<nat>, n: nat, a: nat) {
    IsPath(t, p) && p[0] == n && p[|p| - 1] == a
  }

  /** `a` is `n` or one of its ancestors. */
  ghost predicate Reaches(t: Tree, n: nat, a: nat) {
    exists p :: PathTo(t, p, n, a)
  }

  // ---------- the invariant ----------

  ghost predicate HasEnt(t: Tree, d: nat, id: nat, n: nat) {
    d in t.nodes
    && exists k :: 0 <= k < |t.nodes[d].dir.entries|
         && t.nodes[d].dir.entries[k].id == id && t.nodes[d].dir.entries[k].node == n
  }

  /** `fl` holds the directories that are detached while an operation is moving or removing them. */
  ghost predicate RootOk(t: Tree, fl: set<nat>) {
    t.root in t.nodes && t.nodes[t.root].kind.VDir? && t.nodes[t.root].parent == Some(t.root)
    && t.nodes[t.root].hint.None?
    && forall f :: f in fl ==> f in t.nodes && t.nodes[f].kind.VDir? && t.nodes[f].parent.None?
  }

  ghost predicate EntOk(t: Tree, d: nat, e: D.Dirent) {
    e.node in t.nodes && e.node != t.root && e.node != d && e.id < t.nextDe
    && (t.nodes[e.node].kind.VDir? ==> t.nodes[e.node].parent == Some(d) && t.nodes[e.node].hint == Some(e.id))
  }

  ghost predicate EntAtOk(t: Tree, d: nat, k: int) {
    d in t.nodes && 0 <= k < |t.nodes[d].dir.entries| ==> EntOk(t, d, t.nodes[d].dir.entries[k])
  }

  ghost predicate EntsOk(t: Tree) {
    forall d, k :: EntAtOk(t, d, k)
  }

  ghost predicate DirNodeOk(t: Tree, fl: set<nat>, n: nat, x: Node) {
    x.size == |x.dir.entries| * DIRENT_BYTES
    && x.links == Subs(t.nodes, x.dir.entries) + (if x.parent.Some? then 2 else if n in fl then 1 else 0)
    && (x.parent.None? && n !in fl ==> x.dir.entries == [])
    && (x.parent.None? ==> x.hint.None?)
    && (x.parent.Some? && n != t.root ==> x.hint.Some? && HasEnt(t, x.parent.value, x.hint.value, n))
  }

  /** A regular file has the pages its size calls for. */
  predicate Sized(x: Node) {
    x.kind.VReg? ==> x.size >= 0 && x.pages * PAGE_SIZE == RoundPage(x.size)
  }

  ghost predicate FileNodeOk(t: Tree, n: nat, x: Node) {
    x.parent.None? && x.dir == D.NoEntries && x.links == Refs(t.nodes, n) && Sized(x)
    && (x.hint.Some? ==> exists d :: HasEnt(t, d, x.hint.value, n))
  }

  ghost predicate NodeOk(t: Tree, fl: set<nat>, n: nat) {
    n in t.nodes ==>
      D.Ok(t.nodes[n].dir)
      && if t.nodes[n].kind.VDir? then DirNodeOk(t, fl, n, t.nodes[n]) else FileNodeOk(t, n, t.nodes[n])
  }

  ghost predicate NodesOk(t: Tree, fl: set<nat>) {
    forall n :: NodeOk(t, fl, n)
  }

  ghost predicate Apart(t: Tree, c: nat, i: int, d: nat, j: int) {
    c in t.nodes && d in t.nodes && c != d && 0 <= i < |t.nodes[c].dir.entries| && 0 <= j < |t.nodes[d].dir.entries|
    ==> t.nodes[c].dir.entries[i].id != t.nodes[d].dir.entries[j].id
  }

  /** No entry object is in two lists. */
  ghost predicate IdsUnique(t: Tree) {
    forall c, i, d, j :: Apart(t, c, i, d, j)
  }

  ghost predicate RootedAt(t: Tree, fl: set<nat>, n: nat) {
    n in t.nodes && t.nodes[n].parent.Some? ==> Reaches(t, n, t.root) || exists f :: f in fl && Reaches(t, n, f)
  }

  /** Every parent chain ends at the root, or at a directory in transit. */
  ghost predicate Rooted(t: Tree, fl: set<nat>) {
    forall n :: RootedAt(t, fl, n)
  }

  ghost predicate Inv(t: Tree, fl: set<nat>) {
    RootOk(t, fl) && EntsOk(t) && NodesOk(t, fl) && IdsUnique(t) && Rooted(t, fl)
  }

  // ---------- lemmas on counting ----------

  lemma {:induction false} SubsFrame(a: map<nat, Node>, b: map<nat, Node>, es: seq<D.Dirent>)
    requires forall i :: 0 <= i < |es| ==>
      es[i].node in a && es[i].node in b && a[es[i].node].kind == b[es[i].node].kind
    ensures Subs(a, es) == Subs(b, es)
  {
    if es != [] { SubsFrame(a, b, es[..|es| - 1]); }
  }

  lemma {:induction false} SubsRemoved(nodes: map<nat, Node>, es: seq<D.Dirent>, k: nat)
    requires k < |es|
    ensures Subs(nodes, D.Removed(es, k)) == Subs(nodes, es) - IsSub(nodes, es[k])
  {
    if k == |es| - 1 {
      assert D.Removed(es, k) == es[..|es| - 1];
    } else {
      SubsRemoved(nodes, es[..|es| - 1], k);
      assert D.Removed(es, k)[..|es| - 2] == D.Removed(es[..|es| - 1], k);
    }
  }

  lemma {:induction false} RefsRemoved(es: seq<D.Dirent>, k: nat, n: nat)
    requires k < |es|
    ensures RefsIn(D.Removed(es, k), n) == RefsIn(es, n) - if es[k].node == n then 1 else 0
  {
    if k == |es| - 1 {
      assert D.Removed(es, k) == es[..|es| - 1];
    } else {
      RefsRemoved(es[..|es| - 1], k, n);
      assert D.Removed(es, k)[..|es| - 2] == D.Removed(es[..|es| - 1], k);
    }
  }

  lemma {:induction false} AppendCounts(nodes: map<nat, Node>, es: seq<D.Dirent>, e: D.Dirent, n: nat)
    ensures Subs(nodes, es + [e]) == Subs(nodes, es) + IsSub(nodes, e)
    ensures RefsIn(es + [e], n) == RefsIn(es, n) + if e.node == n then 1 else 0
  {
    assert (es + [e])[..|es|] == es;
  }

  /** Changing two nodes moves the reference count by what their lists gained or lost. */
  lemma {:induction false} RefsUpdate2(nodes: map<nat, Node>, d: nat, x: Node, n: nat, y: Node, m: nat)
    requires d in nodes && n in nodes && d != n && y.dir == nodes[n].dir
    ensures Refs(nodes[d := x][n := y], m)
         == Refs(nodes, m) + RefsIn(x.dir.entries, m) - RefsIn(nodes[d].dir.entries, m)
  {
    TotalUpdate(nodes, d, x, RefsOf(m));
    TotalUpdate(nodes[d := x], n, y, RefsOf(m));
  }

  // ---------- attach keeps the invariant ----------

  ghost predicate Differs(t: Tree, id: nat, c: nat, i: int) {
    c in t.nodes && 0 <= i < |t.nodes[c].dir.entries| ==> t.nodes[c].dir.entries[i].id != id
  }

  ghost predicate FreshId(t: Tree, id: nat) {
    id < t.nextDe && forall c, i :: Differs(t, id, c, i)
  }

  /** Entry `id` for node `n` may be attached to directory `d`. */
  ghost predicate Attachable(t: Tree, fl: set<nat>, d: nat, n: nat) {
    d in t.nodes && t.nodes[d].kind.VDir? && t.nodes[d].parent.Some? && !D.Full(t.nodes[d].dir)
    && n in t.nodes && n != d && n != t.root
    && (t.nodes[n].kind.VDir? ==> n in fl && t.nodes[n].parent.None?)
  }

  function AfterAttach(t: Tree, fl: set<nat>, n: nat): set<nat>
    requires n in t.nodes
  {
    if t.nodes[n].kind.VDir? then fl - {n} else fl
  }

  lemma AttachEnts(t: Tree, fl: set<nat>, d: nat, id: nat, name: string, n: nat)
    requires Attachable(t, fl, d, n) && EntsOk(t) && id < t.nextDe
    ensures EntsOk(Attached(t, d, id, name, n))
  {
    var t' := Attached(t, d, id, name, n);
    forall c, k ensures EntAtOk(t', c, k) {
      assert EntAtOk(t, c, k);
    }
  }

  lemma AttachHasEnt(t: Tree, fl: set<nat>, d: nat, id: nat, name: string, n: nat, c: nat, i: nat, m: nat)
    requires Attachable(t, fl, d, n) && HasEnt(t, c, i, m)
    ensures HasEnt(Attached(t, d, id, name, n), c, i, m)
  {
    var t' := Attached(t, d, id, name, n);
    var k :| 0 <= k < |t.nodes[c].dir.entries|
      && t.nodes[c].dir.entries[k].id == i && t.nodes[c].dir.entries[k].node == m;
    assert t'.nodes[c].dir.entries[k] == t.nodes[c].dir.entries[k];
  }

  lemma AttachedIsThere(t: Tree, fl: set<nat>, d: nat, id: nat, name: string, n: nat)
    requires Attachable(t, fl, d, n)
    ensures HasEnt(Attached(t, d, id, name, n), d, id, n)
  {
    var es := Attached(t, d, id, name, n).nodes[d].dir.entries;
    assert es[|es| - 1].id == id && es[|es| - 1].node == n;
  }

  lemma AttachSubs(t: Tree, fl: set<nat>, d: nat, id: nat, name: string, n: nat, m: nat)
    requires Attachable(t, fl, d, n) && EntsOk(t) && m in t.nodes
    ensures var t' := Attached(t, d, id, name, n);
      Subs(t'.nodes, t'.nodes[m].dir.entries)
        == Subs(t.nodes, t.nodes[m].dir.entries) + if m == d then Weight(t.nodes[n]) else 0
  {
    var t' := Attached(t, d, id, name, n);
    forall i | 0 <= i < |t.nodes[m].dir.entries| ensures t.nodes[m].dir.entries[i].node in t.nodes {
      assert EntAtOk(t, m, i);
    }
    SubsFrame(t.nodes, t'.nodes, t.nodes[m].dir.entries);
    if m == d {
      AppendCounts(t'.nodes, t.nodes[d].dir.entries, D.Dirent(id, t.nodes[d].dir.nextSeq, name, n), n);
    }
  }

  lemma AttachRefs(t: Tree, fl: set<nat>, d: nat, id: nat, name: string, n: nat, m: nat)
    requires Attachable(t, fl, d, n)
    ensures Refs(Attached(t, d, id, name, n).nodes, m) == Refs(t.nodes, m) + if m == n then 1 else 0
  {
    var t' := Attached(t, d, id, name, n);
    RefsUpdate2(t.nodes, d, t'.nodes[d], n, t'.nodes[n], m);
    AppendCounts(t.nodes, t.nodes[d].dir.entries, D.Dirent(id, t.nodes[d].dir.nextSeq, name, n), m);
  }

  lemma AttachDirNode(t: Tree, fl: set<nat>, d: nat, id: nat, name: string, n: nat, m: nat)
    requires Attachable(t, fl, d, n) && EntsOk(t) && m in t.nodes && t.nodes[m].kind.VDir? && NodeOk(t, fl, m)
    ensures DirNodeOk(Attached(t, d, id, name, n), AfterAttach(t, fl, n), m, Attached(t, d, id, name, n).nodes[m])
  {
    var x := t.nodes[m];
    AttachSubs(t, fl, d, id, name, n, m);
    if m == n {
      AttachedIsThere(t, fl, d, id, name, n);
    } else if x.parent.Some? && m != t.root {
      AttachHasEnt(t, fl, d, id, name, n, x.parent.value, x.hint.value, m);
    }
  }

  lemma AttachFileNode(t: Tree, fl: set<nat>, d: nat, id: nat, name: string, n: nat, m: nat)
    requires Attachable(t, fl, d, n) && m in t.nodes && !t.nodes[m].kind.VDir? && NodeOk(t, fl, m)
    ensures FileNodeOk(Attached(t, d, id, name, n), m, Attached(t, d, id, name, n).nodes[m])
  {
    var x := t.nodes[m];
    AttachRefs(t, fl, d, id, name, n, m);
    if m == n {
      AttachedIsThere(t, fl, d, id, name, n);
    } else if x.hint.Some? {
      var c :| HasEnt(t, c, x.hint.value, m);
      AttachHasEnt(t, fl, d, id, name, n, c, x.hint.value, m);
    }
  }

  lemma AttachNodes(t: Tree, fl: set<nat>, d: nat, id: nat, name: string, n: nat)
    requires Attachable(t, fl, d, n) && EntsOk(t) && NodesOk(t, fl) && FreshId(t, id)
    ensures NodesOk(Attached(t, d, id, name, n), AfterAttach(t, fl, n))
  {
    forall m ensures NodeOk(Attached(t, d, id, name, n), AfterAttach(t, fl, n), m) {
      assert NodeOk(t, fl, m);
      if m == d {
        forall i | 0 <= i < |t.nodes[d].dir.entries| ensures t.nodes[d].dir.entries[i].id != id {
          assert Differs(t, id, d, i);
        }
        D.AttachOk(t.nodes[d].dir, id, name, n);
      }
      if m in t.nodes && t.nodes[m].kind.VDir? {
        AttachDirNode(t, fl, d, id, name, n, m);
      } else if m in t.nodes {
        AttachFileNode(t, fl, d, id, name, n, m);
      }
    }
  }

  lemma AttachIds(t: Tree, fl: set<nat>, d: nat, id: nat, name: string, n: nat)
    requires Attachable(t, fl, d, n) && IdsUnique(t) && FreshId(t, id)
    ensures IdsUnique(Attached(t, d, id, name, n))
  {
    forall b, i, c, j ensures Apart(Attached(t, d, id, name, n), b, i, c, j) {
      assert Apart(t, b, i, c, j) && Differs(t, id, b, i) && Differs(t, id, c, j);
    }
  }

  /** Parent chains survive an attach: the attached directory had no parent before. */
  lemma AttachPath(t: Tree, fl: set<nat>, d: nat, id: nat, name: string, n: nat, p: seq<nat>)
    requires Attachable(t, fl, d, n) && IsPath(t, p)
    ensures IsPath(Attached(t, d, id, name, n), p)
  {
    forall i | 0 <= i < |p| - 1 ensures Link(Attached(t, d, id, name, n), p, i) {
      assert Link(t, p, i);
    }
  }

  lemma PathJoin(t: Tree, p: seq<nat>, q: seq<nat>, n: nat, d: nat, a: nat)
    requires PathTo(t, p, n, d) && PathTo(t, q, d, a)
    ensures PathTo(t, p + q[1..], n, a)
  {
    forall i | 0 <= i < |p + q[1..]| - 1 ensures Link(t, p + q[1..], i) {
      if i < |p| - 1 { assert Link(t, p, i); } else { assert Link(t, q, i - |p| + 1); }
    }
  }

  lemma AttachRooted(t: Tree, fl: set<nat>, d: nat, id: nat, name: string, n: nat)
    requires Attachable(t, fl, d, n) && Rooted(t, fl)
    requires t.nodes[n].kind.VDir? ==> Reaches(t, d, t.root)
    ensures Rooted(Attached(t, d, id, name, n), AfterAttach(t, fl, n))
  {
    var t' := Attached(t, d, id, name, n);
    forall m ensures RootedAt(t', AfterAttach(t, fl, n), m) {
      assert RootedAt(t, fl, m);
      if m in t.nodes && t'.nodes[m].parent.Some? {
        if m == n && t.nodes[n].kind.VDir? {
          AttachedReachesRoot(t, fl, d, id, name, n, [n]);
        } else {
          var a: nat :| (a == t.root || a in fl) && Reaches(t, m, a);
          assert Reaches(t, m, a);
          var p :| PathTo(t, p, m, a);
          if a == n && t.nodes[n].kind.VDir? {
            AttachedReachesRoot(t, fl, d, id, name, n, p);
          } else {
            AttachPath(t, fl, d, id, name, n, p);
            assert PathTo(t', p, m, a) && Reaches(t', m, a);
            assert a == t'.root || a in AfterAttach(t, fl, n);
          }
        }
      }
    }
  }

  /** What led to the directory in transit leads on to the root once it is attached. */
  lemma AttachedReachesRoot(t: Tree, fl: set<nat>, d: nat, id: nat, name: string, n: nat, p: seq<nat>)
    requires Attachable(t, fl, d, n) && t.nodes[n].kind.VDir? && Reaches(t, d, t.root) && IsPath(t, p)
    requires p[|p| - 1] == n
    ensures Reaches(Attached(t, d, id, name, n), p[0], t.root)
  {
    var t' := Attached(t, d, id, name, n);
    var q :| PathTo(t, q, d, t.root);
    AttachPath(t, fl, d, id, name, n, q);
    AttachPath(t, fl, d, id, name, n, p);
    assert Link(t', [n, d], 0);
    PathJoin(t', [n, d], q, n, d, t.root);
    PathJoin(t', p, [n, d] + q[1..], p[0], n, t.root);
  }

  /** Attaching a file anywhere, or the directory in transit below the root, keeps the invariant. */
  lemma AttachInv(t: Tree, fl: set<nat>, d: nat, id: nat, name: string, n: nat)
    requires Inv(t, fl) && FreshId(t, id) && Attachable(t, fl, d, n)
    requires t.nodes[n].kind.VDir? ==> Reaches(t, d, t.root)
    ensures Inv(Attached(t, d, id, name, n), AfterAttach(t, fl, n))
  {
    AttachEnts(t, fl, d, id, name, n);
    AttachNodes(t, fl, d, id, name, n);
    AttachIds(t, fl, d, id, name, n);
    AttachRooted(t, fl, d, id, name, n);
  }

  // ---------- detach keeps the invariant ----------

  /** Entry number `k` of directory `d` may be detached. */
  ghost predicate Detachable(t: Tree, fl: set<nat>, d: nat, k: nat) {
    d in t.nodes && k < |t.nodes[d].dir.entries| && t.nodes[d].kind.VDir?
    && EntOk(t, d, t.nodes[d].dir.entries[k]) && D.Ok(t.nodes[d].dir)
  }

  function Leaving(t: Tree, d: nat, k: nat): nat
    requires d in t.nodes && k < |t.nodes[d].dir.entries|
  {
    t.nodes[d].dir.entries[k].node
  }

  function AfterDetach(t: Tree, fl: set<nat>, n: nat): set<nat>
    requires n in t.nodes
  {
    if t.nodes[n].kind.VDir? then fl + {n} else fl
  }

  lemma DetachEnts(t: Tree, fl: set<nat>, d: nat, k: nat)
    requires Detachable(t, fl, d, k) && EntsOk(t)
    ensures EntsOk(Detached(t, d, k))
  {
    var t' := Detached(t, d, k);
    forall c, i ensures EntAtOk(t', c, i) {
      assert EntAtOk(t, c, if c == d && i >= k then i + 1 else i);
    }
  }

  lemma DetachHasEnt(t: Tree, fl: set<nat>, d: nat, k: nat, c: nat, i: nat, m: nat)
    requires Detachable(t, fl, d, k) && HasEnt(t, c, i, m) && m != Leaving(t, d, k)
    ensures HasEnt(Detached(t, d, k), c, i, m)
  {
    var t' := Detached(t, d, k);
    var j :| 0 <= j < |t.nodes[c].dir.entries|
      && t.nodes[c].dir.entries[j].id == i && t.nodes[c].dir.entries[j].node == m;
    assert t'.nodes[c].dir.entries[if c == d && j > k then j - 1 else j] == t.nodes[c].dir.entries[j];
  }

  lemma DetachSubs(t: Tree, fl: set<nat>, d: nat, k: nat, m: nat)
    requires Detachable(t, fl, d, k) && EntsOk(t) && m in t.nodes
    ensures var t' := Detached(t, d, k);
      Subs(t'.nodes, t'.nodes[m].dir.entries)
        == Subs(t.nodes, t.nodes[m].dir.entries) - if m == d then Weight(t.nodes[Leaving(t, d, k)]) else 0
  {
    var t' := Detached(t, d, k);
    var es := t'.nodes[m].dir.entries;
    forall i | 0 <= i < |es| ensures es[i].node in t.nodes {
      assert EntAtOk(t, m, if m == d && i >= k then i + 1 else i);
    }
    SubsFrame(t.nodes, t'.nodes, es);
    if m == d { SubsRemoved(t.nodes, t.nodes[d].dir.entries, k); }
  }

  lemma DetachRefs(t: Tree, fl: set<nat>, d: nat, k: nat, m: nat)
    requires Detachable(t, fl, d, k)
    ensures Refs(Detached(t, d, k).nodes, m) == Refs(t.nodes, m) - if m == Leaving(t, d, k) then 1 else 0
  {
    var t' := Detached(t, d, k);
    var n := Leaving(t, d, k);
    RefsUpdate2(t.nodes, d, t'.nodes[d], n, t'.nodes[n], m);
    RefsRemoved(t.nodes[d].dir.entries, k, m);
  }

  lemma DetachDirNode(t: Tree, fl: set<nat>, d: nat, k: nat, m: nat)
    requires Detachable(t, fl, d, k) && EntsOk(t) && m in t.nodes && t.nodes[m].kind.VDir? && NodeOk(t, fl, m)
    ensures DirNodeOk(Detached(t, d, k), AfterDetach(t, fl, Leaving(t, d, k)), m, Detached(t, d, k).nodes[m])
  {
    var x := t.nodes[m];
    DetachSubs(t, fl, d, k, m);
    if m != Leaving(t, d, k) && x.parent.Some? && m != t.root {
      DetachHasEnt(t, fl, d, k, x.parent.value, x.hint.value, m);
    }
  }

  lemma DetachFileNode(t: Tree, fl: set<nat>, d: nat, k: nat, m: nat)
    requires Detachable(t, fl, d, k) && m in t.nodes && !t.nodes[m].kind.VDir? && NodeOk(t, fl, m)
    ensures FileNodeOk(Detached(t, d, k), m, Detached(t, d, k).nodes[m])
  {
    var x := t.nodes[m];
    DetachRefs(t, fl, d, k, m);
    if m != Leaving(t, d, k) && x.hint.Some? {
      var c :| HasEnt(t, c, x.hint.value, m);
      DetachHasEnt(t, fl, d, k, c, x.hint.value, m);
    }
  }

  lemma DetachNodes(t: Tree, fl: set<nat>, d: nat, k: nat)
    requires Detachable(t, fl, d, k) && EntsOk(t) && NodesOk(t, fl)
    ensures NodesOk(Detached(t, d, k), AfterDetach(t, fl, Leaving(t, d, k)))
  {
    D.DetachOk(t.nodes[d].dir, k);
    forall m ensures NodeOk(Detached(t, d, k), AfterDetach(t, fl, Leaving(t, d, k)), m) {
      assert NodeOk(t, fl, m);
      if m in t.nodes && t.nodes[m].kind.VDir? {
        DetachDirNode(t, fl, d, k, m);
      } else if m in t.nodes {
        DetachFileNode(t, fl, d, k, m);
      }
    }
  }

  lemma DetachIds(t: Tree, fl: set<nat>, d: nat, k: nat)
    requires Detachable(t, fl, d, k) && IdsUnique(t)
    ensures IdsUnique(Detached(t, d, k))
    ensures FreshId(Detached(t, d, k).(nextDe := t.nextDe), t.nodes[d].dir.entries[k].id)
  {
    var t' := Detached(t, d, k);
    forall b, i, c, j ensures Apart(t', b, i, c, j) {
      assert Apart(t, b, if b == d && i >= k then i + 1 else i, c, if c == d && j >= k then j + 1 else j);
    }
    forall c, i ensures Differs(t', t.nodes[d].dir.entries[k].id, c, i) {
      assert Apart(t, d, k, c, i);
    }
  }

  /** A parent chain that does not start above the detached directory survives. */
  lemma DetachPath(t: Tree, fl: set<nat>, d: nat, k: nat, p: seq<nat>)
    requires Detachable(t, fl, d, k) && IsPath(t, p)
    requires Leaving(t, d, k) !in p[..|p| - 1]
    ensures IsPath(Detached(t, d, k), p)
  {
    forall i | 0 <= i < |p| - 1 ensures Link(Detached(t, d, k), p, i) {
      assert Link(t, p, i);
      assert p[i] == p[..|p| - 1][i];
    }
  }

  lemma PathPrefix(t: Tree, p: seq<nat>, i: nat)
    requires IsPath(t, p) && i < |p|
    ensures IsPath(t, p[..i + 1]) && IsPath(t, p[i..])
  {
    if i < |p| - 1 { assert Link(t, p, i); }
    var q, r := p[..i + 1], p[i..];
    forall j | 0 <= j < i ensures Link(t, q, j) {
      assert Link(t, p, j);
    }
    forall j | 0 <= j < |p| - i - 1 ensures Link(t, r, j) {
      assert Link(t, p, i + j);
    }
  }

  function IndexIn(p: seq<nat>, n: nat): (i: nat)
    requires n in p
    ensures i < |p| && p[i] == n && n !in p[..i]
  {
    if p[0] == n then 0 else
      var i := IndexIn(p[1..], n) + 1;
      assert p[..i] == [p[0]] + p[1..][..i - 1];
      i
  }

  lemma DetachRooted(t: Tree, fl: set<nat>, d: nat, k: nat)
    requires Detachable(t, fl, d, k) && Rooted(t, fl)
    requires !t.nodes[Leaving(t, d, k)].kind.VDir? ==> t.nodes[Leaving(t, d, k)].parent.None?
    ensures Rooted(Detached(t, d, k), AfterDetach(t, fl, Leaving(t, d, k)))
  {
    var t', n := Detached(t, d, k), Leaving(t, d, k);
    forall m ensures RootedAt(t', AfterDetach(t, fl, n), m) {
      assert RootedAt(t, fl, m);
      if m in t.nodes && t'.nodes[m].parent.Some? {
        var a: nat :| (a == t.root || a in fl) && Reaches(t, m, a);
        assert Reaches(t, m, a);
        var p :| PathTo(t, p, m, a);
        if n in p[..|p| - 1] {
          var i := IndexIn(p[..|p| - 1], n);
          assert p[..i + 1][..i] == p[..|p| - 1][..i];
          assert Link(t, p, i);
          PathPrefix(t, p, i);
          DetachPath(t, fl, d, k, p[..i + 1]);
          assert PathTo(t', p[..i + 1], m, n);
        } else {
          DetachPath(t, fl, d, k, p);
          assert PathTo(t', p, m, a);
        }
      }
    }
  }

  /** Detaching keeps the invariant; a detached directory is then in transit with its subtree. */
  lemma DetachInv(t: Tree, fl: set<nat>, d: nat, k: nat)
    requires Inv(t, fl) && Detachable(t, fl, d, k)
    ensures Inv(Detached(t, d, k), AfterDetach(t, fl, Leaving(t, d, k)))
    ensures FreshId(Detached(t, d, k), t.nodes[d].dir.entries[k].id)
  {
    assert NodeOk(t, fl, Leaving(t, d, k));
    DetachEnts(t, fl, d, k);
    DetachNodes(t, fl, d, k);
    DetachIds(t, fl, d, k);
    DetachRooted(t, fl, d, k);
  }

  // ---------- creating, dropping and freeing nodes ----------

  /** A node as tmpfs_alloc_node leaves it. */
  function FreshNode(kind: Kind, size: nat): Node {
    Node(kind, if kind.VDir? then 1 else 0, None, None, D.NoEntries, if kind.VLnk? then size else 0, 0, NoFlags)
  }

  function WithNode(t: Tree, n: nat, x: Node): Tree {
    t.(nodes := t.nodes[n := x])
  }

  lemma {:induction false} NoRefsIn(es: seq<D.Dirent>, n: nat)
    ensures RefsIn(es, n) == 0 <==> forall i :: 0 <= i < |es| ==> es[i].node != n
  {
    if es != [] {
      NoRefsIn(es[..|es| - 1], n);
      assert forall i :: 0 <= i < |es| - 1 ==> es[..|es| - 1][i] == es[i];
    }
  }

  lemma {:induction false} NoRefs(nodes: map<nat, Node>, n: nat)
    requires forall d, i :: d in nodes && 0 <= i < |nodes[d].dir.entries| ==> nodes[d].dir.entries[i].node != n
    ensures Refs(nodes, n) == 0
    decreases |nodes|
  {
    if nodes != map[] {
      var d :| d in nodes;
      TotalRemove(nodes, d, RefsOf(n));
      NoRefsIn(nodes[d].dir.entries, n);
      NoRefs(nodes - {d}, n);
    }
  }

  lemma HasEntSame(t: Tree, t': Tree, c: nat, i: nat, m: nat)
    requires HasEnt(t, c, i, m) && c in t'.nodes && t'.nodes[c].dir == t.nodes[c].dir
    ensures HasEnt(t', c, i, m)
  {
    var k :| 0 <= k < |t.nodes[c].dir.entries|
      && t.nodes[c].dir.entries[k].id == i && t.nodes[c].dir.entries[k].node == m;
    assert t'.nodes[c].dir.entries[k].id == i;
  }

  lemma PathWithNode(t: Tree, n: nat, x: Node, p: seq<nat>)
    requires n !in t.nodes && IsPath(t, p)
    ensures IsPath(WithNode(t, n, x), p)
  {
    forall i | 0 <= i < |p| - 1 ensures Link(WithNode(t, n, x), p, i) {
      assert Link(t, p, i);
    }
  }

  lemma AllocNodes(t: Tree, n: nat, kind: Kind, size: nat)
    requires EntsOk(t) && NodesOk(t, {}) && n !in t.nodes
    ensures NodesOk(WithNode(t, n, FreshNode(kind, size)), if kind.VDir? then {n} else {})
  {
    var x := FreshNode(kind, size);
    var t' := WithNode(t, n, x);
    var fl := if kind.VDir? then {n} else {};
    forall d, i | d in t'.nodes && 0 <= i < |t'.nodes[d].dir.entries|
      ensures t'.nodes[d].dir.entries[i].node != n && t'.nodes[d].dir.entries[i].node in t.nodes
    {
      assert EntAtOk(t, d, i);
    }
    NoRefs(t'.nodes, n);
    forall m ensures NodeOk(t', fl, m) {
      assert NodeOk(t, {}, m);
      if m in t.nodes && m != n {
        SubsFrame(t.nodes, t'.nodes, t.nodes[m].dir.entries);
        TotalUpdate(t.nodes, n, x, RefsOf(m));
        forall c, i | HasEnt(t, c, i, m) ensures HasEnt(t', c, i, m) { HasEntSame(t, t', c, i, m); }
      }
    }
  }

  /** A new node is unlinked; a new directory counts as in transit until it is attached. */
  lemma AllocInv(t: Tree, n: nat, kind: Kind, size: nat)
    requires Inv(t, {}) && n !in t.nodes
    ensures Inv(WithNode(t, n, FreshNode(kind, size)), if kind.VDir? then {n} else {})
  {
    var t' := WithNode(t, n, FreshNode(kind, size));
    var fl := if kind.VDir? then {n} else {};
    AllocNodes(t, n, kind, size);
    forall d, i ensures EntAtOk(t', d, i) { assert EntAtOk(t, d, i); }
    forall b, i, c, j ensures Apart(t', b, i, c, j) { assert Apart(t, b, i, c, j); }
    forall m ensures RootedAt(t', fl, m) {
      assert RootedAt(t, {}, m);
      if m in t.nodes && t.nodes[m].parent.Some? {
        var p :| PathTo(t, p, m, t.root);
        PathWithNode(t, n, FreshNode(kind, size), p);
        assert PathTo(t', p, m, t'.root);
      }
    }
  }

  /** Only a non-empty directory has descendants. */
  lemma AncestorNotEmpty(t: Tree, fl: set<nat>, n: nat, m: nat)
    requires NodesOk(t, fl) && EntsOk(t) && n in t.nodes && Reaches(t, m, n) && m != n
    requires t.root in t.nodes && t.nodes[t.root].parent == Some(t.root)
    ensures t.nodes[n].dir.entries != []
  {
    var p :| PathTo(t, p, m, n);
    var c := p[|p| - 2];
    assert Link(t, p, |p| - 2);
    assert NodeOk(t, fl, c);
    assert HasEnt(t, n, t.nodes[c].hint.value, c);
  }

  lemma RelinkPath(t: Tree, n: nat, links: int, p: seq<nat>)
    requires n in t.nodes && IsPath(t, p)
    ensures IsPath(WithNode(t, n, t.nodes[n].(links := links)), p)
  {
    forall i | 0 <= i < |p| - 1 ensures Link(WithNode(t, n, t.nodes[n].(links := links)), p, i) {
      assert Link(t, p, i);
    }
  }

  lemma DropDotNodes(t: Tree, n: nat)
    requires EntsOk(t) && NodesOk(t, {n}) && n in t.nodes && t.nodes[n].kind.VDir? && t.nodes[n].parent.None?
    requires t.nodes[n].dir.entries == []
    ensures NodesOk(DotDropped(t, n), {})
  {
    var t' := DotDropped(t, n);
    forall m ensures NodeOk(t', {}, m) {
      assert NodeOk(t, {n}, m);
      if m in t.nodes {
        forall i | 0 <= i < |t.nodes[m].dir.entries| ensures t.nodes[m].dir.entries[i].node in t.nodes {
          assert EntAtOk(t, m, i);
        }
        SubsFrame(t.nodes, t'.nodes, t.nodes[m].dir.entries);
        TotalUpdate(t.nodes, n, t'.nodes[n], RefsOf(m));
        forall c, i | HasEnt(t, c, i, m) ensures HasEnt(t', c, i, m) { HasEntSame(t, t', c, i, m); }
      }
    }
  }

  /** A detached empty directory that gives up '.' ends with no links and nothing in transit. */
  lemma DropDotInv(t: Tree, n: nat)
    requires Inv(t, {n}) && t.nodes[n].dir.entries == []
    ensures Inv(DotDropped(t, n), {}) && DotDropped(t, n).nodes[n].links == 0
  {
    var t' := DotDropped(t, n);
    DropDotNodes(t, n);
    assert NodeOk(t', {}, n);
    forall d, i ensures EntAtOk(t', d, i) { assert EntAtOk(t, d, i); }
    forall b, i, c, j ensures Apart(t', b, i, c, j) { assert Apart(t, b, i, c, j); }
    forall m ensures RootedAt(t', {}, m) {
      assert RootedAt(t, {n}, m);
      if m in t.nodes && t.nodes[m].parent.Some? {
        assert Reaches(t, m, t.root) by {
          if Reaches(t, m, n) { AncestorNotEmpty(t, {n}, n, m); }
        }
        var p :| PathTo(t, p, m, t.root);
        RelinkPath(t, n, t'.nodes[n].links, p);
        assert PathTo(t', p, m, t'.root);
      }
    }
  }

  function WithoutNode(t: Tree, n: nat): Tree {
    t.(nodes := t.nodes - {n})
  }

  /** A node without links is referenced by no entry. */
  lemma UnlinkedUnreferenced(t: Tree, fl: set<nat>, n: nat, d: nat, k: nat)
    requires EntsOk(t) && NodesOk(t, fl) && n in t.nodes && d in t.nodes && k < |t.nodes[d].dir.entries|
    requires t.nodes[d].dir.entries[k].node == n
    ensures t.nodes[n].links > 0
  {
    assert EntAtOk(t, d, k) && NodeOk(t, fl, n);
    if !t.nodes[n].kind.VDir? {
      NoRefsIn(t.nodes[d].dir.entries, n);
      TotalAtLeast(t.nodes, d, RefsOf(n));
    }
  }

  lemma FreeNodes(t: Tree, n: nat)
    requires EntsOk(t) && NodesOk(t, {}) && n in t.nodes && t.nodes[n].links == 0
    ensures NodesOk(WithoutNode(t, n), {})
  {
    var t' := WithoutNode(t, n);
    assert NodeOk(t, {}, n);
    UnlinkedIsEmpty(t, n);
    forall m ensures NodeOk(t', {}, m) {
      assert NodeOk(t, {}, m);
      if m in t'.nodes {
        forall i | 0 <= i < |t.nodes[m].dir.entries|
          ensures t.nodes[m].dir.entries[i].node in t'.nodes
        {
          assert EntAtOk(t, m, i);
          if t.nodes[m].dir.entries[i].node == n { UnlinkedUnreferenced(t, {}, n, m, i); }
        }
        SubsFrame(t.nodes, t'.nodes, t.nodes[m].dir.entries);
        TotalRemove(t.nodes, n, RefsOf(m));
        NoRefsIn(t.nodes[n].dir.entries, m);
        forall c, i | HasEnt(t, c, i, m) ensures HasEnt(t', c, i, m) { HasEntSame(t, t', c, i, m); }
      }
    }
  }

  lemma UnlinkedIsEmpty(t: Tree, n: nat)
    requires NodeOk(t, {}, n) && n in t.nodes && t.nodes[n].links == 0
    ensures t.nodes[n].dir.entries == [] && t.nodes[n].parent.None?
  {
  }

  lemma PathAvoids(t: Tree, n: nat, p: seq<nat>)
    requires IsPath(t, p) && n in t.nodes && t.nodes[n].parent.None? && p[|p| - 1] != n
    ensures IsPath(WithoutNode(t, n), p)
  {
    forall i | 0 <= i < |p| - 1 ensures Link(WithoutNode(t, n), p, i) {
      assert Link(t, p, i);
    }
  }

  /** Reclaiming a node that has no links left keeps the invariant. */
  lemma FreeInv(t: Tree, n: nat)
    requires Inv(t, {}) && n in t.nodes && t.nodes[n].links == 0
    ensures Inv(WithoutNode(t, n), {})
  {
    var t' := WithoutNode(t, n);
    assert NodeOk(t, {}, n) && NodeOk(t, {}, t.root);
    UnlinkedIsEmpty(t, n);
    FreeNodes(t, n);
    forall d, i ensures EntAtOk(t', d, i) {
      assert EntAtOk(t, d, i);
      if d in t'.nodes && 0 <= i < |t.nodes[d].dir.entries| && t.nodes[d].dir.entries[i].node == n {
        UnlinkedUnreferenced(t, {}, n, d, i);
      }
    }
    forall b, i, c, j ensures Apart(t', b, i, c, j) { assert Apart(t, b, i, c, j); }
    forall m ensures RootedAt(t', {}, m) {
      assert RootedAt(t, {}, m);
      if m in t'.nodes && t.nodes[m].parent.Some? {
        var p :| PathTo(t, p, m, t.root);
        PathAvoids(t, n, p);
        assert PathTo(t', p, m, t'.root);
      }
    }
  }

  // ---------- attributes ----------

  /** `y` differs from the node it replaces only in what the shape of the graph does not depend on. */
  ghost predicate SameShape(x: Node, y: Node) {
    y.kind == x.kind && y.links == x.links && y.hint == x.hint && y.parent == x.parent
    && y.dir.entries == x.dir.entries && D.Ok(y.dir)
    && (if x.kind.VDir? then y.size == x.size else y.dir == x.dir && Sized(y))
  }

  lemma TouchInv(t: Tree, n: nat, y: Node)
    requires Inv(t, {}) && n in t.nodes && SameShape(t.nodes[n], y)
    ensures Inv(WithNode(t, n, y), {})
  {
    var t' := WithNode(t, n, y);
    forall d, k ensures EntAtOk(t', d, k) { assert EntAtOk(t, d, k); }
    forall b, i, c, j ensures Apart(t', b, i, c, j) { assert Apart(t, b, i, c, j); }
    forall m ensures NodeOk(t', {}, m) {
      assert NodeOk(t, {}, m);
      if m in t.nodes { TouchNode(t, n, y, m); }
    }
    forall m ensures RootedAt(t', {}, m) {
      assert RootedAt(t, {}, m);
      if m in t.nodes && t.nodes[m].parent.Some? { TouchReaches(t, n, y, m); }
    }
  }

  lemma TouchReaches(t: Tree, n: nat, y: Node, m: nat)
    requires n in t.nodes && SameShape(t.nodes[n], y) && Reaches(t, m, t.root)
    ensures Reaches(WithNode(t, n, y), m, t.root)
  {
    var t' := WithNode(t, n, y);
    var p :| PathTo(t, p, m, t.root);
    forall i | 0 <= i < |p| - 1 ensures Link(t', p, i) { assert Link(t, p, i); }
    assert PathTo(t', p, m, t.root);
  }

  lemma TouchNode(t: Tree, n: nat, y: Node, m: nat)
    requires EntsOk(t) && n in t.nodes && SameShape(t.nodes[n], y) && m in t.nodes
    ensures var t' := WithNode(t, n, y);
      Subs(t'.nodes, t'.nodes[m].dir.entries) == Subs(t.nodes, t.nodes[m].dir.entries)
      && Refs(t'.nodes, m) == Refs(t.nodes, m)
      && forall c, i :: HasEnt(t, c, i, m) ==> HasEnt(t', c, i, m)
  {
    var t' := WithNode(t, n, y);
    forall i | 0 <= i < |t.nodes[m].dir.entries| ensures t.nodes[m].dir.entries[i].node in t.nodes {
      assert EntAtOk(t, m, i);
    }
    SubsFrame(t.nodes, t'.nodes, t.nodes[m].dir.entries);
    TotalUpdate(t.nodes, n, y, RefsOf(m));
    forall c, i | HasEnt(t, c, i, m) ensures HasEnt(t', c, i, m) {
      var k :| 0 <= k < |t.nodes[c].dir.entries|
        && t.nodes[c].dir.entries[k].id == i && t.nodes[c].dir.entries[k].node == m;
      assert t'.nodes[c].dir.entries[k].id == i;
    }
  }
}
