/**
  What the tmpfs operations mean for names, ancestry, the lookup hint and the memory
  bill, as facts about the node graph.
*/
module TmpfsNames {
  import opened Prelude
  import opened Sums
  import opened TmpfsTree
  import D = TmpfsDir

  // ---------- ancestry ----------

  /** From one node there is only one way up: any chain is an initial part of the chain to the root. */
  lemma {:induction false} PathsAgree(t: Tree, p: seq<nat>, q: seq<nat>, n: nat, i: nat)
    requires PathTo(t, p, n, t.root) && IsPath(t, q) && q[0] == n && i < |q|
    ensures i < |p| && q[i] == p[i]
  {
    if i > 0 {
      PathsAgree(t, p, q, n, i - 1);
      assert Link(t, q, i - 1);
      assert i - 1 < |p| - 1;
      assert Link(t, p, i - 1);
    }
  }

  lemma PathDistinct(t: Tree, p: seq<nat>, n: nat, i: nat, j: nat)
    requires PathTo(t, p, n, t.root) && i < j < |p|
    ensures p[i] != p[j]
  {
    if p[i] == p[j] {
      PathPrefix(t, p, i);
      PathPrefix(t, p, j);
      PathsAgree(t, p[j..], p[i..], p[j], |p| - i - 1);
    }
  }

  /** The ancestors of a node are exactly the nodes on its chain to the root. */
  lemma ReachesIffOnPath(t: Tree, p: seq<nat>, n: nat, a: nat)
    requires PathTo(t, p, n, t.root)
    ensures Reaches(t, n, a) <==> a in p
  {
    if a in p {
      var i := IndexIn(p, a);
      PathPrefix(t, p, i);
      assert PathTo(t, p[..i + 1], n, a);
    }
    if Reaches(t, n, a) {
      var q :| PathTo(t, q, n, a);
      PathsAgree(t, p, q, n, |q| - 1);
    }
  }

  /** What tmpfs_rename_genealogy looks for: the child of `fd` that is `td` or above it. */
  ghost predicate IsChildAbove(t: Tree, fd: nat, td: nat, r: Option<nat>) {
    match r
    case None => !Reaches(t, td, fd)
    case Some(c) => Reaches(t, td, c) && c in t.nodes && c != t.root && t.nodes[c].parent == Some(fd)
  }

  /** The climb: terminates at the root and returns exactly that child, or none. */
  method Genealogy(t: Tree, fd: nat, td: nat) returns (r: Option<nat>)
    requires Inv(t, {}) && fd != td && td in t.nodes && t.nodes[td].parent.Some?
    ensures IsChildAbove(t, fd, td, r)
  {
    assert RootedAt(t, {}, td);
    ghost var p :| PathTo(t, p, td, t.root);
    ghost var i := 0;
    var node := td;
    while true
      invariant 0 <= i < |p| && p[i] == node && node in t.nodes && t.nodes[node].parent.Some?
      invariant fd !in p[..i + 1]
      decreases |p| - i
    {
      var parent := t.nodes[node].parent.value;
      if parent == node {
        assert i == |p| - 1 by { ClimbEnds(t, p, td, i); }
        assert p[..i + 1] == p;
        ReachesIffOnPath(t, p, td, fd);
        return None;
      }
      assert Link(t, p, i) by { ClimbGoesOn(t, p, td, i); }
      if parent == fd {
        ReachesIffOnPath(t, p, td, node);
        return Some(node);
      }
      i := i + 1;
      node := parent;
      assert i < |p| - 1 ==> Link(t, p, i);
      assert p[..i + 1] == p[..i] + [p[i]];
    }
  }

  lemma ClimbEnds(t: Tree, p: seq<nat>, n: nat, i: nat)
    requires PathTo(t, p, n, t.root) && i < |p| && p[i] in t.nodes && t.nodes[p[i]].parent == Some(p[i])
    ensures i == |p| - 1
  {
    if i < |p| - 1 {
      assert Link(t, p, i);
      PathDistinct(t, p, n, i, i + 1);
    }
  }

  lemma ClimbGoesOn(t: Tree, p: seq<nat>, n: nat, i: nat)
    requires Inv(t, {}) && PathTo(t, p, n, t.root) && i < |p| && p[i] in t.nodes && t.nodes[p[i]].parent != Some(p[i])
    ensures i < |p| - 1 && Link(t, p, i)
  {
  }

  /** The check rename makes against that child refuses a move exactly when it would close a cycle. */
  lemma CycleIff(t: Tree, fd: nat, td: nat, r: Option<nat>, f: nat)
    requires Inv(t, {}) && td in t.nodes && t.nodes[td].parent.Some? && IsChildAbove(t, fd, td, r)
    requires f in t.nodes && f != t.root && t.nodes[f].parent == Some(fd)
    ensures r == Some(f) <==> Reaches(t, td, f)
  {
    assert RootedAt(t, {}, td);
    var p :| PathTo(t, p, td, t.root);
    ReachesIffOnPath(t, p, td, f);
    ReachesIffOnPath(t, p, td, fd);
    if f in p {
      var i := IndexIn(p, f);
      assert Link(t, p, i);
      assert fd == p[i + 1];
      var c := r.value;
      ReachesIffOnPath(t, p, td, c);
      var j := IndexIn(p, c);
      assert Link(t, p, j);
      if i < j { PathDistinct(t, p, td, i + 1, j + 1); }
      if j < i { PathDistinct(t, p, td, j + 1, i + 1); }
    }
  }

  /** If the target is not below the moved directory it still hangs from the root once that is detached. */
  lemma TargetStaysRooted(t: Tree, d: nat, k: nat, td: nat)
    requires Inv(t, {}) && Detachable(t, {}, d, k) && td in t.nodes && t.nodes[td].parent.Some?
    requires !Reaches(t, td, Leaving(t, d, k))
    ensures Reaches(Detached(t, d, k), td, t.root)
  {
    assert RootedAt(t, {}, td);
    var p :| PathTo(t, p, td, t.root);
    ReachesIffOnPath(t, p, td, Leaving(t, d, k));
    DetachPath(t, {}, d, k, p);
    assert PathTo(Detached(t, d, k), p, td, t.root);
  }

  ghost predicate LeadsTo(t: Tree, d: nat, k: int, n: nat) {
    d in t.nodes && 0 <= k < |t.nodes[d].dir.entries| && t.nodes[d].dir.entries[k].node == n
  }

  /** Each attached directory has exactly one entry anywhere, and it is in its parent's list. */
  lemma OneEntryPerDirectory(t: Tree, n: nat) returns (k: nat)
    requires Inv(t, {}) && n in t.nodes && t.nodes[n].kind.VDir? && t.nodes[n].parent.Some? && n != t.root
    ensures LeadsTo(t, t.nodes[n].parent.value, k, n)
    ensures forall c, i :: LeadsTo(t, c, i, n) ==> c == t.nodes[n].parent.value && i == k
  {
    assert NodeOk(t, {}, n);
    var d := t.nodes[n].parent.value;
    k :| k < |t.nodes[d].dir.entries|
      && t.nodes[d].dir.entries[k].id == t.nodes[n].hint.value && t.nodes[d].dir.entries[k].node == n;
    assert NodeOk(t, {}, d);
    forall c, i | LeadsTo(t, c, i, n) ensures c == d && i == k {
      assert EntAtOk(t, c, i);
    }
  }

  /** Every attached directory hangs from the root by one chain without repetition. */
  lemma TreeShape(t: Tree, n: nat) returns (p: seq<nat>)
    requires Inv(t, {}) && n in t.nodes && t.nodes[n].parent.Some?
    ensures PathTo(t, p, n, t.root)
    ensures forall q :: PathTo(t, q, n, t.root) ==> q == p
    ensures forall i, j :: 0 <= i < j < |p| ==> p[i] != p[j]
  {
    assert RootedAt(t, {}, n);
    p :| PathTo(t, p, n, t.root);
    forall q | PathTo(t, q, n, t.root) ensures q == p {
      PathsAgree(t, p, q, n, |q| - 1);
      PathsAgree(t, q, p, n, |p| - 1);
      forall i | 0 <= i < |q| ensures q[i] == p[i] { PathsAgree(t, p, q, n, i); }
    }
    forall i, j | 0 <= i < j < |p| ensures p[i] != p[j] { PathDistinct(t, p, n, i, j); }
  }

  // ---------- the hint ----------

  lemma {:induction false} TwoRefsIn(es: seq<D.Dirent>, n: nat, i: nat, j: nat)
    requires i < j < |es| && es[i].node == n && es[j].node == n
    ensures RefsIn(es, n) >= 2
  {
    var ini := es[..|es| - 1];
    if j < |es| - 1 {
      TwoRefsIn(ini, n, i, j);
    } else {
      NoRefsIn(ini, n);
      assert ini[i].node == n;
    }
  }

  /** Two different entries for a file make its link count at least two. */
  lemma TwoEntriesTwoLinks(t: Tree, n: nat, c: nat, i: nat, d: nat, j: nat)
    requires NodesOk(t, {}) && n in t.nodes && !t.nodes[n].kind.VDir?
    requires LeadsTo(t, c, i, n) && LeadsTo(t, d, j, n) && (c != d || i != j)
    ensures t.nodes[n].links >= 2
  {
    assert NodeOk(t, {}, n);
    TotalAtLeast(t.nodes, c, RefsOf(n));
    if c == d {
      TwoRefsIn(t.nodes[c].dir.entries, n, if i < j then i else j, if i < j then j else i);
    } else {
      NoRefsIn(t.nodes[c].dir.entries, n);
      NoRefsIn(t.nodes[d].dir.entries, n);
    }
  }

  /** tmpfs_dir_cached. */
  function DirCached(x: Node): Option<nat> {
    if x.hint.None? then None else if !x.kind.VDir? && x.links > 1 then None else x.hint
  }

  /** A cached entry is the one a lookup of the node's name finds. */
  lemma CachedIsLookup(t: Tree, d: nat, k: nat, n: nat)
    requires Inv(t, {}) && n in t.nodes && LeadsTo(t, d, k, n) && DirCached(t.nodes[n]).Some?
    ensures DirCached(t.nodes[n]).value == t.nodes[d].dir.entries[k].id
  {
    assert EntAtOk(t, d, k) && NodeOk(t, {}, n);
    var x := t.nodes[n];
    if !x.kind.VDir? {
      var c :| HasEnt(t, c, x.hint.value, n);
      var i: nat :| i < |t.nodes[c].dir.entries|
        && t.nodes[c].dir.entries[i].id == x.hint.value && t.nodes[c].dir.entries[i].node == n;
      if c != d || i != k { TwoEntriesTwoLinks(t, n, c, i, d, k); }
    }
  }

  /** "Directories always have a valid hint." */
  lemma DirectoriesCached(t: Tree, n: nat)
    requires Inv(t, {}) && n in t.nodes && t.nodes[n].kind.VDir? && t.nodes[n].parent.Some? && n != t.root
    ensures DirCached(t.nodes[n]).Some? && HasEnt(t, t.nodes[n].parent.value, DirCached(t.nodes[n]).value, n)
  {
    assert NodeOk(t, {}, n);
  }

  // ---------- names ----------

  ghost predicate NamesOkAt(t: Tree, d: nat) {
    d in t.nodes ==> D.NamesDistinct(t.nodes[d].dir.entries)
  }

  ghost predicate NamesOk(t: Tree) {
    forall d :: NamesOkAt(t, d)
  }

  /** The node a name in a directory is bound to. */
  function Bind(t: Tree, d: nat, name: string): Option<nat> {
    if d in t.nodes && D.Lookup(t.nodes[d].dir.entries, name).Some?
    then Some(D.Lookup(t.nodes[d].dir.entries, name).value.node) else None
  }

  lemma {:induction false} LookupAppend(es: seq<D.Dirent>, e: D.Dirent, name: string)
    requires D.Lookup(es, e.name).None?
    ensures D.Lookup(es + [e], name) == if name == e.name then Some(e) else D.Lookup(es, name)
  {
    if es != [] {
      assert (es + [e])[1..] == es[1..] + [e];
      LookupAppend(es[1..], e, name);
    } else {
      assert ([e])[1..] == [];
    }
  }

  /** Taking an entry out leaves the names distinct, and its own name unused. */
  lemma DistinctRemoved(es: seq<D.Dirent>, k: nat)
    requires k < |es| && D.NamesDistinct(es)
    ensures D.NamesDistinct(D.Removed(es, k)) && D.Lookup(D.Removed(es, k), es[k].name).None?
  {
    var es' := D.Removed(es, k);
    assert forall i :: 0 <= i < |es'| ==> es'[i] == es[if i < k then i else i + 1];
  }

  lemma {:induction false} LookupOther(es: seq<D.Dirent>, k: nat, name: string)
    requires k < |es| && name != es[k].name
    ensures D.Lookup(D.Removed(es, k), name) == D.Lookup(es, name)
  {
    if k == 0 {
      assert D.Removed(es, 0) == es[1..];
    } else {
      LookupOther(es[1..], k - 1, name);
      assert D.Removed(es, k) == [es[0]] + D.Removed(es[1..], k - 1);
      assert D.Removed(es, k)[1..] == D.Removed(es[1..], k - 1);
    }
  }

  lemma {:induction false} LookupRemoved(es: seq<D.Dirent>, k: nat, name: string)
    requires k < |es| && D.NamesDistinct(es)
    ensures D.Lookup(D.Removed(es, k), name) == if name == es[k].name then None else D.Lookup(es, name)
    ensures D.NamesDistinct(D.Removed(es, k))
  {
    DistinctRemoved(es, k);
    if name != es[k].name { LookupOther(es, k, name); }
  }

  lemma {:induction false} LookupReplaced(es: seq<D.Dirent>, k: nat, to: string, name: string)
    requires k < |es| && name != to && name != es[k].name
    ensures D.Lookup(es[k := es[k].(name := to)], name) == D.Lookup(es, name)
  {
    var es' := es[k := es[k].(name := to)];
    if k == 0 {
      assert es'[1..] == es[1..];
    } else {
      assert es'[1..] == es[1..][k - 1 := es[1..][k - 1].(name := to)];
      LookupReplaced(es[1..], k - 1, to, name);
    }
  }

  lemma LookupRenamed(es: seq<D.Dirent>, k: nat, to: string, name: string)
    requires k < |es| && D.NamesDistinct(es) && (es[k].name == to || D.Lookup(es, to).None?)
    ensures D.Lookup(es[k := es[k].(name := to)], name)
         == if name == to then Some(es[k].(name := to)) else if name == es[k].name then None else D.Lookup(es, name)
    ensures D.NamesDistinct(es[k := es[k].(name := to)])
  {
    var es' := es[k := es[k].(name := to)];
    forall i | 0 <= i < |es| && i != k ensures es[i].name != to {}
    assert D.NamesDistinct(es');
    if name == to {
      D.LookupIs(es', k);
    } else if name == es[k].name {
      forall i | 0 <= i < |es'| ensures es'[i].name != name {}
    } else {
      LookupReplaced(es, k, to, name);
    }
  }

  // ---------- rename ----------

  function RenamedEnt(t: Tree, d: nat, k: nat, to: string): Tree
    requires d in t.nodes && k < |t.nodes[d].dir.entries|
  {
    t.(nodes := t.nodes[d := t.nodes[d].(dir := D.Rename(t.nodes[d].dir, k, to))])
  }

  /** Detaching the entry of the node that rename replaces, or that rmdir removes. */
  function TargetRemoved(t: Tree, d: nat, kt: Option<nat>): Tree
    requires kt.Some? ==> d in t.nodes && kt.value < |t.nodes[d].dir.entries| && Leaving(t, d, kt.value) in t.nodes
  {
    if kt.None? then t
    else if t.nodes[Leaving(t, d, kt.value)].kind.VDir? then
      DotDropped(Detached(t, d, kt.value), Leaving(t, d, kt.value))
    else Detached(t, d, kt.value)
  }

  /** Entry number `kt`, if any, is a file or an empty directory. */
  ghost predicate Removable(t: Tree, d: nat, kt: Option<nat>) {
    d in t.nodes && t.nodes[d].kind.VDir?
    && (kt.Some? ==>
          kt.value < |t.nodes[d].dir.entries| && Leaving(t, d, kt.value) in t.nodes
          && (t.nodes[Leaving(t, d, kt.value)].kind.VDir? ==> t.nodes[Leaving(t, d, kt.value)].dir.entries == []))
  }

  lemma TargetRemovedInv(t: Tree, d: nat, kt: Option<nat>)
    requires Inv(t, {}) && Removable(t, d, kt)
    ensures Inv(TargetRemoved(t, d, kt), {})
  {
    if kt.Some? {
      assert EntAtOk(t, d, kt.value) && NodeOk(t, {}, d);
      DetachInv(t, {}, d, kt.value);
      assert {} + {Leaving(t, d, kt.value)} == {Leaving(t, d, kt.value)};
      if t.nodes[Leaving(t, d, kt.value)].kind.VDir? { DropDotInv(Detached(t, d, kt.value), Leaving(t, d, kt.value)); }
    }
  }

  lemma {:induction false} RenameCounts(nodes: map<nat, Node>, es: seq<D.Dirent>, k: nat, to: string, n: nat)
    requires k < |es|
    ensures Subs(nodes, es[k := es[k].(name := to)]) == Subs(nodes, es)
    ensures RefsIn(es[k := es[k].(name := to)], n) == RefsIn(es, n)
  {
    var es' := es[k := es[k].(name := to)];
    if k == |es| - 1 {
      assert es'[..|es| - 1] == es[..|es| - 1];
    } else {
      assert es'[..|es| - 1] == es[..|es| - 1][k := es[k].(name := to)];
      RenameCounts(nodes, es[..|es| - 1], k, to, n);
    }
  }

  lemma RenamedNode(t: Tree, d: nat, k: nat, to: string, m: nat)
    requires EntsOk(t) && d in t.nodes && k < |t.nodes[d].dir.entries| && m in t.nodes
    ensures var t' := RenamedEnt(t, d, k, to);
      Subs(t'.nodes, t'.nodes[m].dir.entries) == Subs(t.nodes, t.nodes[m].dir.entries)
      && Refs(t'.nodes, m) == Refs(t.nodes, m)
  {
    var t' := RenamedEnt(t, d, k, to);
    var es := t'.nodes[m].dir.entries;
    forall i | 0 <= i < |es| ensures es[i].node in t.nodes { assert EntAtOk(t, m, i); }
    SubsFrame(t.nodes, t'.nodes, es);
    RenameCounts(t.nodes, t.nodes[d].dir.entries, k, to, m);
    TotalUpdate(t.nodes, d, t'.nodes[d], RefsOf(m));
  }

  lemma RenamedNodes(t: Tree, d: nat, k: nat, to: string)
    requires EntsOk(t) && NodesOk(t, {}) && d in t.nodes && t.nodes[d].kind.VDir? && k < |t.nodes[d].dir.entries|
    ensures NodesOk(RenamedEnt(t, d, k, to), {})
  {
    var t' := RenamedEnt(t, d, k, to);
    forall m ensures NodeOk(t', {}, m) {
      assert NodeOk(t, {}, m);
      if m in t.nodes {
        RenamedNode(t, d, k, to, m);
        forall c, i | HasEnt(t, c, i, m) ensures HasEnt(t', c, i, m) { RenamedHasEnt(t, d, k, to, c, i, m); }
      }
    }
  }

  lemma RenamedHasEnt(t: Tree, d: nat, k: nat, to: string, c: nat, i: nat, m: nat)
    requires d in t.nodes && k < |t.nodes[d].dir.entries| && HasEnt(t, c, i, m)
    ensures HasEnt(RenamedEnt(t, d, k, to), c, i, m)
  {
    var j :| 0 <= j < |t.nodes[c].dir.entries|
      && t.nodes[c].dir.entries[j].id == i && t.nodes[c].dir.entries[j].node == m;
    var e := RenamedEnt(t, d, k, to).nodes[c].dir.entries[j];
    assert e.id == i && e.node == m;
  }

  /** Names play no part in the shape of the tree. */
  lemma RenamedInv(t: Tree, d: nat, k: nat, to: string)
    requires Inv(t, {}) && d in t.nodes && t.nodes[d].kind.VDir? && k < |t.nodes[d].dir.entries|
    ensures Inv(RenamedEnt(t, d, k, to), {})
  {
    var t' := RenamedEnt(t, d, k, to);
    RenamedNodes(t, d, k, to);
    forall c, i ensures EntAtOk(t', c, i) { assert EntAtOk(t, c, i); }
    forall b, i, c, j ensures Apart(t', b, i, c, j) { assert Apart(t, b, i, c, j); }
    forall m ensures RootedAt(t', {}, m) {
      assert RootedAt(t, {}, m);
      if m in t.nodes && t.nodes[m].parent.Some? {
        var p :| PathTo(t, p, m, t.root);
        forall i | 0 <= i < |p| - 1 ensures Link(t', p, i) { assert Link(t, p, i); }
        assert PathTo(t', p, m, t'.root);
      }
    }
  }

  /** The tree after a rename inside one directory. */
  function MovedWithin(t: Tree, d: nat, kf: nat, kt: Option<nat>, to: string): Tree
    requires d in t.nodes && kf < |t.nodes[d].dir.entries| && (kt.Some? ==> kt.value != kf)
    requires kt.Some? ==>
      kt.value < |t.nodes[d].dir.entries| && Leaving(t, d, kt.value) in t.nodes && Leaving(t, d, kt.value) != d
  {
    RenamedEnt(TargetRemoved(t, d, kt), d, if kt.Some? && kt.value < kf then kf - 1 else kf, to)
  }

  /** The tree after a rename from one directory into another. */
  function MovedAcross(t: Tree, fd: nat, kf: nat, td: nat, kt: Option<nat>, to: string): Tree
    requires Carriable(t, fd, kf, td, kt)
  {
    var e := t.nodes[fd].dir.entries[kf];
    var t1 := Attached(Detached(t, fd, kf), td, e.id, e.name, e.node);
    var t2 := TargetRemoved(t1, td, kt);
    RenamedEnt(t2, td, |t2.nodes[td].dir.entries| - 1, to)
  }

  predicate Carriable(t: Tree, fd: nat, kf: nat, td: nat, kt: Option<nat>) {
    fd in t.nodes && kf < |t.nodes[fd].dir.entries| && td in t.nodes && fd != td && !D.Full(t.nodes[td].dir)
    && Leaving(t, fd, kf) in t.nodes && Leaving(t, fd, kf) != td && Leaving(t, fd, kf) != fd
    && (kt.Some? ==>
          kt.value < |t.nodes[td].dir.entries| && Leaving(t, td, kt.value) in t.nodes
          && Leaving(t, td, kt.value) != td && Leaving(t, td, kt.value) != fd
          && Leaving(t, td, kt.value) != Leaving(t, fd, kf))
  }

  /** What a rename that moves node `f` from (fd, from) to (td, to) does to the name bindings. */
  ghost predicate RenameEffect(t: Tree, t': Tree, fd: nat, from: string, td: nat, to: string, f: nat) {
    forall c, name :: Bind(t', c, name)
      == if c == td && name == to then Some(f) else if c == fd && name == from then None else Bind(t, c, name)
  }

  /** kt is the entry bound to the target name, if there is one. */
  ghost predicate IsTarget(t: Tree, d: nat, kt: Option<nat>, to: string)
    requires d in t.nodes
  {
    match kt
    case None => D.Lookup(t.nodes[d].dir.entries, to).None?
    case Some(k) => k < |t.nodes[d].dir.entries| && t.nodes[d].dir.entries[k].name == to
  }

  lemma RemovedList(t: Tree, d: nat, kt: Option<nat>, c: nat)
    requires d in t.nodes && c in t.nodes
    requires kt.Some? ==>
      kt.value < |t.nodes[d].dir.entries| && Leaving(t, d, kt.value) in t.nodes && Leaving(t, d, kt.value) != d
    ensures TargetRemoved(t, d, kt).nodes[c].dir.entries
         == if kt.Some? && c == d then D.Removed(t.nodes[d].dir.entries, kt.value) else t.nodes[c].dir.entries
  {
  }

  /** Rename inside one directory: shape, distinct names and the effect on bindings. */
  lemma MovedWithinOk(t: Tree, d: nat, kf: nat, kt: Option<nat>, to: string)
    requires Inv(t, {}) && NamesOk(t) && Removable(t, d, kt) && IsTarget(t, d, kt, to)
    requires kf < |t.nodes[d].dir.entries| && (kt.Some? ==> kt.value != kf && Leaving(t, d, kt.value) != d)
    ensures var t' := MovedWithin(t, d, kf, kt, to);
      Inv(t', {}) && NamesOk(t')
      && RenameEffect(t, t', d, t.nodes[d].dir.entries[kf].name, d, to, Leaving(t, d, kf))
  {
    TargetRemovedInv(t, d, kt);
    RemovedList(t, d, kt, d);
    RenamedInv(TargetRemoved(t, d, kt), d, if kt.Some? && kt.value < kf then kf - 1 else kf, to);
    WithinNames(t, d, kf, kt, to);
    WithinBindings(t, d, kf, kt, to);
  }

  lemma WithinList(t: Tree, d: nat, kf: nat, kt: Option<nat>, to: string, c: nat)
    requires Removable(t, d, kt) && kf < |t.nodes[d].dir.entries|
    requires kt.Some? ==> kt.value != kf && Leaving(t, d, kt.value) != d
    ensures var t' := MovedWithin(t, d, kf, kt, to);
      var es1 := if kt.Some? then D.Removed(t.nodes[d].dir.entries, kt.value) else t.nodes[d].dir.entries;
      var k1 := if kt.Some? && kt.value < kf then kf - 1 else kf;
      (c in t'.nodes <==> c in t.nodes) && k1 < |es1| && es1[k1] == t.nodes[d].dir.entries[kf]
      && (c in t.nodes ==>
            t'.nodes[c].dir.entries == if c == d then es1[k1 := es1[k1].(name := to)] else t.nodes[c].dir.entries)
  {
    RemovedList(t, d, kt, d);
    if c in t.nodes { RemovedList(t, d, kt, c); }
  }

  lemma WithinNames(t: Tree, d: nat, kf: nat, kt: Option<nat>, to: string)
    requires NamesOk(t) && Removable(t, d, kt) && IsTarget(t, d, kt, to)
    requires kf < |t.nodes[d].dir.entries| && (kt.Some? ==> kt.value != kf && Leaving(t, d, kt.value) != d)
    ensures NamesOk(MovedWithin(t, d, kf, kt, to))
  {
    var t' := MovedWithin(t, d, kf, kt, to);
    var es := t.nodes[d].dir.entries;
    assert NamesOkAt(t, d);
    if kt.Some? { LookupRemoved(es, kt.value, to); }
    WithinList(t, d, kf, kt, to, d);
    var es1 := if kt.Some? then D.Removed(es, kt.value) else es;
    LookupRenamed(es1, if kt.Some? && kt.value < kf then kf - 1 else kf, to, to);
    forall c ensures NamesOkAt(t', c) {
      assert NamesOkAt(t, c);
      WithinList(t, d, kf, kt, to, c);
    }
  }

  lemma WithinBindings(t: Tree, d: nat, kf: nat, kt: Option<nat>, to: string)
    requires NamesOk(t) && Removable(t, d, kt) && IsTarget(t, d, kt, to)
    requires kf < |t.nodes[d].dir.entries| && (kt.Some? ==> kt.value != kf && Leaving(t, d, kt.value) != d)
    ensures RenameEffect(t, MovedWithin(t, d, kf, kt, to), d, t.nodes[d].dir.entries[kf].name, d, to, Leaving(t, d, kf))
  {
    var t' := MovedWithin(t, d, kf, kt, to);
    var es := t.nodes[d].dir.entries;
    assert NamesOkAt(t, d);
    if kt.Some? { LookupRemoved(es, kt.value, to); }
    forall c, name
      ensures Bind(t', c, name)
           == if c == d && name == to then Some(es[kf].node)
              else if c == d && name == es[kf].name then None else Bind(t, c, name)
    {
      WithinList(t, d, kf, kt, to, c);
      if c == d {
        var es1 := if kt.Some? then D.Removed(es, kt.value) else es;
        LookupRenamed(es1, if kt.Some? && kt.value < kf then kf - 1 else kf, to, name);
        if kt.Some? { LookupRemoved(es, kt.value, name); }
      }
    }
  }

  lemma AcrossInv(t: Tree, fd: nat, kf: nat, td: nat, kt: Option<nat>)
    requires Inv(t, {}) && Carriable(t, fd, kf, td, kt) && Removable(t, td, kt) && t.nodes[fd].kind.VDir?
    requires t.nodes[td].parent.Some?
    requires t.nodes[Leaving(t, fd, kf)].kind.VDir? ==> !Reaches(t, td, Leaving(t, fd, kf))
    ensures var e := t.nodes[fd].dir.entries[kf];
      var t1 := Attached(Detached(t, fd, kf), td, e.id, e.name, e.node);
      Inv(t1, {}) && Removable(t1, td, kt)
  {
    var e := t.nodes[fd].dir.entries[kf];
    assert EntAtOk(t, fd, kf) && NodeOk(t, {}, fd);
    DetachInv(t, {}, fd, kf);
    if t.nodes[e.node].kind.VDir? { TargetStaysRooted(t, fd, kf, td); }
    AttachInv(Detached(t, fd, kf), AfterDetach(t, {}, e.node), td, e.id, e.name, e.node);
  }

  /** The lists once the source entry is at the end of the target directory. */
  lemma CarriedList(t: Tree, fd: nat, kf: nat, td: nat, c: nat)
    requires Carriable(t, fd, kf, td, None) && c in t.nodes
    ensures var e := t.nodes[fd].dir.entries[kf];
      var t1 := Attached(Detached(t, fd, kf), td, e.id, e.name, e.node);
      c in t1.nodes && t1.nodes[c].dir.entries
        == if c == fd then D.Removed(t.nodes[fd].dir.entries, kf)
           else if c == td then t.nodes[td].dir.entries + [D.Dirent(e.id, t.nodes[td].dir.nextSeq, e.name, e.node)]
           else t.nodes[c].dir.entries
  {
  }

  lemma RemovedAppend(es: seq<D.Dirent>, k: nat, e: D.Dirent)
    requires k < |es|
    ensures D.Removed(es + [e], k) == D.Removed(es, k) + [e]
  {
  }

  /** The target directory's list after a rename from another directory. */
  function CarriedTo(es: seq<D.Dirent>, kt: Option<nat>, e: D.Dirent): seq<D.Dirent>
    requires kt.Some? ==> kt.value < |es|
  {
    (if kt.Some? then D.Removed(es, kt.value) else es) + [e]
  }

  lemma AcrossTarget(t: Tree, fd: nat, kf: nat, td: nat, kt: Option<nat>, to: string)
    requires Carriable(t, fd, kf, td, kt)
    ensures var t' := MovedAcross(t, fd, kf, td, kt, to);
      var e := t.nodes[fd].dir.entries[kf];
      td in t'.nodes && t'.nodes[td].dir.entries
        == CarriedTo(t.nodes[td].dir.entries, kt, D.Dirent(e.id, t.nodes[td].dir.nextSeq, to, e.node))
  {
    var e := t.nodes[fd].dir.entries[kf];
    var t1 := Attached(Detached(t, fd, kf), td, e.id, e.name, e.node);
    CarriedList(t, fd, kf, td, td);
    RemovedList(t1, td, kt, td);
    var e1 := D.Dirent(e.id, t.nodes[td].dir.nextSeq, e.name, e.node);
    if kt.Some? { RemovedAppend(t.nodes[td].dir.entries, kt.value, e1); }
    var es := TargetRemoved(t1, td, kt).nodes[td].dir.entries;
    assert es == CarriedTo(t.nodes[td].dir.entries, kt, e1);
    assert es[|es| - 1 := e1.(name := to)] == CarriedTo(t.nodes[td].dir.entries, kt, e1.(name := to));
  }

  lemma AcrossOther(t: Tree, fd: nat, kf: nat, td: nat, kt: Option<nat>, to: string, c: nat)
    requires Carriable(t, fd, kf, td, kt) && c in t.nodes && c != td
    ensures var t' := MovedAcross(t, fd, kf, td, kt, to);
      c in t'.nodes && t'.nodes[c].dir.entries
        == if c == fd then D.Removed(t.nodes[fd].dir.entries, kf) else t.nodes[c].dir.entries
  {
    var e := t.nodes[fd].dir.entries[kf];
    var t1 := Attached(Detached(t, fd, kf), td, e.id, e.name, e.node);
    CarriedList(t, fd, kf, td, c);
    CarriedList(t, fd, kf, td, td);
    RemovedList(t1, td, kt, c);
  }

  lemma RemovedRenamedInv(t: Tree, d: nat, kt: Option<nat>, to: string)
    requires Inv(t, {}) && Removable(t, d, kt) && |t.nodes[d].dir.entries| > (if kt.Some? then 1 else 0)
    requires kt.Some? ==> Leaving(t, d, kt.value) != d
    ensures var t' := TargetRemoved(t, d, kt);
      d in t'.nodes && |t'.nodes[d].dir.entries| > 0 && Inv(RenamedEnt(t', d, |t'.nodes[d].dir.entries| - 1, to), {})
  {
    var t' := TargetRemoved(t, d, kt);
    TargetRemovedInv(t, d, kt);
    RemovedList(t, d, kt, d);
    RenamedInv(t', d, |t'.nodes[d].dir.entries| - 1, to);
  }

  /** Rename between directories: shape, distinct names and the effect on bindings. */
  lemma MovedAcrossOk(t: Tree, fd: nat, kf: nat, td: nat, kt: Option<nat>, to: string)
    requires Inv(t, {}) && NamesOk(t) && Carriable(t, fd, kf, td, kt) && Removable(t, td, kt) && IsTarget(t, td, kt, to)
    requires t.nodes[fd].kind.VDir? && t.nodes[td].parent.Some?
    requires t.nodes[Leaving(t, fd, kf)].kind.VDir? ==> !Reaches(t, td, Leaving(t, fd, kf))
    ensures var t' := MovedAcross(t, fd, kf, td, kt, to);
      Inv(t', {}) && NamesOk(t')
      && RenameEffect(t, t', fd, t.nodes[fd].dir.entries[kf].name, td, to, Leaving(t, fd, kf))
  {
    var e := t.nodes[fd].dir.entries[kf];
    AcrossInv(t, fd, kf, td, kt);
    RemovedRenamedInv(Attached(Detached(t, fd, kf), td, e.id, e.name, e.node), td, kt, to);
    AcrossBindings(t, fd, kf, td, kt, to);
  }

  lemma {:induction false} CarriedDistinct(es: seq<D.Dirent>, kt: Option<nat>, e: D.Dirent)
    requires D.NamesDistinct(es)
    requires if kt.Some? then kt.value < |es| && es[kt.value].name == e.name else D.Lookup(es, e.name).None?
    ensures D.NamesDistinct(CarriedTo(es, kt, e))
  {
    if kt.Some? { DistinctRemoved(es, kt.value); }
  }

  lemma AcrossNames(t: Tree, fd: nat, kf: nat, td: nat, kt: Option<nat>, to: string)
    requires NamesOk(t) && Carriable(t, fd, kf, td, kt) && IsTarget(t, td, kt, to)
    ensures NamesOk(MovedAcross(t, fd, kf, td, kt, to))
  {
    var t' := MovedAcross(t, fd, kf, td, kt, to);
    assert NamesOkAt(t, fd) && NamesOkAt(t, td);
    var e := t.nodes[fd].dir.entries[kf];
    CarriedDistinct(t.nodes[td].dir.entries, kt, D.Dirent(e.id, t.nodes[td].dir.nextSeq, to, e.node));
    DistinctRemoved(t.nodes[fd].dir.entries, kf);
    AcrossTarget(t, fd, kf, td, kt, to);
    forall c ensures NamesOkAt(t', c) {
      assert NamesOkAt(t, c);
      if c in t.nodes && c != td { AcrossOther(t, fd, kf, td, kt, to, c); }
    }
  }

  /** A name in the target directory after a rename from another directory. */
  lemma {:induction false} CarriedLookup(es: seq<D.Dirent>, kt: Option<nat>, e: D.Dirent, name: string)
    requires D.NamesDistinct(es)
    requires if kt.Some? then kt.value < |es| && es[kt.value].name == e.name else D.Lookup(es, e.name).None?
    ensures D.Lookup(CarriedTo(es, kt, e), name) == if name == e.name then Some(e) else D.Lookup(es, name)
  {
    if kt.Some? {
      LookupRemoved(es, kt.value, name);
      LookupRemoved(es, kt.value, e.name);
    }
    LookupAppend(if kt.Some? then D.Removed(es, kt.value) else es, e, name);
  }

  lemma AcrossBindTarget(t: Tree, fd: nat, kf: nat, td: nat, kt: Option<nat>, to: string, name: string)
    requires NamesOkAt(t, td) && Carriable(t, fd, kf, td, kt) && IsTarget(t, td, kt, to)
    ensures Bind(MovedAcross(t, fd, kf, td, kt, to), td, name)
         == if name == to then Some(Leaving(t, fd, kf)) else Bind(t, td, name)
  {
    var e := t.nodes[fd].dir.entries[kf];
    AcrossTarget(t, fd, kf, td, kt, to);
    CarriedLookup(t.nodes[td].dir.entries, kt, D.Dirent(e.id, t.nodes[td].dir.nextSeq, to, e.node), name);
  }

  lemma AcrossBind(t: Tree, fd: nat, kf: nat, td: nat, kt: Option<nat>, to: string, c: nat, name: string)
    requires NamesOkAt(t, fd) && NamesOkAt(t, td) && Carriable(t, fd, kf, td, kt) && IsTarget(t, td, kt, to)
    ensures var e := t.nodes[fd].dir.entries[kf];
      Bind(MovedAcross(t, fd, kf, td, kt, to), c, name)
        == if c == td && name == to then Some(e.node) else if c == fd && name == e.name then None else Bind(t, c, name)
  {
    if c == td {
      AcrossBindTarget(t, fd, kf, td, kt, to, name);
    } else if c in t.nodes {
      AcrossOther(t, fd, kf, td, kt, to, c);
      if c == fd { LookupRemoved(t.nodes[fd].dir.entries, kf, name); }
    }
  }

  lemma AcrossBindings(t: Tree, fd: nat, kf: nat, td: nat, kt: Option<nat>, to: string)
    requires NamesOk(t) && Carriable(t, fd, kf, td, kt) && IsTarget(t, td, kt, to)
    ensures var t' := MovedAcross(t, fd, kf, td, kt, to);
      NamesOk(t') && RenameEffect(t, t', fd, t.nodes[fd].dir.entries[kf].name, td, to, Leaving(t, fd, kf))
  {
    AcrossNames(t, fd, kf, td, kt, to);
    var t' := MovedAcross(t, fd, kf, td, kt, to);
    var e := t.nodes[fd].dir.entries[kf];
    assert NamesOkAt(t, fd) && NamesOkAt(t, td);
    forall c, name
      ensures Bind(t', c, name)
           == if c == td && name == to then Some(e.node)
              else if c == fd && name == e.name then None else Bind(t, c, name)
    {
      AcrossBind(t, fd, kf, td, kt, to, c, name);
    }
  }
}
