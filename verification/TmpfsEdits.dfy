/**
  What the operations of a mount do to single nodes: directories change by a few edits of
  their lists, and nothing but their own operations changes files.
*/
module TmpfsEdits {
  import opened Prelude
  import opened TmpfsTree
  import opened TmpfsNames
  import D = TmpfsDir

  /** Node `n`, if there before and after, is of the same kind and has changed by edits of its list at most. */
  ghost predicate NodeSteps(t: Tree, t': Tree, n: nat) {
    n in t.nodes && n in t'.nodes ==>
      t'.nodes[n].kind == t.nodes[n].kind && t'.nodes[n].flags == t.nodes[n].flags
      && D.Evolves(t.nodes[n].dir, t'.nodes[n].dir)
      && (t.nodes[n].kind.VReg? ==> t'.nodes[n].size == t.nodes[n].size && t'.nodes[n].pages == t.nodes[n].pages)
  }

  ghost predicate TreeSteps(t: Tree, t': Tree) {
    forall n :: NodeSteps(t, t', n)
  }

  /** No node comes or goes, and each has changed by edits at most. */
  ghost predicate Rearranged(t: Tree, t': Tree) {
    TreeSteps(t, t') && t'.nodes.Keys == t.nodes.Keys
  }

  /** Nodes that differ in nothing but links, hint and parent. */
  predicate Alike(x: Node, y: Node) {
    y == x.(links := y.links, hint := y.hint, parent := y.parent)
  }

  lemma AlikeSteps(t: Tree, t': Tree, n: nat)
    requires n in t.nodes && n in t'.nodes ==> Alike(t.nodes[n], t'.nodes[n])
    ensures NodeSteps(t, t', n)
  {
    if n in t.nodes && n in t'.nodes { D.EvolvesByOne(t.nodes[n].dir, t'.nodes[n].dir); }
  }

  lemma SameSteps(t: Tree, t': Tree)
    requires t'.nodes == t.nodes
    ensures Rearranged(t, t')
  {
    forall m ensures NodeSteps(t, t', m) { AlikeSteps(t, t', m); }
  }

  lemma AttachSteps(t: Tree, d: nat, id: nat, name: string, n: nat)
    requires d in t.nodes && n in t.nodes && d != n && t.nodes[d].kind.VDir? && !D.Full(t.nodes[d].dir)
    requires !D.HasId(t.nodes[d].dir.entries, id)
    ensures Rearranged(t, Attached(t, d, id, name, n))
  {
    var t' := Attached(t, d, id, name, n);
    forall m ensures NodeSteps(t, t', m) {
      if m == d {
        assert D.Edits(t.nodes[d].dir, t'.nodes[d].dir);
        D.EvolvesByOne(t.nodes[d].dir, t'.nodes[d].dir);
      } else {
        AlikeSteps(t, t', m);
      }
    }
  }

  /** Adding a node is no step for any other. */
  lemma AllocSteps(t: Tree, n: nat, t1: Tree, t': Tree)
    requires n !in t.nodes && n in t1.nodes && t1.nodes == t.nodes[n := t1.nodes[n]] && TreeSteps(t1, t')
    ensures TreeSteps(t, t')
  {
    forall m ensures NodeSteps(t, t', m) { assert NodeSteps(t1, t', m); }
  }

  lemma RemoveSteps(t: Tree, d: nat, k: nat)
    requires d in t.nodes && k < |t.nodes[d].dir.entries| && t.nodes[d].kind.VDir?
    requires Leaving(t, d, k) in t.nodes && Leaving(t, d, k) != d
    ensures Rearranged(t, TargetRemoved(t, d, Some(k)))
  {
    var t' := TargetRemoved(t, d, Some(k));
    forall m ensures NodeSteps(t, t', m) {
      if m == d {
        assert t'.nodes[d].dir == D.Detach(t.nodes[d].dir, k);
        assert D.Edits(t.nodes[d].dir, t'.nodes[d].dir);
        D.EvolvesByOne(t.nodes[d].dir, t'.nodes[d].dir);
      } else {
        AlikeSteps(t, t', m);
      }
    }
  }

  lemma RemovedDir(t: Tree, d: nat, kt: Option<nat>, c: nat)
    requires d in t.nodes && c in t.nodes
    requires kt.Some? ==>
      kt.value < |t.nodes[d].dir.entries| && Leaving(t, d, kt.value) in t.nodes && Leaving(t, d, kt.value) != d
    ensures var y := TargetRemoved(t, d, kt).nodes[c];
      c != d ==> Alike(t.nodes[c], y)
    ensures var x, y := t.nodes[d], TargetRemoved(t, d, kt).nodes[d];
      y.dir == (if kt.Some? then D.Detach(x.dir, kt.value) else x.dir)
      && y.kind == x.kind && y.flags == x.flags && y.pages == x.pages
  {
  }

  lemma WithinSteps(t: Tree, d: nat, kf: nat, kt: Option<nat>, to: string)
    requires Removable(t, d, kt) && kf < |t.nodes[d].dir.entries|
    requires kt.Some? ==> kt.value != kf && Leaving(t, d, kt.value) != d
    ensures Rearranged(t, MovedWithin(t, d, kf, kt, to))
  {
    var t' := MovedWithin(t, d, kf, kt, to);
    var k := if kt.Some? && kt.value < kf then kf - 1 else kf;
    RemovedDir(t, d, kt, d);
    RemovedList(t, d, kt, d);
    forall m ensures NodeSteps(t, t', m) {
      if m == d {
        D.EvolvesByRename(t.nodes[d].dir, kt, k, to);
      } else {
        if m in t.nodes { RemovedDir(t, d, kt, m); }
        AlikeSteps(t, t', m);
      }
    }
  }

  /** The nodes once the source entry is at the end of the target directory. */
  lemma CarriedNodes(t: Tree, fd: nat, kf: nat, td: nat, c: nat)
    requires Carriable(t, fd, kf, td, None) && c in t.nodes
    ensures var e := t.nodes[fd].dir.entries[kf];
      var t1 := Attached(Detached(t, fd, kf), td, e.id, e.name, e.node);
      c in t1.nodes && t1.nodes[c].kind == t.nodes[c].kind && t1.nodes[c].flags == t.nodes[c].flags
      && t1.nodes[c].pages == t.nodes[c].pages && (c != fd && c != td ==> Alike(t.nodes[c], t1.nodes[c]))
      && t1.nodes[c].dir
         == if c == fd then D.Detach(t.nodes[fd].dir, kf)
            else if c == td then D.Attach(t.nodes[td].dir, e.id, e.name, e.node) else t.nodes[c].dir
  {
  }

  lemma AcrossNode(t: Tree, fd: nat, kf: nat, td: nat, kt: Option<nat>, to: string, c: nat)
    requires Carriable(t, fd, kf, td, kt) && c in t.nodes && c != td
    ensures var x, y := t.nodes[c], MovedAcross(t, fd, kf, td, kt, to).nodes[c];
      if c == fd then y.dir == D.Detach(x.dir, kf) && y.kind == x.kind && y.flags == x.flags else Alike(x, y)
  {
    var e := t.nodes[fd].dir.entries[kf];
    var t1 := Attached(Detached(t, fd, kf), td, e.id, e.name, e.node);
    CarriedNodes(t, fd, kf, td, c);
    CarriedNodes(t, fd, kf, td, td);
    RemovedDir(t1, td, kt, c);
  }

  lemma AcrossTargetDir(t: Tree, fd: nat, kf: nat, td: nat, kt: Option<nat>, to: string)
    requires Carriable(t, fd, kf, td, kt) && !D.HasId(t.nodes[td].dir.entries, t.nodes[fd].dir.entries[kf].id)
    ensures var x, y := t.nodes[td], MovedAcross(t, fd, kf, td, kt, to).nodes[td];
      D.Evolves(x.dir, y.dir) && y.kind == x.kind && y.flags == x.flags && y.pages == x.pages
  {
    var e := t.nodes[fd].dir.entries[kf];
    var t1 := Attached(Detached(t, fd, kf), td, e.id, e.name, e.node);
    CarriedNodes(t, fd, kf, td, td);
    RemovedDir(t1, td, kt, td);
    var k := |TargetRemoved(t1, td, kt).nodes[td].dir.entries| - 1;
    D.EvolvesByMove(t.nodes[td].dir, e.id, e.name, e.node, kt, k, to);
  }

  lemma AcrossSteps(t: Tree, fd: nat, kf: nat, td: nat, kt: Option<nat>, to: string)
    requires Carriable(t, fd, kf, td, kt) && IdsUnique(t) && t.nodes[fd].kind.VDir? && t.nodes[td].kind.VDir?
    ensures Rearranged(t, MovedAcross(t, fd, kf, td, kt, to))
  {
    var t' := MovedAcross(t, fd, kf, td, kt, to);
    forall i | 0 <= i < |t.nodes[td].dir.entries|
      ensures t.nodes[td].dir.entries[i].id != t.nodes[fd].dir.entries[kf].id
    {
      assert Apart(t, fd, kf, td, i);
    }
    forall m ensures NodeSteps(t, t', m) {
      if m == td {
        AcrossTargetDir(t, fd, kf, td, kt, to);
      } else if m == fd {
        AcrossNode(t, fd, kf, td, kt, to, m);
        assert D.Edits(t.nodes[fd].dir, t'.nodes[fd].dir);
        D.EvolvesByOne(t.nodes[fd].dir, t'.nodes[fd].dir);
      } else {
        if m in t.nodes { AcrossNode(t, fd, kf, td, kt, to, m); }
        AlikeSteps(t, t', m);
      }
    }
  }
}
