/** What a node graph costs: node by node, entry by entry, byte for byte. */
module TmpfsBill {
  import opened Prelude
  import opened Sums
  import opened TmpfsTree
  import opened TmpfsNames
  import opened TmpfsMem
  import D = TmpfsDir

  const NODE_BYTES := 360    // sizeof(struct tmpfs_node)

  function EntBytes(name: string): nat {
    DIRENT_BYTES + RoundName(|name|)
  }

  function ListBytes(es: seq<D.Dirent>): nat {
    if es == [] then 0 else ListBytes(es[..|es| - 1]) + EntBytes(es[|es| - 1].name)
  }

  /** The node itself, its symlink target, its file pages, and the entries it holds. */
  function NodeBytes(x: Node): int {
    NODE_BYTES + (if x.kind.VLnk? && x.size > 0 then RoundName(x.size) else 0)
    + PAGE_SIZE * x.pages + ListBytes(x.dir.entries)
  }

  ghost function Bytes(t: Tree): int {
    Total(t.nodes, NodeBytes)
  }

  lemma {:induction false} ListBytesRemoved(es: seq<D.Dirent>, k: nat)
    requires k < |es|
    ensures ListBytes(D.Removed(es, k)) == ListBytes(es) - EntBytes(es[k].name)
  {
    if k == |es| - 1 {
      assert D.Removed(es, k) == es[..|es| - 1];
    } else {
      ListBytesRemoved(es[..|es| - 1], k);
      assert D.Removed(es, k)[..|es| - 2] == D.Removed(es[..|es| - 1], k);
    }
  }

  lemma {:induction false} ListBytesRenamed(es: seq<D.Dirent>, k: nat, to: string)
    requires k < |es|
    ensures ListBytes(es[k := es[k].(name := to)]) == ListBytes(es) - RoundName(|es[k].name|) + RoundName(|to|)
  {
    var es' := es[k := es[k].(name := to)];
    if k == |es| - 1 {
      assert es'[..|es| - 1] == es[..|es| - 1];
    } else {
      assert es'[..|es| - 1] == es[..|es| - 1][k := es[k].(name := to)];
      ListBytesRenamed(es[..|es| - 1], k, to);
    }
  }

  lemma Bytes2(t: Tree, d: nat, x: Node, n: nat, y: Node)
    requires d in t.nodes && n in t.nodes && d != n
    ensures Total(t.nodes[d := x][n := y], NodeBytes)
         == Bytes(t) + NodeBytes(x) - NodeBytes(t.nodes[d]) + NodeBytes(y) - NodeBytes(t.nodes[n])
  {
    TotalUpdate(t.nodes, d, x, NodeBytes);
    TotalUpdate(t.nodes[d := x], n, y, NodeBytes);
  }

  lemma AttachBytes(t: Tree, d: nat, id: nat, name: string, n: nat)
    requires d in t.nodes && n in t.nodes && d != n && t.nodes[d].kind.VDir? && !D.Full(t.nodes[d].dir)
    ensures Bytes(Attached(t, d, id, name, n)) == Bytes(t) + EntBytes(name)
  {
    var t' := Attached(t, d, id, name, n);
    Bytes2(t, d, t'.nodes[d], n, t'.nodes[n]);
    var es := t'.nodes[d].dir.entries;
    assert es[..|es| - 1] == t.nodes[d].dir.entries;
  }

  lemma DetachBytes(t: Tree, d: nat, k: nat)
    requires d in t.nodes && k < |t.nodes[d].dir.entries| && Leaving(t, d, k) in t.nodes && Leaving(t, d, k) != d
    requires t.nodes[d].kind.VDir?
    ensures Bytes(Detached(t, d, k)) == Bytes(t) - EntBytes(t.nodes[d].dir.entries[k].name)
  {
    var t' := Detached(t, d, k);
    Bytes2(t, d, t'.nodes[d], Leaving(t, d, k), t'.nodes[Leaving(t, d, k)]);
    ListBytesRemoved(t.nodes[d].dir.entries, k);
  }

  lemma RelinkBytes(t: Tree, n: nat)
    requires n in t.nodes
    ensures Bytes(DotDropped(t, n)) == Bytes(t)
  {
    TotalUpdate(t.nodes, n, DotDropped(t, n).nodes[n], NodeBytes);
  }

  lemma RenamedBytes(t: Tree, d: nat, k: nat, to: string)
    requires d in t.nodes && k < |t.nodes[d].dir.entries|
    ensures Bytes(RenamedEnt(t, d, k, to)) == Bytes(t) - RoundName(|t.nodes[d].dir.entries[k].name|) + RoundName(|to|)
  {
    TotalUpdate(t.nodes, d, RenamedEnt(t, d, k, to).nodes[d], NodeBytes);
    ListBytesRenamed(t.nodes[d].dir.entries, k, to);
  }

  lemma WithNodeBytes(t: Tree, n: nat, x: Node)
    requires n !in t.nodes
    ensures Bytes(WithNode(t, n, x)) == Bytes(t) + NodeBytes(x)
  {
    TotalUpdate(t.nodes, n, x, NodeBytes);
  }

  lemma WithoutNodeBytes(t: Tree, n: nat)
    requires n in t.nodes
    ensures Bytes(WithoutNode(t, n)) == Bytes(t) - NodeBytes(t.nodes[n])
  {
    TotalRemove(t.nodes, n, NodeBytes);
  }

  lemma BytesAtLeast(t: Tree, n: nat)
    requires n in t.nodes && forall m :: m in t.nodes ==> NodeBytes(t.nodes[m]) >= 0
    ensures Bytes(t) >= NodeBytes(t.nodes[n])
  {
    TotalAtLeast(t.nodes, n, NodeBytes);
  }
}
