/**
  One tmpfs directory: the list of entries in attach order, the sequence numbers that
  readdir uses as offsets, and the one-entry readdir cache.
*/
module TmpfsDir {
  import opened Prelude

  const DIRSEQ_DOT := 0
  const DIRSEQ_DOTDOT := 1
  const DIRSEQ_EOF := 2
  const DIRSEQ_START := 3
  const DIRSEQ_END := 0xFFFF_FFFF_FFFF_FFFF

  /** `id` identifies the entry object; hints and caches hold it as a pointer. */
  datatype Dirent = Dirent(id: nat, seqno: nat, name: string, node: nat)

  datatype Directory = Directory(entries: seq<Dirent>, nextSeq: nat, lastp: Option<nat>)

  const NoEntries := Directory([], DIRSEQ_START, None)

  predicate Full(d: Directory) {
    d.nextSeq == DIRSEQ_END
  }

  predicate HasId(es: seq<Dirent>, id: nat) {
    exists i :: 0 <= i < |es| && es[i].id == id
  }

  ghost predicate Ordered(es: seq<Dirent>) {
    forall i, j :: 0 <= i < j < |es| ==> es[i].seqno < es[j].seqno && es[i].id != es[j].id
  }

  /** Sequence numbers strictly increase along the list and stay below the next one to give out. */
  ghost predicate Ok(d: Directory) {
    DIRSEQ_START <= d.nextSeq <= DIRSEQ_END
    && (forall i :: 0 <= i < |d.entries| ==> DIRSEQ_START <= d.entries[i].seqno < d.nextSeq)
    && Ordered(d.entries)
    && (d.lastp.Some? ==> HasId(d.entries, d.lastp.value))
  }

  function IndexOf(es: seq<Dirent>, id: nat): (k: nat)
    requires HasId(es, id)
    ensures k < |es| && es[k].id == id && forall i :: 0 <= i < k ==> es[i].id != id
  {
    if es[0].id == id then 0
    else
      var i :| 0 <= i < |es| && es[i].id == id;
      assert es[1..][i - 1].id == id;
      IndexOf(es[1..], id) + 1
  }

  function Removed(es: seq<Dirent>, k: nat): seq<Dirent>
    requires k < |es|
  {
    es[..k] + es[k + 1..]
  }

  /** tmpfs_dir_getseq and the tail insertion of tmpfs_dir_attach. */
  function Attach(d: Directory, id: nat, name: string, node: nat): (d': Directory)
    requires !Full(d)
  {
    d.(entries := d.entries + [Dirent(id, d.nextSeq, name, node)], nextSeq := d.nextSeq + 1)
  }

  /** The list removal and tmpfs_dir_putseq of tmpfs_dir_detach. */
  function Detach(d: Directory, k: nat): (d': Directory)
    requires k < |d.entries|
  {
    var e := d.entries[k];
    var es := Removed(d.entries, k);
    Directory(es,
              if es == [] then DIRSEQ_START else if e.seqno == d.nextSeq - 1 then d.nextSeq - 1 else d.nextSeq,
              if d.lastp == Some(e.id) then None else d.lastp)
  }

  function Rename(d: Directory, k: nat, name: string): (d': Directory)
    requires k < |d.entries|
    ensures Ok(d) ==> Ok(d')
  {
    var d' := d.(entries := d.entries[k := d.entries[k].(name := name)]);
    assert forall i :: 0 <= i < |d.entries| ==> d'.entries[i].id == d.entries[i].id;
    assert forall i {:trigger d'.entries[i]} :: 0 <= i < |d.entries| ==> d'.entries[i].seqno == d.entries[i].seqno;
    assert forall id :: HasId(d.entries, id) ==> HasId(d'.entries, id) by {
      forall id | HasId(d.entries, id) ensures HasId(d'.entries, id) {
        assert d'.entries[IndexOf(d.entries, id)].id == id;
      }
    }
    d'
  }

  lemma AttachOk(d: Directory, id: nat, name: string, node: nat)
    requires Ok(d) && !Full(d) && !HasId(d.entries, id)
    ensures Ok(Attach(d, id, name, node))
  {
    var d' := Attach(d, id, name, node);
    if d.lastp.Some? {
      assert d'.entries[IndexOf(d.entries, d.lastp.value)].id == d.lastp.value;
    }
  }

  lemma RemovedOrdered(es: seq<Dirent>, k: nat)
    requires Ordered(es) && k < |es|
    ensures Ordered(Removed(es, k)) && !HasId(Removed(es, k), es[k].id)
  {
    var es' := Removed(es, k);
    assert forall i :: 0 <= i < |es'| ==> es'[i] == es[if i < k then i else i + 1];
  }

  lemma RemovedHas(es: seq<Dirent>, k: nat, id: nat)
    requires k < |es| && HasId(es, id) && es[k].id != id
    ensures HasId(Removed(es, k), id)
  {
    var i := IndexOf(es, id);
    assert Removed(es, k)[if i < k then i else i - 1].id == id;
  }

  /** Reusing a sequence number never disturbs the order: only the last entry's is given back. */
  lemma DetachOk(d: Directory, k: nat)
    requires Ok(d) && k < |d.entries|
    ensures Ok(Detach(d, k)) && !HasId(Detach(d, k).entries, d.entries[k].id)
  {
    var d' := Detach(d, k);
    RemovedOrdered(d.entries, k);
    assert forall i :: 0 <= i < |d'.entries| ==> d'.entries[i] == d.entries[if i < k then i else i + 1];
    assert k < |d.entries| - 1 ==> d.entries[k].seqno < d.entries[|d.entries| - 1].seqno;
    if d'.lastp.Some? { RemovedHas(d.entries, k, d.lastp.value); }
  }

  // ---------- lookups ----------

  /** The entry the linear scan of tmpfs_dir_lookup stops at. */
  function Lookup(es: seq<Dirent>, name: string): (r: Option<Dirent>)
    ensures r.Some? ==> r.value in es && r.value.name == name
    ensures r.None? ==> forall i :: 0 <= i < |es| ==> es[i].name != name
  {
    if es == [] then None
    else if es[0].name == name then Some(es[0])
    else Lookup(es[1..], name)
  }

  method DirLookup(d: Directory, name: string) returns (r: Option<Dirent>)
    ensures r == Lookup(d.entries, name)
  {
    var i := 0;
    while i < |d.entries|
      invariant i <= |d.entries|
      invariant Lookup(d.entries, name) == Lookup(d.entries[i..], name)
    {
      assert d.entries[i..][1..] == d.entries[i + 1..];
      if |d.entries[i].name| == |name| && d.entries[i].name == name {
        return Some(d.entries[i]);
      }
      i := i + 1;
    }
    return None;
  }

  ghost predicate NamesDistinct(es: seq<Dirent>) {
    forall i, j :: 0 <= i < j < |es| ==> es[i].name != es[j].name
  }

  /** With distinct names the scan finds exactly the entry that bears the name. */
  lemma {:induction false} LookupIs(es: seq<Dirent>, k: nat)
    requires NamesDistinct(es) && k < |es|
    ensures Lookup(es, es[k].name) == Some(es[k])
  {
    if k > 0 {
      assert es[0].name != es[k].name;
      assert es[1..][k - 1] == es[k];
      LookupIs(es[1..], k - 1);
    }
  }

  ghost predicate SeqAt(d: Directory, k: nat, seqno: nat) {
    k < |d.entries| && d.entries[k].seqno == seqno
  }

  /** tmpfs_dir_lookupbyseq: the cached entry if it matches, else a scan. */
  method LookupBySeq(d: Directory, seqno: nat) returns (k: nat)
    requires Ok(d)
    ensures k <= |d.entries|
    ensures k < |d.entries| ==> d.entries[k].seqno == seqno
    ensures k == |d.entries| ==> forall i :: 0 <= i < |d.entries| ==> d.entries[i].seqno != seqno
  {
    if d.lastp.Some? {
      k := IndexOf(d.entries, d.lastp.value);
      if d.entries[k].seqno == seqno { return; }
    }
    k := 0;
    while k < |d.entries|
      invariant k <= |d.entries|
      invariant forall i :: 0 <= i < k ==> d.entries[i].seqno != seqno
    {
      if d.entries[k].seqno == seqno { return; }
      k := k + 1;
    }
  }

  /** Whatever the cache holds, the answer is the one entry with that number. */
  lemma SeqUnique(d: Directory, k: nat, k': nat, seqno: nat)
    requires Ok(d) && SeqAt(d, k, seqno) && SeqAt(d, k', seqno)
    ensures k == k'
  {
  }

  // ---------- readdir ----------

  datatype Record = Dot | DotDot | Ent(e: Dirent)

  function Records(d: Directory): nat {
    2 + |d.entries|
  }

  /** The whole listing, record by record: the two virtual entries, then the list. */
  function RecordAt(d: Directory, p: nat): Record
    requires p < Records(d)
  {
    if p == 0 then Dot else if p == 1 then DotDot else Ent(d.entries[p - 2])
  }

  /** The offset that stands for "record number p is next". */
  function OffsetAt(d: Directory, p: nat): nat
    requires p <= Records(d)
  {
    if p == 0 then DIRSEQ_DOT else if p == 1 then DIRSEQ_DOTDOT
    else if p - 2 < |d.entries| then d.entries[p - 2].seqno else DIRSEQ_EOF
  }

  predicate HasSlash(name: string) {
    exists i :: 0 <= i < |name| && name[i] == '/'
  }

  function NameOf(r: Record): string {
    match r case Dot => "." case DotDot => ".." case Ent(e) => e.name
  }

  ghost predicate ValidOffset(d: Directory, offset: nat) {
    exists p: nat :: p <= Records(d) && offset == OffsetAt(d, p)
  }

  /** `out` is the part of the listing between the two offsets. */
  ghost predicate Stretch(d: Directory, offset: nat, out: seq<Record>, offset': nat, p: nat, p': nat) {
    p <= p' <= Records(d) && offset == OffsetAt(d, p) && offset' == OffsetAt(d, p')
    && |out| == p' - p && forall i :: 0 <= i < |out| ==> out[i] == RecordAt(d, p + i)
  }

  ghost predicate Movable(r: Record, resid: nat, moves: nat, reclen: string -> nat) {
    reclen(NameOf(r)) <= resid && moves > 0 && !HasSlash(NameOf(r))
  }

  /** A stretch from the offset on, with at least one record if the first can be moved. */
  ghost predicate Delivers(d: Directory, offset: nat, resid: nat, moves: nat, reclen: string -> nat,
                           out: seq<Record>, offset': nat) {
    exists p: nat, p': nat ::
      Stretch(d, offset, out, offset', p, p')
      && (p < Records(d) && Movable(RecordAt(d, p), resid, moves, reclen) ==> p < p')
  }

  datatype Outcome = Fine | Fault | Invalid

  /** tmpfs_dir_getdotents, for whichever of the two virtual entries are still due. */
  method GetDotEnts(d: Directory, offset: nat, resid: nat, moves: nat, reclen: string -> nat)
    returns (out: seq<Record>, offset': nat, left: nat, budget: nat, stop: bool, outcome: Outcome,
             ghost p: nat, ghost p': nat)
    requires offset == DIRSEQ_DOT || offset == DIRSEQ_DOTDOT
    ensures Stretch(d, offset, out, offset', p, p') && p < 2
    ensures if stop then p' < 2 else p' == 2 && outcome.Fine?
    ensures Movable(RecordAt(d, p), resid, moves, reclen) ==> p < p'
  {
    out, offset', left, budget, stop, outcome, p, p' := [], offset, resid, moves, true, Fine, offset, offset;
    if offset' == DIRSEQ_DOT {
      if reclen(".") > left { return; }
      if budget == 0 { outcome := Fault; return; }
      out, left, budget, offset', p' := out + [Dot], left - reclen("."), budget - 1, DIRSEQ_DOTDOT, 1;
    }
    if reclen("..") > left { return; }
    if budget == 0 { outcome := Fault; return; }
    out, left, budget, p' := out + [DotDot], left - reclen(".."), budget - 1, 2;
    offset' := if d.entries == [] then DIRSEQ_EOF else d.entries[0].seqno;
    stop := false;
  }

  /** The copying loop, from entry number `k` on. */
  method GetEntries(d: Directory, k: nat, resid: nat, moves: nat, reclen: string -> nat)
    returns (out: seq<Record>, k': nat, outcome: Outcome)
    requires k < |d.entries|
    ensures k <= k' <= |d.entries| && |out| == k' - k
    ensures forall i :: 0 <= i < |out| ==> out[i] == Ent(d.entries[k + i])
    ensures Movable(Ent(d.entries[k]), resid, moves, reclen) ==> k < k'
  {
    out, k', outcome := [], k, Fine;
    var left, budget := resid, moves;
    var more := true;
    while more
      invariant k <= k' <= |d.entries| && (more ==> k' < |d.entries|)
      invariant |out| == k' - k && forall i :: 0 <= i < |out| ==> out[i] == Ent(d.entries[k + i])
      invariant k == k' ==> more && left == resid && budget == moves
      decreases |d.entries| - k', more
    {
      var e := d.entries[k'];
      if HasSlash(e.name) { outcome := Invalid; break; }
      if reclen(e.name) > left { break; }
      if budget == 0 { outcome := Fault; break; }
      out, left, budget := out + [Ent(e)], left - reclen(e.name), budget - 1;
      k' := k' + 1;
      more := left > 0 && k' < |d.entries|;
    }
  }

  lemma StretchOn(d: Directory, offset: nat, out: seq<Record>, p: nat, k: nat, rest: seq<Record>, k': nat)
    requires p <= k + 2 && k <= k' <= |d.entries| && Stretch(d, offset, out, OffsetAt(d, k + 2), p, k + 2)
    requires |rest| == k' - k && forall i :: 0 <= i < |rest| ==> rest[i] == Ent(d.entries[k + i])
    ensures Stretch(d, offset, out + rest, OffsetAt(d, k' + 2), p, k' + 2)
  {
    forall i | 0 <= i < |out + rest| ensures (out + rest)[i] == RecordAt(d, p + i) {
      if i >= |out| { assert (out + rest)[i] == rest[i - |out|]; }
    }
  }

  lemma CacheOk(d: Directory, k: nat)
    requires Ok(d) && k <= |d.entries|
    ensures Ok(d.(lastp := if k < |d.entries| then Some(d.entries[k].id) else None))
  {
  }

  /**
    tmpfs_dir_getdents. `reclen` gives the size of a record, `moves` the number of
    copies to user space that succeed before one faults.
    The records handed out are exactly a stretch of the listing from the cursor on,
    and the new offset and cache stand for the record after it.
  */
  method GetDents(d: Directory, offset: nat, resid: nat, moves: nat, reclen: string -> nat)
    returns (out: seq<Record>, offset': nat, lastp': Option<nat>, outcome: Outcome, ghost p: nat, ghost p': nat)
    requires Ok(d)
    ensures Ok(d.(lastp := lastp'))
    ensures ValidOffset(d, offset) ==> Stretch(d, offset, out, offset', p, p')
    ensures ValidOffset(d, offset) && p < Records(d) && Movable(RecordAt(d, p), resid, moves, reclen) ==> p < p'
    ensures !ValidOffset(d, offset) ==> outcome.Invalid? && out == [] && offset' == offset && lastp' == d.lastp
  {
    out, offset', lastp', outcome, p, p' := [], offset, d.lastp, Fine, 0, 0;
    var left, budget := resid, moves;
    if offset == DIRSEQ_DOT || offset == DIRSEQ_DOTDOT {
      var stop;
      out, offset', left, budget, stop, outcome, p, p' := GetDotEnts(d, offset, resid, moves, reclen);
      assert ValidOffset(d, offset);
      if stop { return; }
    }
    if offset' == DIRSEQ_EOF {
      if offset == DIRSEQ_EOF {
        p, p' := Records(d), Records(d);
        assert offset == OffsetAt(d, p);
      }
      return;
    }
    var k := LookupBySeq(d, offset');
    if k == |d.entries| {
      RefusedExactly(d, offset);
      outcome := Invalid;
      return;
    }
    if offset > DIRSEQ_EOF { p := k + 2; }
    assert Stretch(d, offset, out, OffsetAt(d, k + 2), p, k + 2);
    out, offset', lastp', outcome, p' := CopyFrom(d, offset, out, k, left, budget, reclen, p);
  }

  /** The records from entry number `k` on, and the cursor and cache after them. */
  method CopyFrom(d: Directory, ghost offset: nat, dots: seq<Record>, k: nat, resid: nat, moves: nat,
                  reclen: string -> nat, ghost p: nat)
    returns (out: seq<Record>, offset': nat, lastp': Option<nat>, outcome: Outcome, ghost p': nat)
    requires Ok(d) && k < |d.entries| && p <= k + 2 && Stretch(d, offset, dots, OffsetAt(d, k + 2), p, k + 2)
    ensures Ok(d.(lastp := lastp')) && Stretch(d, offset, out, offset', p, p')
    ensures p' >= k + 2 && (Movable(Ent(d.entries[k]), resid, moves, reclen) ==> p' > k + 2)
  {
    var rest, k';
    rest, k', outcome := GetEntries(d, k, resid, moves, reclen);
    StretchOn(d, offset, dots, p, k, rest, k');
    CacheOk(d, k');
    out, p' := dots + rest, k' + 2;
    offset' := if k' < |d.entries| then d.entries[k'].seqno else DIRSEQ_EOF;
    lastp' := if k' < |d.entries| then Some(d.entries[k'].id) else None;
  }

  // ---------- a listing made of many calls ----------

  /** A listing in progress: the directory, the reader's offset, the records received so far. */
  datatype Reader = Reader(d: Directory, offset: nat, log: seq<Record>)

  /** Attach, detach, in-place rename, or a listing by somebody else, which moves the cache. */
  ghost predicate Edits(d: Directory, d': Directory) {
    (exists id, name, node :: !Full(d) && !HasId(d.entries, id) && d' == Attach(d, id, name, node))
    || (exists k :: 0 <= k < |d.entries| && d' == Detach(d, k))
    || (exists k, name :: 0 <= k < |d.entries| && d' == Rename(d, k, name))
    || (Ok(d') && d' == d.(lastp := d'.lastp))
  }

  /** Somebody else's doing; even the entry at the cursor may go. */
  ghost predicate Edited(r: Reader, r': Reader) {
    r'.offset == r.offset && r'.log == r.log && Edits(r.d, r'.d)
  }

  /** One getdents call, as GetDents promises it; an offset that stands for nothing is refused. */
  ghost predicate Called(r: Reader, r': Reader) {
    Ok(r'.d) && r'.d == r.d.(lastp := r'.d.lastp)
    && if ValidOffset(r.d, r.offset) then Advanced(r, r') else r'.offset == r.offset && r'.log == r.log
  }

  ghost predicate Advanced(r: Reader, r': Reader) {
    exists out, p: nat, p': nat :: Stretch(r.d, r.offset, out, r'.offset, p, p') && r'.log == r.log + out
  }

  ghost predicate IsListing(rs: seq<Reader>) {
    |rs| > 0 && Ok(rs[0].d) && rs[0].offset == DIRSEQ_DOT && rs[0].log == []
    && forall i :: 0 <= i < |rs| - 1 ==> Step(rs[i], rs[i + 1])
  }

  ghost predicate Step(r: Reader, r': Reader) {
    Edited(r, r') || Called(r, r')
  }

  function Rank(r: Record): nat {
    match r case Dot => 0 case DotDot => 1 case Ent(e) => e.seqno
  }

  /** Everything ranked below this has been listed. */
  function Bound(offset: nat): nat {
    if offset == DIRSEQ_EOF then DIRSEQ_END else offset
  }

  ghost predicate ReaderOk(r: Reader) {
    Ok(r.d)
    && (forall i :: 0 <= i < |r.log| ==> Rank(r.log[i]) < Bound(r.offset))
    && (forall i, j :: 0 <= i < j < |r.log| ==> Rank(r.log[i]) < Rank(r.log[j]))
  }

  /** An offset is refused exactly if it is none of the three fixed ones and no entry bears its number. */
  lemma RefusedExactly(d: Directory, offset: nat)
    ensures !ValidOffset(d, offset) <==> offset > DIRSEQ_EOF && forall k :: !SeqAt(d, k, offset)
  {
    if offset == DIRSEQ_DOT {
      assert offset == OffsetAt(d, 0);
    } else if offset == DIRSEQ_DOTDOT {
      assert offset == OffsetAt(d, 1);
    } else if offset == DIRSEQ_EOF {
      assert offset == OffsetAt(d, Records(d));
    } else if k: nat :| SeqAt(d, k, offset) {
      assert offset == OffsetAt(d, k + 2);
    } else {
      assert forall k :: 0 <= k < |d.entries| ==> SeqAt(d, k, d.entries[k].seqno);
    }
  }

  /** Detaching the entry at the cursor makes the offset refused, and no other detach does. */
  lemma DetachRefuses(d: Directory, k: nat, offset: nat)
    requires Ok(d) && k < |d.entries|
    ensures ValidOffset(Detach(d, k), offset) <==> ValidOffset(d, offset) && offset != d.entries[k].seqno
  {
    var d' := Detach(d, k);
    RefusedExactly(d, offset);
    RefusedExactly(d', offset);
    forall i: nat | SeqAt(d', i, offset)
      ensures SeqAt(d, if i < k then i else i + 1, offset) && offset != d.entries[k].seqno
    {
      if SeqAt(d, k, offset) { SeqUnique(d, k, if i < k then i else i + 1, offset); }
    }
    forall i: nat | SeqAt(d, i, offset) && i != k ensures SeqAt(d', if i < k then i else i - 1, offset) {}
  }

  /** Attaching accepts every offset that was accepted, and the number it gives out, reused or not. */
  lemma AttachAccepts(d: Directory, id: nat, name: string, node: nat, offset: nat)
    requires Ok(d) && !Full(d)
    ensures ValidOffset(Attach(d, id, name, node), offset) <==> ValidOffset(d, offset) || offset == d.nextSeq
  {
    var d' := Attach(d, id, name, node);
    RefusedExactly(d, offset);
    RefusedExactly(d', offset);
    assert SeqAt(d', |d.entries|, d.nextSeq);
    forall i: nat | SeqAt(d, i, offset) ensures SeqAt(d', i, offset) {}
    forall i: nat | SeqAt(d', i, offset) && i < |d.entries| ensures SeqAt(d, i, offset) {}
  }

  /** The last number given out is refused once its entry is gone, and accepted again after the next attach. */
  lemma CursorComesBack(d: Directory, id: nat, name: string, node: nat)
    requires Ok(d) && |d.entries| > 1 && d.entries[|d.entries| - 1].seqno == d.nextSeq - 1
    ensures var offset, d' := d.nextSeq - 1, Detach(d, |d.entries| - 1);
      ValidOffset(d, offset) && !ValidOffset(d', offset) && ValidOffset(Attach(d', id, name, node), offset)
  {
    var k := |d.entries| - 1;
    assert SeqAt(d, k, d.nextSeq - 1);
    RefusedExactly(d, d.nextSeq - 1);
    DetachRefuses(d, k, d.nextSeq - 1);
    DetachOk(d, k);
    AttachAccepts(Detach(d, k), id, name, node, d.nextSeq - 1);
  }

  lemma EditsOk(d: Directory, d': Directory)
    requires Ok(d) && Edits(d, d')
    ensures Ok(d')
  {
    if k :| 0 <= k < |d.entries| && d' == Detach(d, k) {
      DetachOk(d, k);
    } else if id, name, node :| !Full(d) && !HasId(d.entries, id) && d' == Attach(d, id, name, node) {
      AttachOk(d, id, name, node);
    }
  }

  lemma EditKeepsOk(r: Reader, r': Reader)
    requires ReaderOk(r) && Edited(r, r')
    ensures ReaderOk(r')
  {
    EditsOk(r.d, r'.d);
  }

  lemma StretchRanks(d: Directory, p: nat, q: nat)
    requires Ok(d) && p < q <= Records(d)
    ensures Rank(RecordAt(d, p)) == Bound(OffsetAt(d, p)) < Bound(OffsetAt(d, q))
  {
  }

  /** The records of one call come in rank order, from the old cursor up to the new one. */
  lemma StretchSorted(d: Directory, offset: nat, out: seq<Record>, offset': nat, p: nat, p': nat)
    requires Ok(d) && Stretch(d, offset, out, offset', p, p')
    ensures Bound(offset) <= Bound(offset')
    ensures forall i :: 0 <= i < |out| ==> Bound(offset) <= Rank(out[i]) < Bound(offset')
    ensures forall i, j :: 0 <= i < j < |out| ==> Rank(out[i]) < Rank(out[j])
  {
    forall i | 0 <= i < |out| ensures Bound(offset) <= Rank(out[i]) < Bound(offset') {
      StretchRanks(d, p + i, p');
      if i > 0 { StretchRanks(d, p, p + i); }
    }
    forall i, j | 0 <= i < j < |out| ensures Rank(out[i]) < Rank(out[j]) {
      StretchRanks(d, p + i, p + j);
      StretchRanks(d, p + j, p');
    }
    if p < p' { StretchRanks(d, p, p'); }
  }

  lemma CallKeepsOk(r: Reader, r': Reader)
    requires ReaderOk(r) && Called(r, r')
    ensures ReaderOk(r')
  {
    if ValidOffset(r.d, r.offset) {
      var out, p: nat, p': nat :| Stretch(r.d, r.offset, out, r'.offset, p, p') && r'.log == r.log + out;
      StretchSorted(r.d, r.offset, out, r'.offset, p, p');
    }
  }

  /** The log is in listing order without repetition, and stays behind the cursor. */
  lemma {:induction false} ListingInOrder(rs: seq<Reader>, i: nat)
    requires IsListing(rs) && i < |rs|
    ensures ReaderOk(rs[i])
  {
    if i == 0 {
      assert rs[0].offset == OffsetAt(rs[0].d, 0);
    } else {
      ListingInOrder(rs, i - 1);
      if Edited(rs[i - 1], rs[i]) { EditKeepsOk(rs[i - 1], rs[i]); } else { CallKeepsOk(rs[i - 1], rs[i]); }
    }
  }

  /** An entry object that kept its place in the directory from the start through state `i`. */
  ghost predicate Throughout(rs: seq<Reader>, i: nat, id: nat, seqno: nat)
    requires i < |rs|
  {
    forall j :: 0 <= j <= i ==> At(rs[j].d, id, seqno)
  }

  ghost predicate At(d: Directory, id: nat, seqno: nat) {
    exists k :: 0 <= k < |d.entries| && d.entries[k].id == id && d.entries[k].seqno == seqno
  }

  ghost predicate Logged(r: Reader, id: nat, seqno: nat) {
    exists j :: 0 <= j < |r.log| && r.log[j].Ent? && r.log[j].e.id == id && r.log[j].e.seqno == seqno
  }

  /** None skipped: what was there throughout and lies behind the cursor has been reported. */
  lemma {:induction false} NoneSkipped(rs: seq<Reader>, i: nat, id: nat, seqno: nat)
    requires IsListing(rs) && i < |rs| && Throughout(rs, i, id, seqno) && seqno < Bound(rs[i].offset)
    ensures Logged(rs[i], id, seqno)
  {
    ListingInOrder(rs, 0);
    assert At(rs[i].d, id, seqno);
    if i > 0 {
      ListingInOrder(rs, i - 1);
      assert At(rs[i - 1].d, id, seqno);
      if seqno < Bound(rs[i - 1].offset) { NoneSkipped(rs, i - 1, id, seqno); }
      StepReports(rs[i - 1], rs[i], id, seqno);
    }
  }

  lemma StepReports(r: Reader, r': Reader, id: nat, seqno: nat)
    requires ReaderOk(r) && Step(r, r') && At(r.d, id, seqno) && seqno < Bound(r'.offset)
    requires seqno < Bound(r.offset) ==> Logged(r, id, seqno)
    ensures Logged(r', id, seqno)
  {
    if Logged(r, id, seqno) {
      var j :| 0 <= j < |r.log| && r.log[j].Ent? && r.log[j].e.id == id && r.log[j].e.seqno == seqno;
      assert r'.log[j] == r.log[j];
    } else {
      var out, p: nat, p': nat :| Stretch(r.d, r.offset, out, r'.offset, p, p') && r'.log == r.log + out;
      var j := StretchReports(r.d, r.offset, out, r'.offset, p, p', id, seqno);
      assert r'.log[|r.log| + j] == out[j];
    }
  }

  /** A call hands out every entry whose number lies between its two offsets. */
  lemma StretchReports(d: Directory, offset: nat, out: seq<Record>, offset': nat, p: nat, p': nat, id: nat, seqno: nat)
    returns (j: nat)
    requires Ok(d) && Stretch(d, offset, out, offset', p, p') && At(d, id, seqno)
    requires Bound(offset) <= seqno < Bound(offset')
    ensures j < |out| && out[j].Ent? && out[j].e.id == id && out[j].e.seqno == seqno
  {
    var k: nat :| k < |d.entries| && d.entries[k].id == id && d.entries[k].seqno == seqno;
    BetweenOffsets(d, p, p', k);
    j := k + 2 - p;
    assert out[j] == RecordAt(d, p + j);
  }

  lemma BetweenOffsets(d: Directory, p: nat, p': nat, k: nat)
    requires Ok(d) && p <= Records(d) && p' <= Records(d) && k < |d.entries|
    requires Bound(OffsetAt(d, p)) <= d.entries[k].seqno < Bound(OffsetAt(d, p'))
    ensures p <= k + 2 < p'
  {
  }

  /** The entry has been reported, and no other report bears its number, whatever name it gives. */
  ghost predicate OnceIn(log: seq<Record>, id: nat, seqno: nat) {
    exists j ::
      0 <= j < |log| && log[j].Ent? && log[j].e.id == id && log[j].e.seqno == seqno
      && forall m :: 0 <= m < |log| && m != j && log[m].Ent? ==> log[m].e.seqno != seqno
  }

  /** End of directory is reached only after every lasting entry was reported, exactly once. */
  lemma CompleteAtEof(rs: seq<Reader>, i: nat, id: nat, seqno: nat)
    requires IsListing(rs) && i < |rs| && rs[i].offset == DIRSEQ_EOF && Throughout(rs, i, id, seqno)
    ensures OnceIn(rs[i].log, id, seqno)
  {
    ListingInOrder(rs, i);
    assert At(rs[i].d, id, seqno);
    NoneSkipped(rs, i, id, seqno);
    var j :| 0 <= j < |rs[i].log| && rs[i].log[j].Ent? && rs[i].log[j].e.id == id && rs[i].log[j].e.seqno == seqno;
    assert forall m :: 0 <= m < |rs[i].log| && m != j ==> Rank(rs[i].log[m]) != Rank(rs[i].log[j]);
  }

  // ---------- listings as they are made ----------

  /** A call with a buffer of `resid` bytes, or an edit by somebody else. */
  datatype Act =
    | Call(resid: nat, moves: nat)
    | AddEntry(id: nat, name: string, node: nat)
    | DropEntry(k: nat)
    | NameEntry(k: nat, name: string)

  /** The act can be carried out on this directory. */
  predicate Sensible(d: Directory, act: Act) {
    match act
    case Call(_, _) => true
    case AddEntry(id, _, _) => !Full(d) && !HasId(d.entries, id)
    case DropEntry(k) => k < |d.entries|
    case NameEntry(k, _) => k < |d.entries|
  }

  /** What the act makes of a listing in progress. */
  ghost predicate Acted(r: Reader, act: Act, reclen: string -> nat, r': Reader) {
    if !Sensible(r.d, act) then r' == r
    else
      match act
      case Call(resid, moves) =>
        Called(r, r') && r.log <= r'.log
        && (ValidOffset(r.d, r.offset) ==>
              Delivers(r.d, r.offset, resid, moves, reclen, r'.log[|r.log|..], r'.offset))
      case AddEntry(id, name, node) => r' == r.(d := Attach(r.d, id, name, node))
      case DropEntry(k) => r' == r.(d := Detach(r.d, k))
      case NameEntry(k, name) => r' == r.(d := Rename(r.d, k, name))
  }

  /** One call or one edit; edits that make no sense are skipped. */
  method Do(r: Reader, act: Act, reclen: string -> nat) returns (r': Reader)
    requires Ok(r.d)
    ensures Acted(r, act, reclen, r') && Ok(r'.d)
  {
    r' := r;
    if !Sensible(r.d, act) { return; }
    match act {
      case Call(resid, moves) =>
        ghost var p, p';
        var out, offset, lastp, outcome;
        out, offset, lastp, outcome, p, p' := GetDents(r.d, r.offset, resid, moves, reclen);
        r' := Reader(r.d.(lastp := lastp), offset, r.log + out);
        assert r'.log[|r.log|..] == out;
      case AddEntry(id, name, node) =>
        AttachOk(r.d, id, name, node);
        r' := r.(d := Attach(r.d, id, name, node));
      case DropEntry(k) =>
        DetachOk(r.d, k);
        r' := r.(d := Detach(r.d, k));
      case NameEntry(k, name) =>
        r' := r.(d := Rename(r.d, k, name));
    }
  }

  lemma ActIsStep(r: Reader, act: Act, reclen: string -> nat, r': Reader)
    requires Acted(r, act, reclen, r') && Ok(r.d) && Ok(r'.d)
    ensures Step(r, r')
  {
    if !Sensible(r.d, act) { assert r'.d == r.d.(lastp := r'.d.lastp); }
  }

  /** Any calls and edits make a listing, so all of the above holds of it: act `i` leads to reader `i` + 1. */
  method List(d: Directory, acts: seq<Act>, reclen: string -> nat) returns (rs: seq<Reader>)
    requires Ok(d)
    ensures IsListing(rs) && rs[0] == Reader(d, DIRSEQ_DOT, []) && |rs| == |acts| + 1
    ensures forall i :: 0 <= i < |acts| ==> Acted(rs[i], acts[i], reclen, rs[i + 1])
    ensures forall i :: 0 <= i < |rs| ==> ReaderOk(rs[i])
  {
    rs := [Reader(d, DIRSEQ_DOT, [])];
    for i := 0 to |acts|
      invariant |rs| == i + 1 && rs[0] == Reader(d, DIRSEQ_DOT, []) && IsListing(rs) && Ok(rs[i].d)
      invariant forall k :: 0 <= k < i ==> Acted(rs[k], acts[k], reclen, rs[k + 1])
    {
      var r := Do(rs[i], acts[i], reclen);
      ActIsStep(rs[i], acts[i], reclen, r);
      rs := rs + [r];
    }
    forall i | 0 <= i < |rs| ensures ReaderOk(rs[i]) { ListingInOrder(rs, i); }
  }

  // ---------- what an operation of the file system does to a directory ----------

  ghost predicate Edits01(d: Directory, d': Directory) {
    d' == d || Edits(d, d')
  }

  /** At most three edits; an entry that is there before and after is there in between. */
  ghost predicate Evolves(d: Directory, d': Directory) {
    exists d1, d2 :: Through(d, d1, d2, d')
  }

  ghost predicate Through(d: Directory, d1: Directory, d2: Directory, d': Directory) {
    Edits01(d, d1) && Edits01(d1, d2) && Edits01(d2, d')
    && forall id, seqno :: At(d, id, seqno) && At(d', id, seqno) ==> At(d1, id, seqno) && At(d2, id, seqno)
  }

  lemma EvolvesByOne(d: Directory, d': Directory)
    requires Edits01(d, d')
    ensures Evolves(d, d')
  {
    assert Through(d, d, d, d');
  }

  /** A name change moves no entry. */
  lemma RenameAt(d: Directory, k: nat, name: string, id: nat, seqno: nat)
    requires k < |d.entries|
    ensures At(Rename(d, k, name), id, seqno) <==> At(d, id, seqno)
  {
    var d' := Rename(d, k, name);
    assert forall i :: 0 <= i < |d.entries| ==>
      d'.entries[i].id == d.entries[i].id && d'.entries[i].seqno == d.entries[i].seqno;
  }

  lemma AttachAt(d: Directory, id: nat, name: string, node: nat, i: nat, seqno: nat)
    requires !Full(d) && At(d, i, seqno)
    ensures At(Attach(d, id, name, node), i, seqno)
  {
    var k :| 0 <= k < |d.entries| && d.entries[k].id == i && d.entries[k].seqno == seqno;
    assert Attach(d, id, name, node).entries[k] == d.entries[k];
  }

  /** An entry moved in, perhaps one taken out, and the new one renamed. */
  lemma EvolvesByMove(d: Directory, id: nat, name: string, node: nat, kt: Option<nat>, k: nat, to: string)
    requires !Full(d) && !HasId(d.entries, id)
    requires kt.Some? ==> kt.value < |Attach(d, id, name, node).entries|
    requires var d1 := Attach(d, id, name, node);
      k < |(if kt.Some? then Detach(d1, kt.value) else d1).entries|
    ensures var d1 := Attach(d, id, name, node);
      Evolves(d, Rename(if kt.Some? then Detach(d1, kt.value) else d1, k, to))
  {
    var d1 := Attach(d, id, name, node);
    var d2 := if kt.Some? then Detach(d1, kt.value) else d1;
    var d' := Rename(d2, k, to);
    forall i, seqno | At(d, i, seqno) && At(d', i, seqno) ensures At(d1, i, seqno) && At(d2, i, seqno) {
      AttachAt(d, id, name, node, i, seqno);
      RenameAt(d2, k, to, i, seqno);
    }
    assert Edits(d, d1) && Edits01(d1, d2) && Edits(d2, d');
    assert Through(d, d1, d2, d');
  }

  /** Perhaps an entry taken out, and another one renamed. */
  lemma EvolvesByRename(d: Directory, kt: Option<nat>, k: nat, to: string)
    requires kt.Some? ==> kt.value < |d.entries|
    requires k < |(if kt.Some? then Detach(d, kt.value) else d).entries|
    ensures Evolves(d, Rename(if kt.Some? then Detach(d, kt.value) else d, k, to))
  {
    var d1 := if kt.Some? then Detach(d, kt.value) else d;
    var d' := Rename(d1, k, to);
    forall i, seqno | At(d, i, seqno) && At(d', i, seqno) ensures At(d1, i, seqno) { RenameAt(d1, k, to, i, seqno); }
    assert Edits01(d, d1) && Edits(d1, d');
    assert Through(d, d1, d1, d');
  }

  lemma ListingPlus(rs: seq<Reader>, r: Reader)
    requires IsListing(rs) && Step(rs[|rs| - 1], r)
    ensures IsListing(rs + [r])
    ensures forall id, seqno :: Throughout(rs, |rs| - 1, id, seqno) && At(r.d, id, seqno) ==>
      Throughout(rs + [r], |rs|, id, seqno)
  {
    var rs' := rs + [r];
    forall i | 0 <= i < |rs'| - 1 ensures Step(rs'[i], rs'[i + 1]) {
      if i < |rs| - 1 { assert Step(rs[i], rs[i + 1]); }
    }
    forall id, seqno | Throughout(rs, |rs| - 1, id, seqno) && At(r.d, id, seqno)
      ensures Throughout(rs', |rs|, id, seqno)
    {
      forall j | 0 <= j < |rs'| ensures At(rs'[j].d, id, seqno) {
        if j < |rs| { assert At(rs[j].d, id, seqno); }
      }
    }
  }

  /** A listing goes on over what an operation did to the directory, and misses no entry that lasted. */
  lemma ListingGoesOn(rs: seq<Reader>, d': Directory) returns (rs': seq<Reader>)
    requires IsListing(rs) && Evolves(rs[|rs| - 1].d, d')
    ensures IsListing(rs') && rs'[|rs'| - 1] == rs[|rs| - 1].(d := d')
    ensures forall id, seqno :: Throughout(rs, |rs| - 1, id, seqno) && At(d', id, seqno) ==>
      Throughout(rs', |rs'| - 1, id, seqno)
  {
    var r := rs[|rs| - 1];
    ListingInOrder(rs, |rs| - 1);
    var d1, d2 :| Through(r.d, d1, d2, d');
    StepOver(r, d1);
    ListingPlus(rs, r.(d := d1));
    var rs1 := rs + [r.(d := d1)];
    StepOver(r.(d := d1), d2);
    ListingPlus(rs1, r.(d := d2));
    var rs2 := rs1 + [r.(d := d2)];
    StepOver(r.(d := d2), d');
    ListingPlus(rs2, r.(d := d'));
    rs' := rs2 + [r.(d := d')];
    forall id, seqno | Throughout(rs, |rs| - 1, id, seqno) && At(d', id, seqno)
      ensures Throughout(rs', |rs'| - 1, id, seqno)
    {
      assert At(rs[|rs| - 1].d, id, seqno);
    }
  }

  lemma StepOver(r: Reader, d': Directory)
    requires Ok(r.d) && Edits01(r.d, d')
    ensures Step(r, r.(d := d')) && Ok(d')
  {
    if d' == r.d {
      assert Edits(r.d, d');
    } else {
      EditsOk(r.d, d');
    }
  }
}
