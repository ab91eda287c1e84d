/**
  Runs of a mount: any list of operations, from mounting to unmounting. What a run does to
  names, and what a reader who lists a directory meanwhile gets to see.
*/
module TmpfsRuns {
  import opened Prelude
  import opened Sums
  import opened TmpfsTree
  import opened TmpfsNames
  import opened TmpfsMem
  import opened TmpfsBill
  import opened TmpfsEdits
  import opened TmpfsMount
  import D = TmpfsDir

  datatype Op =
    | Create(d: nat, name: string, kind: Kind, len: nat, aobjOk: bool, vnodeOk: bool)
    | HardLink(d: nat, n: nat, name: string)
    | Unlink(d: nat, name: string)
    | RemoveDir(d: nat, name: string)
    | Move(fd: nat, from: Component, td: nat, to: Component, lk: Lookups, permitted: bool)
    | Truncate(n: nat, size: nat, growOk: bool)
    | ChangeFlags(n: nat, flags: Flags, readonly: bool, owner: bool, super: bool, secure: bool)
    | List(n: nat, offset: nat, resid: nat, moves: nat)
    | Forget(n: nat)

  datatype Answer = Done(err: Errno) | Listed(outcome: D.Outcome, out: seq<D.Record>, next: nat)

  predicate IsDir(t: Tree, d: nat) {
    d in t.nodes && t.nodes[d].kind.VDir?
  }

  /** What the layer above guarantees about an operation it passes down. */
  predicate Admissible(t: Tree, op: Op) {
    match op
    case Create(d, name, _, _, _, _) => IsDir(t, d) && Bind(t, d, name).None?
    case HardLink(d, n, name) => IsDir(t, d) && Bind(t, d, name).None? && n in t.nodes && !IsDir(t, n)
    case Unlink(d, _) => IsDir(t, d)
    case RemoveDir(d, _) => IsDir(t, d)
    case Move(fd, from, td, to, _, _) => IsDir(t, fd) && IsDir(t, td) && WellFormed(from) && WellFormed(to)
    case Truncate(n, _, _) => n in t.nodes && t.nodes[n].kind.VReg?
    case ChangeFlags(n, _, _, _, _, _) => n in t.nodes
    case List(n, _, _, _) => IsDir(t, n)
    case Forget(n) => n in t.nodes
  }

  /** The one operation that can leave a mount unsound. */
  predicate IntoRemoved(t: Tree, op: Op) {
    op.HardLink? && IsDir(t, op.d) && t.nodes[op.d].parent.None?
  }

  /** The operation is about this name. */
  predicate Names(op: Op, d: nat, name: string) {
    match op
    case Create(c, nm, _, _, _, _) => c == d && nm == name
    case HardLink(c, _, nm) => c == d && nm == name
    case Unlink(c, nm) => c == d && nm == name
    case RemoveDir(c, nm) => c == d && nm == name
    case Move(fd, from, td, to, _, _) =>
      WellFormed(from) && WellFormed(to) && ((fd == d && Name(from) == name) || (td == d && Name(to) == name))
    case _ => false
  }

  /** Node `n` is new and bound to (d, name). */
  ghost predicate Created(t: Tree, t': Tree, d: nat, name: string, kind: Kind, n: nat) {
    n !in t.nodes && n in t'.nodes && t'.nodes[n].kind == kind && t'.nodes[n].dir == D.NoEntries
    && (kind.VReg? ==> t'.nodes[n].size == 0)
    && t'.nodes.Keys == t.nodes.Keys + {n} && TreeSteps(t, t') && Bind(t', d, name) == Some(n)
  }

  /** The memory and the nodes a mount can have, and the size of a record in a listing. */
  datatype Limits = Limits(capacity: int, nodesMax: nat, reclen: string -> nat)

  /** Exactly the operations that succeed. */
  ghost predicate Goes(op: Op, lim: Limits, t: Tree)
    requires Admissible(t, op)
  {
    var room := lim.capacity - Bytes(t);
    match op
    case Create(d, name, kind, len, aobjOk, vnodeOk) =>
      !(kind.VDir? && t.nodes[d].links == LINK_MAX) && t.nodes[d].links != 0 && !D.Full(t.nodes[d].dir)
      && |t.nodes| < lim.nodesMax && room >= NodeBytes(FreshNode(kind, len)) + EntBytes(name)
      && (kind.VReg? ==> aobjOk) && vnodeOk
    case HardLink(d, n, name) =>
      t.nodes[n].links != LINK_MAX && !Frozen(t.nodes[n]) && !D.Full(t.nodes[d].dir) && room >= EntBytes(name)
    case Unlink(d, name) => MayRemove(t, d, name, false)
    case RemoveDir(d, name) => MayRemove(t, d, name, true)
    case Move(fd, from, td, to, lk, permitted) =>
      MayRename(t, fd, Name(from), td, Name(to), lk, permitted)
      && (StrnameNeqlen(from, to) ==> room >= RoundName(to.len))
    case Truncate(n, size, growOk) =>
      var more := RoundPage(size) - t.nodes[n].pages * PAGE_SIZE;
      more <= 0 || (room >= more && growOk)
    case ChangeFlags(n, flags, readonly, owner, super, secure) =>
      !readonly && (if super then !(SystemFlagged(t.nodes[n]) && secure)
                    else owner && !SystemFlagged(t.nodes[n]) && !flags.sysImmutable && !flags.sysAppend)
    case List(_, _, _, _) => true
    case Forget(_) => true
  }

  /** What a listing answers: nothing from a removed directory, a refusal, or a stretch from the offset on. */
  ghost predicate ListAnswer(x: Node, op: Op, reclen: string -> nat, a: Answer)
    requires op.List?
  {
    a.Listed?
    && if x.links == 0 then a == Listed(D.Fine, [], op.offset)
       else if !D.ValidOffset(x.dir, op.offset) then a == Listed(D.Invalid, [], op.offset)
       else D.Delivers(x.dir, op.offset, op.resid, op.moves, reclen, a.out, a.next)
  }

  /** What the operation does to the graph when it succeeds. */
  ghost predicate Succeeds(op: Op, t: Tree, t': Tree)
    requires Admissible(t, op)
  {
    match op
    case Create(d, name, kind, _, _, _) => exists n :: Created(t, t', d, name, kind, n)
    case HardLink(d, n, name) => Rearranged(t, t') && Bind(t', d, name) == Some(n)
    case Unlink(d, name) => Unbound(t, t', d, name)
    case RemoveDir(d, name) => Unbound(t, t', d, name)
    case Move(fd, from, td, to, _, _) => Renamed(t, t', fd, Name(from), td, Name(to))
    case Truncate(n, size, _) =>
      t'.nodes == t.nodes[n := t.nodes[n].(size := size, pages := RoundPage(size) / PAGE_SIZE)]
    case ChangeFlags(n, flags, _, _, _, _) => t'.nodes == t.nodes[n := t.nodes[n].(flags := flags)]
    case List(n, _, _, _) => CacheMoved(t, t', n)
    case Forget(n) => t'.nodes == if t.nodes[n].links == 0 then t.nodes - {n} else t.nodes
  }

  /** One operation: exactly when it succeeds; names it is not about stay bound; a failure changes no node. */
  ghost predicate Effect(op: Op, lim: Limits, a: Answer, t: Tree, t': Tree)
    requires Admissible(t, op)
  {
    t'.root == t.root
    && (forall d, name :: !Names(op, d, name) ==> Bind(t', d, name) == Bind(t, d, name))
    && (op.List? ==> Succeeds(op, t, t') && ListAnswer(t.nodes[op.n], op, lim.reclen, a))
    && (!op.List? ==>
          a.Done? && (a.err.OK? <==> Goes(op, lim, t))
          && if a.err.OK? then Succeeds(op, t, t') else t'.nodes == t.nodes)
  }

  ghost function LimitsOf(m: Mount, reclen: string -> nat): Limits
    reads m, m.pool
    requires m.me in m.pool.mounts
  {
    Limits(m.Capacity(), m.nodesMax, reclen)
  }

  /** Every operation, succeeding or failing, keeps the mount's invariants, links into removed directories aside. */
  method Perform(m: Mount, op: Op, reclen: string -> nat) returns (a: Answer)
    requires m.Valid() && Admissible(m.T(), op)
    modifies m, m.pool
    ensures m.OnlyMine() && m.Billed(0)
    ensures Effect(op, old(LimitsOf(m, reclen)), a, old(m.T()), m.T())
    ensures m.Valid() <==> !(IntoRemoved(old(m.T()), op) && a == Done(OK))
  {
    match op {
      case Create(_, _, _, _, _, _) => a := PerformCreate(m, op, reclen);
      case HardLink(_, _, _) => a := PerformLink(m, op, reclen);
      case Unlink(_, _) => a := PerformUnlink(m, op, reclen);
      case RemoveDir(_, _) => a := PerformRmdir(m, op, reclen);
      case Move(_, _, _, _, _, _) => a := PerformMove(m, op, reclen);
      case Truncate(_, _, _) => a := PerformTruncate(m, op, reclen);
      case ChangeFlags(_, _, _, _, _, _) => a := PerformChange(m, op, reclen);
      case List(_, _, _, _) => a := PerformList(m, op, reclen);
      case Forget(_) => a := PerformChange(m, op, reclen);
    }
  }

  method PerformCreate(m: Mount, op: Op, ghost reclen: string -> nat) returns (a: Answer)
    requires m.Valid() && op.Create? && Admissible(m.T(), op)
    modifies m, m.pool
    ensures m.OnlyMine() && m.Valid()
    ensures Effect(op, old(LimitsOf(m, reclen)), a, old(m.T()), m.T())
  {
    m.RoomIs();
    var err, n := m.AllocFile(op.d, op.name, op.kind, op.len, op.aobjOk, op.vnodeOk);
    a := Done(err);
    if err.OK? {
      ghost var t := old(m.T());
      CreatedSteps(t, op.d, n, op.kind, op.len, op.name);
      CreatedNodes(t, op.d, n, op.kind, op.len, t.nextDe, op.name);
      assert Created(t, m.T(), op.d, op.name, op.kind, n);
    }
  }

  method PerformUnlink(m: Mount, op: Op, ghost reclen: string -> nat) returns (a: Answer)
    requires m.Valid() && op.Unlink? && Admissible(m.T(), op)
    modifies m, m.pool
    ensures m.OnlyMine() && m.Valid()
    ensures Effect(op, old(LimitsOf(m, reclen)), a, old(m.T()), m.T())
  {
    ghost var t := m.T();
    var err;
    ghost var k;
    err, k := m.Remove(op.d, op.name);
    a := Done(err);
    if err.OK? { RemovedSteps(t, op.d, k); }
  }

  method PerformRmdir(m: Mount, op: Op, ghost reclen: string -> nat) returns (a: Answer)
    requires m.Valid() && op.RemoveDir? && Admissible(m.T(), op)
    modifies m, m.pool
    ensures m.OnlyMine() && m.Valid()
    ensures Effect(op, old(LimitsOf(m, reclen)), a, old(m.T()), m.T())
  {
    ghost var t := m.T();
    var err;
    ghost var k;
    err, k := m.Rmdir(op.d, op.name);
    a := Done(err);
    if err.OK? { RemovedSteps(t, op.d, k); }
  }

  lemma RemovedSteps(t: Tree, d: nat, k: nat)
    requires Inv(t, {}) && IsDir(t, d) && k < |t.nodes[d].dir.entries|
    ensures Leaving(t, d, k) in t.nodes && Rearranged(t, TargetRemoved(t, d, Some(k)))
  {
    DetachAssertions(t, {}, d, k);
    RemoveSteps(t, d, k);
  }

  method PerformLink(m: Mount, op: Op, ghost reclen: string -> nat) returns (a: Answer)
    requires m.Valid() && op.HardLink? && Admissible(m.T(), op)
    modifies m, m.pool
    ensures m.OnlyMine() && m.Billed(0)
    ensures Effect(op, old(LimitsOf(m, reclen)), a, old(m.T()), m.T())
    ensures m.Valid() <==> !(IntoRemoved(old(m.T()), op) && a == Done(OK))
  {
    m.RoomIs();
    var err := m.Link(op.d, op.n, op.name);
    a := Done(err);
  }

  method PerformMove(m: Mount, op: Op, ghost reclen: string -> nat) returns (a: Answer)
    requires m.Valid() && op.Move? && Admissible(m.T(), op)
    modifies m, m.pool
    ensures m.OnlyMine() && m.Valid()
    ensures Effect(op, old(LimitsOf(m, reclen)), a, old(m.T()), m.T())
  {
    m.RoomIs();
    var err := m.Rename(op.fd, op.from, op.td, op.to, op.lk, op.permitted);
    a := Done(err);
  }

  method PerformTruncate(m: Mount, op: Op, ghost reclen: string -> nat) returns (a: Answer)
    requires m.Valid() && op.Truncate? && Admissible(m.T(), op)
    modifies m, m.pool
    ensures m.OnlyMine() && m.Valid()
    ensures Effect(op, old(LimitsOf(m, reclen)), a, old(m.T()), m.T())
  {
    m.RoomIs();
    var err := m.Resize(op.n, op.size, op.growOk);
    a := Done(err);
  }

  method PerformChange(m: Mount, op: Op, ghost reclen: string -> nat) returns (a: Answer)
    requires m.Valid() && (op.ChangeFlags? || op.Forget?) && Admissible(m.T(), op)
    modifies m, m.pool
    ensures m.OnlyMine() && m.Valid()
    ensures Effect(op, old(LimitsOf(m, reclen)), a, old(m.T()), m.T())
  {
    var err := OK;
    if op.ChangeFlags? {
      err := m.SetFlags(op.n, op.flags, op.readonly, op.owner, op.super, op.secure);
    } else {
      m.Reclaim(op.n);
    }
    a := Done(err);
  }

  method PerformList(m: Mount, op: Op, reclen: string -> nat) returns (a: Answer)
    requires m.Valid() && op.List? && Admissible(m.T(), op)
    modifies m
    ensures m.OnlyMine() && m.Valid()
    ensures Effect(op, old(LimitsOf(m, reclen)), a, old(m.T()), m.T())
  {
    var out, next, outcome := m.Readdir(op.n, op.offset, op.resid, op.moves, reclen);
    a := Listed(outcome, out, next);
  }

  // ---------- runs ----------

  /** Operations without sense in the state they meet are not passed down, nor are links into removed directories. */
  predicate Passed(t: Tree, op: Op) {
    Admissible(t, op) && !IntoRemoved(t, op)
  }

  ghost predicate StepAt(ts: seq<Tree>, ops: seq<Op>, lim: Limits, answers: seq<Option<Answer>>, i: nat)
    requires |ts| == |ops| + 1 && |answers| == |ops| && i < |ops|
  {
    if Passed(ts[i], ops[i]) then answers[i].Some? && Effect(ops[i], lim, answers[i].value, ts[i], ts[i + 1])
    else answers[i].None? && ts[i + 1] == ts[i]
  }

  ghost predicate SoundAt(ts: seq<Tree>, i: nat)
    requires i < |ts|
  {
    Inv(ts[i], {}) && NamesOk(ts[i])
  }

  /** Operation `i` meets state `i`; every state is sound. */
  ghost predicate IsTrace(ts: seq<Tree>, ops: seq<Op>, lim: Limits, answers: seq<Option<Answer>>) {
    |ts| == |ops| + 1 && |answers| == |ops| && (forall i :: 0 <= i < |ts| ==> SoundAt(ts, i))
    && forall i :: 0 <= i < |ops| ==> StepAt(ts, ops, lim, answers, i)
  }

  /**
    The whole life of a mount: opened on any pool, put through any operations, and closed again.
    It ends with the pool as it was, however the operations went.
  */
  method Life(pool: Pool, id: nat, sizeMax: nat, nodesMax: nat, ops: seq<Op>, reclen: string -> nat)
    returns (r: MountOutcome, ghost ts: seq<Tree>, answers: seq<Option<Answer>>)
    requires pool.Valid() && id !in pool.mounts
    modifies pool
    ensures r.Refused? <==> sizeMax != 0 && pool.limit - old(pool.used) < RoundPage(sizeMax)
    ensures r.AssertionFails? <==> sizeMax == 0 && pool.limit - old(pool.used) < NODE_BYTES
    ensures !r.AssertionFails? ==> pool.Valid() && pool.mounts == old(pool.mounts) && pool.used == old(pool.used)
    ensures r.Mounted? ==> r.m.nodes == map[]
    ensures r.Mounted? ==>
      var capacity := if sizeMax != 0 then RoundPage(sizeMax) else pool.limit - old(pool.used);
      IsTrace(ts, ops, Limits(capacity, NodeLimit(RoundPage(sizeMax), nodesMax), reclen), answers)
    ensures r.Mounted? ==> ts[0].nodes == map[r.m.root := RootNode(r.m.root)] && ts[0].root == r.m.root
  {
    ts, answers := [], [];
    r := MountFs(pool, id, sizeMax, nodesMax);
    if !r.Mounted? { return; }
    ts, answers := RunAll(r.m, ops, reclen);
    r.m.Unmount();
  }

  /** Any list of operations makes a run. */
  method RunAll(m: Mount, ops: seq<Op>, reclen: string -> nat)
    returns (ghost ts: seq<Tree>, answers: seq<Option<Answer>>)
    requires m.Valid()
    modifies m, m.pool
    ensures m.Valid() && m.OnlyMine() && IsTrace(ts, ops, old(LimitsOf(m, reclen)), answers)
    ensures ts[0] == old(m.T()) && ts[|ops|] == m.T()
  {
    ghost var lim := LimitsOf(m, reclen);
    ts, answers := [m.T()], [];
    for i := 0 to |ops|
      invariant m.Valid() && m.OnlyMine() && LimitsOf(m, reclen) == lim && IsTrace(ts, ops[..i], lim, answers)
      invariant ts[0] == old(m.T()) && ts[i] == m.T()
    {
      var a: Option<Answer> := None;
      if Passed(m.T(), ops[i]) {
        var b := Perform(m, ops[i], reclen);
        a := Some(b);
      }
      ExtendTrace(ts, ops, lim, answers, i, a, m.T());
      ts, answers := ts + [m.T()], answers + [a];
    }
    assert ops[..|ops|] == ops;
  }

  lemma ExtendTrace(ts: seq<Tree>, ops: seq<Op>, lim: Limits, answers: seq<Option<Answer>>, i: nat, a: Option<Answer>,
                    t: Tree)
    requires i < |ops| && IsTrace(ts, ops[..i], lim, answers) && Inv(t, {}) && NamesOk(t)
    requires if Passed(ts[i], ops[i]) then a.Some? && Effect(ops[i], lim, a.value, ts[i], t) else a.None? && t == ts[i]
    ensures IsTrace(ts + [t], ops[..i + 1], lim, answers + [a])
  {
    var ts', ops', as' := ts + [t], ops[..i + 1], answers + [a];
    forall k | 0 <= k < |ts'| ensures SoundAt(ts', k) {
      if k < |ts| { assert SoundAt(ts, k); }
    }
    forall k | 0 <= k < |ops'| ensures StepAt(ts', ops', lim, as', k) {
      if k < i { assert StepAt(ts, ops[..i], lim, answers, k); }
    }
  }

  // ---------- names over runs ----------

  /** A name stays bound to what it is bound to, or unbound, until an operation is about it. */
  lemma {:induction false} NameKept(ts: seq<Tree>, ops: seq<Op>, lim: Limits, answers: seq<Option<Answer>>, i: nat,
                                    j: nat, d: nat, name: string)
    requires IsTrace(ts, ops, lim, answers) && i <= j <= |ops| && forall k :: i <= k < j ==> !Names(ops[k], d, name)
    ensures Bind(ts[j], d, name) == Bind(ts[i], d, name)
  {
    if i < j {
      NameKept(ts, ops, lim, answers, i, j - 1, d, name);
      assert StepAt(ts, ops, lim, answers, j - 1);
    }
  }

  /** What was created is found under its name until an operation is about that name. */
  lemma FoundAfterCreate(ts: seq<Tree>, ops: seq<Op>, lim: Limits, answers: seq<Option<Answer>>, i: nat, j: nat)
    returns (n: nat)
    requires IsTrace(ts, ops, lim, answers) && i < j <= |ops| && ops[i].Create? && answers[i] == Some(Done(OK))
    requires forall k :: i < k < j ==> !Names(ops[k], ops[i].d, ops[i].name)
    ensures n !in ts[i].nodes && Bind(ts[j], ops[i].d, ops[i].name) == Some(n)
  {
    assert StepAt(ts, ops, lim, answers, i);
    n :| Created(ts[i], ts[i + 1], ops[i].d, ops[i].name, ops[i].kind, n);
    NameKept(ts, ops, lim, answers, i + 1, j, ops[i].d, ops[i].name);
  }

  /** What was moved is found under its new name, and not under the old one unless that is the same, until then. */
  lemma FoundAfterMove(ts: seq<Tree>, ops: seq<Op>, lim: Limits, answers: seq<Option<Answer>>, i: nat, j: nat)
    requires IsTrace(ts, ops, lim, answers) && i < j <= |ops| && ops[i].Move? && answers[i] == Some(Done(OK))
    requires Passed(ts[i], ops[i])
    requires var op := ops[i];
      forall k :: i < k < j ==> !Names(ops[k], op.fd, Name(op.from)) && !Names(ops[k], op.td, Name(op.to))
    ensures var op := ops[i];
      Bind(ts[j], op.td, Name(op.to)) == Bind(ts[i], op.fd, Name(op.from))
      && (op.fd != op.td || Name(op.from) != Name(op.to) ==> Bind(ts[j], op.fd, Name(op.from)).None?)
  {
    var op := ops[i];
    assert StepAt(ts, ops, lim, answers, i);
    NameKept(ts, ops, lim, answers, i + 1, j, op.td, Name(op.to));
    NameKept(ts, ops, lim, answers, i + 1, j, op.fd, Name(op.from));
  }

  // ---------- listings over runs ----------

  /** An operation changes a directory that outlives it by a few edits. */
  lemma EffectEvolves(op: Op, lim: Limits, a: Answer, t: Tree, t': Tree, n: nat)
    requires Admissible(t, op) && Effect(op, lim, a, t, t') && Inv(t', {}) && IsDir(t, n) && IsDir(t', n)
    ensures D.Evolves(t.nodes[n].dir, t'.nodes[n].dir)
  {
    if t'.nodes[n].dir == t.nodes[n].dir {
      D.EvolvesByOne(t.nodes[n].dir, t'.nodes[n].dir);
    } else if op.List? {
      assert NodeOk(t', {}, n);
      assert D.Edits(t.nodes[n].dir, t'.nodes[n].dir);
      D.EvolvesByOne(t.nodes[n].dir, t'.nodes[n].dir);
    } else {
      assert NodeSteps(t, t', n);
    }
  }

  /** The directory is there from `s` through `i`. */
  ghost predicate Lasts(ts: seq<Tree>, n: nat, s: nat, i: nat)
    requires i < |ts|
  {
    forall k :: s <= k <= i ==> IsDir(ts[k], n)
  }

  /** The reader's own call is operation `k` of the run. */
  predicate OwnCall(ops: seq<Op>, answers: seq<Option<Answer>>, mine: set<nat>, k: nat)
    requires k < |ops| && |answers| == |ops|
  {
    k in mine && ops[k].List? && answers[k].Some? && answers[k].value.Listed?
  }

  /** A reader who starts on directory `n` at state `s` and makes the calls in `mine`, as it stands at state `i`. */
  ghost function ReaderAt(ts: seq<Tree>, ops: seq<Op>, answers: seq<Option<Answer>>, mine: set<nat>, n: nat, s: nat,
                          i: nat)
    : (r: D.Reader)
    requires s <= i < |ts| && |ts| == |ops| + 1 && |answers| == |ops| && Lasts(ts, n, s, i)
    ensures r.d == ts[i].nodes[n].dir
    decreases i - s
  {
    if i == s then D.Reader(ts[s].nodes[n].dir, D.DIRSEQ_DOT, [])
    else
      var r := ReaderAt(ts, ops, answers, mine, n, s, i - 1);
      if OwnCall(ops, answers, mine, i - 1)
      then D.Reader(ts[i].nodes[n].dir, answers[i - 1].value.next, r.log + answers[i - 1].value.out)
      else D.Reader(ts[i].nodes[n].dir, r.offset, r.log)
  }

  /** Each of the reader's calls lists directory `n` from where the call before left off. */
  ghost predicate Reads(ts: seq<Tree>, ops: seq<Op>, answers: seq<Option<Answer>>, mine: set<nat>, n: nat, s: nat,
                        i: nat)
    requires s <= i < |ts| && |ts| == |ops| + 1 && |answers| == |ops| && Lasts(ts, n, s, i)
  {
    forall k :: s <= k < i && OwnCall(ops, answers, mine, k) ==>
      ops[k].n == n && ops[k].offset == ReaderAt(ts, ops, answers, mine, n, s, k).offset
  }

  /** What one operation of the run does to the reader is a step of a listing. */
  lemma ReaderStep(op: Op, lim: Limits, a: Answer, t: Tree, t': Tree, n: nat, r: D.Reader)
    requires Admissible(t, op) && Effect(op, lim, a, t, t') && Inv(t', {}) && op.List? && op.n == n
    requires op.offset == r.offset
    requires r.d == t.nodes[n].dir && D.Ok(r.d) && a.Listed? && n in t'.nodes
    ensures D.Step(r, D.Reader(t'.nodes[n].dir, a.next, r.log + a.out))
  {
    var r' := D.Reader(t'.nodes[n].dir, a.next, r.log + a.out);
    assert NodeOk(t', {}, n);
    assert r'.d == r.d.(lastp := r'.d.lastp);
    if t.nodes[n].links == 0 || !D.ValidOffset(r.d, r.offset) {
      assert r'.offset == r.offset && r'.log == r.log && D.Edits(r.d, r'.d);
    } else {
      assert D.Advanced(r, r');
    }
  }

  ghost predicate Stays(ts: seq<Tree>, n: nat, s: nat, i: nat, id: nat, seqno: nat)
    requires s <= i < |ts| && Lasts(ts, n, s, i)
  {
    forall k :: s <= k <= i ==> D.At(ts[k].nodes[n].dir, id, seqno)
  }

  /** One operation more: the reader's own call, somebody else's, or none at all. */
  lemma ListingNext(was: seq<D.Reader>, op: Op, lim: Limits, answer: Option<Answer>, t: Tree, t': Tree, n: nat,
                    own: bool, r: D.Reader)
    returns (rs: seq<D.Reader>)
    requires D.IsListing(was) && Inv(t', {}) && IsDir(t, n) && IsDir(t', n) && was[|was| - 1].d == t.nodes[n].dir
    requires if Passed(t, op) then answer.Some? && Effect(op, lim, answer.value, t, t') else answer.None? && t' == t
    requires own ==> op.List? && answer.Some? && answer.value.Listed? && op.n == n && op.offset == was[|was| - 1].offset
    requires var l := was[|was| - 1];
      r == if own then D.Reader(t'.nodes[n].dir, answer.value.next, l.log + answer.value.out)
           else D.Reader(t'.nodes[n].dir, l.offset, l.log)
    ensures D.IsListing(rs) && rs[|rs| - 1] == r
    ensures forall id, seqno :: D.Throughout(was, |was| - 1, id, seqno) && D.At(t'.nodes[n].dir, id, seqno) ==>
      D.Throughout(rs, |rs| - 1, id, seqno)
  {
    if own {
      D.ListingInOrder(was, |was| - 1);
      ReaderStep(op, lim, answer.value, t, t', n, was[|was| - 1]);
      D.ListingPlus(was, r);
      rs := was + [r];
    } else {
      if answer.Some? {
        EffectEvolves(op, lim, answer.value, t, t', n);
      } else {
        D.EvolvesByOne(t.nodes[n].dir, t'.nodes[n].dir);
      }
      rs := D.ListingGoesOn(was, t'.nodes[n].dir);
    }
  }

  /** A reader in a run is a listing: all that was shown of listings holds of it. */
  lemma {:induction false} ReaderIsListing(ts: seq<Tree>, ops: seq<Op>, lim: Limits, answers: seq<Option<Answer>>,
                                           mine: set<nat>, n: nat, s: nat, i: nat) returns (rs: seq<D.Reader>)
    requires IsTrace(ts, ops, lim, answers) && s <= i < |ts| && Lasts(ts, n, s, i)
    requires Reads(ts, ops, answers, mine, n, s, i)
    ensures D.IsListing(rs) && rs[|rs| - 1] == ReaderAt(ts, ops, answers, mine, n, s, i)
    ensures forall id, seqno :: Stays(ts, n, s, i, id, seqno) ==> D.Throughout(rs, |rs| - 1, id, seqno)
    decreases i - s
  {
    assert IsDir(ts[i], n) && SoundAt(ts, i);
    if i == s {
      assert NodeOk(ts[i], {}, n);
      rs := [D.Reader(ts[s].nodes[n].dir, D.DIRSEQ_DOT, [])];
    } else {
      var was := ReaderIsListing(ts, ops, lim, answers, mine, n, s, i - 1);
      var r := ReaderAt(ts, ops, answers, mine, n, s, i);
      assert StepAt(ts, ops, lim, answers, i - 1) && IsDir(ts[i - 1], n);
      var own := OwnCall(ops, answers, mine, i - 1);
      rs := ListingNext(was, ops[i - 1], lim, answers[i - 1], ts[i - 1], ts[i], n, own, r);
      forall id, seqno | Stays(ts, n, s, i, id, seqno) ensures D.Throughout(rs, |rs| - 1, id, seqno) {
        assert Stays(ts, n, s, i - 1, id, seqno) && D.At(ts[i].nodes[n].dir, id, seqno);
      }
    }
  }

  /**
    Whatever operations a mount goes through meanwhile, a reader gets the records of a directory in order and
    without repetition, and when it reaches the end it has got every entry that stayed, exactly once.
  */
  lemma {:induction false} ListingOverRun(ts: seq<Tree>, ops: seq<Op>, lim: Limits, answers: seq<Option<Answer>>,
                                          mine: set<nat>, n: nat, s: nat, i: nat, id: nat, seqno: nat)
    requires IsTrace(ts, ops, lim, answers) && s <= i < |ts| && Lasts(ts, n, s, i)
    requires Reads(ts, ops, answers, mine, n, s, i)
    ensures var r := ReaderAt(ts, ops, answers, mine, n, s, i);
      D.ReaderOk(r) && (r.offset == D.DIRSEQ_EOF && Stays(ts, n, s, i, id, seqno) ==> D.OnceIn(r.log, id, seqno))
  {
    var rs := ReaderIsListing(ts, ops, lim, answers, mine, n, s, i);
    D.ListingInOrder(rs, |rs| - 1);
    var r := ReaderAt(ts, ops, answers, mine, n, s, i);
    if r.offset == D.DIRSEQ_EOF && Stays(ts, n, s, i, id, seqno) { D.CompleteAtEof(rs, |rs| - 1, id, seqno); }
  }
}
