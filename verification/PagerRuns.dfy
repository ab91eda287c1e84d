/**
  Whole runs of the default pager: what the kernel reads back is what it last wrote,
  whatever partitions and objects come and go in between.
*/
module PagerRuns {
  import opened Prelude
  import opened PagerParts
  import opened PagerMap
  import opened PagerSystem
  import opened PagerStore

  datatype Op =
    | AddPartition(id: nat, total: nat, blocks: seq<Page>)
    | RemovePartition(id: nat)
    | NewObject(pid: nat, bytes: nat)
    | EndObject(pid: nat)
    | ReadPage(pid: nat, page: nat, dealloc: bool)
    | WritePage(pid: nat, page: nat, data: Page)

  datatype Outcome = Done(rc: Rc, data: Page)

  /** What the operations demand of the server loop that calls them. */
  predicate Admissible(s: Sys, op: Op) {
    match op
    case AddPartition(_, total, blocks) =>
      Vacant(s.parts) && |blocks| == total <= OFFSETS && forall o :: 0 <= o < total ==> |blocks[o]| == PAGE_SIZE
    case RemovePartition(_) => true
    case NewObject(pid, _) => pid !in s.pagers
    case EndObject(pid) => pid in s.pagers
    case ReadPage(pid, _, _) => pid in s.pagers
    case WritePage(pid, _, data) => pid in s.pagers && |data| == PAGE_SIZE
  }

  /** The operation may change what this page holds. */
  predicate Touches(op: Op, pid: nat, page: nat) {
    match op
    case EndObject(p) => p == pid
    case ReadPage(p, q, dealloc) => dealloc && p == pid && q == page
    case WritePage(p, q, _) => p == pid && q == page
    case _ => false
  }

  ghost predicate WholeDevice(dev: Device) {
    forall i :: IsWhole(dev(i))
  }

  /** It touches the page, or removes a partition over a device whose transfers may be short or fail. */
  ghost predicate Disturbs(op: Op, dev: Device, pid: nat, page: nat) {
    Touches(op, pid, page) || (op.RemovePartition? && !WholeDevice(dev))
  }

  ghost predicate Reaches(s: Sys, pid: nat, page: nat) {
    pid in s.pagers && page < s.pagers[pid].size
  }

  /** What one operation does, in terms of page contents, of which pages objects have, and of its outcome. */
  ghost predicate Follows(op: Op, out: Outcome, dev: Device, s: Sys, s': Sys) {
    (forall pid, page :: !Disturbs(op, dev, pid, page) ==> Data(s', pid, page) == Data(s, pid, page))
    && (forall pid, page :: Reaches(s, pid, page) && !Ends(op, out, pid) ==> Reaches(s', pid, page))
    && match op
       case AddPartition(id, total, blocks) => out.rc.Success? && Added(op, s, s')
       case RemovePartition(id) => RemoveAnswer(id, out, dev, s, s')
       case NewObject(pid, bytes) =>
         out.rc.Success? && pid in s'.pagers && s'.pagers[pid].size >= bytes / PAGE_SIZE && s'.parts == s.parts
       case EndObject(pid) => out.rc.Success? && s'.pagers == s.pagers - {pid}
       case ReadPage(_, _, _) => ReadAnswer(op, out, dev, s, s')
       case WritePage(_, _, _) => WriteAnswer(op, out, dev, s, s')
  }

  /** The object goes away, or the pager dies. */
  predicate Ends(op: Op, out: Outcome, pid: nat) {
    (op.EndObject? && op.pid == pid) || (op.RemovePartition? && out.rc.Panic?)
  }

  ghost predicate Added(op: Op, s: Sys, s': Sys)
    requires op.AddPartition?
  {
    s'.pagers == s.pagers
    && exists i: nat ::
      HasPart(s', i) && !HasPart(s, i) && s'.parts[i].value == NewPartition(op.total, op.id, op.blocks)
  }

  ghost predicate IsPart(s: Sys, p: nat, id: nat) {
    HasPart(s, p) && s.parts[p].value.id == id
  }

  /** Unknown names are told apart; a removal empties the slot, a failure means there was no room elsewhere. */
  ghost predicate RemoveAnswer(id: nat, out: Outcome, dev: Device, s: Sys, s': Sys) {
    (out.rc.Absent? <==> forall p :: !IsPart(s, p, id))
    && (out.rc.Absent? ==> s' == s)
    && (out.rc.Panic? ==> Fails(dev))
    && (out.rc.Success? ==> exists p :: IsPart(s, p, id) && !HasPart(s', p))
    && (out.rc.Error? ==>
          exists p :: IsPart(s, p, id) && forall j :: 0 <= j < |s'.parts| ==> !Suits(s'.parts, j, PAGE_SIZE, Some(p)))
  }

  /**
    A read panics past the end, is absent exactly for pages without a block, fails only if the device
    does, and may release the block.
  */
  ghost predicate ReadAnswer(op: Op, out: Outcome, dev: Device, s: Sys, s': Sys)
    requires op.ReadPage?
  {
    (out.rc.Panic? <==> !Reaches(s, op.pid, op.page))
    && (out.rc.Absent? <==> Reaches(s, op.pid, op.page) && Data(s, op.pid, op.page).None?)
    && (out.rc.Error? ==> Fails(dev))
    && (out.rc.Success? ==> Data(s, op.pid, op.page) == Some(out.data))
    && if op.dealloc && out.rc.Success? then Data(s', op.pid, op.page).None? else s' == s
  }

  /** A write succeeds, or there was no space or the device failed; a page that was there is then at worst torn. */
  ghost predicate WriteAnswer(op: Op, out: Outcome, dev: Device, s: Sys, s': Sys)
    requires op.WritePage?
  {
    var was, now := Data(s, op.pid, op.page), Data(s', op.pid, op.page);
    (out.rc.Success? || out.rc.Error?)
    && (out.rc.Success? ==> now == Some(op.data))
    && (out.rc.Error? ==> NoSpace(s.parts) || Fails(dev))
    && (NoSpace(s.parts) && was.None? ==> out.rc.Error? && now.None?)
    && (out.rc.Error? && was.Some? ==> exists k :: Torn(was, now, op.data, k))
  }

  /** Every operation keeps the storage valid, unless the pager dies of it. */
  method Perform(d: DefaultPager, op: Op, dev: Device) returns (out: Outcome)
    requires d.Valid() && Admissible(d.S(), op) && Answers(dev)
    modifies d
    ensures Follows(op, out, dev, old(d.S()), d.S()) && (!out.rc.Panic? ==> d.Valid())
  {
    out := Done(Success, []);
    match op {
      case AddPartition(id, total, blocks) =>
        var _ := d.CreatePartition(id, total, blocks);
      case RemovePartition(id) =>
        out := Remove(d, id, dev);
      case NewObject(pid, bytes) =>
        d.CreatePager(pid, bytes);
      case EndObject(pid) =>
        d.DestroyPager(pid);
      case ReadPage(pid, page, dealloc) =>
        var rc, data := d.Read(pid, page, dev, dealloc);
        out := Done(rc, data);
      case WritePage(pid, page, data) =>
        var rc := d.Write(pid, page, data, dev);
        out := Done(rc, []);
    }
  }

  method Remove(d: DefaultPager, id: nat, dev: Device) returns (out: Outcome)
    requires d.Valid()
    modifies d
    ensures Follows(RemovePartition(id), out, dev, old(d.S()), d.S()) && (!out.rc.Panic? ==> d.Valid())
  {
    ghost var s := d.S();
    var r, at := d.DestroyPartition(id, dev);
    match r {
      case Unknown => out := Done(Absent, []);
      case Removed(p) => out := Done(Success, []);
      case Full(p) => out := Done(Error, []);
      case Died(p) => out := Done(Panic, []);
    }
    assert !r.Unknown? ==> IsPart(s, r.p, id);
    if WholeDevice(dev) && !r.Unknown? { WholeKept(s, d.S(), r.p); }
  }

  // ---------- runs ----------

  ghost predicate IsRun(states: seq<Sys>, ops: seq<Op>, devs: seq<Device>, outs: seq<Outcome>) {
    |states| == |ops| + 1 && |outs| == |devs| == |ops|
    && forall i :: 0 <= i < |ops| ==> StepAt(states, ops, devs, outs, i)
  }

  ghost predicate StepAt(states: seq<Sys>, ops: seq<Op>, devs: seq<Device>, outs: seq<Outcome>, i: nat)
    requires |states| == |ops| + 1 && |outs| == |devs| == |ops| && i < |ops|
  {
    Follows(ops[i], outs[i], devs[i], states[i], states[i + 1])
  }

  /** Nothing from `i` up to `j` disturbs the page. */
  ghost predicate Calm(ops: seq<Op>, devs: seq<Device>, i: nat, j: nat, pid: nat, page: nat)
    requires |devs| == |ops| && j <= |ops|
  {
    forall k :: i <= k < j ==> !Disturbs(ops[k], devs[k], pid, page)
  }

  /** A page keeps its contents while nothing disturbs it. */
  lemma {:induction false} Undisturbed(states: seq<Sys>, ops: seq<Op>, devs: seq<Device>, outs: seq<Outcome>,
                                       i: nat, j: nat, pid: nat, page: nat)
    requires IsRun(states, ops, devs, outs) && i <= j <= |ops| && Calm(ops, devs, i, j, pid, page)
    ensures Data(states[j], pid, page) == Data(states[i], pid, page)
  {
    if i < j {
      Undisturbed(states, ops, devs, outs, i, j - 1, pid, page);
      assert StepAt(states, ops, devs, outs, j - 1);
    }
  }

  lemma {:induction false} StillReaches(states: seq<Sys>, ops: seq<Op>, devs: seq<Device>, outs: seq<Outcome>,
                                        i: nat, j: nat, pid: nat, page: nat)
    requires IsRun(states, ops, devs, outs) && i <= j <= |ops| && Calm(ops, devs, i, j, pid, page)
    requires Reaches(states[i], pid, page)
    ensures Reaches(states[j], pid, page)
  {
    if i < j {
      StillReaches(states, ops, devs, outs, i, j - 1, pid, page);
      assert StepAt(states, ops, devs, outs, j - 1);
      assert !Disturbs(ops[j - 1], devs[j - 1], pid, page);
    }
  }

  /** Operation `j` reads the page of operation `i`, and nothing in between disturbs it. */
  ghost predicate ReadsBack(ops: seq<Op>, devs: seq<Device>, i: nat, j: nat)
    requires |devs| == |ops|
  {
    i < j < |ops| && (ops[i].WritePage? || ops[i].ReadPage?) && ops[j].ReadPage?
    && ops[j].pid == ops[i].pid && ops[j].page == ops[i].page && Calm(ops, devs, i + 1, j, ops[i].pid, ops[i].page)
  }

  lemma AnswersAt(states: seq<Sys>, ops: seq<Op>, devs: seq<Device>, outs: seq<Outcome>, i: nat)
    requires IsRun(states, ops, devs, outs) && i < |ops|
    ensures ops[i].ReadPage? ==> ReadAnswer(ops[i], outs[i], devs[i], states[i], states[i + 1])
    ensures ops[i].WritePage? ==> WriteAnswer(ops[i], outs[i], devs[i], states[i], states[i + 1])
  {
    assert StepAt(states, ops, devs, outs, i);
  }

  /**
    In every run, a read returns what the last successful write of that page stored. The one exception
    is an error, and then the device failed during that very read.
  */
  lemma ReadYourWrites(states: seq<Sys>, ops: seq<Op>, devs: seq<Device>, outs: seq<Outcome>, i: nat, j: nat)
    requires IsRun(states, ops, devs, outs) && ReadsBack(ops, devs, i, j)
    requires ops[i].WritePage? && outs[i].rc.Success?
    ensures (outs[j].rc.Error? && Fails(devs[j])) || outs[j] == Done(Success, ops[i].data)
  {
    AnswersAt(states, ops, devs, outs, i);
    AnswersAt(states, ops, devs, outs, j);
    Undisturbed(states, ops, devs, outs, i + 1, j, ops[i].pid, ops[i].page);
  }

  /** In every run, a page whose block was released by a read is answered "absent" until something touches it again. */
  lemma ReleasedReadsAbsent(states: seq<Sys>, ops: seq<Op>, devs: seq<Device>, outs: seq<Outcome>, i: nat, j: nat)
    requires IsRun(states, ops, devs, outs) && ReadsBack(ops, devs, i, j)
    requires ops[i].ReadPage? && ops[i].dealloc && outs[i].rc.Success?
    ensures outs[j].rc.Absent?
  {
    AnswersAt(states, ops, devs, outs, i);
    AnswersAt(states, ops, devs, outs, j);
    assert StepAt(states, ops, devs, outs, i);
    Undisturbed(states, ops, devs, outs, i + 1, j, ops[i].pid, ops[i].page);
    assert Reaches(states[i], ops[i].pid, ops[i].page);
    StillReaches(states, ops, devs, outs, i + 1, j, ops[i].pid, ops[i].page);
  }

  // ---------- runs as they are made ----------

  /** What became of a list of operations: those performed, over which devices, the states and the outcomes. */
  datatype Record = Record(states: seq<Sys>, done: seq<Op>, devs: seq<Device>, outs: seq<Outcome>)

  ghost predicate RecordOk(r: Record) {
    IsRun(r.states, r.done, r.devs, r.outs)
  }

  /** After `k` operations of the record the pager has panicked. */
  predicate Dead(r: Record, k: nat) {
    0 < k <= |r.outs| && r.outs[k - 1].rc.Panic?
  }

  /**
    Operation `i` of the list met state number at[i] of the record, and was performed there exactly if
    it was admissible and the pager still alive.
  */
  ghost predicate Accounted(ops: seq<Op>, devs: seq<Device>, r: Record, at: seq<nat>, i: nat)
    requires |devs| == |ops| && |at| > i + 1 && i < |ops| && RecordOk(r)
  {
    at[i] <= at[i + 1] <= |r.done|
    && if Admissible(r.states[at[i]], ops[i]) && !Dead(r, at[i])
       then at[i + 1] == at[i] + 1 && r.done[at[i]] == ops[i] && r.devs[at[i]] == devs[i]
       else at[i + 1] == at[i]
  }

  ghost predicate AllAccounted(ops: seq<Op>, devs: seq<Device>, r: Record, at: seq<nat>, n: nat)
    requires |devs| == |ops| && n <= |ops| && RecordOk(r)
  {
    |at| == n + 1 && at[0] == 0 && at[n] == |r.done| && forall i :: 0 <= i < n ==> Accounted(ops, devs, r, at, i)
  }

  /** Any list of operations makes a run, so all of the above holds of it. */
  method RunAll(d: DefaultPager, ops: seq<Op>, devs: seq<Device>) returns (r: Record, at: seq<nat>)
    requires d.Valid() && |devs| == |ops| && forall i :: 0 <= i < |devs| ==> Answers(devs[i])
    modifies d
    ensures RecordOk(r) && AllAccounted(ops, devs, r, at, |ops|)
    ensures r.states[0] == old(d.S()) && r.states[|r.done|] == d.S() && (!Dead(r, |r.done|) ==> d.Valid())
  {
    r, at := Record([d.S()], [], [], []), [0];
    for i := 0 to |ops|
      invariant RecordOk(r) && AllAccounted(ops, devs, r, at, i)
      invariant r.states[0] == old(d.S()) && r.states[|r.done|] == d.S() && (!Dead(r, |r.done|) ==> d.Valid())
    {
      ghost var was, wasAt := r, at;
      if Admissible(d.S(), ops[i]) && !Dead(r, |r.done|) {
        var out := Perform(d, ops[i], devs[i]);
        ExtendRun(r.states, r.done, r.devs, r.outs, ops[i], devs[i], out, d.S());
        r := Record(r.states + [d.S()], r.done + [ops[i]], r.devs + [devs[i]], r.outs + [out]);
      }
      at := at + [|r.done|];
      StillAccounted(ops, devs, was, wasAt, r, at, i);
    }
  }

  /** A longer record accounts for what a shorter one did. */
  lemma StillAccounted(ops: seq<Op>, devs: seq<Device>, was: Record, wasAt: seq<nat>, r: Record, at: seq<nat>, n: nat)
    requires |devs| == |ops| && n < |ops| && RecordOk(was) && AllAccounted(ops, devs, was, wasAt, n) && RecordOk(r)
    requires was.states <= r.states && was.done <= r.done && was.devs <= r.devs && was.outs <= r.outs
    requires at == wasAt + [|r.done|] && Accounted(ops, devs, r, at, n)
    ensures AllAccounted(ops, devs, r, at, n + 1)
  {
    forall i | 0 <= i < n + 1 ensures Accounted(ops, devs, r, at, i) {
      if i < n {
        assert Accounted(ops, devs, was, wasAt, i);
        assert at[i] == wasAt[i] && at[i + 1] == wasAt[i + 1];
      }
    }
  }

  lemma ExtendRun(states: seq<Sys>, ops: seq<Op>, devs: seq<Device>, outs: seq<Outcome>, op: Op, dev: Device,
                  out: Outcome, s: Sys)
    requires IsRun(states, ops, devs, outs) && Follows(op, out, dev, states[|ops|], s)
    ensures IsRun(states + [s], ops + [op], devs + [dev], outs + [out])
  {
    var ss, os, ds, rs := states + [s], ops + [op], devs + [dev], outs + [out];
    forall i | 0 <= i < |os| ensures StepAt(ss, os, ds, rs, i) {
      if i < |ops| { assert StepAt(states, ops, devs, outs, i); }
    }
  }
}
