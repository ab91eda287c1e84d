/**
  The default pager's sequence-number gate: any number of server threads, one per
  delivered request, run the memory-object handlers in parallel.

  Thread `t` serves the request that carries sequence number `t`. A step is one
  uninterrupted stretch of a handler: taking the structure lock, testing a wait
  condition under it, releasing it, broadcasting a condition variable, moving a page.
  Condition variables are explicit: a sleeper runs again only after a broadcast, and
  every broadcast happens after the broadcaster has dropped the lock.
*/
module PagerGate {
  import opened Prelude

  datatype Kind = Init | Read | Write | Terminate

  datatype Pc =
    | AtLock                 // wants the lock, to (re)test the sequence number
    | Testing                // holds the lock
    | WaitSeqno              // asleep on waiting_seqno
    | Passed                 // holds the lock, gate passed
    | Dropped                // past the gate, lock dropped for a call to the kernel
    | TestR | WaitR | WokenR // waiting for readers (terminate)
    | TestW | WaitW | WokenW // waiting for writers (read, terminate)
    | Ready                  // holds the lock, about to commit and bump the seqno
    | BcastSeqno             // lock dropped, about to wake the gate
    | Busy(left: nat)        // transferring pages
    | Failed(left: nat)      // a page failed, about to count the error
    | Finishing              // about to drop its reader or writer count
    | BcastDone              // count reached zero, about to wake its waiters
    | Done

  datatype Thread = Thread(kind: Kind, pages: nat, pc: Pc)

  /** The fields of the pager structure that handlers share. */
  datatype Shared = Shared(
    lock: Option<nat>,
    seqno: nat,
    readers: int,
    writers: int,
    errors: nat,
    requestRefs: nat,
    attached: bool)          // the request and name ports are set

  datatype State = State(threads: seq<Thread>, sh: Shared)

  const MAX_UREFS := 10000

  datatype Event = Deliver(kind: Kind, pages: nat) | Run(tid: nat, fail: bool)

  const Initial := State([], Shared(None, 0, 0, 0, 0, 0, false))

  // ---------- classification of program points ----------

  predicate Holds(pc: Pc) {
    pc.Testing? || pc.Passed? || pc.TestR? || pc.TestW? || pc.Ready?
  }

  predicate Before(pc: Pc) {
    pc.AtLock? || pc.Testing? || pc.WaitSeqno?
  }

  predicate Past(pc: Pc) {
    pc.Passed? || pc.Dropped? || pc.TestR? || pc.WaitR? || pc.WokenR?
    || pc.TestW? || pc.WaitW? || pc.WokenW? || pc.Ready?
  }

  predicate After(pc: Pc) {
    !Before(pc) && !Past(pc)
  }

  predicate Asleep(pc: Pc) {
    pc.WaitSeqno? || pc.WaitR? || pc.WaitW?
  }

  predicate NeedsLock(pc: Pc) {
    pc.AtLock? || pc.Dropped? || pc.WokenR? || pc.WokenW? || pc.Failed? || pc.Finishing?
  }

  predicate InFlight(th: Thread, kind: Kind) {
    th.kind == kind && (kind == Read || kind == Write)
    && (th.pc.BcastSeqno? || th.pc.Busy? || th.pc.Failed? || th.pc.Finishing?)
  }

  function Count(ths: seq<Thread>, kind: Kind): nat {
    if ths == [] then 0
    else (if InFlight(ths[0], kind) then 1 else 0) + Count(ths[1..], kind)
  }

  // ---------- steps ----------

  datatype Wake = Nobody | GateWaiters | ReadWaiters | WriteWaiters

  /** condition_broadcast, as one sleeper sees it: it now wants the lock again. */
  function Rouse(wake: Wake, pc: Pc): Pc {
    match wake
    case Nobody => pc
    case GateWaiters => if pc.WaitSeqno? then AtLock else pc
    case ReadWaiters => if pc.WaitR? then WokenR else pc
    case WriteWaiters => if pc.WaitW? then WokenW else pc
  }

  /** What one step of a handler does: its next program point, the shared fields, a broadcast. */
  datatype Effect = Effect(pc: Pc, sh: Shared, wake: Wake)

  /** Next program point once the request references are accounted for. */
  function Accounted(kind: Kind): Pc {
    if kind.Read? then TestW else Ready
  }

  function HandlerStep(sh: Shared, t: nat, th: Thread, fail: bool): Effect {
    match th.pc
    case AtLock => Effect(Testing, sh.(lock := Some(t)), Nobody)
    case Testing =>
      if sh.seqno == t then Effect(Passed, sh, Nobody)
      else Effect(WaitSeqno, sh.(lock := None), Nobody)
    case Passed =>
      if th.kind.Init? then Effect(Ready, sh, Nobody)
      else if th.kind.Terminate? then Effect(TestR, sh, Nobody)
      else if sh.requestRefs + 1 > MAX_UREFS then Effect(Dropped, sh.(requestRefs := 1, lock := None), Nobody)
      else Effect(Accounted(th.kind), sh.(requestRefs := sh.requestRefs + 1), Nobody)
    case Dropped => Effect(Accounted(th.kind), sh.(lock := Some(t)), Nobody)
    case TestR =>
      if sh.readers == 0 then Effect(TestW, sh, Nobody) else Effect(WaitR, sh.(lock := None), Nobody)
    case WokenR => Effect(TestR, sh.(lock := Some(t)), Nobody)
    case TestW =>
      if sh.writers == 0 then Effect(Ready, sh, Nobody) else Effect(WaitW, sh.(lock := None), Nobody)
    case WokenW => Effect(TestW, sh.(lock := Some(t)), Nobody)
    case Ready => Effect(BcastSeqno, Commit(sh, th.kind), Nobody)
    case BcastSeqno => Effect(if th.kind.Read? || th.kind.Write? then Busy(th.pages) else Done, sh, GateWaiters)
    case Busy(n) =>
      Effect(if n == 0 then Finishing else if fail && th.kind.Write? then Failed(n - 1) else Busy(n - 1), sh, Nobody)
    case Failed(n) => Effect(Busy(n), sh.(errors := sh.errors + 1), Nobody)
    case Finishing =>
      if th.kind.Read? then
        Effect(if sh.readers - 1 == 0 then BcastDone else Done, sh.(readers := sh.readers - 1), Nobody)
      else
        Effect(if sh.writers - 1 == 0 then BcastDone else Done, sh.(writers := sh.writers - 1), Nobody)
    case BcastDone => Effect(Done, sh, if th.kind.Read? then ReadWaiters else WriteWaiters)
    case _ => Effect(th.pc, sh, Nobody)
  }

  /** The body of the handler under the lock, then pager_port_unlock. */
  function Commit(sh: Shared, kind: Kind): Shared {
    var sh1 := match kind
      case Init => sh.(attached := true, requestRefs := 1)
      case Terminate => sh.(attached := false, requestRefs := 0)
      case Read => sh.(readers := sh.readers + 1)
      case Write => sh.(writers := sh.writers + 1);
    sh1.(seqno := sh.seqno + 1, lock := None)
  }

  predicate CanRun(sh: Shared, pc: Pc) {
    !Asleep(pc) && !pc.Done? && (NeedsLock(pc) ==> sh.lock.None?)
  }

  predicate Enabled(s: State, e: Event) {
    match e
    case Deliver(_, _) => true
    case Run(t, _) => t < |s.threads| && CanRun(s.sh, s.threads[t].pc)
  }

  function Apply(s: State, e: Event): State
    requires Enabled(s, e)
  {
    match e
    case Deliver(kind, pages) => s.(threads := s.threads + [Thread(kind, pages, AtLock)])
    case Run(t, fail) => Perform(s, t, HandlerStep(s.sh, t, s.threads[t], fail))
  }

  function Perform(s: State, t: nat, eff: Effect): (s': State)
    requires t < |s.threads|
  {
    State(seq(|s.threads|, i requires 0 <= i < |s.threads| =>
            s.threads[i].(pc := if i == t then eff.pc else Rouse(eff.wake, s.threads[i].pc))), eff.sh)
  }

  ghost predicate IsRun(ss: seq<State>, es: seq<Event>) {
    |ss| == |es| + 1 && ss[0] == Initial
    && forall i :: 0 <= i < |es| ==> Enabled(ss[i], es[i]) && ss[i + 1] == Apply(ss[i], es[i])
  }

  // ---------- the invariant ----------

  /**
    What the shared fields say about one thread: who holds the lock, where it stands
    relative to the gate, which program points its kind visits, and what it has
    already waited for.
  */
  ghost predicate ThreadInv(sh: Shared, t: nat, th: Thread) {
    var Thread(kind, _, pc) := th;
    (Holds(pc) <==> sh.lock == Some(t))
    && (Before(pc) ==> sh.seqno <= t) && (Past(pc) ==> sh.seqno == t) && (After(pc) ==> t < sh.seqno)
    && (pc.TestR? || pc.WaitR? || pc.WokenR? ==> kind.Terminate?)
    && (pc.TestW? || pc.WaitW? || pc.WokenW? ==> kind.Terminate? || kind.Read?)
    && (pc.Dropped? || pc.Busy? || pc.Finishing? || pc.BcastDone? ==> kind.Read? || kind.Write?)
    && (pc.Failed? ==> kind.Write?)
    && (kind.Terminate? && (pc.TestW? || pc.WaitW? || pc.WokenW? || pc.Ready?) ==> sh.readers == 0)
    && (pc.Ready? && (kind.Read? || kind.Terminate?) ==> sh.writers == 0)
  }

  ghost predicate ThreadsInv(s: State) {
    (s.sh.lock.Some? ==> s.sh.lock.value < |s.threads|) && s.sh.seqno <= |s.threads|
    && forall t :: 0 <= t < |s.threads| ==> ThreadInv(s.sh, t, s.threads[t])
  }

  ghost predicate CountInv(s: State) {
    s.sh.readers == Count(s.threads, Read) && s.sh.writers == Count(s.threads, Write)
  }

  /** A read in flight comes before every write in flight. */
  ghost predicate OrderInv(s: State) {
    forall r, w | 0 <= r < |s.threads| && 0 <= w < |s.threads| ::
      InFlight(s.threads[r], Read) && InFlight(s.threads[w], Write) ==> r < w
  }

  /** Some thread is about to broadcast to those asleep at `pc`. */
  predicate Rouses(th: Thread, pc: Pc) {
    (pc.WaitSeqno? && th.pc.BcastSeqno?)
    || (pc.WaitR? && th.pc.BcastDone? && th.kind.Read?)
    || (pc.WaitW? && th.pc.BcastDone? && !th.kind.Read?)
  }

  ghost predicate BroadcastPending(s: State, pc: Pc) {
    exists u :: 0 <= u < |s.threads| && Rouses(s.threads[u], pc)
  }

  /** The condition thread `t` sleeps on holds. */
  predicate Satisfied(sh: Shared, t: nat, pc: Pc) {
    (pc.WaitSeqno? && sh.seqno == t) || (pc.WaitR? && sh.readers == 0) || (pc.WaitW? && sh.writers == 0)
  }

  /** No lost wake-up: a sleeper whose condition holds has a broadcast on its way. */
  ghost predicate WakeInv(s: State) {
    forall t :: 0 <= t < |s.threads| && Satisfied(s.sh, t, s.threads[t].pc) ==> BroadcastPending(s, s.threads[t].pc)
  }

  ghost predicate Inv(s: State) {
    ThreadsInv(s) && CountInv(s) && OrderInv(s) && WakeInv(s)
  }

  // ---------- counting ----------

  lemma {:induction false} CountUpdate(ths: seq<Thread>, t: nat, th: Thread, kind: Kind)
    requires t < |ths|
    ensures Count(ths[t := th], kind)
         == Count(ths, kind) - (if InFlight(ths[t], kind) then 1 else 0) + (if InFlight(th, kind) then 1 else 0)
  {
    if t == 0 {
      assert ths[0 := th][1..] == ths[1..];
    } else {
      assert ths[t := th][1..] == ths[1..][t - 1 := th];
      CountUpdate(ths[1..], t - 1, th, kind);
    }
  }

  lemma {:induction false} CountSame(a: seq<Thread>, b: seq<Thread>, kind: Kind)
    requires |a| == |b|
    requires forall i :: 0 <= i < |a| ==> InFlight(a[i], kind) == InFlight(b[i], kind)
    ensures Count(a, kind) == Count(b, kind)
  {
    if a != [] { CountSame(a[1..], b[1..], kind); }
  }

  lemma {:induction false} CountAppend(ths: seq<Thread>, th: Thread, kind: Kind)
    ensures Count(ths + [th], kind) == Count(ths, kind) + if InFlight(th, kind) then 1 else 0
  {
    if ths != [] {
      assert (ths + [th])[1..] == ths[1..] + [th];
      CountAppend(ths[1..], th, kind);
    } else {
      assert (ths + [th])[1..] == [];
    }
  }

  /** The count is positive exactly when somebody is in flight. */
  lemma {:induction false} CountZero(ths: seq<Thread>, kind: Kind)
    ensures Count(ths, kind) == 0 <==> forall i :: 0 <= i < |ths| ==> !InFlight(ths[i], kind)
  {
    if ths != [] {
      CountZero(ths[1..], kind);
      assert forall i :: 0 < i < |ths| ==> ths[i] == ths[1..][i - 1];
      assert forall i :: 0 <= i < |ths[1..]| ==> ths[1..][i] == ths[i + 1];
    }
  }

  // ---------- preservation ----------

  /** Counts are at least one while somebody is in flight. */
  ghost predicate Counted(sh: Shared, th: Thread) {
    (InFlight(th, Read) ==> sh.readers > 0) && (InFlight(th, Write) ==> sh.writers > 0)
  }

  lemma CountedThread(s: State, t: nat)
    requires CountInv(s) && t < |s.threads|
    ensures Counted(s.sh, s.threads[t])
  {
    CountZero(s.threads, Read);
    CountZero(s.threads, Write);
  }

  lemma OwnStep(sh: Shared, t: nat, th: Thread, fail: bool)
    requires ThreadInv(sh, t, th) && Counted(sh, th) && CanRun(sh, th.pc)
    ensures var eff := HandlerStep(sh, t, th, fail);
      ThreadInv(eff.sh, t, th.(pc := eff.pc))
  {
  }

  lemma OthersStep(sh: Shared, t: nat, th: Thread, fail: bool, u: nat, other: Thread)
    requires t != u && CanRun(sh, th.pc)
    requires ThreadInv(sh, t, th) && ThreadInv(sh, u, other) && Counted(sh, th)
    ensures var eff := HandlerStep(sh, t, th, fail);
      ThreadInv(eff.sh, u, other.(pc := Rouse(eff.wake, other.pc)))
  {
  }

  lemma CountStep(sh: Shared, t: nat, th: Thread, fail: bool, kind: Kind)
    requires ThreadInv(sh, t, th) && CanRun(sh, th.pc)
    ensures var eff := HandlerStep(sh, t, th, fail);
      var d := (if InFlight(th.(pc := eff.pc), kind) then 1 else 0) - (if InFlight(th, kind) then 1 else 0);
      (kind.Read? ==> eff.sh.readers == sh.readers + d) && (kind.Write? ==> eff.sh.writers == sh.writers + d)
  {
  }

  lemma CountInvStep(s: State, t: nat, fail: bool)
    requires ThreadsInv(s) && CountInv(s) && Enabled(s, Run(t, fail))
    ensures CountInv(Apply(s, Run(t, fail)))
  {
    var eff := HandlerStep(s.sh, t, s.threads[t], fail);
    var s' := Perform(s, t, eff);
    var moved := s.threads[t := s.threads[t].(pc := eff.pc)];
    forall kind | kind == Read || kind == Write
      ensures Count(s'.threads, kind) == Count(moved, kind)
    {
      CountSame(s'.threads, moved, kind);
    }
    CountUpdate(s.threads, t, moved[t], Read);
    CountUpdate(s.threads, t, moved[t], Write);
    CountStep(s.sh, t, s.threads[t], fail, Read);
    CountStep(s.sh, t, s.threads[t], fail, Write);
  }

  lemma ThreadsInvStep(s: State, t: nat, fail: bool)
    requires Inv(s) && Enabled(s, Run(t, fail))
    ensures ThreadsInv(Apply(s, Run(t, fail)))
  {
    var s' := Apply(s, Run(t, fail));
    CountedThread(s, t);
    OwnStep(s.sh, t, s.threads[t], fail);
    forall u | 0 <= u < |s'.threads|
      ensures ThreadInv(s'.sh, u, s'.threads[u])
    {
      if u != t { OthersStep(s.sh, t, s.threads[t], fail, u, s.threads[u]); }
    }
  }

  /** A thread that comes into flight was Ready, and a read then saw no writer. */
  lemma ComesIntoFlight(sh: Shared, t: nat, th: Thread, fail: bool, kind: Kind)
    requires ThreadInv(sh, t, th) && CanRun(sh, th.pc)
    requires InFlight(th.(pc := HandlerStep(sh, t, th, fail).pc), kind)
    ensures InFlight(th, kind) || (th.pc.Ready? && th.kind == kind && sh.seqno == t && (kind.Read? ==> sh.writers == 0))
  {
  }

  lemma OrderInvStep(s: State, t: nat, fail: bool)
    requires Inv(s) && Enabled(s, Run(t, fail))
    ensures OrderInv(Apply(s, Run(t, fail)))
  {
    var s' := Apply(s, Run(t, fail));
    forall r, w | 0 <= r < |s'.threads| && 0 <= w < |s'.threads|
      && InFlight(s'.threads[r], Read) && InFlight(s'.threads[w], Write)
      ensures r < w
    {
      if r == t { ComesIntoFlight(s.sh, t, s.threads[t], fail, Read); }
      if w == t { ComesIntoFlight(s.sh, t, s.threads[t], fail, Write); }
      CountedThread(s, w);
    }
  }

  /** If a step makes a sleeper's condition true, the stepping thread goes on to broadcast. */
  lemma StepSatisfies(sh: Shared, t: nat, th: Thread, fail: bool, u: nat, pc: Pc)
    requires t != u && ThreadInv(sh, t, th) && CanRun(sh, th.pc) && sh.readers >= 0 && sh.writers >= 0
    requires var eff := HandlerStep(sh, t, th, fail);
      Satisfied(eff.sh, u, Rouse(eff.wake, pc)) && !Rouses(th.(pc := eff.pc), Rouse(eff.wake, pc))
    ensures Rouse(HandlerStep(sh, t, th, fail).wake, pc) == pc && Satisfied(sh, u, pc) && !Rouses(th, pc)
  {
  }

  lemma SleepsUnsatisfied(sh: Shared, t: nat, th: Thread, fail: bool)
    requires ThreadInv(sh, t, th) && CanRun(sh, th.pc)
    ensures var eff := HandlerStep(sh, t, th, fail);
      !Satisfied(eff.sh, t, eff.pc)
  {
  }

  lemma WakeInvStep(s: State, t: nat, fail: bool)
    requires Inv(s) && Enabled(s, Run(t, fail))
    ensures WakeInv(Apply(s, Run(t, fail)))
  {
    var eff := HandlerStep(s.sh, t, s.threads[t], fail);
    var s' := Perform(s, t, eff);
    SleepsUnsatisfied(s.sh, t, s.threads[t], fail);
    forall u | 0 <= u < |s'.threads| && Satisfied(s'.sh, u, s'.threads[u].pc)
      ensures BroadcastPending(s', s'.threads[u].pc)
    {
      var pc := s'.threads[u].pc;
      if !Rouses(s'.threads[t], pc) {
        StepSatisfies(s.sh, t, s.threads[t], fail, u, s.threads[u].pc);
        var v :| 0 <= v < |s.threads| && Rouses(s.threads[v], pc);
        assert Rouses(s'.threads[v], pc);
      }
    }
  }

  lemma DeliverStep(s: State, kind: Kind, pages: nat)
    requires Inv(s)
    ensures Inv(Apply(s, Deliver(kind, pages)))
  {
    var s' := Apply(s, Deliver(kind, pages));
    CountAppend(s.threads, Thread(kind, pages, AtLock), Read);
    CountAppend(s.threads, Thread(kind, pages, AtLock), Write);
    forall u | 0 <= u < |s'.threads| && Satisfied(s'.sh, u, s'.threads[u].pc)
      ensures BroadcastPending(s', s'.threads[u].pc)
    {
      var v :| 0 <= v < |s.threads| && Rouses(s.threads[v], s.threads[u].pc);
      assert Rouses(s'.threads[v], s'.threads[u].pc);
    }
  }

  lemma InvStep(s: State, e: Event)
    requires Inv(s) && Enabled(s, e)
    ensures Inv(Apply(s, e))
  {
    match e
    case Run(t, fail) =>
      CountInvStep(s, t, fail);
      ThreadsInvStep(s, t, fail);
      OrderInvStep(s, t, fail);
      WakeInvStep(s, t, fail);
    case Deliver(kind, pages) =>
      DeliverStep(s, kind, pages);
  }

  /** Every state of every run satisfies the invariant. */
  lemma {:induction false} InvInRuns(ss: seq<State>, es: seq<Event>, i: nat)
    requires IsRun(ss, es) && i < |ss|
    ensures Inv(ss[i])
  {
    if i > 0 {
      InvInRuns(ss, es, i - 1);
      InvStep(ss[i - 1], es[i - 1]);
    }
  }

  // ---------- what the invariant gives ----------

  /** At most one handler is past the gate; everyone before it has left, everyone after it is held. */
  lemma GateOrder(ss: seq<State>, es: seq<Event>, i: nat, t: nat)
    requires IsRun(ss, es) && i < |ss| && t < |ss[i].threads| && Past(ss[i].threads[t].pc)
    ensures forall u :: 0 <= u < t ==> After(ss[i].threads[u].pc)
    ensures forall u :: t < u < |ss[i].threads| ==> Before(ss[i].threads[u].pc)
  {
    InvInRuns(ss, es, i);
    assert forall u :: 0 <= u < |ss[i].threads| ==> ThreadInv(ss[i].sh, u, ss[i].threads[u]);
  }

  /** The reader and writer counters are the numbers of reads and writes in flight. */
  lemma CountersExact(ss: seq<State>, es: seq<Event>, i: nat)
    requires IsRun(ss, es) && i < |ss|
    ensures ss[i].sh.readers == Count(ss[i].threads, Read) && ss[i].sh.writers == Count(ss[i].threads, Write)
  {
    InvInRuns(ss, es, i);
  }

  /** While a read is in flight every earlier-numbered write has finished its transfer. */
  lemma NoStaleRead(ss: seq<State>, es: seq<Event>, i: nat, r: nat, w: nat)
    requires IsRun(ss, es) && i < |ss| && w < r < |ss[i].threads|
    requires InFlight(ss[i].threads[r], Read) && ss[i].threads[w].kind.Write?
    ensures ss[i].threads[w].pc.BcastDone? || ss[i].threads[w].pc.Done?
  {
    InvInRuns(ss, es, i);
    assert ThreadInv(ss[i].sh, r, ss[i].threads[r]) && ThreadInv(ss[i].sh, w, ss[i].threads[w]);
    assert After(ss[i].threads[w].pc);
  }

  /** Terminate clears the ports only when no transfer is in flight. */
  lemma TerminateQuiet(ss: seq<State>, es: seq<Event>, i: nat)
    requires IsRun(ss, es) && i < |es| && ss[i].sh.attached && !ss[i + 1].sh.attached
    ensures forall u :: 0 <= u < |ss[i].threads| ==>
      !InFlight(ss[i].threads[u], Read) && !InFlight(ss[i].threads[u], Write)
  {
    InvInRuns(ss, es, i);
    CountZero(ss[i].threads, Read);
    CountZero(ss[i].threads, Write);
    assert es[i].Run?;
    assert ThreadInv(ss[i].sh, es[i].tid, ss[i].threads[es[i].tid]);
  }

  // ---------- progress ----------

  predicate AllDone(s: State) {
    forall t :: 0 <= t < |s.threads| ==> s.threads[t].pc.Done?
  }

  /** The thread whose turn it is sleeps only while somebody else is awake. */
  lemma GateSleeper(s: State)
    requires Inv(s) && s.sh.seqno < |s.threads| && Asleep(s.threads[s.sh.seqno].pc)
    ensures exists t :: 0 <= t < |s.threads| && !s.threads[t].pc.Done? && !Asleep(s.threads[t].pc)
  {
    var g := s.sh.seqno;
    assert ThreadInv(s.sh, g, s.threads[g]);
    CountZero(s.threads, Read);
    CountZero(s.threads, Write);
    if Satisfied(s.sh, g, s.threads[g].pc) {
      var u :| 0 <= u < |s.threads| && Rouses(s.threads[u], s.threads[g].pc);
    }
  }

  /** If nobody can run then everybody is asleep, and the thread at the gate cannot be. */
  lemma NotAllAsleep(s: State)
    requires Inv(s) && s.sh.lock.None? && !AllDone(s)
    ensures exists t :: 0 <= t < |s.threads| && !s.threads[t].pc.Done? && !Asleep(s.threads[t].pc)
  {
    var t :| 0 <= t < |s.threads| && !s.threads[t].pc.Done?;
    assert ThreadInv(s.sh, t, s.threads[t]);
    var g := s.sh.seqno;
    if g <= t {
      assert ThreadInv(s.sh, g, s.threads[g]);
      if Asleep(s.threads[g].pc) { GateSleeper(s); }
    }
  }

  /** No deadlock: while a delivered request is unfinished some thread can step. */
  lemma NoDeadlock(s: State)
    requires Inv(s) && !AllDone(s)
    ensures exists t: nat :: Enabled(s, Run(t, false))
  {
    if s.sh.lock.Some? {
      var t := s.sh.lock.value;
      assert ThreadInv(s.sh, t, s.threads[t]);
      assert Enabled(s, Run(t, false));
    } else {
      NotAllAsleep(s);
      var t :| 0 <= t < |s.threads| && !s.threads[t].pc.Done? && !Asleep(s.threads[t].pc);
      assert Enabled(s, Run(t, false));
    }
  }

  /** Stages a handler still has to go through; a broadcast never sends anyone back a stage. */
  function Stage(th: Thread): nat {
    match th.pc
    case AtLock => 13 + 2 * th.pages
    case Testing => 13 + 2 * th.pages
    case WaitSeqno => 13 + 2 * th.pages
    case Passed => 12 + 2 * th.pages
    case Dropped => 11 + 2 * th.pages
    case TestR => 10 + 2 * th.pages
    case WaitR => 10 + 2 * th.pages
    case WokenR => 10 + 2 * th.pages
    case TestW => 9 + 2 * th.pages
    case WaitW => 9 + 2 * th.pages
    case WokenW => 9 + 2 * th.pages
    case Ready => 8 + 2 * th.pages
    case BcastSeqno => 7 + 2 * th.pages
    case Busy(n) => 4 + 2 * n
    case Failed(n) => 5 + 2 * n
    case Finishing => 2
    case BcastDone => 1
    case Done => 0
  }

  /** Steps a handler can take inside its stage before it sleeps or moves on. */
  function Awake(pc: Pc): nat {
    if pc.AtLock? || pc.WokenR? || pc.WokenW? then 2
    else if pc.Testing? || pc.TestR? || pc.TestW? then 1
    else 0
  }

  function Stages(ths: seq<Thread>): nat {
    if ths == [] then 0 else Stage(ths[0]) + Stages(ths[1..])
  }

  function Awakes(ths: seq<Thread>): nat {
    if ths == [] then 0 else Awake(ths[0].pc) + Awakes(ths[1..])
  }

  lemma {:induction false} SumsUpdate(ths: seq<Thread>, t: nat, th: Thread)
    requires t < |ths|
    ensures Stages(ths[t := th]) == Stages(ths) - Stage(ths[t]) + Stage(th)
    ensures Awakes(ths[t := th]) == Awakes(ths) - Awake(ths[t].pc) + Awake(th.pc)
  {
    if t == 0 {
      assert ths[0 := th][1..] == ths[1..];
    } else {
      assert ths[t := th][1..] == ths[1..][t - 1 := th];
      SumsUpdate(ths[1..], t - 1, th);
    }
  }

  lemma {:induction false} StagesSame(a: seq<Thread>, b: seq<Thread>)
    requires |a| == |b| && forall i :: 0 <= i < |a| ==> Stage(a[i]) == Stage(b[i])
    ensures Stages(a) == Stages(b)
  {
    if a != [] { StagesSame(a[1..], b[1..]); }
  }

  lemma HandlerProgress(sh: Shared, t: nat, th: Thread, fail: bool)
    requires ThreadInv(sh, t, th) && CanRun(sh, th.pc)
    ensures var eff := HandlerStep(sh, t, th, fail);
      var th' := th.(pc := eff.pc);
      Stage(th') < Stage(th) || (Stage(th') == Stage(th) && Awake(th'.pc) < Awake(th.pc) && eff.wake.Nobody?)
  {
  }

  /** Every handler step decreases the pair (stages left, steps awake). */
  lemma StepDecreases(s: State, t: nat, fail: bool)
    requires Inv(s) && Enabled(s, Run(t, fail))
    ensures var s' := Apply(s, Run(t, fail));
      Stages(s'.threads) < Stages(s.threads)
      || (Stages(s'.threads) == Stages(s.threads) && Awakes(s'.threads) < Awakes(s.threads))
  {
    var th := s.threads[t];
    var eff := HandlerStep(s.sh, t, th, fail);
    assert ThreadInv(s.sh, t, th);
    HandlerProgress(s.sh, t, th, fail);
    OneMoves(s, t, eff);
    SumsDecrease(s.threads, t, th.(pc := eff.pc), Perform(s, t, eff).threads, eff.wake.Nobody?);
  }

  /** A step moves one thread; those it wakes stay in their stage. */
  lemma OneMoves(s: State, t: nat, eff: Effect)
    requires t < |s.threads|
    ensures var moved := s.threads[t := s.threads[t].(pc := eff.pc)];
      Stages(Perform(s, t, eff).threads) == Stages(moved) && (eff.wake.Nobody? ==> Perform(s, t, eff).threads == moved)
  {
    StagesSame(Perform(s, t, eff).threads, s.threads[t := s.threads[t].(pc := eff.pc)]);
  }

  /** One thread moves forward; waking others changes no stage. */
  lemma SumsDecrease(threads: seq<Thread>, t: nat, th: Thread, after: seq<Thread>, nobody: bool)
    requires t < |threads| && Stages(after) == Stages(threads[t := th]) && (nobody ==> after == threads[t := th])
    requires Stage(th) < Stage(threads[t])
          || (Stage(th) == Stage(threads[t]) && Awake(th.pc) < Awake(threads[t].pc) && nobody)
    ensures Stages(after) < Stages(threads) || (Stages(after) == Stages(threads) && Awakes(after) < Awakes(threads))
  {
    SumsUpdate(threads, t, th);
  }

  // ---------- how long a run can be ----------

  /** A bound on the handler steps that remain when `n` threads exist in the end. */
  function Potential(ths: seq<Thread>, n: nat): nat {
    Stages(ths) * (2 * n + 1) + Awakes(ths)
  }

  lemma {:induction false} AwakesBound(ths: seq<Thread>)
    ensures Awakes(ths) <= 2 * |ths|
  {
    if ths != [] { AwakesBound(ths[1..]); }
  }

  lemma {:induction false} SumsAppend(ths: seq<Thread>, th: Thread)
    ensures Stages(ths + [th]) == Stages(ths) + Stage(th) && Awakes(ths + [th]) == Awakes(ths) + Awake(th.pc)
  {
    if ths == [] {
      assert ths + [th] == [th];
    } else {
      assert (ths + [th])[1..] == ths[1..] + [th];
      SumsAppend(ths[1..], th);
    }
  }

  /** Every handler step uses up potential: a stage is worth more than all the waking it can cause. */
  lemma PotentialFalls(s: State, t: nat, fail: bool, n: nat)
    requires Inv(s) && Enabled(s, Run(t, fail)) && |s.threads| <= n
    ensures Potential(Apply(s, Run(t, fail)).threads, n) < Potential(s.threads, n)
  {
    var s' := Apply(s, Run(t, fail));
    StepDecreases(s, t, fail);
    AwakesBound(s'.threads);
    StageWorth(Stages(s.threads), Stages(s'.threads), n);
  }

  lemma StageWorth(a: nat, b: nat, n: nat)
    ensures b < a ==> b * (2 * n + 1) + 2 * n < a * (2 * n + 1)
  {
    if b < a { assert (a - b - 1) * (2 * n + 1) >= 0; }
  }

  function Deliveries(es: seq<Event>): nat {
    if es == [] then 0 else Deliveries(es[..|es| - 1]) + if es[|es| - 1].Deliver? then 1 else 0
  }

  function PagesOf(es: seq<Event>): nat {
    if es == [] then 0 else PagesOf(es[..|es| - 1]) + if es[|es| - 1].Deliver? then es[|es| - 1].pages else 0
  }

  function HandlerSteps(es: seq<Event>): nat {
    if es == [] then 0 else HandlerSteps(es[..|es| - 1]) + if es[|es| - 1].Run? then 1 else 0
  }

  /** The potential that the deliveries of a run have brought in. */
  function Supply(es: seq<Event>, n: nat): nat {
    (13 * Deliveries(es) + 2 * PagesOf(es)) * (2 * n + 1) + 2 * Deliveries(es)
  }

  lemma StageSum(a: nat, b: nat, n: nat)
    ensures (a + b) * (2 * n + 1) == a * (2 * n + 1) + b * (2 * n + 1)
  {
  }

  /** What the delivery of a request for `pages` pages is worth. */
  function Worth(pages: nat, n: nat): nat {
    (13 + 2 * pages) * (2 * n + 1) + 2
  }

  lemma {:induction false} CountsSnoc(es: seq<Event>, e: Event)
    ensures Deliveries(es + [e]) == Deliveries(es) + if e.Deliver? then 1 else 0
    ensures PagesOf(es + [e]) == PagesOf(es) + if e.Deliver? then e.pages else 0
    ensures HandlerSteps(es + [e]) == HandlerSteps(es) + if e.Run? then 1 else 0
  {
    assert (es + [e])[..|es + [e]| - 1] == es;
  }

  lemma {:induction false} SupplySnoc(es: seq<Event>, e: Event, n: nat)
    ensures Supply(es + [e], n) == Supply(es, n) + if e.Deliver? then Worth(e.pages, n) else 0
  {
    CountsSnoc(es, e);
    if e.Deliver? { StageSum(13 * Deliveries(es) + 2 * PagesOf(es), 13 + 2 * e.pages, n); }
  }

  lemma {:induction false} PotentialRises(ths: seq<Thread>, kind: Kind, pages: nat, n: nat)
    ensures Potential(ths + [Thread(kind, pages, AtLock)], n) == Potential(ths, n) + Worth(pages, n)
  {
    SumsAppend(ths, Thread(kind, pages, AtLock));
    StageSum(Stages(ths), 13 + 2 * pages, n);
  }

  /** Handler steps taken and potential left never exceed what was delivered. */
  lemma {:induction false} Conserved(ss: seq<State>, es: seq<Event>, i: nat, n: nat)
    requires IsRun(ss, es) && i <= |es| && Deliveries(es[..i]) <= n
    ensures |ss[i].threads| == Deliveries(es[..i])
    ensures HandlerSteps(es[..i]) + Potential(ss[i].threads, n) <= Supply(es[..i], n)
  {
    if i > 0 {
      var e, before := es[i - 1], es[..i - 1];
      assert es[..i] == before + [e];
      CountsSnoc(before, e);
      SupplySnoc(before, e, n);
      Conserved(ss, es, i - 1, n);
      InvInRuns(ss, es, i - 1);
      EventCosts(ss[i - 1], e, n);
    }
  }

  lemma EventCosts(s: State, e: Event, n: nat)
    requires Inv(s) && Enabled(s, e) && |s.threads| <= n
    ensures var s' := Apply(s, e);
      |s'.threads| == |s.threads| + (if e.Deliver? then 1 else 0)
      && if e.Run? then Potential(s'.threads, n) < Potential(s.threads, n)
         else Potential(s'.threads, n) == Potential(s.threads, n) + Worth(e.pages, n)
  {
    match e
    case Run(t, fail) => PotentialFalls(s, t, fail, n);
    case Deliver(kind, pages) => PotentialRises(s.threads, kind, pages, n);
  }

  /**
    However threads and deliveries interleave, a run with `d` requests for `p` pages has at most
    (13d + 2p)(2d + 1) + 2d handler steps.
  */
  lemma {:induction false} RunBound(ss: seq<State>, es: seq<Event>)
    requires IsRun(ss, es)
    ensures HandlerSteps(es) <= Supply(es, Deliveries(es))
  {
    assert es[..|es|] == es;
    Conserved(ss, es, |es|, Deliveries(es));
  }

  /** A run that no handler can continue has finished every request. */
  lemma StuckIsDone(ss: seq<State>, es: seq<Event>)
    requires IsRun(ss, es) && forall t: nat :: !Enabled(ss[|es|], Run(t, false))
    ensures AllDone(ss[|es|])
  {
    InvInRuns(ss, es, |es|);
    if !AllDone(ss[|es|]) { NoDeadlock(ss[|es|]); }
  }

  type Scheduler = (seq<Event>, State) -> Event

  /** A scheduler picks, in every unfinished state and after any history, some thread that can run. */
  ghost predicate Schedules(sched: Scheduler) {
    forall h, s | Inv(s) && !AllDone(s) :: sched(h, s).Run? && Enabled(s, sched(h, s))
  }

  ghost function AnyRunnable(h: seq<Event>, s: State): Event {
    if exists t: nat :: Enabled(s, Run(t, false)) then
      var t: nat :| Enabled(s, Run(t, false));
      Run(t, false)
    else Deliver(Init, 0)
  }

  lemma SchedulerExists()
    ensures Schedules(AnyRunnable)
  {
    forall h, s | Inv(s) && !AllDone(s)
      ensures AnyRunnable(h, s).Run? && Enabled(s, AnyRunnable(h, s))
    {
      NoDeadlock(s);
    }
  }

  /** The state after the scheduler has been followed for `n` steps. */
  ghost function Scheduled(h: seq<Event>, s: State, sched: Scheduler, n: nat): (s': State)
    requires Inv(s) && Schedules(sched)
    ensures Inv(s')
    decreases n
  {
    if n == 0 || AllDone(s) then s
    else
      var e := sched(h, s);
      assert Inv(Apply(s, e)) by { InvStep(s, e); }
      Scheduled(h + [e], Apply(s, e), sched, n - 1)
  }

  /** Under every scheduler, from every reachable state, all delivered requests finish. */
  lemma {:induction false} AllRequestsFinish(h: seq<Event>, s: State, sched: Scheduler) returns (n: nat)
    requires Inv(s) && Schedules(sched)
    ensures AllDone(Scheduled(h, s, sched, n)) && n <= Potential(s.threads, |s.threads|)
    decreases Potential(s.threads, |s.threads|)
  {
    n := 0;
    if !AllDone(s) {
      var e := sched(h, s);
      InvStep(s, e);
      PotentialFalls(s, e.tid, e.fail, |s.threads|);
      var m := AllRequestsFinish(h + [e], Apply(s, e), sched);
      n := m + 1;
    }
  }

  /** When all are done the counters are back to zero and the gate is past the last request. */
  lemma DoneIsQuiet(s: State)
    requires Inv(s) && AllDone(s)
    ensures s.sh.readers == 0 && s.sh.writers == 0 && s.sh.lock.None? && s.sh.seqno == |s.threads|
  {
    CountZero(s.threads, Read);
    CountZero(s.threads, Write);
    assert s.sh.lock.Some? ==> ThreadInv(s.sh, s.sh.lock.value, s.threads[s.sh.lock.value]);
    assert s.sh.seqno < |s.threads| ==> ThreadInv(s.sh, s.sh.seqno, s.threads[s.sh.seqno]);
  }
}
