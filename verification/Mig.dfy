/**
  The request checks that the stub compiler emits for a server. Each argument list
  becomes a small program over the received message; an interpreter says what the
  program accepts and what it reads.
*/
module Mig {
  import opened Prelude

  const HEADER := 24
  const TYPE_SHORT := 4
  const TYPE_LONG := 12
  const ADDRESS_SIZE := 4
  const WORD := 4

  /**
    A message type; `size` is in bits, `elemNumber` the items in one array element, and a
    polymorphic type has no `name`.
  */
  datatype IpcType = IpcType(
    inLine: bool, varArray: bool, indefinite: bool,
    number: nat, size: nat, elemNumber: nat,
    name: Option<nat>)

  /** `quick` is akbRequestQC: the descriptor is checked by one comparison of the whole word. */
  datatype Arg = Arg(request: bool, send: bool, parent: Option<nat>, longForm: bool, quick: bool, it: IpcType)

  /** A type descriptor as found in a message. */
  datatype Desc = Desc(
    inLine: bool, longForm: bool, dealloc: bool, unused: nat,
    name: nat, number: nat, size: nat)

  datatype Msg = Msg(size: nat, complex: bool, desc: int -> Desc)

  /** Names of port rights; the first and the last of the range. */
  const MOVE_RECEIVE := 16
  const MAKE_SEND_ONCE := 21

  predicate PortAny(name: nat) {
    MOVE_RECEIVE <= name <= MAKE_SEND_ONCE
  }

  // ---------- sizes ----------

  function RoundWord(n: nat): (r: nat)
    ensures r % WORD == 0 && n <= r < n + WORD && (n % WORD == 0 ==> r == n)
  {
    (n + WORD - 1) / WORD * WORD
  }

  function Bytes(number: nat, size: nat): nat {
    (number * size + 7) / 8
  }

  /** itCalculateSizeInfo */
  function TypeSize(it: IpcType): nat {
    if it.inLine then Bytes(it.number, it.size) else ADDRESS_SIZE
  }

  function PadSize(it: IpcType): nat {
    if it.inLine then (WORD - TypeSize(it) % WORD) % WORD else 0
  }

  /** The room a field has in the request structure, which is its largest size. */
  function Full(it: IpcType): (r: nat)
    ensures r == RoundWord(TypeSize(it)) && r % WORD == 0
  {
    PadRounds(TypeSize(it));
    TypeSize(it) + PadSize(it)
  }

  /** The padding of itCalculateSizeInfo completes the last word. */
  lemma PadRounds(n: nat)
    ensures n + (WORD - n % WORD) % WORD == RoundWord(n)
  {
    var q, r := n / 4, n % 4;
    assert n == 4 * q + r;
    if r == 0 {
      assert (n + 3) / 4 == q;
    } else {
      assert (n + 3) / 4 == q + 1;
    }
  }

  function MinTypeSize(it: IpcType): nat {
    if it.inLine && it.varArray then 0 else Full(it)
  }

  /** Variable-sized data inside the message. */
  predicate Variable(a: Arg) {
    a.it.varArray && a.it.inLine
  }

  predicate IsVar(a: Arg) {
    a.request && Variable(a)
  }

  function DescSize(a: Arg): nat {
    if a.longForm then TYPE_LONG else if a.it.size / 8 > TYPE_SHORT then a.it.size / 8 else TYPE_SHORT
  }

  /** What the parser and the implicit-argument passes guarantee. */
  ghost predicate ArgOk(args: seq<Arg>, i: nat) {
    i < |args| ==>
      var a := args[i];
      0 < a.it.size <= 32 && a.it.size % 8 == 0 && a.it.elemNumber > 0 && (a.it.indefinite ==> Variable(a))
      && (Variable(a) && (a.request || a.send) ==> a.request && a.parent.None?)
      && (a.quick ==> !a.longForm && !a.it.varArray && a.it.name.Some?)
      && (a.parent.Some? ==> !a.request && a.parent.value < i && args[a.parent.value].parent.None?)
  }

  ghost predicate ArgsOk(args: seq<Arg>) {
    forall i :: ArgOk(args, i)
  }

  function Elem(it: IpcType): nat {
    Bytes(it.elemNumber, it.size)
  }

  function Multiplier(it: IpcType): nat
    requires it.elemNumber > 0
  {
    Elem(it) / it.elemNumber
  }

  /** The size expression that is emitted for a variable field, on the field's descriptor. */
  function Delta(it: IpcType, d: Desc): nat
    requires it.elemNumber > 0
  {
    if it.indefinite && !d.inLine then ADDRESS_SIZE
    else if Elem(it) % WORD != 0 then RoundWord(Multiplier(it) * d.number)
    else Multiplier(it) * d.number
  }

  /** The size a field takes in a message that pads every field to words. */
  function Padded(it: IpcType, d: Desc): nat {
    if it.indefinite && !d.inLine then ADDRESS_SIZE else RoundWord(Bytes(d.number, it.size))
  }

  lemma MultiplierIs(it: IpcType)
    requires 0 < it.size && it.size % 8 == 0 && it.elemNumber > 0
    ensures Multiplier(it) == it.size / 8 && Elem(it) == it.elemNumber * (it.size / 8)
  {
    var m, n := it.size / 8, it.elemNumber;
    assert n * it.size == 8 * (n * m);
    assert Elem(it) == n * m;
    Divides(n, m);
  }

  lemma Divides(n: int, m: int)
    requires n > 0
    ensures n * m / n == m
  {
    var p := n * m;
    var d := m - p / n;
    assert p == p / n * n + p % n;
    assert d * n == p - p / n * n;
    assert d >= 1 ==> d * n >= n;
    assert d <= -1 ==> d * n <= -n;
  }

  /** The emitted size is the padded size exactly when it rounds, or has nothing to round. */
  lemma DeltaExact(it: IpcType, d: Desc)
    requires 0 < it.size && it.size % 8 == 0 && it.elemNumber > 0
    ensures Delta(it, d) <= Padded(it, d)
    ensures Delta(it, d) == Padded(it, d) <==> Whole(it, d)
  {
    MultiplierIs(it);
    var m := it.size / 8;
    assert d.number * it.size == 8 * (d.number * m);
    assert Bytes(d.number, it.size) == m * d.number;
  }

  /** The field is out of line, or is rounded, or is whole words by itself. */
  predicate Whole(it: IpcType, d: Desc)
    requires it.elemNumber > 0
  {
    (it.indefinite && !d.inLine) || Elem(it) % WORD != 0 || Bytes(d.number, it.size) % WORD == 0
  }

  // ---------- sums over the argument list ----------

  /** Header, descriptors and the least data: rtFindSize of the first `i` arguments. */
  function MinOff(args: seq<Arg>, i: nat): nat
    requires i <= |args|
  {
    if i == 0 then HEADER
    else MinOff(args, i - 1) + if args[i - 1].request then DescSize(args[i - 1]) + MinTypeSize(args[i - 1].it) else 0
  }

  function RequestSize(args: seq<Arg>): nat {
    MinOff(args, |args|)
  }

  /** Where a descriptor is in the request structure, all earlier fields at their largest. */
  function StructOff(args: seq<Arg>, i: nat): nat
    requires i <= |args|
  {
    if i == 0 then HEADER
    else StructOff(args, i - 1) + if args[i - 1].request then DescSize(args[i - 1]) + Full(args[i - 1].it) else 0
  }

  function Actual(a: Arg, d: Desc): nat {
    if Variable(a) && a.it.elemNumber > 0 then Delta(a.it, d) else Full(a.it)
  }

  /** Where a descriptor really is in a received message. */
  function TrueOff(args: seq<Arg>, msg: Msg, i: nat): nat
    requires i <= |args|
  {
    if i == 0 then HEADER
    else
      var o := TrueOff(args, msg, i - 1);
      o + if args[i - 1].request then DescSize(args[i - 1]) + Actual(args[i - 1], msg.desc(o)) else 0
  }

  /** The emitted sizes of the variable fields among the first `i` arguments, together. */
  function SumVar(args: seq<Arg>, msg: Msg, i: nat): nat
    requires i <= |args|
  {
    if i == 0 then 0
    else SumVar(args, msg, i - 1)
         + if IsVar(args[i - 1]) then Actual(args[i - 1], msg.desc(TrueOff(args, msg, i - 1))) else 0
  }

  function SumPadded(args: seq<Arg>, msg: Msg, i: nat): nat
    requires i <= |args|
  {
    if i == 0 then 0
    else SumPadded(args, msg, i - 1)
         + if IsVar(args[i - 1]) then Padded(args[i - 1].it, msg.desc(TrueOff(args, msg, i - 1))) else 0
  }

  function VarsIn(args: seq<Arg>, i: nat): nat
    requires i <= |args|
  {
    if i == 0 then 0 else VarsIn(args, i - 1) + if IsVar(args[i - 1]) then 1 else 0
  }

  /** Where the message pointer of an argument stands relative to the first. */
  function Base(args: seq<Arg>, msg: Msg, i: nat): int
    requires i <= |args|
  {
    TrueOff(args, msg, i) - StructOff(args, i)
  }

  lemma {:induction false} TrueIsMinPlusVar(args: seq<Arg>, msg: Msg, i: nat)
    requires i <= |args|
    requires ArgsOk(args)
    ensures TrueOff(args, msg, i) == MinOff(args, i) + SumVar(args, msg, i)
  {
    if i > 0 {
      assert ArgOk(args, i - 1);
      TrueIsMinPlusVar(args, msg, i - 1);
    }
  }

  lemma {:induction false} SumsGrow(args: seq<Arg>, msg: Msg, i: nat, j: nat)
    requires i <= j <= |args|
    ensures MinOff(args, i) <= MinOff(args, j) && SumVar(args, msg, i) <= SumVar(args, msg, j)
    ensures VarsIn(args, i) <= VarsIn(args, j)
  {
    if i < j { SumsGrow(args, msg, i, j - 1); }
  }

  // ---------- positions ----------

  predicate Placed(a: Arg) {
    a.parent.None? && (a.request || a.send)
  }

  /** argRequestPos: how many variable fields precede, or -1; an implicit argument follows its parent. */
  function Pos(args: seq<Arg>, i: nat): int
    requires i < |args|
  {
    if args[i].parent.None? then if Placed(args[i]) then VarsIn(args, i) else -1
    else if args[i].parent.value < i && Placed(args[args[i].parent.value]) then VarsIn(args, args[i].parent.value)
    else -1
  }

  /** rtMaxRequestPos over the first `i` arguments. */
  function MaxPos(args: seq<Arg>, i: nat): nat
    requires i <= |args|
  {
    if i == 0 then 0 else if Placed(args[i - 1]) then VarsIn(args, i - 1) else MaxPos(args, i - 1)
  }

  // ---------- whether a request carries rights or memory ----------

  /** rtCheckSimpleOut: some argument makes the message complex, or may do so. */
  predicate MustBeComplex(args: seq<Arg>) {
    exists i :: 0 <= i < |args| && args[i].request
      && ((args[i].it.name.Some? && PortAny(args[i].it.name.value)) || !args[i].it.inLine)
  }

  predicate MayBeComplex(args: seq<Arg>) {
    exists i :: 0 <= i < |args| && args[i].request && (args[i].it.name.None? || args[i].it.indefinite)
  }

  /** rtSimpleCheckRequest: the complex bit has one right value. */
  predicate ComplexFixed(args: seq<Arg>) {
    MustBeComplex(args) || !MayBeComplex(args)
  }

  // ---------- the emitted program ----------

  datatype Instr =
    | SizeIs(n: nat)                             // reject unless msgh_size is exactly n
    | SizeAtLeast(n: nat)                        // reject unless msgh_size is at least n
    | ComplexIs(b: bool)                         // reject unless the complex bit is b
    | TypeCheck(pos: int, off: nat, a: Arg, ports: bool)
    | FinalSize(pos: int, off: nat, a: Arg, n: nat)
    | SetDelta(pos: int, off: nat, a: Arg)
    | DeltaIs(n: nat)
    | DeltaAtLeast(n: nat)
    | Shrink                                     // msgh_size -= msgh_size_delta
    | Advance(pos: int, full: nat)               // In<pos+1>P from In<pos>P and msgh_size_delta

  /** WriteCheckHead */
  function HeadCheck(args: seq<Arg>): seq<Instr> {
    [if VarsIn(args, |args|) > 0 then SizeAtLeast(RequestSize(args)) else SizeIs(RequestSize(args))]
    + if ComplexFixed(args) then [ComplexIs(MustBeComplex(args))] else []
  }

  /** WriteCheckMsgSize */
  function SizeCheck(args: seq<Arg>, i: nat): seq<Instr>
    requires i < |args|
  {
    var pos, off, a := Pos(args, i), StructOff(args, i), args[i];
    if pos == MaxPos(args, |args|) then [FinalSize(pos, off, a, RequestSize(args))]
    else if pos + 1 == VarsIn(args, |args|) then [SetDelta(pos, off, a), DeltaIs(RequestSize(args))]
    else [SetDelta(pos, off, a), DeltaAtLeast(RequestSize(args)), Shrink]
  }

  /** WriteTypeCheckArg; rights in polymorphic arguments are looked at only if the complex bit is not fixed. */
  function ArgCheck(args: seq<Arg>, i: nat): seq<Instr>
    requires i < |args|
  {
    if !args[i].request then []
    else [TypeCheck(Pos(args, i), StructOff(args, i), args[i], !ComplexFixed(args))] + SizePart(args, i)
  }

  function SizePart(args: seq<Arg>, i: nat): seq<Instr>
    requires i < |args|
  {
    if Variable(args[i]) then SizeCheck(args, i) else []
  }

  predicate MustAdvance(args: seq<Arg>, i: nat, last: Option<nat>)
    requires i < |args|
  {
    last.Some? && last.value < i && Pos(args, last.value) < Pos(args, i)
  }

  /** The advance that has to come before argument `i`, if any. */
  function Due(args: seq<Arg>, i: nat, last: Option<nat>): seq<Instr>
    requires i < |args|
  {
    if MustAdvance(args, i, last) then [Advance(Pos(args, last.value), Full(args[last.value].it))] else []
  }

  /** The variable argument whose advance is due after argument `i` has passed, or is not a request. */
  function After(args: seq<Arg>, i: nat, last: Option<nat>): Option<nat>
    requires i < |args|
  {
    if IsVar(args[i]) then Some(i) else if MustAdvance(args, i, last) then None else last
  }

  /** WriteTypeCheckRequestArgs from argument `i` on; `last` is the variable argument whose advance is still due. */
  function Body(args: seq<Arg>, i: nat, last: Option<nat>): seq<Instr>
    requires i <= |args|
    decreases |args| - i
  {
    if i == |args| then []
    else Due(args, i, last) + (ArgCheck(args, i) + Body(args, i + 1, After(args, i, last)))
  }

  function Program(args: seq<Arg>): seq<Instr> {
    HeadCheck(args) + Body(args, 0, None)
  }

  // ---------- its meaning ----------

  /** The message size as counted down, msgh_size_delta, and the message pointers relative to the first. */
  datatype Regs = Regs(size: int, delta: int, inp: seq<int>)

  datatype Next = Go(st: Regs) | Rejected | Faulted

  /** A descriptor read through a message pointer stays inside the message. */
  predicate CanRead(msg: Msg, st: Regs, pos: int, off: nat, a: Arg) {
    0 <= pos < |st.inp| && 0 <= st.inp[pos] + off && st.inp[pos] + off + DescSize(a) <= msg.size
  }

  /** WriteTypeCheck: the quick check compares every bit, the other one the fields that are determined. */
  predicate TypeOk(a: Arg, d: Desc, complex: bool, ports: bool) {
    if a.quick then
      a.it.name == Some(d.name)
      && d == Desc(a.it.inLine, false, !a.it.inLine, 0, d.name, a.it.number, a.it.size)
    else
      (!a.it.indefinite ==> d.inLine == a.it.inLine) && d.longForm == a.longForm
      && (if a.it.name.Some? then d.name == a.it.name.value else ports && PortAny(d.name) ==> complex)
      && (!a.it.varArray ==> d.number == a.it.number) && d.size == a.it.size
  }

  function Step(c: Instr, msg: Msg, st: Regs): Next {
    match c
    case SizeIs(n) => if st.size == n then Go(st) else Rejected
    case SizeAtLeast(n) => if st.size >= n then Go(st) else Rejected
    case ComplexIs(b) => if msg.complex == b then Go(st) else Rejected
    case TypeCheck(pos, off, a, ports) =>
      if !CanRead(msg, st, pos, off, a) then Faulted
      else if TypeOk(a, msg.desc(st.inp[pos] + off), msg.complex, ports) then Go(st) else Rejected
    case FinalSize(pos, off, a, n) =>
      if !CanRead(msg, st, pos, off, a) then Faulted
      else if st.size == n + Actual(a, msg.desc(st.inp[pos] + off)) then Go(st) else Rejected
    case SetDelta(pos, off, a) =>
      if !CanRead(msg, st, pos, off, a) then Faulted
      else Go(st.(delta := Actual(a, msg.desc(st.inp[pos] + off))))
    case DeltaIs(n) => if st.size == n + st.delta then Go(st) else Rejected
    case DeltaAtLeast(n) => if st.size >= n + st.delta then Go(st) else Rejected
    case Shrink => if st.size < st.delta then Faulted else Go(st.(size := st.size - st.delta))
    case Advance(pos, full) =>
      if pos < 0 || pos + 1 != |st.inp| then Faulted
      else Go(st.(inp := st.inp + [st.inp[pos] + st.delta - full]))
  }

  /** A program goes on while no instruction rejects the message; a read outside it, or an underflow, is a fault. */
  function Steps(prog: seq<Instr>, msg: Msg, st: Regs): Next {
    if prog == [] then Go(st)
    else
      var n := Step(prog[0], msg, st);
      if n.Go? then Steps(prog[1..], msg, n.st) else n
  }

  /** Acceptance leaves the message pointers behind. */
  function Check(args: seq<Arg>, msg: Msg): Next {
    Steps(Program(args), msg, Regs(msg.size, 0, [0]))
  }

  lemma {:induction false} StepsAppend(a: seq<Instr>, b: seq<Instr>, msg: Msg, st: Regs)
    ensures var n := Steps(a, msg, st);
      Steps(a + b, msg, st) == if n.Go? then Steps(b, msg, n.st) else n
  {
    if a == [] {
      assert a + b == b;
    } else {
      assert (a + b)[1..] == a[1..] + b;
      var n := Step(a[0], msg, st);
      if n.Go? { StepsAppend(a[1..], b, msg, n.st); }
    }
  }

  lemma {:induction false} StepsOne(c: Instr, msg: Msg, st: Regs)
    ensures Steps([c], msg, st) == Step(c, msg, st)
  {
  }

  lemma {:induction false} StepsTwo(c: Instr, d: Instr, msg: Msg, st: Regs)
    ensures var n := Step(c, msg, st);
      Steps([c, d], msg, st) == if n.Go? then Step(d, msg, n.st) else n
  {
    assert [c, d] == [c] + [d];
    StepsAppend([c], [d], msg, st);
    StepsOne(c, msg, st);
    if Step(c, msg, st).Go? { StepsOne(d, msg, Step(c, msg, st).st); }
  }

  // ---------- what it accepts ----------

  ghost predicate TypedAt(args: seq<Arg>, msg: Msg, j: nat) {
    j < |args| && args[j].request ==>
      TypeOk(args[j], msg.desc(TrueOff(args, msg, j)), msg.complex, !ComplexFixed(args))
  }

  ghost predicate SizeRight(args: seq<Arg>, msg: Msg) {
    msg.size == RequestSize(args) + SumVar(args, msg, |args|)
  }

  ghost predicate GoodFrom(args: seq<Arg>, msg: Msg, i: nat) {
    (forall j :: i <= j ==> TypedAt(args, msg, j)) && SizeRight(args, msg)
  }

  ghost predicate ComplexRight(args: seq<Arg>, msg: Msg) {
    ComplexFixed(args) ==> msg.complex == MustBeComplex(args)
  }

  /** The message pointer of argument `j` reaches its true place. */
  ghost predicate Aimed(args: seq<Arg>, msg: Msg, inp: seq<int>, j: nat) {
    j < |args| && args[j].request ==>
      0 <= Pos(args, j) < |inp| && inp[Pos(args, j)] + StructOff(args, j) == TrueOff(args, msg, j)
  }

  /** What holds between arguments while a message has not been rejected. */
  ghost predicate Mid(args: seq<Arg>, msg: Msg, i: nat, last: Option<nat>, st: Regs)
    requires i <= |args|
  {
    (forall j :: 0 <= j < i ==> Aimed(args, msg, st.inp, j))
    && PointersOk(args, msg, i, last, st) && SizeOk(args, msg, i, st)
  }

  ghost predicate PointersOk(args: seq<Arg>, msg: Msg, i: nat, last: Option<nat>, st: Regs)
    requires i <= |args|
  {
    var q := VarsIn(args, i);
    match last
    case None => |st.inp| == q + 1 && st.inp[q] == Base(args, msg, i)
    case Some(v) =>
      v < i && IsVar(args[v]) && 0 < q == |st.inp| && Pos(args, v) == q - 1
      && (forall p :: v < p < i ==> !Placed(args[p]))
      && (q - 1 == MaxPos(args, |args|) || st.inp[q - 1] + st.delta - Full(args[v].it) == Base(args, msg, i))
  }

  ghost predicate SizeOk(args: seq<Arg>, msg: Msg, i: nat, st: Regs)
    requires i <= |args|
  {
    if VarsIn(args, i) < VarsIn(args, |args|)
    then st.size == msg.size - SumVar(args, msg, i) && st.size >= RequestSize(args)
    else SizeRight(args, msg)
  }

  /** A part of the program for argument `i` lets the message through and keeps `Mid`, or rejects a bad message. */
  ghost predicate Fair(args: seq<Arg>, msg: Msg, i: nat, last: Option<nat>, n: Next)
    requires i < |args|
  {
    match n
    case Go(st) => Mid(args, msg, i + 1, last, st)
    case Rejected => !GoodFrom(args, msg, i)
    case Faulted => false
  }

  lemma {:induction false} MaxPosAtLeast(args: seq<Arg>, i: nat, n: nat)
    requires i < n <= |args| && Placed(args[i]) && ArgsOk(args)
    ensures MaxPos(args, n) >= VarsIn(args, i)
  {
    if i + 1 < n {
      MaxPosAtLeast(args, i, n - 1);
      if Placed(args[n - 1]) { VarsGrow(args, i, n - 1); }
    }
  }

  lemma {:induction false} VarsGrow(args: seq<Arg>, i: nat, j: nat)
    requires i <= j <= |args|
    ensures VarsIn(args, i) <= VarsIn(args, j)
  {
    if i < j { VarsGrow(args, i, j - 1); }
  }

  /** Nothing variable in between: the sums do not move. */
  lemma {:induction false} NoVarsBetween(args: seq<Arg>, msg: Msg, i: nat, j: nat)
    requires i <= j <= |args| && VarsIn(args, i) == VarsIn(args, j)
    ensures SumVar(args, msg, i) == SumVar(args, msg, j)
  {
    if i < j {
      VarsGrow(args, i, j - 1);
      NoVarsBetween(args, msg, i, j - 1);
    }
  }

  /** A variable argument at the last position is the last variable argument. */
  lemma {:induction false} LastPosition(args: seq<Arg>, i: nat, n: nat)
    requires i < n <= |args| && ArgsOk(args) && IsVar(args[i]) && VarsIn(args, i) == MaxPos(args, n)
    ensures VarsIn(args, n) == VarsIn(args, i) + 1
  {
    assert ArgOk(args, n - 1);
    VarsGrow(args, i + 1, n);
    if i + 1 < n {
      VarsGrow(args, i + 1, n - 1);
      LastPosition(args, i, n - 1);
    }
  }

  /** Implicit arguments never move the pointer. */
  lemma OnlyPlacedAdvance(args: seq<Arg>, i: nat, v: nat)
    requires v < i < |args| && ArgsOk(args) && IsVar(args[v]) && forall p :: v < p < i ==> !Placed(args[p])
    ensures Pos(args, v) < Pos(args, i) ==> Placed(args[i])
  {
    assert ArgOk(args, i) && ArgOk(args, v);
    if args[i].parent.Some? && args[i].parent.value <= v { VarsGrow(args, args[i].parent.value, v); }
  }

  /** The pending advance puts the next pointer where the next argument needs it. */
  lemma AdvanceOk(args: seq<Arg>, msg: Msg, i: nat, last: Option<nat>, st: Regs)
    requires i < |args| && ArgsOk(args) && Mid(args, msg, i, last, st) && MustAdvance(args, i, last)
    ensures Placed(args[i])
    ensures var c := Advance(Pos(args, last.value), Full(args[last.value].it));
      Step(c, msg, st).Go? && Mid(args, msg, i, None, Step(c, msg, st).st)
  {
    var v, q := last.value, VarsIn(args, i);
    OnlyPlacedAdvance(args, i, v);
    MaxPosAtLeast(args, i, |args|);
    var st' := st.(inp := st.inp + [st.inp[q - 1] + st.delta - Full(args[v].it)]);
    forall j | 0 <= j < i ensures Aimed(args, msg, st'.inp, j) { assert Aimed(args, msg, st.inp, j); }
  }

  /** Whether or not an advance was due, afterwards none is, as far as a request is concerned. */
  lemma {:induction false} DueOk(args: seq<Arg>, msg: Msg, i: nat, last: Option<nat>, st: Regs)
    requires i < |args| && ArgsOk(args) && Mid(args, msg, i, last, st)
    ensures var now := if MustAdvance(args, i, last) then None else last;
      var n := Steps(Due(args, i, last), msg, st);
      n.Go? && Mid(args, msg, i, now, n.st) && !MustAdvance(args, i, now)
      && After(args, i, now) == After(args, i, last) && (args[i].request ==> now.None?)
  {
    if MustAdvance(args, i, last) {
      AdvanceOk(args, msg, i, last, st);
      StepsOne(Advance(Pos(args, last.value), Full(args[last.value].it)), msg, st);
    } else {
      assert ArgOk(args, i);
    }
  }

  /** An argument without variable data moves nothing. */
  lemma SkipOk(args: seq<Arg>, msg: Msg, i: nat, last: Option<nat>, st: Regs)
    requires i < |args| && ArgsOk(args) && Mid(args, msg, i, last, st) && !IsVar(args[i]) && !MustAdvance(args, i, last)
    ensures Mid(args, msg, i + 1, last, st)
  {
    assert ArgOk(args, i);
    assert Base(args, msg, i + 1) == Base(args, msg, i);
    forall j | 0 <= j < i + 1 ensures Aimed(args, msg, st.inp, j) {
      if j < i { assert Aimed(args, msg, st.inp, j); }
    }
  }

  /** The descriptor of the next argument is read where it is, inside the message. */
  lemma {:induction false} ReadOk(args: seq<Arg>, msg: Msg, i: nat, st: Regs)
    requires i < |args| && ArgsOk(args) && Mid(args, msg, i, None, st) && args[i].request
    ensures CanRead(msg, st, Pos(args, i), StructOff(args, i), args[i]) && Pos(args, i) == VarsIn(args, i)
    ensures st.inp[Pos(args, i)] + StructOff(args, i) == TrueOff(args, msg, i)
  {
    assert ArgOk(args, i);
    TrueIsMinPlusVar(args, msg, i);
    SumsGrow(args, msg, i + 1, |args|);
  }

  lemma {:induction false} NextVar(args: seq<Arg>, msg: Msg, i: nat, st: Regs, st': Regs)
    requires i < |args| && ArgsOk(args) && Mid(args, msg, i, None, st) && IsVar(args[i]) && st'.inp == st.inp
    requires SizeOk(args, msg, i + 1, st')
    requires Pos(args, i) == MaxPos(args, |args|) || st'.delta == Actual(args[i], msg.desc(TrueOff(args, msg, i)))
    ensures Mid(args, msg, i + 1, Some(i), st')
  {
    assert ArgOk(args, i);
    forall j | 0 <= j < i + 1 ensures Aimed(args, msg, st'.inp, j) {
      if j < i { assert Aimed(args, msg, st.inp, j); }
    }
  }

  /** The comparison that closes the account of a message whose last variable argument this is. */
  lemma {:induction false} ClosingArith(args: seq<Arg>, msg: Msg, i: nat, st: Regs)
    requires i < |args| && IsVar(args[i]) && SizeOk(args, msg, i, st) && VarsIn(args, i) + 1 == VarsIn(args, |args|)
    ensures var act := Actual(args[i], msg.desc(TrueOff(args, msg, i)));
      st.size == RequestSize(args) + act <==> SizeRight(args, msg)
  {
    NoVarsBetween(args, msg, i + 1, |args|);
  }

  /** Nothing follows: the exact comparison uses the size expression directly. */
  lemma {:induction false} FinalCheckOk(args: seq<Arg>, msg: Msg, i: nat, st: Regs)
    requires i < |args| && ArgsOk(args) && Mid(args, msg, i, None, st) && IsVar(args[i])
    requires Pos(args, i) == MaxPos(args, |args|)
    ensures Fair(args, msg, i, Some(i), Steps(SizeCheck(args, i), msg, st))
  {
    ReadOk(args, msg, i, st);
    LastPosition(args, i, |args|);
    ClosingArith(args, msg, i, st);
    FinalSteps(Pos(args, i), StructOff(args, i), args[i], RequestSize(args), msg, st);
    if SizeRight(args, msg) { NextVar(args, msg, i, st, st); }
  }

  lemma {:induction false} FinalSteps(pos: int, off: nat, a: Arg, n: nat, msg: Msg, st: Regs)
    requires CanRead(msg, st, pos, off, a)
    ensures Steps([FinalSize(pos, off, a, n)], msg, st)
      == if st.size == n + Actual(a, msg.desc(st.inp[pos] + off)) then Go(st) else Rejected
  {
    StepsOne(FinalSize(pos, off, a, n), msg, st);
  }

  /** The last variable argument, with others to follow: the exact comparison, and the pointer will move. */
  lemma {:induction false} LastCheckOk(args: seq<Arg>, msg: Msg, i: nat, st: Regs)
    requires i < |args| && ArgsOk(args) && Mid(args, msg, i, None, st) && IsVar(args[i])
    requires Pos(args, i) != MaxPos(args, |args|) && Pos(args, i) + 1 == VarsIn(args, |args|)
    ensures Fair(args, msg, i, Some(i), Steps(SizeCheck(args, i), msg, st))
  {
    ReadOk(args, msg, i, st);
    ClosingArith(args, msg, i, st);
    var st' := st.(delta := Actual(args[i], msg.desc(TrueOff(args, msg, i))));
    EqualSteps(SetDelta(Pos(args, i), StructOff(args, i), args[i]), RequestSize(args), msg, st, st');
    if SizeRight(args, msg) { NextVar(args, msg, i, st, st'); }
  }

  lemma {:induction false} EqualSteps(c: Instr, n: nat, msg: Msg, st: Regs, st': Regs)
    requires Step(c, msg, st) == Go(st')
    ensures Steps([c, DeltaIs(n)], msg, st) == if st'.size == n + st'.delta then Go(st') else Rejected
  {
    StepsTwo(c, DeltaIs(n), msg, st);
  }

  /** More variable arguments follow: the size so far is checked, then taken off what is left. */
  lemma {:induction false} MoreCheckOk(args: seq<Arg>, msg: Msg, i: nat, st: Regs)
    requires i < |args| && ArgsOk(args) && Mid(args, msg, i, None, st) && IsVar(args[i])
    requires Pos(args, i) != MaxPos(args, |args|) && Pos(args, i) + 1 != VarsIn(args, |args|)
    ensures Fair(args, msg, i, Some(i), Steps(SizeCheck(args, i), msg, st))
  {
    ReadOk(args, msg, i, st);
    VarsGrow(args, i + 1, |args|);
    var n, act := RequestSize(args), Actual(args[i], msg.desc(TrueOff(args, msg, i)));
    var st' := st.(delta := act, size := st.size - act);
    ShrinkSteps(SetDelta(Pos(args, i), StructOff(args, i), args[i]), n, msg, st, st.(delta := act));
    MoreArith(args, msg, i, st, st', act);
    if st.size >= n + act { NextVar(args, msg, i, st, st'); }
  }

  lemma {:induction false} MoreArith(args: seq<Arg>, msg: Msg, i: nat, st: Regs, st': Regs, act: nat)
    requires i < |args| && IsVar(args[i]) && SizeOk(args, msg, i, st) && VarsIn(args, i) + 1 < VarsIn(args, |args|)
    requires act == Actual(args[i], msg.desc(TrueOff(args, msg, i))) && st'.size == st.size - act
    ensures st.size >= RequestSize(args) + act ==> SizeOk(args, msg, i + 1, st')
    ensures st.size < RequestSize(args) + act ==> !SizeRight(args, msg)
  {
    SumsGrow(args, msg, i + 1, |args|);
  }

  /** The three instructions never subtract more than there is. */
  lemma {:induction false} ShrinkSteps(c: Instr, n: nat, msg: Msg, st: Regs, st': Regs)
    requires Step(c, msg, st) == Go(st') && st'.delta >= 0
    ensures Steps([c, DeltaAtLeast(n), Shrink], msg, st)
      == if st'.size >= n + st'.delta then Go(st'.(size := st'.size - st'.delta)) else Rejected
  {
    assert [c, DeltaAtLeast(n), Shrink] == [c] + [DeltaAtLeast(n), Shrink];
    StepsAppend([c], [DeltaAtLeast(n), Shrink], msg, st);
    StepsOne(c, msg, st);
    StepsTwo(DeltaAtLeast(n), Shrink, msg, st');
  }

  /** The emitted size checks of one variable argument. */
  lemma {:induction false} SizeCheckOk(args: seq<Arg>, msg: Msg, i: nat, st: Regs)
    requires i < |args| && ArgsOk(args) && Mid(args, msg, i, None, st) && IsVar(args[i])
    ensures Fair(args, msg, i, Some(i), Steps(SizeCheck(args, i), msg, st))
  {
    if Pos(args, i) == MaxPos(args, |args|) {
      FinalCheckOk(args, msg, i, st);
    } else if Pos(args, i) + 1 == VarsIn(args, |args|) {
      LastCheckOk(args, msg, i, st);
    } else {
      MoreCheckOk(args, msg, i, st);
    }
  }

  lemma {:induction false} TypeCheckOk(args: seq<Arg>, msg: Msg, i: nat, st: Regs)
    requires i < |args| && ArgsOk(args) && Mid(args, msg, i, None, st) && args[i].request
    ensures var c := TypeCheck(Pos(args, i), StructOff(args, i), args[i], !ComplexFixed(args));
      Steps([c], msg, st) == if TypedAt(args, msg, i) then Go(st) else Rejected
  {
    ReadOk(args, msg, i, st);
    StepsOne(TypeCheck(Pos(args, i), StructOff(args, i), args[i], !ComplexFixed(args)), msg, st);
  }

  /** All that is emitted for one request argument. */
  lemma {:induction false} RequestOk(args: seq<Arg>, msg: Msg, i: nat, st: Regs)
    requires i < |args| && ArgsOk(args) && Mid(args, msg, i, None, st) && args[i].request
    ensures var n := Steps(ArgCheck(args, i), msg, st);
      Fair(args, msg, i, After(args, i, None), n) && (n.Go? ==> TypedAt(args, msg, i))
  {
    TypeCheckOk(args, msg, i, st);
    var c := TypeCheck(Pos(args, i), StructOff(args, i), args[i], !ComplexFixed(args));
    StepsAppend([c], SizePart(args, i), msg, st);
    if TypedAt(args, msg, i) {
      if Variable(args[i]) { SizeCheckOk(args, msg, i, st); } else { SkipOk(args, msg, i, None, st); }
    }
  }

  /** What is emitted for any argument, once no advance is due. */
  lemma {:induction false} ArgOkThen(args: seq<Arg>, msg: Msg, i: nat, now: Option<nat>, st: Regs)
    requires i < |args| && ArgsOk(args) && Mid(args, msg, i, now, st) && !MustAdvance(args, i, now)
    requires args[i].request ==> now.None?
    ensures var n := Steps(ArgCheck(args, i), msg, st);
      Fair(args, msg, i, After(args, i, now), n) && (n.Go? ==> TypedAt(args, msg, i))
  {
    if args[i].request { RequestOk(args, msg, i, st); } else { SkipOk(args, msg, i, now, st); }
  }

  /** The verdict on arguments `i` and up. */
  ghost predicate Decides(args: seq<Arg>, msg: Msg, i: nat, n: Next) {
    match n
    case Go(st) => GoodFrom(args, msg, i) && forall j :: Aimed(args, msg, st.inp, j)
    case Rejected => !GoodFrom(args, msg, i)
    case Faulted => false
  }

  lemma DecidesOneMore(args: seq<Arg>, msg: Msg, i: nat, n: Next)
    requires TypedAt(args, msg, i) && Decides(args, msg, i + 1, n)
    ensures Decides(args, msg, i, n)
  {
  }

  lemma BodyEnd(args: seq<Arg>, msg: Msg, last: Option<nat>, st: Regs)
    requires Mid(args, msg, |args|, last, st)
    ensures Decides(args, msg, |args|, Go(st))
  {
  }

  lemma BodyJoin(args: seq<Arg>, msg: Msg, i: nat, last: Option<nat>, n: Next, rest: Next)
    requires i < |args| && Fair(args, msg, i, last, n)
    requires n.Go? ==> TypedAt(args, msg, i) && Decides(args, msg, i + 1, rest)
    ensures Decides(args, msg, i, if n.Go? then rest else n)
  {
    if n.Go? { DecidesOneMore(args, msg, i, rest); }
  }

  /** From any argument on, the program lets exactly the good messages through, and never faults. */
  lemma {:induction false} BodyOk(args: seq<Arg>, msg: Msg, i: nat, last: Option<nat>, st: Regs)
    requires i <= |args| && ArgsOk(args) && Mid(args, msg, i, last, st)
    ensures Decides(args, msg, i, Steps(Body(args, i, last), msg, st))
    decreases |args| - i
  {
    if i == |args| {
      BodyEnd(args, msg, last, st);
    } else {
      var st1, n := ArgSteps(args, msg, i, last, st);
      BodySteps(args, msg, i, last, st, st1);
      var next := After(args, i, last);
      if n.Go? { BodyOk(args, msg, i + 1, next, n.st); }
      BodyJoin(args, msg, i, next, n, if n.Go? then Steps(Body(args, i + 1, next), msg, n.st) else n);
    }
  }

  lemma {:induction false} ArgSteps(args: seq<Arg>, msg: Msg, i: nat, last: Option<nat>, st: Regs)
    returns (st1: Regs, n: Next)
    requires i < |args| && ArgsOk(args) && Mid(args, msg, i, last, st)
    ensures Steps(Due(args, i, last), msg, st) == Go(st1) && n == Steps(ArgCheck(args, i), msg, st1)
    ensures Fair(args, msg, i, After(args, i, last), n) && (n.Go? ==> TypedAt(args, msg, i))
  {
    DueOk(args, msg, i, last, st);
    st1 := Steps(Due(args, i, last), msg, st).st;
    ArgOkThen(args, msg, i, if MustAdvance(args, i, last) then None else last, st1);
    n := Steps(ArgCheck(args, i), msg, st1);
  }

  lemma {:induction false} BodySteps(args: seq<Arg>, msg: Msg, i: nat, last: Option<nat>, st: Regs, st1: Regs)
    requires i < |args| && Steps(Due(args, i, last), msg, st) == Go(st1)
    ensures var n := Steps(ArgCheck(args, i), msg, st1);
      Steps(Body(args, i, last), msg, st)
      == if n.Go? then Steps(Body(args, i + 1, After(args, i, last)), msg, n.st) else n
  {
    var rest := Body(args, i + 1, After(args, i, last));
    StepsAppend(Due(args, i, last), ArgCheck(args, i) + rest, msg, st);
    StepsAppend(ArgCheck(args, i), rest, msg, st1);
  }

  lemma {:induction false} HeadOk(args: seq<Arg>, msg: Msg)
    requires ArgsOk(args)
    ensures var st := Regs(msg.size, 0, [0]);
      var n := Steps(HeadCheck(args), msg, st);
      if n.Go? then n.st == st && Mid(args, msg, 0, None, st) && ComplexRight(args, msg)
      else n.Rejected? && !(SizeRight(args, msg) && ComplexRight(args, msg))
  {
    var st := Regs(msg.size, 0, [0]);
    var c := HeadCheck(args)[0];
    SumsGrow(args, msg, 0, |args|);
    if VarsIn(args, |args|) == 0 { NoVarsBetween(args, msg, 0, |args|); }
    if ComplexFixed(args) {
      assert HeadCheck(args) == [c, ComplexIs(MustBeComplex(args))];
      StepsTwo(c, ComplexIs(MustBeComplex(args)), msg, st);
    } else {
      assert HeadCheck(args) == [c];
      StepsOne(c, msg, st);
    }
  }

  /**
    For every argument list and every message: the checks never read outside the message and never
    subtract below zero; they accept exactly the messages whose descriptors and complex bit are as
    declared and whose size is the fixed size plus the emitted sizes of the variable fields; and on
    acceptance every message pointer reaches its argument.
  */
  lemma {:induction false} ChecksExact(args: seq<Arg>, msg: Msg)
    requires ArgsOk(args)
    ensures !Check(args, msg).Faulted?
    ensures Check(args, msg).Go? <==> GoodFrom(args, msg, 0) && ComplexRight(args, msg)
    ensures Check(args, msg).Go? ==> forall j :: Aimed(args, msg, Check(args, msg).st.inp, j)
  {
    var st := Regs(msg.size, 0, [0]);
    HeadOk(args, msg);
    StepsAppend(HeadCheck(args), Body(args, 0, None), msg, st);
    if Steps(HeadCheck(args), msg, st).Go? { BodyOk(args, msg, 0, None, st); }
  }

  // ---------- emitted sizes and padded sizes ----------

  ghost predicate WholeAt(args: seq<Arg>, msg: Msg, j: nat) {
    j < |args| && IsVar(args[j]) && args[j].it.elemNumber > 0 ==> Whole(args[j].it, msg.desc(TrueOff(args, msg, j)))
  }

  lemma {:induction false} SumsCompare(args: seq<Arg>, msg: Msg, i: nat)
    requires ArgsOk(args) && i <= |args|
    ensures SumVar(args, msg, i) <= SumPadded(args, msg, i)
    ensures SumVar(args, msg, i) == SumPadded(args, msg, i) <==> forall j :: 0 <= j < i ==> WholeAt(args, msg, j)
  {
    if i > 0 {
      SumsCompare(args, msg, i - 1);
      assert ArgOk(args, i - 1);
      if IsVar(args[i - 1]) { DeltaExact(args[i - 1].it, msg.desc(TrueOff(args, msg, i - 1))); }
      assert WholeAt(args, msg, i - 1) ==>
          SumPadded(args, msg, i) - SumVar(args, msg, i) == SumPadded(args, msg, i - 1) - SumVar(args, msg, i - 1);
    }
  }

  /** An accepted message has the padded size exactly when no unrounded field ends inside a word. */
  lemma {:induction false} PaddedExact(args: seq<Arg>, msg: Msg)
    requires ArgsOk(args) && Check(args, msg).Go?
    ensures msg.size == RequestSize(args) + SumPadded(args, msg, |args|)
      <==> forall j :: 0 <= j < |args| ==> WholeAt(args, msg, j)
  {
    ChecksExact(args, msg);
    SumsCompare(args, msg, |args|);
  }

  /** Where the descriptor of argument `j` is in a message that pads every field to words. */
  function PaddedOff(args: seq<Arg>, msg: Msg, j: nat): nat
    requires j <= |args|
  {
    MinOff(args, j) + SumPadded(args, msg, j)
  }

  /** The pointer of an argument reaches its padded place exactly when no earlier unrounded field ends inside a word. */
  lemma {:induction false} PaddedPlace(args: seq<Arg>, msg: Msg, j: nat)
    requires ArgsOk(args) && Check(args, msg).Go? && j < |args| && args[j].request
    ensures var inp := Check(args, msg).st.inp;
      0 <= Pos(args, j) < |inp|
      && (inp[Pos(args, j)] + StructOff(args, j) == PaddedOff(args, msg, j)
          <==> forall i :: 0 <= i < j ==> WholeAt(args, msg, i))
  {
    ChecksExact(args, msg);
    assert Aimed(args, msg, Check(args, msg).st.inp, j);
    TrueIsMinPlusVar(args, msg, j);
    SumsCompare(args, msg, j);
  }

  /** One request argument: an inline array of at most sixteen elements of four bytes each. */
  function QuadArgs(): seq<Arg> {
    [Arg(true, true, None, false, false, IpcType(true, true, false, 64, 8, 4, Some(8)))]
  }

  /** A message that claims five bytes of it. */
  function FiveBytes(): Msg {
    Msg(33, false, _ => Desc(true, false, false, 0, 8, 5, 8))
  }

  /** Those five bytes are accepted without padding. */
  lemma {:induction false} UnpaddedAccepted()
    ensures ArgsOk(QuadArgs()) && Check(QuadArgs(), FiveBytes()).Go?
    ensures FiveBytes().size != RequestSize(QuadArgs()) + SumPadded(QuadArgs(), FiveBytes(), |QuadArgs()|)
  {
    var args, msg := QuadArgs(), FiveBytes();
    var it := args[0].it;
    assert Elem(it) == 4 && Multiplier(it) == 1;
    assert TrueOff(args, msg, 0) == 24 && Delta(it, msg.desc(24)) == 5 && Padded(it, msg.desc(24)) == 8;
    assert MinOff(args, 0) == 24 && MinOff(args, 1) == 28;
    assert SumVar(args, msg, 0) == 0 && SumVar(args, msg, 1) == 5;
    assert SumPadded(args, msg, 0) == 0 && SumPadded(args, msg, 1) == 8;
    assert TypedAt(args, msg, 0);
    ChecksExact(args, msg);
  }

  // ---------- the passes over the argument list ----------

  /** One argument's part of rtFindSize. */
  method AddSize(was: nat, a: Arg) returns (size: nat)
    requires was % WORD == 0 && a.it.size <= 32
    ensures size == was + DescSize(a) + MinTypeSize(a.it) && size % WORD == 0
  {
    size := was;
    if a.longForm {
      size := RoundWord(size);
      size := size + TYPE_LONG;
    } else {
      var bs := a.it.size / 8;
      size := size + if bs > TYPE_SHORT then bs else TYPE_SHORT;
    }
    assert size == was + DescSize(a) && DescSize(a) % WORD == 0;
    WholeWords(was, DescSize(a), MinTypeSize(a.it));
    size := size + MinTypeSize(a.it);
  }

  lemma WholeWords(a: nat, b: nat, c: nat)
    requires a % WORD == 0 && b % WORD == 0 && c % WORD == 0
    ensures (a + b + c) % WORD == 0
  {
    assert a + b + c == 4 * (a / 4 + b / 4 + c / 4);
  }

  /** rtFindSize; aligning for a long descriptor never adds anything, since every part is whole words. */
  method FindSize(args: seq<Arg>) returns (size: nat)
    requires ArgsOk(args)
    ensures size == RequestSize(args) && size % WORD == 0
  {
    size := HEADER;
    var i := 0;
    while i < |args|
      invariant i <= |args| && size == MinOff(args, i) && size % WORD == 0
    {
      assert ArgOk(args, i);
      if args[i].request { size := AddSize(size, args[i]); }
      i := i + 1;
    }
  }

  /** rtCheckSimpleOut, for the request */
  method CheckSimple(args: seq<Arg>) returns (fixed: bool, simple: bool)
    ensures fixed == ComplexFixed(args) && simple == !MustBeComplex(args)
  {
    var mayBeComplex, mustBeComplex := false, false;
    for i := 0 to |args|
      invariant mayBeComplex == MayBeComplex(args[..i]) && mustBeComplex == MustBeComplex(args[..i])
    {
      var before, now := args[..i], args[..i + 1];
      assert now[i] == args[i] && forall j :: 0 <= j < i ==> now[j] == before[j];
      if args[i].request {
        var it := args[i].it;
        if it.name.None? { mayBeComplex := true; }
        if it.indefinite { mayBeComplex := true; }
        if (it.name.Some? && PortAny(it.name.value)) || !it.inLine { mustBeComplex := true; }
      }
    }
    assert args[..|args|] == args;
    fixed, simple := mustBeComplex || !mayBeComplex, !mustBeComplex;
  }

  /** The part an argument has in the reply. */
  datatype Out = Out(reply: bool, returned: bool, returnSnd: bool, replyCopy: bool, varNeeded: bool)

  predicate InReply(args: seq<Arg>, outs: seq<Out>, i: nat)
    requires |outs| == |args| && i < |args|
  {
    args[i].parent.None? && (outs[i].reply || outs[i].returned)
  }

  /** The variable fields of the reply among the first `i` arguments. */
  function ReplyVars(args: seq<Arg>, outs: seq<Out>, i: nat): nat
    requires |outs| == |args| && i <= |args|
  {
    if i == 0 then 0
    else ReplyVars(args, outs, i - 1) + if InReply(args, outs, i - 1) && Variable(args[i - 1]) then 1 else 0
  }

  /** The argument itself, or the one it was made for. */
  function Owner(args: seq<Arg>, i: nat): nat
    requires i < |args|
  {
    if args[i].parent.Some? && args[i].parent.value < i then args[i].parent.value else i
  }

  function ReplyPos(args: seq<Arg>, outs: seq<Out>, i: nat): int
    requires |outs| == |args| && i < |args|
  {
    if InReply(args, outs, Owner(args, i)) then ReplyVars(args, outs, Owner(args, i)) else -1
  }

  function MaxReplyPos(args: seq<Arg>, outs: seq<Out>, i: nat): nat
    requires |outs| == |args| && i <= |args|
  {
    if i == 0 then 0
    else if InReply(args, outs, i - 1) then ReplyVars(args, outs, i - 1) else MaxReplyPos(args, outs, i - 1)
  }

  /** A field of variable size lies before the argument's place in the reply. */
  ghost predicate BehindVariable(args: seq<Arg>, outs: seq<Out>, i: nat)
    requires |outs| == |args| && i < |args|
  {
    InReply(args, outs, Owner(args, i))
    && exists j :: 0 <= j < Owner(args, i) && InReply(args, outs, j) && Variable(args[j])
  }

  lemma {:induction false} ReplyVarsSome(args: seq<Arg>, outs: seq<Out>, i: nat)
    requires |outs| == |args| && i <= |args|
    ensures ReplyVars(args, outs, i) > 0 <==> exists j :: 0 <= j < i && InReply(args, outs, j) && Variable(args[j])
  {
    if i > 0 { ReplyVarsSome(args, outs, i - 1); }
  }

  /** What is added to an argument's features on account of the fields before it in the reply. */
  ghost predicate NeedsVar(args: seq<Arg>, outs: seq<Out>, i: nat)
    requires |outs| == |args| && i < |args|
  {
    outs[i].varNeeded || (outs[i].returnSnd && !outs[i].replyCopy && BehindVariable(args, outs, i))
  }

  datatype Places = Places(pos: seq<int>, vars: nat, max: nat)

  ghost predicate RequestPlaced(args: seq<Arg>, p: Places, i: nat)
    requires i <= |args|
  {
    |p.pos| == i && (forall j :: 0 <= j < i ==> p.pos[j] == Pos(args, j))
    && p.vars == VarsIn(args, i) && p.max == MaxPos(args, i)
  }

  ghost predicate ReplyPlaced(args: seq<Arg>, outs: seq<Out>, p: Places, i: nat)
    requires |outs| == |args| && i <= |args|
  {
    |p.pos| == i && (forall j :: 0 <= j < i ==> p.pos[j] == ReplyPos(args, outs, j))
    && p.vars == ReplyVars(args, outs, i) && p.max == MaxReplyPos(args, outs, i)
  }

  /** The next argument follows its parent, or gets a place if it is in the message. */
  function Place(p: Places, a: Arg, here: bool): Places {
    if a.parent.Some? then
      p.(pos := p.pos + [if a.parent.value < |p.pos| then p.pos[a.parent.value] else -1])
    else if !here then p.(pos := p.pos + [-1])
    else Places(p.pos + [p.vars], p.vars + if Variable(a) then 1 else 0, p.vars)
  }

  lemma NextRequest(args: seq<Arg>, p: Places, i: nat)
    requires ArgsOk(args) && i < |args| && RequestPlaced(args, p, i)
    ensures RequestPlaced(args, Place(p, args[i], args[i].request || args[i].send), i + 1)
  {
    assert ArgOk(args, i);
  }

  lemma NextReply(args: seq<Arg>, outs: seq<Out>, p: Places, i: nat)
    requires ArgsOk(args) && |outs| == |args| && i < |args| && ReplyPlaced(args, outs, p, i)
    ensures ReplyPlaced(args, outs, Place(p, args[i], outs[i].reply || outs[i].returned), i + 1)
  {
    assert ArgOk(args, i);
    if args[i].parent.Some? { assert args[args[i].parent.value].parent.None?; }
  }

  /**
    rtCheckVariable: positions count the variable fields before, in the request and in the reply, and an
    argument that follows such a field in the reply is not stored into it directly.
  */
  method CheckVariable(args: seq<Arg>, outs: seq<Out>) returns (req: Places, rep: Places, needed: seq<bool>)
    requires ArgsOk(args) && |outs| == |args|
    ensures RequestPlaced(args, req, |args|) && ReplyPlaced(args, outs, rep, |args|)
    ensures |needed| == |args| && forall i :: 0 <= i < |args| ==> needed[i] == NeedsVar(args, outs, i)
  {
    req, rep, needed := Places([], 0, 0), Places([], 0, 0), [];
    var i := 0;
    while i < |args|
      invariant i <= |args| && RequestPlaced(args, req, i) && ReplyPlaced(args, outs, rep, i)
      invariant |needed| == i && forall j :: 0 <= j < i ==> needed[j] == NeedsVar(args, outs, j)
    {
      var a, o := args[i], outs[i];
      NextRequest(args, req, i);
      NextReply(args, outs, rep, i);
      req := Place(req, a, a.request || a.send);
      rep := Place(rep, a, o.reply || o.returned);
      ReplyVarsSome(args, outs, Owner(args, i));
      needed := needed + [o.varNeeded || (o.returnSnd && !o.replyCopy && rep.pos[i] > 0)];
      i := i + 1;
    }
  }

  /** WriteTypeCheckRequestArgs, after WriteCheckHead */
  method WriteChecks(args: seq<Arg>) returns (prog: seq<Instr>)
    requires ArgsOk(args)
    ensures prog == Program(args)
  {
    prog := HeadCheck(args);
    var i, lastVarArg: Option<nat> := 0, None;
    while i < |args|
      invariant i <= |args| && (lastVarArg.Some? ==> lastVarArg.value < i)
      invariant prog + Body(args, i, lastVarArg) == Program(args)
    {
      Emitted(args, i, lastVarArg, prog);
      prog := prog + Due(args, i, lastVarArg) + ArgCheck(args, i);
      lastVarArg := After(args, i, lastVarArg);
      i := i + 1;
    }
  }

  /** What one pass of that loop adds. */
  lemma {:induction false} Emitted(args: seq<Arg>, i: nat, last: Option<nat>, prog: seq<Instr>)
    requires i < |args|
    ensures prog + Body(args, i, last)
         == prog + Due(args, i, last) + ArgCheck(args, i) + Body(args, i + 1, After(args, i, last))
  {
    Regroup(prog, Due(args, i, last), ArgCheck(args, i), Body(args, i + 1, After(args, i, last)));
  }

  lemma Regroup(a: seq<Instr>, b: seq<Instr>, c: seq<Instr>, d: seq<Instr>)
    ensures a + (b + (c + d)) == (a + b) + c + d && (b == [] ==> a + (c + d) == a + c + d)
  {
  }
}
