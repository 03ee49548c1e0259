/** A symbolic operand stack and local-variable array on which the
    instructions the injector emits can be executed, following the rules of
    section 6.5 of the Java Virtual Machine Specification for the opcodes
    involved: which values an instruction needs on the stack, of which
    category (section 2.11.1), and what it leaves there. It is the yardstick
    for the rewrites: it shows which values a handler call receives and how
    high the stack grows on the way. */
module StackMachine {
  import opened Results
  import opened JvmTypes
  import opened Bytecode

  /** What a value stands for: an input of the rewritten code, the value
      returned by a method call, or the value read from a field. */
  datatype Tag = Input(id: int) | Returned(owner: string, name: string) | Read(owner: string, name: string)

  /** A symbolic value and the number of slots it takes (its category). */
  datatype Value = Value(tag: Tag, size: nat)

  datatype State = State(stack: seq<Value>, locals: map<int, Value>)

  /** Running code either gets stuck (an instruction finds its operands
      missing or of the wrong category, which the JVM's verifier rejects)
      or ends in a state, having reached a peak stack height on the way. */
  datatype Trace = Stuck | Ran(final: State, peak: nat)

  /** The height of a stack in slots. */
  function Height(stack: seq<Value>): nat {
    HeightOf(stack, |stack|)
  }

  /** The height of the lowest `n` values of a stack. */
  function HeightOf(stack: seq<Value>, n: nat): nat
    requires n <= |stack|
  {
    if n == 0 then 0 else HeightOf(stack, n - 1) + stack[n - 1].size
  }

  /** The values `vals` have the sizes of the types `ts`, one for one. */
  predicate Fits(vals: seq<Value>, ts: seq<JType>) {
    |vals| == |ts| && forall i :: 0 <= i < |vals| ==> vals[i].size == Size(ts[i])
  }

  /** The slot size a load opcode moves (`ILOAD`..`ALOAD`). */
  function LoadSize(op: int): nat {
    if op == LLOAD || op == DLOAD then 2 else 1
  }

  /** A load pushes the value its slot holds, if that value has the size
      the opcode moves; a store pops the top value into its slot, if that
      value has the size the opcode moves. */
  function VarStep(op: int, n: int, st: State): Option<State> {
    var s := st.stack;
    if ILOAD <= op <= ALOAD then
      if n in st.locals && st.locals[n].size == LoadSize(op)
      then Some(State(s + [st.locals[n]], st.locals)) else None
    else if ISTORE <= op <= ASTORE then
      if |s| > 0 && s[|s| - 1].size == LoadSize(op - (ISTORE - ILOAD))
      then Some(State(s[..|s| - 1], st.locals[n := s[|s| - 1]])) else None
    else None
  }

  /** The stack manipulations the rewrites use. */
  function SimpleStep(op: int, st: State): Option<State> {
    var s := st.stack;
    if op == SWAP then
      if |s| >= 2 && s[|s| - 1].size == 1 && s[|s| - 2].size == 1
      then Some(State(s[..|s| - 2] + [s[|s| - 1], s[|s| - 2]], st.locals)) else None
    else if op == POP then
      if |s| >= 1 && s[|s| - 1].size == 1
      then Some(State(s[..|s| - 1], st.locals)) else None
    else if op == DUP_X2 then
      // form 2 only: a category 1 value over a category 2 value
      if |s| >= 2 && s[|s| - 1].size == 1 && s[|s| - 2].size == 2
      then Some(State(s[..|s| - 2] + [s[|s| - 1], s[|s| - 2], s[|s| - 1]], st.locals)) else None
    else None
  }

  /** The stack below operands of the types `ts` on top of `s`, if the top
      values have those types' sizes, popped from the last one down. */
  function PopTypes(ts: seq<JType>, s: seq<Value>): Option<seq<Value>>
    decreases |ts|
  {
    if ts == [] then Some(s)
    else if s == [] || s[|s| - 1].size != Size(ts[|ts| - 1]) then None
    else PopTypes(ts[..|ts| - 1], s[..|s| - 1])
  }

  /** Pops operands of the types `ts` and pushes `pushed`. */
  function PopPush(ts: seq<JType>, pushed: seq<Value>, st: State): Option<State> {
    match PopTypes(ts, st.stack)
    case None => None
    case Some(rest) => Some(State(rest + pushed, st.locals))
  }

  /** What a method call or a field access leaves on the stack: the call's
      result unless it returns void, the value a field read obtains, nothing
      for a field write. */
  function Pushed(insn: Insn): seq<Value> {
    match insn
    case MethodInsn(_, owner, name, _, ret) => if ret == Void then [] else [Value(Returned(owner, name), Size(ret))]
    case FieldInsn(op, owner, name, fieldType) =>
      if op == GETSTATIC || op == GETFIELD then [Value(Read(owner, name), Size(fieldType))] else []
    case _ => []
  }

  function Step(insn: Insn, st: State): Option<State> {
    match insn
    case VarInsn(op, n) => VarStep(op, n, st)
    case SimpleInsn(op) => SimpleStep(op, st)
    case MethodInsn(_, _, _, _, _) => PopPush(Operands(insn), Pushed(insn), st)
    case FieldInsn(op, _, _, _) => if GETSTATIC <= op <= PUTFIELD then PopPush(Operands(insn), Pushed(insn), st) else None
    case OtherInsn(_) => None
  }

  /** Operands that fit the types are popped, leaving what lies below. */
  lemma {:induction false} PopTypesTop(ts: seq<JType>, base: seq<Value>, top: seq<Value>)
    requires Fits(top, ts)
    ensures PopTypes(ts, base + top) == Some(base)
    decreases |ts|
  {
    if ts == [] {
      assert base + top == base;
    } else {
      var n := |ts| - 1;
      var s := base + top;
      assert s[..|s| - 1] == base + top[..n];
      assert s[|s| - 1] == top[n];
      assert Fits(top[..n], ts[..n]);
      PopTypesTop(ts[..n], base, top[..n]);
    }
  }

  /** With operands that fit on top, `PopPush` replaces them. */
  lemma {:induction false} PopPushTop(ts: seq<JType>, pushed: seq<Value>, base: seq<Value>, top: seq<Value>, locals: map<int, Value>)
    requires Fits(top, ts)
    ensures PopPush(ts, pushed, State(base + top, locals)) == Some(State(base + pushed, locals))
  {
    PopTypesTop(ts, base, top);
  }

  /** Runs `code` from `st`, one instruction after the other; the peak is the
      highest of the stack heights before, between and after them. */
  function Run(code: seq<Insn>, st: State): Trace {
    RunOf(code, |code|, st)
  }

  /** Runs the first `n` instructions of `code`. */
  function RunOf(code: seq<Insn>, n: nat, st: State): Trace
    requires n <= |code|
  {
    if n == 0 then Ran(st, Height(st.stack)) else StepTrace(RunOf(code, n - 1, st), code[n - 1])
  }

  /** Continues a trace with one instruction. */
  function StepTrace(t: Trace, insn: Insn): Trace {
    match t
    case Stuck => Stuck
    case Ran(m, p) =>
      match Step(insn, m)
      case None => Stuck
      case Some(next) => Ran(next, Max(p, Height(next.stack)))
  }

  /** A trace whose peak is raised to at least `p`. */
  function Lift(p: nat, t: Trace): Trace {
    match t
    case Stuck => Stuck
    case Ran(f, q) => Ran(f, Max(p, q))
  }

  /** Raising the peak before a step or after it is the same. */
  lemma {:induction false} StepTraceLift(p: nat, t: Trace, insn: Insn)
    ensures StepTrace(Lift(p, t), insn) == Lift(p, StepTrace(t, insn))
  {
    if t.Ran? && Step(insn, t.final).Some? {
      var next := Step(insn, t.final).value;
      assert Max(Max(p, t.peak), Height(next.stack)) == Max(p, Max(t.peak, Height(next.stack)));
    }
  }

  function Max(a: nat, b: nat): nat {
    if a < b then b else a
  }

  /** Continues a trace with more code. */
  function Then(t: Trace, code: seq<Insn>): Trace {
    match t
    case Stuck => Stuck
    case Ran(m, p) =>
      match Run(code, m)
      case Stuck => Stuck
      case Ran(f, q) => Ran(f, Max(p, q))
  }

  lemma {:induction false} HeightAppend(a: seq<Value>, b: seq<Value>)
    ensures Height(a + b) == Height(a) + Height(b)
  {
    HeightOfAppend(a, b, |b|);
  }

  lemma {:induction false} HeightOfAppend(a: seq<Value>, b: seq<Value>, k: nat)
    requires k <= |b|
    ensures HeightOf(a + b, |a| + k) == Height(a) + HeightOf(b, k)
  {
    if k == 0 {
      HeightOfPrefix(a, b, |a|);
    } else {
      HeightOfAppend(a, b, k - 1);
      assert (a + b)[|a| + k - 1] == b[k - 1];
    }
  }

  lemma {:induction false} HeightOfPrefix(a: seq<Value>, b: seq<Value>, n: nat)
    requires n <= |a|
    ensures HeightOf(a + b, n) == HeightOf(a, n)
  {
    if n > 0 {
      HeightOfPrefix(a, b, n - 1);
      assert (a + b)[n - 1] == a[n - 1];
    }
  }

  /** Values that fit a list of types take exactly its slot size. */
  lemma {:induction false} FitsHeight(vals: seq<Value>, ts: seq<JType>)
    requires Fits(vals, ts)
    ensures Height(vals) == ArgsSize(ts)
  {
    FitsHeightOf(vals, ts, |ts|);
    assert ts[..|ts|] == ts;
  }

  lemma {:induction false} FitsHeightOf(vals: seq<Value>, ts: seq<JType>, n: nat)
    requires Fits(vals, ts) && n <= |ts|
    ensures HeightOf(vals, n) == ArgsSize(ts[..n])
  {
    if n > 0 {
      FitsHeightOf(vals, ts, n - 1);
      assert ts[..n][..n - 1] == ts[..n - 1];
    }
  }

  lemma {:induction false} FitsAppend(v: seq<Value>, w: seq<Value>, ts: seq<JType>, us: seq<JType>)
    requires Fits(v, ts) && Fits(w, us)
    ensures Fits(v + w, ts + us)
  {
  }

  /** A run's peak is never below the height it started from, nor below the
      height it ends at. */
  lemma {:induction false} PeakBounds(code: seq<Insn>, st: State)
    requires Run(code, st).Ran?
    ensures Run(code, st).peak >= Height(st.stack)
    ensures Run(code, st).peak >= Height(Run(code, st).final.stack)
  {
    PeakBoundsOf(code, |code|, st);
  }

  lemma {:induction false} PeakBoundsOf(code: seq<Insn>, n: nat, st: State)
    requires n <= |code| && RunOf(code, n, st).Ran?
    ensures RunOf(code, n, st).peak >= Height(st.stack)
    ensures RunOf(code, n, st).peak >= Height(RunOf(code, n, st).final.stack)
  {
    if n > 0 {
      PeakBoundsOf(code, n - 1, st);
    }
  }

  /** Code runs the same whatever follows it. */
  lemma {:induction false} RunOfPrefix(a: seq<Insn>, b: seq<Insn>, n: nat, st: State)
    requires n <= |a|
    ensures RunOf(a + b, n, st) == RunOf(a, n, st)
  {
    if n > 0 {
      RunOfPrefix(a, b, n - 1, st);
      assert (a + b)[n - 1] == a[n - 1];
      assert RunOf(a + b, n, st) == StepTrace(RunOf(a, n - 1, st), a[n - 1]);
    }
  }

  /** Running two pieces of code one after the other is running their
      concatenation. */
  lemma {:induction false} RunConcat(a: seq<Insn>, b: seq<Insn>, st: State)
    ensures Run(a + b, st) == Then(Run(a, st), b)
  {
    RunOfConcat(a, b, |b|, st);
  }

  lemma {:induction false} RunOfConcat(a: seq<Insn>, b: seq<Insn>, k: nat, st: State)
    requires k <= |b|
    ensures RunOf(a + b, |a| + k, st) ==
      match Run(a, st)
      case Stuck => Stuck
      case Ran(m, p) =>
        match RunOf(b, k, m)
        case Stuck => Stuck
        case Ran(f, q) => Ran(f, Max(p, q))
  {
    if k == 0 {
      RunOfPrefix(a, b, |a|, st);
      if Run(a, st).Ran? {
        PeakBounds(a, st);
      }
    } else {
      RunOfConcat(a, b, k - 1, st);
      assert (a + b)[|a| + k - 1] == b[k - 1];
      if Run(a, st).Ran? {
        StepTraceLift(Run(a, st).peak, RunOf(b, k - 1, Run(a, st).final), b[k - 1]);
      }
    }
  }

  /** A single instruction that steps to `next`. */
  lemma {:induction false} RunOne(insn: Insn, st: State)
    ensures Run([insn], st) ==
      match Step(insn, st)
      case None => Stuck
      case Some(next) => Ran(next, Max(Height(st.stack), Height(next.stack)))
  {
    assert RunOf([insn], 0, st) == Ran(st, Height(st.stack));
  }
}
