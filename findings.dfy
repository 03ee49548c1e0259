/** Two defects of the setter for a static field redirected to an instance
    handler: `SWAP` cannot put `this` beneath a `long` or `double`, and the
    recorded stack growth leaves out the slot `this` takes. Each is shown on
    the setter as written (`SetterPlanAsWritten`) and related to the
    corrected setter (`SetterPlan`), which the rest of the model uses. */
module Findings {
  import opened Results
  import opened JvmTypes
  import opened Bytecode
  import opened StackMachine
  import opened Signatures
  import opened Rewrite
  import opened Soundness

  /** A well-typed write of a static field. */
  predicate StaticWrite(insn: Insn) {
    insn.FieldInsn? && insn.opcode == PUTSTATIC && WellTypedInsn(insn)
  }

  /** The setter plan for a static field, as written or corrected. */
  function StaticSetter(corrected: bool, h: Handler, insn: Insn, arguments: seq<JType>, argIndices: seq<int>,
                        firstFree: int): Result<Plan>
    requires insn.FieldInsn? && |argIndices| == |arguments|
  {
    if corrected then SetterPlan(h, true, Object(insn.owner), insn.fieldType, arguments, argIndices, firstFree)
    else SetterPlanAsWritten(h, true, Object(insn.owner), insn.fieldType, arguments, argIndices, firstFree)
  }

  /** A run that reaches the end of some code passed through its last but
      one instruction at a height no greater than its peak. */
  lemma {:induction false} PeakPrefix(code: seq<Insn>, st: State)
    requires |code| > 0 && Run(code, st).Ran?
    ensures Run(code[..|code| - 1], st).Ran?
    ensures Run(code[..|code| - 1], st).peak <= Run(code, st).peak
  {
    var pre := code[..|code| - 1];
    assert code == pre + [code[|code| - 1]];
    RunConcat(pre, [code[|code| - 1]], st);
  }

  /** The code of the static setter for an instance handler, as written and
      corrected: `this`, put beneath the value, then the forwarded arguments
      and the handler call. */
  lemma {:induction false} StaticSetterCode(corrected: bool, h: Handler, insn: Insn, arguments: seq<JType>, argIndices: seq<int>,
                                            firstFree: int)
    requires insn.FieldInsn? && !h.isStatic && |argIndices| == |arguments|
    ensures StaticSetter(corrected, h, insn, arguments, argIndices, firstFree).Ok? ==>
      var p := StaticSetter(corrected, h, insn, arguments, argIndices, firstFree).value;
      p.code == [VarInsn(ALOAD, 0)] + (if corrected then ReceiverUnder(insn.fieldType) else [SimpleInsn(SWAP)]) +
                Forwarded(p.forwards, arguments, argIndices) + [InvokeHandler(h)]
  {
  }

  /** `ALOAD 0; SWAP` over a category 2 value gets stuck, whatever follows. */
  lemma {:induction false} SwapOverWideStuck(base: seq<Value>, v: Value, locals: map<int, Value>, rest: seq<Insn>)
    requires v.size == 2 && 0 in locals
    ensures Run([VarInsn(ALOAD, 0), SimpleInsn(SWAP)] + rest, State(base + [v], locals)) == Stuck
  {
    var st := State(base + [v], locals);
    var load := [VarInsn(ALOAD, 0)];
    assert [VarInsn(ALOAD, 0), SimpleInsn(SWAP)] == load + [SimpleInsn(SWAP)];
    RunConcat([VarInsn(ALOAD, 0), SimpleInsn(SWAP)], rest, st);
    RunConcat(load, [SimpleInsn(SWAP)], st);
    RunOne(VarInsn(ALOAD, 0), st);
    var mid := State(base + [v] + [locals[0]], locals);
    assert mid.stack[|mid.stack| - 2] == v;
    RunOne(SimpleInsn(SWAP), mid);
  }

  /** As written, an instance handler redirecting a write of a static
      `long` or `double` field gets `ALOAD 0; SWAP` in front of its call:
      `SWAP` finds a category 2 value beneath `this`, so the rewritten code
      cannot run where the original write runs. */
  lemma {:induction false} WideStaticSetterAsWrittenStuck(h: Handler, insn: Insn, arguments: seq<JType>, argIndices: seq<int>,
                                                          firstFree: int, base: seq<Value>, ops: seq<Value>, locals: map<int, Value>)
    requires StaticWrite(insn) && Size(insn.fieldType) == 2 && !h.isStatic && |argIndices| == |arguments|
    requires StaticSetter(false, h, insn, arguments, argIndices, firstFree).Ok?
    requires Fits(ops, Operands(insn)) && 0 in locals && locals[0].size == 1
    ensures Run([insn], State(base + ops, locals)).Ran?
    ensures Run(StaticSetter(false, h, insn, arguments, argIndices, firstFree).value.code, State(base + ops, locals)) == Stuck
  {
    var p := StaticSetter(false, h, insn, arguments, argIndices, firstFree).value;
    StaticSetterCode(false, h, insn, arguments, argIndices, firstFree);
    var rest := Forwarded(p.forwards, arguments, argIndices) + [InvokeHandler(h)];
    assert p.code == [VarInsn(ALOAD, 0), SimpleInsn(SWAP)] + rest;
    OriginalRun(insn, base, ops, locals);
    assert ops == [ops[0]];
    SwapOverWideStuck(base, ops[0], locals, rest);
  }

  /** The corrected setter accepts the same handlers as the setter as
      written and records one more stack slot for a category 1 value, with
      the same code; for a `long` or `double` it puts `this` beneath the
      value with `DUP_X2; POP` and records two more. Its code delivers the
      handler's arguments and stays within the recorded growth. */
  lemma {:induction false} StaticSetterCorrected(h: Handler, insn: Insn, arguments: seq<JType>, argIndices: seq<int>,
                                                 firstFree: int, base: seq<Value>, ops: seq<Value>, locals: map<int, Value>)
    requires StaticWrite(insn) && !h.isStatic && Parsed(h, arguments, argIndices)
    ensures StaticSetter(true, h, insn, arguments, argIndices, firstFree).Ok? <==>
            StaticSetter(false, h, insn, arguments, argIndices, firstFree).Ok?
    ensures StaticSetter(true, h, insn, arguments, argIndices, firstFree).Ok? ==>
      var p := StaticSetter(false, h, insn, arguments, argIndices, firstFree).value;
      var q := StaticSetter(true, h, insn, arguments, argIndices, firstFree).value;
      var rest := Forwarded(p.forwards, arguments, argIndices) + [InvokeHandler(h)];
      && q.forwards == p.forwards && q.extraLocals == p.extraLocals
      && q.extraStack == p.extraStack + Size(insn.fieldType)
      && p.code == [VarInsn(ALOAD, 0), SimpleInsn(SWAP)] + rest
      && q.code == [VarInsn(ALOAD, 0)] + ReceiverUnder(insn.fieldType) + rest
    ensures StaticSetter(true, h, insn, arguments, argIndices, firstFree).Ok? &&
            Fits(ops, Operands(insn)) && LocalsReady(h, arguments, argIndices, firstFree, locals) ==>
      Delivers(StaticSetter(true, h, insn, arguments, argIndices, firstFree).value, h, insn, base, ops, locals, argIndices)
  {
    var q := StaticSetter(true, h, insn, arguments, argIndices, firstFree);
    var p := StaticSetter(false, h, insn, arguments, argIndices, firstFree);
    var c := StaticCheck(h, insn, arguments);
    assert q.Ok? <==> c.Ok? by {
      StaticSetterUsing(ReceiverUnder(insn.fieldType), Size(insn.fieldType), h, insn, arguments, argIndices, firstFree);
    }
    assert p.Ok? <==> c.Ok? by {
      StaticSetterUsing([SimpleInsn(SWAP)], 0, h, insn, arguments, argIndices, firstFree);
    }
    if c.Ok? {
      var rest := Forwarded(c.value, arguments, argIndices) + [InvokeHandler(h)];
      assert p.value == Plan([VarInsn(ALOAD, 0), SimpleInsn(SWAP)] + rest, 0, (if c.value then ArgsSize(arguments) else 0), c.value) by {
        StaticSetterUsing([SimpleInsn(SWAP)], 0, h, insn, arguments, argIndices, firstFree);
        assert [VarInsn(ALOAD, 0)] + [SimpleInsn(SWAP)] == [VarInsn(ALOAD, 0), SimpleInsn(SWAP)];
      }
      assert q.value == Plan([VarInsn(ALOAD, 0)] + ReceiverUnder(insn.fieldType) + rest, 0,
                             (if c.value then ArgsSize(arguments) else 0) + Size(insn.fieldType), c.value) by {
        StaticSetterUsing(ReceiverUnder(insn.fieldType), Size(insn.fieldType), h, insn, arguments, argIndices, firstFree);
      }
      if Fits(ops, Operands(insn)) && LocalsReady(h, arguments, argIndices, firstFree, locals) {
        assert Delivers(q.value, h, insn, base, ops, locals, argIndices) by {
          assert q == FieldPlan(h, insn, arguments, argIndices, firstFree);
          FieldPlanSound(h, insn, arguments, argIndices, firstFree, base, ops, locals);
        }
      }
    }
  }

  /** The descriptor check both static setters make. */
  function StaticCheck(h: Handler, insn: Insn, arguments: seq<JType>): Result<bool>
    requires insn.FieldInsn?
  {
    CheckDescriptor(h.Desc(), MethodDescriptor(SetterParams(true, Object(insn.owner), insn.fieldType), Void), arguments)
  }

  /** The static setter for an instance handler with a given exchange: it
      succeeds exactly when the descriptor check does, with `this`, the
      exchange, the forwarded arguments and the call. */
  lemma {:induction false} StaticSetterUsing(exchange: seq<Insn>, exchangeStack: nat, h: Handler, insn: Insn,
                                             arguments: seq<JType>, argIndices: seq<int>, firstFree: int)
    requires insn.FieldInsn? && !h.isStatic && |argIndices| == |arguments|
    ensures var r := SetterPlanUsing(exchange, exchangeStack, h, true, Object(insn.owner), insn.fieldType, arguments, argIndices, firstFree);
      var c := StaticCheck(h, insn, arguments);
      && (r.Ok? <==> c.Ok?)
      && (r.Ok? ==> r.value == Plan([VarInsn(ALOAD, 0)] + exchange + (Forwarded(c.value, arguments, argIndices) + [InvokeHandler(h)]), 0,
                                    (if c.value then ArgsSize(arguments) else 0) + exchangeStack, c.value))
  {
    var c := StaticCheck(h, insn, arguments);
    if c.Ok? {
      var f := Forwarded(c.value, arguments, argIndices);
      assert [VarInsn(ALOAD, 0)] + exchange + f + [InvokeHandler(h)] == [VarInsn(ALOAD, 0)] + exchange + (f + [InvokeHandler(h)]);
    }
  }

  /** The height of the stack just before the handler call, for a
      category 1 static field written through an instance handler: the
      value, `this` and the forwarded arguments above `base`. */
  lemma {:induction false} StaticSetterBeforeCall(b: seq<Value>, base: seq<Value>, v: Value, r: Value,
                                                  fwd: bool, locals: map<int, Value>, arguments: seq<JType>, argIndices: seq<int>)
    requires r.size == 1 && v.size == 1 && Holds(locals, argIndices, arguments)
    requires b == base + [r] + [v] + (if fwd then Loaded(locals, argIndices) else [])
    ensures Height(b) == Height(base) + 2 + (if fwd then ArgsSize(arguments) else 0)
  {
    HeightOne(base, r);
    HeightOne(base + [r], v);
    if fwd {
      LoadedHeight(base + [r] + [v], locals, argIndices, arguments);
    } else {
      assert b == base + [r] + [v];
    }
  }

  /** Any rewrite of a category 1 static write through an instance handler
      that hands the handler its arguments reaches at least one slot for
      `this` and the forwarded arguments above the original write's peak. */
  lemma {:induction false} StaticSetterPeakFloor(q: Plan, h: Handler, insn: Insn, arguments: seq<JType>, argIndices: seq<int>,
                                                 base: seq<Value>, ops: seq<Value>, locals: map<int, Value>)
    requires StaticWrite(insn) && Size(insn.fieldType) == 1 && !h.isStatic
    requires Fits(ops, Operands(insn)) && Holds(locals, argIndices, arguments) && 0 in locals && locals[0].size == 1
    requires Delivers(q, h, insn, base, ops, locals, argIndices)
    ensures Run(q.code, State(base + ops, locals)).peak >=
            Run([insn], State(base + ops, locals)).peak + 1 + (if q.forwards then ArgsSize(arguments) else 0)
  {
    var st := State(base + ops, locals);
    PeakPrefix(q.code, st);
    PeakBounds(q.code[..|q.code| - 1], st);
    assert ops == [ops[0]];
    var b := Run(q.code[..|q.code| - 1], st).final.stack;
    StaticSetterBeforeCall(b, base, ops[0], locals[0], q.forwards, locals, arguments, argIndices);
    OriginalRun(insn, base, ops, locals);
    HeightOne(base, ops[0]);
    assert base + Pushed(insn) == base;
  }

  /** As written, the same setter for a category 1 static field records no
      stack growth beyond the forwarded arguments, yet `this` lies above
      the value when the handler is called: the rewritten code's peak is
      exactly one slot above the original write's peak plus the recorded
      growth. */
  lemma {:induction false} StaticSetterAsWrittenUndercounts(h: Handler, insn: Insn, arguments: seq<JType>, argIndices: seq<int>,
                                                            firstFree: int, base: seq<Value>, ops: seq<Value>, locals: map<int, Value>)
    requires StaticWrite(insn) && Size(insn.fieldType) == 1 && !h.isStatic && Parsed(h, arguments, argIndices)
    requires StaticSetter(false, h, insn, arguments, argIndices, firstFree).Ok?
    requires Fits(ops, Operands(insn)) && LocalsReady(h, arguments, argIndices, firstFree, locals)
    ensures var p := StaticSetter(false, h, insn, arguments, argIndices, firstFree).value;
      var st := State(base + ops, locals);
      && Run(p.code, st).Ran? && Run([insn], st).Ran?
      && Run(p.code, st).peak == Run([insn], st).peak + p.extraStack + 1
  {
    var p := StaticSetter(false, h, insn, arguments, argIndices, firstFree).value;
    StaticSetterCorrected(h, insn, arguments, argIndices, firstFree, base, ops, locals);
    var q := StaticSetter(true, h, insn, arguments, argIndices, firstFree).value;
    assert q.code == p.code by {
      assert ReceiverUnder(insn.fieldType) == [SimpleInsn(SWAP)];
    }
    assert q == FieldPlan(h, insn, arguments, argIndices, firstFree).value;
    FieldPlanDecides(h, insn, arguments, argIndices, firstFree);
    StaticSetterPeakFloor(q, h, insn, arguments, argIndices, base, ops, locals);
  }
}
