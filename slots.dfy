/** Which local variable slots the replacement code writes: every store in
    an accepted plan lands in the slots the plan adds to the frame, from
    the first free slot up to the first free slot plus the plan's
    `extraLocals`, so no local of the target method is overwritten. */
module Slots {
  import opened Results
  import opened JvmTypes
  import opened Bytecode
  import opened Signatures
  import opened Rewrite

  /** A store into a local slot (`ISTORE`..`ASTORE`). */
  predicate IsStore(insn: Insn) {
    insn.VarInsn? && ISTORE <= insn.opcode <= ASTORE
  }

  /** The slots a store of opcode `op` writes: two for `LSTORE` and
      `DSTORE`, one otherwise. */
  function StoreWidth(op: int): nat {
    if op == LSTORE || op == DSTORE then 2 else 1
  }

  /** Every store in `code` writes only slots from `lo` up to `hi`. */
  predicate StoresWithin(code: seq<Insn>, lo: int, hi: int) {
    forall k :: 0 <= k < |code| && IsStore(code[k]) ==> lo <= code[k].slot && code[k].slot + StoreWidth(code[k].opcode) <= hi
  }

  lemma {:induction false} StoresWithinAppend(a: seq<Insn>, b: seq<Insn>, lo: int, hi: int)
    requires StoresWithin(a, lo, hi) && StoresWithin(b, lo, hi)
    ensures StoresWithin(a + b, lo, hi)
  {
    forall k | 0 <= k < |a + b| && IsStore((a + b)[k])
      ensures lo <= (a + b)[k].slot && (a + b)[k].slot + StoreWidth((a + b)[k].opcode) <= hi
    {
      if k >= |a| {
        assert (a + b)[k] == b[k - |a|];
      }
    }
  }

  /** A store of a value of type `t` writes as many slots as the value takes. */
  lemma {:induction false} StoreWidthSize(t: JType)
    requires IsValueType(t)
    ensures IsStore(VarInsn(TypedOpcode(t, ISTORE), 0)) && StoreWidth(TypedOpcode(t, ISTORE)) == Size(t)
  {
    TypedOpcodeSize(t);
  }

  /** Loading values stores nothing. */
  lemma {:induction false} PushArgsStoreNothing(ts: seq<JType>, m: seq<int>, lo: int, hi: int)
    requires |m| == |ts|
    ensures StoresWithin(PushArgs(ts, m), lo, hi)
    decreases |ts|
  {
    if ts != [] {
      var n := |ts| - 1;
      PushArgsStoreNothing(ts[..n], m[..n], lo, hi);
      StoresWithinAppend(PushArgs(ts[..n], m[..n]), [VarInsn(TypedOpcode(ts[n], ILOAD), m[n])], lo, hi);
    }
  }

  /** Storing values of types `ts` into slots `m` writes exactly the runs
      of slots the values take. */
  lemma {:induction false} StoreArgsWithin(ts: seq<JType>, m: seq<int>, lo: int, hi: int)
    requires |m| == |ts| && AllValueTypes(ts)
    requires forall i :: 0 <= i < |ts| ==> lo <= m[i] && m[i] + Size(ts[i]) <= hi
    ensures StoresWithin(StoreArgs(ts, m), lo, hi)
    decreases |ts|
  {
    if ts != [] {
      var n := |ts| - 1;
      forall i | 0 <= i < n
        ensures lo <= m[..n][i] && m[..n][i] + Size(ts[..n][i]) <= hi
      {
        assert m[..n][i] == m[i] && ts[..n][i] == ts[i];
      }
      StoreArgsWithin(ts[..n], m[..n], lo, hi);
      StoreWidthSize(ts[n]);
      StoresWithinAppend([VarInsn(TypedOpcode(ts[n], ISTORE), m[n])], StoreArgs(ts[..n], m[..n]), lo, hi);
    }
  }

  /** An accepted invoke plan stores the call's operands into the run of
      slots from `firstFree` that its operands take, inside the
      `extraLocals` it records. */
  lemma {:induction false} InvokePlanStores(h: Handler, call: Insn, arguments: seq<JType>, argIndices: seq<int>, firstFree: int)
    requires call.MethodInsn? && WellTypedInsn(call) && Parsed(h, arguments, argIndices)
    requires InvokePlan(h, call, arguments, argIndices, firstFree).Ok?
    ensures var p := InvokePlan(h, call, arguments, argIndices, firstFree).value;
      StoresWithin(p.code, firstFree, firstFree + p.extraLocals)
  {
    var p := InvokePlan(h, call, arguments, argIndices, firstFree).value;
    var hi := firstFree + p.extraLocals;
    var sv := StackVars(call.opcode == INVOKESTATIC, call.owner, call.args);
    var fwd := MatchInvoke(h.Desc(), sv, call.ret, arguments).value;
    var argMap := ArgMap(sv, firstFree);
    var handlerMap := if fwd then argMap + argIndices else argMap;
    InvokePlanTyped(h, call, arguments, argIndices, firstFree);
    MatchInvokeDecides(h, sv, call.ret, arguments);
    ArgMapBounds(sv, firstFree);
    assert p.code == StoreArgs(sv, argMap) + LoadReceiver(h) + PushArgs(h.params, handlerMap) + [InvokeHandler(h)];
    StoreArgsWithin(sv, argMap, firstFree, hi);
    PushArgsStoreNothing(h.params, handlerMap, firstFree, hi);
    StoresWithinAppend(StoreArgs(sv, argMap), LoadReceiver(h), firstFree, hi);
    StoresWithinAppend(StoreArgs(sv, argMap) + LoadReceiver(h), PushArgs(h.params, handlerMap), firstFree, hi);
    StoresWithinAppend(StoreArgs(sv, argMap) + LoadReceiver(h) + PushArgs(h.params, handlerMap), [InvokeHandler(h)], firstFree, hi);
  }

  /** An accepted getter stores nothing. */
  lemma {:induction false} GetterPlanStores(h: Handler, staticField: bool, owner: JType, fieldType: JType,
                                            arguments: seq<JType>, argIndices: seq<int>, lo: int, hi: int)
    requires |argIndices| == |arguments|
    requires GetterPlan(h, staticField, owner, fieldType, arguments, argIndices).Ok?
    ensures StoresWithin(GetterPlan(h, staticField, owner, fieldType, arguments, argIndices).value.code, lo, hi)
  {
    var p := GetterPlan(h, staticField, owner, fieldType, arguments, argIndices).value;
    var prefix := GetterPrefix(h.isStatic, staticField);
    var pushed := Forwarded(p.forwards, arguments, argIndices);
    HasCloseParen(GetterParams(staticField, owner), fieldType);
    assert p.code == prefix + pushed + [InvokeHandler(h)];
    PushArgsStoreNothing(arguments, argIndices, lo, hi);
    StoresWithinAppend(prefix, pushed, lo, hi);
    StoresWithinAppend(prefix + pushed, [InvokeHandler(h)], lo, hi);
  }

  /** An accepted setter stores nothing, except that an instance handler
      writing an instance field parks the new value in the slots from
      `firstFree` that the value takes, which are its `extraLocals`. */
  lemma {:induction false} SetterPlanStores(h: Handler, staticField: bool, owner: JType, fieldType: JType,
                                            arguments: seq<JType>, argIndices: seq<int>, firstFree: int)
    requires |argIndices| == |arguments| && IsValueType(fieldType)
    requires SetterPlan(h, staticField, owner, fieldType, arguments, argIndices, firstFree).Ok?
    ensures var p := SetterPlan(h, staticField, owner, fieldType, arguments, argIndices, firstFree).value;
      StoresWithin(p.code, firstFree, firstFree + p.extraLocals)
  {
    var p := SetterPlan(h, staticField, owner, fieldType, arguments, argIndices, firstFree).value;
    var hi := firstFree + p.extraLocals;
    var prefix := SetterPrefix(ReceiverUnder(fieldType), h.isStatic, staticField, fieldType, firstFree);
    var pushed := Forwarded(p.forwards, arguments, argIndices);
    HasCloseParen(SetterParams(staticField, owner, fieldType), Void);
    assert p.code == prefix + pushed + [InvokeHandler(h)];
    if !h.isStatic && !staticField {
      StoreWidthSize(fieldType);
      assert p.extraLocals == Size(fieldType);
    }
    PushArgsStoreNothing(arguments, argIndices, firstFree, hi);
    StoresWithinAppend(prefix, pushed, firstFree, hi);
    StoresWithinAppend(prefix + pushed, [InvokeHandler(h)], firstFree, hi);
  }

  /** An accepted field plan stores only where the setter parks a value. */
  lemma {:induction false} FieldPlanStores(h: Handler, insn: Insn, arguments: seq<JType>, argIndices: seq<int>, firstFree: int)
    requires insn.FieldInsn? && WellTypedInsn(insn) && Parsed(h, arguments, argIndices)
    requires FieldPlan(h, insn, arguments, argIndices, firstFree).Ok?
    ensures var p := FieldPlan(h, insn, arguments, argIndices, firstFree).value;
      StoresWithin(p.code, firstFree, firstFree + p.extraLocals)
  {
    var op := insn.opcode;
    var staticField := op == GETSTATIC || op == PUTSTATIC;
    var owner := Object(insn.owner);
    var hi := firstFree + FieldPlan(h, insn, arguments, argIndices, firstFree).value.extraLocals;
    if op == GETSTATIC || op == GETFIELD {
      GetterPlanStores(h, staticField, owner, insn.fieldType, arguments, argIndices, firstFree, hi);
    } else {
      SetterPlanStores(h, staticField, owner, insn.fieldType, arguments, argIndices, firstFree);
    }
  }

  /** Whatever instruction is rewritten, the replacement code writes no
      local slot below `firstFree`, the target method's first free slot,
      and none at or above the slots the plan adds to the frame. */
  lemma {:induction false} ApplyPlanStores(h: Handler, insn: Insn, arguments: seq<JType>, argIndices: seq<int>, firstFree: int)
    requires WellTypedInsn(insn) && Parsed(h, arguments, argIndices)
    requires ApplyPlan(h, insn, arguments, argIndices, firstFree).Ok?
    ensures var p := ApplyPlan(h, insn, arguments, argIndices, firstFree).value;
      StoresWithin(p.code, firstFree, firstFree + p.extraLocals)
  {
    if insn.MethodInsn? {
      InvokePlanStores(h, insn, arguments, argIndices, firstFree);
    } else {
      FieldPlanStores(h, insn, arguments, argIndices, firstFree);
    }
  }
}
