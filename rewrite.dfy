/** The code a redirect puts in place of the instruction it captures and the
    growth of the target method's frame it records, computed from the
    handler, the captured instruction and the target method. The injector's
    methods build exactly these plans; the lemmas here say which handler
    signatures lead to a plan and what the plan records. */
module Rewrite {
  import opened Results
  import opened JvmTypes
  import opened Bytecode
  import opened Signatures

  /** The replacement code, which ends in the handler call; how many local
      slots and operand-stack slots the target method grows by; and whether
      the target method's own arguments are forwarded to the handler. */
  datatype Plan = Plan(code: seq<Insn>, extraLocals: nat, extraStack: nat, forwards: bool)

  /** The handler, the target method's argument types and the local slots
      holding them, as parsed from the class file. */
  predicate Parsed(h: Handler, arguments: seq<JType>, argIndices: seq<int>) {
    h.Valid() && AllValueTypes(arguments) && |argIndices| == |arguments|
  }

  /** A plan whose code is non-empty and ends in the call of handler `h`. */
  predicate EndsInCall(p: Plan, h: Handler) {
    |p.code| > 0 && p.code[|p.code| - 1] == InvokeHandler(h)
  }

  /** The handler call (`invokeHandler`): a static handler is called with
      `INVOKESTATIC`, a private one with `INVOKESPECIAL` and any other with
      `INVOKEVIRTUAL`, on the handler's own class, name and descriptor. */
  function InvokeHandler(h: Handler): Insn {
    MethodInsn(if h.isStatic then INVOKESTATIC else if h.isPrivate then INVOKESPECIAL else INVOKEVIRTUAL,
               h.owner, h.name, h.params, h.ret)
  }

  /** An instance handler is called on `this`, local slot 0. */
  function LoadReceiver(h: Handler): seq<Insn> {
    if h.isStatic then [] else [VarInsn(ALOAD, 0)]
  }

  /** The local slots `Target.generateArgMap` gives to values of types `ts`:
      consecutive runs starting at `first`, one per value. */
  function ArgMap(ts: seq<JType>, first: int): (m: seq<int>)
    ensures |m| == |ts|
    decreases |ts|
  {
    if ts == [] then []
    else
      var n := |ts| - 1;
      ArgMap(ts[..n], first) + [first + ArgsSize(ts[..n])]
  }

  /** Each value's run of slots lies within the `ArgsSize(ts)` slots from
      `first`. */
  lemma {:induction false} ArgMapBounds(ts: seq<JType>, first: int)
    ensures forall i :: 0 <= i < |ts| ==> first <= ArgMap(ts, first)[i] && ArgMap(ts, first)[i] + Size(ts[i]) <= first + ArgsSize(ts)
    decreases |ts|
  {
    if ts != [] {
      var n := |ts| - 1;
      var m := ArgMap(ts, first);
      ArgMapBounds(ts[..n], first);
      assert m[..n] == ArgMap(ts[..n], first);
      forall i | 0 <= i < |ts| ensures first <= m[i] && m[i] + Size(ts[i]) <= first + ArgsSize(ts) {
        if i < n {
          assert m[i] == m[..n][i] && ts[i] == ts[..n][i];
        }
      }
    }
  }

  /** Each value's run of slots ends before the next value's begins. */
  lemma {:induction false} ArgMapOrdered(ts: seq<JType>, first: int)
    ensures forall i, j :: 0 <= i < j < |ts| ==> ArgMap(ts, first)[i] + Size(ts[i]) <= ArgMap(ts, first)[j]
    decreases |ts|
  {
    if ts != [] {
      var n := |ts| - 1;
      var m := ArgMap(ts, first);
      ArgMapBounds(ts[..n], first);
      ArgMapOrdered(ts[..n], first);
      assert m[..n] == ArgMap(ts[..n], first);
      forall i, j | 0 <= i < j < |ts| ensures m[i] + Size(ts[i]) <= m[j] {
        if j < n {
          assert m[i] == m[..n][i] && m[j] == m[..n][j] && ts[i] == ts[..n][i];
        }
      }
    }
  }

  /** `storeArgs`: stores the values of types `ts` from the top of the stack
      into the slots `m`, the last value first. */
  function StoreArgs(ts: seq<JType>, m: seq<int>): seq<Insn>
    requires |m| == |ts|
    decreases |ts|
  {
    if ts == [] then []
    else [VarInsn(TypedOpcode(ts[|ts| - 1], ISTORE), m[|m| - 1])] + StoreArgs(ts[..|ts| - 1], m[..|m| - 1])
  }

  /** `pushArgs`: loads values of types `ts` from the slots `m`, the first
      value first. */
  function PushArgs(ts: seq<JType>, m: seq<int>): seq<Insn>
    requires |m| == |ts|
    decreases |ts|
  {
    if ts == [] then []
    else PushArgs(ts[..|ts| - 1], m[..|m| - 1]) + [VarInsn(TypedOpcode(ts[|ts| - 1], ILOAD), m[|m| - 1])]
  }

  /** Only a call whose operands are all value types can match a handler: a
      receiver typed by an array descriptor never does. */
  lemma {:induction false} MatchedOperandsTyped(h: Handler, isStatic: bool, owner: string, args: seq<JType>, ret: JType,
                                                arguments: seq<JType>)
    requires ValidOwner(owner) && AllValueTypes(args) && h.Valid()
    requires MatchInvoke(h.Desc(), StackVars(isStatic, owner, args), ret, arguments).Ok?
    ensures AllValueTypes(StackVars(isStatic, owner, args))
  {
    if !isStatic && !ValidName(owner) {
      ArrayMatchFails(h, owner, args, ret, arguments);
      assert false;
    }
  }

  /** The same for a call. */
  lemma {:induction false} MatchedCallTyped(h: Handler, call: Insn, arguments: seq<JType>)
    requires call.MethodInsn? && WellTypedInsn(call) && h.Valid()
    requires MatchInvoke(h.Desc(), Operands(call), call.ret, arguments).Ok?
    ensures AllValueTypes(Operands(call))
  {
    MatchedOperandsTyped(h, call.opcode == INVOKESTATIC, call.owner, call.args, call.ret, arguments);
  }

  /** `injectAtInvoke`: the call's operands (`stackVars`) are stored into
      fresh locals from `firstFree` and reloaded behind the handler's
      receiver, followed by the target method's arguments when forwarding. */
  function InvokePlan(h: Handler, call: Insn, arguments: seq<JType>, argIndices: seq<int>, firstFree: int): (r: Result<Plan>)
    requires call.MethodInsn? && WellTypedInsn(call) && Parsed(h, arguments, argIndices)
    ensures r.Ok? ==> EndsInCall(r.value, h)
  {
    var stackVars := StackVars(call.opcode == INVOKESTATIC, call.owner, call.args);
    var injectTargetParams :- MatchInvoke(h.Desc(), stackVars, call.ret, arguments);
    MatchedCallTyped(h, call, arguments);
    MatchInvokeDecides(h, stackVars, call.ret, arguments);
    var argMap := ArgMap(stackVars, firstFree);
    var argSize := if injectTargetParams then ArgsSize(arguments) else 0;
    var handlerMap := if injectTargetParams then argMap + argIndices else argMap;
    Ok(Plan(StoreArgs(stackVars, argMap) + LoadReceiver(h) + PushArgs(h.params, handlerMap) + [InvokeHandler(h)],
            ArgsSize(stackVars) + 1 + argSize, 1 + argSize, injectTargetParams))
  }

  /** An accepted invoke plan is for a call whose operands are all value
      types. */
  lemma {:induction false} InvokePlanTyped(h: Handler, call: Insn, arguments: seq<JType>, argIndices: seq<int>, firstFree: int)
    requires call.MethodInsn? && WellTypedInsn(call) && Parsed(h, arguments, argIndices)
    requires InvokePlan(h, call, arguments, argIndices, firstFree).Ok?
    ensures AllValueTypes(Operands(call))
  {
    MatchedCallTyped(h, call, arguments);
  }

  /** The target method's arguments pushed for the handler when forwarding. */
  function Forwarded(withArgs: bool, arguments: seq<JType>, argIndices: seq<int>): seq<Insn>
    requires |argIndices| == |arguments|
  {
    if withArgs then PushArgs(arguments, argIndices) else []
  }

  /** What a getter emits before the forwarded arguments: nothing for a
      static handler; `ALOAD 0` for an instance handler, followed by `SWAP`
      to put `this` beneath the owning object of an instance field. */
  function GetterPrefix(isStatic: bool, staticField: bool): seq<Insn> {
    if isStatic then [] else if staticField then [VarInsn(ALOAD, 0)] else [VarInsn(ALOAD, 0), SimpleInsn(SWAP)]
  }

  /** What a setter emits before the forwarded arguments: nothing for a
      static handler; `ALOAD 0` then `exchange` for an instance handler on a
      static field; for an instance handler on an instance field, the value
      parked in slot `marshallVar`, `this` put beneath the owning object and
      the value loaded back. */
  function SetterPrefix(exchange: seq<Insn>, isStatic: bool, staticField: bool, fieldType: JType, marshallVar: int): seq<Insn> {
    if isStatic then []
    else if staticField then [VarInsn(ALOAD, 0)] + exchange
    else [VarInsn(TypedOpcode(fieldType, ISTORE), marshallVar), VarInsn(ALOAD, 0), SimpleInsn(SWAP),
          VarInsn(TypedOpcode(fieldType, ILOAD), marshallVar)]
  }

  /** `injectAtGetField`: the handler takes the owning object for an instance
      field, returns the field's type, and an instance handler gets `this`
      beneath the owning object. */
  function GetterPlan(h: Handler, staticField: bool, owner: JType, fieldType: JType,
                      arguments: seq<JType>, argIndices: seq<int>): (r: Result<Plan>)
    requires |argIndices| == |arguments|
    ensures r.Ok? ==> EndsInCall(r.value, h)
  {
    var handlerDesc := MethodDescriptor(GetterParams(staticField, owner), fieldType);
    HasCloseParen(GetterParams(staticField, owner), fieldType);
    var withArgs :- CheckDescriptor(h.Desc(), handlerDesc, arguments);
    var argSize := if withArgs then ArgsSize(arguments) else 0;
    Ok(Plan(GetterPrefix(h.isStatic, staticField) + Forwarded(withArgs, arguments, argIndices) + [InvokeHandler(h)],
            0, argSize + (if h.isStatic then 0 else 1), withArgs))
  }

  /** `injectAtPutField`, with the code that puts an instance handler's
      `this` beneath the new value of a static field (`exchange`, which
      follows `ALOAD 0`) and the stack growth recorded for that case as
      parameters. The handler takes the owning object for an instance
      field, then the value, and returns void. For an instance handler on
      an instance field the value is parked in a fresh local at `firstFree`
      while `this` is put beneath the owning object. */
  function SetterPlanUsing(exchange: seq<Insn>, exchangeStack: nat, h: Handler, staticField: bool, owner: JType,
                           fieldType: JType, arguments: seq<JType>, argIndices: seq<int>, firstFree: int): (r: Result<Plan>)
    requires |argIndices| == |arguments|
    ensures r.Ok? ==> EndsInCall(r.value, h)
  {
    var handlerDesc := MethodDescriptor(SetterParams(staticField, owner, fieldType), Void);
    HasCloseParen(SetterParams(staticField, owner, fieldType), Void);
    var withArgs :- CheckDescriptor(h.Desc(), handlerDesc, arguments);
    var marshall := !h.isStatic && !staticField;
    var argSize := if withArgs then ArgsSize(arguments) else 0;
    Ok(Plan(SetterPrefix(exchange, h.isStatic, staticField, fieldType, firstFree) +
            Forwarded(withArgs, arguments, argIndices) + [InvokeHandler(h)],
            if marshall then Size(fieldType) else 0,
            argSize + (if h.isStatic then 0 else if staticField then exchangeStack else 1), withArgs))
  }

  /** The setter as the source writes it: `SWAP` after `ALOAD 0` whatever the
      field's size, and no stack growth for a static field. */
  function SetterPlanAsWritten(h: Handler, staticField: bool, owner: JType, fieldType: JType,
                               arguments: seq<JType>, argIndices: seq<int>, firstFree: int): Result<Plan>
    requires |argIndices| == |arguments|
  {
    SetterPlanUsing([SimpleInsn(SWAP)], 0, h, staticField, owner, fieldType, arguments, argIndices, firstFree)
  }

  /** `this` beneath a value of type `t` already on the stack: `SWAP` for a
      category 1 value, `DUP_X2; POP` for a `long` or `double`. */
  function ReceiverUnder(t: JType): seq<Insn> {
    if Size(t) == 2 then [SimpleInsn(DUP_X2), SimpleInsn(POP)] else [SimpleInsn(SWAP)]
  }

  /** The corrected setter: the receiver goes beneath a value of either
      size, and the stack growth counts the receiver's slot above the
      value. */
  function SetterPlan(h: Handler, staticField: bool, owner: JType, fieldType: JType,
                      arguments: seq<JType>, argIndices: seq<int>, firstFree: int): (r: Result<Plan>)
    requires |argIndices| == |arguments|
    ensures r.Ok? ==> EndsInCall(r.value, h)
  {
    SetterPlanUsing(ReceiverUnder(fieldType), Size(fieldType), h, staticField, owner, fieldType, arguments, argIndices, firstFree)
  }

  /** `injectAtFieldAccess`: reads go to the getter plan, writes to the
      setter plan, any other field opcode fails. */
  function FieldPlan(h: Handler, insn: Insn, arguments: seq<JType>, argIndices: seq<int>, firstFree: int): (r: Result<Plan>)
    requires insn.FieldInsn? && |argIndices| == |arguments|
    ensures r.Ok? ==> EndsInCall(r.value, h)
  {
    var op := insn.opcode;
    var staticField := op == GETSTATIC || op == PUTSTATIC;
    var owner := Object(insn.owner);
    if op == GETSTATIC || op == GETFIELD then GetterPlan(h, staticField, owner, insn.fieldType, arguments, argIndices)
    else if op == PUTSTATIC || op == PUTFIELD then SetterPlan(h, staticField, owner, insn.fieldType, arguments, argIndices, firstFree)
    else Err(UnsupportedOpcode)
  }

  /** The dispatch in `inject` on the node's current instruction: a method
      call or a field access is rewritten, anything else fails. */
  function ApplyPlan(h: Handler, insn: Insn, arguments: seq<JType>, argIndices: seq<int>, firstFree: int): (r: Result<Plan>)
    requires WellTypedInsn(insn) && Parsed(h, arguments, argIndices)
    ensures r.Ok? ==> EndsInCall(r.value, h)
  {
    match insn
    case MethodInsn(_, _, _, _, _) => InvokePlan(h, insn, arguments, argIndices, firstFree)
    case FieldInsn(_, _, _, _) => FieldPlan(h, insn, arguments, argIndices, firstFree)
    case _ => Err(InvalidTarget)
  }

  /** A method call is redirected exactly when the handler returns the
      call's type and takes the call's operands, alone or followed by the
      target method's arguments; anything else is a signature failure, in
      particular every instance call on an array type. Forwarding is on
      exactly when the handler takes more than the operands; the locals then grow by the operands, one spare slot and
      the forwarded arguments, the stack by one slot and the forwarded
      arguments. */
  lemma {:induction false} InvokePlanDecides(h: Handler, call: Insn, arguments: seq<JType>, argIndices: seq<int>, firstFree: int)
    requires call.MethodInsn? && WellTypedInsn(call) && Parsed(h, arguments, argIndices)
    ensures var sv := Operands(call);
      var r := InvokePlan(h, call, arguments, argIndices, firstFree);
      && (r.Ok? <==> h.ret == call.ret && (h.params == sv || h.params == sv + arguments))
      && (r.Err? ==> r.error == InvalidSignature)
      && (call.opcode != INVOKESTATIC && ArrayOwner(call.owner) ==> r == Err(InvalidSignature))
      && (r.Ok? ==>
            var fwd := if r.value.forwards then ArgsSize(arguments) else 0;
            && (r.value.forwards <==> h.params != sv)
            && r.value.extraLocals == ArgsSize(sv) + 1 + fwd
            && r.value.extraStack == 1 + fwd)
  {
    var sv := Operands(call);
    if call.opcode != INVOKESTATIC && !ValidName(call.owner) {
      ArrayCallFails(h, call, arguments, argIndices, firstFree);
    } else {
      assert AllValueTypes(sv);
      MatchInvokeDecides(h, sv, call.ret, arguments);
    }
  }

  /** A receiver typed `L[...;` is no value type, so no handler takes it. */
  lemma {:induction false} ArrayReceiverUntaken(h: Handler, owner: string, args: seq<JType>, arguments: seq<JType>)
    requires h.Valid() && !ValidName(owner)
    ensures h.params != [Object(owner)] + args && h.params != [Object(owner)] + args + arguments
  {
    if |h.params| > 0 {
      assert !IsValueType(Object(owner));
      assert ([Object(owner)] + args)[0] == Object(owner) == ([Object(owner)] + args + arguments)[0];
    }
  }

  /** Nor does any handler descriptor match the operands of an instance
      call on an array type. */
  lemma {:induction false} ArrayMatchFails(h: Handler, owner: string, args: seq<JType>, ret: JType, arguments: seq<JType>)
    requires h.Valid() && ArrayOwner(owner)
    ensures MatchInvoke(h.Desc(), [Object(owner)] + args, ret, arguments) == Err(InvalidSignature)
  {
    ArrayOwnerMismatch(h.params, h.ret, owner, args, ret);
    assert [Object(owner)] + args + arguments == [Object(owner)] + (args + arguments);
    ArrayOwnerMismatch(h.params, h.ret, owner, args + arguments, ret);
  }

  /** An instance call on an array type pops a receiver typed `L[...;`,
      which no handler takes: the plan fails. */
  lemma {:induction false} ArrayCallFails(h: Handler, call: Insn, arguments: seq<JType>, argIndices: seq<int>, firstFree: int)
    requires call.MethodInsn? && WellTypedInsn(call) && Parsed(h, arguments, argIndices)
    requires call.opcode != INVOKESTATIC && !ValidName(call.owner)
    ensures h.params != Operands(call) && h.params != Operands(call) + arguments
    ensures InvokePlan(h, call, arguments, argIndices, firstFree) == Err(InvalidSignature)
  {
    assert Operands(call) == [Object(call.owner)] + call.args;
    ArrayReceiverUntaken(h, call.owner, call.args, arguments);
    ArrayMatchFails(h, call.owner, call.args, call.ret, arguments);
  }

  /** A field access is redirected exactly when the handler returns what the
      access leaves on the stack (the field's type for a read, void for a
      write) and takes the operands the access pops, alone or followed by
      the target method's arguments; an opcode that is no field access
      fails as unsupported. The counters grow as the staticness of handler
      and field decide: the locals by the field's size only for an instance
      handler writing an instance field, the stack by the forwarded
      arguments plus nothing for a static handler, the field's size for an
      instance handler writing a static field, and one slot otherwise. */
  lemma {:induction false} FieldPlanDecides(h: Handler, insn: Insn, arguments: seq<JType>, argIndices: seq<int>, firstFree: int)
    requires insn.FieldInsn? && WellTypedInsn(insn) && Parsed(h, arguments, argIndices)
    ensures var op := insn.opcode;
      var natural := Operands(insn);
      var ret := if op == GETSTATIC || op == GETFIELD then insn.fieldType else Void;
      var r := FieldPlan(h, insn, arguments, argIndices, firstFree);
      && (!(GETSTATIC <= op <= PUTFIELD) ==> r == Err(UnsupportedOpcode))
      && (GETSTATIC <= op <= PUTFIELD ==>
            && (r.Ok? <==> h.ret == ret && (h.params == natural || h.params == natural + arguments))
            && (r.Err? ==> r.error == InvalidSignature))
      && (r.Ok? ==>
            var fwd := if r.value.forwards then ArgsSize(arguments) else 0;
            && (r.value.forwards <==> h.params != natural)
            && r.value.extraLocals == (if !h.isStatic && op == PUTFIELD then Size(insn.fieldType) else 0)
            && r.value.extraStack == fwd + (if h.isStatic then 0 else if op == PUTSTATIC then Size(insn.fieldType) else 1))
  {
    var op := insn.opcode;
    var natural := Operands(insn);
    var ret := if op == GETSTATIC || op == GETFIELD then insn.fieldType else Void;
    var owner := Object(insn.owner);
    var staticField := op == GETSTATIC || op == PUTSTATIC;
    if GETSTATIC <= op <= PUTFIELD {
      assert AllValueTypes(natural);
      if op == GETSTATIC || op == GETFIELD {
        assert natural == GetterParams(staticField, owner);
      } else {
        assert natural == SetterParams(staticField, owner, insn.fieldType);
      }
      CheckDescriptorDecides(h, natural, ret, arguments);
    }
  }
}
