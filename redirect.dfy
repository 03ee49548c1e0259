/** The `@Redirect` injector: it claims instructions of a target method for
    its handler, arbitrating against other redirect injectors, and then
    replaces each claimed method call or field access by a call of the
    handler. Each operation is proved against the claim arbitration of
    module `Arbitration` and the plans of module `Rewrite`. */
module Redirect {
  import opened Results
  import opened JvmTypes
  import opened Bytecode
  import opened Signatures
  import opened Arbitration
  import opened Rewrite
  import opened Injection

  /** What `addTargetNode` does on each verdict: claim the node, skip it
      with a warning, or throw. */
  function ClaimOutcome(v: Verdict): Outcome {
    match v
    case Write => Done
    case Conflict => Skipped
    case FinalConflict => Failed(ClaimConflict)
  }

  /** Storing one more value below the others adds its store last. */
  lemma {:induction false} StoreArgsFront(t: JType, ts: seq<JType>, k: int, m: seq<int>)
    requires |m| == |ts|
    ensures Rewrite.StoreArgs([t] + ts, [k] + m) == Rewrite.StoreArgs(ts, m) + [VarInsn(TypedOpcode(t, ISTORE), k)]
    decreases |ts|
  {
    if ts != [] {
      var n := |ts| - 1;
      assert ([t] + ts)[..n + 1] == [t] + ts[..n];
      assert ([k] + m)[..n + 1] == [k] + m[..n];
      StoreArgsFront(t, ts[..n], k, m[..n]);
    }
  }

  lemma {:induction false} EmptyPrefix<T>(c: seq<T>, s: seq<T>)
    requires c == []
    ensures c + s == s
  {
  }

  lemma {:induction false} Concat3<T>(c: seq<T>, a: seq<T>, b: seq<T>, d: seq<T>)
    ensures c + a + b + d == c + (a + b + d)
  {
  }

  /** The invoke plan once the handler's descriptor has matched, with or
      without the target method's arguments (`withArgs`). */
  lemma {:induction false} InvokePlanFrom(h: Handler, call: Insn, arguments: seq<JType>, argIndices: seq<int>, firstFree: int,
                                          withArgs: bool)
    requires call.MethodInsn? && WellTypedInsn(call) && Parsed(h, arguments, argIndices)
    requires MatchInvoke(h.Desc(), StackVars(call.opcode == INVOKESTATIC, call.owner, call.args), call.ret, arguments) == Ok(withArgs)
    ensures |h.params| == |StackVars(call.opcode == INVOKESTATIC, call.owner, call.args)| + if withArgs then |arguments| else 0
    ensures var sv := StackVars(call.opcode == INVOKESTATIC, call.owner, call.args);
      var argMap := ArgMap(sv, firstFree);
      var handlerMap := if withArgs then argMap + argIndices else argMap;
      var p := InvokePlan(h, call, arguments, argIndices, firstFree);
      && p.Ok?
      && p.value.code == StoreArgs(sv, argMap) + LoadReceiver(h) + PushArgs(h.params, handlerMap[..|h.params|]) + [InvokeHandler(h)]
      && p.value.extraLocals == ArgsSize(sv) + 1 + (if withArgs then ArgsSize(arguments) else 0)
      && p.value.extraStack == 1 + (if withArgs then ArgsSize(arguments) else 0)
      && p.value.forwards == withArgs
  {
    var sv := StackVars(call.opcode == INVOKESTATIC, call.owner, call.args);
    MatchedOperandsTyped(h, call.opcode == INVOKESTATIC, call.owner, call.args, call.ret, arguments);
    MatchedParams(h, sv, call.ret, arguments, withArgs);
    var argMap := ArgMap(sv, firstFree);
    var handlerMap := if withArgs then argMap + argIndices else argMap;
    assert handlerMap[..|h.params|] == handlerMap;
  }

  /** A handler whose descriptor matched takes as many parameters as the
      call has operands, plus the target method's arguments when
      `withArgs`. */
  lemma {:induction false} MatchedParams(h: Handler, stackVars: seq<JType>, ret: JType, arguments: seq<JType>, withArgs: bool)
    requires h.Valid() && AllValueTypes(stackVars) && WellFormed(ret) && AllValueTypes(arguments)
    requires MatchInvoke(h.Desc(), stackVars, ret, arguments) == Ok(withArgs)
    ensures |h.params| == |stackVars| + if withArgs then |arguments| else 0
  {
    MatchInvokeDecides(h, stackVars, ret, arguments);
  }

  /** The getter plan once the descriptor check has answered `withArgs`. */
  lemma {:induction false} GetterPlanFrom(h: Handler, staticField: bool, owner: JType, fieldType: JType,
                                          arguments: seq<JType>, argIndices: seq<int>, withArgs: bool)
    requires |argIndices| == |arguments|
    requires CheckDescriptor(h.Desc(), MethodDescriptor(GetterParams(staticField, owner), fieldType), arguments) == Ok(withArgs)
    ensures var p := GetterPlan(h, staticField, owner, fieldType, arguments, argIndices);
      && p.Ok?
      && p.value.code == GetterPrefix(h.isStatic, staticField) + Forwarded(withArgs, arguments, argIndices) + [InvokeHandler(h)]
      && p.value.extraLocals == 0
      && p.value.extraStack == (if withArgs then ArgsSize(arguments) else 0) + (if h.isStatic then 0 else 1)
      && p.value.forwards == withArgs
  {
  }

  /** The corrected setter plan once the descriptor check has answered
      `withArgs`. */
  lemma {:induction false} SetterPlanFrom(h: Handler, staticField: bool, owner: JType, fieldType: JType,
                                          arguments: seq<JType>, argIndices: seq<int>, firstFree: int, withArgs: bool)
    requires |argIndices| == |arguments|
    requires CheckDescriptor(h.Desc(), MethodDescriptor(SetterParams(staticField, owner, fieldType), Void), arguments) == Ok(withArgs)
    ensures var p := SetterPlan(h, staticField, owner, fieldType, arguments, argIndices, firstFree);
      && p.Ok?
      && p.value.code == SetterPrefix(ReceiverUnder(fieldType), h.isStatic, staticField, fieldType, firstFree) +
                         Forwarded(withArgs, arguments, argIndices) + [InvokeHandler(h)]
      && p.value.extraLocals == (if !h.isStatic && !staticField then Size(fieldType) else 0)
      && p.value.extraStack == (if withArgs then ArgsSize(arguments) else 0) +
                               (if h.isStatic then 0 else if staticField then Size(fieldType) else 1)
      && p.value.forwards == withArgs
  {
  }

  /** The setter plan fails as the descriptor check does. */
  lemma {:induction false} SetterPlanFails(h: Handler, staticField: bool, owner: JType, fieldType: JType,
                                           arguments: seq<JType>, argIndices: seq<int>, firstFree: int)
    requires |argIndices| == |arguments|
    requires CheckDescriptor(h.Desc(), MethodDescriptor(SetterParams(staticField, owner, fieldType), Void), arguments).Err?
    ensures SetterPlan(h, staticField, owner, fieldType, arguments, argIndices, firstFree) ==
      Err(CheckDescriptor(h.Desc(), MethodDescriptor(SetterParams(staticField, owner, fieldType), Void), arguments).error)
  {
  }

  /** The getter plan fails as the descriptor check does. */
  lemma {:induction false} GetterPlanFails(h: Handler, staticField: bool, owner: JType, fieldType: JType,
                                           arguments: seq<JType>, argIndices: seq<int>)
    requires |argIndices| == |arguments|
    requires CheckDescriptor(h.Desc(), MethodDescriptor(GetterParams(staticField, owner), fieldType), arguments).Err?
    ensures GetterPlan(h, staticField, owner, fieldType, arguments, argIndices) ==
      Err(CheckDescriptor(h.Desc(), MethodDescriptor(GetterParams(staticField, owner), fieldType), arguments).error)
  {
  }

  class RedirectInjector {
    /** The annotated handler method. */
    const handler: Handler
    /** The priority of the mixin that declares the handler. */
    const priority: int
    /** The handler carries `@Final`. */
    const isFinal: bool
    /** The injection's description, recorded as `redir:name`. */
    const name: string

    constructor (handler: Handler, priority: int, isFinal: bool, name: string)
      ensures this.handler == handler && this.priority == priority && this.isFinal == isFinal && this.name == name
    {
      this.handler := handler;
      this.priority := priority;
      this.isFinal := isFinal;
      this.name := name;
    }

    /** The record a claim by this injector writes. */
    function Mine(): Decoration<object> {
      Decoration(this, priority, isFinal, name, handler.Desc())
    }

    /** This injector holds the node's redirect record. */
    predicate Owns(node: InjectionNode)
      reads node
    {
      node.record.Some? && node.record.value.owner == this
    }

    /** `addTargetNode`: claims the instruction `insn` as `Arbitrate` decides.
        A claim that is written leaves this injector's record on the node
        filed under `insn` (the existing one, or a new one) and appends that
        node to `myNodes`; a skipped or failed claim changes nothing. No
        other node's record changes, and no node's current instruction. */
    method AddTargetNode(target: Target, myNodes: seq<InjectionNode>, insn: InsnNode) returns (out: Outcome, nodes: seq<InjectionNode>)
      requires target.Valid() && insn in target.insns
      modifies target, target.nodes.Values
      ensures target.Valid()
      ensures target.insns == old(target.insns) && target.maxLocals == old(target.maxLocals) && target.maxStack == old(target.maxStack)
      ensures out == ClaimOutcome(Arbitrate(if insn in old(target.nodes) then old(target.nodes[insn].record) else None, Mine()))
      ensures out == Done ==>
        && insn in target.nodes && target.nodes[insn].record == Some(Mine())
        && nodes == myNodes + [target.nodes[insn]]
        && (insn in old(target.nodes) ==> target.nodes == old(target.nodes))
        && (insn !in old(target.nodes) ==> fresh(target.nodes[insn]) && target.nodes == old(target.nodes)[insn := target.nodes[insn]])
      ensures out != Done ==> nodes == myNodes && target.nodes == old(target.nodes)
      ensures forall k :: k in old(target.nodes) && (k != insn || out != Done) ==> target.nodes[k].record == old(target.nodes[k].record)
      ensures forall k :: k in old(target.nodes) ==> target.nodes[k].current == old(target.nodes[k].current)
    {
      var node := target.Get(insn);
      if node != null {
        var rec := node.record;
        if rec.Some? && rec.value.owner != this {
          if rec.value.priority >= priority {
            return Skipped, myNodes;
          } else if rec.value.isFinal {
            return Failed(ClaimConflict), myNodes;
          }
        }
      }
      node := target.Add(insn);
      node.record := Some(Mine());
      out := Done;
      nodes := myNodes + [node];
    }

    /** `inject`: a node another injector holds is skipped, a node already
        replaced fails, and otherwise the node's instruction is rewritten
        as `ApplyPlan` decides: a method call by the invoke plan, a field
        access by the field plan, anything else fails. Nothing changes
        unless the rewrite succeeds. */
    method Inject(target: Target, node: InjectionNode) returns (out: Outcome)
      requires target.Valid() && node.current in target.nodes && target.nodes[node.current] == node
      requires WellTypedInsn(node.current.insn) && Parsed(handler, target.arguments, target.argIndices)
      modifies target, node
      ensures target.Valid()
      ensures !old(Owns(node)) ==> out == Skipped && unchanged(target, node)
      ensures old(Owns(node)) && old(node.IsReplaced()) ==> out == Failed(AlreadyReplaced) && unchanged(target, node)
      ensures old(Owns(node)) && !old(node.IsReplaced()) ==>
        var r := ApplyPlan(handler, old(node.current).insn, target.arguments, target.argIndices, old(target.maxLocals));
        && (r.Err? ==> out == Failed(r.error) && unchanged(target, node))
        && (r.Ok? ==> out == Done && Rewritten(target, node, r.value))
      ensures out == Done ==> Owns(node) && node.IsReplaced() && node.current.insn == Rewrite.InvokeHandler(handler)
    {
      if !Owns(node) {
        return Skipped;
      }
      if node.IsReplaced() {
        return Failed(AlreadyReplaced);
      }
      if node.current.insn.MethodInsn? {
        out := InjectAtInvoke(target, node);
      } else if node.current.insn.FieldInsn? {
        out := InjectAtFieldAccess(target, node);
      } else {
        return Failed(InvalidTarget);
      }
      if out == Done {
        ghost var p := ApplyPlan(handler, old(node.current).insn, target.arguments, target.argIndices, old(target.maxLocals)).value;
        RewrittenLast(old(target.insns), old(node.current), old(target.nodes), old(node.record),
                      old(target.maxLocals), old(target.maxStack), target, node, p);
      }
    }

    /** `inject` applied twice to one node: once the first application has
        rewritten it, the second finds it replaced and fails; one that
        skipped or failed changed nothing, so the second answers alike. */
    method InjectTwice(target: Target, node: InjectionNode) returns (first: Outcome, second: Outcome)
      requires target.Valid() && node.current in target.nodes && target.nodes[node.current] == node
      requires WellTypedInsn(node.current.insn) && Parsed(handler, target.arguments, target.argIndices)
      modifies target, node
      ensures target.Valid()
      ensures first == Done ==> second == Failed(AlreadyReplaced)
      ensures first != Done ==> second == first
    {
      first := Inject(target, node);
      second := Inject(target, node);
    }

    /** `injectAtInvoke`: the call's operands are stored into fresh locals
        and reloaded behind the handler's receiver, with the target
        method's arguments when the handler takes them; the call is
        replaced by this code, exactly as `InvokePlan` says. A handler
        whose signature fits neither shape fails and changes nothing. */
    method InjectAtInvoke(target: Target, node: InjectionNode) returns (out: Outcome)
      requires target.Valid() && node.current in target.nodes && target.nodes[node.current] == node
      requires node.current.insn.MethodInsn? && WellTypedInsn(node.current.insn)
      requires Parsed(handler, target.arguments, target.argIndices)
      modifies target, node
      ensures target.Valid()
      ensures var r := InvokePlan(handler, old(node.current).insn, target.arguments, target.argIndices, old(target.maxLocals));
        && (r.Err? ==> out == Failed(r.error) && unchanged(target, node))
        && (r.Ok? ==> out == Done && Rewritten(target, node, r.value))
    {
      var methodNode := node.current;
      var call := methodNode.insn;
      var targetIsStatic := call.opcode == INVOKESTATIC;
      var stackVars := StackVars(targetIsStatic, call.owner, call.args);
      var matched := MatchInvoke(handler.Desc(), stackVars, call.ret, target.arguments);
      if matched.Err? {
        return Failed(matched.error);
      }
      var injectTargetParams := matched.value;
      RedirectCall(target, node, stackVars, injectTargetParams);
      out := Done;
    }

    /** The part of `injectAtInvoke` after the handler's descriptor has
        matched, with or without the target method's arguments: the call is
        replaced by the code of `InvokePlan`. */
    method RedirectCall(target: Target, node: InjectionNode, stackVars: seq<JType>, withArgs: bool)
      requires target.Valid() && node.current in target.nodes && target.nodes[node.current] == node
      requires node.current.insn.MethodInsn? && WellTypedInsn(node.current.insn)
      requires Parsed(handler, target.arguments, target.argIndices)
      requires stackVars == StackVars(node.current.insn.opcode == INVOKESTATIC, node.current.insn.owner, node.current.insn.args)
      requires MatchInvoke(handler.Desc(), stackVars, node.current.insn.ret, target.arguments) == Ok(withArgs)
      modifies target, node
      ensures target.Valid()
      ensures InvokePlan(handler, old(node.current).insn, target.arguments, target.argIndices, old(target.maxLocals)).Ok?
      ensures Rewritten(target, node, InvokePlan(handler, old(node.current).insn, target.arguments, target.argIndices, old(target.maxLocals)).value)
    {
      var call := node.current.insn;
      InvokePlanFrom(handler, call, target.arguments, target.argIndices, target.maxLocals, withArgs);
      ghost var p := InvokePlan(handler, call, target.arguments, target.argIndices, target.maxLocals).value;
      var insns, insn, extraLocals, extraStack := BuildInvoke(target, stackVars, withArgs);
      ReplaceAndGrow(target, node, insn, insns, p, extraLocals, extraStack);
    }

    /** `replaceNode` on behalf of `node` with the code `list` of plan `p`,
        ending in `champion`, once the frame counters stand the plan's
        amounts above `locals0` and `stack0`. */
    method Replace(target: Target, node: InjectionNode, champion: InsnNode, insns: InsnList,
                   ghost p: Plan, ghost locals0: nat, ghost stack0: nat)
      requires target.Valid() && node.current in target.nodes && target.nodes[node.current] == node
      requires insns.Valid() && insns.code == p.code && |insns.nodes| > 0 && champion == insns.nodes[|insns.nodes| - 1]
      requires forall n :: n in target.insns ==> n.list != insns
      requires target.maxLocals == locals0 + p.extraLocals && target.maxStack == stack0 + p.extraStack
      modifies target, node
      ensures target.Valid()
      ensures RewrittenFrom(old(target.insns), old(node.current), old(target.nodes), old(node.record), locals0, stack0,
                            target, node, p)
    {
      OwnNodes(insns, target.insns);
      SpliceReplaced(target.insns, node.current, insns.nodes);
      target.ReplaceNode(node.current, champion, insns.nodes);
    }

    /** The middle of `injectAtInvoke`: the call's operands are stored
        into fresh locals and the handler is called with them, preceded by
        its receiver and followed by the target method's arguments when
        `withArgs`; the counters record one spare local and stack slot for
        the receiver plus what forwarding needs. Nothing existing changes. */
    method BuildInvoke(target: Target, stackVars: seq<JType>, withArgs: bool)
      returns (insns: InsnList, insn: InsnNode, extraLocals: nat, extraStack: nat)
      requires |target.argIndices| == |target.arguments|
      requires |handler.params| == |stackVars| + if withArgs then |target.arguments| else 0
      ensures fresh(insns) && insns.Valid()
      ensures forall n :: n in target.insns ==> n.list != insns
      ensures var argMap := ArgMap(stackVars, target.maxLocals);
        var handlerMap := if withArgs then argMap + target.argIndices else argMap;
        insns.code == Rewrite.StoreArgs(stackVars, argMap) + LoadReceiver(handler) +
                             Rewrite.PushArgs(handler.params, handlerMap[..|handler.params|]) + [Rewrite.InvokeHandler(handler)]
      ensures |insns.nodes| > 0 && insn == insns.nodes[|insns.nodes| - 1]
      ensures extraLocals == ArgsSize(stackVars) + 1 + (if withArgs then ArgsSize(target.arguments) else 0)
      ensures extraStack == 1 + (if withArgs then ArgsSize(target.arguments) else 0)
    {
      insns := new InsnList();
      extraLocals := ArgsSize(stackVars) + 1;
      extraStack := 1;
      var argMap := StoreArgs(target, stackVars, insns);
      ghost var stored := insns.code;
      assert stored == Rewrite.StoreArgs(stackVars, ArgMap(stackVars, target.maxLocals));
      if withArgs {
        var argSize := ArgsSize(target.arguments);
        extraLocals := extraLocals + argSize;
        extraStack := extraStack + argSize;
        argMap := argMap + target.argIndices;
      }
      ghost var pushed := Rewrite.PushArgs(handler.params, argMap[..|handler.params|]);
      insn := InvokeHandlerWithArgs(handler.params, insns, argMap);
      assert insns.code == stored + LoadReceiver(handler) + pushed + [Rewrite.InvokeHandler(handler)];
    }

    /** The end of `injectAtInvoke`: the call is replaced by the code
        `list`, ending in `champion`, and the frame counters grow. */
    method ReplaceAndGrow(target: Target, node: InjectionNode, champion: InsnNode, insns: InsnList,
                          ghost p: Plan, extraLocals: nat, extraStack: nat)
      requires target.Valid() && node.current in target.nodes && target.nodes[node.current] == node
      requires insns.Valid() && insns.code == p.code && |insns.nodes| > 0 && champion == insns.nodes[|insns.nodes| - 1]
      requires forall n :: n in target.insns ==> n.list != insns
      requires p.extraLocals == extraLocals && p.extraStack == extraStack
      modifies target, node
      ensures target.Valid()
      ensures Rewritten(target, node, p)
    {
      Replace(target, node, champion, insns, Plan(p.code, 0, 0, p.forwards), target.maxLocals, target.maxStack);
      target.AddToLocals(extraLocals);
      target.AddToStack(extraStack);
    }

    /** `injectAtFieldAccess`: a read goes to the getter, a write to the
        setter, any other opcode fails; the access is replaced by the code
        built, exactly as `FieldPlan` says. A handler whose signature does
        not fit fails and changes nothing. */
    method InjectAtFieldAccess(target: Target, node: InjectionNode) returns (out: Outcome)
      requires target.Valid() && node.current in target.nodes && target.nodes[node.current] == node
      requires node.current.insn.FieldInsn? && |target.argIndices| == |target.arguments|
      modifies target, node
      ensures target.Valid()
      ensures var r := FieldPlan(handler, old(node.current).insn, target.arguments, target.argIndices, old(target.maxLocals));
        && (r.Err? ==> out == Failed(r.error) && unchanged(target, node))
        && (r.Ok? ==> out == Done && Rewritten(target, node, r.value))
    {
      var fieldNode := node.current;
      var f := fieldNode.insn;
      var op := f.opcode;
      var staticField := op == GETSTATIC || op == PUTSTATIC;
      var ownerType := Object(f.owner);
      var fieldType := f.fieldType;
      if op == GETSTATIC || op == GETFIELD {
        out := RedirectFieldRead(target, node, staticField, ownerType, fieldType);
      } else if op == PUTSTATIC || op == PUTFIELD {
        out := RedirectFieldWrite(target, node, staticField, ownerType, fieldType);
      } else {
        return Failed(UnsupportedOpcode);
      }
    }

    /** The rest of `injectAtFieldAccess` for a read: the getter's code is
        built in a new list, which then replaces the access, unless the
        handler's signature does not fit. */
    method RedirectFieldRead(target: Target, node: InjectionNode, staticField: bool, owner: JType, fieldType: JType)
      returns (out: Outcome)
      requires target.Valid() && node.current in target.nodes && target.nodes[node.current] == node
      requires |target.argIndices| == |target.arguments|
      modifies target, node
      ensures target.Valid()
      ensures var r := GetterPlan(handler, staticField, owner, fieldType, target.arguments, target.argIndices);
        && (r.Err? ==> out == Failed(r.error) && unchanged(target, node))
        && (r.Ok? ==> out == Done && Rewritten(target, node, r.value))
    {
      var insns := new InsnList();
      assert forall n :: n in target.insns ==> n.list != insns;
      ghost var c0 := insns.code;
      var invoke := InjectAtGetField(insns, target, staticField, owner, fieldType);
      if invoke.Err? {
        return Failed(invoke.error);
      }
      ghost var p := GetterPlan(handler, staticField, owner, fieldType, target.arguments, target.argIndices).value;
      EmptyPrefix(c0, p.code);
      Replace(target, node, invoke.value, insns, p, old(target.maxLocals), old(target.maxStack));
      out := Done;
    }

    /** The rest of `injectAtFieldAccess` for a write: the setter's code is
        built in a new list, which then replaces the access, unless the
        handler's signature does not fit. */
    method RedirectFieldWrite(target: Target, node: InjectionNode, staticField: bool, owner: JType, fieldType: JType)
      returns (out: Outcome)
      requires target.Valid() && node.current in target.nodes && target.nodes[node.current] == node
      requires |target.argIndices| == |target.arguments|
      modifies target, node
      ensures target.Valid()
      ensures var r := SetterPlan(handler, staticField, owner, fieldType, target.arguments, target.argIndices, old(target.maxLocals));
        && (r.Err? ==> out == Failed(r.error) && unchanged(target, node))
        && (r.Ok? ==> out == Done && Rewritten(target, node, r.value))
    {
      var insns := new InsnList();
      assert forall n :: n in target.insns ==> n.list != insns;
      ghost var c0 := insns.code;
      ghost var p := SetterPlan(handler, staticField, owner, fieldType, target.arguments, target.argIndices, target.maxLocals);
      var invoke := InjectAtPutField(insns, target, staticField, owner, fieldType);
      if invoke.Err? {
        return Failed(invoke.error);
      }
      EmptyPrefix(c0, p.value.code);
      Replace(target, node, invoke.value, insns, p.value, old(target.maxLocals), old(target.maxStack));
      out := Done;
    }

    /** `injectAtGetField`: the handler must take the owning object of an
        instance field and return the field's type, optionally followed by
        the target method's arguments; an instance handler gets `this`
        beneath the owning object. Appends `GetterPlan`'s code to `insns`
        and grows the stack counter by its amount, or fails and changes
        nothing. */
    method InjectAtGetField(insns: InsnList, target: Target, staticField: bool, owner: JType, fieldType: JType)
      returns (r: Result<InsnNode>)
      requires |target.argIndices| == |target.arguments|
      requires insns.Valid()
      requires target.Valid()
      modifies insns, target
      ensures target.Valid()
      ensures insns.Valid()
      ensures target.insns == old(target.insns) && target.nodes == old(target.nodes)
      ensures var p := GetterPlan(handler, staticField, owner, fieldType, target.arguments, target.argIndices);
        && (r.Ok? <==> p.Ok?)
        && (r.Err? ==> r.error == p.error && unchanged(insns, target))
        && (r.Ok? ==>
              && insns.code == old(insns.code) + p.value.code
              && |insns.nodes| > 0 && r.value == insns.nodes[|insns.nodes| - 1]
              && target.maxLocals == old(target.maxLocals) + p.value.extraLocals
              && target.maxStack == old(target.maxStack) + p.value.extraStack)
    {
      var handlerDesc := MethodDescriptor(GetterParams(staticField, owner), fieldType);
      HasCloseParen(GetterParams(staticField, owner), fieldType);
      var withArgs := CheckDescriptor(handler.Desc(), handlerDesc, target.arguments);
      if withArgs.Err? {
        GetterPlanFails(handler, staticField, owner, fieldType, target.arguments, target.argIndices);
        return Err(withArgs.error);
      }
      GetterPlanFrom(handler, staticField, owner, fieldType, target.arguments, target.argIndices, withArgs.value);
      ghost var c0 := insns.code;
      EmitGetterPrefix(insns, staticField);
      var invoke := EmitFieldTail(insns, target, withArgs.value, if handler.isStatic then 0 else 1);
      Concat3(c0, GetterPrefix(handler.isStatic, staticField), Forwarded(withArgs.value, target.arguments, target.argIndices),
              [Rewrite.InvokeHandler(handler)]);
      return Ok(invoke);
    }

    /** `injectAtPutField`, corrected: the handler must take the owning
        object of an instance field and the new value and return void,
        optionally followed by the target method's arguments. An instance
        handler gets `this` beneath the value of a static field (`SWAP`, or
        `DUP_X2; POP` for a `long` or `double`), or beneath the owning object
        of an instance field, the value being parked meanwhile in a local
        slot allocated for it. Appends `SetterPlan`'s code to `insns` and
        grows the counters by its amounts, or fails and changes nothing. */
    method InjectAtPutField(insns: InsnList, target: Target, staticField: bool, owner: JType, fieldType: JType)
      returns (r: Result<InsnNode>)
      requires |target.argIndices| == |target.arguments|
      requires insns.Valid()
      requires target.Valid()
      modifies insns, target
      ensures target.Valid()
      ensures insns.Valid()
      ensures target.insns == old(target.insns) && target.nodes == old(target.nodes)
      ensures var p := SetterPlan(handler, staticField, owner, fieldType, target.arguments, target.argIndices, old(target.maxLocals));
        && (r.Ok? <==> p.Ok?)
        && (r.Err? ==> r.error == p.error && unchanged(insns, target))
        && (r.Ok? ==>
              && insns.code == old(insns.code) + p.value.code
              && |insns.nodes| > 0 && r.value == insns.nodes[|insns.nodes| - 1]
              && target.maxLocals == old(target.maxLocals) + p.value.extraLocals
              && target.maxStack == old(target.maxStack) + p.value.extraStack)
    {
      var handlerDesc := MethodDescriptor(SetterParams(staticField, owner, fieldType), Void);
      HasCloseParen(SetterParams(staticField, owner, fieldType), Void);
      var withArgs := CheckDescriptor(handler.Desc(), handlerDesc, target.arguments);
      if withArgs.Err? {
        SetterPlanFails(handler, staticField, owner, fieldType, target.arguments, target.argIndices, target.maxLocals);
        return Err(withArgs.error);
      }
      ghost var firstFree := target.maxLocals;
      ghost var prefix := SetterPrefix(ReceiverUnder(fieldType), handler.isStatic, staticField, fieldType, firstFree);
      SetterPlanFrom(handler, staticField, owner, fieldType, target.arguments, target.argIndices, firstFree, withArgs.value);
      ghost var c0 := insns.code;
      EmitSetterPrefix(insns, target, staticField, fieldType);
      var invoke := EmitFieldTail(insns, target, withArgs.value, if handler.isStatic then 0 else if staticField then Size(fieldType) else 1);
      Concat3(c0, prefix, Forwarded(withArgs.value, target.arguments, target.argIndices), [Rewrite.InvokeHandler(handler)]);
      return Ok(invoke);
    }

    /** The common end of `injectAtGetField` and `injectAtPutField`: the
        target method's arguments pushed when forwarding, `stack` more
        operand-stack slots recorded, and the handler called. */
    method EmitFieldTail(insns: InsnList, target: Target, withArgs: bool, stack: nat) returns (invoke: InsnNode)
      requires |target.argIndices| == |target.arguments| && insns.Valid()
      requires target.Valid()
      modifies insns, target
      ensures target.Valid()
      ensures insns.Valid()
      ensures insns.code == old(insns.code) + Forwarded(withArgs, target.arguments, target.argIndices) + [Rewrite.InvokeHandler(handler)]
      ensures |insns.nodes| > 0 && invoke == insns.nodes[|insns.nodes| - 1]
      ensures target.insns == old(target.insns) && target.nodes == old(target.nodes) && target.maxLocals == old(target.maxLocals)
      ensures target.maxStack == old(target.maxStack) + (if withArgs then ArgsSize(target.arguments) else 0) + stack
    {
      PushForwarded(target, insns, withArgs);
      target.AddToStack(stack);
      invoke := InvokeHandler(insns);
    }

    /** The part of `injectAtGetField` that puts an instance handler's
        `this` on the stack, beneath the owning object of an instance
        field. */
    method EmitGetterPrefix(insns: InsnList, staticField: bool)
      requires insns.Valid()
      modifies insns
      ensures insns.Valid()
      ensures insns.code == old(insns.code) + GetterPrefix(handler.isStatic, staticField)
    {
      if !handler.isStatic {
        var n := insns.Add(VarInsn(ALOAD, 0));
        if !staticField {
          n := insns.Add(SimpleInsn(SWAP));
        }
      }
    }

    /** The part of `injectAtPutField` that puts an instance handler's
        `this` in place: beneath the value of a static field, or beneath
        the owning object of an instance field with the value parked in a
        local slot allocated for it. */
    method EmitSetterPrefix(insns: InsnList, target: Target, staticField: bool, fieldType: JType)
      requires insns.Valid()
      requires target.Valid()
      modifies insns, target
      ensures target.Valid()
      ensures insns.Valid()
      ensures insns.code == old(insns.code) + SetterPrefix(ReceiverUnder(fieldType), handler.isStatic, staticField, fieldType, old(target.maxLocals))
      ensures target.insns == old(target.insns) && target.nodes == old(target.nodes) && target.maxStack == old(target.maxStack)
      ensures target.maxLocals == old(target.maxLocals) + (if !handler.isStatic && !staticField then Size(fieldType) else 0)
    {
      if !handler.isStatic {
        if staticField {
          ReceiverBeneathValue(insns, fieldType);
        } else {
          MarshallReceiver(insns, target, fieldType);
        }
      } else {
        assert insns.code == old(insns.code) + [];
      }
    }

    /** An instance handler's `this` put beneath the new value of a static
        field: `SWAP`, or `DUP_X2; POP` for a `long` or `double`. */
    method ReceiverBeneathValue(insns: InsnList, fieldType: JType)
      requires insns.Valid()
      modifies insns
      ensures insns.Valid()
      ensures insns.code == old(insns.code) + [VarInsn(ALOAD, 0)] + ReceiverUnder(fieldType)
    {
      ghost var c0 := insns.code;
      var n := insns.Add(VarInsn(ALOAD, 0));
      if Size(fieldType) == 2 {
        n := insns.Add(SimpleInsn(DUP_X2));
        n := insns.Add(SimpleInsn(POP));
        assert insns.code == c0 + [VarInsn(ALOAD, 0), SimpleInsn(DUP_X2), SimpleInsn(POP)];
      } else {
        n := insns.Add(SimpleInsn(SWAP));
        assert insns.code == c0 + [VarInsn(ALOAD, 0), SimpleInsn(SWAP)];
      }
    }

    /** An instance handler's `this` put beneath the owning object of an
        instance field, the new value parked meanwhile in local slots
        allocated for it. */
    method MarshallReceiver(insns: InsnList, target: Target, fieldType: JType)
      requires insns.Valid()
      requires target.Valid()
      modifies insns, target
      ensures target.Valid()
      ensures insns.Valid()
      ensures insns.code == old(insns.code) + SetterPrefix(ReceiverUnder(fieldType), false, false, fieldType, old(target.maxLocals))
      ensures target.insns == old(target.insns) && target.nodes == old(target.nodes) && target.maxStack == old(target.maxStack)
      ensures target.maxLocals == old(target.maxLocals) + Size(fieldType)
    {
      ghost var c0 := insns.code;
      var marshallVar := target.AllocateLocals(Size(fieldType));
      var n := insns.Add(VarInsn(TypedOpcode(fieldType, ISTORE), marshallVar));
      n := insns.Add(VarInsn(ALOAD, 0));
      n := insns.Add(SimpleInsn(SWAP));
      n := insns.Add(VarInsn(TypedOpcode(fieldType, ILOAD), marshallVar));
      assert insns.code == c0 + [VarInsn(TypedOpcode(fieldType, ISTORE), marshallVar), VarInsn(ALOAD, 0), SimpleInsn(SWAP),
                                 VarInsn(TypedOpcode(fieldType, ILOAD), marshallVar)];
    }

    /** The forwarding step of both field rewrites: when the handler takes
        the target method's arguments, they are pushed and the stack
        counter grows by their size. */
    method PushForwarded(target: Target, insns: InsnList, withArgs: bool)
      requires |target.argIndices| == |target.arguments| && insns.Valid()
      requires target.Valid()
      modifies insns, target
      ensures target.Valid()
      ensures insns.Valid()
      ensures insns.code == old(insns.code) + Forwarded(withArgs, target.arguments, target.argIndices)
      ensures target.insns == old(target.insns) && target.nodes == old(target.nodes) && target.maxLocals == old(target.maxLocals)
      ensures target.maxStack == old(target.maxStack) + (if withArgs then ArgsSize(target.arguments) else 0)
    {
      if withArgs {
        PushArgs(target.arguments, insns, target.argIndices);
        assert target.argIndices[..|target.arguments|] == target.argIndices;
        target.AddToStack(ArgsSize(target.arguments));
      }
    }

    /** `storeArgs`: stores values of types `args` from the top of the stack
        into the slots `generateArgMap` gives them, the last value first,
        and returns those slots. */
    method StoreArgs(target: Target, args: seq<JType>, insns: InsnList) returns (argMap: seq<int>)
      requires insns.Valid()
      modifies insns
      ensures insns.Valid()
      ensures argMap == ArgMap(args, target.maxLocals)
      ensures insns.code == old(insns.code) + Rewrite.StoreArgs(args, argMap)
    {
      argMap := target.GenerateArgMap(args);
      var i := |args|;
      while i > 0
        invariant 0 <= i <= |args| && |argMap| == |args|
        invariant insns.Valid() && insns.code == old(insns.code) + Rewrite.StoreArgs(args[i..], argMap[i..])
      {
        i := i - 1;
        var n := insns.Add(VarInsn(TypedOpcode(args[i], ISTORE), argMap[i]));
        assert args[i..] == [args[i]] + args[i + 1..];
        assert argMap[i..] == [argMap[i]] + argMap[i + 1..];
        StoreArgsFront(args[i], args[i + 1..], argMap[i], argMap[i + 1..]);
      }
      assert args[0..] == args && argMap[0..] == argMap;
    }

    /** `pushArgs`: loads values of types `args` from the slots listed in
        `argMap`, the first value first. */
    method PushArgs(args: seq<JType>, insns: InsnList, argMap: seq<int>)
      requires |args| <= |argMap|
      requires insns.Valid()
      modifies insns
      ensures insns.Valid()
      ensures insns.code == old(insns.code) + Rewrite.PushArgs(args, argMap[..|args|])
    {
      var i := 0;
      while i < |args|
        invariant 0 <= i <= |args|
        invariant insns.Valid() && insns.code == old(insns.code) + Rewrite.PushArgs(args[..i], argMap[..i])
      {
        var n := insns.Add(VarInsn(TypedOpcode(args[i], ILOAD), argMap[i]));
        assert args[..i + 1][..i] == args[..i] && argMap[..i + 1][..i] == argMap[..i];
        i := i + 1;
      }
      assert args[..i] == args;
    }

    /** `invokeHandler`: appends the call of the handler and returns it. */
    method InvokeHandler(insns: InsnList) returns (insn: InsnNode)
      requires insns.Valid()
      modifies insns
      ensures insns.Valid()
      ensures insns.code == old(insns.code) + [Rewrite.InvokeHandler(handler)]
      ensures |insns.nodes| > 0 && insn == insns.nodes[|insns.nodes| - 1]
    {
      insn := insns.Add(Rewrite.InvokeHandler(handler));
    }

    /** `invokeHandlerWithArgs`: `this` for an instance handler, the values
        of types `args` from the slots of `argMap`, then the handler call. */
    method InvokeHandlerWithArgs(args: seq<JType>, insns: InsnList, argMap: seq<int>) returns (insn: InsnNode)
      requires |args| <= |argMap|
      requires insns.Valid()
      modifies insns
      ensures insns.Valid()
      ensures insns.code ==
        old(insns.code) + LoadReceiver(handler) + Rewrite.PushArgs(args, argMap[..|args|]) + [Rewrite.InvokeHandler(handler)]
      ensures |insns.nodes| > 0 && insn == insns.nodes[|insns.nodes| - 1]
    {
      if !handler.isStatic {
        var n := insns.Add(VarInsn(ALOAD, 0));
      }
      PushArgs(args, insns, argMap);
      insn := InvokeHandler(insns);
    }
  }
}
