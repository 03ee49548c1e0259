# Mixin's `@Redirect` injector in Dafny

This project models `RedirectInjector` from Mixin, the bytecode-weaving
library. A redirect injector takes method calls and field accesses in a
target method and replaces each one with a call of a handler method. It
has two phases:

- **Claiming** (`addTargetNode`). The injector files an injection node for
  each instruction it targets and decorates the node with its redirect
  record: owner, priority, final flag, name and descriptor. Another redirect
  may already hold the node. A claim of the same or lower priority is then
  skipped with a warning. A higher-priority claim against a final record
  throws. Any other claim overwrites the record.
- **Rewriting** (`inject` and the methods it dispatches to). The injector
  checks that it still owns the node and that no one has replaced it. It
  then builds replacement code in a fresh instruction list, splices that
  list in place of the instruction and grows the frame counters of the
  target method.
  - A **method call** has its operands stored into fresh local slots and
    reloaded behind the handler's receiver.
  - A **field read or write** has `this` moved beneath the operands when
    the handler is not static. A write of an instance field first parks the
    new value in a freshly allocated local.
  - **Forwarding.** The handler may take the target method's own arguments
    after the natural ones. The injector decides this by comparing
    descriptor strings: `checkDescriptor` for fields, a type-built
    alternative for calls.

The model is organised in modules:

| module | contents |
|---|---|
| `Results` | `Option`, `Result`; one `Failure` per throw site; the `Outcome` (`Done`, `Skipped`, `Failed`) of a call that can also return early |
| `JvmTypes` | JVM types, their descriptor strings, their slot sizes; injectivity of method descriptors |
| `Bytecode` | the instructions involved, with their JVM opcode numbers, and their operand types |
| `StackMachine` | a symbolic operand stack and locals on which emitted code runs, with peak stack height; it gives the rewrites a meaning |
| `Arbitration` | claim arbitration between redirect injectors, on values |
| `Signatures` | the handler's signature and the descriptor checks |
| `Rewrite` | the code and frame growth each rewrite produces, as pure plans |
| `Slots` | the local slots an accepted plan writes: only those it adds to the frame |
| `Soundness` | each accepted plan delivers the handler's arguments in order, puts its result where the instruction's was, keeps the target's locals and stays within the recorded stack growth |
| `Injection` | classes for the mutable structures: instruction nodes, the instruction list, injection nodes, the target method; each node is built for one list at one place, so no node is in two places |
| `Redirect` | class `RedirectInjector`: the source's methods, imperatively, each proved against `Arbitration` or a `Rewrite` plan |
| `Findings` | two defects of the setter for a static field redirected to an instance handler |

The string checks are modelled as string comparisons, as the source makes
them. `JvmTypes.MethodDescriptorInjective` turns them into statements about
parameter and return types.

Finality is often described as absolute: any claim by another injector
on a node with a final redirect fails, whatever its priority. The code is
weaker. It throws only when the new claim has strictly higher priority; a
claim of the same or lower priority is skipped with a warning (lines
106-113). The model follows the code (`Arbitration.FinalClaimResists`).
Either way a final record is never displaced
(`Arbitration.FinalIsNeverTakenOver`).

## Model

| member | source | states |
|---|---|---|
| Arbitration.WinnerIsFirstHighest | src/main/java/org/spongepowered/asm/mixin/injection/invoke/RedirectInjector.java:96-126 | on a fresh node, claims by injectors with fixed records that do not throw leave the node to the first claimant of highest priority, whatever the order of the others |
| Arbitration.RecordedPriorityNeverDecreases | src/main/java/org/spongepowered/asm/mixin/injection/invoke/RedirectInjector.java:105-121 | across successive claims that do not throw, the priority recorded on the node never decreases |
| Arbitration.FinalIsNeverTakenOver | src/main/java/org/spongepowered/asm/mixin/injection/invoke/RedirectInjector.java:105-121 | once a final record is on a node, no later claim that does not throw changes it |
| Arbitration.AbortsExactlyAtFinal | src/main/java/org/spongepowered/asm/mixin/injection/invoke/RedirectInjector.java:105-113 | a series of claims throws at claim i if and only if the record then on the node belongs to another injector, is final, and has strictly lower priority than claim i |
| Arbitration.HigherPriorityWinsEitherOrder | src/main/java/org/spongepowered/asm/mixin/injection/invoke/RedirectInjector.java:105-121 | of two non-final injectors, the one of strictly higher priority owns the node whichever claims first |
| Arbitration.FinalClaimResists | src/main/java/org/spongepowered/asm/mixin/injection/invoke/RedirectInjector.java:105-113 | a higher-priority claim against another injector's final record throws; a claim of equal or lower priority leaves the record in place |
| Signatures.CheckDescriptorDecides | src/main/java/org/spongepowered/asm/mixin/injection/invoke/RedirectInjector.java:278-293 | `checkDescriptor` returns false exactly for the natural signature and true exactly for the natural parameters followed by the target method's arguments with the natural return type; every other handler is refused with a signature failure |
| Signatures.AlternateAppendsArguments | src/main/java/org/spongepowered/asm/mixin/injection/invoke/RedirectInjector.java:283-284 | splicing the joined argument descriptors in before the first `)` of a method descriptor gives the descriptor with those arguments appended to its parameters |
| Signatures.MatchInvokeDecides | src/main/java/org/spongepowered/asm/mixin/injection/invoke/RedirectInjector.java:165-176 | the call's handler check accepts without forwarding exactly when the handler takes the call's operands and returns its type, accepts with forwarding exactly when the target's arguments follow those operands, and fails otherwise |
| JvmTypes.MethodDescriptorInjective | src/main/java/org/spongepowered/asm/mixin/injection/invoke/RedirectInjector.java:278-285 | two method descriptors are the same string if and only if their parameter types and return types are equal |
| JvmTypes.IndexOf | src/main/java/org/spongepowered/asm/mixin/injection/invoke/RedirectInjector.java:283 | `indexOf`: -1 exactly when the character is absent; otherwise the position of its first occurrence |
| Bytecode.TypedOpcodeSize | src/main/java/org/spongepowered/asm/mixin/injection/invoke/RedirectInjector.java:257-261 | the typed load and store for the parked value move a two-slot value exactly for long and double, and the store pairs with the load |
| Rewrite.ArgMapBounds | src/main/java/org/spongepowered/asm/mixin/injection/invoke/RedirectInjector.java:179-181 | every operand stored by `storeArgs` gets a run of slots within the `getArgsSize(stackVars)` slots reserved from the first free local |
| Rewrite.ArgMapOrdered | src/main/java/org/spongepowered/asm/mixin/injection/invoke/RedirectInjector.java:179-181 | the runs of slots for successive operands do not overlap |
| Rewrite.InvokePlanDecides | src/main/java/org/spongepowered/asm/mixin/injection/invoke/RedirectInjector.java:158-192 | a call is redirected exactly when the handler returns the call's type and takes its operands, alone or followed by the target's arguments; otherwise it fails with a signature failure, as every instance call on an array type (`[I.clone`) does, since its receiver `L[I;` is no handler parameter; forwarding is on exactly when the handler takes more than the operands; locals grow by the operands' size plus one plus the forwarded size, the stack by one plus the forwarded size |
| Rewrite.ArrayCallFails | src/main/java/org/spongepowered/asm/mixin/injection/invoke/RedirectInjector.java:161-174 | an instance call whose owner is an array type has the receiver type `L` + owner + `;`, which is neither the handler's parameters nor their start before the target's arguments; its rewrite fails with a signature failure |
| Rewrite.FieldPlanDecides | src/main/java/org/spongepowered/asm/mixin/injection/invoke/RedirectInjector.java:197-272 | a field access is redirected exactly when the handler returns the field's type for a read (void for a write) and takes the access's operands, alone or followed by the target's arguments; a non-field opcode fails as unsupported; locals grow by the field's size only for an instance handler writing an instance field; the stack grows by the forwarded size plus nothing for a static handler, the field's size for an instance handler writing a static field (corrected, see Findings), and one otherwise |
| Soundness.InvokePlanSound | src/main/java/org/spongepowered/asm/mixin/injection/invoke/RedirectInjector.java:178-191 | run from the call's operands, the call's rewrite hands the handler its receiver, the operands and (when forwarding) the target's arguments in that order; it leaves the handler's result where the call's was, keeps the target's locals, and peaks at most the call's peak plus the recorded stack growth |
| Soundness.FieldPlanSound | src/main/java/org/spongepowered/asm/mixin/injection/invoke/RedirectInjector.java:203-271 | the same four facts for the rewrite of a field read or write |
| Soundness.ApplyPlanSound | src/main/java/org/spongepowered/asm/mixin/injection/invoke/RedirectInjector.java:140-151 | the same four facts for whatever instruction `inject` finds at the node |
| Slots.InvokePlanStores | src/main/java/org/spongepowered/asm/mixin/injection/invoke/RedirectInjector.java:178-190 | every store in a call's rewrite writes slots from the first free local up to the locals the plan adds (`getArgsSize(stackVars) + 1`, plus the forwarded size) |
| Slots.SetterPlanStores | src/main/java/org/spongepowered/asm/mixin/injection/invoke/RedirectInjector.java:252-263 | a setter's rewrite stores only when an instance handler writes an instance field, and then into the `fieldType.getSize()` slots `allocateLocals` reserved, a long or double taking both |
| Slots.ApplyPlanStores | src/main/java/org/spongepowered/asm/mixin/injection/invoke/RedirectInjector.java:140-151 | whatever `inject` rewrites, its code writes no local of the target method and none beyond the locals the plan adds |
| Injection.InsnList.Add | src/main/java/org/spongepowered/asm/mixin/injection/invoke/RedirectInjector.java:227-229 | appending a node extends the list's nodes and code by exactly that node and instruction |
| Injection.SpliceReplaced | src/main/java/org/spongepowered/asm/mixin/injection/invoke/RedirectInjector.java:189 | splicing a list in at the first occurrence of an instruction keeps everything before and after it, places the list's code there, and ends with the list's last node |
| Injection.SpliceDistinct | src/main/java/org/spongepowered/asm/mixin/injection/invoke/RedirectInjector.java:189 | splicing a list of new nodes in for one node of a list without repeats leaves no repeats and removes that node |
| Injection.Target.Add | src/main/java/org/spongepowered/asm/mixin/injection/invoke/RedirectInjector.java:117 | `injectionNodes.add` returns the node already filed under the instruction, or files a fresh clean one; no other node changes |
| Injection.Target.AllocateLocals | src/main/java/org/spongepowered/asm/mixin/injection/invoke/RedirectInjector.java:257 | returns the first unused local slot and reserves the requested number of slots above it |
| Injection.Target.AddToLocals | src/main/java/org/spongepowered/asm/mixin/injection/invoke/RedirectInjector.java:190 | the local count grows by exactly the amount given; nothing else changes |
| Injection.Target.AddToStack | src/main/java/org/spongepowered/asm/mixin/injection/invoke/RedirectInjector.java:191 | the stack count grows by exactly the amount given; nothing else changes |
| Injection.Target.GenerateArgMap | src/main/java/org/spongepowered/asm/mixin/injection/invoke/RedirectInjector.java:181 | the loop computes the consecutive slot runs `ArgMap` from the first free local |
| Injection.Target.ReplaceNode | src/main/java/org/spongepowered/asm/mixin/injection/invoke/RedirectInjector.java:189 | the instruction is replaced by the list at its first position and no longer occurs in the method, which still holds each node once; its injection node now stands for the champion and is refiled under it; the index stays consistent |
| Redirect.RedirectInjector.constructor | src/main/java/org/spongepowered/asm/mixin/injection/invoke/RedirectInjector.java:89-93 | the injector holds its handler, the priority and final flag it was given, and its name |
| Redirect.RedirectInjector.AddTargetNode | src/main/java/org/spongepowered/asm/mixin/injection/invoke/RedirectInjector.java:96-126 | the outcome is the arbitration verdict on the node's current record; on a claim the node carries this injector's record and is appended to the injector's nodes; on a skip or a throw nothing changes; no other node's record or target changes |
| Redirect.RedirectInjector.Inject | src/main/java/org/spongepowered/asm/mixin/injection/invoke/RedirectInjector.java:129-152 | skips a node this injector does not own and fails on a replaced one, changing nothing in either case; otherwise either fails as the dispatched plan fails, with no change, or rewrites the target exactly as the plan says; after a rewrite the node is marked replaced, stands for the handler call, and its original instruction is gone from the method |
| Redirect.RedirectInjector.InjectTwice | src/main/java/org/spongepowered/asm/mixin/injection/invoke/RedirectInjector.java:129-138 | a second `inject` of a node the first one rewrote fails as already replaced; after a skip or a failure the second answers as the first |
| Redirect.RedirectInjector.InjectAtInvoke | src/main/java/org/spongepowered/asm/mixin/injection/invoke/RedirectInjector.java:158-192 | takes any method call, including one on an array type; fails with a signature failure and no change, or replaces the call by the invoke plan's code and grows locals and stack by the plan's amounts |
| Redirect.RedirectInjector.RedirectCall | src/main/java/org/spongepowered/asm/mixin/injection/invoke/RedirectInjector.java:178-191 | once the handler has matched, the call is replaced by the invoke plan's code and the counters grow as the plan records |
| Redirect.RedirectInjector.BuildInvoke | src/main/java/org/spongepowered/asm/mixin/injection/invoke/RedirectInjector.java:178-188 | the instruction list holds the operand stores, the receiver load, the argument reloads and the handler call; the growth computed is the plan's |
| Redirect.RedirectInjector.ReplaceAndGrow | src/main/java/org/spongepowered/asm/mixin/injection/invoke/RedirectInjector.java:189-191 | `replaceNode`, `addToLocals` and `addToStack` together apply a plan to the target |
| Redirect.RedirectInjector.Replace | src/main/java/org/spongepowered/asm/mixin/injection/invoke/RedirectInjector.java:213 | splices a prepared list of fresh nodes in for the node's instruction, which leaves the method, and refiles the node under the list's handler call |
| Redirect.RedirectInjector.InjectAtFieldAccess | src/main/java/org/spongepowered/asm/mixin/injection/invoke/RedirectInjector.java:197-214 | a read gets the getter plan, a write the setter plan, any other opcode fails; on failure nothing changes, otherwise the target is rewritten as the plan says |
| Redirect.RedirectInjector.RedirectFieldRead | src/main/java/org/spongepowered/asm/mixin/injection/invoke/RedirectInjector.java:204-213 | a field read is replaced by the getter plan's code, or the injector fails as the plan fails with nothing changed |
| Redirect.RedirectInjector.RedirectFieldWrite | src/main/java/org/spongepowered/asm/mixin/injection/invoke/RedirectInjector.java:207-213 | a field write is replaced by the setter plan's code, or the injector fails as the plan fails with nothing changed |
| Redirect.RedirectInjector.InjectAtGetField | src/main/java/org/spongepowered/asm/mixin/injection/invoke/RedirectInjector.java:222-240 | succeeds exactly when the getter plan does; it appends exactly the plan's code, returns its last node (the handler call) and grows the counters by the plan's amounts; on failure the list and target are unchanged |
| Redirect.RedirectInjector.InjectAtPutField | src/main/java/org/spongepowered/asm/mixin/injection/invoke/RedirectInjector.java:248-272 | the same for the setter plan, corrected for a static field under an instance handler (see Findings) |
| Redirect.RedirectInjector.EmitSetterPrefix | src/main/java/org/spongepowered/asm/mixin/injection/invoke/RedirectInjector.java:252-263 | appends the corrected setter prefix (see Findings) for the handler's and field's staticness: nothing for a static handler, `ALOAD 0` then `SWAP`, or `DUP_X2; POP` for a long or double, under a static field, and the parked value otherwise; only an instance handler writing an instance field allocates locals, as many as the field's size |
| Redirect.RedirectInjector.EmitGetterPrefix | src/main/java/org/spongepowered/asm/mixin/injection/invoke/RedirectInjector.java:226-231 | an instance handler gets `ALOAD 0`, followed by `SWAP` under an instance field; a static handler gets nothing |
| Redirect.RedirectInjector.EmitFieldTail | src/main/java/org/spongepowered/asm/mixin/injection/invoke/RedirectInjector.java:233-239 | the forwarded arguments, when the handler takes them, then the handler call, which it returns; the stack grows by the forwarded size plus the amount given; nothing else of the target changes |
| Redirect.RedirectInjector.ReceiverBeneathValue | src/main/java/org/spongepowered/asm/mixin/injection/invoke/RedirectInjector.java:253-255 | the corrected form (see Findings): `ALOAD 0`, then `SWAP` over a one-slot value or `DUP_X2; POP` over a long or double |
| Redirect.RedirectInjector.MarshallReceiver | src/main/java/org/spongepowered/asm/mixin/injection/invoke/RedirectInjector.java:256-261 | the new value is stored into `fieldType.getSize()` freshly allocated slots, `this` is put beneath the owning object with `SWAP`, and the value is reloaded |
| Redirect.RedirectInjector.PushForwarded | src/main/java/org/spongepowered/asm/mixin/injection/invoke/RedirectInjector.java:233-236 | when forwarding, appends loads of the target's arguments and grows the stack by their size; otherwise changes nothing |
| Redirect.RedirectInjector.StoreArgs | src/main/java/org/spongepowered/asm/mixin/injection/invoke/RedirectInjector.java:181 | `storeArgs` returns the slot map from the first free local and appends stores of the operands into it, the topmost first |
| Redirect.RedirectInjector.PushArgs | src/main/java/org/spongepowered/asm/mixin/injection/invoke/RedirectInjector.java:234 | `pushArgs` appends loads of the given types from the given slots, the first first |
| Redirect.RedirectInjector.InvokeHandler | src/main/java/org/spongepowered/asm/mixin/injection/invoke/RedirectInjector.java:239 | appends the handler call and returns its node |
| Redirect.RedirectInjector.InvokeHandlerWithArgs | src/main/java/org/spongepowered/asm/mixin/injection/invoke/RedirectInjector.java:188 | appends the receiver load, the argument loads and the handler call, and returns the call's node |
| Findings.SwapOverWideStuck | src/main/java/org/spongepowered/asm/mixin/injection/invoke/RedirectInjector.java:254-255 | `ALOAD 0; SWAP` over a two-slot value gets stuck, whatever follows |
| Findings.WideStaticSetterAsWrittenStuck | src/main/java/org/spongepowered/asm/mixin/injection/invoke/RedirectInjector.java:253-255 | as written, an instance handler's rewrite of a write to a static long or double field cannot run where the original write runs |
| Findings.StaticSetterPeakFloor | src/main/java/org/spongepowered/asm/mixin/injection/invoke/RedirectInjector.java:270 | any rewrite of a one-slot static write through an instance handler that delivers the handler's arguments peaks at least one slot, plus the forwarded size, above the original write |
| Findings.StaticSetterAsWrittenUndercounts | src/main/java/org/spongepowered/asm/mixin/injection/invoke/RedirectInjector.java:270 | as written, that rewrite peaks exactly one slot above the original peak plus the recorded growth |
| Findings.StaticSetterCorrected | src/main/java/org/spongepowered/asm/mixin/injection/invoke/RedirectInjector.java:252-270 | the corrected setter accepts the same handlers as the one as written; it has the same code for a one-slot field and uses `DUP_X2; POP` for a two-slot field; it records the field's size as stack growth, and its code delivers the handler's arguments within that growth |

## Left out

- Logging is not modelled: the conflict warnings (lines 107 and 131) and the print of the alternate descriptor (line 289). A warning is the `Skipped` outcome. Exception messages are not modelled; each throw is one `Failure` value.
- Annotation lookup is not modelled: the priority from the mixin context and the `@Final` annotation (lines 91-92) are constructor parameters. So is `info.toString()`, the name stored in `redir:name`.
- The six `redir:*` decorations are modelled as one optional record. They are always written together (lines 118-123), so a node either holds them all or has none.
- `InvokeInjector`, `Injector`, `Target`, `ASMHelper` and ASM are not part of this model. The model assumes the following of them:
  - `storeArgs` stores the topmost operand first into the slots that `generateArgMap` gives (consecutive runs, starting at the first unused local).
  - `pushArgs` loads each value from its slot, the first value first. The start and end arguments in the source always cover the whole list.
  - `invokeHandler` picks `INVOKESTATIC` for a static handler, `INVOKESPECIAL` for a private one and `INVOKEVIRTUAL` otherwise.
  - `allocateLocals`, `addToLocals` and `addToStack` grow the frame counters by the amount given.
  - `replaceNode` splices the list in and refiles the injection node under the champion.
- Instructions are values with their descriptors already parsed into types. Class names are assumed to contain no `(` or `)`, so that the first `)` of a descriptor closes its parameter list; no Java compiler writes such names. Type and descriptor parsing by ASM is not modelled.
- The stack machine covers only the opcodes the injector emits or rewrites, with their category rules. It stands in for the JVM's verifier and runs no other code.
- Redirect.RedirectInjector.EmitSetterPrefix emits the corrected setter prefix (Findings) rather than the code as written, for a static field under an instance handler: `DUP_X2; POP` where lines 254-255 write `SWAP` over a long or double, and growth of the field's size where line 270 records none. So do Redirect.RedirectInjector.ReceiverBeneathValue, Redirect.RedirectInjector.InjectAtPutField, Redirect.RedirectInjector.RedirectFieldWrite, Redirect.RedirectInjector.InjectAtFieldAccess, Redirect.RedirectInjector.Inject, Rewrite.SetterPlan, Rewrite.FieldPlan, Rewrite.ApplyPlan, Rewrite.FieldPlanDecides, Soundness.FieldPrefix, Soundness.FieldPlanSound and Soundness.ApplyPlanSound. The code as written is `Rewrite.SetterPlanAsWritten`.
- Redirect.RedirectInjector.Inject, Redirect.RedirectInjector.InjectAtInvoke and Soundness.ApplyPlanSound require a well-typed instruction and a valid handler, and one slot index per target argument. A well-typed instruction has well-formed types, and its owner is a class name or, for a method call, an array type; a call on an array type is accepted and fails with a signature failure. A valid handler belongs to a class whose name has no `(` or `)` and takes value types. These are modelling assumptions; a class file is not parsed.
- Soundness.InvokePlanSound, Soundness.FieldPlanSound and Soundness.ApplyPlanSound run on locals keyed one map entry per value, at the value's first slot, so their "keeps the target's locals" and "delivers" do not by themselves rule out overlapping slots. A long or double stored at slot n does not mark slot n+1 as taken, and `FreshSlots` and `LocalsReady` do not exclude a value that overlaps the next one's slot. The slot layout is stated separately: `Rewrite.ArgMapBounds` and `Rewrite.ArgMapOrdered` give each stored operand its own run of slots, and `Slots.ApplyPlanStores` keeps every store, with its width, inside the slots the plan adds.
- `Injector.printArgs` is modelled as `(`, the joined parameter descriptors, and `)`. `ASMHelper.generateDescriptor(null, …)` is modelled as a method descriptor with a `V` return, and `generateDescriptor(t, …)` as one returning `t`.
- `Type.getSize`, `Type.getOpcode` and `ASMHelper.getArgsSize` are `Size`, `TypedOpcode` and `ArgsSize`: two slots for long and double, one otherwise, and the load or store opcode for the type's category.
- Redirect.RedirectInjector.RedirectCall, BuildInvoke, ReplaceAndGrow, Replace, RedirectFieldRead, RedirectFieldWrite, EmitSetterPrefix and PushForwarded are not separate methods in the source. Each is a stretch of `injectAtInvoke`, `injectAtFieldAccess`, `injectAtGetField` or `injectAtPutField`, split out so that each can be proved on its own.

## Findings

| source | as written | input that shows it | evidently intended | confidence | as-written member | corrected member |
|---|---|---|---|---|---|---|
| src/main/java/org/spongepowered/asm/mixin/injection/invoke/RedirectInjector.java:253-255 | an instance handler redirecting a write of a static field gets `ALOAD 0; SWAP` (`Rewrite.SetterPlanAsWritten`) | `PUTSTATIC` of a `long` or `double` field, redirected to a non-static handler `(J)V`: `SWAP` needs two one-slot values, but finds a two-slot value beneath `this` | put `this` beneath the value with `DUP_X2; POP` when the field takes two slots | not executed | Findings.WideStaticSetterAsWrittenStuck | Findings.StaticSetterCorrected |
| src/main/java/org/spongepowered/asm/mixin/injection/invoke/RedirectInjector.java:270 | the same case records no stack growth beyond the forwarded arguments (`addToStack(0)`) | `PUTSTATIC` of an `int` field, redirected to a non-static handler `(I)V`: `this` sits above the value at the call, one slot above the original peak | record the field's size (one slot for `this` over a one-slot value, two for the `DUP_X2` form) | not executed | Findings.StaticSetterAsWrittenUndercounts | Findings.StaticSetterCorrected |
