/** The instructions the redirect injector reads and writes, with the opcode
    numbers of section 6.5 of the Java Virtual Machine Specification. */
module Bytecode {
  import opened JvmTypes

  const ILOAD: int := 21
  const LLOAD: int := 22
  const FLOAD: int := 23
  const DLOAD: int := 24
  const ALOAD: int := 25
  const ISTORE: int := 54
  const LSTORE: int := 55
  const DSTORE: int := 57
  const ASTORE: int := 58
  const POP: int := 87
  const DUP_X2: int := 91
  const SWAP: int := 95
  const GETSTATIC: int := 178
  const PUTSTATIC: int := 179
  const GETFIELD: int := 180
  const PUTFIELD: int := 181
  const INVOKEVIRTUAL: int := 182
  const INVOKESPECIAL: int := 183
  const INVOKESTATIC: int := 184
  const INVOKEINTERFACE: int := 185

  /** One instruction. A method call carries its owner class, name and the
      parsed argument and return types of its descriptor; a field access its
      owner class, name and field type. `OtherInsn` stands for every kind of
      instruction the injector does not rewrite. */
  datatype Insn =
    | MethodInsn(opcode: int, owner: string, name: string, args: seq<JType>, ret: JType)
    | FieldInsn(opcode: int, owner: string, name: string, fieldType: JType)
    | VarInsn(opcode: int, slot: int)
    | SimpleInsn(opcode: int)
    | OtherInsn(opcode: int)

  /** The operand types a method call pops, bottom first: the receiver,
      typed by the call's owner class, unless the call is static, then the
      arguments (`stackVars` in `injectAtInvoke`). */
  function StackVars(isStatic: bool, owner: string, args: seq<JType>): seq<JType> {
    if isStatic then args else [Object(owner)] + args
  }

  /** The operand types a field access pops, bottom first: the owning
      object for an instance field, then the new value for a write. */
  function FieldStackVars(opcode: int, owner: string, fieldType: JType): seq<JType> {
    var instance := if opcode == GETFIELD || opcode == PUTFIELD then [Object(owner)] else [];
    if opcode == PUTSTATIC || opcode == PUTFIELD then instance + [fieldType] else instance
  }

  /** The operand types an instruction pops, bottom first. */
  function Operands(insn: Insn): seq<JType> {
    match insn
    case MethodInsn(op, owner, _, args, _) => StackVars(op == INVOKESTATIC, owner, args)
    case FieldInsn(op, owner, _, fieldType) => FieldStackVars(op, owner, fieldType)
    case _ => []
  }

  /** An instruction whose owners and types are those a parsed class file
      can hold: a method call belongs to a class or to an array type, a
      field access to a class. */
  predicate WellTypedInsn(insn: Insn) {
    match insn
    case MethodInsn(_, owner, _, args, ret) => ValidOwner(owner) && AllValueTypes(args) && WellFormed(ret)
    case FieldInsn(_, owner, _, fieldType) => ValidName(owner) && IsValueType(fieldType)
    case _ => true
  }

  /** The variant of a load or store opcode for a value of type `t`: the rule
      by which ASM's `Type.getOpcode(ILOAD)` and `Type.getOpcode(ISTORE)`
      select `ILOAD`..`ALOAD` and `ISTORE`..`ASTORE`. */
  function TypedOpcode(t: JType, op: int): (r: int)
    ensures op <= r <= op + 5
  {
    match t
    case Base(c) =>
      if c == 'J' then op + 1
      else if c == 'F' then op + 2
      else if c == 'D' then op + 3
      else if c == 'V' then op + 5
      else op
    case _ => op + 4
  }

  /** A load or store of type `t` moves a value of `t`'s size. */
  lemma {:induction false} TypedOpcodeSize(t: JType)
    requires IsValueType(t)
    ensures (TypedOpcode(t, ILOAD) == LLOAD || TypedOpcode(t, ILOAD) == DLOAD) <==> Size(t) == 2
    ensures TypedOpcode(t, ISTORE) == TypedOpcode(t, ILOAD) + (ISTORE - ILOAD)
    ensures ILOAD <= TypedOpcode(t, ILOAD) <= ALOAD && ISTORE <= TypedOpcode(t, ISTORE) <= ASTORE
  {
  }
}
