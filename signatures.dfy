/** Descriptor negotiation: the handler signatures a redirect accepts for a
    method call or a field access, and whether the target method's own
    arguments are to be forwarded to the handler. These are string
    computations; the lemmas restate each decision in terms of types. */
module Signatures {
  import opened Results
  import opened JvmTypes

  /** The annotated handler method: the class it belongs to, its name, the
      parameter and return types of its descriptor, whether it is static,
      and whether it is private (which decides how it is invoked). */
  datatype Handler = Handler(owner: string, name: string, params: seq<JType>, ret: JType, isStatic: bool, isPrivate: bool) {

    /** `methodNode.desc` */
    function Desc(): string {
      MethodDescriptor(params, ret)
    }

    /** It belongs to a class, takes values and returns a value or void. */
    predicate Valid() {
      ValidName(owner) && AllValueTypes(params) && WellFormed(ret)
    }
  }

  /** The natural parameters of a field getter handler: the field's owner
      for an instance field, nothing for a static one; it returns the
      field's type. */
  function GetterParams(staticField: bool, owner: JType): seq<JType> {
    if staticField then [] else [owner]
  }

  /** The natural parameters of a field setter handler: the owner for an
      instance field, then the new value; it returns void. */
  function SetterParams(staticField: bool, owner: JType, fieldType: JType): seq<JType> {
    if staticField then [fieldType] else [owner, fieldType]
  }

  /** The invoke check: `Ok(false)` when the handler descriptor is exactly
      `(stackVars)ret`, `Ok(true)` when it is that with the target method's
      arguments appended to the parameters, a signature failure otherwise. */
  function MatchInvoke(handlerDesc: string, stackVars: seq<JType>, ret: JType, arguments: seq<JType>): Result<bool> {
    if MethodDescriptor(stackVars, ret) == handlerDesc then Ok(false)
    else if MethodDescriptor(stackVars + arguments, ret) == handlerDesc then Ok(true)
    else Err(InvalidSignature)
  }

  /** `checkDescriptor`: `Ok(false)` on an exact match with the natural
      descriptor `desc`; otherwise the target method's argument descriptors
      are spliced in before the first `)` of `desc`, and a match with that
      gives `Ok(true)`; anything else is a signature failure. The natural
      descriptor always holds a `)`. */
  function CheckDescriptor(handlerDesc: string, desc: string, arguments: seq<JType>): Result<bool>
    requires ')' in desc
  {
    if handlerDesc == desc then Ok(false)
    else
      var pos := IndexOf(desc, ')');
      var alternateDesc := desc[..pos] + Join(arguments) + desc[pos..];
      if handlerDesc == alternateDesc then Ok(true)
      else Err(InvalidSignature)
  }

  /** Splicing the arguments in before the first `)` of a well-formed method
      descriptor appends them to its parameters. */
  lemma {:induction false} AlternateAppendsArguments(p: seq<JType>, r: JType, arguments: seq<JType>)
    requires forall i :: 0 <= i < |p| ==> WellFormed(p[i])
    ensures var desc := MethodDescriptor(p, r);
      && ')' in desc
      && var pos := IndexOf(desc, ')');
         desc[..pos] + Join(arguments) + desc[pos..] == MethodDescriptor(p + arguments, r)
  {
    var head := "(" + Join(p);
    var tail := Descriptor(r);
    var desc := MethodDescriptor(p, r);
    assert desc == head + [')'] + tail;
    NoParenInJoin(p);
    assert ')' !in head;
    IndexOfFirst(head, ')', tail);
    Splice(head, ')', tail, Join(arguments));
    JoinAppend(p, arguments);
    assert head + Join(arguments) + [')'] + tail == "(" + (Join(p) + Join(arguments)) + ")" + tail;
  }

  lemma {:induction false} Splice(head: string, c: char, tail: string, ins: string)
    ensures var s := head + [c] + tail;
      s[..|head|] + ins + s[|head|..] == head + ins + [c] + tail
  {
    var s := head + [c] + tail;
    assert s[..|head|] == head;
    assert s[|head|..] == [c] + tail;
  }

  /** A field handler is accepted without forwarding exactly when its
      signature is the natural one, accepted with forwarding exactly when
      its parameters are the natural ones followed by the target method's
      arguments (and the return type is the natural one), and refused in
      every other case. */
  lemma {:induction false} CheckDescriptorDecides(h: Handler, p: seq<JType>, r: JType, arguments: seq<JType>)
    requires h.Valid() && AllValueTypes(p) && WellFormed(r) && AllValueTypes(arguments)
    ensures ')' in MethodDescriptor(p, r)
    ensures CheckDescriptor(h.Desc(), MethodDescriptor(p, r), arguments) ==
      if h.params == p && h.ret == r then Ok(false)
      else if h.params == p + arguments && h.ret == r then Ok(true)
      else Err(InvalidSignature)
  {
    AlternateAppendsArguments(p, r, arguments);
    MethodDescriptorInjective(h.params, h.ret, p, r);
    assert AllValueTypes(p + arguments);
    MethodDescriptorInjective(h.params, h.ret, p + arguments, r);
  }

  /** The same decision for a method call, whose alternate signature is
      built from types rather than by splicing strings. */
  lemma {:induction false} MatchInvokeDecides(h: Handler, stackVars: seq<JType>, ret: JType, arguments: seq<JType>)
    requires h.Valid() && AllValueTypes(stackVars) && WellFormed(ret) && AllValueTypes(arguments)
    ensures MatchInvoke(h.Desc(), stackVars, ret, arguments) ==
      if h.params == stackVars && h.ret == ret then Ok(false)
      else if h.params == stackVars + arguments && h.ret == ret then Ok(true)
      else Err(InvalidSignature)
  {
    MethodDescriptorInjective(h.params, h.ret, stackVars, ret);
    assert AllValueTypes(stackVars + arguments);
    MethodDescriptorInjective(h.params, h.ret, stackVars + arguments, ret);
  }
}
