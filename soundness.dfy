/** What the rewrites do when run: each plan, started with the captured
    instruction's operands on the stack, hands the handler its receiver,
    those operands and (when forwarding) the target method's arguments, in
    that order; it ends with the handler's result where the instruction's
    result would be; it leaves the target method's own locals alone; and
    its stack never rises above the instruction's own peak by more than the
    growth the plan records. */
module Soundness {
  import opened Results
  import opened JvmTypes
  import opened Bytecode
  import opened StackMachine
  import opened Signatures
  import opened Rewrite

  /** What the handler call leaves on the stack. */
  function ResultOf(h: Handler): seq<Value> {
    Pushed(InvokeHandler(h))
  }

  /** The operand types the handler call pops: its receiver, unless it is
      static, then its parameters. */
  function HandlerStack(h: Handler): seq<JType> {
    StackVars(h.isStatic, h.owner, h.params)
  }

  /** The slots `m` hold values of the sizes of the types `ts`. */
  predicate Holds(locals: map<int, Value>, m: seq<int>, ts: seq<JType>) {
    |m| == |ts| && forall i :: 0 <= i < |m| ==> m[i] in locals && locals[m[i]].size == Size(ts[i])
  }

  /** The values in slots `m`, in order. */
  function Loaded(locals: map<int, Value>, m: seq<int>): seq<Value>
    requires forall i :: 0 <= i < |m| ==> m[i] in locals
    decreases |m|
  {
    if m == [] then [] else Loaded(locals, m[..|m| - 1]) + [locals[m[|m| - 1]]]
  }

  /** The target method's frame where the captured instruction runs: `this`
      in slot 0 for an instance handler, its arguments in `argIndices`, and
      no slot in use from `firstFree` up. */
  predicate LocalsReady(h: Handler, arguments: seq<JType>, argIndices: seq<int>, firstFree: int, locals: map<int, Value>) {
    && (!h.isStatic ==> 0 in locals && locals[0].size == 1)
    && Holds(locals, argIndices, arguments)
    && forall k :: k in locals ==> k < firstFree
  }

  /** The receiver an instance handler is called on. */
  function Receiver(h: Handler, locals: map<int, Value>): seq<Value>
    requires !h.isStatic ==> 0 in locals
  {
    if h.isStatic then [] else [locals[0]]
  }

  /** Every slot of `locals` holds the same value in `locals'`. */
  predicate Keeps(locals: map<int, Value>, locals': map<int, Value>) {
    forall k :: k in locals ==> k in locals' && locals'[k] == locals[k]
  }

  /** The rewrite `p` of instruction `orig` for handler `h`, started with the
      operands `ops` above `base`: just before the handler call the stack
      holds the receiver, `ops` and the forwarded arguments above `base`;
      afterwards it holds the handler's result above `base`, as high as the
      instruction's result; the locals the frame held are unchanged; and the
      peak is within the instruction's peak plus the recorded growth. */
  predicate Delivers(p: Plan, h: Handler, orig: Insn, base: seq<Value>, ops: seq<Value>,
                     locals: map<int, Value>, argIndices: seq<int>)
  {
    && |p.code| > 0
    && (!h.isStatic ==> 0 in locals)
    && (forall i :: 0 <= i < |argIndices| ==> argIndices[i] in locals)
    && var st := State(base + ops, locals);
    var before := Run(p.code[..|p.code| - 1], st);
    var after := Run(p.code, st);
    var original := Run([orig], st);
    && before.Ran?
    && before.final.stack == base + Receiver(h, locals) + ops + (if p.forwards then Loaded(locals, argIndices) else [])
    && after.Ran?
    && after.final.stack == base + ResultOf(h)
    && Keeps(locals, after.final.locals)
    && original.Ran?
    && Height(after.final.stack) == Height(original.final.stack)
    && after.peak <= original.peak + p.extraStack
  }

  // ---------------------------------------------------------------------
  // Sequences and heights

  lemma {:induction false} Assoc<T>(a: seq<T>, b: seq<T>, c: seq<T>)
    ensures a + b + c == a + (b + c)
  {
  }

  lemma {:induction false} DropLast(a: seq<Insn>, c: Insn)
    ensures (a + [c])[..|a + [c]| - 1] == a
  {
  }

  lemma {:induction false} HeightOne(base: seq<Value>, v: Value)
    ensures Height(base + [v]) == Height(base) + v.size
  {
    HeightAppend(base, [v]);
    assert HeightOf([v], 0) == 0;
  }

  /** A value on the stack takes its size; nothing takes nothing. */
  lemma {:induction false} HeightAtMostOne(vs: seq<Value>)
    requires |vs| <= 1
    ensures Height(vs) == if vs == [] then 0 else vs[0].size
  {
    if vs != [] {
      assert HeightOf(vs, 0) == 0;
    }
  }

  // ---------------------------------------------------------------------
  // Locals

  /** The `i`-th loaded value is the one in slot `m[i]`. */
  lemma {:induction false} LoadedIndex(locals: map<int, Value>, m: seq<int>)
    requires forall i :: 0 <= i < |m| ==> m[i] in locals
    ensures |Loaded(locals, m)| == |m|
    ensures forall i :: 0 <= i < |m| ==> Loaded(locals, m)[i] == locals[m[i]]
    decreases |m|
  {
    if m != [] {
      var n := |m| - 1;
      assert forall i :: 0 <= i < n ==> m[..n][i] == m[i];
      LoadedIndex(locals, m[..n]);
    }
  }

  lemma {:induction false} FitsLoaded(locals: map<int, Value>, m: seq<int>, ts: seq<JType>)
    requires Holds(locals, m, ts)
    ensures Fits(Loaded(locals, m), ts)
  {
    LoadedIndex(locals, m);
  }

  /** Slots a frame keeps hold what they held. */
  lemma {:induction false} HoldsKept(locals: map<int, Value>, l1: map<int, Value>, m: seq<int>, ts: seq<JType>)
    requires Holds(locals, m, ts) && Keeps(locals, l1)
    ensures Holds(l1, m, ts) && Loaded(l1, m) == Loaded(locals, m)
  {
    forall i | 0 <= i < |m| ensures m[i] in l1 && l1[m[i]] == locals[m[i]] {
      var k := m[i];
      assert k in locals;
    }
    LoadedIndex(locals, m);
    LoadedIndex(l1, m);
  }

  /** The locals after storing `vals` into slots `m`, the last value first
      (the order `StoreArgs` uses). */
  function Stored(locals: map<int, Value>, m: seq<int>, vals: seq<Value>): map<int, Value>
    requires |m| == |vals|
    decreases |vals|
  {
    if vals == [] then locals
    else Stored(locals[m[|m| - 1] := vals[|vals| - 1]], m[..|m| - 1], vals[..|vals| - 1])
  }

  /** Into distinct slots, each stored value lands in its own slot and every
      other slot keeps its value. */
  lemma {:induction false} StoredLookup(locals: map<int, Value>, m: seq<int>, vals: seq<Value>)
    requires |m| == |vals|
    requires forall i, j :: 0 <= i < j < |m| ==> m[i] != m[j]
    ensures forall i :: 0 <= i < |m| ==> m[i] in Stored(locals, m, vals) && Stored(locals, m, vals)[m[i]] == vals[i]
    ensures forall k :: k in locals && k !in m ==> k in Stored(locals, m, vals) && Stored(locals, m, vals)[k] == locals[k]
    decreases |vals|
  {
    if vals != [] {
      var n := |m| - 1;
      var l1 := locals[m[n] := vals[n]];
      var m' := m[..n];
      StoredLookup(l1, m', vals[..n]);
      assert forall i :: 0 <= i < n ==> m'[i] == m[i];
      assert m[n] !in m';
      forall k | k in locals && k !in m
        ensures k in Stored(locals, m, vals) && Stored(locals, m, vals)[k] == locals[k]
      {
        assert k !in m' && k != m[n];
      }
    }
  }

  /** The slots `ArgMap` gives are distinct and lie at or above `first`. */
  lemma {:induction false} ArgMapFresh(ts: seq<JType>, first: int)
    requires AllValueTypes(ts)
    ensures FreshSlots(ArgMap(ts, first), |ts|, first)
  {
    ArgMapBounds(ts, first);
    ArgMapOrdered(ts, first);
    forall i, j | 0 <= i < j < |ts| ensures ArgMap(ts, first)[i] != ArgMap(ts, first)[j] {
      assert ArgMap(ts, first)[i] + Size(ts[i]) <= ArgMap(ts, first)[j];
    }
  }

  /** Storing values into distinct slots and loading them back gives the
      same values; slots below the stored ones keep theirs. */
  lemma {:induction false} StoredReload(locals: map<int, Value>, m: seq<int>, vals: seq<Value>, ts: seq<JType>, first: int)
    requires |m| == |vals| && Fits(vals, ts)
    requires forall i, j :: 0 <= i < j < |m| ==> m[i] != m[j]
    requires forall i :: 0 <= i < |m| ==> first <= m[i]
    requires forall k :: k in locals ==> k < first
    ensures Holds(Stored(locals, m, vals), m, ts)
    ensures Loaded(Stored(locals, m, vals), m) == vals
    ensures Keeps(locals, Stored(locals, m, vals))
  {
    StoredLookup(locals, m, vals);
    var l1 := Stored(locals, m, vals);
    forall k | k in locals ensures k in l1 && l1[k] == locals[k] {
      assert k !in m;
    }
    LoadedIndex(l1, m);
  }

  // ---------------------------------------------------------------------
  // Running the pieces

  /** Running code whose last instruction steps from where the rest ends. */
  lemma {:induction false} RunSnoc(code: seq<Insn>, pre: seq<Insn>, last: Insn, st: State, mid: State, p: nat, next: State)
    requires code == pre + [last]
    requires Run(pre, st) == Ran(mid, p) && Step(last, mid) == Some(next)
    ensures Run(code, st) == Ran(next, Max(p, Height(next.stack)))
  {
    RunOfPrefix(pre, [last], |pre|, st);
  }

  /** Running `b` after `a`, when both run, with the peak named. */
  lemma {:induction false} Chain(a: seq<Insn>, b: seq<Insn>, st: State, mid: State, p: nat, f: State, q: nat, r: nat)
    requires Run(a, st) == Ran(mid, p) && Run(b, mid) == Ran(f, q) && r == Max(p, q)
    ensures Run(a + b, st) == Ran(f, r)
  {
    RunConcat(a, b, st);
  }

  /** Loading values of types `ts` from slots `m` pushes exactly the values
      those slots hold. */
  lemma {:induction false} PushRun(ts: seq<JType>, m: seq<int>, s: seq<Value>, locals: map<int, Value>)
    requires AllValueTypes(ts) && Holds(locals, m, ts)
    ensures Run(PushArgs(ts, m), State(s, locals)) == Ran(State(s + Loaded(locals, m), locals), Height(s) + ArgsSize(ts))
    decreases |ts|
  {
    if ts == [] {
      assert s + [] == s;
    } else {
      var n := |ts| - 1;
      PushRunPrefix(ts, m, s, locals);
      PushRun(ts[..n], m[..n], s, locals);
      PushStep(ts[n], m[n], s + Loaded(locals, m[..n]), locals);
      RunSnoc(PushArgs(ts, m), PushArgs(ts[..n], m[..n]), VarInsn(TypedOpcode(ts[n], ILOAD), m[n]), State(s, locals),
              State(s + Loaded(locals, m[..n]), locals), Height(s) + ArgsSize(ts[..n]),
              State(s + Loaded(locals, m[..n]) + [locals[m[n]]], locals));
      LoadedHeight(s, locals, m, ts);
    }
  }

  /** Loaded values of types `ts` take `ArgsSize(ts)` slots. */
  lemma {:induction false} LoadedHeight(s: seq<Value>, locals: map<int, Value>, m: seq<int>, ts: seq<JType>)
    requires Holds(locals, m, ts)
    ensures Height(s + Loaded(locals, m)) == Height(s) + ArgsSize(ts)
  {
    FitsLoaded(locals, m, ts);
    FitsHeight(Loaded(locals, m), ts);
    HeightAppend(s, Loaded(locals, m));
  }

  /** The facts `PushRun` needs about the shorter lists. */
  lemma {:induction false} PushRunPrefix(ts: seq<JType>, m: seq<int>, s: seq<Value>, locals: map<int, Value>)
    requires AllValueTypes(ts) && Holds(locals, m, ts) && ts != []
    ensures AllValueTypes(ts[..|ts| - 1]) && Holds(locals, m[..|m| - 1], ts[..|ts| - 1])
    ensures IsValueType(ts[|ts| - 1]) && m[|m| - 1] in locals && locals[m[|m| - 1]].size == Size(ts[|ts| - 1])
    ensures s + Loaded(locals, m) == s + Loaded(locals, m[..|m| - 1]) + [locals[m[|m| - 1]]]
    ensures PushArgs(ts, m)[..|PushArgs(ts, m)| - 1] == PushArgs(ts[..|ts| - 1], m[..|m| - 1])
    ensures PushArgs(ts, m)[|PushArgs(ts, m)| - 1] == VarInsn(TypedOpcode(ts[|ts| - 1], ILOAD), m[|m| - 1])
  {
    var n := |ts| - 1;
    assert forall i :: 0 <= i < n ==> m[..n][i] == m[i] && ts[..n][i] == ts[i];
  }

  /** One typed load pushes the value its slot holds. */
  lemma {:induction false} PushStep(t: JType, slot: int, s: seq<Value>, locals: map<int, Value>)
    requires IsValueType(t) && slot in locals && locals[slot].size == Size(t)
    ensures Step(VarInsn(TypedOpcode(t, ILOAD), slot), State(s, locals)) == Some(State(s + [locals[slot]], locals))
  {
    TypedOpcodeSize(t);
  }

  lemma {:induction false} PushArgsAppend(ts: seq<JType>, m: seq<int>, us: seq<JType>, n: seq<int>)
    requires |m| == |ts| && |n| == |us|
    ensures PushArgs(ts + us, m + n) == PushArgs(ts, m) + PushArgs(us, n)
    decreases |us|
  {
    if us == [] {
      assert ts + us == ts && m + n == m;
    } else {
      var k := |us| - 1;
      assert (ts + us)[..|ts + us| - 1] == ts + us[..k] && (m + n)[..|m + n| - 1] == m + n[..k];
      PushArgsAppend(ts, m, us[..k], n[..k]);
    }
  }

  /** One typed store pops the top value into its slot. */
  lemma {:induction false} StoreStep(t: JType, slot: int, s: seq<Value>, v: Value, locals: map<int, Value>)
    requires IsValueType(t) && v.size == Size(t)
    ensures Step(VarInsn(TypedOpcode(t, ISTORE), slot), State(s + [v], locals)) == Some(State(s, locals[slot := v]))
  {
    TypedOpcodeSize(t);
    var s' := s + [v];
    assert s'[|s'| - 1] == v && s'[..|s'| - 1] == s;
  }

  /** Storing values of types `ts` into slots `m` pops them and fills the
      slots. */
  lemma {:induction false} StoreRun(ts: seq<JType>, m: seq<int>, base: seq<Value>, vals: seq<Value>, locals: map<int, Value>)
    requires |m| == |ts| && AllValueTypes(ts) && Fits(vals, ts)
    ensures Run(StoreArgs(ts, m), State(base + vals, locals)) == Ran(State(base, Stored(locals, m, vals)), Height(base + vals))
    decreases |ts|
  {
    if ts == [] {
      assert base + vals == base;
    } else {
      var n := |ts| - 1;
      StoreRunPrefix(ts, m, base, vals);
      StoreStep(ts[n], m[n], base + vals[..n], vals[n], locals);
      RunOne(VarInsn(TypedOpcode(ts[n], ISTORE), m[n]), State(base + vals, locals));
      HeightOne(base + vals[..n], vals[n]);
      StoreRun(ts[..n], m[..n], base, vals[..n], locals[m[n] := vals[n]]);
      PeakBounds(StoreArgs(ts[..n], m[..n]), State(base + vals[..n], locals[m[n] := vals[n]]));
      RunConcat([VarInsn(TypedOpcode(ts[n], ISTORE), m[n])], StoreArgs(ts[..n], m[..n]), State(base + vals, locals));
    }
  }

  /** The facts `StoreRun` needs about the shorter lists. */
  lemma {:induction false} StoreRunPrefix(ts: seq<JType>, m: seq<int>, base: seq<Value>, vals: seq<Value>)
    requires |m| == |ts| && AllValueTypes(ts) && Fits(vals, ts) && ts != []
    ensures AllValueTypes(ts[..|ts| - 1]) && Fits(vals[..|vals| - 1], ts[..|ts| - 1])
    ensures IsValueType(ts[|ts| - 1]) && vals[|vals| - 1].size == Size(ts[|ts| - 1])
    ensures base + vals == base + vals[..|vals| - 1] + [vals[|vals| - 1]]
  {
    var n := |ts| - 1;
    assert forall i :: 0 <= i < n ==> vals[..n][i] == vals[i] && ts[..n][i] == ts[i];
  }

  /** The handler call pops its receiver and parameters and pushes its
      result. */
  lemma {:induction false} CallRun(h: Handler, s: seq<Value>, base: seq<Value>, top: seq<Value>, locals: map<int, Value>)
    requires s == base + top && Fits(top, HandlerStack(h))
    ensures Run([InvokeHandler(h)], State(s, locals)) ==
      Ran(State(base + ResultOf(h), locals), Max(Height(s), Height(base + ResultOf(h))))
  {
    var c := InvokeHandler(h);
    assert Operands(c) == HandlerStack(h);
    PopPushTop(HandlerStack(h), ResultOf(h), base, top, locals);
    RunOne(c, State(s, locals));
  }

  /** A method call or field access finding its operands on the stack
      replaces them with what it pushes. */
  lemma {:induction false} OriginalRun(insn: Insn, base: seq<Value>, ops: seq<Value>, locals: map<int, Value>)
    requires insn.MethodInsn? || (insn.FieldInsn? && GETSTATIC <= insn.opcode <= PUTFIELD)
    requires Fits(ops, Operands(insn))
    ensures Run([insn], State(base + ops, locals)) ==
      Ran(State(base + Pushed(insn), locals), Max(Height(base + ops), Height(base + Pushed(insn))))
  {
    PopPushTop(Operands(insn), Pushed(insn), base, ops, locals);
    RunOne(insn, State(base + ops, locals));
  }

  /** The peak of a run that peaked at `p1` and then loaded values of the
      types `ts` onto the stack `s`. */
  function LoadPeak(p1: nat, s: seq<Value>, ts: seq<JType>): nat {
    Max(p1, Height(s) + ArgsSize(ts))
  }

  /** The forwarded loads after code that leaves `s` on the stack. */
  lemma {:induction false} TailPush(pre: seq<Insn>, fts: seq<JType>, fm: seq<int>, st: State, s: seq<Value>,
                                    vs: seq<Value>, locals: map<int, Value>, p1: nat, p2: nat)
    requires AllValueTypes(fts) && Holds(locals, fm, fts) && vs == Loaded(locals, fm)
    requires Run(pre, st) == Ran(State(s, locals), p1)
    requires p2 == LoadPeak(p1, s, fts)
    ensures Run(pre + PushArgs(fts, fm), st) == Ran(State(s + vs, locals), p2)
  {
    PushRun(fts, fm, s, locals);
    Chain(pre, PushArgs(fts, fm), st, State(s, locals), p1, State(s + vs, locals), Height(s) + ArgsSize(fts), p2);
  }

  /** The handler call after code that leaves its operands `top` above
      `base`, with a peak `p2` no lower than the stack it leaves. */
  lemma {:induction false} TailCall(h: Handler, code: seq<Insn>, st: State, s: seq<Value>, base: seq<Value>,
                                    top: seq<Value>, locals: map<int, Value>, p2: nat, p3: nat)
    requires Run(code, st) == Ran(State(s, locals), p2)
    requires s == base + top && Fits(top, HandlerStack(h)) && Height(s) <= p2
    requires p3 == Max(p2, Height(base + ResultOf(h)))
    ensures Run(code + [InvokeHandler(h)], st) == Ran(State(base + ResultOf(h), locals), p3)
  {
    CallRun(h, s, base, top, locals);
    var r := Height(base + ResultOf(h));
    Chain(code, [InvokeHandler(h)], st, State(s, locals), p2, State(base + ResultOf(h), locals), Max(Height(s), r), p3);
  }

  /** After the forwarded loads the stack is no higher than the peak. */
  lemma {:induction false} PushedHeight(base: seq<Value>, mid: seq<Value>, vs: seq<Value>, locals: map<int, Value>,
                                        fm: seq<int>, fts: seq<JType>, p1: nat, p2: nat)
    requires Holds(locals, fm, fts) && vs == Loaded(locals, fm)
    requires p2 == LoadPeak(p1, base + mid, fts)
    ensures Height(base + mid + vs) <= p2 && base + mid + vs == base + (mid + vs)
  {
    FitsLoaded(locals, fm, fts);
    FitsHeight(vs, fts);
    HeightAppend(base + mid, vs);
    Assoc(base, mid, vs);
  }

  /** The end every plan shares: the forwarded loads, then the handler call. */
  lemma {:induction false} Tail(h: Handler, pre: seq<Insn>, fts: seq<JType>, fm: seq<int>, st: State,
             base: seq<Value>, mid: seq<Value>, vs: seq<Value>, locals: map<int, Value>, p1: nat, p2: nat, p3: nat)
    requires AllValueTypes(fts) && Holds(locals, fm, fts) && vs == Loaded(locals, fm)
    requires Run(pre, st) == Ran(State(base + mid, locals), p1)
    requires Fits(mid + vs, HandlerStack(h))
    requires p2 == LoadPeak(p1, base + mid, fts)
    requires p3 == Max(p2, Height(base + ResultOf(h)))
    ensures Run(pre + PushArgs(fts, fm), st) == Ran(State(base + mid + vs, locals), p2)
    ensures Run(pre + PushArgs(fts, fm) + [InvokeHandler(h)], st) == Ran(State(base + ResultOf(h), locals), p3)
  {
    TailPush(pre, fts, fm, st, base + mid, vs, locals, p1, p2);
    PushedHeight(base, mid, vs, locals, fm, fts, p1, p2);
    TailCall(h, pre + PushArgs(fts, fm), st, base + mid + vs, base, mid + vs, locals, p2, p3);
  }

  /** The forwarded argument types and slots: the target method's arguments
      when forwarding, none otherwise. */
  function FwdTypes(forwards: bool, arguments: seq<JType>): seq<JType> {
    if forwards then arguments else []
  }

  function FwdSlots(forwards: bool, argIndices: seq<int>): seq<int> {
    if forwards then argIndices else []
  }

  lemma {:induction false} ForwardedIsPush(forwards: bool, arguments: seq<JType>, argIndices: seq<int>)
    requires |argIndices| == |arguments|
    ensures Forwarded(forwards, arguments, argIndices) == PushArgs(FwdTypes(forwards, arguments), FwdSlots(forwards, argIndices))
  {
  }

  /** `Delivers` from its parts, each named. */
  lemma {:induction false} DeliversIntro(p: Plan, h: Handler, orig: Insn, base: seq<Value>, ops: seq<Value>,
                                         locals: map<int, Value>, argIndices: seq<int>,
                                         before: State, bp: nat, after: State, ap: nat, origFinal: State, op: nat)
    requires |p.code| > 0 && (!h.isStatic ==> 0 in locals) && (forall i :: 0 <= i < |argIndices| ==> argIndices[i] in locals)
    requires Run(p.code[..|p.code| - 1], State(base + ops, locals)) == Ran(before, bp)
    requires before.stack == base + Receiver(h, locals) + ops + (if p.forwards then Loaded(locals, argIndices) else [])
    requires Run(p.code, State(base + ops, locals)) == Ran(after, ap)
    requires after.stack == base + ResultOf(h) && Keeps(locals, after.locals)
    requires Run([orig], State(base + ops, locals)) == Ran(origFinal, op)
    requires Height(after.stack) == Height(origFinal.stack) && ap <= op + p.extraStack
    ensures Delivers(p, h, orig, base, ops, locals, argIndices)
  {
  }

  /** A plan's code as a prefix, the forwarded loads and the handler call. */
  lemma {:induction false} PlanCode(p: Plan, h: Handler, arguments: seq<JType>, argIndices: seq<int>, pre: seq<Insn>)
    requires |argIndices| == |arguments|
    requires p.code == pre + Forwarded(p.forwards, arguments, argIndices) + [InvokeHandler(h)]
    ensures |p.code| > 0
    ensures p.code == pre + PushArgs(FwdTypes(p.forwards, arguments), FwdSlots(p.forwards, argIndices)) + [InvokeHandler(h)]
    ensures p.code[..|p.code| - 1] == pre + PushArgs(FwdTypes(p.forwards, arguments), FwdSlots(p.forwards, argIndices))
  {
    ForwardedIsPush(p.forwards, arguments, argIndices);
    DropLast(pre + PushArgs(FwdTypes(p.forwards, arguments), FwdSlots(p.forwards, argIndices)), InvokeHandler(h));
  }

  /** The forwarded arguments are still in place in a frame that keeps the
      original locals. */
  lemma {:induction false} ForwardedKept(forwards: bool, arguments: seq<JType>, argIndices: seq<int>,
                                         locals: map<int, Value>, l1: map<int, Value>)
    requires Holds(locals, argIndices, arguments) && Keeps(locals, l1)
    requires AllValueTypes(arguments)
    ensures AllValueTypes(FwdTypes(forwards, arguments))
    ensures Holds(l1, FwdSlots(forwards, argIndices), FwdTypes(forwards, arguments))
    ensures Loaded(l1, FwdSlots(forwards, argIndices)) == Loaded(locals, FwdSlots(forwards, argIndices))
    ensures Loaded(locals, FwdSlots(forwards, argIndices)) == (if forwards then Loaded(locals, argIndices) else [])
  {
    HoldsKept(locals, l1, FwdSlots(forwards, argIndices), FwdTypes(forwards, arguments));
  }

  /** The forwarded loads and the handler call after the prefix. */
  lemma {:induction false} PlanTail(h: Handler, forwards: bool, arguments: seq<JType>, argIndices: seq<int>,
                                    base: seq<Value>, mid: seq<Value>, st: State, locals: map<int, Value>,
                                    pre: seq<Insn>, l1: map<int, Value>, p1: nat, p2: nat, p3: nat)
    requires AllValueTypes(arguments) && Holds(locals, argIndices, arguments) && Keeps(locals, l1)
    requires Run(pre, st) == Ran(State(base + mid, l1), p1)
    requires Fits(mid + Loaded(locals, FwdSlots(forwards, argIndices)), HandlerStack(h))
    requires p2 == LoadPeak(p1, base + mid, FwdTypes(forwards, arguments))
    requires p3 == Max(p2, Height(base + ResultOf(h)))
    ensures Run(pre + PushArgs(FwdTypes(forwards, arguments), FwdSlots(forwards, argIndices)), st) ==
      Ran(State(base + mid + (if forwards then Loaded(locals, argIndices) else []), l1), p2)
    ensures Run(pre + PushArgs(FwdTypes(forwards, arguments), FwdSlots(forwards, argIndices)) + [InvokeHandler(h)], st) ==
      Ran(State(base + ResultOf(h), l1), p3)
  {
    ForwardedKept(forwards, arguments, argIndices, locals, l1);
    Tail(h, pre, FwdTypes(forwards, arguments), FwdSlots(forwards, argIndices), st,
         base, mid, Loaded(l1, FwdSlots(forwards, argIndices)), l1, p1, p2, p3);
  }

  /** The runs of a plan's code without and with its final handler call. */
  lemma {:induction false} PlanRuns(p: Plan, h: Handler, arguments: seq<JType>, argIndices: seq<int>,
                                    base: seq<Value>, ops: seq<Value>, locals: map<int, Value>,
                                    pre: seq<Insn>, l1: map<int, Value>, p1: nat, p2: nat, p3: nat)
    requires AllValueTypes(arguments) && Holds(locals, argIndices, arguments)
    requires !h.isStatic ==> 0 in locals
    requires p.code == pre + Forwarded(p.forwards, arguments, argIndices) + [InvokeHandler(h)]
    requires Keeps(locals, l1)
    requires Run(pre, State(base + ops, locals)) == Ran(State(base + (Receiver(h, locals) + ops), l1), p1)
    requires Fits(Receiver(h, locals) + ops + Loaded(locals, FwdSlots(p.forwards, argIndices)), HandlerStack(h))
    requires p2 == LoadPeak(p1, base + (Receiver(h, locals) + ops), FwdTypes(p.forwards, arguments))
    requires p3 == Max(p2, Height(base + ResultOf(h)))
    ensures |p.code| > 0
    ensures Run(p.code[..|p.code| - 1], State(base + ops, locals)) ==
      Ran(State(base + Receiver(h, locals) + ops + (if p.forwards then Loaded(locals, argIndices) else []), l1), p2)
    ensures Run(p.code, State(base + ops, locals)) == Ran(State(base + ResultOf(h), l1), p3)
  {
    PlanCode(p, h, arguments, argIndices, pre);
    PlanTail(h, p.forwards, arguments, argIndices, base, Receiver(h, locals) + ops, State(base + ops, locals), locals,
             pre, l1, p1, p2, p3);
    Assoc(base, Receiver(h, locals), ops);
  }

  /** Every plan is a prefix, the forwarded loads and the handler call: when
      the prefix leaves the receiver and the operands above `base` in a
      frame that keeps the original locals, and the handler takes what is
      then on the stack, the plan delivers, within the stated peak. */
  lemma {:induction false} Finish(p: Plan, h: Handler, orig: Insn, arguments: seq<JType>, argIndices: seq<int>,
                                  base: seq<Value>, ops: seq<Value>, locals: map<int, Value>,
                                  pre: seq<Insn>, l1: map<int, Value>, p1: nat, p2: nat, p3: nat, op: nat)
    requires AllValueTypes(arguments) && Holds(locals, argIndices, arguments)
    requires !h.isStatic ==> 0 in locals
    requires p.code == pre + Forwarded(p.forwards, arguments, argIndices) + [InvokeHandler(h)]
    requires Keeps(locals, l1)
    requires Run(pre, State(base + ops, locals)) == Ran(State(base + (Receiver(h, locals) + ops), l1), p1)
    requires Fits(Receiver(h, locals) + ops + Loaded(locals, FwdSlots(p.forwards, argIndices)), HandlerStack(h))
    requires Run([orig], State(base + ops, locals)) == Ran(State(base + Pushed(orig), locals), op)
    requires Height(Pushed(orig)) == Height(ResultOf(h))
    requires p2 == LoadPeak(p1, base + (Receiver(h, locals) + ops), FwdTypes(p.forwards, arguments))
    requires p3 == Max(p2, Height(base + ResultOf(h))) && p3 <= op + p.extraStack
    ensures Delivers(p, h, orig, base, ops, locals, argIndices)
  {
    PlanRuns(p, h, arguments, argIndices, base, ops, locals, pre, l1, p1, p2, p3);
    HeightAppend(base, Pushed(orig));
    HeightAppend(base, ResultOf(h));
    DeliversIntro(p, h, orig, base, ops, locals, argIndices,
                  State(base + Receiver(h, locals) + ops + (if p.forwards then Loaded(locals, argIndices) else []), l1), p2,
                  State(base + ResultOf(h), l1), p3, State(base + Pushed(orig), locals), op);
  }

  // ---------------------------------------------------------------------
  // Method calls

  /** Loading the receiver of an instance handler pushes `this`. */
  lemma {:induction false} ReceiverRun(h: Handler, base: seq<Value>, locals: map<int, Value>)
    requires !h.isStatic ==> 0 in locals && locals[0].size == 1
    ensures Run(LoadReceiver(h), State(base, locals)) ==
      Ran(State(base + Receiver(h, locals), locals), Height(base + Receiver(h, locals)))
  {
    if h.isStatic {
      assert base + Receiver(h, locals) == base;
    } else {
      RunOne(VarInsn(ALOAD, 0), State(base, locals));
      HeightOne(base, locals[0]);
    }
  }

  /** Storing the operands, then loading the receiver. */
  lemma {:induction false} StoreThenReceiver(h: Handler, sv: seq<JType>, m: seq<int>, base: seq<Value>, ops: seq<Value>,
                                             locals: map<int, Value>, l1: map<int, Value>, rc: seq<Value>)
    requires AllValueTypes(sv) && |m| == |sv| && Fits(ops, sv) && l1 == Stored(locals, m, ops)
    requires (!h.isStatic ==> 0 in l1 && l1[0].size == 1) && rc == Receiver(h, l1)
    ensures Run(StoreArgs(sv, m) + LoadReceiver(h), State(base + ops, locals)) ==
      Ran(State(base + rc, l1), Max(Height(base + ops), Height(base + rc)))
  {
    StoreRun(sv, m, base, ops, locals);
    ReceiverRun(h, base, l1);
    Chain(StoreArgs(sv, m), LoadReceiver(h), State(base + ops, locals), State(base, l1), Height(base + ops),
          State(base + rc, l1), Height(base + rc), Max(Height(base + ops), Height(base + rc)));
  }

  /** Reloading the stored operands. */
  lemma {:induction false} ReloadRun(sv: seq<JType>, m: seq<int>, s: seq<Value>, ops: seq<Value>, l1: map<int, Value>)
    requires AllValueTypes(sv) && Holds(l1, m, sv) && Loaded(l1, m) == ops
    ensures Run(PushArgs(sv, m), State(s, l1)) == Ran(State(s + ops, l1), Height(s) + ArgsSize(sv))
  {
    PushRun(sv, m, s, l1);
  }

  /** The part of an invoke rewrite before the forwarded loads: the operands
      are stored, the receiver loaded and the operands reloaded. */
  lemma {:induction false} PreludeRun(h: Handler, sv: seq<JType>, m: seq<int>, base: seq<Value>, ops: seq<Value>,
                                      locals: map<int, Value>, l1: map<int, Value>, rc: seq<Value>, p1: nat)
    requires AllValueTypes(sv) && |m| == |sv| && Fits(ops, sv)
    requires l1 == Stored(locals, m, ops) && Holds(l1, m, sv) && Loaded(l1, m) == ops
    requires (!h.isStatic ==> 0 in l1 && l1[0].size == 1) && rc == Receiver(h, l1)
    requires p1 == Max(Max(Height(base + ops), Height(base + rc)), Height(base + rc) + ArgsSize(sv))
    ensures Run(StoreArgs(sv, m) + LoadReceiver(h) + PushArgs(sv, m), State(base + ops, locals)) ==
      Ran(State(base + (rc + ops), l1), p1)
  {
    var st, mid, f := State(base + ops, locals), State(base + rc, l1), State(base + (rc + ops), l1);
    var p0, q := Max(Height(base + ops), Height(base + rc)), Height(base + rc) + ArgsSize(sv);
    assert Run(StoreArgs(sv, m) + LoadReceiver(h), st) == Ran(mid, p0) by {
      StoreThenReceiver(h, sv, m, base, ops, locals, l1, rc);
    }
    assert Run(PushArgs(sv, m), mid) == Ran(f, q) by {
      ReloadRun(sv, m, base + rc, ops, l1);
      Assoc(base, rc, ops);
    }
    Chain(StoreArgs(sv, m) + LoadReceiver(h), PushArgs(sv, m), st, mid, p0, f, q, p1);
  }

  /** The frame after the operands are stored in fresh slots from
      `firstFree`: they load back as they were, and the frame keeps the
      target method's locals, `this` included. */
  lemma {:induction false} InvokeLocals(h: Handler, sv: seq<JType>, m: seq<int>, firstFree: int, ops: seq<Value>,
                                        arguments: seq<JType>, argIndices: seq<int>, locals: map<int, Value>)
    requires Fits(ops, sv) && FreshSlots(m, |sv|, firstFree) && LocalsReady(h, arguments, argIndices, firstFree, locals)
    ensures var l1 := Stored(locals, m, ops);
      && Holds(l1, m, sv) && Loaded(l1, m) == ops && Keeps(locals, l1)
      && (!h.isStatic ==> 0 in l1 && l1[0].size == 1) && Receiver(h, l1) == Receiver(h, locals)
  {
    StoredReload(locals, m, ops, sv, firstFree);
  }

  /** What the handler call finds on the stack fits its operand types. */
  lemma {:induction false} HandlerFits(h: Handler, sv: seq<JType>, fts: seq<JType>, fm: seq<int>, ops: seq<Value>,
                                      locals: map<int, Value>)
    requires Fits(ops, sv) && Holds(locals, fm, fts) && (!h.isStatic ==> 0 in locals && locals[0].size == 1)
    requires HandlerStack(h) == (if h.isStatic then [] else [Object(h.owner)]) + sv + fts
    ensures Fits(Receiver(h, locals) + ops + Loaded(locals, fm), HandlerStack(h))
  {
    FitsLoaded(locals, fm, fts);
    var recvTypes := if h.isStatic then [] else [Object(h.owner)];
    assert Fits(Receiver(h, locals), recvTypes);
    FitsAppend(Receiver(h, locals), ops, recvTypes, sv);
    FitsAppend(Receiver(h, locals) + ops, Loaded(locals, fm), recvTypes + sv, fts);
  }

  /** The invoke rewrite's peak: the call's operands above the receiver,
      then the forwarded arguments, are at most one slot and those
      arguments above the call's own peak. */
  lemma {:induction false} InvokePeak(h: Handler, call: Insn, sv: seq<JType>, fts: seq<JType>, base: seq<Value>,
                                      ops: seq<Value>, rc: seq<Value>, locals: map<int, Value>,
                                      p1: nat, p2: nat, p3: nat, op: nat)
    requires Fits(ops, sv) && (!h.isStatic ==> 0 in locals && locals[0].size == 1) && rc == Receiver(h, locals)
    requires call.MethodInsn? && h.ret == call.ret
    requires p1 == Max(Max(Height(base + ops), Height(base + rc)), Height(base + rc) + ArgsSize(sv))
    requires p2 == LoadPeak(p1, base + (rc + ops), fts)
    requires p3 == Max(p2, Height(base + ResultOf(h)))
    requires op == Max(Height(base + ops), Height(base + Pushed(call)))
    ensures Height(Pushed(call)) == Height(ResultOf(h))
    ensures p3 <= op + (1 + ArgsSize(fts))
  {
    HeightAtMostOne(Pushed(call));
    HeightAtMostOne(ResultOf(h));
    HeightAtMostOne(rc);
    FitsHeight(ops, sv);
    HeightAppend(base, ops);
    HeightAppend(base, rc);
    HeightAppend(base, rc + ops);
    HeightAppend(rc, ops);
    HeightAppend(base, ResultOf(h));
    HeightAppend(base, Pushed(call));
  }

  /** The part of an invoke rewrite before the forwarded loads, for a call
      whose operands have the types `sv`. */
  function InvokePrefix(h: Handler, sv: seq<JType>, m: seq<int>): seq<Insn>
    requires |m| == |sv|
  {
    StoreArgs(sv, m) + LoadReceiver(h) + PushArgs(sv, m)
  }

  /** Slots `m` for `n` values: distinct, and all at or above `first`. */
  predicate FreshSlots(m: seq<int>, n: nat, first: int) {
    && |m| == n
    && (forall i, j :: 0 <= i < j < |m| ==> m[i] != m[j])
    && (forall i :: 0 <= i < |m| ==> first <= m[i])
  }

  /** The peak of the prefix: the operands, the receiver, then the operands
      above the receiver. */
  function InvokePrefixPeak(h: Handler, sv: seq<JType>, base: seq<Value>, ops: seq<Value>, locals: map<int, Value>): nat
    requires !h.isStatic ==> 0 in locals
  {
    Max(Max(Height(base + ops), Height(base + Receiver(h, locals))), Height(base + Receiver(h, locals)) + ArgsSize(sv))
  }

  /** The code of an accepted invoke plan: the operands stored, the
      receiver loaded, the operands reloaded, the forwarded arguments loaded
      and the handler called. */
  lemma {:induction false} InvokeCode(h: Handler, call: Insn, arguments: seq<JType>, argIndices: seq<int>, firstFree: int)
    requires call.MethodInsn? && WellTypedInsn(call) && Parsed(h, arguments, argIndices)
    requires InvokePlan(h, call, arguments, argIndices, firstFree).Ok?
    ensures var p := InvokePlan(h, call, arguments, argIndices, firstFree).value;
      p.code == InvokePrefix(h, Operands(call), ArgMap(Operands(call), firstFree)) + Forwarded(p.forwards, arguments, argIndices) + [InvokeHandler(h)]
  {
    var p := InvokePlan(h, call, arguments, argIndices, firstFree).value;
    var sv := Operands(call);
    InvokePlanDecides(h, call, arguments, argIndices, firstFree);
    var m := ArgMap(sv, firstFree);
    var lead := StoreArgs(sv, m) + LoadReceiver(h);
    if p.forwards {
      PushArgsAppend(sv, m, arguments, argIndices);
      Assoc(lead, PushArgs(sv, m), PushArgs(arguments, argIndices));
    } else {
      assert lead + PushArgs(sv, m) + [] == lead + PushArgs(sv, m);
    }
  }

  /** The operands the handler pops: its receiver, the call's operands and
      the forwarded arguments. */
  lemma {:induction false} InvokeStack(h: Handler, call: Insn, arguments: seq<JType>, argIndices: seq<int>, firstFree: int)
    requires call.MethodInsn? && WellTypedInsn(call) && Parsed(h, arguments, argIndices)
    requires InvokePlan(h, call, arguments, argIndices, firstFree).Ok?
    ensures var p := InvokePlan(h, call, arguments, argIndices, firstFree).value;
      && AllValueTypes(Operands(call))
      && p.extraStack == 1 + ArgsSize(FwdTypes(p.forwards, arguments))
      && HandlerStack(h) == (if h.isStatic then [] else [Object(h.owner)]) + Operands(call) + FwdTypes(p.forwards, arguments)
      && h.ret == call.ret
  {
    var p := InvokePlan(h, call, arguments, argIndices, firstFree).value;
    var sv := Operands(call);
    InvokePlanTyped(h, call, arguments, argIndices, firstFree);
    InvokePlanDecides(h, call, arguments, argIndices, firstFree);
    var fts := FwdTypes(p.forwards, arguments);
    assert h.params == sv + fts by {
      if !p.forwards {
        assert sv + [] == sv;
      }
    }
    StackVarsAppend(h.isStatic, h.owner, sv, fts);
  }

  lemma {:induction false} StackVarsAppend(isStatic: bool, owner: string, sv: seq<JType>, fts: seq<JType>)
    ensures StackVars(isStatic, owner, sv + fts) == (if isStatic then [] else [Object(owner)]) + sv + fts
  {
    if isStatic {
      assert [] + sv + fts == sv + fts;
    } else {
      Assoc([Object(owner)], sv, fts);
    }
  }

  /** The shape of an invoke rewrite, as an accepted invoke plan has it. */
  predicate InvokeShaped(p: Plan, h: Handler, call: Insn, arguments: seq<JType>, argIndices: seq<int>, m: seq<int>)
    requires call.MethodInsn? && |argIndices| == |arguments| && |m| == |Operands(call)|
  {
    && p.code == InvokePrefix(h, Operands(call), m) + Forwarded(p.forwards, arguments, argIndices) + [InvokeHandler(h)]
    && p.extraStack == 1 + ArgsSize(FwdTypes(p.forwards, arguments))
    && HandlerStack(h) == (if h.isStatic then [] else [Object(h.owner)]) + Operands(call) + FwdTypes(p.forwards, arguments)
    && h.ret == call.ret
  }

  /** An accepted invoke plan has that shape. */
  lemma {:induction false} InvokePlanShaped(h: Handler, call: Insn, arguments: seq<JType>, argIndices: seq<int>, firstFree: int)
    requires call.MethodInsn? && WellTypedInsn(call) && Parsed(h, arguments, argIndices)
    requires InvokePlan(h, call, arguments, argIndices, firstFree).Ok?
    ensures InvokeShaped(InvokePlan(h, call, arguments, argIndices, firstFree).value, h, call, arguments, argIndices,
                         ArgMap(Operands(call), firstFree))
  {
    InvokeCode(h, call, arguments, argIndices, firstFree);
    InvokeStack(h, call, arguments, argIndices, firstFree);
  }

  /** The prefix of an accepted invoke plan stores the operands, loads the
      receiver and reloads the operands, in a frame that keeps the target
      method's locals. */
  lemma {:induction false} InvokePrefixRun(h: Handler, sv: seq<JType>, m: seq<int>, arguments: seq<JType>, argIndices: seq<int>,
                                           firstFree: int, base: seq<Value>, ops: seq<Value>, locals: map<int, Value>)
    requires AllValueTypes(sv) && Fits(ops, sv) && FreshSlots(m, |sv|, firstFree)
    requires LocalsReady(h, arguments, argIndices, firstFree, locals)
    ensures var l1 := Stored(locals, m, ops);
      && Keeps(locals, l1)
      && Run(InvokePrefix(h, sv, m), State(base + ops, locals)) ==
         Ran(State(base + (Receiver(h, locals) + ops), l1), InvokePrefixPeak(h, sv, base, ops, locals))
  {
    var l1 := Stored(locals, m, ops);
    var rc := Receiver(h, locals);
    InvokeLocals(h, sv, m, firstFree, ops, arguments, argIndices, locals);
    assert rc == Receiver(h, l1);
    PreludeRun(h, sv, m, base, ops, locals, l1, rc, InvokePrefixPeak(h, sv, base, ops, locals));
  }

  /** What the handler finds on the stack fits it, the call runs, and the
      peaks are within the recorded growth. */
  lemma {:induction false} InvokeBounds(h: Handler, call: Insn, fwd: bool, arguments: seq<JType>, argIndices: seq<int>,
                                        firstFree: int, base: seq<Value>, ops: seq<Value>, locals: map<int, Value>,
                                        p1: nat, p2: nat, p3: nat, op: nat)
    requires call.MethodInsn? && WellTypedInsn(call) && Parsed(h, arguments, argIndices)
    requires AllValueTypes(Operands(call))
    requires HandlerStack(h) == (if h.isStatic then [] else [Object(h.owner)]) + Operands(call) + FwdTypes(fwd, arguments)
    requires h.ret == call.ret
    requires Fits(ops, Operands(call)) && LocalsReady(h, arguments, argIndices, firstFree, locals)
    requires
      && p1 == InvokePrefixPeak(h, Operands(call), base, ops, locals)
      && p2 == LoadPeak(p1, base + (Receiver(h, locals) + ops), FwdTypes(fwd, arguments))
      && p3 == Max(p2, Height(base + ResultOf(h)))
      && op == Max(Height(base + ops), Height(base + Pushed(call)))
    ensures Fits(Receiver(h, locals) + ops + Loaded(locals, FwdSlots(fwd, argIndices)), HandlerStack(h))
    ensures Height(Pushed(call)) == Height(ResultOf(h))
    ensures p3 <= op + (1 + ArgsSize(FwdTypes(fwd, arguments)))
  {
    HandlerFits(h, Operands(call), FwdTypes(fwd, arguments), FwdSlots(fwd, argIndices), ops, locals);
    InvokePeak(h, call, Operands(call), FwdTypes(fwd, arguments), base, ops, Receiver(h, locals), locals, p1, p2, p3, op);
  }

  /** The runs of a rewrite of that shape, once its bounds are known. */
  lemma {:induction false} InvokeRuns(p: Plan, h: Handler, call: Insn, arguments: seq<JType>, argIndices: seq<int>,
                                      m: seq<int>, firstFree: int, base: seq<Value>, ops: seq<Value>,
                                      locals: map<int, Value>, p1: nat, p2: nat, p3: nat, op: nat)
    requires call.MethodInsn? && WellTypedInsn(call) && Parsed(h, arguments, argIndices)
    requires AllValueTypes(Operands(call))
    requires FreshSlots(m, |Operands(call)|, firstFree)
    requires p.code == InvokePrefix(h, Operands(call), m) + Forwarded(p.forwards, arguments, argIndices) + [InvokeHandler(h)]
    requires Fits(ops, Operands(call)) && LocalsReady(h, arguments, argIndices, firstFree, locals)
    requires Fits(Receiver(h, locals) + ops + Loaded(locals, FwdSlots(p.forwards, argIndices)), HandlerStack(h))
    requires Height(Pushed(call)) == Height(ResultOf(h))
    requires
      && p1 == InvokePrefixPeak(h, Operands(call), base, ops, locals)
      && p2 == LoadPeak(p1, base + (Receiver(h, locals) + ops), FwdTypes(p.forwards, arguments))
      && p3 == Max(p2, Height(base + ResultOf(h)))
      && op == Max(Height(base + ops), Height(base + Pushed(call)))
      && p3 <= op + p.extraStack
    ensures Delivers(p, h, call, base, ops, locals, argIndices)
  {
    InvokePrefixRun(h, Operands(call), m, arguments, argIndices, firstFree, base, ops, locals);
    OriginalRun(call, base, ops, locals);
    Finish(p, h, call, arguments, argIndices, base, ops, locals,
           InvokePrefix(h, Operands(call), m), Stored(locals, m, ops), p1, p2, p3, op);
  }

  /** A rewrite of that shape hands the handler its receiver, the call's
      operands and, when forwarding, the target method's arguments; leaves
      the handler's result in place of the call's; keeps the target
      method's locals; and stays within the call's peak plus the recorded
      growth. */
  lemma {:induction false} InvokeShapedSound(p: Plan, h: Handler, call: Insn, arguments: seq<JType>, argIndices: seq<int>,
                                             m: seq<int>, firstFree: int, base: seq<Value>, ops: seq<Value>,
                                             locals: map<int, Value>)
    requires call.MethodInsn? && WellTypedInsn(call) && Parsed(h, arguments, argIndices)
    requires AllValueTypes(Operands(call))
    requires FreshSlots(m, |Operands(call)|, firstFree) && InvokeShaped(p, h, call, arguments, argIndices, m)
    requires Fits(ops, Operands(call)) && LocalsReady(h, arguments, argIndices, firstFree, locals)
    ensures Delivers(p, h, call, base, ops, locals, argIndices)
  {
    var p1 := InvokePrefixPeak(h, Operands(call), base, ops, locals);
    var p2 := LoadPeak(p1, base + (Receiver(h, locals) + ops), FwdTypes(p.forwards, arguments));
    var p3 := Max(p2, Height(base + ResultOf(h)));
    var op := Max(Height(base + ops), Height(base + Pushed(call)));
    InvokeBounds(h, call, p.forwards, arguments, argIndices, firstFree, base, ops, locals, p1, p2, p3, op);
    InvokeRuns(p, h, call, arguments, argIndices, m, firstFree, base, ops, locals, p1, p2, p3, op);
  }

  /** The invoke rewrite hands the handler its receiver, the call's operands
      and, when forwarding, the target method's arguments; leaves the
      handler's result in place of the call's; keeps the target method's
      locals; and stays within the call's peak plus the recorded growth. */
  lemma {:induction false} InvokePlanSound(h: Handler, call: Insn, arguments: seq<JType>, argIndices: seq<int>, firstFree: int,
                                           base: seq<Value>, ops: seq<Value>, locals: map<int, Value>)
    requires call.MethodInsn? && WellTypedInsn(call) && Parsed(h, arguments, argIndices)
    requires InvokePlan(h, call, arguments, argIndices, firstFree).Ok?
    requires Fits(ops, Operands(call)) && LocalsReady(h, arguments, argIndices, firstFree, locals)
    ensures Delivers(InvokePlan(h, call, arguments, argIndices, firstFree).value, h, call, base, ops, locals, argIndices)
  {
    InvokePlanShaped(h, call, arguments, argIndices, firstFree);
    InvokePlanTyped(h, call, arguments, argIndices, firstFree);
    ArgMapFresh(Operands(call), firstFree);
    InvokeShapedSound(InvokePlan(h, call, arguments, argIndices, firstFree).value, h, call, arguments, argIndices,
                      ArgMap(Operands(call), firstFree), firstFree, base, ops, locals);
  }

  // ---------------------------------------------------------------------
  // Field accesses

  /** The stack a field rewrite needs above the access's own peak, besides
      the forwarded arguments: none for a static handler, the field's size
      for an instance handler writing a static field, one slot otherwise. */
  function FieldGrowth(isStatic: bool, op: int, fieldType: JType): nat {
    if isStatic then 0 else if op == PUTSTATIC then Size(fieldType) else 1
  }

  /** The code a field rewrite emits before the forwarded arguments. */
  function FieldPrefix(isStatic: bool, insn: Insn, firstFree: int): seq<Insn>
    requires insn.FieldInsn?
  {
    var staticField := insn.opcode == GETSTATIC || insn.opcode == PUTSTATIC;
    if insn.opcode == GETSTATIC || insn.opcode == GETFIELD then GetterPrefix(isStatic, staticField)
    else SetterPrefix(ReceiverUnder(insn.fieldType), isStatic, staticField, insn.fieldType, firstFree)
  }

  /** The frame after that code: an instance handler writing an instance
      field parks the new value in `firstFree`. */
  function FieldFrame(isStatic: bool, insn: Insn, firstFree: int, ops: seq<Value>, locals: map<int, Value>): map<int, Value>
    requires insn.FieldInsn?
  {
    if !isStatic && insn.opcode == PUTFIELD && |ops| == 2 then locals[firstFree := ops[1]] else locals
  }

  /** Nothing runs in nothing. */
  lemma {:induction false} EmptyRun(h: Handler, base: seq<Value>, ops: seq<Value>, locals: map<int, Value>)
    requires h.isStatic
    ensures Run([], State(base + ops, locals)) == Ran(State(base + (Receiver(h, locals) + ops), locals), Height(base + ops))
  {
    assert [] + ops == ops;
  }

  /** `ALOAD 0; SWAP` puts `this` beneath a category 1 value `v`. */
  lemma {:induction false} SwapUnderRun(base: seq<Value>, v: Value, locals: map<int, Value>)
    requires 0 in locals && locals[0].size == 1 && v.size == 1
    ensures Run([VarInsn(ALOAD, 0), SimpleInsn(SWAP)], State(base + [v], locals)) ==
      Ran(State(base + [locals[0], v], locals), Height(base) + 2)
  {
    var r := locals[0];
    var s1 := base + [v] + [r];
    RunOne(VarInsn(ALOAD, 0), State(base + [v], locals));
    HeightOne(base, v);
    HeightOne(base + [v], r);
    assert s1[..|s1| - 2] == base && s1[|s1| - 1] == r && s1[|s1| - 2] == v;
    assert s1[..|s1| - 2] + [s1[|s1| - 1], s1[|s1| - 2]] == base + [r, v];
    HeightOne(base, r);
    HeightOne(base + [r], v);
    assert base + [r] + [v] == base + [r, v];
    RunSnoc([VarInsn(ALOAD, 0), SimpleInsn(SWAP)], [VarInsn(ALOAD, 0)], SimpleInsn(SWAP), State(base + [v], locals),
            State(s1, locals), Height(base) + 2, State(base + [r, v], locals));
  }

  /** `ALOAD 0; DUP_X2; POP` puts `this` beneath a category 2 value `v`,
      with both copies of `this` on the stack for a moment. */
  lemma {:induction false} DupUnderRun(base: seq<Value>, v: Value, locals: map<int, Value>)
    requires 0 in locals && locals[0].size == 1 && v.size == 2
    ensures Run([VarInsn(ALOAD, 0), SimpleInsn(DUP_X2), SimpleInsn(POP)], State(base + [v], locals)) ==
      Ran(State(base + [locals[0], v], locals), Height(base) + 4)
  {
    var r := locals[0];
    var s1 := base + [v] + [r];
    var s2 := base + [r, v, r];
    RunOne(VarInsn(ALOAD, 0), State(base + [v], locals));
    HeightOne(base, v);
    HeightOne(base + [v], r);
    assert s1[..|s1| - 2] == base && s1[|s1| - 1] == r && s1[|s1| - 2] == v;
    assert s1[..|s1| - 2] + [s1[|s1| - 1], s1[|s1| - 2], s1[|s1| - 1]] == s2;
    HeightOne(base, r);
    HeightOne(base + [r], v);
    HeightOne(base + [r, v], r);
    assert base + [r] + [v] == base + [r, v] && base + [r, v] + [r] == s2;
    RunSnoc([VarInsn(ALOAD, 0), SimpleInsn(DUP_X2)], [VarInsn(ALOAD, 0)], SimpleInsn(DUP_X2), State(base + [v], locals),
            State(s1, locals), Height(base) + 3, State(s2, locals));
    assert s2[..|s2| - 1] == base + [r, v];
    RunSnoc([VarInsn(ALOAD, 0), SimpleInsn(DUP_X2), SimpleInsn(POP)], [VarInsn(ALOAD, 0), SimpleInsn(DUP_X2)],
            SimpleInsn(POP), State(base + [v], locals), State(s2, locals), Height(base) + 4, State(base + [r, v], locals));
  }

  /** An instance handler writing an instance field: the value is parked in
      slot `k`, `this` goes beneath the owning object and the value is
      loaded back on top. */
  lemma {:induction false} MarshallRun(t: JType, k: int, base: seq<Value>, obj: Value, v: Value, locals: map<int, Value>)
    requires IsValueType(t) && v.size == Size(t) && obj.size == 1
    requires 0 in locals && locals[0].size == 1 && k != 0
    ensures Run([VarInsn(TypedOpcode(t, ISTORE), k), VarInsn(ALOAD, 0), SimpleInsn(SWAP), VarInsn(TypedOpcode(t, ILOAD), k)],
                State(base + [obj, v], locals)) ==
      Ran(State(base + [locals[0], obj, v], locals[k := v]), Height(base) + 2 + Size(t))
  {
    var l1 := locals[k := v];
    var r := locals[0];
    var store := VarInsn(TypedOpcode(t, ISTORE), k);
    var load := VarInsn(TypedOpcode(t, ILOAD), k);
    assert base + [obj, v] == base + [obj] + [v];
    StoreStep(t, k, base + [obj], v, locals);
    RunOne(store, State(base + [obj, v], locals));
    HeightOne(base, obj);
    HeightOne(base + [obj], v);
    var pa := Max(Height(base) + 1 + Size(t), Height(base) + 1);
    SwapUnderRun(base, obj, l1);
    Chain([store], [VarInsn(ALOAD, 0), SimpleInsn(SWAP)], State(base + [obj, v], locals), State(base + [obj], l1), pa,
          State(base + [r, obj], l1), Height(base) + 2, Max(pa, Height(base) + 2));
    PushStep(t, k, base + [r, obj], l1);
    HeightOne(base, r);
    HeightOne(base + [r], obj);
    HeightOne(base + [r, obj], v);
    assert base + [r] + [obj] == base + [r, obj] && base + [r, obj] + [v] == base + [r, obj, v];
    RunSnoc([store, VarInsn(ALOAD, 0), SimpleInsn(SWAP), load], [store] + [VarInsn(ALOAD, 0), SimpleInsn(SWAP)], load,
            State(base + [obj, v], locals), State(base + [r, obj], l1), Max(pa, Height(base) + 2), State(base + [r, obj, v], l1));
  }

  /** The code before the forwarded arguments leaves the receiver beneath
      the access's operands, in a frame that keeps the target method's
      locals, within the growth the rewrite records. */
  lemma {:induction false} FieldPrefixRun(h: Handler, insn: Insn, firstFree: int, base: seq<Value>, ops: seq<Value>,
                                          locals: map<int, Value>)
    requires insn.FieldInsn? && GETSTATIC <= insn.opcode <= PUTFIELD && WellTypedInsn(insn)
    requires Fits(ops, Operands(insn))
    requires (!h.isStatic ==> 0 in locals && locals[0].size == 1) && forall k :: k in locals ==> k < firstFree
    ensures var l1 := FieldFrame(h.isStatic, insn, firstFree, ops, locals);
      var t := Run(FieldPrefix(h.isStatic, insn, firstFree), State(base + ops, locals));
      && t.Ran? && t.final == State(base + (Receiver(h, locals) + ops), l1) && Keeps(locals, l1)
      && t.peak <= Height(base + ops) + FieldGrowth(h.isStatic, insn.opcode, insn.fieldType)
  {
    var op := insn.opcode;
    var t := insn.fieldType;
    if h.isStatic {
      EmptyRun(h, base, ops, locals);
    } else if op == GETSTATIC {
      assert ops == [] && base + ops == base && Receiver(h, locals) + ops == [locals[0]];
      ReceiverRun(h, base, locals);
      HeightOne(base, locals[0]);
    } else if op == GETFIELD {
      assert ops == [ops[0]] && Receiver(h, locals) + ops == [locals[0], ops[0]];
      SwapUnderRun(base, ops[0], locals);
      HeightOne(base, ops[0]);
    } else if op == PUTSTATIC {
      assert ops == [ops[0]] && Receiver(h, locals) + ops == [locals[0], ops[0]];
      HeightOne(base, ops[0]);
      if Size(t) == 2 {
        assert [VarInsn(ALOAD, 0)] + ReceiverUnder(t) == [VarInsn(ALOAD, 0), SimpleInsn(DUP_X2), SimpleInsn(POP)];
        DupUnderRun(base, ops[0], locals);
      } else {
        assert [VarInsn(ALOAD, 0)] + ReceiverUnder(t) == [VarInsn(ALOAD, 0), SimpleInsn(SWAP)];
        SwapUnderRun(base, ops[0], locals);
      }
    } else {
      assert ops == [ops[0], ops[1]] && Receiver(h, locals) + ops == [locals[0], ops[0], ops[1]];
      assert base + [ops[0], ops[1]] == base + [ops[0]] + [ops[1]];
      MarshallRun(t, firstFree, base, ops[0], ops[1], locals);
      HeightOne(base, ops[0]);
      HeightOne(base + [ops[0]], ops[1]);
    }
  }

  /** The shape of an accepted field plan: the prefix, the forwarded loads
      and the handler call, with the growth `FieldGrowth` records. */
  lemma {:induction false} FieldCode(h: Handler, insn: Insn, arguments: seq<JType>, argIndices: seq<int>, firstFree: int)
    requires insn.FieldInsn? && WellTypedInsn(insn) && Parsed(h, arguments, argIndices)
    requires FieldPlan(h, insn, arguments, argIndices, firstFree).Ok?
    ensures var p := FieldPlan(h, insn, arguments, argIndices, firstFree).value;
      && GETSTATIC <= insn.opcode <= PUTFIELD
      && p.code == FieldPrefix(h.isStatic, insn, firstFree) + Forwarded(p.forwards, arguments, argIndices) + [InvokeHandler(h)]
  {
  }

  /** The stack growth an accepted field plan records. */
  lemma {:induction false} FieldExtra(h: Handler, insn: Insn, arguments: seq<JType>, argIndices: seq<int>, firstFree: int)
    requires insn.FieldInsn? && WellTypedInsn(insn) && Parsed(h, arguments, argIndices)
    requires FieldPlan(h, insn, arguments, argIndices, firstFree).Ok?
    ensures var p := FieldPlan(h, insn, arguments, argIndices, firstFree).value;
      p.extraStack == ArgsSize(FwdTypes(p.forwards, arguments)) + FieldGrowth(h.isStatic, insn.opcode, insn.fieldType)
  {
    FieldPlanDecides(h, insn, arguments, argIndices, firstFree);
  }

  /** The handler of an accepted field plan pops its receiver, the access's
      operands and the forwarded arguments, and leaves as much as the access. */
  lemma {:induction false} FieldStack(h: Handler, insn: Insn, arguments: seq<JType>, argIndices: seq<int>, firstFree: int)
    requires insn.FieldInsn? && WellTypedInsn(insn) && Parsed(h, arguments, argIndices)
    requires FieldPlan(h, insn, arguments, argIndices, firstFree).Ok?
    ensures var p := FieldPlan(h, insn, arguments, argIndices, firstFree).value;
      && HandlerStack(h) == (if h.isStatic then [] else [Object(h.owner)]) + Operands(insn) + FwdTypes(p.forwards, arguments)
      && Height(Pushed(insn)) == Height(ResultOf(h))
  {
    var p := FieldPlan(h, insn, arguments, argIndices, firstFree).value;
    var natural := Operands(insn);
    FieldPlanDecides(h, insn, arguments, argIndices, firstFree);
    var fts := FwdTypes(p.forwards, arguments);
    assert h.params == natural + fts by {
      if !p.forwards {
        assert natural + [] == natural;
      }
    }
    StackVarsAppend(h.isStatic, h.owner, natural, fts);
    HeightAtMostOne(Pushed(insn));
    HeightAtMostOne(ResultOf(h));
  }

  /** A field rewrite's peak: the receiver and then the forwarded arguments
      above the access's operands. */
  lemma {:induction false} FieldPeak(h: Handler, insn: Insn, base: seq<Value>, ops: seq<Value>, rc: seq<Value>,
                                     fts: seq<JType>, grow: nat, p1: nat, p2: nat, p3: nat, op: nat)
    requires p1 <= Height(base + ops) + grow && Height(rc) <= grow
    requires Height(Pushed(insn)) == Height(ResultOf(h))
    requires p2 == LoadPeak(p1, base + (rc + ops), fts)
    requires p3 == Max(p2, Height(base + ResultOf(h)))
    requires op == Max(Height(base + ops), Height(base + Pushed(insn)))
    ensures p3 <= op + (ArgsSize(fts) + grow)
  {
    HeightAppend(base, ops);
    HeightAppend(base, rc + ops);
    HeightAppend(rc, ops);
    HeightAppend(base, ResultOf(h));
    HeightAppend(base, Pushed(insn));
  }

  /** The runs of a field rewrite of that shape. */
  lemma {:induction false} FieldRuns(p: Plan, h: Handler, insn: Insn, arguments: seq<JType>, argIndices: seq<int>,
                                     firstFree: int, base: seq<Value>, ops: seq<Value>, locals: map<int, Value>)
    requires insn.FieldInsn? && GETSTATIC <= insn.opcode <= PUTFIELD && WellTypedInsn(insn) && Parsed(h, arguments, argIndices)
    requires p.code == FieldPrefix(h.isStatic, insn, firstFree) + Forwarded(p.forwards, arguments, argIndices) + [InvokeHandler(h)]
    requires p.extraStack == ArgsSize(FwdTypes(p.forwards, arguments)) + FieldGrowth(h.isStatic, insn.opcode, insn.fieldType)
    requires Fits(ops, Operands(insn)) && LocalsReady(h, arguments, argIndices, firstFree, locals)
    requires Fits(Receiver(h, locals) + ops + Loaded(locals, FwdSlots(p.forwards, argIndices)), HandlerStack(h))
    requires Height(Pushed(insn)) == Height(ResultOf(h))
    ensures Delivers(p, h, insn, base, ops, locals, argIndices)
  {
    var pre := FieldPrefix(h.isStatic, insn, firstFree);
    var grow := FieldGrowth(h.isStatic, insn.opcode, insn.fieldType);
    var rc := Receiver(h, locals);
    FieldPrefixRun(h, insn, firstFree, base, ops, locals);
    var p1 := Run(pre, State(base + ops, locals)).peak;
    var p2 := LoadPeak(p1, base + (rc + ops), FwdTypes(p.forwards, arguments));
    var p3 := Max(p2, Height(base + ResultOf(h)));
    var op := Max(Height(base + ops), Height(base + Pushed(insn)));
    assert Height(rc) <= grow by {
      HeightAtMostOne(rc);
      SizePositive(insn.fieldType);
    }
    FieldPeak(h, insn, base, ops, rc, FwdTypes(p.forwards, arguments), grow, p1, p2, p3, op);
    OriginalRun(insn, base, ops, locals);
    Finish(p, h, insn, arguments, argIndices, base, ops, locals, pre, FieldFrame(h.isStatic, insn, firstFree, ops, locals),
           p1, p2, p3, op);
  }

  /** The field rewrite hands the handler its receiver, the access's
      operands and, when forwarding, the target method's arguments; leaves
      the handler's result where the access's would be; keeps the target
      method's locals; and stays within the access's peak plus the recorded
      growth. */
  lemma {:induction false} FieldPlanSound(h: Handler, insn: Insn, arguments: seq<JType>, argIndices: seq<int>, firstFree: int,
                                          base: seq<Value>, ops: seq<Value>, locals: map<int, Value>)
    requires insn.FieldInsn? && WellTypedInsn(insn) && Parsed(h, arguments, argIndices)
    requires FieldPlan(h, insn, arguments, argIndices, firstFree).Ok?
    requires Fits(ops, Operands(insn)) && LocalsReady(h, arguments, argIndices, firstFree, locals)
    ensures Delivers(FieldPlan(h, insn, arguments, argIndices, firstFree).value, h, insn, base, ops, locals, argIndices)
  {
    var p := FieldPlan(h, insn, arguments, argIndices, firstFree).value;
    FieldCode(h, insn, arguments, argIndices, firstFree);
    FieldExtra(h, insn, arguments, argIndices, firstFree);
    FieldStack(h, insn, arguments, argIndices, firstFree);
    HandlerFits(h, Operands(insn), FwdTypes(p.forwards, arguments), FwdSlots(p.forwards, argIndices), ops, locals);
    FieldRuns(p, h, insn, arguments, argIndices, firstFree, base, ops, locals);
  }

  // ---------------------------------------------------------------------
  // Any accepted rewrite

  /** Whatever instruction `inject` finds at the node, an accepted plan
      hands the handler its receiver, the instruction's operands and, when
      forwarding, the target method's arguments; leaves the handler's result
      where the instruction's would be; keeps the target method's locals;
      and stays within the instruction's peak plus the recorded growth. */
  lemma {:induction false} ApplyPlanSound(h: Handler, insn: Insn, arguments: seq<JType>, argIndices: seq<int>, firstFree: int,
                                          base: seq<Value>, ops: seq<Value>, locals: map<int, Value>)
    requires WellTypedInsn(insn) && Parsed(h, arguments, argIndices)
    requires ApplyPlan(h, insn, arguments, argIndices, firstFree).Ok?
    requires Fits(ops, Operands(insn)) && LocalsReady(h, arguments, argIndices, firstFree, locals)
    ensures Delivers(ApplyPlan(h, insn, arguments, argIndices, firstFree).value, h, insn, base, ops, locals, argIndices)
  {
    if insn.MethodInsn? {
      InvokePlanSound(h, insn, arguments, argIndices, firstFree, base, ops, locals);
    } else {
      FieldPlanSound(h, insn, arguments, argIndices, firstFree, base, ops, locals);
    }
  }
}
