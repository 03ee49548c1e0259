/** The mutable structures a redirect works on: instruction nodes (compared
    by identity, as ASM's are), the list the injector fills with its
    replacement code, the injection node that records who claimed an
    instruction and which instruction currently stands in for it, and the
    target method with its instructions, injection nodes and frame
    counters. */
module Injection {
  import opened Results
  import opened JvmTypes
  import opened Bytecode
  import opened Arbitration
  import opened Rewrite

  /** One instruction of a method body; two nodes holding equal
      instructions are still different nodes. `list` is the instruction
      list the node was built in, if any, and `index` its place there. */
  class InsnNode {
    const insn: Insn
    ghost const list: InsnList?
    ghost const index: nat

    constructor (insn: Insn, ghost list: InsnList?, ghost index: nat)
      ensures this.insn == insn && this.list == list && this.index == index
    {
      this.insn := insn;
      this.list := list;
      this.index := index;
    }
  }

  /** No node occurs twice: a list of ASM instructions links each node at
      one place. */
  predicate Distinct(s: seq<InsnNode>) {
    forall i, j :: 0 <= i < j < |s| ==> s[i] != s[j]
  }

  /** The instructions a list of nodes holds, in order. */
  function Code(ns: seq<InsnNode>): (c: seq<Insn>)
    ensures |c| == |ns|
  {
    seq(|ns|, i requires 0 <= i < |ns| => ns[i].insn)
  }

  lemma CodeIndex(ns: seq<InsnNode>, i: nat)
    requires i < |ns|
    ensures Code(ns)[i] == ns[i].insn
  {
  }

  lemma {:induction false} CodeAppend(a: seq<InsnNode>, b: seq<InsnNode>)
    ensures Code(a + b) == Code(a) + Code(b)
  {
    forall i | 0 <= i < |a + b|
      ensures Code(a + b)[i] == (Code(a) + Code(b))[i]
    {
      CodeIndex(a + b, i);
      if i < |a| { CodeIndex(a, i); } else { CodeIndex(b, i - |a|); }
    }
  }

  /** The list and place each node was built for. */
  ghost function Stamps(ns: seq<InsnNode>): (r: seq<(InsnList?, nat)>)
    ensures |r| == |ns|
  {
    seq(|ns|, i requires 0 <= i < |ns| => (ns[i].list, ns[i].index))
  }

  /** The stamps of `n` nodes built in order for `l`. */
  ghost function Expected(l: InsnList, n: nat): (r: seq<(InsnList?, nat)>)
    ensures |r| == n
  {
    seq(n, i => (l, i))
  }

  lemma {:induction false} StampsAppend(ns: seq<InsnNode>, n: InsnNode, l: InsnList)
    requires Stamps(ns) == Expected(l, |ns|) && n.list == l && n.index == |ns|
    ensures Stamps(ns + [n]) == Expected(l, |ns| + 1)
  {
    forall i | 0 <= i < |ns| + 1
      ensures Stamps(ns + [n])[i] == Expected(l, |ns| + 1)[i]
    {
      if i < |ns| {
        assert Stamps(ns)[i] == Expected(l, |ns|)[i];
      }
    }
  }

  /** The list of instructions an injector builds before splicing it into
      the target method (ASM's `InsnList`). */
  class InsnList {
    var nodes: seq<InsnNode>
    /** The instructions the nodes hold. */
    ghost var code: seq<Insn>

    /** `code` is what the nodes hold; each node was built for this list
        at the place it holds. */
    ghost predicate Valid()
      reads this
    {
      && code == Code(nodes)
      && Stamps(nodes) == Expected(this, |nodes|)
    }

    constructor ()
      ensures Valid() && nodes == [] && code == []
    {
      nodes := [];
      code := [];
    }

    /** Appends a new node holding `i`. */
    method Add(i: Insn) returns (n: InsnNode)
      requires Valid()
      modifies this
      ensures Valid()
      ensures fresh(n) && n.insn == i
      ensures nodes == old(nodes) + [n] && code == old(code) + [i]
    {
      n := new InsnNode(i, this, |nodes|);
      CodeAppend(nodes, [n]);
      StampsAppend(nodes, n, this);
      nodes := nodes + [n];
      code := code + [i];
    }
  }

  /** The nodes of a list occur once each, and none of them is in `s` when
      no node of `s` was built for the list. */
  lemma {:induction false} OwnNodes(l: InsnList, s: seq<InsnNode>)
    requires l.Valid() && forall n :: n in s ==> n.list != l
    ensures Distinct(l.nodes) && forall n :: n in l.nodes ==> n !in s
  {
    forall i | 0 <= i < |l.nodes|
      ensures l.nodes[i].list == l && l.nodes[i].index == i
    {
      assert Stamps(l.nodes)[i] == Expected(l, |l.nodes|)[i];
    }
  }

  /** The per-instruction record of an injection: the instruction it was
      made for, the instruction that currently stands in for it, and the
      redirect record (`redir:*` decorations), owned by an injector. */
  class InjectionNode {
    const original: InsnNode
    var current: InsnNode
    var record: Option<Decoration<object>>

    constructor (insn: InsnNode)
      ensures original == insn && current == insn && record == None
    {
      original := insn;
      current := insn;
      record := None;
    }

    /** The instruction has been replaced by another injector's code. */
    predicate IsReplaced()
      reads this
    {
      current != original
    }
  }

  /** The position of the first occurrence of `x` in `s`. */
  function FirstIndex(s: seq<InsnNode>, x: InsnNode): (i: nat)
    requires x in s
    ensures i < |s| && s[i] == x && x !in s[..i]
  {
    if s[0] == x then 0
    else
      var k := FirstIndex(s[1..], x);
      assert s[1..][..k] == s[1..k + 1];
      1 + k
  }

  /** `s` with the element at `i` replaced by the elements of `list`. */
  function Splice(s: seq<InsnNode>, i: nat, list: seq<InsnNode>): seq<InsnNode>
    requires i < |s|
  {
    s[..i] + list + s[i + 1..]
  }

  /** `after` is `before` with its first `location` replaced by nodes that
      hold `code`, the last of them being `last`. */
  predicate Replaced(before: seq<InsnNode>, location: InsnNode, after: seq<InsnNode>, code: seq<Insn>, last: InsnNode) {
    && location in before
    && |code| > 0
    && var i := FirstIndex(before, location);
       && |after| == |before| + |code| - 1
       && (forall k :: 0 <= k < i ==> after[k] == before[k])
       && (forall j :: 0 <= j < |code| ==> after[i + j].insn == code[j])
       && (forall k :: i < k < |before| ==> after[k + |code| - 1] == before[k])
       && after[i + |code| - 1] == last
  }

  lemma {:induction false} SpliceReplaced(before: seq<InsnNode>, location: InsnNode, list: seq<InsnNode>)
    requires location in before && |list| > 0
    ensures Replaced(before, location, Splice(before, FirstIndex(before, location), list), Code(list), list[|list| - 1])
  {
    var i := FirstIndex(before, location);
    var after := Splice(before, i, list);
    forall j | 0 <= j < |list|
      ensures after[i + j].insn == Code(list)[j]
    {
      CodeIndex(list, j);
    }
  }

  /** Splicing keeps every other element and brings in the new ones. */
  lemma {:induction false} SpliceKeeps(s: seq<InsnNode>, i: nat, list: seq<InsnNode>, k: InsnNode)
    requires i < |s|
    ensures k in s && k != s[i] ==> k in Splice(s, i, list)
    ensures k in list ==> k in Splice(s, i, list)
  {
    if k in s && k != s[i] {
      var j :| 0 <= j < |s| && s[j] == k;
      if j < i {
        assert Splice(s, i, list)[j] == k;
      } else {
        assert Splice(s, i, list)[j - 1 + |list|] == k;
      }
    }
    if k in list {
      var j :| 0 <= j < |list| && list[j] == k;
      assert Splice(s, i, list)[i + j] == k;
    }
  }

  /** Splicing new nodes in for one element of a list without repeats gives
      a list without repeats, and the element is gone. */
  lemma {:induction false} SpliceDistinct(s: seq<InsnNode>, i: nat, list: seq<InsnNode>)
    requires i < |s| && Distinct(s) && Distinct(list)
    requires forall n :: n in list ==> n !in s
    ensures Distinct(Splice(s, i, list))
    ensures s[i] !in Splice(s, i, list)
  {
    var t := Splice(s, i, list);
    forall a, b | 0 <= a < b < |t|
      ensures t[a] != t[b]
    {
      if b < i {
        assert t[a] == s[a] && t[b] == s[b];
      } else if a < i && b < i + |list| {
        assert t[a] == s[a] && t[b] == list[b - i] && s[a] in s;
      } else if a < i {
        assert t[a] == s[a] && t[b] == s[b - |list| + 1];
      } else if b < i + |list| {
        assert t[a] == list[a - i] && t[b] == list[b - i];
      } else if a < i + |list| {
        assert t[a] == list[a - i] && t[b] == s[b - |list| + 1] && s[b - |list| + 1] in s;
      } else {
        assert t[a] == s[a - |list| + 1] && t[b] == s[b - |list| + 1];
      }
    }
  }

  /** After a rewrite the node stands for the last instruction of the
      code, which is in the method. */
  lemma {:induction false} RewrittenLast(insns0: seq<InsnNode>, current0: InsnNode, nodes0: map<InsnNode, InjectionNode>,
                                         record0: Option<Decoration<object>>, locals0: nat, stack0: nat,
                                         target: Target, node: InjectionNode, p: Plan)
    requires RewrittenFrom(insns0, current0, nodes0, record0, locals0, stack0, target, node, p)
    ensures node.current in target.insns && node.current.insn == p.code[|p.code| - 1]
  {
    var i := FirstIndex(insns0, current0);
    assert target.insns[i + |p.code| - 1] == node.current;
  }

  /** The node's instruction `current0`, at its first position in the
      instructions `insns0`, has been replaced by code whose instructions
      are `p.code`, and is gone from the method; the node now stands for
      the last of them, the handler call, and is filed under it in place of
      `current0`; its record is still `record0`; the frame counters stand
      the plan's amounts above `locals0` and `stack0`. */
  predicate RewrittenFrom(insns0: seq<InsnNode>, current0: InsnNode, nodes0: map<InsnNode, InjectionNode>,
                          record0: Option<Decoration<object>>, locals0: nat, stack0: nat,
                          target: Target, node: InjectionNode, p: Plan)
    reads target, node
  {
    && Replaced(insns0, current0, target.insns, p.code, node.current)
    && current0 !in target.insns
    && target.nodes == (nodes0 - {current0})[node.current := node]
    && node.record == record0
    && target.maxLocals == locals0 + p.extraLocals
    && target.maxStack == stack0 + p.extraStack
  }

  /** `RewrittenFrom` the state before. */
  twostate predicate Rewritten(target: Target, node: InjectionNode, p: Plan)
    reads target, node
  {
    RewrittenFrom(old(target.insns), old(node.current), old(target.nodes), old(node.record),
                  old(target.maxLocals), old(target.maxStack), target, node, p)
  }

  /** The method being injected into: its instructions, the injection
      nodes keyed by the instruction each currently stands for, its frame
      counters, and its own argument types with the local slots holding
      them. */
  class Target {
    var insns: seq<InsnNode>
    var nodes: map<InsnNode, InjectionNode>
    var maxLocals: nat
    var maxStack: nat
    const arguments: seq<JType>
    const argIndices: seq<int>

    constructor (insns: seq<InsnNode>, arguments: seq<JType>, argIndices: seq<int>, maxLocals: nat, maxStack: nat)
      requires Distinct(insns)
      ensures this.insns == insns && nodes == map[]
      ensures this.arguments == arguments && this.argIndices == argIndices
      ensures this.maxLocals == maxLocals && this.maxStack == maxStack
      ensures Valid()
    {
      this.insns := insns;
      this.nodes := map[];
      this.arguments := arguments;
      this.argIndices := argIndices;
      this.maxLocals := maxLocals;
      this.maxStack := maxStack;
    }

    /** No instruction occurs twice; every injection node is filed under
        the instruction it currently stands for, and that instruction is in
        the method. */
    predicate Valid()
      reads this, nodes.Values
    {
      && Distinct(insns)
      && forall k :: k in nodes ==> nodes[k].current == k && k in insns
    }

    /** `injectionNodes.get`: the node filed under `insn`, or null. */
    function Get(insn: InsnNode): InjectionNode?
      reads this
    {
      if insn in nodes then nodes[insn] else null
    }

    /** `injectionNodes.add`: the node filed under `insn`, created and filed
        if there is none. */
    method Add(insn: InsnNode) returns (n: InjectionNode)
      requires Valid() && insn in insns
      modifies this
      ensures Valid()
      ensures insn in nodes && nodes[insn] == n
      ensures insn in old(nodes) ==> n == old(nodes[insn]) && nodes == old(nodes)
      ensures insn !in old(nodes) ==> fresh(n) && n.original == insn && n.current == insn && n.record == None
      ensures insn !in old(nodes) ==> nodes == old(nodes)[insn := n]
      ensures insns == old(insns) && maxLocals == old(maxLocals) && maxStack == old(maxStack)
    {
      if insn in nodes {
        n := nodes[insn];
      } else {
        n := new InjectionNode(insn);
        nodes := nodes[insn := n];
      }
    }

    /** `allocateLocals`: reserves `n` local slots above those in use and
        returns the first of them. */
    method AllocateLocals(n: nat) returns (slot: nat)
      modifies this
      ensures slot == old(maxLocals) && maxLocals == old(maxLocals) + n
      ensures insns == old(insns) && nodes == old(nodes) && maxStack == old(maxStack)
    {
      slot := maxLocals;
      maxLocals := maxLocals + n;
    }

    /** `addToLocals`: the frame needs `n` more local slots. */
    method AddToLocals(n: nat)
      modifies this
      ensures maxLocals == old(maxLocals) + n
      ensures insns == old(insns) && nodes == old(nodes) && maxStack == old(maxStack)
    {
      maxLocals := maxLocals + n;
    }

    /** `addToStack`: the frame needs `n` more operand-stack slots. */
    method AddToStack(n: nat)
      modifies this
      ensures maxStack == old(maxStack) + n
      ensures insns == old(insns) && nodes == old(nodes) && maxLocals == old(maxLocals)
    {
      maxStack := maxStack + n;
    }

    /** `generateArgMap`: the local slots values of types `ts` would take
        from the first free slot up, one run of slots per value; nothing is
        reserved. */
    method GenerateArgMap(ts: seq<JType>) returns (m: seq<int>)
      ensures m == ArgMap(ts, maxLocals)
    {
      var local := maxLocals;
      m := [];
      var i := 0;
      while i < |ts|
        invariant 0 <= i <= |ts|
        invariant m == ArgMap(ts[..i], maxLocals)
        invariant local == maxLocals + ArgsSize(ts[..i])
      {
        assert ts[..i + 1][..i] == ts[..i];
        m := m + [local];
        local := local + Size(ts[i]);
        i := i + 1;
      }
      assert ts[..i] == ts;
    }

    /** `replaceNode`: the instruction `location` is replaced by the nodes
        of `list`, and its injection node now stands for `champion`. */
    method ReplaceNode(location: InsnNode, champion: InsnNode, list: seq<InsnNode>)
      requires Valid() && location in nodes && champion in list
      requires Distinct(list) && forall n :: n in list ==> n !in insns
      modifies this, nodes[location]
      ensures Valid()
      ensures insns == Splice(old(insns), FirstIndex(old(insns), location), list)
      ensures location !in insns
      ensures nodes == (old(nodes) - {location})[champion := old(nodes[location])]
      ensures old(nodes[location]).current == champion && old(nodes[location]).record == old(nodes[location].record)
      ensures maxLocals == old(maxLocals) && maxStack == old(maxStack)
    {
      var i := 0;
      while insns[i] != location
        invariant 0 <= i < |insns| && location !in insns[..i] && location in insns[i..]
        decreases |insns| - i
      {
        assert insns[i + 1..] == insns[i..][1..];
        assert insns[..i + 1] == insns[..i] + [insns[i]];
        i := i + 1;
      }
      ghost var first := FirstIndex(insns, location);
      assert i == first;
      var node := nodes[location];
      ghost var before := insns;
      var others := nodes - {location};
      SpliceDistinct(before, i, list);
      insns := insns[..i] + list + insns[i + 1..];
      node.current := champion;
      nodes := others[champion := node];
      forall k | k in nodes
        ensures nodes[k].current == k && k in insns
      {
        SpliceKeeps(before, i, list, k);
        if k != champion {
          assert old(nodes[k].current) == k && old(node.current) == location;
        }
      }
    }
  }
}
