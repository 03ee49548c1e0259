/** JVM types, their descriptors (sections 4.3.2 and 4.3.3 of the Java Virtual
    Machine Specification) and their sizes in local-variable and operand-stack
    slots (sections 2.6.1 and 2.6.2). */
module JvmTypes {

  /** A field type, or `V` for the void return type.
      `Base` holds a one-letter base type code, `Object` an internal class
      name such as `java/lang/String`, `Array` the component type. */
  datatype JType = Base(code: char) | Object(name: string) | Array(component: JType)

  const Void: JType := Base('V')

  /** The base type codes `B C D F I J S Z`, and `V` for void. */
  predicate IsBaseCode(c: char) {
    c in "BCDFIJSZV"
  }

  /** An internal class name. The JVM forbids `.`, `;` and `[` in the name
      of a class; the model also excludes `(` and `)`, which no
      Java-language compiler writes into a class name, so that the first
      `)` of a method descriptor ends its parameter list. */
  predicate ValidName(n: string) {
    |n| > 0 && forall i :: 0 <= i < |n| ==> n[i] !in ".;[()"
  }

  /** The owner of a method reference to an array type, such as the call
      `[I.clone()`, is the array's descriptor rather than a class name
      (section 4.4.1 of the Java Virtual Machine Specification). */
  predicate ArrayOwner(n: string) {
    |n| > 0 && n[0] == '['
  }

  /** The owner of a method reference: a class or an array type. */
  predicate ValidOwner(n: string) {
    ValidName(n) || ArrayOwner(n)
  }

  predicate WellFormed(t: JType) {
    match t
    case Base(c) => IsBaseCode(c)
    case Object(n) => ValidName(n)
    case Array(e) => WellFormed(e) && e != Void
  }

  /** A type that a value can have: a well-formed type other than void. */
  predicate IsValueType(t: JType) {
    WellFormed(t) && t != Void
  }

  predicate AllValueTypes(ts: seq<JType>) {
    forall i :: 0 <= i < |ts| ==> IsValueType(ts[i])
  }

  /** The descriptor string of a type, as `Type.toString()` gives it. */
  function Descriptor(t: JType): (d: string)
    ensures |d| > 0
  {
    match t
    case Base(c) => [c]
    case Object(n) => "L" + n + ";"
    case Array(e) => "[" + Descriptor(e)
  }

  /** The number of slots a value of this type takes: 2 for `long` and
      `double`, 0 for void, 1 otherwise (`Type.getSize()`). */
  function Size(t: JType): (n: nat)
    ensures n <= 2
  {
    if t == Void then 0
    else if t == Base('J') || t == Base('D') then 2
    else 1
  }

  /** Only void takes no slot. */
  lemma {:induction false} SizePositive(t: JType)
    ensures Size(t) == 0 <==> t == Void
  {
  }

  /** The total slot size of a list of types (`ASMHelper.getArgsSize`). */
  function ArgsSize(ts: seq<JType>): nat
    decreases |ts|
  {
    if ts == [] then 0 else ArgsSize(ts[..|ts| - 1]) + Size(ts[|ts| - 1])
  }

  /** The descriptors of a list of types, concatenated without separator. */
  function Join(ts: seq<JType>): string {
    if ts == [] then "" else Descriptor(ts[0]) + Join(ts[1..])
  }

  /** The index of the first `c` in `s`, or -1 (`String.indexOf`). */
  function IndexOf(s: string, c: char): (i: int)
    ensures -1 <= i < |s|
    ensures 0 <= i ==> s[i] == c && c !in s[..i]
    ensures i == -1 <==> c !in s
  {
    if s == [] then -1
    else if s[0] == c then 0
    else
      var k := IndexOf(s[1..], c);
      assert k >= 0 ==> s[1..][..k] == s[1..k + 1];
      if k == -1 then -1 else k + 1
  }

  /** The first `c` in `n + [c] + s` is the one after `n` when `n` holds none. */
  lemma {:induction false} IndexOfFirst(n: string, c: char, s: string)
    requires c !in n
    ensures IndexOf(n + [c] + s, c) == |n|
  {
    var l := n + [c] + s;
    var i := IndexOf(l, c);
    assert l[|n|] == c;
    assert l[..|n|] == n;
  }

  /** The method descriptor `(params)ret`. */
  function MethodDescriptor(params: seq<JType>, ret: JType): string {
    "(" + Join(params) + ")" + Descriptor(ret)
  }

  /** Every method descriptor closes its parameter list. */
  lemma {:induction false} HasCloseParen(params: seq<JType>, ret: JType)
    ensures ')' in MethodDescriptor(params, ret)
  {
    assert MethodDescriptor(params, ret)[|Join(params)| + 1] == ')';
  }

  lemma {:induction false} ArgsSizeAppend(xs: seq<JType>, ys: seq<JType>)
    ensures ArgsSize(xs + ys) == ArgsSize(xs) + ArgsSize(ys)
    decreases |ys|
  {
    if ys == [] {
      assert xs + ys == xs;
    } else {
      var ys' := ys[..|ys| - 1];
      assert (xs + ys)[..|xs + ys| - 1] == xs + ys';
      ArgsSizeAppend(xs, ys');
    }
  }

  lemma {:induction false} JoinAppend(xs: seq<JType>, ys: seq<JType>)
    ensures Join(xs + ys) == Join(xs) + Join(ys)
  {
    if xs == [] {
      assert xs + ys == ys;
    } else {
      assert (xs + ys)[1..] == xs[1..] + ys;
      JoinAppend(xs[1..], ys);
    }
  }

  /** The first character of a descriptor tells its kind, and is never `)`. */
  lemma {:induction false} DescriptorHead(t: JType)
    requires WellFormed(t)
    ensures Descriptor(t)[0] != ')'
    ensures Descriptor(t)[0] == 'L' <==> t.Object?
    ensures Descriptor(t)[0] == '[' <==> t.Array?
  {
  }

  /** A method descriptor whose first parameter is an object type named by
      an array descriptor (`L[I;`) is the descriptor of no method whose
      parameters are well formed: the two differ at the first or second
      character. */
  lemma {:induction false} ArrayOwnerMismatch(p: seq<JType>, r: JType, n: string, q: seq<JType>, s: JType)
    requires forall i :: 0 <= i < |p| ==> WellFormed(p[i])
    requires ArrayOwner(n)
    ensures MethodDescriptor(p, r) != MethodDescriptor([Object(n)] + q, s)
  {
    var a := MethodDescriptor(p, r);
    var b := MethodDescriptor([Object(n)] + q, s);
    assert ([Object(n)] + q)[1..] == q;
    assert b == "(" + ("L" + n + ";" + Join(q)) + ")" + Descriptor(s);
    assert b[1] == 'L' && b[2] == '[';
    if p == [] {
      assert a[1] == ')';
    } else {
      DescriptorHead(p[0]);
      assert a == "(" + (Descriptor(p[0]) + Join(p[1..])) + ")" + Descriptor(r);
      assert a[1] == Descriptor(p[0])[0];
      if p[0].Object? {
        assert a[2] == p[0].name[0];
      }
    }
  }

  /** No well-formed descriptor is a proper prefix of another: a run of
      descriptors can be split back into its types in one way only. */
  lemma {:induction false} DescriptorPrefixFree(a: JType, b: JType, s: string, t: string)
    requires WellFormed(a) && WellFormed(b)
    requires Descriptor(a) + s == Descriptor(b) + t
    ensures a == b && s == t
  {
    DescriptorHead(a);
    DescriptorHead(b);
    assert Descriptor(a)[0] == (Descriptor(a) + s)[0] == (Descriptor(b) + t)[0] == Descriptor(b)[0];
    match a
    case Base(c) =>
      assert Descriptor(a) + s == [c] + s;
      assert Descriptor(b) + t == [b.code] + t;
      assert s == (Descriptor(a) + s)[1..];
      assert t == (Descriptor(b) + t)[1..];
    case Object(n) =>
      var m := b.name;
      var l := (Descriptor(a) + s)[1..];
      assert l == n + ";" + s;
      assert l == (Descriptor(b) + t)[1..] == m + ";" + t;
      IndexOfFirst(n, ';', s);
      IndexOfFirst(m, ';', t);
      assert n == l[..|n|] && m == l[..|m|];
      assert s == l[|n| + 1..] == t;
    case Array(e) =>
      var f := b.component;
      assert Descriptor(a) + s == "[" + (Descriptor(e) + s);
      assert Descriptor(b) + t == "[" + (Descriptor(f) + t);
      assert Descriptor(e) + s == (Descriptor(a) + s)[1..] == (Descriptor(b) + t)[1..] == Descriptor(f) + t;
      DescriptorPrefixFree(e, f, s, t);
  }

  /** A parameter list closed by `)` starts with `)` exactly when it is empty. */
  lemma {:induction false} JoinHead(xs: seq<JType>, s: string)
    requires forall i :: 0 <= i < |xs| ==> WellFormed(xs[i])
    ensures (Join(xs) + ")" + s)[0] == ')' <==> xs == []
  {
    if xs != [] {
      DescriptorHead(xs[0]);
      assert (Join(xs) + ")" + s)[0] == Descriptor(xs[0])[0];
    }
  }

  /** A closed parameter list determines its types and what follows it. */
  lemma {:induction false} JoinPrefixFree(xs: seq<JType>, ys: seq<JType>, s: string, t: string)
    requires forall i :: 0 <= i < |xs| ==> WellFormed(xs[i])
    requires forall i :: 0 <= i < |ys| ==> WellFormed(ys[i])
    requires Join(xs) + ")" + s == Join(ys) + ")" + t
    ensures xs == ys && s == t
  {
    JoinHead(xs, s);
    JoinHead(ys, t);
    if xs == [] {
      assert s == (Join(xs) + ")" + s)[1..] == (Join(ys) + ")" + t)[1..] == t;
    } else {
      var rs := Join(xs[1..]) + ")" + s;
      var rt := Join(ys[1..]) + ")" + t;
      assert Descriptor(xs[0]) + rs == Join(xs) + ")" + s;
      assert Descriptor(ys[0]) + rt == Join(ys) + ")" + t;
      DescriptorPrefixFree(xs[0], ys[0], rs, rt);
      JoinPrefixFree(xs[1..], ys[1..], s, t);
      assert xs == [xs[0]] + xs[1..];
      assert ys == [ys[0]] + ys[1..];
    }
  }

  /** Two method descriptors are the same string exactly when they have the
      same parameter types and the same return type. */
  lemma {:induction false} MethodDescriptorInjective(p: seq<JType>, r: JType, q: seq<JType>, s: JType)
    requires forall i :: 0 <= i < |p| ==> WellFormed(p[i])
    requires forall i :: 0 <= i < |q| ==> WellFormed(q[i])
    requires WellFormed(r) && WellFormed(s)
    ensures MethodDescriptor(p, r) == MethodDescriptor(q, s) <==> p == q && r == s
  {
    if MethodDescriptor(p, r) == MethodDescriptor(q, s) {
      SameDescriptorSameSignature(p, r, q, s);
    }
  }

  lemma {:induction false} SameDescriptorSameSignature(p: seq<JType>, r: JType, q: seq<JType>, s: JType)
    requires forall i :: 0 <= i < |p| ==> WellFormed(p[i])
    requires forall i :: 0 <= i < |q| ==> WellFormed(q[i])
    requires WellFormed(r) && WellFormed(s)
    requires MethodDescriptor(p, r) == MethodDescriptor(q, s)
    ensures p == q && r == s
  {
    OpenParen(p, r);
    OpenParen(q, s);
    HeadCancel('(', Join(p) + ")" + Descriptor(r), Join(q) + ")" + Descriptor(s));
    JoinPrefixFree(p, q, Descriptor(r), Descriptor(s));
    EmptyTail(Descriptor(r));
    EmptyTail(Descriptor(s));
    DescriptorPrefixFree(r, s, [], []);
  }

  lemma {:induction false} OpenParen(p: seq<JType>, r: JType)
    ensures MethodDescriptor(p, r) == ['('] + (Join(p) + ")" + Descriptor(r))
  {
  }

  lemma {:induction false} HeadCancel(c: char, a: string, b: string)
    requires [c] + a == [c] + b
    ensures a == b
  {
    assert a == ([c] + a)[1..];
    assert b == ([c] + b)[1..];
  }

  lemma {:induction false} EmptyTail(d: string)
    ensures d + [] == d
  {
  }

  lemma {:induction false} NoParenInDescriptor(t: JType)
    requires WellFormed(t)
    ensures ')' !in Descriptor(t)
  {
    match t
    case Base(c) =>
    case Object(n) =>
      assert Descriptor(t) == "L" + n + ";";
      forall i | 0 <= i < |Descriptor(t)| ensures Descriptor(t)[i] != ')' {
        if 1 <= i <= |n| {
          assert Descriptor(t)[i] == n[i - 1];
        }
      }
    case Array(e) =>
      NoParenInDescriptor(e);
      assert Descriptor(t) == "[" + Descriptor(e);
      forall i | 0 <= i < |Descriptor(t)| ensures Descriptor(t)[i] != ')' {
        if 1 <= i {
          assert Descriptor(t)[i] == Descriptor(e)[i - 1];
        }
      }
  }

  lemma {:induction false} NoParenInJoin(ts: seq<JType>)
    requires forall i :: 0 <= i < |ts| ==> WellFormed(ts[i])
    ensures ')' !in Join(ts)
  {
    if ts != [] {
      NoParenInDescriptor(ts[0]);
      NoParenInJoin(ts[1..]);
      assert Join(ts) == Descriptor(ts[0]) + Join(ts[1..]);
    }
  }
}
