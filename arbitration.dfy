/** Claim arbitration between redirect injectors, on values. A node carries
    at most one redirect record (the `redir:*` decorations); each claim either
    overwrites it, leaves it as it is with a conflict warning, or fails.
    `O` is the type of the owner handle, compared by identity. */
module Arbitration {
  import opened Results

  /** The decorations a claim writes: `redir:owner`, `redir:priority`,
      `redir:final`, `redir:name` and `redir:desc`; a record being present
      is `redir:ect`. */
  datatype Decoration<O> = Decoration(owner: O, priority: int, isFinal: bool, name: string, desc: string)

  /** Write: the claimant's record replaces the node's. Conflict: warning,
      claim skipped. FinalConflict: the claim throws. */
  datatype Verdict = Write | Conflict | FinalConflict

  /** The decision `addTargetNode` takes for a claimant whose own record is
      `mine`, given the node's current record. */
  function Arbitrate<O(==)>(current: Option<Decoration<O>>, mine: Decoration<O>): Verdict {
    if current.Some? && current.value.owner != mine.owner then
      if current.value.priority >= mine.priority then Conflict
      else if current.value.isFinal then FinalConflict
      else Write
    else Write
  }

  /** The node's record after one claim, or the failure it throws. */
  function ClaimStep<O(==)>(current: Option<Decoration<O>>, mine: Decoration<O>): Result<Option<Decoration<O>>> {
    match Arbitrate(current, mine)
    case Write => Ok(Some(mine))
    case Conflict => Ok(current)
    case FinalConflict => Err(ClaimConflict)
  }

  /** The outcome of a series of claims on one node: the record left after
      all of them, or the position of the claim that threw. */
  datatype Claims<O> = Survived(record: Option<Decoration<O>>) | Aborted(at: nat)

  /** The claims `cs`, made one after the other on a node whose record is
      `start`, stopping at the first that throws. */
  function ClaimAll<O(==)>(start: Option<Decoration<O>>, cs: seq<Decoration<O>>): Claims<O>
    decreases |cs|
  {
    if cs == [] then Survived(start)
    else
      match ClaimAll(start, cs[..|cs| - 1])
      case Aborted(i) => Aborted(i)
      case Survived(r) =>
        match ClaimStep(r, cs[|cs| - 1])
        case Err(_) => Aborted(|cs| - 1)
        case Ok(r') => Survived(r')
  }

  /** Claims by one injector always carry the same record: its priority,
      finality, name and descriptor are fixed when it is built. */
  predicate Consistent<O(==)>(cs: seq<Decoration<O>>) {
    forall i, j :: 0 <= i < |cs| && 0 <= j < |cs| && cs[i].owner == cs[j].owner ==> cs[i] == cs[j]
  }

  /** A reference definition of the winner: the position of the first claim
      of highest priority. */
  function FirstHighest<O>(cs: seq<Decoration<O>>): (k: nat)
    requires cs != []
    ensures k < |cs|
    ensures forall i :: 0 <= i < |cs| ==> cs[i].priority <= cs[k].priority
    ensures forall i :: 0 <= i < k ==> cs[i].priority < cs[k].priority
    decreases |cs|
  {
    if |cs| == 1 then 0
    else
      var k := FirstHighest(cs[..|cs| - 1]);
      assert forall i :: 0 <= i < |cs| - 1 ==> cs[..|cs| - 1][i] == cs[i];
      if cs[|cs| - 1].priority > cs[k].priority then |cs| - 1 else k
  }

  lemma {:induction false} PrefixSurvives<O>(start: Option<Decoration<O>>, cs: seq<Decoration<O>>, i: nat)
    requires i <= |cs|
    requires ClaimAll(start, cs).Survived?
    ensures ClaimAll(start, cs[..i]).Survived?
    decreases |cs|
  {
    if i < |cs| {
      assert cs[..|cs| - 1][..i] == cs[..i];
      PrefixSurvives(start, cs[..|cs| - 1], i);
    } else {
      assert cs[..i] == cs;
    }
  }

  lemma ConsistentPrefix<O>(cs: seq<Decoration<O>>, i: nat)
    requires i <= |cs| && Consistent(cs)
    ensures Consistent(cs[..i])
  {
    assert forall k :: 0 <= k < i ==> cs[..i][k] == cs[k];
  }

  /** On a fresh node, a series of claims that does not throw leaves the
      node to the first claimant of highest priority, whatever the order
      of the others. */
  lemma {:induction false} WinnerIsFirstHighest<O>(cs: seq<Decoration<O>>)
    requires cs != [] && Consistent(cs)
    requires ClaimAll(None, cs).Survived?
    ensures ClaimAll(None, cs) == Survived(Some(cs[FirstHighest(cs)]))
    decreases |cs|
  {
    var n := |cs|;
    if n == 1 {
      assert cs[..0] == [];
    } else {
      var pre := cs[..n - 1];
      PrefixSurvives(None, cs, n - 1);
      ConsistentPrefix(cs, n - 1);
      WinnerIsFirstHighest(pre);
      var k := FirstHighest(pre);
      assert pre[k] == cs[k];
      var c := cs[n - 1];
      if c.owner == cs[k].owner {
        assert c == cs[k];
      }
    }
  }

  /** Across successive claims that do not throw, the recorded priority
      never decreases. */
  lemma RecordedPriorityNeverDecreases<O>(cs: seq<Decoration<O>>, i: nat)
    requires 0 < i <= |cs| && Consistent(cs)
    requires ClaimAll(None, cs).Survived?
    ensures ClaimAll(None, cs[..i]).Survived? && ClaimAll(None, cs[..i]).record.Some?
    ensures ClaimAll(None, cs[..i]).record.value.priority <= ClaimAll(None, cs).record.value.priority
  {
    PrefixSurvives(None, cs, i);
    ConsistentPrefix(cs, i);
    WinnerIsFirstHighest(cs[..i]);
    WinnerIsFirstHighest(cs);
    var k := FirstHighest(cs[..i]);
    assert cs[..i][k] == cs[k];
  }

  /** Once a final record is on a node, no later claim that does not throw
      takes it over: the record stays exactly as it is. */
  lemma {:induction false} FinalIsNeverTakenOver<O>(cs: seq<Decoration<O>>, i: nat, w: Decoration<O>)
    requires i <= |cs| && Consistent(cs) && w in cs[..i]
    requires ClaimAll(None, cs[..i]) == Survived(Some(w)) && w.isFinal
    requires ClaimAll(None, cs).Survived?
    ensures ClaimAll(None, cs) == Survived(Some(w))
    decreases |cs|
  {
    var n := |cs|;
    if i == n {
      assert cs[..i] == cs;
    } else {
      assert cs[..n - 1][..i] == cs[..i];
      ConsistentPrefix(cs, n - 1);
      PrefixSurvives(None, cs, n - 1);
      FinalIsNeverTakenOver(cs[..n - 1], i, w);
      var c := cs[n - 1];
      var j :| 0 <= j < i && cs[..i][j] == w;
      assert cs[j] == w;
      if c.owner == w.owner {
        assert c == w;
      }
    }
  }

  /** A series of claims throws exactly at a claim of strictly higher
      priority than the record then on the node, when that record belongs
      to another injector and is final. */
  lemma {:induction false} AbortsExactlyAtFinal<O>(start: Option<Decoration<O>>, cs: seq<Decoration<O>>, i: nat)
    requires i < |cs|
    requires ClaimAll(start, cs[..i]).Survived?
    ensures ClaimAll(start, cs[..i + 1]) == Aborted(i) <==>
      var r := ClaimAll(start, cs[..i]).record;
      r.Some? && r.value.owner != cs[i].owner && r.value.isFinal && r.value.priority < cs[i].priority
  {
    assert cs[..i + 1][..i] == cs[..i];
    assert cs[..i + 1][i] == cs[i];
  }

  /** Two injectors, neither final, competing for a fresh node: the one of
      strictly higher priority owns it whichever claims first. */
  lemma HigherPriorityWinsEitherOrder<O>(a: Decoration<O>, b: Decoration<O>)
    requires a.owner != b.owner && !a.isFinal && !b.isFinal && a.priority < b.priority
    ensures ClaimAll(None, [a, b]) == Survived(Some(b))
    ensures ClaimAll(None, [b, a]) == Survived(Some(b))
  {
    assert [a, b][..1] == [a] && [b, a][..1] == [b];
    assert [a][..0] == [] && [b][..0] == [];
    assert ClaimAll(None, [a]) == Survived(Some(a));
    assert ClaimAll(None, [b]) == Survived(Some(b));
  }

  /** A final claim is not displaced by another injector of higher
      priority: that claim throws. A claim of the same or lower priority is
      skipped with a warning. */
  lemma FinalClaimResists<O>(c: Decoration<O>, d: Decoration<O>)
    requires c.owner != d.owner && c.isFinal
    ensures c.priority < d.priority ==> ClaimAll(None, [c, d]) == Aborted(1)
    ensures c.priority >= d.priority ==> ClaimAll(None, [c, d]) == Survived(Some(c))
  {
    assert [c, d][..1] == [c];
    assert [c][..0] == [];
    assert ClaimAll(None, [c]) == Survived(Some(c));
  }
}
