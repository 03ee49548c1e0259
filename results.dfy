/** Optional values, the failure kinds the redirect injector raises, and a
    failure-compatible result type. */
module Results {

  datatype Option<+T> = None | Some(value: T)

  /** The fatal outcomes of the injector, one per throw site:
      - ClaimConflict: a higher-priority claim hits a final redirect (InvalidInjectionException)
      - InvalidSignature: the handler descriptor matches no accepted shape (InvalidInjectionException)
      - InvalidTarget: the node's instruction is neither a method call nor a field access (InvalidInjectionException)
      - UnsupportedOpcode: a field instruction whose opcode is not a get or a put (InvalidInjectionException)
      - AlreadyReplaced: the node was already rewritten (UnsupportedOperationException) */
  datatype Failure =
    | ClaimConflict
    | InvalidSignature
    | InvalidTarget
    | UnsupportedOpcode
    | AlreadyReplaced

  datatype Result<+T> = Ok(value: T) | Err(error: Failure) {

    predicate IsFailure() {
      Err?
    }

    function PropagateFailure<U>(): Result<U>
      requires Err?
    {
      Err(error)
    }

    function Extract(): T
      requires Ok?
    {
      value
    }
  }

  /** What a call of `addTargetNode` or `inject` came to: it did its work,
      it logged a conflict and returned, or it threw. */
  datatype Outcome = Done | Skipped | Failed(failure: Failure)
}
