/** The `(path, rev)` references that serve as evidence of where content
    came from, and the ways the analysis can stop. */
module Evidence {
  import opened Wrappers
  import opened Orders

  /** One entry of a path's history: from revision `rev` on, the path holds
      the content with id `content`, or is deleted (`None`). */
  datatype Transition = Transition(rev: int, content: Option<nat>)

  /** A file `path` as it was at revision `rev`. */
  datatype PathRev = PathRev(path: string, rev: int)

  /** Order of references: by revision, then by path. Sets of references are
      kept ascending in this order, which fixes the order in which the
      analysis folds a set of identical predecessors. */
  predicate RefLt(x: PathRev, y: PathRev)
  {
    x.rev < y.rev || (x.rev == y.rev && StrLt(x.path, y.path))
  }

  lemma RefLtIsOrder()
    ensures StrictTotalOrder(RefLt)
  {
    StrLtIsOrder();
  }

  /** The exceptions that end the analysis. */
  datatype Fault =
    | LengthMismatch(commits: nat, merges: nat)   // assert at analyzeslurp.py:155
    | BadPath(path: string)                       // assert at analyzeslurp.py:117
    | LowAboveTarget(low: int, target: int)       // assert at analyzeslurp.py:99
    | NoPredecessor(rev: int)                     // IndexError at analyzeslurp.py:180
}
