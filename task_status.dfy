/** The task status enum and its transition table, keyed by the status
    string values the tasks table stores. */
module TaskStatus {

  const TODO := "todo"
  const IN_PROGRESS := "in_progress"
  const REVIEW := "review"
  const DONE := "done"

  /** The enum's cases, as their backing values, in declaration order. */
  const Cases: seq<string> := [TODO, IN_PROGRESS, REVIEW, DONE]

  /** `transitions()`: each case's value to the values it may move to. */
  const Transitions: map<string, seq<string>> :=
    map[TODO := [IN_PROGRESS],
        IN_PROGRESS := [REVIEW],
        REVIEW := [DONE, IN_PROGRESS],
        DONE := []]

  /** The successors the service looks up for a stored status; a value the
      table has no entry for allows nothing. */
  function Allowed(current: string): (r: seq<string>)
    ensures current !in Cases ==> r == []
    ensures forall n :: n in r ==> n in Cases
  {
    if current in Transitions then Transitions[current] else []
  }

  /** The table permits moving from `current` to `next` (exact string match). */
  predicate Permits(current: string, next: string) {
    next in Allowed(current)
  }

  /** There are four distinct cases and the table has exactly one entry per case. */
  lemma CasesAndTable()
    ensures |Cases| == 4
    ensures forall i, j :: 0 <= i < j < |Cases| ==> Cases[i] != Cases[j]
    ensures Transitions.Keys == set c | c in Cases
  {
  }

  /** The whole table, pair by pair: exactly four moves are permitted. */
  lemma PermittedMoves(current: string, next: string)
    ensures Permits(current, next) <==>
      || (current == TODO && next == IN_PROGRESS)
      || (current == IN_PROGRESS && next == REVIEW)
      || (current == REVIEW && next == DONE)
      || (current == REVIEW && next == IN_PROGRESS)
  {
  }

  /** `done` is terminal, and a value outside the enum permits nothing. */
  lemma NoMoveFromDoneOrUnknown(current: string, next: string)
    requires current == DONE || current !in Cases
    ensures !Permits(current, next)
  {
  }

  /** No status may move to itself. */
  lemma NoSelfMove(s: string)
    ensures !Permits(s, s)
  {
  }

  /** A sequence of statuses each of which the table lets follow the one before. */
  predicate IsRun(path: seq<string>) {
    forall i :: 0 <= i < |path| - 1 ==> Permits(path[i], path[i + 1])
  }

  /** Every status after the first one of a run is one of the enum's cases. */
  lemma {:induction false} RunStaysInCases(path: seq<string>)
    requires IsRun(path)
    ensures forall i :: 0 < i < |path| ==> path[i] in Cases
  {
    forall i | 0 < i < |path|
      ensures path[i] in Cases
    {
      assert Permits(path[i - 1], path[i]);
    }
  }

  /** A task cannot reach `done` from `todo` in fewer than three moves: any
      run between them passes through `in_progress` and then `review`. */
  lemma {:induction false} TodoToDoneGoesThroughReview(path: seq<string>)
    requires |path| > 0 && path[0] == TODO && path[|path| - 1] == DONE
    requires IsRun(path)
    ensures |path| >= 4
    ensures path[1] == IN_PROGRESS && path[|path| - 2] == REVIEW
  {
    assert |path| >= 2;
    assert Permits(path[0], path[1]);
    PermittedMoves(path[0], path[1]);
    var n := |path|;
    assert Permits(path[n - 2], path[n - 1]);
    PermittedMoves(path[n - 2], path[n - 1]);
  }

  /** A run that starts at `done` never leaves it. */
  lemma RunFromDoneEnds(path: seq<string>)
    requires |path| > 0 && path[0] == DONE && IsRun(path)
    ensures |path| == 1
  {
    if |path| > 1 {
      NoMoveFromDoneOrUnknown(path[0], path[1]);
      assert false;
    }
  }
}
