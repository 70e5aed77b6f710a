/** What the repositories' `update` methods share: the `SET` list of an
    `UPDATE` statement is a sequence of assignments, applied to the row from
    left to right. */
module PartialUpdate {

  function ApplyAll<R, A>(row: R, assignments: seq<A>, assign: (R, A) -> R): R
    decreases |assignments|
  {
    if assignments == [] then row
    else ApplyAll(assign(row, assignments[0]), assignments[1..], assign)
  }

  /** Adding one assignment at the end applies it last. */
  lemma {:induction false} ApplyAllAppend<R, A>(row: R, assignments: seq<A>, a: A, assign: (R, A) -> R)
    ensures ApplyAll(row, assignments + [a], assign) == assign(ApplyAll(row, assignments, assign), a)
    decreases |assignments|
  {
    if assignments != [] {
      assert (assignments + [a])[1..] == assignments[1..] + [a];
      ApplyAllAppend(assign(row, assignments[0]), assignments[1..], a, assign);
    }
  }
}
