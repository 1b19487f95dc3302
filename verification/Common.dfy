/** What several modules share: optional values, fates of commands, 64-bit integers, monotone products. */
module Common {

  datatype Option<+T> = None | Some(value: T)

  /** What became of a command: done and answered, done with the answer lost, or not done. */
  datatype Fate = Answered | AnswerLost | NotDone

  const INT64_LIMIT := 0x8000_0000_0000_0000

  predicate IsInt64(n: int) {
    -INT64_LIMIT <= n < INT64_LIMIT
  }

  lemma MulMonotone(x: int, a: int, b: int)
    requires x >= 0 && a <= b
    ensures x * a <= x * b
    ensures 0 <= a ==> 0 <= x * a
  {
  }
}
