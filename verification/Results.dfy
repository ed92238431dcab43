/** Outcomes of operations that can fail, and absent values. */
module Results {

  datatype Option<+T> = None | Some(value: T)

  /** Why a surface capture fails. */
  datatype Failure = NoViewport | SizesChanged | BadImageSize | NoOverlapProof | StoppedMoving | EndNotReached

  datatype Result<+T> = Ok(value: T) | Err(error: Failure)

  /** A measured score, or the infinity a search starts from. */
  datatype Score = Finite(value: real) | Infinite {
    predicate LessThan(other: Score) {
      Finite? && (other.Finite? ==> value < other.value)
    }
  }
}
