/** Values shared by every part of the model. */
module Common {

  /** A numeric array entry that may be missing. numpy marks a missing
      entry with not-a-number; the model gives it its own constructor. */
  datatype Sample<T> = NoData | V(v: T)

  /** A real-valued entry (SEFD values, pairwise products, phases in degrees). */
  type Val = Sample<real>

  datatype Option<T> = None | Some(value: T)

  /** The outcome of an operation whose source raises an exception on some inputs. */
  datatype Result<T, E> = Success(value: T) | Failure(error: E)
}
