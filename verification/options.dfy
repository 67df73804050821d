/** Failure-carrying values used across the pipeline model. */
module Options {

  /** A value that may be absent: the "skip" signal of a fallible parse. */
  datatype Option<+T> = None | Some(value: T)

  /** Either a value or an error, such as the one `pd.concat` raises in `merge_files.py` when given no tables. */
  datatype Result<+R, +E> = Success(value: R) | Failure(error: E)
}
