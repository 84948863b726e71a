/** Values shared by the loaders and the reader. */
module Types {

  datatype Option<+T> = None | Some(value: T)

  datatype Result<+T> = Ok(value: T) | Err(error: Failure)

  /** The exceptions the reader can raise. ZeroDivisionError, KeyError, StopIteration and
      AssertionError are the Python exceptions of those names. The other three have no
      Python exception of their own. They name a cause: Python raises ValueError for both
      UnpackError and IntError, and ValueError or TypeError for TripleDecodeError. */
  datatype Failure =
    | ZeroDivisionError    // `line_idx % nranks` with nranks == 0
    | TripleDecodeError    // a kept triples line the JSON decoder cannot turn into three ids
                           // (the decoder's ValueError, or a TypeError or ValueError on unpacking)
    | UnpackError          // a tab-split line with the wrong number of fields (a ValueError)
    | IntError             // an id field that `int()` rejects (a ValueError)
    | KeyError(key: int)   // an id missing from the queries or the collection table
    | StopIteration        // the cursor is at the end of the triples
    | AssertionError       // `collate` was handed batches not all of size one

  /** One validation example: a query id, a positive and a negative passage id. */
  datatype Triple = Triple(qid: int, pos: int, neg: int)

  /** One parsed row of the queries or the collection file. */
  datatype Entry = Entry(id: int, text: string)
}
