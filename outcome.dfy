/** Results and errors of the table-reconstruction core.

    The Python code signals every failure by raising an exception (ValueError,
    KeyError, TypeError, IndexError).  Each reachable raise becomes one
    constructor of Error, and every operation that can raise returns a Result. */
module Outcome {

  datatype Option<+T> = None | Some(value: T)

  datatype Error =
    | InvalidContour(x0: int, x1: int, y0: int, y1: int)  // a corner is inverted beyond the one-unit tolerance
    | EmptyMean                                           // the mean of an empty list
    | NoCloseBorder(candidate: int, borders: seq<int>)    // no border level within the threshold
    | NegativeSpan(span: int)                             // a row or column span below zero
    | EmptySequence                                       // min() or max() of an empty list
    | SuffixMismatch(path: string, suffix: string)        // a path that does not end as expected
    | IndexOutOfRange                                     // indexing the first character of ''
    | MissingKey(key: string)                             // a record lookup of an absent key
    | MissingArgument(name: string)                       // a record without a required field
    | UnexpectedArguments(names: set<string>)             // a record with fields the type lacks
    | WrongType(name: string)                             // a record field holding another kind of value

  datatype Result<+T> = Ok(value: T) | Err(error: Error) {

    predicate IsFailure() {
      Err?
    }

    function PropagateFailure<U>(): Result<U>
      requires Err?
    {
      Err(error)
    }

    function Extract(): T
      requires Ok?
    {
      value
    }
  }
}
