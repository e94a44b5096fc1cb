/** Results of the bzip2 decoder: its exceptions become error values. */
module Outcomes {

  /** One constructor per `throw` in bzip2.js, in source order. */
  datatype Error =
    | NoMagicNumber
    | NotBzipArchive
    | NotBlockData
    | ObsoleteVersion
    | OrigPtrBeyondBuffer
    | BadGroupCount
    | NoSelectors
    | BadSelector
    | BadCodeLength
    | OutOfSelectors
    | NoSuchCode
    | IndexOutOfRange
    | RunOverflowsBuffer
    | BufferFull
    | OrigPtrBeyondBlock

  datatype Result<+T> = Ok(value: T) | Err(error: Error) {
    predicate IsFailure() { Err? }

    function PropagateFailure<U>(): Result<U>
      requires Err?
    {
      Err(error)
    }

    function Extract(): T
      requires Ok?
    {
      value
    }
  }
}
