/** Small failure-carrying datatypes shared by every module of the model. */
module Wrappers {

  /** A value that may be absent; `None` plays the part of Python's `None`. */
  datatype Option<+T> = None | Some(value: T)

  /** The outcome of a step that may raise. */
  datatype Result<+T, +E> = Success(value: T) | Failure(error: E)

  /**
   * The exceptions the scripts can raise while reading one document:
   * the XML parser rejecting the file, `find` returning `None` for a
   * required element (AttributeError on `.text`), an element whose
   * text is `None` being sliced or searched (TypeError/AttributeError),
   * and an index past the end of a list (IndexError).  `tag` names the
   * element, `list` names the elements of the list that was indexed.
   */
  datatype Error =
    | ParseFailed
    | MissingElement(tag: string)
    | MissingText(tag: string)
    | IndexOutOfRange(list: string)
}
