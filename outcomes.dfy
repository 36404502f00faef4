/**
 * The exceptions the loaders and modifiers raise, and the Option/Result wrappers that
 * stand for "returns None" and "raises".
 */
module Outcomes {

  /** Python exceptions that the modelled code raises or prints. */
  datatype Error =
    | KeyError(key: string)              // an unmapped column name
    | ValueError                         // merge without a name or tables; list.remove of a missing value
    | TypeError                          // subscripting or len() of None, str + None, raising a str
    | FileNotFoundError(message: string) // missing directory or no matching files
    | ZeroDivisionError                  // statistics over an empty list
    | StoreError                         // the store rejected a statement

  datatype Option<+T> = None | Some(value: T)

  datatype Result<+T> = Ok(value: T) | Err(error: Error)

  /** What `open(path, 'r')` raises for a file it cannot read. */
  function NoSuchFile(path: string): Error {
    FileNotFoundError("[Errno 2] No such file or directory: '" + path + "'")
  }
}
