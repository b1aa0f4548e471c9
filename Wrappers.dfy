/** Option for the source's nullable references and Result for operations
    that can throw an exception instead of returning. */
module Wrappers {

  datatype Option<+T> = None | Some(value: T)

  /** `Throws(e)` stands for a .NET or JavaScript exception of kind `e`
      escaping from the operation; no state change after the throw point is made. */
  datatype Result<+T> = Ok(value: T) | Throws(exception: string)

  const NullReference := "NullReferenceException"
  const ArgumentNull := "ArgumentNullException"
}
