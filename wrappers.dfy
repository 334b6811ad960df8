/** The nullable values of the C# source: `T?` becomes `Option<T>`. */
module Wrappers {
  datatype Option<T> = None | Some(value: T)
  {
    /** The `??` operator of C#. */
    function GetOr(default: T): T
    {
      match this
      case None => default
      case Some(v) => v
    }
  }
}
