/** Optional values shared by every module of the model. */
module Base {

  /** `None` stands for Python's `None` where the source returns "no value". */
  datatype Option<+T> = None | Some(value: T)

  function Max(x: int, y: int): int { if x >= y then x else y }

  function Min(x: int, y: int): int { if x <= y then x else y }
}
