/** The constants of param.h that more than one layer uses, and small shared types. */
module Common {

  const MAXOPBLOCKS := 10

  const LOGSIZE := 30

  datatype Option<T> = None | Some(value: T)

  function Min(a: nat, b: nat): nat {
    if a < b then a else b
  }

  function Max(a: nat, b: nat): nat {
    if a < b then b else a
  }
}
