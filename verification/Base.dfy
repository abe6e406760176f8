/** Shared vocabulary: optional values, file contents and error codes. */
module Base {

  datatype Option<+T> = None | Some(value: T)

  type Byte = x: int | 0 <= x < 256

  type File = seq<Byte>

  datatype Errno = ENOENT | EIO | ENXIO | EFAULT | EEXIST | EISDIR | EREMCHG | EOther

  datatype Status = Success | Failed(error: Errno)

  datatype Result<+T> = Ok(value: T) | Err(error: Errno)

  function Max(x: nat, y: nat): nat {
    if x < y then y else x
  }

  function Min(x: nat, y: nat): nat {
    if x < y then x else y
  }
}
