/** Option, Result and Ordering values shared by every module of the model. */
module Wrappers {
  datatype Option<T> = None | Some(value: T)

  /** A Rust `Result`: an `Ok` value or an error description. */
  datatype Result<T> = Ok(value: T) | Err(error: string)

  /** `std::cmp::Ordering`. */
  datatype Ordering = Less | Equal | Greater

  /** `Ordering::reverse`. */
  function Reverse(o: Ordering): (r: Ordering)
    ensures r == Less <==> o == Greater
    ensures r == Equal <==> o == Equal
  {
    match o
    case Less => Greater
    case Equal => Equal
    case Greater => Less
  }

  /** `Ord::cmp` on integers. */
  function CmpInt(a: int, b: int): (r: Ordering)
    ensures r == Less <==> a < b
    ensures r == Equal <==> a == b
  {
    if a < b then Less else if a == b then Equal else Greater
  }
}
