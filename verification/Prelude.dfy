/** What several modules share. */
module Prelude {

  datatype Option<+T> = None | Some(value: T)

  /** The end of a sequence, at most n long. */
  function Last<T>(s: seq<T>, n: nat): (t: seq<T>)
    ensures |t| == if |s| < n then |s| else n
  {
    if |s| <= n then s else s[|s| - n..]
  }
}
