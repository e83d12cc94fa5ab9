/** Option and Result, the shapes the bot's Rust code uses for "maybe" and "or an error". */
module Wrappers {

  datatype Option<+T> = None | Some(value: T) {
    function GetOr(default: T): T {
      match this
      case Some(v) => v
      case None => default
    }
  }

  datatype Result<+R, +E> = Ok(value: R) | Err(error: E)

  /** The position of the last present element, or -1 when every element is absent. */
  function LastSomeIndex<T>(rs: seq<Option<T>>): (i: int)
    ensures -1 <= i < |rs|
    ensures i >= 0 ==> rs[i].Some?
    ensures forall j :: i < j < |rs| ==> rs[j].None?
  {
    if rs == [] then -1
    else if rs[|rs| - 1].Some? then |rs| - 1
    else LastSomeIndex(rs[..|rs| - 1])
  }

  /** The last present element, if any. */
  function LastSome<T>(rs: seq<Option<T>>): Option<T>
  {
    var i := LastSomeIndex(rs);
    if i < 0 then None else rs[i]
  }

  /** One more element: it wins when present. */
  lemma LastSomeSnoc<T>(rs: seq<Option<T>>, x: Option<T>)
    ensures LastSome(rs + [x]) == if x.Some? then x else LastSome(rs)
  {
    assert (rs + [x])[..|rs|] == rs;
  }
}
