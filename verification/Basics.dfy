/** Types that several parts of the model share. */
module Basics {

  datatype Option<+T> = None | Some(value: T) {

    function GetOr(default: T): T {
      match this
      case None => default
      case Some(v) => v
    }
  }

  /** The status of a TPM; a tile reports it by name as its programming state. */
  datatype TpmStatus = Unknown | Off | Unconnected | Unprogrammed | Programmed | Initialised | Synchronised

  lemma ConcatAssociates<T>(a: seq<T>, b: seq<T>, c: seq<T>)
    ensures (a + b) + c == a + (b + c)
  {
  }
}
