module Wrappers {
  datatype Option<+T> = None | Some(value: T) {
    function GetOr(default: T): T {
      match this
      case Some(v) => v
      case None => default
    }
  }

  // A sealed definition has the form `forall key {:trigger Unseal(key)} :: Unseal(key) ==> ...`;
  // mentioning Unseal(true) spells it out in a proof, which otherwise treats it as one fact
  ghost predicate Unseal(key: bool) {
    true
  }
}
