/** An optional value: the model's stand-in for JavaScript's `null`
    and `undefined` results. */
module Maybe {

  datatype Option<+T> = None | Some(value: T) {

    function GetOr(default: T): T {
      match this
      case Some(v) => v
      case None => default
    }
  }
}
