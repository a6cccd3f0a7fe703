/** Result types shared by the models. */
module Common {

  datatype Option<+T> = None | Some(value: T) {
    function GetOr(otherwise: T): T { if Some? then value else otherwise }
  }
}
