/** Typing of the predicate's result: `CelValue.ToBool` and `CelProgram.Filter`. */
module Predicate {
  import opened Values

  /** The `(keep bool, e error)` pair that `Filter` and `ToBool` return. */
  datatype Keep = Keep(keep: bool, err: Option<Error>)

  /** `CelValue.ToBool`: a Go `bool` is returned as it is; any other native
      value is refused with `ErrNotBool`, never read as `false`. */
  function ToBool(v: CelValue): (r: Keep)
    ensures r.err == None <==> v.CBool?
    ensures r.err == None ==> v == CBool(r.keep)
    ensures r.err != None ==> r == Keep(false, Some(NotBool))
  {
    match v
    case CBool(b) => Keep(b, None)
    case _ => Keep(false, Some(NotBool))
  }

  /** `CelProgram.Filter`: an evaluation error is passed on unchanged with
      `keep == false`; otherwise the result is whatever `ToBool` says of the
      evaluated value, so success means the program produced exactly that bool. */
  function Filter(prog: Program, step: nat, input: Binding): (r: Keep)
    ensures prog.eval(step, input).Err? ==> r == Keep(false, Some(prog.eval(step, input).error))
    ensures prog.eval(step, input).Ok? ==> r == ToBool(prog.eval(step, input).value)
    ensures r.err == None <==> prog.eval(step, input).Ok? && prog.eval(step, input).value.CBool?
    ensures r.err == None ==> prog.eval(step, input) == Ok(CBool(r.keep))
  {
    match prog.eval(step, input)
    case Err(e) => Keep(false, Some(e))
    case Ok(v) => ToBool(v)
  }
}
