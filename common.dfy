/** Types shared by the simulation engine and the tuner. */
module Common {

  datatype Option<+T> = None | Some(value: T)

  datatype Result<+T, +E> = Success(value: T) | Failure(error: E)

  /** A step that either completes or raises. */
  datatype Outcome<+E> = Pass | Fail(error: E)

  /** A Python exception, by kind. The collaborators (NEURON, the objective, the
      file system) raise `External` errors whose content the model does not inspect. */
  datatype Error =
    | AssertionError(message: string)
    | TypeError
    | ValueError
    | AttributeError
    | External(description: string)

  /** One entry of a candidate as Python sees it: a float (modelled as a real),
      or a string. Only strings can be concatenated with `+`. */
  datatype Scalar = Num(x: real) | Text(s: string)

  type Candidate = seq<Scalar>

  /** A tunable parameter: its (bare or dotted) name and whether its search value
      is a base-10 exponent. */
  datatype TuneParameter = TuneParameter(name: string, logScale: bool)

  function Min(a: int, b: int): int
  {
    if a < b then a else b
  }
}
