/** Result types and the error classes that the rest of the model inspects. */
module Base {

  datatype Option<+T> = None | Some(value: T)

  datatype Result<+T, +E> = Ok(value: T) | Err(error: E)

  /** The sentinels that callers look for with errors.Is. */
  datatype Class =
    | Denied        // attest.ErrDenied
    | Invalid       // wire.ErrInvalid
    | Unsupported   // wire.ErrUnsupported
    | BadConfig     // config.ErrInvalid
    | Canceled      // context.Canceled
    | Deadline      // context.DeadlineExceeded

  /** An error, reduced to the set of sentinels that errors.Is finds in it. */
  datatype Error = Error(classes: set<Class>)

  /** An error that carries none of the sentinels. */
  const PlainError := Error({})

  function Fail(c: Class): Error { Error({c}) }

  /** A Go string is a sequence of bytes: each char of a string stands for one byte. */
  predicate HasPrefix(s: string, prefix: string) {
    |prefix| <= |s| && s[..|prefix|] == prefix
  }

  function ErrorIn<T>(r: Result<T, Error>): Option<Error> {
    match r
    case Ok(_) => None
    case Err(e) => Some(e)
  }

  /** The number of the first step that failed; that of all steps if none did. */
  function FirstFailed(steps: seq<Option<Error>>): (k: nat)
    ensures k <= |steps|
    ensures k < |steps| ==> steps[k].Some?
    ensures forall j :: 0 <= j < k ==> steps[j].None?
  {
    if steps == [] || steps[0].Some? then 0 else 1 + FirstFailed(steps[1..])
  }

  /** The error of the first step that failed, if one did. */
  function FirstError(steps: seq<Option<Error>>): Option<Error> {
    if FirstFailed(steps) < |steps| then steps[FirstFailed(steps)] else None
  }

  lemma FirstErrorIs(steps: seq<Option<Error>>)
    ensures var k := FirstFailed(steps);
      (k < |steps| ==> FirstError(steps) == steps[k]) && (k == |steps| ==> FirstError(steps) == None)
  {
  }
}
