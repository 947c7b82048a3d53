/**
 * How a run of the interpreter can fail to produce a next state.
 *
 * The C program has no error paths of its own: every failure below is a
 * point where it reaches undefined behaviour (a NULL handed to a C library
 * routine, a read beyond the token array, a use of freed memory), or the
 * fuel bound of this model running out.  The model stops there instead of
 * guessing what the machine would do.
 */
module Faults {
  import opened Wrappers

  datatype Fault =
    | OutOfFuel     // the fuel bound ran out before the construct finished
    | ReadPastEnd   // current_token read beyond the last token
    | NullText      // strdup or printf("%s") given a NULL text
    | NullNumber    // atof given a NULL text
    | NullName      // strcmp or strdup given a NULL variable name
    | UseAfterFree  // a foreach array released while it is being iterated

  /** Either a value or the fault that stopped the computation; usable with `:-`. */
  datatype Outcome<+T> = Ok(value: T) | Fail(fault: Fault) {

    predicate IsFailure() {
      Fail?
    }

    function PropagateFailure<U>(): Outcome<U>
      requires Fail?
    {
      Fail(fault)
    }

    function Extract(): T
      requires Ok?
    {
      value
    }
  }

  /** strdup: copying a NULL text is undefined. */
  function Dup(v: Option<string>): (r: Outcome<string>)
    ensures r.Ok? <==> v.Some?
    ensures r.Ok? ==> r.value == v.value
  {
    match v
    case Some(x) => Ok(x)
    case None => Fail(NullText)
  }
}
