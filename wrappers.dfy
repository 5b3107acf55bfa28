/**
 * Result and option values shared by every module of the model.
 *
 * The Java code signals failure by throwing; the model returns `Err` with
 * the kind of exception instead, so that every input has a defined outcome.
 */
module Wrappers {

  /** The exceptions the modelled Java code can raise, plus the model's own fuel bound. */
  datatype Error =
    | IndexOutOfBounds      // StringIndexOutOfBoundsException, ArrayIndexOutOfBoundsException
    | NumberFormat          // Integer.parseInt on a string that is not a number
    | NoSuchElement         // OwnStack.pop and SetIterator.next when nothing is left
    | NullPointer           // unboxing the null returned by OwnStack.peek
    | UnrepresentableChar   // a character range that crosses the UTF-16 surrogate block
    | OutOfFuel             // more shorthand expansions than the model's bound allows

  datatype Result<T> = Ok(value: T) | Err(error: Error)
  {
    predicate IsFailure() { Err? }

    function PropagateFailure<U>(): Result<U>
      requires Err?
    {
      Err(error)
    }

    function Extract(): T
      requires Ok?
    {
      value
    }
  }

  datatype Option<T> = None | Some(value: T)
}
