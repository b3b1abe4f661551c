/** What the subscribers map hands back to its caller: JavaScript's `undefined`
    becomes `None`, and a TypeError thrown by a property access becomes `Err`. */
module Outcomes {

  datatype Option<+T> = None | Some(value: T)

  /** The reason a call into the subscribers map throws a TypeError. */
  datatype Fault =
    | MissingNode    // the topic names no node: the walk reached `undefined`, or went on below a slot
    | NoCallbackMap  // the walk ended on a reserved slot, whose `':callbacks'` property is `undefined`
    | NotAFunction   // the code called a method that is not defined

  datatype Result<+T> = Ok(value: T) | Err(fault: Fault)
}
