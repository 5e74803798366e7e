/** The Python values the parser and the netlist generator pass around: a
    string token, or a (possibly nested) list of such values. */
module Nested {

  datatype Elem = Tok(text: string) | Grp(items: seq<Elem>)

  /** The exceptions the source raises, plus the one way it fails to stop. */
  datatype Error =
    | IndexError                      // list index out of range, or pop from an empty list
    | Diverges                        // the source's while loop never advances
    | NotArity                        // ValueError: NOT should have exactly one operand
    | TooFewOperands(op: string)      // ValueError: <op> should have at least two operands
    | UnknownOperator(head: Elem)     // ValueError: Unknown operator: <head>
    | UnsupportedOperation(op: string) // ValueError: Unsupported operation: <op>

  datatype Result<T> = Ok(value: T) | Err(error: Error)

  /** Python truthiness of a string or a list: false exactly when it is empty. */
  predicate Truthy(e: Elem) {
    match e
    case Tok(s) => s != []
    case Grp(xs) => xs != []
  }

  /** Number of list nodes in a nested value, the value itself included. */
  function CountGroups(e: Elem): nat {
    match e
    case Tok(_) => 0
    case Grp(xs) => 1 + CountGroupsIn(xs)
  }

  /** Number of list nodes among (and inside) the elements of a list. */
  function CountGroupsIn(xs: seq<Elem>): nat {
    if xs == [] then 0
    else
      CountGroupsIn(xs[..|xs| - 1])
      + (match xs[|xs| - 1] { case Tok(_) => 0 case Grp(ys) => 1 + CountGroupsIn(ys) })
  }
}
