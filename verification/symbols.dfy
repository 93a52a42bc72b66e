/** Named leaves of the algebraic-expression output: variables and operations.

    In the Python code `Variable` and `Operation` are two subclasses of `Symbol`
    that carry nothing but a name. Here they are the two variants of one closed
    datatype, so "the class of a symbol" is simply which constructor built it.
 */
module Symbols {

  datatype Symbol = Variable(name: string) | Operation(name: string)

  /** True iff both symbols were built by the same class. */
  predicate SameClass(a: Symbol, b: Symbol) {
    (a.Variable? && b.Variable?) || (a.Operation? && b.Operation?)
  }

  /** The hash of a symbol is the hash of its name, nothing else.
      Python's string hash is opaque, so it is a parameter here. */
  function Hash(a: Symbol, stringHash: string -> int): (h: int)
  {
    stringHash(a.name)
  }
}
