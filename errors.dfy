/** Error kinds of the calculator and the failure-compatible wrappers that
    stand in for C++ exceptions. */
module Errors {

  /** One constructor per exception type the core can throw. */
  datatype Error =
    | LexError                      // lex_error, lexer.h:12-19
    | ParseError(message: string)   // parse_error, parser.h:18-29
    | EvalError(message: string)    // eval_error, calculator.h:20-32
    | LogicError(message: string)   // std::logic_error
    | BadGet                        // boost::bad_get from a variant access of the wrong kind

  datatype Result<T> = Ok(value: T) | Err(error: Error) {
    predicate IsFailure() { Err? }
    function PropagateFailure<U>(): Result<U> requires Err? { Err(error) }
    function Extract(): T requires Ok? { value }
  }

  /** The outcome of an operation that returns nothing but may throw. */
  datatype Outcome = Pass | Fail(error: Error)

  datatype Option<T> = None | Some(value: T)
}
