/** The diagnostics of the DIMACS parser, one constructor per message of
    'parse_error'.  Every parse error is fatal and reports the current line. */
module DimacsErrors {

  /** Which number a digit run is being read for. */
  datatype Quantity =
    | MaxVariable    // the <V> of 'p cnf <V> <M>'
    | ClauseCount    // the <M> of 'p cnf <V> <M>'
    | LiteralNumber  // a literal of the body

  datatype ErrorKind =
    | ExpectedNewlineAfterReturn                  // "expected new line after carriage return"
    | EofInHeaderComment                          // "unexpected end-of-file in header comment"
    | ExpectedPOrC                                // "expected 'p' or 'c'"
    | ExpectedSpaceAfterP                         // "expected space after 'p'"
    | ExpectedCAfterP                             // "expected 'c' after 'p '"
    | ExpectedNAfterPC                            // "expected 'n' after 'p c'"
    | ExpectedFAfterPCn                           // "expected 'f' after 'p cn'"
    | ExpectedSpaceAfterPCnf                      // "expected space after 'p cnf'"
    | ExpectedDigitAfterPCnf                      // "expected digit after 'p cnf '"
    | InvalidDigitAfterZero(what: Quantity)       // "invalid digit after '0' ..."
    | WayTooBig(what: Quantity)                   // "... way too big", "way too many ...", "number way too large"
    | TooBig(what: Quantity)                      // "... too big", "too many ...", "number too large"
    | ExpectedSpaceAfterVariables(variables: int) // "expected space after 'p cnf %d'"
    | ExpectedDigitAfterVariables(variables: int) // "expected digit after 'p cnf %d '"
    | ExpectedNewlineAfterHeader(variables: int, clauses: int) // "expected new line after 'p cnf %d %zu'"
    | EofInComment                                // "unexpected end-of-file in comment"
    | ExpectedDigitAfterMinus                     // "expected digit after '-'"
    | ExpectedNumber                              // "expected number"
    | MoreClausesThanSpecified                    // "more clauses than specified"
    | UnexpectedCharAfter(lit: int)               // "unexpected character after '%d'"
    | LiteralExceedsMaxVariable(lit: int, variables: int) // "literal '%d' exceeds maximum variable index '%d'"
    | TerminatingZeroMissing(lit: int)            // "terminating zero after literal '%d' missing"
    | SingleClauseMissing                         // "single clause missing"
    | ClausesMissing(count: int)                  // "%zu clauses missing"

  /** A digit-by-digit overflow guard fired while reading `what`. */
  predicate IsOverflow(kind: ErrorKind, what: Quantity) {
    kind == WayTooBig(what) || kind == TooBig(what)
  }

  /** 'parse_error': the line number at the time of the error and the message. */
  datatype ParseError = ParseError(line: int, kind: ErrorKind)
}
