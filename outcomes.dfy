/** Results and errors of the ledger's operations.  Every `raise` of the
    Python code becomes an `Error` value; every optional date argument an
    `Option`. */
module Outcomes {

  datatype Option<+T> = None | Some(value: T)

  /** Python's `date or default` keeps the date only when it is truthy:
      neither `None` nor the empty string. */
  predicate Given(date: Option<string>) {
    date.Some? && date.value != ""
  }

  /** One constructor per way the ledger fails. */
  datatype Error =
    | NoPrices                      // `max()` over an empty price mapping
    | PriceNotFound(date: string)   // no price recorded for this exact date
    | DateNotFound(date: string)    // the date precedes every recorded transaction
    | NoPriceDates                  // indexing the empty list of available dates
    | TickerExists(ticker: string)  // adding a ticker twice
    | TickerNotFound(ticker: string)
    | EmptyPortfolio                // no stock to take the default dates from
    | ZeroStartValue                // annualized return from a zero base

  /** A value or the error that was raised instead. */
  datatype Result<+T> = Ok(value: T) | Err(error: Error)

  /** The outcome of an operation that returns nothing. */
  datatype Outcome = Pass | Fail(error: Error)
}
