/** `Stock`: one ticker's price history and transaction history.  Its fields
    are never reassigned; only the transaction history changes, in place. */
module Stocks {
  import opened Outcomes
  import opened Sorting
  import opened Dicts
  import opened PriceHistories
  import opened TransactionHistories

  class Stock {
    const ticker: string
    const priceHistory: PriceHistory
    const transactionHistory: TransactionHistory

    /** What a valuation needs: well-formed dictionaries on both sides. */
    ghost predicate Ready()
      reads transactionHistory
    {
      priceHistory.Valid() && transactionHistory.dailyAccumulated.Valid()
    }

    ghost predicate Valid()
      reads transactionHistory
    {
      priceHistory.Valid() && transactionHistory.Valid()
    }

    /** `Stock(ticker, price_history)`: starts with an empty transaction
        history of its own. */
    constructor (ticker: string, priceHistory: PriceHistory)
      requires priceHistory.Valid()
      ensures Valid()
      ensures this.ticker == ticker && this.priceHistory == priceHistory
      ensures fresh(transactionHistory) && transactionHistory.log == []
      ensures transactionHistory.dailyAccumulated == Empty() && transactionHistory.lastTotal == 0.0
    {
      this.ticker := ticker;
      this.priceHistory := priceHistory;
      this.transactionHistory := new TransactionHistory();
    }

    /** `value(date)`: the shares held at the date times the price on that
        exact date.  Without a date (or with the empty string), the last
        available price date is used, and a stock without prices fails.
        `ValueAt` and `ValueDefaultDate` state what this computes. */
    function Value(date: Option<string>): (r: Result<real>)
      reads transactionHistory
      requires Ready()
      ensures !Given(date) && priceHistory.prices.entries == map[] ==> r == Err(NoPriceDates)
      ensures r.Err? ==> r.error == NoPriceDates || r.error.DateNotFound? || r.error.PriceNotFound?
    {
      var dates := priceHistory.AvailableDates();
      if !Given(date) && dates == [] then Err(NoPriceDates)
      else
        var d := if Given(date) then date.value else dates[|dates| - 1];
        match transactionHistory.EffectiveShares(Some(d))
        case Err(e) => Err(e)
        case Ok(shares) =>
          match priceHistory.GetPrice(Some(d))
          case Err(e) => Err(e)
          case Ok(price) => Ok(shares * price)
    }

    /** `add_transaction(date, amount)`, handed to the transaction
        history. */
    method AddTransaction(date: string, amount: real)
      requires Valid()
      modifies transactionHistory
      ensures Valid()
      ensures transactionHistory.log == old(transactionHistory.log) + [Transaction(date, amount)]
      ensures transactionHistory.lastTotal == old(transactionHistory.lastTotal) + amount
      ensures transactionHistory.dailyAccumulated ==
        old(transactionHistory.dailyAccumulated).Put(date, transactionHistory.lastTotal)
    {
      transactionHistory.AddTransaction(date, amount);
    }
  }

  /** The value at a given date is the effective shares at that date times
      the price recorded for exactly that date; a failing share lookup is
      reported first, then a missing price. */
  lemma ValueAt(s: Stock, d: string)
    requires s.Ready() && d != ""
    ensures s.Value(Some(d)).Ok? <==>
      s.transactionHistory.EffectiveShares(Some(d)).Ok? && d in s.priceHistory.prices.entries
    ensures s.Value(Some(d)).Ok? ==>
      s.Value(Some(d)).value == s.transactionHistory.EffectiveShares(Some(d)).value * s.priceHistory.prices.entries[d]
    ensures s.transactionHistory.EffectiveShares(Some(d)).Err? ==>
      s.Value(Some(d)).Err? && s.Value(Some(d)).error == s.transactionHistory.EffectiveShares(Some(d)).error
    ensures s.transactionHistory.EffectiveShares(Some(d)).Ok? && d !in s.priceHistory.prices.entries ==>
      s.Value(Some(d)).Err? && s.Value(Some(d)).error == PriceNotFound(d)
  {
  }

  /** Valued without a date, a stock is valued at its latest price date,
      the very date `get_price()` defaults to. */
  lemma ValueDefaultDate(s: Stock, date: Option<string>)
    requires s.Ready() && s.priceHistory.prices.keys != [] && !Given(date)
    ensures s.Value(date) == s.Value(Some(Max(s.priceHistory.prices.keys)))
  {
    var m := Max(s.priceHistory.prices.keys);
    var dates := s.priceHistory.AvailableDates();
    assert dates != [] && dates[|dates| - 1] == m by {
      LastAvailableIsLatest(s.priceHistory);
    }
    var a, b := s.Value(date), s.Value(Some(m));
    assert a.Ok? <==> b.Ok?;
    if a.Ok? {
      assert a.value == b.value;
    } else {
      assert a.error == b.error;
    }
  }

  /** A stock without transactions is worth nothing at any date it has a
      price for, and cannot be valued at a date it has none for. */
  lemma UntradedValue(s: Stock, d: string)
    requires s.Valid() && s.transactionHistory.log == [] && d != ""
    ensures d in s.priceHistory.prices.entries ==> s.Value(Some(d)) == Ok(0.0)
    ensures d !in s.priceHistory.prices.entries ==> s.Value(Some(d)).Err? && s.Value(Some(d)).error == PriceNotFound(d)
  {
    ValueAt(s, d);
  }
}
