/** `Portfolio`: a dictionary from ticker to `Stock`.  Adding a stock grows
    the dictionary; adding a transaction changes one stock's transaction
    history in place; valuations and profit only read. */
module Portfolios {
  import opened Outcomes
  import opened Lex
  import opened Sorting
  import opened Dicts
  import opened PriceHistories
  import opened TransactionHistories
  import opened Stocks

  /** `stock.value(date) for stock in holdings`: the valuations, in order
      (`ValuationsAt`). */
  function Valuations(holdings: seq<Stock>, date: Option<string>): (vs: seq<Result<real>>)
    reads set s | s in holdings :: s.transactionHistory
    requires forall i :: 0 <= i < |holdings| ==> holdings[i].Ready()
    ensures |vs| == |holdings|
    decreases |holdings|
  {
    if holdings == [] then []
    else
      var init := holdings[..|holdings| - 1];
      assert forall i :: 0 <= i < |init| ==> init[i] == holdings[i];
      Valuations(init, date) + [holdings[|holdings| - 1].Value(date)]
  }

  /** The last valuation is that of the last stock. */
  lemma ValuationLast(holdings: seq<Stock>, date: Option<string>)
    requires forall j :: 0 <= j < |holdings| ==> holdings[j].Ready()
    requires holdings != []
    ensures Valuations(holdings, date)[|holdings| - 1] == holdings[|holdings| - 1].Value(date)
  {
  }

  /** The valuation in position `i` is that of the stock in position `i`. */
  lemma {:induction false} ValuationAt(holdings: seq<Stock>, date: Option<string>, i: int)
    requires forall j :: 0 <= j < |holdings| ==> holdings[j].Ready()
    requires 0 <= i < |holdings|
    ensures Valuations(holdings, date)[i] == holdings[i].Value(date)
    decreases |holdings|
  {
    var n := |holdings| - 1;
    if i == n {
      ValuationLast(holdings, date);
    } else {
      var init := holdings[..n];
      assert init[i] == holdings[i];
      assert Valuations(holdings, date)[i] == Valuations(init, date)[i];
      ValuationAt(init, date, i);
    }
  }

  lemma ValuationsAt(holdings: seq<Stock>, date: Option<string>)
    requires forall i :: 0 <= i < |holdings| ==> holdings[i].Ready()
    ensures forall i :: 0 <= i < |holdings| ==> Valuations(holdings, date)[i] == holdings[i].Value(date)
  {
    forall i | 0 <= i < |holdings| ensures Valuations(holdings, date)[i] == holdings[i].Value(date) {
      ValuationAt(holdings, date, i);
    }
  }

  /** `sum(values, Decimal("0"))` over a generator of valuations, as a
      left fold from zero.  `SumSpec` states when it succeeds and which
      error it reports. */
  function Sum(values: seq<Result<real>>): (r: Result<real>)
    ensures values == [] ==> r == Ok(0.0)
    decreases |values|
  {
    if values == [] then Ok(0.0)
    else
      match Sum(values[..|values| - 1])
      case Err(e) => Err(e)
      case Ok(total) =>
        match values[|values| - 1]
        case Err(e) => Err(e)
        case Ok(v) => Ok(total + v)
  }

  /** The generator is consumed in order: the sum succeeds exactly when
      every valuation does, and otherwise reports the first failure. */
  lemma {:induction false} SumSpec(values: seq<Result<real>>)
    ensures Sum(values).Ok? <==> forall i :: 0 <= i < |values| ==> values[i].Ok?
    ensures Sum(values).Err? ==>
      exists i :: (0 <= i < |values| && values[i] == Err(Sum(values).error)
                   && forall j :: 0 <= j < i ==> values[j].Ok?)
    decreases |values|
  {
    if values != [] {
      var init := values[..|values| - 1];
      SumSpec(init);
      assert forall i :: 0 <= i < |init| ==> values[i] == init[i];
      if Sum(init).Err? {
        var i :| 0 <= i < |init| && init[i] == Err(Sum(init).error) && forall j :: 0 <= j < i ==> init[j].Ok?;
        assert values[i] == Err(Sum(values).error);
      }
    }
  }

  /** Summing two runs one after the other: it succeeds when both runs do,
      and then gives the sum of the two sums; otherwise the first run's
      error wins. */
  lemma {:induction false} SumConcat(a: seq<Result<real>>, b: seq<Result<real>>)
    ensures Sum(a + b).Ok? <==> Sum(a).Ok? && Sum(b).Ok?
    ensures Sum(a + b).Ok? ==> Sum(a + b).value == Sum(a).value + Sum(b).value
    ensures Sum(a).Err? ==> Sum(a + b) == Sum(a)
    decreases |b|
  {
    if b == [] {
      assert a + b == a;
    } else {
      var b' := b[..|b| - 1];
      assert (a + b)[..|a + b| - 1] == a + b';
      assert (a + b)[|a + b| - 1] == b[|b| - 1];
      SumConcat(a, b');
    }
  }

  /** Taking the term at `i` out of a run of valuations. */
  lemma SumRemove(values: seq<Result<real>>, i: int)
    requires 0 <= i < |values|
    ensures var rest := values[..i] + values[i + 1..];
      && (Sum(values).Ok? <==> Sum(rest).Ok? && values[i].Ok?)
      && (Sum(values).Ok? ==> Sum(values).value == Sum(rest).value + values[i].value)
  {
    var front, back := values[..i], values[i + 1..];
    assert values == (front + [values[i]]) + back;
    SumConcat(front, [values[i]]);
    SumConcat(front + [values[i]], back);
    SumConcat(front, back);
  }

  lemma MultisetRemove<T>(xs: seq<T>, i: int)
    requires 0 <= i < |xs|
    ensures multiset(xs[..i] + xs[i + 1..]) == multiset(xs) - multiset{xs[i]}
  {
    assert xs == xs[..i] + [xs[i]] + xs[i + 1..];
  }

  /** A sum does not depend on the order of its terms: any rearrangement
      of values that can be summed gives the same sum. */
  lemma {:induction false} SumPermutation(a: seq<Result<real>>, b: seq<Result<real>>)
    requires multiset(a) == multiset(b)
    requires Sum(a).Ok?
    ensures Sum(b) == Sum(a)
    decreases |a|
  {
    if a != [] {
      var n := |a| - 1;
      var x := a[n];
      assert x in multiset(b);
      var i :| 0 <= i < |b| && b[i] == x;
      MultisetRemove(a, n);
      MultisetRemove(b, i);
      assert a[..n] + a[n + 1..] == a[..n];
      SumRemove(a, n);
      SumPermutation(a[..n], b[..i] + b[i + 1..]);
      SumRemove(b, i);
    }
  }

  /** The stocks dictionary of a portfolio is well formed: every ticker
      maps to a well-formed stock of that ticker, whose history `owners`
      attributes to that ticker (so no two tickers share a history) and has
      recorded the transactions `ledger` lists for the ticker. */
  ghost predicate Holds(stocks: Dict<Stock>, owners: map<TransactionHistory, string>,
                        ledger: map<string, seq<Transaction>>)
    reads owners.Keys
  {
    && stocks.Valid()
    && ledger.Keys == stocks.entries.Keys
    && (forall t :: t in stocks.entries ==>
          && stocks.entries[t].ticker == t
          && stocks.entries[t].transactionHistory in owners
          && owners[stocks.entries[t].transactionHistory] == t
          && stocks.entries[t].transactionHistory.log == ledger[t])
    && (forall t {:trigger stocks.entries[t].Valid()} :: t in stocks.entries ==> stocks.entries[t].Valid())
  }

  /** Adding a stock of a new ticker, with a history of its own that has
      recorded nothing, keeps the dictionary well formed. */
  lemma HoldsPut(stocks: Dict<Stock>, owners: map<TransactionHistory, string>,
                 ledger: map<string, seq<Transaction>>, ticker: string, stock: Stock)
    requires Holds(stocks, owners, ledger) && ticker !in stocks.entries
    requires stock.ticker == ticker && stock.Valid() && stock.transactionHistory !in owners
    requires stock.transactionHistory.log == []
    ensures Holds(stocks.Put(ticker, stock), owners[stock.transactionHistory := ticker], ledger[ticker := []])
  {
    var after := stocks.Put(ticker, stock);
    assert after.entries == stocks.entries[ticker := stock];
    var owners' := owners[stock.transactionHistory := ticker];
    var ledger' := ledger[ticker := []];
    assert ledger'.Keys == after.entries.Keys;
  }

  class Portfolio {
    var stocks: Dict<Stock>
    /** The transaction history of each stock held, and its ticker. */
    ghost var owners: map<TransactionHistory, string>
    /** The transactions recorded for each ticker, in call order. */
    ghost var ledger: map<string, seq<Transaction>>

    ghost predicate Valid()
      reads this, owners.Keys
    {
      Holds(stocks, owners, ledger)
    }

    /** `Portfolio()`: no stocks. */
    constructor ()
      ensures Valid()
      ensures stocks.keys == [] && stocks.entries == map[] && ledger == map[] && owners == map[]
    {
      stocks := Empty();
      owners := map[];
      ledger := map[];
    }

    /** `add_stock(ticker, price_history)`: a known ticker is refused and
        nothing changes; a new ticker gets a stock with an empty
        transaction history, placed after every stock already held, so the
        stock added first stays first. */
    method AddStock(ticker: string, priceHistory: PriceHistory) returns (r: Outcome)
      requires Valid() && priceHistory.Valid()
      modifies this
      ensures Valid()
      ensures r.Fail? <==> ticker in old(stocks.entries)
      ensures r.Fail? ==> r.error == TickerExists(ticker) && unchanged(this)
      ensures r.Pass? ==>
        && stocks.keys == old(stocks.keys) + [ticker]
        && stocks.entries[ticker].priceHistory == priceHistory
        && stocks == old(stocks).Put(ticker, stocks.entries[ticker])
        && ledger == old(ledger)[ticker := []]
        && fresh(stocks.entries[ticker].transactionHistory)
        && owners == old(owners)[stocks.entries[ticker].transactionHistory := ticker]
      ensures old(stocks.keys) != [] ==> stocks.keys[0] == old(stocks.keys)[0]
    {
      if ticker in stocks.entries {
        return Fail(TickerExists(ticker));
      }
      var stock := new Stock(ticker, priceHistory);
      ghost var stocks0, owners0, ledger0 := stocks, owners, ledger;
      stocks := stocks.Put(ticker, stock);
      owners := owners[stock.transactionHistory := ticker];
      ledger := ledger[ticker := []];
      HoldsPut(stocks0, owners0, ledger0, ticker, stock);
      r := Pass;
    }

    /** `add_transaction(ticker, date, amount)`: an unknown ticker is
        refused and nothing changes; otherwise the transaction is appended
        to that ticker's history and no other history changes. */
    method AddTransaction(ticker: string, date: string, amount: real) returns (r: Outcome)
      requires Valid()
      modifies this, owners.Keys
      ensures Valid() && stocks == old(stocks) && owners == old(owners)
      ensures r.Fail? <==> ticker !in stocks.entries
      ensures r.Fail? ==> r.error == TickerNotFound(ticker) && unchanged(this) && unchanged(owners.Keys)
      ensures r.Pass? ==> ledger == old(ledger)[ticker := old(ledger)[ticker] + [Transaction(date, amount)]]
      ensures r.Pass? ==> forall h :: h in owners && owners[h] != ticker ==> unchanged(h)
    {
      if ticker !in stocks.entries {
        return Fail(TickerNotFound(ticker));
      }
      var stock := stocks.entries[ticker];
      assert stock.Valid();
      stock.AddTransaction(date, amount);
      ledger := ledger[ticker := ledger[ticker] + [Transaction(date, amount)]];
      r := Pass;
      forall t | t in stocks.entries
        ensures stocks.entries[t].Valid()
        ensures stocks.entries[t].transactionHistory.log == ledger[t]
      {
        if t != ticker {
          assert old(stocks.entries[t].Valid());
          assert unchanged(stocks.entries[t].transactionHistory);
        }
      }
    }

    /** Every stock held can be valued, and its history is one of `owners`. */
    lemma HoldingsReady()
      requires Valid()
      ensures forall s :: s in stocks.Values() ==> s.Ready() && s.transactionHistory in owners
    {
      var vs := stocks.Values();
      forall s | s in vs ensures s.Ready() && s.transactionHistory in owners {
        var i :| 0 <= i < |vs| && vs[i] == s;
        assert s == stocks.entries[stocks.keys[i]];
        assert stocks.entries[stocks.keys[i]].Valid();
      }
    }

    /** `portfolio_value(date)`: zero without stocks, otherwise the sum of
        the values of the stocks in insertion order.  `PortfolioValueOk`
        and `PortfolioValueFirstError` state it in terms of the stocks held. */
    function PortfolioValue(date: Option<string>): (r: Result<real>)
      reads this, owners.Keys
      requires Valid()
      ensures stocks.entries == map[] ==> r == Ok(0.0)
    {
      if stocks.keys == [] then Ok(0.0)
      else
        HoldingsReady();
        Sum(Valuations(stocks.Values(), date))
    }

    /** The first stock in insertion order: `next(iter(self.stocks.values()))`. */
    function FirstStock(): (s: Stock)
      reads this
      requires stocks.Valid() && stocks.keys != []
      ensures s == stocks.Values()[0]
    {
      stocks.entries[stocks.keys[0]]
    }

    /** The dates `profit` and `annualized_return` value the portfolio at,
        with defaults from the price dates of the first stock added; an
        empty portfolio has no first stock. */
    function Window(start: Option<string>, end: Option<string>): (r: Result<(string, string)>)
      reads this, owners.Keys
      requires Valid()
      ensures stocks.keys == [] ==> r == Err(EmptyPortfolio)
      ensures r.Err? ==> r.error == EmptyPortfolio || r.error == NoPriceDates
    {
      if stocks.keys == [] then Err(EmptyPortfolio)
      else
        assert FirstStock().Valid();
        Defaults(FirstStock().priceHistory.AvailableDates(), start, end)
    }

    /** `profit(start, end)`: the value at the end date minus the value at
        the start date; the end date is valued first. */
    function Profit(start: Option<string>, end: Option<string>): (r: Result<real>)
      reads this, owners.Keys
      requires Valid()
      ensures stocks.keys == [] ==> r == Err(EmptyPortfolio)
    {
      match Window(start, end)
      case Err(e) => Err(e)
      case Ok((s, e)) =>
        match PortfolioValue(Some(e))
        case Err(err) => Err(err)
        case Ok(endValue) =>
          match PortfolioValue(Some(s))
          case Err(err) => Err(err)
          case Ok(startValue) => Ok(endValue - startValue)
    }

    /** The part of `annualized_return(start, end)` before the calendar
        arithmetic: the window, the start value, then the end value, and a
        refusal of a zero start value. */
    function ReturnBase(start: Option<string>, end: Option<string>): (r: Result<Growth>)
      reads this, owners.Keys
      requires Valid()
      ensures r.Ok? ==> r.value.startValue != 0.0
      ensures stocks.keys == [] ==> r == Err(EmptyPortfolio)
    {
      match Window(start, end)
      case Err(e) => Err(e)
      case Ok((s, e)) =>
        match PortfolioValue(Some(s))
        case Err(err) => Err(err)
        case Ok(startValue) =>
          match PortfolioValue(Some(e))
          case Err(err) => Err(err)
          case Ok(endValue) =>
            if startValue == 0.0 then Err(ZeroStartValue)
            else Ok(Growth(s, e, startValue, endValue))
    }
  }

  /** `start_date or all_dates[0]`, then `end_date or all_dates[-1]`:
      a missing (or empty) date is taken from the ends of `dates`, and
      indexing an empty list fails. */
  function Defaults(dates: seq<string>, start: Option<string>, end: Option<string>): (r: Result<(string, string)>)
    ensures r.Ok? <==> (Given(start) || dates != []) && (Given(end) || dates != [])
    ensures r.Err? ==> r.error == NoPriceDates
    ensures r.Ok? && Given(start) ==> r.value.0 == start.value
    ensures r.Ok? && Given(end) ==> r.value.1 == end.value
  {
    if !Given(start) && dates == [] then Err(NoPriceDates)
    else
      var s := if Given(start) then start.value else dates[0];
      if !Given(end) && dates == [] then Err(NoPriceDates)
      else
        var e := if Given(end) then end.value else dates[|dates| - 1];
        Ok((s, e))
  }

  /** The inputs of the annualized-return formula. */
  datatype Growth = Growth(startDate: string, endDate: string, startValue: real, endValue: real)

  /** A portfolio can be valued at a date exactly when every stock it
      holds can. */
  lemma PortfolioValueOk(p: Portfolio, holdings: seq<Stock>, date: Option<string>)
    requires p.Valid() && holdings == p.stocks.Values()
    ensures forall s :: s in holdings ==> s.Ready()
    ensures p.PortfolioValue(date).Ok? <==> forall i :: 0 <= i < |holdings| ==> holdings[i].Value(date).Ok?
  {
    p.HoldingsReady();
    var vals := Valuations(holdings, date);
    ValuationsAt(holdings, date);
    SumSpec(vals);
    assert p.PortfolioValue(date) == Sum(vals) by {
      if p.stocks.keys == [] {
        assert vals == [];
      }
    }
  }

  /** When a portfolio cannot be valued, the error is that of the first
      stock, in insertion order, that cannot be valued. */
  lemma PortfolioValueFirstError(p: Portfolio, holdings: seq<Stock>, date: Option<string>)
    requires p.Valid() && holdings == p.stocks.Values()
    ensures forall s :: s in holdings ==> s.Ready()
    ensures p.PortfolioValue(date).Err? ==>
      exists i :: (0 <= i < |holdings| && holdings[i].Value(date) == Err(p.PortfolioValue(date).error)
                   && forall j :: 0 <= j < i ==> holdings[j].Value(date).Ok?)
  {
    p.HoldingsReady();
    var vals := Valuations(holdings, date);
    ValuationsAt(holdings, date);
    SumSpec(vals);
    assert p.PortfolioValue(date) == Sum(vals) by {
      if p.stocks.keys == [] {
        assert vals == [];
      }
    }
  }

  /** The window's dates: a date given is kept as given; a missing start is
      the earliest and a missing end the latest price date of the first
      stock added, and the window fails only when such a default is needed
      and that stock has no prices. */
  lemma WindowDates(p: Portfolio, start: Option<string>, end: Option<string>)
    requires p.Valid() && p.stocks.keys != []
    ensures var w, prices := p.Window(start, end), p.FirstStock().priceHistory.prices.entries;
      && (w.Ok? <==> (Given(start) || prices != map[]) && (Given(end) || prices != map[]))
      && (w.Err? ==> w.error == NoPriceDates)
      && (w.Ok? && Given(start) ==> w.value.0 == start.value)
      && (w.Ok? && !Given(start) ==> w.value.0 in prices && forall k :: k in prices ==> AtMost(w.value.0, k))
      && (w.Ok? && Given(end) ==> w.value.1 == end.value)
      && (w.Ok? && !Given(end) ==> IsLatest(w.value.1, prices.Keys))
  {
    var first := p.FirstStock();
    assert p.stocks.entries[p.stocks.keys[0]].Valid();
    var dates := first.priceHistory.AvailableDates();
    var prices := first.priceHistory.prices.entries;
    if dates != [] {
      assert dates[0] in dates && dates[|dates| - 1] in dates;
      forall k | k in prices ensures AtMost(dates[0], k) && AtMost(k, dates[|dates| - 1]) {
        assert k in dates;
        var j :| 0 <= j < |dates| && dates[j] == k;
      }
    }
  }

  /** Profit over a single date is zero whenever the portfolio can be
      valued at that date. */
  lemma ProfitSameDate(p: Portfolio, d: string)
    requires p.Valid() && p.stocks.keys != [] && d != ""
    ensures p.PortfolioValue(Some(d)).Ok? ==> p.Profit(Some(d), Some(d)) == Ok(0.0)
    ensures p.PortfolioValue(Some(d)).Err? ==> p.Profit(Some(d), Some(d)) == p.PortfolioValue(Some(d))
  {
  }

  /** With both dates given, the profit is the end value minus the start
      value, and fails with the end date's error before the start date's. */
  lemma ProfitGiven(p: Portfolio, a: string, b: string)
    requires p.Valid() && p.stocks.keys != [] && a != "" && b != ""
    ensures var va, vb := p.PortfolioValue(Some(a)), p.PortfolioValue(Some(b));
      p.Profit(Some(a), Some(b)) == if vb.Err? then vb else if va.Err? then va else Ok(vb.value - va.value)
  {
    assert p.stocks.keys != [];
  }

  /** With both dates given, the return's inputs are the two values,
      checked start first, and a zero start value is refused. */
  lemma ReturnBaseGiven(p: Portfolio, a: string, b: string)
    requires p.Valid() && p.stocks.keys != [] && a != "" && b != ""
    ensures var va, vb := p.PortfolioValue(Some(a)), p.PortfolioValue(Some(b));
      p.ReturnBase(Some(a), Some(b)) ==
        if va.Err? then Err(va.error)
        else if vb.Err? then Err(vb.error)
        else if va.value == 0.0 then Err(ZeroStartValue)
        else Ok(Growth(a, b, va.value, vb.value))
  {
    ReturnBaseSteps(p, Some(a), Some(b));
    WindowDates(p, Some(a), Some(b));
  }

  /** Swapping the dates negates the profit. */
  lemma ProfitAntisymmetric(p: Portfolio, a: string, b: string)
    requires p.Valid() && p.stocks.keys != [] && a != "" && b != ""
    ensures p.Profit(Some(a), Some(b)).Ok? <==> p.Profit(Some(b), Some(a)).Ok?
    ensures p.Profit(Some(a), Some(b)).Ok? ==>
      p.Profit(Some(a), Some(b)).value == -p.Profit(Some(b), Some(a)).value
  {
    ProfitGiven(p, a, b);
    ProfitGiven(p, b, a);
  }

  /** Profits over consecutive periods add up to the profit over the whole
      period. */
  lemma ProfitChain(p: Portfolio, a: string, b: string, c: string)
    requires p.Valid() && p.stocks.keys != [] && a != "" && b != "" && c != ""
    requires p.Profit(Some(a), Some(b)).Ok? && p.Profit(Some(b), Some(c)).Ok?
    ensures p.Profit(Some(a), Some(c)).Ok?
    ensures p.Profit(Some(a), Some(c)).value ==
      p.Profit(Some(a), Some(b)).value + p.Profit(Some(b), Some(c)).value
  {
    ProfitGiven(p, a, b);
    ProfitGiven(p, b, c);
    ProfitGiven(p, a, c);
  }

  /** `profit` values the end date first and `annualized_return` the start
      date first, so when neither date can be valued they report different
      errors. */
  lemma ValuationOrder(p: Portfolio, start: Option<string>, end: Option<string>)
    requires p.Valid()
    ensures var w := p.Window(start, end);
      w.Ok? && p.PortfolioValue(Some(w.value.0)).Err? && p.PortfolioValue(Some(w.value.1)).Err? ==>
        && p.Profit(start, end) == p.PortfolioValue(Some(w.value.1))
        && p.ReturnBase(start, end).Err?
        && p.ReturnBase(start, end).error == p.PortfolioValue(Some(w.value.0)).error
  {
  }

  /** The steps of `annualized_return` before the calendar arithmetic, in
      their order: the window, the start value, the end value, the guard. */
  lemma ReturnBaseSteps(p: Portfolio, start: Option<string>, end: Option<string>)
    requires p.Valid()
    ensures var w := p.Window(start, end);
      w.Err? ==> p.ReturnBase(start, end) == Err(w.error)
    ensures var w := p.Window(start, end);
      w.Ok? ==>
        var vs, ve := p.PortfolioValue(Some(w.value.0)), p.PortfolioValue(Some(w.value.1));
        p.ReturnBase(start, end) ==
          if vs.Err? then Err(vs.error)
          else if ve.Err? then Err(ve.error)
          else if vs.value == 0.0 then Err(ZeroStartValue)
          else Ok(Growth(w.value.0, w.value.1, vs.value, ve.value))
  {
  }

  /** The steps of `profit`, in their order: the window, the end value,
      the start value. */
  lemma ProfitSteps(p: Portfolio, start: Option<string>, end: Option<string>)
    requires p.Valid()
    ensures var w := p.Window(start, end);
      w.Err? ==> p.Profit(start, end) == Err(w.error)
    ensures var w := p.Window(start, end);
      w.Ok? ==>
        var vs, ve := p.PortfolioValue(Some(w.value.0)), p.PortfolioValue(Some(w.value.1));
        p.Profit(start, end) ==
          if ve.Err? then ve else if vs.Err? then vs else Ok(ve.value - vs.value)
  {
  }

  /** `annualized_return` grows from the same two valuations whose
      difference is the profit. */
  lemma ReturnBaseProfit(p: Portfolio, start: Option<string>, end: Option<string>)
    requires p.Valid()
    ensures p.ReturnBase(start, end).Ok? ==>
      var g := p.ReturnBase(start, end).value;
      p.Profit(start, end) == Ok(g.endValue - g.startValue)
  {
    ReturnBaseSteps(p, start, end);
    var w := p.Window(start, end);
    if w.Ok? {
      ProfitSteps(p, start, end);
      GrowthDifference(w.value, p.PortfolioValue(Some(w.value.0)), p.PortfolioValue(Some(w.value.1)),
                       p.ReturnBase(start, end), p.Profit(start, end));
    }
  }

  /** The last steps of `profit` and `annualized_return` on the same two
      valuations agree. */
  lemma GrowthDifference(dates: (string, string), vs: Result<real>, ve: Result<real>,
                         growth: Result<Growth>, profit: Result<real>)
    requires growth ==
      if vs.Err? then Err(vs.error)
      else if ve.Err? then Err(ve.error)
      else if vs.value == 0.0 then Err(ZeroStartValue)
      else Ok(Growth(dates.0, dates.1, vs.value, ve.value))
    requires profit == if ve.Err? then ve else if vs.Err? then vs else Ok(ve.value - vs.value)
    ensures growth.Ok? ==> profit == Ok(growth.value.endValue - growth.value.startValue)
  {
  }

  /** Conversely, whenever the profit exists and the start value is not
      zero, `annualized_return` has its two valuations. */
  lemma ProfitReturnBase(p: Portfolio, start: Option<string>, end: Option<string>)
    requires p.Valid()
    ensures p.Profit(start, end).Ok? && p.Window(start, end).Ok?
            && p.PortfolioValue(Some(p.Window(start, end).value.0)) != Ok(0.0) ==>
      p.ReturnBase(start, end).Ok?
  {
    ReturnBaseSteps(p, start, end);
    ProfitSteps(p, start, end);
  }

  /** A portfolio fails to value only as one of its stocks does. */
  lemma PortfolioValueErrors(p: Portfolio, date: Option<string>)
    requires p.Valid()
    ensures p.PortfolioValue(date).Err? ==>
      var e := p.PortfolioValue(date).error;
      e == NoPriceDates || e.DateNotFound? || e.PriceNotFound?
  {
    PortfolioValueFirstError(p, p.stocks.Values(), date);
  }

  /** The zero-start guard: `annualized_return` refuses to grow from a zero
      base exactly when both dates can be valued and the start value is
      zero. */
  lemma ZeroStartGuard(p: Portfolio, start: Option<string>, end: Option<string>)
    requires p.Valid()
    ensures var w := p.Window(start, end);
      p.ReturnBase(start, end) == Err(ZeroStartValue) <==>
        && w.Ok?
        && p.PortfolioValue(Some(w.value.0)) == Ok(0.0)
        && p.PortfolioValue(Some(w.value.1)).Ok?
  {
    ReturnBaseSteps(p, start, end);
    var w := p.Window(start, end);
    if w.Ok? {
      PortfolioValueErrors(p, Some(w.value.0));
      PortfolioValueErrors(p, Some(w.value.1));
    }
  }

  /** Adding a stock that has no transactions leaves the sum of the
      valuations unchanged at any date that stock has a price for. */
  lemma UntradedStockAddsNothing(holdings: seq<Stock>, s: Stock, date: string)
    requires forall i :: 0 <= i < |holdings| ==> holdings[i].Ready()
    requires s.Valid() && s.transactionHistory.log == []
    requires date != "" && date in s.priceHistory.prices.entries
    ensures forall i :: 0 <= i < |holdings + [s]| ==> (holdings + [s])[i].Ready()
    ensures Sum(Valuations(holdings + [s], Some(date))) == Sum(Valuations(holdings, Some(date)))
  {
    var all := holdings + [s];
    assert all[..|all| - 1] == holdings;
    UntradedValue(s, date);
  }
}
