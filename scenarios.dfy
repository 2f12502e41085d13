/** The ledger's own unit scenarios, stated on the model: each method
    replays one scenario and asserts the results the scenario expects. */
module Scenarios {
  import opened Outcomes
  import opened Lex
  import opened Sorting
  import opened Dicts
  import opened PriceHistories
  import opened TransactionHistories
  import opened Stocks
  import opened Portfolios

  /** Buying 10, buying 5 and selling 3 on three consecutive days: the
      holding on the second day is 15, and without a date it is 12. */
  method TransactionHistoryScenario() returns (h: TransactionHistory)
    ensures h.dailyAccumulated.Valid()
    ensures h.EffectiveShares(Some("2024-01-02")) == Ok(15.0)
    ensures h.EffectiveShares(None) == Ok(12.0)
  {
    var d1, d2, d3 := "2024-01-01", "2024-01-02", "2024-01-03";
    assert d1[9] != d2[9] && d1[9] != d3[9] && d2[9] != d3[9];
    h := RecordThree(Transaction(d1, 10.0), Transaction(d2, 5.0), Transaction(d3, -3.0));
    EffectiveSharesLatest(h);
  }

  /** A new history that records three transactions on three different
      dates holds one key per date, in call order, each with the running
      total reached on it. */
  method RecordThree(t1: Transaction, t2: Transaction, t3: Transaction) returns (h: TransactionHistory)
    requires t1.date != t2.date && t1.date != t3.date && t2.date != t3.date
    ensures h.dailyAccumulated.Valid()
    ensures h.dailyAccumulated.keys == [t1.date, t2.date, t3.date]
    ensures h.dailyAccumulated.entries[t1.date] == t1.amount
    ensures h.dailyAccumulated.entries[t2.date] == t1.amount + t2.amount
    ensures h.dailyAccumulated.entries[t3.date] == t1.amount + t2.amount + t3.amount
    ensures h.lastTotal == t1.amount + t2.amount + t3.amount
  {
    h := new TransactionHistory();
    h.AddTransaction(t1.date, t1.amount);
    h.AddTransaction(t2.date, t2.amount);
    h.AddTransaction(t3.date, t3.amount);
  }

  /** A second transaction on an earlier date keeps that date in its first
      dictionary position: without a date the lookup answers with the
      later date's 15, while the running total is 12. */
  method RewrittenDateScenario() returns (h: TransactionHistory)
    ensures h.Valid()
    ensures h.EffectiveShares(None) == Ok(15.0)
    ensures h.lastTotal == 12.0
  {
    h := new TransactionHistory();
    h.AddTransaction("2024-01-01", 10.0);
    h.AddTransaction("2024-01-02", 5.0);
    h.AddTransaction("2024-01-01", -3.0);
    assert h.dailyAccumulated.keys == ["2024-01-01", "2024-01-02"];
    EffectiveSharesLatest(h);
  }

  /** An empty history holds zero shares at any date, but once a later
      transaction is recorded the same date precedes every recorded date
      and its lookup fails: a later transaction changes an earlier
      answer. */
  method EmptyHistoryLookahead() returns (before: Result<real>, h: TransactionHistory)
    ensures h.Valid()
    ensures before == Ok(0.0)
    ensures h.EffectiveShares(Some("2024-01-01")) == Err(DateNotFound("2024-01-01"))
  {
    h := new TransactionHistory();
    before := h.EffectiveShares(Some("2024-01-01"));
    h.AddTransaction("2024-01-02", 5.0);
    assert h.log == [Transaction("2024-01-02", 5.0)];
    ChronologicalTooEarly(h, "2024-01-01");
  }

  /** Four consecutive daily prices, as the price-history scenario sets
      them up. */
  function FourDays(): (h: PriceHistory)
    ensures h.Valid()
  {
    var days := ["2024-01-01", "2024-01-02", "2024-01-03", "2024-01-04"];
    var d := Dict(days, map[days[0] := 150.0, days[1] := 152.0, days[2] := 155.0, days[3] := 157.0]);
    SamePrefixAscending(days, 9);
    assert d.Valid() by {
      forall i, j | 0 <= i < j < |d.keys| ensures d.KeyAt(i) != d.KeyAt(j) {
        assert d.KeyAt(i) == days[i];
      }
    }
    PriceHistory(d)
  }

  /** Exact dates are found; a later date is not. */
  lemma PriceLookupScenario()
    ensures FourDays().GetPrice(Some("2024-01-01")) == Ok(150.0)
    ensures FourDays().GetPrice(Some("2024-01-04")) == Ok(157.0)
    ensures FourDays().GetPrice(Some("2024-01-05")) == Err(PriceNotFound("2024-01-05"))
  {
    var h := FourDays();
    var later := "2024-01-05";
    assert forall i :: 0 <= i < 4 ==> h.prices.keys[i][9] != later[9];
  }

  /** The available dates are the four days in order. */
  lemma AvailableDatesScenario()
    ensures FourDays().AvailableDates() == ["2024-01-01", "2024-01-02", "2024-01-03", "2024-01-04"]
  {
    var h := FourDays();
    SamePrefixAscending(h.prices.keys, 9);
    AscendingUnique(h.AvailableDates(), h.prices.keys);
  }

  /** Three consecutive daily prices, as the stock scenario sets them up. */
  function ThreeDays(): (h: PriceHistory)
    ensures h.Valid()
  {
    var days := ["2024-01-01", "2024-01-02", "2024-01-03"];
    var d := Dict(days, map[days[0] := 100.0, days[1] := 105.0, days[2] := 110.0]);
    SamePrefixAscending(days, 9);
    assert d.Valid() by {
      forall i, j | 0 <= i < j < |d.keys| ensures d.KeyAt(i) != d.KeyAt(j) {
        assert d.KeyAt(i) == days[i];
      }
    }
    PriceHistory(d)
  }

  /** A stock priced 100, 105 and 110 on three consecutive days, bought
      20, bought 5 and sold 3 on those days. */
  method NewStockScenario() returns (s: Stock)
    ensures s.Ready() && s.priceHistory == ThreeDays()
    ensures s.transactionHistory.dailyAccumulated.keys == ["2024-01-01", "2024-01-02", "2024-01-03"]
    ensures s.transactionHistory.dailyAccumulated.entries["2024-01-03"] == 22.0
  {
    s := new Stock("NVDA", ThreeDays());
    s.AddTransaction("2024-01-01", 20.0);
    s.AddTransaction("2024-01-02", 5.0);
    s.AddTransaction("2024-01-03", -3.0);
  }

  /** On the third day the stock holds 22 shares worth 2420. */
  method StockScenario() returns (s: Stock)
    ensures s.Ready()
    ensures s.priceHistory.GetPrice(Some("2024-01-01")) == Ok(100.0)
    ensures s.priceHistory.GetPrice(Some("2024-01-03")) == Ok(110.0)
    ensures s.transactionHistory.EffectiveShares(Some("2024-01-03")) == Ok(22.0)
    ensures s.Value(Some("2024-01-03")) == Ok(2420.0)
  {
    s := NewStockScenario();
    assert s.transactionHistory.EffectiveShares(Some("2024-01-03")) == Ok(22.0);
    ValueAt(s, "2024-01-03");
  }

  /** The five New Year's days of the portfolio scenario. */
  function Years(): seq<string> {
    ["2019-01-01", "2020-01-01", "2021-01-01", "2022-01-01", "2023-01-01"]
  }

  /** One price per New Year's day. */
  function AnnualPrices(vs: seq<real>): (h: PriceHistory)
    requires |vs| == 5
    ensures h.Valid() && h.prices.keys == Years()
    ensures forall i :: 0 <= i < 5 ==> h.prices.entries[Years()[i]] == vs[i]
  {
    DistinctAt(Years(), 3);
    PriceHistory(FiveEntries(Years(), vs))
  }

  /** A dictionary of five distinct keys, inserted in order. */
  function FiveEntries(ks: seq<string>, vs: seq<real>): (d: Dict<real>)
    requires |ks| == 5 && |vs| == 5 && Distinct(ks)
    ensures d.Valid() && d.keys == ks
    ensures forall i :: 0 <= i < 5 ==> d.entries[ks[i]] == vs[i]
  {
    var d := Dict(ks, map[ks[0] := vs[0], ks[1] := vs[1], ks[2] := vs[2], ks[3] := vs[3], ks[4] := vs[4]]);
    assert d.Valid() by {
      forall i, j | 0 <= i < j < |d.keys| ensures d.KeyAt(i) != d.KeyAt(j) {
        assert d.KeyAt(i) == ks[i];
      }
    }
    d
  }

  function AppleLog(): seq<Transaction> {
    [Transaction("2019-01-01", 10.0), Transaction("2021-01-01", 5.0), Transaction("2022-01-01", -2.0)]
  }

  function NvidiaLog(): seq<Transaction> {
    [Transaction("2019-01-01", 20.0), Transaction("2020-01-01", 10.0), Transaction("2023-01-01", -5.0)]
  }

  /** One stock, not traded yet. */
  method OneStockPortfolio(apple: PriceHistory) returns (p: Portfolio)
    requires apple.Valid()
    ensures p.Valid() && fresh(p) && fresh(p.owners.Keys)
    ensures p.stocks.keys == ["AAPL"]
    ensures p.stocks.entries["AAPL"].priceHistory == apple
    ensures p.ledger["AAPL"] == []
  {
    p := new Portfolio();
    var r := p.AddStock("AAPL", apple);
  }

  /** Two stocks, not traded yet. */
  method NewPortfolioScenario(apple: PriceHistory, nvidia: PriceHistory) returns (p: Portfolio)
    requires apple.Valid() && nvidia.Valid()
    ensures p.Valid() && fresh(p) && fresh(p.owners.Keys)
    ensures p.stocks.keys == ["AAPL", "NVDA"]
    ensures p.stocks.entries["AAPL"].priceHistory == apple
    ensures p.stocks.entries["NVDA"].priceHistory == nvidia
    ensures p.ledger["AAPL"] == [] && p.ledger["NVDA"] == []
  {
    p := OneStockPortfolio(apple);
    var r := p.AddStock("NVDA", nvidia);
  }

  /** Each stock bought twice and sold once. */
  method TradedPortfolioScenario(apple: PriceHistory, nvidia: PriceHistory) returns (p: Portfolio)
    requires apple.Valid() && nvidia.Valid()
    ensures p.Valid() && p.stocks.keys == ["AAPL", "NVDA"]
    ensures "AAPL" in p.stocks.entries && "NVDA" in p.stocks.entries
    ensures p.stocks.entries["AAPL"].priceHistory == apple
    ensures p.stocks.entries["NVDA"].priceHistory == nvidia
    ensures TradedAs(p.ledger["AAPL"], AppleLog()) && TradedAs(p.ledger["NVDA"], NvidiaLog())
  {
    p := NewPortfolioScenario(apple, nvidia);
    Trade(p, "AAPL", AppleLog());
    Trade(p, "NVDA", NvidiaLog());
  }

  /** The scenario's figures for the two stocks traded as above. */
  method PortfolioScenario() {
    var p := TradedPortfolioScenario(AnnualPrices([150.0, 160.0, 170.0, 180.0, 190.0]),
                                     AnnualPrices([100.0, 110.0, 120.0, 130.0, 140.0]));
    var a, n := p.stocks.entries["AAPL"], p.stocks.entries["NVDA"];
    assert p.stocks.Values() == [a, n];
    assert a.Valid() && n.Valid();
    PortfolioFigures(p, a, n);
  }

  /** 3500 on the first day, 5970 on the last, a profit of 2470 between
      them, and a growth from 3500 to 5970 over those two days for the
      annualised return. */
  lemma PortfolioFigures(p: Portfolio, a: Stock, n: Stock)
    requires p.Valid() && p.stocks.Values() == [a, n] && a.Valid() && n.Valid()
    requires a.priceHistory == AnnualPrices([150.0, 160.0, 170.0, 180.0, 190.0])
    requires n.priceHistory == AnnualPrices([100.0, 110.0, 120.0, 130.0, 140.0])
    requires TradedAs(a.transactionHistory.log, AppleLog()) && TradedAs(n.transactionHistory.log, NvidiaLog())
    ensures p.PortfolioValue(Some(Years()[0])) == Ok(3500.0)
    ensures p.PortfolioValue(Some(Years()[4])) == Ok(5970.0)
    ensures p.Profit(Some(Years()[0]), Some(Years()[4])) == Ok(2470.0)
    ensures p.ReturnBase(Some(Years()[0]), Some(Years()[4])) == Ok(Growth(Years()[0], Years()[4], 3500.0, 5970.0))
  {
    var ys := Years();
    AppleValues(a);
    NvidiaValues(n);
    TwoStockValue(p, a, n, Some(ys[0]));
    SumTwo(a.Value(Some(ys[0])), n.Value(Some(ys[0])));
    TwoStockValue(p, a, n, Some(ys[4]));
    SumTwo(a.Value(Some(ys[4])), n.Value(Some(ys[4])));
    ProfitGiven(p, ys[0], ys[4]);
    ReturnBaseGiven(p, ys[0], ys[4]);
  }

  /** A portfolio of two stocks is worth the sum of their values. */
  lemma TwoStockValue(p: Portfolio, a: Stock, b: Stock, date: Option<string>)
    requires p.Valid() && p.stocks.Values() == [a, b] && a.Ready() && b.Ready()
    ensures p.PortfolioValue(date) == Sum([a.Value(date), b.Value(date)])
  {
    var vals := Valuations([a, b], date);
    ValuationsAt([a, b], date);
    assert p.PortfolioValue(date) == Sum(vals) by {
      assert p.stocks.keys != [];
    }
    assert vals == [a.Value(date), b.Value(date)];
  }

  /** Two successful valuations sum to their total. */
  lemma SumTwo(x: Result<real>, y: Result<real>)
    requires x.Ok? && y.Ok?
    ensures Sum([x, y]) == Ok(x.value + y.value)
  {
    assert [x, y][..1] == [x] && [x][..0] == [];
  }

  /** Records the transactions of `log` for `ticker`, in order. */
  method Trade(p: Portfolio, ticker: string, log: seq<Transaction>)
    requires p.Valid() && ticker in p.stocks.entries
    modifies p, p.owners.Keys
    ensures p.Valid() && p.stocks == old(p.stocks) && p.owners == old(p.owners)
    ensures p.ledger == old(p.ledger)[ticker := old(p.ledger)[ticker] + log]
  {
    ghost var before := p.ledger[ticker];
    assert before + log[..0] == before;
    assert p.ledger == p.ledger[ticker := before];
    for i := 0 to |log|
      invariant p.Valid() && p.stocks == old(p.stocks) && p.owners == old(p.owners)
      invariant p.ledger == old(p.ledger)[ticker := before + log[..i]]
    {
      var r := p.AddTransaction(ticker, log[i].date, log[i].amount);
      assert r.Pass?;
      assert before + log[..i + 1] == (before + log[..i]) + [log[i]];
    }
    assert log[..|log|] == log;
  }

  /** The New Year's days are in ascending order. */
  lemma YearsAscending()
    ensures StrictlyAscending(Years())
  {
    var ys := Years();
    BelowAt(ys[0], ys[1], 2);
    BelowAt(ys[1], ys[2], 3);
    BelowAt(ys[2], ys[3], 3);
    BelowAt(ys[3], ys[4], 3);
    forall i, j | 0 <= i < j < |ys| ensures Below(ys[i], ys[j]) {
      AdjacentBelow(ys, i, j);
    }
  }

  /** Apple holds 10 shares on the first day and 13 on the last. */
  lemma AppleShares(h: TransactionHistory)
    requires h.Valid() && TradedAs(h.log, AppleLog())
    ensures h.EffectiveShares(Some(Years()[0])) == Ok(10.0)
    ensures h.EffectiveShares(Some(Years()[4])) == Ok(13.0)
  {
    var ys, log := Years(), h.log;
    YearsAscending();
    assert log[0].date == ys[0] && log[1].date == ys[2] && log[2].date == ys[3];
    ThreeChronological(log);
    BelowAsymmetric(ys[0], ys[2]);
    BelowAsymmetric(ys[0], ys[3]);
    assert !AtMost(ys[2], ys[0]) && !AtMost(ys[3], ys[0]);
    assert AtMost(ys[0], ys[4]) && AtMost(ys[2], ys[4]) && AtMost(ys[3], ys[4]);
    ThreeTrades(log, ys[0]);
    ThreeTrades(log, ys[4]);
    ChronologicalSharesAsOf(h, ys[0]);
    ChronologicalSharesAsOf(h, ys[4]);
  }

  /** Nvidia holds 20 shares on the first day and 25 on the last. */
  lemma NvidiaShares(h: TransactionHistory)
    requires h.Valid() && TradedAs(h.log, NvidiaLog())
    ensures h.EffectiveShares(Some(Years()[0])) == Ok(20.0)
    ensures h.EffectiveShares(Some(Years()[4])) == Ok(25.0)
  {
    var ys, log := Years(), h.log;
    YearsAscending();
    assert log[0].date == ys[0] && log[1].date == ys[1] && log[2].date == ys[4];
    ThreeChronological(log);
    BelowAsymmetric(ys[0], ys[1]);
    BelowAsymmetric(ys[0], ys[4]);
    assert !AtMost(ys[1], ys[0]) && !AtMost(ys[4], ys[0]);
    assert AtMost(ys[0], ys[4]) && AtMost(ys[1], ys[4]);
    ThreeTrades(log, ys[0]);
    ThreeTrades(log, ys[4]);
    ChronologicalSharesAsOf(h, ys[0]);
    ChronologicalSharesAsOf(h, ys[4]);
  }

  /** Apple is worth 10 * 150 on the first day and 13 * 190 on the last. */
  lemma AppleValues(s: Stock)
    requires s.Valid() && s.priceHistory == AnnualPrices([150.0, 160.0, 170.0, 180.0, 190.0])
    requires TradedAs(s.transactionHistory.log, AppleLog())
    ensures s.Value(Some(Years()[0])) == Ok(1500.0)
    ensures s.Value(Some(Years()[4])) == Ok(2470.0)
  {
    AppleShares(s.transactionHistory);
    ValueAt(s, Years()[0]);
    ValueAt(s, Years()[4]);
  }

  /** Nvidia is worth 20 * 100 on the first day and 25 * 140 on the last. */
  lemma NvidiaValues(s: Stock)
    requires s.Valid() && s.priceHistory == AnnualPrices([100.0, 110.0, 120.0, 130.0, 140.0])
    requires TradedAs(s.transactionHistory.log, NvidiaLog())
    ensures s.Value(Some(Years()[0])) == Ok(2000.0)
    ensures s.Value(Some(Years()[4])) == Ok(3500.0)
  {
    NvidiaShares(s.transactionHistory);
    ValueAt(s, Years()[0]);
    ValueAt(s, Years()[4]);
  }

  /** `log` holds the three transactions of `trades`, element by element. */
  ghost predicate TradedAs(log: seq<Transaction>, trades: seq<Transaction>)
    requires |trades| == 3
  {
    |log| == 3 && log[0] == trades[0] && log[1] == trades[1] && log[2] == trades[2]
  }

  /** Three transactions whose dates never go backwards. */
  lemma ThreeChronological(log: seq<Transaction>)
    requires |log| == 3
    requires AtMost(log[0].date, log[1].date) && AtMost(log[1].date, log[2].date)
    ensures Chronological(log)
  {
    AtMostTransitive(log[0].date, log[1].date, log[2].date);
  }

  /** The shares of three transactions as of `d`. */
  lemma ThreeTrades(log: seq<Transaction>, d: string)
    requires |log| == 3
    ensures AmountUpTo(log, d) ==
      (if AtMost(log[0].date, d) then log[0].amount else 0.0) +
      (if AtMost(log[1].date, d) then log[1].amount else 0.0) +
      (if AtMost(log[2].date, d) then log[2].amount else 0.0)
  {
    var two, one := log[..2], log[..1];
    assert two[..1] == one && two[1] == log[1] && one[..0] == [] && one[0] == log[0];
    assert AmountUpTo(one, d) == if AtMost(log[0].date, d) then log[0].amount else 0.0;
    assert AmountUpTo(two, d) == AmountUpTo(one, d) + if AtMost(log[1].date, d) then log[1].amount else 0.0;
  }

  /** Each string of a sequence is below the next, hence below every later one. */
  lemma {:induction false} AdjacentBelow(s: seq<string>, i: nat, j: nat)
    requires forall k :: 0 <= k < |s| - 1 ==> Below(s[k], s[k + 1])
    requires i < j < |s|
    ensures Below(s[i], s[j])
    decreases j - i
  {
    if i + 1 < j {
      AdjacentBelow(s, i + 1, j);
      BelowTransitive(s[i], s[i + 1], s[j]);
    }
  }

  /** Strings with pairwise different characters at `n` are distinct. */
  lemma DistinctAt(days: seq<string>, n: nat)
    requires forall i :: 0 <= i < |days| ==> n < |days[i]|
    requires forall i, j :: 0 <= i < j < |days| ==> days[i][n] != days[j][n]
    ensures Distinct(days)
  {
  }

  /** Dates that share their first `n` characters are ordered by their
      character at `n`. */
  lemma SamePrefixAscending(days: seq<string>, n: nat)
    requires forall i :: 0 <= i < |days| ==> n < |days[i]|
    requires forall i, j :: 0 <= i < j < |days| ==> days[i][..n] == days[j][..n] && days[i][n] < days[j][n]
    ensures StrictlyAscending(days) && Distinct(days)
  {
    forall i, j | 0 <= i < j < |days| ensures Below(days[i], days[j]) && days[i] != days[j] {
      BelowAt(days[i], days[j], n);
    }
  }
}
