/** `TransactionHistory`: a running total of signed share amounts, and for
    every date the total reached by the last transaction recorded on it.
    Its state is a function of the transactions added so far, in call
    order, which the ghost field `log` keeps. */
module TransactionHistories {
  import opened Outcomes
  import opened Lex
  import opened Sorting
  import opened Dicts

  datatype Transaction = Transaction(date: string, amount: real)

  /** The sum of the amounts, in call order. */
  function Total(log: seq<Transaction>): real {
    if log == [] then 0.0 else Total(log[..|log| - 1]) + log[|log| - 1].amount
  }

  /** `daily_accumulated` after the transactions of `log`, one call at a
      time, starting from an empty dictionary. */
  function Replay(log: seq<Transaction>): (d: Dict<real>)
    ensures d.Valid()
  {
    if log == [] then Empty()
    else Replay(log[..|log| - 1]).Put(log[|log| - 1].date, Total(log))
  }

  /** The recorded date that a lookup of `d` resolves to: the greatest
      recorded date not after `d`. */
  ghost predicate IsFloor(k: string, dates: set<string>, d: string) {
    && k in dates
    && AtMost(k, d)
    && forall k' :: k' in dates && AtMost(k', d) ==> AtMost(k', k)
  }

  class TransactionHistory {
    var dailyAccumulated: Dict<real>
    var lastTotal: real
    /** Every transaction added so far, in call order. */
    ghost var log: seq<Transaction>

    ghost predicate Valid()
      reads this
    {
      dailyAccumulated == Replay(log) && lastTotal == Total(log)
    }

    constructor ()
      ensures Valid() && log == []
      ensures dailyAccumulated == Empty() && lastTotal == 0.0
    {
      dailyAccumulated := Empty();
      lastTotal := 0.0;
      log := [];
    }

    /** `add_transaction(date, amount)`: the running total grows by
        `amount` and becomes the value recorded for `date`, replacing any
        earlier value for that date; no other date changes. */
    method AddTransaction(date: string, amount: real)
      requires Valid()
      modifies this
      ensures Valid()
      ensures log == old(log) + [Transaction(date, amount)]
      ensures lastTotal == old(lastTotal) + amount
      ensures dailyAccumulated == old(dailyAccumulated).Put(date, lastTotal)
    {
      lastTotal := lastTotal + amount;
      dailyAccumulated := dailyAccumulated.Put(date, lastTotal);
      log := log + [Transaction(date, amount)];
      assert log[..|log| - 1] == old(log);
    }

    /** `effective_shares(date)`: zero for an empty history; without a date,
        the value in the last position of the dictionary; with a recorded
        date, its value; otherwise a `bisect_right` over the sorted dates
        finds the greatest date before it, and there is none when every
        recorded date is after it.  `EffectiveSharesLatest` and
        `EffectiveSharesFloor` state what this computes. */
    function EffectiveShares(date: Option<string>): (r: Result<real>)
      reads this
      requires dailyAccumulated.Valid()
      ensures dailyAccumulated.keys == [] ==> r == Ok(0.0)
      ensures r.Err? ==> date.Some? && r.error == DateNotFound(date.value)
    {
      var daily := dailyAccumulated;
      if daily.keys == [] then Ok(0.0)
      else if date.None? then
        var values := daily.Values();
        Ok(values[|values| - 1])
      else if date.value in daily.entries then
        Ok(daily.entries[date.value])
      else
        KeysDistinct(daily);
        var dates := Sorted(daily.keys);
        var pos := BisectRight(dates, date.value, 0, |dates|);
        if pos == 0 then Err(DateNotFound(date.value))
        else
          assert dates[pos - 1] in dates;
          Ok(daily.entries[dates[pos - 1]])
    }
  }

  /** Without a date, `effective_shares` on a non-empty history is the
      value in the last dictionary position. */
  lemma EffectiveSharesLatest(h: TransactionHistory)
    requires h.dailyAccumulated.Valid() && h.dailyAccumulated.keys != []
    ensures h.EffectiveShares(None) ==
      Ok(h.dailyAccumulated.entries[h.dailyAccumulated.keys[|h.dailyAccumulated.keys| - 1]])
  {
  }

  /** With a date `d`, `effective_shares` on a non-empty history is the
      value of the greatest recorded date not after `d`, and fails exactly
      when every recorded date is after `d`. */
  lemma EffectiveSharesFloor(h: TransactionHistory, d: string)
    requires h.dailyAccumulated.Valid() && h.dailyAccumulated.keys != []
    ensures h.EffectiveShares(Some(d)).Ok? <==> exists k :: k in h.dailyAccumulated.entries && AtMost(k, d)
    ensures h.EffectiveShares(Some(d)).Ok? ==>
      exists k :: IsFloor(k, h.dailyAccumulated.entries.Keys, d)
               && h.EffectiveShares(Some(d)).value == h.dailyAccumulated.entries[k]
  {
    var daily := h.dailyAccumulated;
    if d in daily.entries {
      assert IsFloor(d, daily.entries.Keys, d);
    } else {
      KeysDistinct(daily);
      var dates := Sorted(daily.keys);
      var pos := BisectRight(dates, d, 0, |dates|);
      if pos == 0 {
        assert h.EffectiveShares(Some(d)).Err?;
        forall k | k in daily.entries ensures !AtMost(k, d) {
          assert k in dates;
          BelowAsymmetric(d, k);
        }
      } else {
        var k := dates[pos - 1];
        assert k in dates;
        assert h.EffectiveShares(Some(d)) == Ok(daily.entries[k]);
        BisectFloor(daily.entries.Keys, dates, d, pos);
      }
    }
  }

  /** The element just before the `bisect_right` position of `d` in the
      sorted dates is the floor of `d`. */
  lemma BisectFloor(dates: set<string>, sorted: seq<string>, d: string, pos: nat)
    requires StrictlyAscending(sorted) && forall k :: k in sorted <==> k in dates
    requires 0 < pos <= |sorted|
    requires forall j :: 0 <= j < pos ==> AtMost(sorted[j], d)
    requires forall j :: pos <= j < |sorted| ==> Below(d, sorted[j])
    ensures IsFloor(sorted[pos - 1], dates, d)
  {
    var k := sorted[pos - 1];
    forall k' | k' in dates && AtMost(k', d) ensures AtMost(k', k) {
      assert k' in sorted;
      var j :| 0 <= j < |sorted| && sorted[j] == k';
      if j >= pos {
        BelowAsymmetric(d, k');
      }
    }
  }

  /** Two dates that both resolve a lookup of `d` are the same date. */
  lemma FloorUnique(k1: string, k2: string, dates: set<string>, d: string)
    requires IsFloor(k1, dates, d) && IsFloor(k2, dates, d)
    ensures k1 == k2
  {
    AtMostAntisymmetric(k1, k2);
  }

  /** No lookahead: a lookup of `d` depends only on the dates not after
      `d` and their values.  Two non-empty histories that agree there give
      the same answer, whatever they record after `d`. */
  lemma NoLookahead(h1: TransactionHistory, h2: TransactionHistory, d: string)
    requires h1.dailyAccumulated.Valid() && h2.dailyAccumulated.Valid()
    requires h1.dailyAccumulated.keys != [] && h2.dailyAccumulated.keys != []
    requires forall k :: AtMost(k, d) ==>
      (k in h1.dailyAccumulated.entries <==> k in h2.dailyAccumulated.entries)
    requires forall k :: AtMost(k, d) && k in h1.dailyAccumulated.entries ==>
      h1.dailyAccumulated.entries[k] == h2.dailyAccumulated.entries[k]
    ensures h1.EffectiveShares(Some(d)) == h2.EffectiveShares(Some(d))
  {
    var e1, e2 := h1.dailyAccumulated.entries, h2.dailyAccumulated.entries;
    var r1, r2 := h1.EffectiveShares(Some(d)), h2.EffectiveShares(Some(d));
    EffectiveSharesFloor(h1, d);
    EffectiveSharesFloor(h2, d);
    if r1.Ok? {
      var k1 :| IsFloor(k1, e1.Keys, d) && r1.value == e1[k1];
      assert r2.Ok?;
      var k2 :| IsFloor(k2, e2.Keys, d) && r2.value == e2[k2];
      assert IsFloor(k2, e1.Keys, d);
      FloorUnique(k1, k2, e1.Keys, d);
    }
  }

  /** The total of two runs of transactions is the sum of their totals. */
  lemma {:induction false} TotalAppend(a: seq<Transaction>, b: seq<Transaction>)
    ensures Total(a + b) == Total(a) + Total(b)
    decreases |b|
  {
    if b != [] {
      var b' := b[..|b| - 1];
      assert (a + b)[..|a + b| - 1] == a + b';
      assert (a + b)[|a + b| - 1] == b[|b| - 1];
      assert Total(a + b) == Total(a + b') + b[|b| - 1].amount;
      assert Total(b) == Total(b') + b[|b| - 1].amount;
      TotalAppend(a, b');
    } else {
      assert a + b == a;
    }
  }

  /** The recorded dates are exactly the dates of the transactions added. */
  lemma {:induction false} ReplayDates(log: seq<Transaction>)
    ensures forall k :: k in Replay(log).entries <==> exists i :: 0 <= i < |log| && log[i].date == k
    decreases |log|
  {
    if log != [] {
      var init := log[..|log| - 1];
      ReplayDates(init);
      forall k | k in Replay(log).entries ensures exists i :: 0 <= i < |log| && log[i].date == k {
        if k != log[|log| - 1].date {
          var i :| 0 <= i < |init| && init[i].date == k;
          assert log[i].date == k;
        }
      }
      forall k, i | 0 <= i < |log| && log[i].date == k ensures k in Replay(log).entries {
        if i < |init| {
          assert init[i].date == k;
        }
      }
    }
  }

  /** The value recorded for a date is the running total right after the
      last transaction on that date: a repeated date overwrites. */
  lemma {:induction false} ReplayValue(log: seq<Transaction>, i: nat)
    requires i < |log|
    requires forall j :: i < j < |log| ==> log[j].date != log[i].date
    ensures log[i].date in Replay(log).entries
    ensures Replay(log).entries[log[i].date] == Total(log[..i + 1])
    decreases |log|
  {
    if i < |log| - 1 {
      var init := log[..|log| - 1];
      ReplayValue(init, i);
      assert init[..i + 1] == log[..i + 1];
    } else {
      assert log[..i + 1] == log;
    }
  }

  /** Dates that never go backwards in call order. */
  ghost predicate Chronological(log: seq<Transaction>) {
    forall i, j :: 0 <= i < j < |log| ==> AtMost(log[i].date, log[j].date)
  }

  /** The shares held as of `d`, by definition: the sum of every amount
      dated on or before `d`. */
  function AmountUpTo(log: seq<Transaction>, d: string): real {
    if log == [] then 0.0
    else
      var last := log[|log| - 1];
      AmountUpTo(log[..|log| - 1], d) + (if AtMost(last.date, d) then last.amount else 0.0)
  }

  lemma ChronologicalInit(log: seq<Transaction>)
    requires Chronological(log) && log != []
    ensures Chronological(log[..|log| - 1])
  {
    var init := log[..|log| - 1];
    forall i, j | 0 <= i < j < |init| ensures AtMost(init[i].date, init[j].date) {
      assert init[i] == log[i] && init[j] == log[j];
    }
  }

  /** When the transactions dated on or before `d` are exactly the first
      `p`, their sum is the running total after `p` calls. */
  lemma {:induction false} AmountUpToPrefix(log: seq<Transaction>, d: string, p: nat)
    requires p <= |log|
    requires forall j :: 0 <= j < p ==> AtMost(log[j].date, d)
    requires forall j :: p <= j < |log| ==> !AtMost(log[j].date, d)
    ensures AmountUpTo(log, d) == Total(log[..p])
    decreases |log|
  {
    if log != [] {
      var n := |log|;
      var init := log[..n - 1];
      if p == n {
        AmountUpToPrefix(init, d, n - 1);
        assert init[..n - 1] == init && log[..n] == log;
      } else {
        AmountUpToPrefix(init, d, p);
        assert init[..p] == log[..p];
      }
    }
  }

  /** In a chronological log the transactions dated on or before `d` are
      a prefix. */
  lemma {:induction false} ChronologicalSplit(log: seq<Transaction>, d: string) returns (p: nat)
    requires Chronological(log)
    ensures p <= |log|
    ensures forall j :: 0 <= j < p ==> AtMost(log[j].date, d)
    ensures forall j :: p <= j < |log| ==> !AtMost(log[j].date, d)
    decreases |log|
  {
    if log == [] {
      p := 0;
    } else {
      var n := |log|;
      var init := log[..n - 1];
      ChronologicalInit(log);
      var p' := ChronologicalSplit(init, d);
      assert forall j :: 0 <= j < n - 1 ==> log[j] == init[j];
      if AtMost(log[n - 1].date, d) {
        // then every earlier date is on or before `d` too
        assert p' == n - 1 by {
          if p' < n - 1 {
            assert AtMost(init[p'].date, log[n - 1].date);
            AtMostTransitive(init[p'].date, log[n - 1].date, d);
          }
        }
        p := n;
      } else {
        p := p';
      }
    }
  }

  /** In a chronological log the key inserted last is the date of the last
      transaction. */
  lemma {:induction false} ChronologicalLastKey(log: seq<Transaction>)
    requires Chronological(log) && log != []
    ensures Replay(log).keys != []
    ensures Replay(log).keys[|Replay(log).keys| - 1] == log[|log| - 1].date
    decreases |log|
  {
    var n := |log|;
    var init := log[..n - 1];
    var date := log[n - 1].date;
    var before := Replay(init);
    assert Replay(log) == before.Put(date, Total(log));
    if date in before.entries {
      // the date was seen before, so it is also the date of the call before
      assert date == log[n - 2].date by {
        ReplayDates(init);
        var i :| 0 <= i < |init| && init[i].date == date;
        var prev := log[n - 2].date;
        assert AtMost(date, prev) by {
          assert log[i].date == date;
        }
        assert AtMost(prev, date);
        AtMostAntisymmetric(date, prev);
      }
      ChronologicalInit(log);
      ChronologicalLastKey(init);
      assert Replay(log).keys == before.keys;
    } else {
      assert Replay(log).keys == before.keys + [date];
    }
  }

  /** When transactions are added in date order, `effective_shares()`
      without a date is the running total. */
  lemma ChronologicalLatest(h: TransactionHistory)
    requires h.Valid() && Chronological(h.log) && h.log != []
    ensures h.EffectiveShares(None) == Ok(h.lastTotal)
  {
    var n := |h.log|;
    ChronologicalLastKey(h.log);
    EffectiveSharesLatest(h);
    assert h.log[..n] == h.log;
    ReplayValue(h.log, n - 1);
  }

  /** When transactions are added in date order, `effective_shares(d)` is
      what its name promises: the sum of the amounts dated on or before
      `d`. */
  lemma ChronologicalSharesAsOf(h: TransactionHistory, d: string)
    requires h.Valid() && Chronological(h.log) && h.log != []
    requires AtMost(h.log[0].date, d)
    ensures h.EffectiveShares(Some(d)) == Ok(AmountUpTo(h.log, d))
  {
    var log := h.log;
    var entries := h.dailyAccumulated.entries;
    var r := h.EffectiveShares(Some(d));
    assert r.Ok? && exists k :: IsFloor(k, entries.Keys, d) && r.value == entries[k] by {
      ReplayDates(log);
      assert log[0].date in entries;
      EffectiveSharesFloor(h, d);
    }
    var k :| IsFloor(k, entries.Keys, d) && r.value == entries[k];
    var p := ChronologicalSplit(log, d);
    var i := p - 1;
    assert 0 <= i && k == log[i].date by {
      ReplayDates(log);
      var j :| 0 <= j < |log| && log[j].date == k;
      assert j < p;
      assert log[i].date in entries;
      assert AtMost(log[i].date, k);
      assert AtMost(k, log[i].date);
      AtMostAntisymmetric(log[i].date, k);
    }
    ReplayValue(log, i);
    AmountUpToPrefix(log, d, p);
  }

  /** A lookup of a date before the first transaction fails. */
  lemma ChronologicalTooEarly(h: TransactionHistory, d: string)
    requires h.Valid() && Chronological(h.log) && h.log != []
    requires Below(d, h.log[0].date)
    ensures h.EffectiveShares(Some(d)) == Err(DateNotFound(d))
  {
    var log := h.log;
    var entries := h.dailyAccumulated.entries;
    var r := h.EffectiveShares(Some(d));
    EffectiveSharesFloor(h, d);
    ReplayDates(log);
    if r.Ok? {
      var k :| k in entries && AtMost(k, d);
      var j :| 0 <= j < |log| && log[j].date == k;
      assert AtMost(log[0].date, k);
      AtMostTransitive(log[0].date, k, d);
      BelowAsymmetric(d, log[0].date);
    }
  }
}
