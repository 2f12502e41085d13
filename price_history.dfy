/** `PriceHistory`: a date-to-price mapping, read-only after construction.
    Lookups are exact: there is no nearest-date fallback. */
module PriceHistories {
  import opened Outcomes
  import opened Lex
  import opened Sorting
  import opened Dicts

  /** A date that no recorded date exceeds. */
  ghost predicate IsLatest(k: string, dates: set<string>) {
    k in dates && forall k' :: k' in dates ==> AtMost(k', k)
  }

  datatype PriceHistory = PriceHistory(prices: Dict<real>) {

    ghost predicate Valid() {
      prices.Valid()
    }

    /** `get_price(date)`: without a date, the greatest recorded date is
        used (and an empty mapping fails in `max`); a date that is not
        recorded fails. */
    function GetPrice(date: Option<string>): (r: Result<real>)
      requires Valid()
      ensures date.Some? ==> (r.Ok? <==> date.value in prices.entries)
      ensures date.Some? && r.Ok? ==> r.value == prices.entries[date.value]
      ensures date.Some? && r.Err? ==> r.error == PriceNotFound(date.value)
      ensures date.None? ==> (r.Err? <==> prices.entries == map[])
      ensures date.None? && r.Err? ==> r.error == NoPrices
      ensures date.None? && r.Ok? ==>
        exists k :: IsLatest(k, prices.entries.Keys) && r.value == prices.entries[k]
    {
      if date.None? && prices.keys == [] then Err(NoPrices)
      else
        var d := if date.Some? then date.value else Max(prices.keys);
        if d !in prices.entries then Err(PriceNotFound(d))
        else Ok(prices.entries[d])
    }

    /** `available_dates()`: the recorded dates in ascending order, each
        once, none added and none lost. */
    function AvailableDates(): (r: seq<string>)
      requires Valid()
      ensures StrictlyAscending(r)
      ensures |r| == |prices.entries|
      ensures forall k {:trigger k in r} :: k in r <==> k in prices.entries
    {
      KeysDistinct(prices);
      Sorted(prices.keys)
    }
  }

  /** The list of available dates does not depend on the order in which the
      prices were inserted: two histories with the same dates list them
      identically. */
  lemma AvailableDatesCanonical(h1: PriceHistory, h2: PriceHistory)
    requires h1.Valid() && h2.Valid()
    requires h1.prices.entries.Keys == h2.prices.entries.Keys
    ensures h1.AvailableDates() == h2.AvailableDates()
  {
    AscendingUnique(h1.AvailableDates(), h2.AvailableDates());
  }

  /** The last available date is the date `get_price()` defaults to, so a
      stock valued without a date and priced without a date agree. */
  lemma LastAvailableIsLatest(h: PriceHistory)
    requires h.Valid() && h.prices.keys != []
    ensures h.AvailableDates() != []
    ensures h.AvailableDates()[|h.AvailableDates()| - 1] == Max(h.prices.keys)
    ensures h.GetPrice(None) == h.GetPrice(Some(Max(h.prices.keys)))
  {
    var r := h.AvailableDates();
    var m := Max(h.prices.keys);
    assert h.prices.keys[0] in h.prices.entries;
    assert h.prices.keys[0] in r;
    var last := r[|r| - 1];
    assert last in r;
    assert AtMost(last, m);
    if last != m {
      assert m in h.prices.entries;
      assert m in r;
      var i :| 0 <= i < |r| && r[i] == m;
      assert Below(m, last);
      BelowAsymmetric(last, m);
    }
  }
}
