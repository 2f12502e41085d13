/** The three Python built-ins the ledger applies to its date keys:
    `sorted`, `max` and `bisect.bisect_right`, over strings ordered by
    `Lex.Below`.  The keys of a dictionary are always distinct, so `sorted`
    is only asked to sort distinct strings. */
module Sorting {
  import opened Lex

  ghost predicate Distinct(s: seq<string>) {
    forall i, j :: 0 <= i < j < |s| ==> s[i] != s[j]
  }

  ghost predicate StrictlyAscending(s: seq<string>) {
    forall i, j :: 0 <= i < j < |s| ==> Below(s[i], s[j])
  }

  /** Places `x` in an ascending sequence that does not hold it yet. */
  function Insert(x: string, s: seq<string>): (r: seq<string>)
    requires StrictlyAscending(s) && x !in s
    ensures StrictlyAscending(r)
    ensures |r| == |s| + 1
    ensures forall y {:trigger y in r} :: y in r <==> y == x || y in s
  {
    if s == [] then [x]
    else if Below(x, s[0]) then
      assert forall j :: 0 < j < |s| ==> Below(x, s[j]) by {
        forall j | 0 < j < |s| { BelowTransitive(x, s[0], s[j]); }
      }
      [x] + s
    else
      BelowTotal(x, s[0]);
      var t := Insert(x, s[1..]);
      assert forall y :: y in s[1..] ==> Below(s[0], y);
      assert s == [s[0]] + s[1..];
      assert forall j :: 0 <= j < |t| ==> t[j] in t && Below(s[0], t[j]);
      [s[0]] + t
  }

  /** `sorted(keys)` for distinct keys: ascending, and the same strings. */
  function Sorted(s: seq<string>): (r: seq<string>)
    requires Distinct(s)
    ensures StrictlyAscending(r)
    ensures |r| == |s|
    ensures forall y {:trigger y in r} :: y in r <==> y in s
  {
    if s == [] then []
    else
      assert s[0] !in s[1..];
      Insert(s[0], Sorted(s[1..]))
  }

  /** An ascending sequence is fixed by the set of its elements: `sorted`
      gives the same list whatever order the keys were inserted in. */
  lemma {:induction false} AscendingUnique(r1: seq<string>, r2: seq<string>)
    requires StrictlyAscending(r1) && StrictlyAscending(r2)
    requires forall y :: y in r1 <==> y in r2
    ensures r1 == r2
    decreases |r1|
  {
    if r1 != [] { assert r1[0] in r2; }
    if r2 != [] { assert r2[0] in r1; }
    if r1 != [] && r2 != [] {
      // each head is the least element of the common set
      if r1[0] != r2[0] {
        assert r2[0] in r1;
        assert r1[0] in r2;
        var i :| 0 <= i < |r1| && r1[i] == r2[0];
        var j :| 0 <= j < |r2| && r2[j] == r1[0];
        assert Below(r1[0], r2[0]);
        assert Below(r2[0], r1[0]);
        BelowAsymmetric(r1[0], r2[0]);
      }
      forall y ensures y in r1[1..] <==> y in r2[1..] {
        if y in r1[1..] {
          BelowIrreflexive(r1[0]);
          assert y in r2 && y != r2[0];
        }
        if y in r2[1..] {
          BelowIrreflexive(r2[0]);
          assert y in r1 && y != r1[0];
        }
      }
      AscendingUnique(r1[1..], r2[1..]);
      assert r1 == [r1[0]] + r1[1..] && r2 == [r2[0]] + r2[1..];
    }
  }

  /** `max(s)`: scans left to right and keeps the running maximum, replacing
      it only by a strictly greater element. */
  function Max(s: seq<string>): (m: string)
    requires |s| > 0
    ensures m in s
    ensures forall y :: y in s ==> AtMost(y, m)
  {
    if |s| == 1 then s[0]
    else
      var prefix := s[..|s| - 1];
      var last := s[|s| - 1];
      var m := Max(prefix);
      assert s == prefix + [last];
      if Below(m, last) then
        assert forall y :: y in prefix ==> AtMost(y, last) by {
          forall y | y in prefix { AtMostTransitive(y, m, last); }
        }
        last
      else
        BelowTotal(m, last);
        m
  }

  /** The binary search of `bisect.bisect_right(a, x, lo, hi)`: every
      element before `lo` is known to be at most `x`, every element from `hi`
      on is known to be above `x`. */
  function BisectRight(a: seq<string>, x: string, lo: nat, hi: nat): (pos: nat)
    requires StrictlyAscending(a)
    requires lo <= hi <= |a|
    requires forall j :: 0 <= j < lo ==> AtMost(a[j], x)
    requires forall j :: hi <= j < |a| ==> Below(x, a[j])
    ensures lo <= pos <= hi
    ensures forall j :: 0 <= j < pos ==> AtMost(a[j], x)
    ensures forall j :: pos <= j < |a| ==> Below(x, a[j])
    decreases hi - lo
  {
    if lo == hi then lo
    else
      var mid := (lo + hi) / 2;
      if Below(x, a[mid]) then
        assert forall j :: mid <= j < |a| ==> Below(x, a[j]) by {
          forall j | mid < j < |a| { BelowTransitive(x, a[mid], a[j]); }
        }
        BisectRight(a, x, lo, mid)
      else
        BelowTotal(x, a[mid]);
        assert forall j :: 0 <= j <= mid ==> AtMost(a[j], x) by {
          forall j | 0 <= j < mid { AtMostTransitive(a[j], a[mid], x); }
        }
        BisectRight(a, x, mid + 1, hi)
  }
}
