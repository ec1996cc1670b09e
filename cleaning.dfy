/**
 * Price cleaning: `regexp_replace(totalPrice, "\$", "")`, then the cast to
 * double and `round(x * 100)` cast to int. The numeric cast is the parameter
 * `toCents`: it yields `None` where the cast yields NULL.
 */
module Cleaning {
  import opened Wrappers
  import opened Schema
  import opened Tables

  /** Removes every `$` from `s`, wherever it occurs, keeping the other characters in order. */
  function StripDollars(s: string): (r: string)
    ensures '$' !in r
    ensures multiset(r) == multiset(s)['$' := 0]
  {
    if s == [] then []
    else
      assert s == [s[0]] + s[1..];
      (if s[0] == '$' then [] else [s[0]]) + StripDollars(s[1..])
  }

  /** Stripping works piece by piece, so it keeps the order of the remaining characters. */
  lemma {:induction false} StripDollarsAppend(a: string, b: string)
    ensures StripDollars(a + b) == StripDollars(a) + StripDollars(b)
  {
    if a != [] {
      var head: string := if a[0] == '$' then [] else [a[0]];
      assert (a + b)[0] == a[0];
      assert (a + b)[1..] == a[1..] + b;
      assert StripDollars(a + b) == head + StripDollars(a[1..] + b);
      StripDollarsAppend(a[1..], b);
      assert StripDollars(a) == head + StripDollars(a[1..]);
    } else {
      assert a + b == b;
    }
  }

  /** A string with no `$` is left as it is; so stripping twice is stripping once. */
  lemma {:induction false} StripDollarsKeepsPlain(s: string)
    requires '$' !in s
    ensures StripDollars(s) == s
  {
    if s != [] {
      StripDollarsKeepsPlain(s[1..]);
    }
  }

  /** The cleaned price of one cell: NULL stays NULL; otherwise strip and cast. */
  function CleanPrice(raw: Option<string>, toCents: string -> Option<int>): (r: Option<int>)
    ensures raw.None? ==> r.None?
    ensures raw.Some? && '$' !in raw.value ==> r == toCents(raw.value)
  {
    match raw
    case None => None
    case Some(s) =>
      if '$' in s then toCents(StripDollars(s))
      else StripDollarsKeepsPlain(s); toCents(StripDollars(s))
  }

  /** A `$` is ignored wherever it sits in the price, not only at its head. */
  lemma CleanPriceIgnoresDollar(a: string, b: string, toCents: string -> Option<int>)
    ensures CleanPrice(Some(a + "$" + b), toCents) == CleanPrice(Some(a + b), toCents)
  {
    assert a + "$" + b == a + ("$" + b);
    StripDollarsAppend(a, "$" + b);
    StripDollarsAppend("$", b);
    assert StripDollars("$") == [] by {
      assert "$"[1..] == [];
    }
    assert StripDollars("$" + b) == StripDollars(b);
    StripDollarsAppend(a, b);
  }

  /** `cleaned_price`: the joined table with its `totalPrice` column replaced by cents. */
  function CleanPrices(joined: seq<RawRow>, toCents: string -> Option<int>): (r: seq<CleanRow>)
    ensures Skeletons(r) == Skeletons(joined)
    ensures forall i :: 0 <= i < |r| ==> r[i].event.totalPrice == CleanPrice(joined[i].event.totalPrice, toCents)
  {
    var r := seq(|joined|, i requires 0 <= i < |joined| => WithPrice(joined[i], CleanPrice(joined[i].event.totalPrice, toCents)));
    assert Skeletons(r) == Skeletons(joined);
    r
  }

  /** Cleaning the joined table a row at a time gives the same table. */
  lemma CleanPricesCons(joined: seq<RawRow>, toCents: string -> Option<int>)
    requires joined != []
    ensures CleanPrices(joined, toCents)
         == [WithPrice(joined[0], CleanPrice(joined[0].event.totalPrice, toCents))] + CleanPrices(joined[1..], toCents)
  {
    var r := CleanPrices(joined, toCents);
    var r' := CleanPrices(joined[1..], toCents);
    assert |r| == |joined|;
    forall i | 1 <= i < |r|
      ensures r[i] == r'[i - 1]
    {
      assert Skeleton(r[i]) == Skeleton(joined[i]);
      assert Skeleton(r'[i - 1]) == Skeleton(joined[1..][i - 1]);
    }
    assert Skeleton(r[0]) == Skeleton(joined[0]);
  }

  /** Row i of the cleaned table is row i of the joined table with its price cleaned. */
  lemma CleanPricesAt(joined: seq<RawRow>, toCents: string -> Option<int>, i: nat)
    requires i < |joined|
    ensures |CleanPrices(joined, toCents)| == |joined|
    ensures CleanPrices(joined, toCents)[i] == WithPrice(joined[i], CleanPrice(joined[i].event.totalPrice, toCents))
  {
    var r := CleanPrices(joined, toCents);
    assert |Skeletons(r)| == |r|;
    assert Skeleton(r[i]) == Skeletons(r)[i] == Skeletons(joined)[i] == Skeleton(joined[i]);
  }

  /** A cleaned row is the cleaning of some joined row, and every joined row's cleaning is there. */
  lemma CleanPricesMembership(joined: seq<RawRow>, toCents: string -> Option<int>, row: CleanRow)
    ensures row in CleanPrices(joined, toCents) <==>
            exists j :: j in joined && row == WithPrice(j, CleanPrice(j.event.totalPrice, toCents))
  {
    var r := CleanPrices(joined, toCents);
    forall i | 0 <= i < |r|
      ensures r[i] == WithPrice(joined[i], CleanPrice(joined[i].event.totalPrice, toCents))
    {
      CleanPricesAt(joined, toCents, i);
    }
    if exists j :: j in joined && row == WithPrice(j, CleanPrice(j.event.totalPrice, toCents)) {
      var j :| j in joined && row == WithPrice(j, CleanPrice(j.event.totalPrice, toCents));
      var i :| 0 <= i < |joined| && joined[i] == j;
      assert r[i] == row;
    }
  }

  /** Cleaning does not depend on the order of the joined rows. */
  lemma CleanPricesIgnoresOrder(a: seq<RawRow>, b: seq<RawRow>, toCents: string -> Option<int>)
    requires multiset(a) == multiset(b)
    ensures multiset(CleanPrices(a, toCents)) == multiset(CleanPrices(b, toCents))
  {
    var clean := (row: RawRow) => WithPrice(row, CleanPrice(row.event.totalPrice, toCents));
    forall i | 0 <= i < |a| ensures CleanPrices(a, toCents)[i] == clean(a[i]) {
      CleanPricesAt(a, toCents, i);
    }
    forall i | 0 <= i < |b| ensures CleanPrices(b, toCents)[i] == clean(b[i]) {
      CleanPricesAt(b, toCents, i);
    }
    assert CleanPrices(a, toCents) == Column(clean, a);
    assert CleanPrices(b, toCents) == Column(clean, b);
    ColumnIgnoresOrder(clean, a, b);
  }
}
