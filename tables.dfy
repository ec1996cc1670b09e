/** Column-wise maps over tables, and the fact that they respect the multiset of rows. */
module Tables {

  /** `f` applied to every row, in row order. */
  function Column<A, B>(f: A -> B, rows: seq<A>): (r: seq<B>)
    ensures |r| == |rows| && forall i :: 0 <= i < |rows| ==> r[i] == f(rows[i])
  {
    if rows == [] then [] else [f(rows[0])] + Column(f, rows[1..])
  }

  /** Mapping a table with the row at index i taken out. */
  lemma ColumnWithout<A, B>(f: A -> B, rows: seq<A>, i: nat)
    requires i < |rows|
    ensures Column(f, rows[..i] + rows[i + 1..]) == Column(f, rows)[..i] + Column(f, rows)[i + 1..]
  {
    var rest := rows[..i] + rows[i + 1..];
    var c := Column(f, rows);
    var cr := Column(f, rest);
    forall j | 0 <= j < |cr|
      ensures cr[j] == (c[..i] + c[i + 1..])[j]
    {
      if j < i {
        assert rest[j] == rows[j];
      } else {
        assert rest[j] == rows[j + 1];
      }
    }
  }

  /** Removing the row at index i and mapping commute. */
  lemma ColumnRemove<A, B>(f: A -> B, rows: seq<A>, i: nat)
    requires i < |rows|
    ensures multiset(Column(f, rows)) == multiset(Column(f, rows[..i] + rows[i + 1..])) + multiset{f(rows[i])}
  {
    var c := Column(f, rows);
    ColumnWithout(f, rows, i);
    MultisetWithout(c, i);
  }

  /** A sequence's multiset is that of the sequence without index i, plus the element at i. */
  lemma MultisetWithout<T>(s: seq<T>, i: nat)
    requires i < |s|
    ensures multiset(s) == multiset(s[..i] + s[i + 1..]) + multiset{s[i]}
  {
    assert s == s[..i] + [s[i]] + s[i + 1..];
  }

  /** Tables with the same multiset of rows give columns with the same multiset of cells. */
  lemma {:induction false} ColumnIgnoresOrder<A, B>(f: A -> B, xs: seq<A>, ys: seq<A>)
    requires multiset(xs) == multiset(ys)
    ensures multiset(Column(f, xs)) == multiset(Column(f, ys))
  {
    if xs == [] {
      assert |ys| == |multiset(ys)| == 0;
    } else {
      var i := MatchFirst(xs, ys);
      var rest := ys[..i] + ys[i + 1..];
      ColumnIgnoresOrder(f, xs[1..], rest);
      ColumnRemove(f, ys, i);
      ColumnRemove(f, xs, 0);
      assert xs[..0] + xs[1..] == xs[1..];
    }
  }

  /** Where the first row of one table sits in a permutation of it, and what is left of both. */
  lemma MatchFirst<A>(xs: seq<A>, ys: seq<A>) returns (i: nat)
    requires multiset(xs) == multiset(ys) && xs != []
    ensures i < |ys| && ys[i] == xs[0]
    ensures multiset(xs[1..]) == multiset(ys[..i] + ys[i + 1..])
  {
    var x := xs[0];
    assert x in multiset(ys);
    i :| 0 <= i < |ys| && ys[i] == x;
    var rest := ys[..i] + ys[i + 1..];
    assert ys == ys[..i] + [x] + ys[i + 1..];
    assert multiset(ys) == multiset(ys[..i]) + multiset{x} + multiset(ys[i + 1..]);
    assert multiset(rest) == multiset(ys[..i]) + multiset(ys[i + 1..]);
    assert xs == [x] + xs[1..];
    assert multiset(xs) == multiset{x} + multiset(xs[1..]);
    assert multiset(xs[1..]) == multiset(xs) - multiset{x};
    assert multiset(rest) == multiset(ys) - multiset{x};
  }
}
