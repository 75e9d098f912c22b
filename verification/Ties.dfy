/**
 Strict cursors over keys that tie: the database puts the rows of one key in some fixed order, and a
 cursor on one of them also skips the others that are still to come.
 */
module Ties {
  import opened Prelude
  import opened Paging

  /** Sorted as far as the keys tell. */
  ghost predicate WeaklySorted<T, K>(o: Order<T, K>, xs: seq<T>) {
    forall i, j | 0 <= i < j < |xs| :: !o.Precedes(xs[j], xs[i])
  }

  /** What is left of a weakly sorted list after a cursor. */
  function DropUpTo<T, K>(o: Order<T, K>, xs: seq<T>, c: K): (ys: seq<T>)
    ensures |ys| <= |xs|
  {
    if xs == [] || o.less(c, o.key(xs[0])) then xs else DropUpTo(o, xs[1..], c)
  }

  /** The rows the strict cursor comparison keeps, in the same order. */
  lemma {:induction false} DropUpToKeeps<T(!new), K(!new)>(o: Order<T, K>, xs: seq<T>, c: K)
    requires StrictTotal(o.less) && WeaklySorted(o, xs)
    ensures DropUpTo(o, xs, c) == xs[|xs| - |DropUpTo(o, xs, c)|..]
    ensures forall i | 0 <= i < |xs| :: o.less(c, o.key(xs[i])) <==> i >= |xs| - |DropUpTo(o, xs, c)|
  {
    if xs == [] || o.less(c, o.key(xs[0])) {
      forall i | 0 < i < |xs| ensures o.less(c, o.key(xs[i])) {
        assert !o.Precedes(xs[i], xs[0]);
      }
    } else {
      assert forall i | 0 <= i < |xs| - 1 :: xs[1..][i] == xs[i + 1];
      DropUpToKeeps(o, xs[1..], c);
      forall i | 0 <= i < |xs| ensures o.less(c, o.key(xs[i])) <==> i >= |xs| - |DropUpTo(o, xs, c)| {
        if i > 0 { assert xs[i] == xs[1..][i - 1]; }
      }
    }
  }

  lemma DropUpToHas<T(!new), K(!new)>(o: Order<T, K>, xs: seq<T>, c: K)
    requires StrictTotal(o.less) && WeaklySorted(o, xs)
    ensures forall x :: x in DropUpTo(o, xs, c) <==> x in xs && o.less(c, o.key(x))
  {
    DropUpToKeeps(o, xs, c);
    var ys := DropUpTo(o, xs, c);
    forall x ensures x in ys <==> x in xs && o.less(c, o.key(x)) {
      if x in xs && o.less(c, o.key(x)) {
        var i :| 0 <= i < |xs| && xs[i] == x;
        assert ys[i - (|xs| - |ys|)] == x;
      }
      if x in ys {
        var i :| 0 <= i < |ys| && ys[i] == x;
        assert xs[|xs| - |ys| + i] == x;
      }
    }
  }

  function TiePage<T, K>(o: Order<T, K>, xs: seq<T>, limit: nat, c: K): Answer<T, K> {
    var items := Take(DropUpTo(o, xs, c), limit);
    Answer(items, NextCursor(o, items, limit))
  }

  function TiePages<T, K>(o: Order<T, K>, xs: seq<T>, limit: nat): K -> Answer<T, K> {
    (c: K) => TiePage(o, xs, limit, c)
  }

  /** What the walk over such a list returns: each cursor also skips the rest of its own tie. */
  function TieRows<T, K>(o: Order<T, K>, ys: seq<T>, limit: nat): seq<T>
    requires limit > 0
    decreases |ys|
  {
    if |ys| < limit then ys
    else ys[..limit] + TieRows(o, DropUpTo(o, ys[limit..], o.key(ys[limit - 1])), limit)
  }

  /** No page ends between two rows of one key. */
  predicate SplitsNoTie<T, K(==)>(o: Order<T, K>, ys: seq<T>, limit: nat)
    requires limit > 0
    decreases |ys|
  {
    |ys| <= limit || (o.key(ys[limit - 1]) != o.key(ys[limit]) && SplitsNoTie(o, ys[limit..], limit))
  }

  /** A cursor on a row drops the list up to that row and the rest of its tie. */
  lemma DropToRow<T(!new), K(!new)>(o: Order<T, K>, xs: seq<T>, m: nat)
    requires StrictTotal(o.less) && WeaklySorted(o, xs) && m < |xs|
    ensures DropUpTo(o, xs, o.key(xs[m])) == DropUpTo(o, xs[m + 1..], o.key(xs[m]))
  {
    var c, rest := o.key(xs[m]), xs[m + 1..];
    assert forall i | 0 <= i < |rest| :: rest[i] == xs[m + 1 + i];
    DropUpToKeeps(o, xs, c);
    DropUpToKeeps(o, rest, c);
    var d, e := |xs| - |DropUpTo(o, xs, c)|, |rest| - |DropUpTo(o, rest, c)|;
    assert !o.less(c, o.key(xs[m]));
    assert forall i | 0 <= i < m :: !o.Precedes(xs[m], xs[i]);
    assert d > m;
    assert d < |xs| ==> o.less(c, o.key(rest[d - m - 1]));
    assert e < |rest| ==> o.less(c, o.key(xs[m + 1 + e]));
    assert d == m + 1 + e;
  }

  /** The rest of the walk after a full page at position `m`. */
  lemma TieResumes<T(!new), K(!new)>(o: Order<T, K>, xs: seq<T>, limit: nat, m: nat)
    requires StrictTotal(o.less) && WeaklySorted(o, xs) && 0 < limit && m + limit <= |xs|
    ensures var d := o.key(xs[m..][limit - 1]);
            var later := DropUpTo(o, xs, d);
            && later == DropUpTo(o, xs[m..][limit..], d)
            && |later| <= |xs| - m - limit
            && later == xs[|xs| - |later|..]
  {
    var d := o.key(xs[m..][limit - 1]);
    assert xs[m..][limit..] == xs[m + limit..];
    DropToRow(o, xs, m + limit - 1);
    DropUpToKeeps(o, xs, d);
  }

  lemma {:induction false} TieWalk<T(!new), K(!new)>(
    o: Order<T, K>, xs: seq<T>, limit: nat, c: K, m: nat, calls: nat)
    requires StrictTotal(o.less) && WeaklySorted(o, xs) && limit > 0
    requires m <= |xs| && DropUpTo(o, xs, c) == xs[m..]
    requires calls >= CallsNeeded(|xs| - m, limit)
    ensures Walk(TiePages(o, xs, limit), c, calls) == Answer(TieRows(o, xs[m..], limit), None)
    decreases calls
  {
    hide StrictTotal, WeaklySorted, DropUpTo;
    if |xs| - m >= limit {
      TieResumes(o, xs, limit, m);
      var d := o.key(xs[m..][limit - 1]);
      var later := DropUpTo(o, xs, d);
      CallsGrow(|later|, |xs| - m - limit, limit);
      TieWalk(o, xs, limit, d, |xs| - |later|, calls - 1);
    }
  }

  lemma {:induction false} CallsGrow(a: nat, b: nat, limit: nat)
    requires limit > 0 && a <= b
    ensures CallsNeeded(a, limit) <= CallsNeeded(b, limit)
    decreases b
  {
    if a >= limit {
      CallsGrow(a - limit, b - limit, limit);
    }
  }

  lemma {:induction false} TieRowsShorter<T, K>(o: Order<T, K>, ys: seq<T>, limit: nat)
    requires limit > 0
    ensures |TieRows(o, ys, limit)| <= |ys|
    decreases |ys|
  {
    if |ys| >= limit {
      TieRowsShorter(o, DropUpTo(o, ys[limit..], o.key(ys[limit - 1])), limit);
    }
  }

  lemma {:induction false} TieRowsCompleteIff<T(!new), K(!new)>(o: Order<T, K>, ys: seq<T>, limit: nat)
    requires StrictTotal(o.less) && WeaklySorted(o, ys) && limit > 0
    ensures TieRows(o, ys, limit) == ys <==> SplitsNoTie(o, ys, limit)
    decreases |ys|
  {
    if |ys| > limit {
      var rest, d := ys[limit..], o.key(ys[limit - 1]);
      assert forall i | 0 <= i < |rest| :: rest[i] == ys[limit + i];
      assert !o.Precedes(ys[limit], ys[limit - 1]) && rest[0] == ys[limit];
      assert ys == ys[..limit] + rest;
      if o.key(rest[0]) == d {
        TieRowsShorter(o, DropUpTo(o, rest, d), limit);
        assert |DropUpTo(o, rest, d)| < |rest|;
      } else {
        assert DropUpTo(o, rest, d) == rest;
        TieRowsCompleteIff(o, rest, limit);
        assert TieRows(o, ys, limit)[limit..] == TieRows(o, rest, limit);
      }
    }
  }

  /**
   Keys that tie, for any order the database gives the tied rows: the walk ends, and it returns every
   row after the first cursor exactly when no page ends between two rows of one key.
   */
  lemma TieWalkIsCompleteIff<T(!new), K(!new)>(o: Order<T, K>, xs: seq<T>, limit: nat, c: K, calls: nat)
    requires StrictTotal(o.less) && WeaklySorted(o, xs) && limit > 0
    requires calls >= CallsNeeded(|DropUpTo(o, xs, c)|, limit)
    ensures Walk(TiePages(o, xs, limit), c, calls).next.None?
    ensures Walk(TiePages(o, xs, limit), c, calls).items == DropUpTo(o, xs, c)
       <==> SplitsNoTie(o, DropUpTo(o, xs, c), limit)
  {
    var ys := DropUpTo(o, xs, c);
    DropUpToKeeps(o, xs, c);
    assert WeaklySorted(o, ys);
    TieWalk(o, xs, limit, c, |xs| - |ys|, calls);
    TieRowsCompleteIff(o, ys, limit);
  }
}
