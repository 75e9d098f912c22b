/**
 The theory behind every list endpoint. A page query keeps the matching rows that come strictly
 after the cursor, sorts them and cuts the result at `limit`; an outer query may then drop some of
 the chosen rows; the reader looks at position `limit - 1` of what is left to decide whether to
 hand out another cursor. The walk that follows these cursors is compared with the simple thing
 it speeds up: sorting all the matching rows once.
 */
module Paging {
  import opened Prelude

  /** Rows of type T are sorted by a key of type K; the keys double as cursors. */
  datatype Order<!T, !K> = Order(key: T -> K, less: (K, K) -> bool)
  {
    predicate Precedes(a: T, b: T) {
      less(key(a), key(b))
    }
  }

  /** A page, and the cursor of the next one if the reader hands one out. */
  datatype Answer<T, K> = Answer(items: seq<T>, next: Option<K>)

  ghost predicate StrictTotal<K(!new)>(less: (K, K) -> bool) {
    && (forall a :: !less(a, a))
    && (forall a, b, c :: less(a, b) && less(b, c) ==> less(a, c))
    && (forall a, b :: a == b || less(a, b) || less(b, a))
  }

  ghost predicate Lawful<T(!new), K(!new)>(o: Order<T, K>, s: set<T>) {
    && StrictTotal(o.less)
    && forall a, b | a in s && b in s && a != b :: o.key(a) != o.key(b)
  }

  ghost predicate Sorted<T, K>(o: Order<T, K>, xs: seq<T>) {
    forall i, j | 0 <= i < j < |xs| :: o.Precedes(xs[i], xs[j])
  }

  ghost predicate Lists<T(!new)>(xs: seq<T>, s: set<T>) {
    forall x :: x in xs <==> x in s
  }

  ghost predicate IsLeast<T(!new), K(!new)>(o: Order<T, K>, s: set<T>, m: T) {
    m in s && forall x | x in s && x != m :: o.Precedes(m, x)
  }

  lemma {:induction false} LeastExists<T(!new), K(!new)>(o: Order<T, K>, s: set<T>) returns (m: T)
    requires Lawful(o, s) && s != {}
    ensures IsLeast(o, s, m)
  {
    var x :| x in s;
    if s == {x} {
      m := x;
    } else {
      assert s - {x} != {};
      var n := LeastExists(o, s - {x});
      m := if o.Precedes(x, n) then x else n;
      assert o.Precedes(x, n) || o.Precedes(n, x);
      assert forall y | y in s && y != x :: y in s - {x};
    }
  }

  /** All of `s`, sorted once: the list that paging must reproduce. */
  ghost function Listing<T(!new), K(!new)>(o: Order<T, K>, s: set<T>): seq<T>
    requires Lawful(o, s)
    decreases |s|
  {
    if s == {} then []
    else
      assert exists m :: IsLeast(o, s, m) by { var _ := LeastExists(o, s); }
      var m :| IsLeast(o, s, m);
      [m] + Listing(o, s - {m})
  }

  lemma NothingListed<T(!new), K>(o: Order<T, K>)
    ensures Sorted<T, K>(o, []) && Lists<T>([], {})
  {
  }

  /** Putting the least element in front of the sorted rest. */
  lemma LeastFirst<T(!new), K(!new)>(o: Order<T, K>, s: set<T>, m: T, xs: seq<T>)
    requires IsLeast(o, s, m) && Sorted(o, xs) && Lists(xs, s - {m})
    ensures Sorted(o, [m] + xs) && Lists([m] + xs, s)
  {
    var ys := [m] + xs;
    forall i, j | 0 <= i < j < |ys| ensures o.Precedes(ys[i], ys[j]) {
      assert ys[j] == xs[j - 1] && xs[j - 1] in xs;
      assert i > 0 ==> ys[i] == xs[i - 1];
    }
    forall x ensures x in ys <==> x in s {
      assert x in ys <==> x == m || x in xs;
    }
  }

  lemma ListingStarts<T(!new), K(!new)>(o: Order<T, K>, s: set<T>) returns (m: T)
    requires Lawful(o, s) && s != {}
    ensures IsLeast(o, s, m) && m in s && Lawful(o, s - {m}) && Listing(o, s) == [m] + Listing(o, s - {m})
  {
    assert exists m :: IsLeast(o, s, m) by { var _ := LeastExists(o, s); }
    m :| IsLeast(o, s, m) && Listing(o, s) == [m] + Listing(o, s - {m});
  }

  lemma {:induction false} ListingIsSorted<T(!new), K(!new)>(o: Order<T, K>, s: set<T>)
    requires Lawful(o, s)
    ensures Sorted(o, Listing(o, s)) && Lists(Listing(o, s), s)
    decreases |s|
  {
    hide Sorted, Lists, IsLeast, Lawful;
    if s == {} {
      NothingListed<T, K>(o);
    } else {
      var m := ListingStarts(o, s);
      ListingIsSorted(o, s - {m});
      LeastFirst(o, s, m, Listing(o, s - {m}));
    }
  }

  /** A sorted list is determined by its elements. */
  lemma {:induction false} SortedUnique<T(!new), K(!new)>(o: Order<T, K>, xs: seq<T>, ys: seq<T>)
    requires StrictTotal(o.less) && Sorted(o, xs) && Sorted(o, ys)
    requires forall x :: x in xs <==> x in ys
    ensures xs == ys
  {
    if ys != [] {
      assert ys[0] in xs;
    }
    if xs != [] {
      assert xs[0] in ys;
      assert xs[0] == ys[0];
      forall x ensures x in xs[1..] <==> x in ys[1..] {
        assert x in xs[1..] ==> x in xs && x != xs[0];
        assert x in ys[1..] ==> x in ys && x != ys[0];
        assert x in xs && x != xs[0] ==> x in xs[1..];
        assert x in ys && x != ys[0] ==> x in ys[1..];
      }
      SortedUnique(o, xs[1..], ys[1..]);
      assert xs == [xs[0]] + xs[1..] && ys == [ys[0]] + ys[1..];
    }
  }

  lemma ListingIs<T(!new), K(!new)>(o: Order<T, K>, s: set<T>, xs: seq<T>)
    requires Lawful(o, s) && Sorted(o, xs) && Lists(xs, s)
    ensures Listing(o, s) == xs
  {
    ListingIsSorted(o, s);
    SortedUnique(o, Listing(o, s), xs);
  }

  lemma {:induction false} ListingLength<T(!new), K(!new)>(o: Order<T, K>, s: set<T>)
    requires Lawful(o, s)
    ensures |Listing(o, s)| == |s|
    decreases |s|
  {
    hide Lawful, IsLeast;
    if s != {} {
      var m := ListingStarts(o, s);
      ListingLength(o, s - {m});
    }
  }

  /** The rows of `s` strictly after a cursor. */
  function After<T, K>(o: Order<T, K>, s: set<T>, c: K): set<T> {
    set x | x in s && o.less(c, o.key(x))
  }

  function Take<T>(xs: seq<T>, limit: nat): seq<T> {
    if |xs| <= limit then xs else xs[..limit]
  }

  /** The reader's rule: another page exists when position `limit - 1` is filled. */
  function NextCursor<T, K>(o: Order<T, K>, items: seq<T>, limit: nat): Option<K> {
    if 0 < limit <= |items| then Some(o.key(items[limit - 1])) else None
  }

  /** One request over an already sorted list, when the outer query shows only rows of `shown`. */
  function Cut<T(==), K>(o: Order<T, K>, sorted: seq<T>, shown: set<T>, limit: nat): Answer<T, K> {
    var items := Keep(Take(sorted, limit), shown);
    Answer(items, NextCursor(o, items, limit))
  }

  /** One request of a keyset query over the matching rows `s`. */
  ghost function KeysetPage<T(!new), K(!new)>(o: Order<T, K>, s: set<T>, shown: set<T>, limit: nat, c: K)
    : Answer<T, K>
    requires Lawful(o, s)
  {
    Cut(o, Listing(o, After(o, s, c)), shown, limit)
  }

  /** At most `calls` requests, each from the cursor handed out by the one before. */
  function Walk<T, K>(page: K -> Answer<T, K>, c: K, calls: nat): Answer<T, K> {
    if calls == 0 then Answer([], Some(c))
    else
      var first := page(c);
      if first.next.None? then first
      else
        var others := Walk(page, first.next.value, calls - 1);
        Answer(first.items + others.items, others.next)
  }

  /** The page function answers like the keyset query over `s`, wherever a walk can get to. */
  ghost predicate AnswersKeyset<T(!new), K(!new)>(
    page: K -> Answer<T, K>, o: Order<T, K>, s: set<T>, shown: set<T>, limit: nat)
    requires Lawful(o, s)
  {
    forall x {:trigger page(o.key(x))} | x in s :: page(o.key(x)) == KeysetPage(o, s, shown, limit, o.key(x))
  }

  /** Rows after the i-th of a sorted list are its tail. */
  lemma AfterIsTail<T(!new), K(!new)>(o: Order<T, K>, s: set<T>, xs: seq<T>, i: nat)
    requires Lawful(o, s) && i < |xs| && Sorted(o, xs)
    requires forall x <- xs :: x in s
    requires forall x | x in s && o.Precedes(xs[i], x) :: x in xs
    ensures Lawful(o, After(o, s, o.key(xs[i])))
    ensures Listing(o, After(o, s, o.key(xs[i]))) == xs[i + 1..]
  {
    var later := After(o, s, o.key(xs[i]));
    forall x ensures x in xs[i + 1..] <==> x in later {
      if x in later {
        var j :| 0 <= j < |xs| && xs[j] == x;
        assert j < i ==> o.Precedes(xs[j], xs[i]);
        assert xs[i + 1..][j - i - 1] == x;
      }
    }
    ListingIs(o, later, xs[i + 1..]);
  }

  /** Index of the first row the outer query hides, or the length when it hides none. */
  function FirstHidden<T(==)>(xs: seq<T>, shown: set<T>): (h: nat)
    ensures h <= |xs|
  {
    if xs == [] || xs[0] !in shown then 0 else 1 + FirstHidden(xs[1..], shown)
  }

  lemma {:induction false} FirstHiddenSplits<T>(xs: seq<T>, shown: set<T>)
    ensures var h := FirstHidden(xs, shown);
            (forall i | 0 <= i < h :: xs[i] in shown) && (h < |xs| ==> xs[h] !in shown)
  {
    if xs != [] && xs[0] in shown {
      FirstHiddenSplits(xs[1..], shown);
      assert forall i | 0 <= i < |xs| - 1 :: xs[1..][i] == xs[i + 1];
    }
  }

  /** Where the page that holds index `h` ends: the least multiple of `limit` above `h`. */
  function PageEnd(h: nat, limit: nat): (e: nat)
    requires limit > 0
    ensures h < e <= h + limit
  {
    if h < limit then limit else limit + PageEnd(h - limit, limit)
  }

  /** How much of the sorted list the walk visits: it stops after the page with the first hidden row. */
  function Visited<T(==)>(xs: seq<T>, shown: set<T>, limit: nat): (n: nat)
    requires limit > 0
    ensures n <= |xs|
  {
    var h := FirstHidden(xs, shown);
    if h == |xs| then |xs| else Min(|xs|, PageEnd(h, limit))
  }

  /** The rows a walk over an already sorted list returns. */
  function VisitedRows<T(==)>(xs: seq<T>, shown: set<T>, limit: nat): seq<T>
    requires limit > 0
  {
    Keep(xs[..Visited(xs, shown, limit)], shown)
  }

  lemma {:induction false} FirstHiddenIs<T>(xs: seq<T>, shown: set<T>, h: nat)
    requires h <= |xs| && (forall i | 0 <= i < h :: xs[i] in shown) && (h < |xs| ==> xs[h] !in shown)
    ensures FirstHidden(xs, shown) == h
  {
    if h > 0 {
      assert forall i | 0 <= i < h - 1 :: xs[1..][i] == xs[i + 1];
      FirstHiddenIs(xs[1..], shown, h - 1);
    }
  }

  /** One page back: the visited length of a list whose first page is full and shown. */
  lemma VisitedStep<T(!new)>(xs: seq<T>, shown: set<T>, limit: nat)
    requires 0 < limit <= |xs| && forall i | 0 <= i < limit :: xs[i] in shown
    ensures Visited(xs, shown, limit) == limit + Visited(xs[limit..], shown, limit)
  {
    var rest := xs[limit..];
    var h := FirstHidden(rest, shown);
    FirstHiddenSplits(rest, shown);
    forall i | 0 <= i < limit + h ensures xs[i] in shown {
      if i >= limit { assert rest[i - limit] in shown; }
    }
    if h < |rest| { assert xs[limit + h] == rest[h]; }
    FirstHiddenIs(xs, shown, limit + h);
  }

  /** A page with `limit` shown rows is full and hides none. */
  lemma FullCut<T(!new), K>(o: Order<T, K>, xs: seq<T>, shown: set<T>, limit: nat)
    requires limit > 0 && Cut(o, xs, shown, limit).next.Some?
    ensures limit <= |xs| && forall i | 0 <= i < limit :: xs[i] in shown
    ensures Cut(o, xs, shown, limit) == Answer(xs[..limit], Some(o.key(xs[limit - 1])))
  {
    KeepAll(Take(xs, limit), shown);
    forall i | 0 <= i < limit ensures xs[i] in shown {
      assert xs[i] in xs[..limit];
    }
  }

  /** How many requests it takes to see `n` rows and be told that there are no more. */
  function CallsNeeded(n: nat, limit: nat): nat
    requires limit > 0
  {
    if n < limit then 1 else 1 + CallsNeeded(n - limit, limit)
  }

  /** The visited part of a list whose first page is full and shown. */
  lemma VisitedItems<T(!new)>(xs: seq<T>, shown: set<T>, limit: nat)
    requires 0 < limit <= |xs| && forall i | 0 <= i < limit :: xs[i] in shown
    ensures VisitedRows(xs, shown, limit) == xs[..limit] + VisitedRows(xs[limit..], shown, limit)
  {
    VisitedStep(xs, shown, limit);
    var v := Visited(xs[limit..], shown, limit);
    assert xs[..limit + v] == xs[..limit] + xs[limit..][..v];
    KeepAppend(xs[..limit], xs[limit..][..v], shown);
    KeepAll(xs[..limit], shown);
  }

  /** A page that is not full after hiding is the last one visited. */
  lemma StopsHere<T(!new), K>(o: Order<T, K>, xs: seq<T>, shown: set<T>, limit: nat)
    requires limit > 0 && Cut(o, xs, shown, limit).next.None?
    ensures Cut(o, xs, shown, limit) == Answer(VisitedRows(xs, shown, limit), None)
  {
    var head := Take(xs, limit);
    KeepAll(head, shown);
    assert |xs| >= limit ==> FirstHidden(xs, shown) < limit by {
      if |xs| >= limit {
        var x :| x in head && x !in shown;
        var i :| 0 <= i < |head| && head[i] == x;
        assert xs[i] == x;
        FirstHiddenSplits(xs, shown);
      }
    }
    assert Visited(xs, shown, limit) == |head|;
    assert xs[..|head|] == head;
  }

  /** The walk as it goes through an already sorted list. */
  function CutWalk<T(==), K>(o: Order<T, K>, xs: seq<T>, shown: set<T>, limit: nat, calls: nat): seq<T>
    requires limit > 0
  {
    var a := Cut(o, xs, shown, limit);
    if calls == 0 then []
    else if a.next.None? || |xs| < limit then a.items
    else a.items + CutWalk(o, xs[limit..], shown, limit, calls - 1)
  }

  lemma {:induction false} CutWalkIsVisited<T(!new), K>(
    o: Order<T, K>, xs: seq<T>, shown: set<T>, limit: nat, calls: nat)
    requires limit > 0 && calls >= CallsNeeded(|xs|, limit)
    ensures CutWalk(o, xs, shown, limit, calls) == VisitedRows(xs, shown, limit)
    decreases calls
  {
    hide Cut, VisitedRows;
    if Cut(o, xs, shown, limit).next.None? {
      StopsHere(o, xs, shown, limit);
    } else {
      FullCut(o, xs, shown, limit);
      VisitedItems(xs, shown, limit);
      CutWalkIsVisited(o, xs[limit..], shown, limit, calls - 1);
    }
  }

  /** A request from the cursor of any row that can end a page answers with what comes after it. */
  ghost predicate Resumes<T, K(!new)>(
    page: K -> Answer<T, K>, o: Order<T, K>, xs: seq<T>, shown: set<T>, limit: nat)
  {
    forall i | Max(0, limit - 1) <= i < |xs| :: page(o.key(xs[i])) == Cut(o, xs[i + 1..], shown, limit)
  }

  lemma ResumesTail<T, K(!new)>(
    page: K -> Answer<T, K>, o: Order<T, K>, xs: seq<T>, shown: set<T>, limit: nat, n: nat)
    requires Resumes(page, o, xs, shown, limit) && n <= |xs|
    ensures Resumes(page, o, xs[n..], shown, limit)
  {
    var rest := xs[n..];
    forall i | Max(0, limit - 1) <= i < |rest| ensures page(o.key(rest[i])) == Cut(o, rest[i + 1..], shown, limit) {
      assert rest[i] == xs[n + i] && rest[i + 1..] == xs[n + i + 1..];
    }
  }

  /** The request after a full page resumes behind it. */
  lemma NextPage<T(!new), K(!new)>(
    page: K -> Answer<T, K>, o: Order<T, K>, xs: seq<T>, shown: set<T>, limit: nat)
    requires limit > 0 && Resumes(page, o, xs, shown, limit) && Cut(o, xs, shown, limit).next.Some?
    ensures limit <= |xs| && Cut(o, xs, shown, limit) == Answer(xs[..limit], Some(o.key(xs[limit - 1])))
    ensures page(o.key(xs[limit - 1])) == Cut(o, xs[limit..], shown, limit)
    ensures Resumes(page, o, xs[limit..], shown, limit)
  {
    FullCut(o, xs, shown, limit);
    ResumesTail(page, o, xs, shown, limit, limit);
  }

  lemma {:induction false} WalkIsCutWalk<T(!new), K(!new)>(
    page: K -> Answer<T, K>, o: Order<T, K>, xs: seq<T>, shown: set<T>, limit: nat, c: K, calls: nat)
    requires limit > 0 && calls >= CallsNeeded(|xs|, limit)
    requires page(c) == Cut(o, xs, shown, limit) && Resumes(page, o, xs, shown, limit)
    ensures Walk(page, c, calls) == Answer(CutWalk(o, xs, shown, limit, calls), None)
    decreases calls
  {
    hide Cut, Resumes;
    if page(c).next.Some? {
      NextPage(page, o, xs, shown, limit);
      WalkIsCutWalk(page, o, xs[limit..], shown, limit, o.key(xs[limit - 1]), calls - 1);
    }
  }

  /** The same for any number of requests, as far as the rows go. */
  lemma {:induction false} WalkItemsAreCut<T(!new), K(!new)>(
    page: K -> Answer<T, K>, o: Order<T, K>, xs: seq<T>, shown: set<T>, limit: nat, c: K, calls: nat)
    requires limit > 0 && page(c) == Cut(o, xs, shown, limit) && Resumes(page, o, xs, shown, limit)
    ensures Walk(page, c, calls).items == CutWalk(o, xs, shown, limit, calls)
    decreases calls
  {
    hide Cut, Resumes;
    if calls > 0 && page(c).next.Some? {
      NextPage(page, o, xs, shown, limit);
      WalkItemsAreCut(page, o, xs[limit..], shown, limit, o.key(xs[limit - 1]), calls - 1);
    }
  }

  lemma KeptInFront<T(!new)>(xs: seq<T>, shown: set<T>, limit: nat, n: nat)
    requires limit <= |xs| && n <= |xs| - limit && forall i | 0 <= i < limit :: xs[i] in shown
    ensures xs[..limit] + Keep(xs[limit..][..n], shown) == Keep(xs[..limit + n], shown)
  {
    assert xs[..limit + n] == xs[..limit] + xs[limit..][..n];
    KeepAppend(xs[..limit], xs[limit..][..n], shown);
    KeepAll(xs[..limit], shown);
  }

  /** After any number of requests the walk has the shown rows of some front part of the list. */
  lemma {:induction false} CutWalkIsKept<T(!new), K>(o: Order<T, K>, xs: seq<T>, shown: set<T>, limit: nat, calls: nat)
    returns (n: nat)
    requires limit > 0
    ensures n <= |xs| && CutWalk(o, xs, shown, limit, calls) == Keep(xs[..n], shown)
    decreases calls
  {
    if calls == 0 {
      n := 0;
    } else if Cut(o, xs, shown, limit).next.None? || |xs| < limit {
      n := |Take(xs, limit)|;
      assert xs[..n] == Take(xs, limit);
    } else {
      FullCut(o, xs, shown, limit);
      var m := CutWalkIsKept(o, xs[limit..], shown, limit, calls - 1);
      n := limit + m;
      KeptInFront(xs, shown, limit, m);
    }
  }

  /** A keyset query resumes anywhere in its own sorted list. */
  lemma KeysetResumes<T(!new), K(!new)>(
    page: K -> Answer<T, K>, o: Order<T, K>, s: set<T>, shown: set<T>, limit: nat, xs: seq<T>)
    requires Lawful(o, s) && AnswersKeyset(page, o, s, shown, limit)
    requires Sorted(o, xs) && forall x <- xs :: x in s
    requires forall x, y | x in xs && y in s && o.Precedes(x, y) :: y in xs
    ensures Resumes(page, o, xs, shown, limit)
  {
    forall i | Max(0, limit - 1) <= i < |xs| ensures page(o.key(xs[i])) == Cut(o, xs[i + 1..], shown, limit) {
      assert xs[i] in xs;
      AfterIsTail(o, s, xs, i);
    }
  }

  /**
   Main theorem of strict keyset paging: after enough requests the walk has ended, and what it
   returned is the shown part of the sorted list up to and including the page with the first
   hidden row.
   */
  lemma WalkIsVisitedListing<T(!new), K(!new)>(
    page: K -> Answer<T, K>, o: Order<T, K>, s: set<T>, shown: set<T>, limit: nat, c: K, calls: nat)
    requires Lawful(o, s) && limit > 0 && AnswersKeyset(page, o, s, shown, limit)
    requires page(c) == KeysetPage(o, s, shown, limit, c)
    requires calls >= CallsNeeded(|Listing(o, After(o, s, c))|, limit)
    ensures Walk(page, c, calls)
         == Answer(VisitedRows(Listing(o, After(o, s, c)), shown, limit), None)
  {
    var xs := Listing(o, After(o, s, c));
    ListingIsSorted(o, After(o, s, c));
    KeysetResumes(page, o, s, shown, limit, xs);
    WalkIsCutWalk(page, o, xs, shown, limit, c, calls);
    CutWalkIsVisited(o, xs, shown, limit, calls);
  }

  /** However many requests are made, their rows are sorted and without repeats. */
  lemma WalkIsSorted<T(!new), K(!new)>(
    page: K -> Answer<T, K>, o: Order<T, K>, s: set<T>, shown: set<T>, limit: nat, c: K, calls: nat)
    requires Lawful(o, s) && limit > 0 && AnswersKeyset(page, o, s, shown, limit)
    requires page(c) == KeysetPage(o, s, shown, limit, c)
    ensures Sorted(o, Walk(page, c, calls).items) && NoRepeats(Walk(page, c, calls).items)
  {
    var xs := Listing(o, After(o, s, c));
    ListingIsSorted(o, After(o, s, c));
    KeysetResumes(page, o, s, shown, limit, xs);
    WalkItemsAreCut(page, o, xs, shown, limit, c, calls);
    var n := CutWalkIsKept(o, xs, shown, limit, calls);
    KeptPrefixSorted(o, xs, n, shown);
    SortedHasNoRepeats(o, Keep(xs[..n], shown));
  }

  /** When the outer query hides nothing, the walk returns the sorted list itself. */
  lemma WalkIsListing<T(!new), K(!new)>(
    page: K -> Answer<T, K>, o: Order<T, K>, s: set<T>, shown: set<T>, limit: nat, c: K, calls: nat)
    requires Lawful(o, s) && limit > 0 && AnswersKeyset(page, o, s, shown, limit)
    requires page(c) == KeysetPage(o, s, shown, limit, c)
    requires calls >= CallsNeeded(|Listing(o, After(o, s, c))|, limit)
    requires After(o, s, c) <= shown
    ensures Walk(page, c, calls) == Answer(Listing(o, After(o, s, c)), None)
  {
    var xs := Listing(o, After(o, s, c));
    WalkIsVisitedListing(page, o, s, shown, limit, c, calls);
    ListingIsSorted(o, After(o, s, c));
    forall i | 0 <= i < |xs| ensures xs[i] in shown { assert xs[i] in xs; }
    FirstHiddenIs(xs, shown, |xs|);
    assert xs[..|xs|] == xs;
    KeepAll(xs, shown);
  }

  /** Leaving off the end of a list loses no shown row exactly when none is shown there. */
  lemma CutLosesNothingIff<T(!new)>(xs: seq<T>, v: nat, shown: set<T>)
    requires v <= |xs|
    ensures Keep(xs[..v], shown) == Keep(xs, shown) <==> forall i | v <= i < |xs| :: xs[i] !in shown
  {
    assert xs == xs[..v] + xs[v..];
    KeepAppend(xs[..v], xs[v..], shown);
    var tail := xs[v..];
    if Keep(tail, shown) == [] {
      forall i | v <= i < |xs| ensures xs[i] !in shown {
        assert xs[i] == tail[i - v];
        KeepHas(tail, shown, xs[i]);
      }
    } else {
      var x := Keep(tail, shown)[0];
      KeepHas(tail, shown, x);
      var i :| 0 <= i < |tail| && tail[i] == x;
      assert xs[v + i] in shown;
    }
  }

  /** The walk returns every shown row exactly when none comes after the visited part. */
  lemma WalkIsCompleteIff<T(!new), K(!new)>(
    page: K -> Answer<T, K>, o: Order<T, K>, s: set<T>, shown: set<T>, limit: nat, c: K, calls: nat)
    requires Lawful(o, s) && limit > 0 && AnswersKeyset(page, o, s, shown, limit)
    requires page(c) == KeysetPage(o, s, shown, limit, c)
    requires calls >= CallsNeeded(|Listing(o, After(o, s, c))|, limit)
    ensures var xs := Listing(o, After(o, s, c));
            Walk(page, c, calls).items == Keep(xs, shown)
            <==> forall i | Visited(xs, shown, limit) <= i < |xs| :: xs[i] !in shown
  {
    var xs := Listing(o, After(o, s, c));
    WalkIsVisitedListing(page, o, s, shown, limit, c, calls);
    CutLosesNothingIff(xs, Visited(xs, shown, limit), shown);
  }

  // ---- Date windows: the list endpoints whose first cursor is the edge of the range ----

  /**
   One request of a date-window query over the in-range rows `s`: a cursor on the edge of the
   range admits the whole range again, any other cursor resumes strictly after itself.
   */
  ghost function WindowPage<T(!new), K(!new)>(
    o: Order<T, K>, s: set<T>, edge: K -> bool, limit: nat, c: K): Answer<T, K>
    requires Lawful(o, s)
  {
    Cut(o, Listing(o, if edge(c) then s else After(o, s, c)), s, limit)
  }

  ghost predicate AnswersWindow<T(!new), K(!new)>(
    page: K -> Answer<T, K>, o: Order<T, K>, s: set<T>, edge: K -> bool, limit: nat)
    requires Lawful(o, s)
  {
    forall x {:trigger page(o.key(x))} | x in s :: page(o.key(x)) == WindowPage(o, s, edge, limit, o.key(x))
  }

  /** Rows on the edge of the range. */
  function OnEdge<T, K>(o: Order<T, K>, s: set<T>, edge: K -> bool): set<T> {
    set x | x in s && edge(o.key(x))
  }

  /** Edge rows come first in the order. */
  ghost predicate EdgeFirst<T(!new), K(!new)>(o: Order<T, K>, s: set<T>, edge: K -> bool) {
    forall x, y | x in s && y in s && edge(o.key(y)) && o.Precedes(x, y) :: edge(o.key(x))
  }

  lemma {:induction false} NoRepeatsSize<T>(xs: seq<T>)
    requires NoRepeats(xs)
    ensures |set x | x in xs| == |xs|
  {
    if xs != [] {
      var front, last := xs[..|xs| - 1], xs[|xs| - 1];
      NoRepeatsSize(front);
      assert (set x | x in xs) == (set x | x in front) + {last};
    }
  }

  /** The number of edge rows is where the sorted list leaves the edge. */
  lemma EdgePrefix<T(!new), K(!new)>(o: Order<T, K>, xs: seq<T>, s: set<T>, edge: K -> bool)
    requires Sorted(o, xs) && NoRepeats(xs) && Lists(xs, s) && EdgeFirst(o, s, edge)
    ensures |OnEdge(o, s, edge)| <= |xs|
    ensures forall i | 0 <= i < |xs| :: edge(o.key(xs[i])) <==> i < |OnEdge(o, s, edge)|
  {
    var on := OnEdge(o, s, edge);
    var h := FirstHidden(xs, on);
    FirstHiddenSplits(xs, on);
    forall i | 0 <= i < |xs| ensures edge(o.key(xs[i])) <==> i < h {
      assert xs[i] in xs;
      assert i > h ==> xs[h] in xs && o.Precedes(xs[h], xs[i]);
    }
    NoRepeatsSize(xs[..h]);
    assert on == set x | x in xs[..h];
  }

  lemma SortedHasNoRepeats<T(!new), K(!new)>(o: Order<T, K>, xs: seq<T>)
    requires StrictTotal(o.less) && Sorted(o, xs)
    ensures NoRepeats(xs)
  {
    forall i, j | 0 <= i < j < |xs| ensures xs[i] != xs[j] {
      assert o.Precedes(xs[i], xs[j]);
    }
  }

  lemma {:induction false} KeepSorted<T(!new), K(!new)>(o: Order<T, K>, xs: seq<T>, shown: set<T>)
    requires Sorted(o, xs)
    ensures Sorted(o, Keep(xs, shown))
  {
    if xs != [] {
      KeepSorted(o, xs[1..], shown);
      var rest := Keep(xs[1..], shown);
      forall i | 0 <= i < |rest| ensures o.Precedes(xs[0], rest[i]) {
        KeepHas(xs[1..], shown, rest[i]);
        var j :| 0 <= j < |xs[1..]| && xs[1..][j] == rest[i];
        assert o.Precedes(xs[0], xs[j + 1]);
      }
    }
  }

  lemma KeptPrefixSorted<T(!new), K(!new)>(o: Order<T, K>, xs: seq<T>, n: nat, shown: set<T>)
    requires Sorted(o, xs) && n <= |xs|
    ensures Sorted(o, Keep(xs[..n], shown))
  {
    KeepSorted(o, xs[..n], shown);
  }

  /** Fewer than `limit` rows on the edge: the walk ends and returns the sorted list. */
  lemma WindowWalkIsListing<T(!new), K(!new)>(
    page: K -> Answer<T, K>, o: Order<T, K>, s: set<T>, edge: K -> bool, limit: nat, c: K, calls: nat)
    requires Lawful(o, s) && EdgeFirst(o, s, edge) && AnswersWindow(page, o, s, edge, limit)
    requires edge(c) && page(c) == WindowPage(o, s, edge, limit, c)
    requires |OnEdge(o, s, edge)| < limit && calls >= CallsNeeded(|Listing(o, s)|, limit)
    ensures Walk(page, c, calls) == Answer(Listing(o, s), None)
  {
    var xs := Listing(o, s);
    ListingIsSorted(o, s);
    SortedHasNoRepeats(o, xs);
    EdgePrefix(o, xs, s, edge);
    forall i | Max(0, limit - 1) <= i < |xs| ensures page(o.key(xs[i])) == Cut(o, xs[i + 1..], s, limit) {
      assert xs[i] in xs;
      AfterIsTail(o, s, xs, i);
    }
    WalkIsCutWalk(page, o, xs, s, limit, c, calls);
    CutWalkIsVisited(o, xs, s, limit, calls);
    forall i | 0 <= i < |xs| ensures xs[i] in s { assert xs[i] in xs; }
    FirstHiddenIs(xs, s, |xs|);
    assert xs[..|xs|] == xs;
    KeepAll(xs, s);
  }

  /** `limit` or more rows on the edge: the second request answers exactly like the first. */
  lemma WindowPageRepeats<T(!new), K(!new)>(
    page: K -> Answer<T, K>, o: Order<T, K>, s: set<T>, edge: K -> bool, limit: nat, c: K)
    requires Lawful(o, s) && EdgeFirst(o, s, edge) && AnswersWindow(page, o, s, edge, limit)
    requires edge(c) && page(c) == WindowPage(o, s, edge, limit, c)
    requires 0 < limit <= |OnEdge(o, s, edge)|
    ensures page(c).next.Some? && edge(page(c).next.value) && page(page(c).next.value) == page(c)
  {
    var xs := Listing(o, s);
    ListingIsSorted(o, s);
    SortedHasNoRepeats(o, xs);
    EdgePrefix(o, xs, s, edge);
    forall x | x in Take(xs, limit) ensures x in s { assert x in xs; }
    KeepAll(Take(xs, limit), s);
    var last := xs[limit - 1];
    assert last in xs;
    assert page(o.key(last)) == WindowPage(o, s, edge, limit, o.key(last));
  }

  function Repeated<T>(xs: seq<T>, n: nat): seq<T> {
    if n == 0 then [] else xs + Repeated(xs, n - 1)
  }

  lemma {:induction false} RepeatingWalk<T, K>(page: K -> Answer<T, K>, c: K, d: K, calls: nat)
    requires page(c).next == Some(d) && page(d) == page(c)
    ensures Walk(page, c, calls).next.Some?
    ensures Walk(page, c, calls).items == Repeated(page(c).items, calls)
    decreases calls
  {
    if calls > 0 {
      RepeatingWalk(page, d, d, calls - 1);
    }
  }

  /**
   A date-window walk from the edge ends exactly when fewer than `limit` rows are on the edge;
   otherwise it returns its first page over and over.
   */
  lemma WindowWalkEndsIff<T(!new), K(!new)>(
    page: K -> Answer<T, K>, o: Order<T, K>, s: set<T>, edge: K -> bool, limit: nat, c: K)
    requires Lawful(o, s) && EdgeFirst(o, s, edge) && AnswersWindow(page, o, s, edge, limit)
    requires edge(c) && page(c) == WindowPage(o, s, edge, limit, c) && limit > 0
    ensures (exists calls: nat :: Walk(page, c, calls).next.None?) <==> |OnEdge(o, s, edge)| < limit
    ensures |OnEdge(o, s, edge)| >= limit ==>
              forall calls: nat :: Walk(page, c, calls).items == Repeated(page(c).items, calls)
  {
    if |OnEdge(o, s, edge)| < limit {
      var calls := CallsNeeded(|Listing(o, s)|, limit);
      WindowWalkIsListing(page, o, s, edge, limit, c, calls);
    } else {
      WindowPageRepeats(page, o, s, edge, limit, c);
      forall calls: nat
        ensures Walk(page, c, calls).next.Some?
        ensures Walk(page, c, calls).items == Repeated(page(c).items, calls)
      {
        RepeatingWalk(page, c, page(c).next.value, calls);
      }
    }
  }
}
