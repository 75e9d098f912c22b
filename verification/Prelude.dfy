/** Scalars shared by every table, and first-occurrence de-duplication of sequences. */
module Prelude {

  datatype Option<+T> = None | Some(value: T)

  /** A 128-bit identifier; the database compares identifiers as unsigned numbers. */
  type Uuid = nat

  /** Milliseconds since the epoch. */
  type Time = int

  const DAY: int := 86_400_000

  function Min(a: int, b: int): int {
    if a <= b then a else b
  }

  function Max(a: int, b: int): int {
    if a <= b then b else a
  }

  /** One identifier if the condition holds. */
  function If(c: bool, id: Uuid): set<Uuid> {
    if c then {id} else {}
  }

  /** Whole days from `end` to `start`, rounded towards minus infinity. */
  function CalcDateDiff(start: Time, end: Time): int {
    (start - end) / DAY
  }

  lemma DaysBelow(start: Time, end: Time, n: int)
    ensures CalcDateDiff(start, end) < n <==> start - end < n * DAY
  {
    var t := start - end;
    assert t == (t / DAY) * DAY + t % DAY;
  }

  /** The elements of `xs` that belong to `s`, in order. */
  function Keep<T(==)>(xs: seq<T>, s: set<T>): (ys: seq<T>)
    ensures |ys| <= |xs|
  {
    if xs == [] then []
    else if xs[0] in s then [xs[0]] + Keep(xs[1..], s)
    else Keep(xs[1..], s)
  }

  lemma {:induction false} KeepHas<T>(xs: seq<T>, s: set<T>, x: T)
    ensures x in Keep(xs, s) <==> x in xs && x in s
  {
    if xs != [] {
      KeepHas(xs[1..], s, x);
      assert xs == [xs[0]] + xs[1..];
    }
  }

  lemma {:induction false} KeepAppend<T>(xs: seq<T>, ys: seq<T>, s: set<T>)
    ensures Keep(xs + ys, s) == Keep(xs, s) + Keep(ys, s)
  {
    if xs == [] {
      assert xs + ys == ys;
    } else {
      assert (xs + ys)[1..] == xs[1..] + ys;
      KeepAppend(xs[1..], ys, s);
    }
  }

  lemma {:induction false} KeepAll<T>(xs: seq<T>, s: set<T>)
    ensures |Keep(xs, s)| == |xs| <==> forall x <- xs :: x in s
    ensures (forall x <- xs :: x in s) ==> Keep(xs, s) == xs
  {
    if xs != [] {
      KeepAll(xs[1..], s);
      assert xs == [xs[0]] + xs[1..];
      if xs[0] in s && forall x <- xs[1..] :: x in s {
        assert forall x <- xs :: x in s;
      }
    }
  }

  /** Each value of `xs` once, at the place of its first occurrence. */
  function Distinct<T(==)>(xs: seq<T>): seq<T> {
    if xs == [] then []
    else
      var front := Distinct(xs[..|xs| - 1]);
      var last := xs[|xs| - 1];
      if last in front then front else front + [last]
  }

  lemma {:induction false} DistinctElements<T(!new)>(xs: seq<T>)
    ensures forall y :: y in Distinct(xs) <==> y in xs
    ensures NoRepeats(Distinct(xs))
  {
    if xs != [] {
      DistinctElements(xs[..|xs| - 1]);
      assert xs == xs[..|xs| - 1] + [xs[|xs| - 1]];
    }
  }

  ghost predicate NoRepeats<T>(xs: seq<T>) {
    forall i, j | 0 <= i < j < |xs| :: xs[i] != xs[j]
  }

  /** Appending one value: what each turn of a de-duplicating loop does. */
  lemma DistinctSnoc<T(!new)>(xs: seq<T>, x: T)
    ensures Distinct(xs + [x]) == if x in Distinct(xs) then Distinct(xs) else Distinct(xs) + [x]
  {
    assert (xs + [x])[..|xs|] == xs;
  }

  lemma {:induction false} DistinctOfNoRepeats<T(!new)>(xs: seq<T>)
    requires NoRepeats(xs)
    ensures Distinct(xs) == xs
  {
    if xs != [] {
      DistinctOfNoRepeats(xs[..|xs| - 1]);
      DistinctElements(xs[..|xs| - 1]);
      assert xs == xs[..|xs| - 1] + [xs[|xs| - 1]];
    }
  }

  /** The values of `f` along `xs`. */
  function MapSeq<T, U>(f: T -> U, xs: seq<T>): (ys: seq<U>)
    ensures |ys| == |xs| && forall i | 0 <= i < |xs| :: ys[i] == f(xs[i])
  {
    seq(|xs|, i requires 0 <= i < |xs| => f(xs[i]))
  }

  lemma MapSnoc<T(!new), U(!new)>(f: T -> U, xs: seq<T>, x: T)
    ensures MapSeq(f, xs + [x]) == MapSeq(f, xs) + [f(x)]
    ensures x in xs ==> f(x) in MapSeq(f, xs)
  {
    if x in xs {
      var i :| 0 <= i < |xs| && xs[i] == x;
      assert MapSeq(f, xs)[i] == f(x);
    }
  }

  /** De-duplicating before or after a map gives the same distinct values. */
  lemma {:induction false} DistinctMap<T(!new), U(!new)>(f: T -> U, xs: seq<T>)
    ensures Distinct(MapSeq(f, xs)) == Distinct(MapSeq(f, Distinct(xs)))
  {
    if xs != [] {
      var front, last := xs[..|xs| - 1], xs[|xs| - 1];
      assert xs == front + [last];
      DistinctMap(f, front);
      DistinctSnoc(front, last);
      MapSnoc(f, front, last);
      DistinctSnoc(MapSeq(f, front), f(last));
      var seen := Distinct(front);
      MapSnoc(f, seen, last);
      DistinctSnoc(MapSeq(f, seen), f(last));
      DistinctElements(MapSeq(f, seen));
    }
  }

  /** Every value is a repeat or comes after all the values before it. */
  ghost predicate RepeatsOrFollows<T(!new)>(xs: seq<T>, le: (T, T) -> bool) {
    forall j | 0 <= j < |xs| :: xs[j] in xs[..j] || forall i | 0 <= i < j :: le(xs[i], xs[j])
  }

  lemma FrontRepeatsOrFollows<T(!new)>(xs: seq<T>, x: T, le: (T, T) -> bool)
    requires RepeatsOrFollows(xs + [x], le)
    ensures RepeatsOrFollows(xs, le)
    ensures x !in xs ==> forall y <- xs :: le(y, x)
  {
    var longer := xs + [x];
    forall j | 0 <= j < |xs| ensures xs[j] in xs[..j] || forall i | 0 <= i < j :: le(xs[i], xs[j]) {
      assert xs[j] == longer[j] && xs[..j] == longer[..j];
    }
    assert longer[..|xs|] == xs && longer[|xs|] == x;
  }

  /** De-duplication sorts such a sequence. */
  lemma {:induction false} DistinctSorted<T(!new)>(xs: seq<T>, le: (T, T) -> bool)
    requires RepeatsOrFollows(xs, le)
    ensures var ys := Distinct(xs); forall i, j | 0 <= i < j < |ys| :: le(ys[i], ys[j])
  {
    hide RepeatsOrFollows;
    if xs != [] {
      var front, last := xs[..|xs| - 1], xs[|xs| - 1];
      assert xs == front + [last];
      FrontRepeatsOrFollows(front, last, le);
      DistinctSorted(front, le);
      DistinctSnoc(front, last);
      DistinctElements(front);
      assert last !in Distinct(front) ==> forall y <- Distinct(front) :: le(y, last);
    }
  }
}
