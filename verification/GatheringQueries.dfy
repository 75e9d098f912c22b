/** The gathering lists: date-window paging, the feed flag of ended gatherings, and the no-feed list. */
module GatheringQueries {
  import opened Prelude
  import opened Tables
  import opened Paging
  import opened Social
  import opened FeedQueries
  import opened FeedFold

  function GatheringKey(db: Db): Uuid -> DateId {
    (id: Uuid) => DateId(if id in db.gatherings then db.gatherings[id].gatheringDate else 0, id)
  }

  function ByDate(db: Db, direction: Direction): Order<Uuid, DateId> {
    Order(GatheringKey(db), Compare(direction))
  }

  lemma ByDateIsLawful(db: Db, direction: Direction, s: set<Uuid>)
    ensures Lawful(ByDate(db, direction), s)
  {
  }

  ghost function Listed(db: Db, direction: Direction, s: set<Uuid>): seq<Uuid> {
    ByDateIsLawful(db, direction, s);
    Listing(ByDate(db, direction), s)
  }

  // ---- Which gatherings match ----

  /** Gatherings the user accepted, not deleted. */
  function Mine(db: Db, user: Uuid): set<Uuid> {
    set g | g in db.gatherings && ActiveGathering(db, g) && TakesPart(db, g, user)
  }

  function Dated(db: Db, s: set<Uuid>, range: Range): set<Uuid> {
    set g | g in s && g in db.gatherings && InRange(range, db.gatherings[g].gatheringDate)
  }

  function Ended(db: Db, s: set<Uuid>): set<Uuid> {
    set g | g in s && g in db.gatherings && db.gatherings[g].endedAt.Some?
  }

  /** `findByUserId`: what the user is still waiting for. */
  function WaitingIn(db: Db, user: Uuid, range: Range): set<Uuid> {
    Dated(db, Mine(db, user) - Ended(db, Mine(db, user)), range)
  }

  /** `findEndedGatheringsByUserId`. */
  function EndedIn(db: Db, user: Uuid, range: Range): set<Uuid> {
    Dated(db, Ended(db, Mine(db, user)), range)
  }

  // ---- Descending date windows (waiting and ended) ----

  /** The cursor condition: a cursor on `maxDate` also admits its own date. */
  function Admitted(db: Db, s: set<Uuid>, range: Range, c: DateId): set<Uuid> {
    set g | g in s &&
      var row := GatheringKey(db)(g);
      || (if range.maxDate == c.createdAt then row.createdAt <= c.createdAt else row.createdAt < c.createdAt)
      || (row.createdAt == c.createdAt && row.id > c.id)
  }

  ghost function DescendingPages(db: Db, s: set<Uuid>, range: Range, limit: nat): DateId -> Answer<Uuid, DateId> {
    c => Cut(ByDate(db, DESC), Listed(db, DESC, Admitted(db, s, range, c)), s, limit)
  }

  function OnDate(t: Time): DateId -> bool {
    (c: DateId) => c.createdAt == t
  }

  function NotBelow(t: Time): DateId -> bool {
    (c: DateId) => c.createdAt >= t
  }

  /** Gatherings exactly on a date. */
  function On(db: Db, s: set<Uuid>, t: Time): set<Uuid> {
    set g | g in s && GatheringKey(db)(g).createdAt == t
  }

  lemma DescendingIsWindow(db: Db, s: set<Uuid>, range: Range, limit: nat)
    requires s == Dated(db, s, range)
    ensures Lawful(ByDate(db, DESC), s)
    ensures EdgeFirst(ByDate(db, DESC), s, NotBelow(range.maxDate))
    ensures OnEdge(ByDate(db, DESC), s, NotBelow(range.maxDate)) == On(db, s, range.maxDate)
    ensures forall c :: DescendingPages(db, s, range, limit)(c)
                     == WindowPage(ByDate(db, DESC), s, NotBelow(range.maxDate), limit, c)
  {
    var o := ByDate(db, DESC);
    ByDateIsLawful(db, DESC, s);
    forall c: DateId
      ensures DescendingPages(db, s, range, limit)(c) == WindowPage(o, s, NotBelow(range.maxDate), limit, c)
    {
      assert Admitted(db, s, range, c) == if c.createdAt >= range.maxDate then s else After(o, s, c);
    }
    forall x, y | x in s && y in s && NotBelow(range.maxDate)(o.key(y)) && o.Precedes(x, y)
      ensures NotBelow(range.maxDate)(o.key(x))
    {
      assert InRange(range, db.gatherings[x].gatheringDate);
    }
  }

  /**
   A walk over the waiting or the ended list from `maxDate` or above: it ends exactly when fewer than `limit`
   of the gatherings are on `maxDate`, and then it has returned all of them, sorted; otherwise every
   page is the first one.
   */
  lemma DescendingWalkIff(db: Db, user: Uuid, s: set<Uuid>, range: Range, limit: nat, c: DateId, calls: nat)
    requires s == WaitingIn(db, user, range) || s == EndedIn(db, user, range)
    requires limit > 0 && c.createdAt >= range.maxDate
    requires calls >= CallsNeeded(|Listed(db, DESC, s)|, limit)
    ensures (exists n: nat :: Walk(DescendingPages(db, s, range, limit), c, n).next.None?)
       <==> |On(db, s, range.maxDate)| < limit
    ensures |On(db, s, range.maxDate)| < limit ==>
              Walk(DescendingPages(db, s, range, limit), c, calls) == Answer(Listed(db, DESC, s), None)
    ensures |On(db, s, range.maxDate)| >= limit ==>
              forall n: nat :: Walk(DescendingPages(db, s, range, limit), c, n).items
                            == Repeated(DescendingPages(db, s, range, limit)(c).items, n)
  {
    var page, o, edge := DescendingPages(db, s, range, limit), ByDate(db, DESC), NotBelow(range.maxDate);
    assert s == Dated(db, s, range);
    DescendingIsWindow(db, s, range, limit);
    WindowWalkEndsIff(page, o, s, edge, limit, c);
    if |On(db, s, range.maxDate)| < limit {
      WindowWalkIsListing(page, o, s, edge, limit, c, calls);
    }
  }

  lemma KeepSame(xs: seq<Uuid>, a: set<Uuid>, b: set<Uuid>)
    requires forall x <- xs :: x in a && x in b
    ensures Keep(xs, a) == Keep(xs, b)
  {
    KeepAll(xs, a);
    KeepAll(xs, b);
  }

  /** Below `maxDate` a window page is a strict keyset page of what is left. */
  lemma DescendingIsKeyset(db: Db, s: set<Uuid>, range: Range, limit: nat, c: DateId, k: DateId)
    requires c.createdAt < range.maxDate && (k == c || Earlier(c, k))
    ensures var o := ByDate(db, DESC);
            Lawful(o, After(o, s, c))
            && DescendingPages(db, s, range, limit)(k) == KeysetPage(o, After(o, s, c), After(o, s, c), limit, k)
  {
    var o := ByDate(db, DESC);
    var later := After(o, s, c);
    ByDateIsLawful(db, DESC, later);
    var admitted := Admitted(db, s, range, k);
    assert admitted == After(o, later, k);
    ListingIsSorted(o, admitted);
    var page := Take(Listing(o, admitted), limit);
    forall g | g in page ensures g in s && g in later {
      assert g in Listing(o, admitted);
    }
    KeepSame(page, s, later);
  }

  /** From a cursor below `maxDate` the walk is exact without any hypothesis. */
  lemma DescendingWalkBelow(db: Db, s: set<Uuid>, range: Range, limit: nat, c: DateId, calls: nat)
    requires limit > 0 && c.createdAt < range.maxDate
    requires calls >= CallsNeeded(|Listed(db, DESC, After(ByDate(db, DESC), s, c))|, limit)
    ensures Walk(DescendingPages(db, s, range, limit), c, calls)
         == Answer(Listed(db, DESC, After(ByDate(db, DESC), s, c)), None)
  {
    var page, o := DescendingPages(db, s, range, limit), ByDate(db, DESC);
    var later := After(o, s, c);
    ByDateIsLawful(db, DESC, later);
    forall g | g in later ensures page(o.key(g)) == KeysetPage(o, later, later, limit, o.key(g)) {
      DescendingIsKeyset(db, s, range, limit, c, o.key(g));
    }
    DescendingIsKeyset(db, s, range, limit, c, c);
    assert After(o, later, c) == later;
    WalkIsListing(page, o, later, later, limit, c, calls);
  }

  // ---- The ascending list of all gatherings ----

  /** The condition as it is written: the date range belongs to the first alternative only. */
  function AdmittedAll(db: Db, user: Uuid, range: Range, c: DateId): set<Uuid> {
    set g | g in Mine(db, user) &&
      var row := GatheringKey(db)(g);
      || (if c.createdAt == range.minDate then InRange(range, row.createdAt)
          else c.createdAt < row.createdAt <= range.maxDate)
      || (row.createdAt == c.createdAt && row.id > c.id)
  }

  ghost function AscendingPages(db: Db, user: Uuid, range: Range, limit: nat): DateId -> Answer<Uuid, DateId> {
    c => Cut(ByDate(db, ASC), Listed(db, ASC, AdmittedAll(db, user, range, c)), Mine(db, user), limit)
  }

  /** For a cursor inside the range the pages are those of a date window. */
  lemma AscendingIsWindow(db: Db, user: Uuid, range: Range, limit: nat, c: DateId)
    requires InRange(range, c.createdAt)
    ensures Lawful(ByDate(db, ASC), Dated(db, Mine(db, user), range))
    ensures AscendingPages(db, user, range, limit)(c)
         == WindowPage(ByDate(db, ASC), Dated(db, Mine(db, user), range), OnDate(range.minDate), limit, c)
  {
    var o, s := ByDate(db, ASC), Dated(db, Mine(db, user), range);
    ByDateIsLawful(db, ASC, s);
    var admitted := AdmittedAll(db, user, range, c);
    assert admitted == if c.createdAt == range.minDate then s else After(o, s, c);
    var page := Take(Listed(db, ASC, admitted), limit);
    ByDateIsLawful(db, ASC, admitted);
    ListingIsSorted(o, admitted);
    forall g | g in page ensures g in Mine(db, user) && g in s {
      assert g in Listed(db, ASC, admitted);
    }
    KeepSame(page, Mine(db, user), s);
  }

  lemma AscendingWalkIff(db: Db, user: Uuid, range: Range, limit: nat, c: DateId, calls: nat)
    requires limit > 0 && c.createdAt == range.minDate <= range.maxDate
    requires calls >= CallsNeeded(|Listed(db, ASC, Dated(db, Mine(db, user), range))|, limit)
    ensures var s := Dated(db, Mine(db, user), range);
            && ((exists n: nat :: Walk(AscendingPages(db, user, range, limit), c, n).next.None?)
                <==> |On(db, s, range.minDate)| < limit)
            && (|On(db, s, range.minDate)| < limit ==>
                  Walk(AscendingPages(db, user, range, limit), c, calls) == Answer(Listed(db, ASC, s), None))
            && (|On(db, s, range.minDate)| >= limit ==>
                  forall n: nat :: Walk(AscendingPages(db, user, range, limit), c, n).items
                                == Repeated(AscendingPages(db, user, range, limit)(c).items, n))
  {
    var s := Dated(db, Mine(db, user), range);
    var page, o, edge := AscendingPages(db, user, range, limit), ByDate(db, ASC), OnDate(range.minDate);
    AscendingAnswersWindow(db, user, range, limit);
    AscendingIsWindow(db, user, range, limit, c);
    hide AscendingPages, Dated, Mine;
    WindowWalkEndsIff(page, o, s, edge, limit, c);
    if |On(db, s, range.minDate)| < limit {
      WindowWalkIsListing(page, o, s, edge, limit, c, calls);
    }
  }

  lemma AscendingAnswersWindow(db: Db, user: Uuid, range: Range, limit: nat)
    ensures var s := Dated(db, Mine(db, user), range);
            var o, edge := ByDate(db, ASC), OnDate(range.minDate);
            && Lawful(o, s) && EdgeFirst(o, s, edge)
            && AnswersWindow(AscendingPages(db, user, range, limit), o, s, edge, limit)
            && OnEdge(o, s, edge) == On(db, s, range.minDate)
  {
    var s := Dated(db, Mine(db, user), range);
    var page, o, edge := AscendingPages(db, user, range, limit), ByDate(db, ASC), OnDate(range.minDate);
    ByDateIsLawful(db, ASC, s);
    forall g | g in s ensures page(o.key(g)) == WindowPage(o, s, edge, limit, o.key(g)) {
      AscendingIsWindow(db, user, range, limit, o.key(g));
    }
    forall x, y | x in s && y in s && edge(o.key(y)) && o.Precedes(x, y) ensures edge(o.key(x)) {
      assert InRange(range, db.gatherings[x].gatheringDate);
    }
  }

  /** Above `minDate` and up to `maxDate` the pages are strict keyset pages of what is left. */
  lemma AscendingIsKeyset(db: Db, user: Uuid, range: Range, limit: nat, c: DateId, k: DateId)
    requires range.minDate < c.createdAt && InRange(range, k.createdAt) && (k == c || Later(c, k))
    ensures var o, later := ByDate(db, ASC), After(ByDate(db, ASC), Dated(db, Mine(db, user), range), c);
            Lawful(o, later) && AscendingPages(db, user, range, limit)(k) == KeysetPage(o, later, later, limit, k)
  {
    var o, s := ByDate(db, ASC), Dated(db, Mine(db, user), range);
    var later := After(o, s, c);
    ByDateIsLawful(db, ASC, later);
    AscendingIsWindow(db, user, range, limit, k);
    assert After(o, s, k) == After(o, later, k);
    ListingIsSorted(o, After(o, s, k));
    var page := Take(Listing(o, After(o, s, k)), limit);
    forall g | g in page ensures g in s && g in later {
      assert g in Listing(o, After(o, s, k));
    }
    KeepSame(page, s, later);
  }

  lemma DatedKeysInRange(db: Db, user: Uuid, range: Range)
    ensures forall g <- Dated(db, Mine(db, user), range) :: InRange(range, ByDate(db, ASC).key(g).createdAt)
  {
  }

  /** From such a cursor the walk is exact without any hypothesis. */
  lemma AscendingWalkWithin(db: Db, user: Uuid, range: Range, limit: nat, c: DateId, calls: nat)
    requires limit > 0 && range.minDate < c.createdAt <= range.maxDate
    requires calls
          >= CallsNeeded(|Listed(db, ASC, After(ByDate(db, ASC), Dated(db, Mine(db, user), range), c))|, limit)
    ensures Walk(AscendingPages(db, user, range, limit), c, calls)
         == Answer(Listed(db, ASC, After(ByDate(db, ASC), Dated(db, Mine(db, user), range), c)), None)
  {
    hide Dated, Mine, AscendingPages, KeysetPage;
    var page, o, s := AscendingPages(db, user, range, limit), ByDate(db, ASC), Dated(db, Mine(db, user), range);
    var later := After(o, s, c);
    ByDateIsLawful(db, ASC, later);
    DatedKeysInRange(db, user, range);
    forall g | g in later ensures page(o.key(g)) == KeysetPage(o, later, later, limit, o.key(g)) {
      AscendingIsKeyset(db, user, range, limit, c, o.key(g));
    }
    AscendingIsKeyset(db, user, range, limit, c, c);
    assert After(o, later, c) == later;
    WalkIsListing(page, o, later, later, limit, c, calls);
  }

  // ---- Cursors outside the range ----

  /** User 1 has accepted one gathering; the tables hold nothing else. */
  function OneGathering(g: Uuid, date: Time): Db {
    NoRows(map[]).(
      gatherings := map[g := GatheringRow(GatheringType.FRIEND, None, 1, "", date, None, None)],
      participations := map[(g, 0) := ParticipationRow(1, ParticipationStatus.ACCEPTED)])
  }

  lemma OneGatheringIsMine(g: Uuid, date: Time)
    ensures Mine(OneGathering(g, date), 1) == {g}
  {
    var db := OneGathering(g, date);
    assert (g, 0) in db.participations && TakesPart(db, g, 1);
  }

  /**
   The ascending list answers with gatherings of the range only, whatever the tables hold, exactly
   when the date of its cursor is in the range: from any other cursor it returns gatherings dated
   like the cursor itself.
   */
  lemma AllIsInRangeIff(range: Range, c: DateId)
    ensures (forall db, user :: AdmittedAll(db, user, range, c) <= Dated(db, Mine(db, user), range))
       <==> InRange(range, c.createdAt)
  {
    if !InRange(range, c.createdAt) {
      var g := c.id + 1;
      var db := OneGathering(g, c.createdAt);
      OneGatheringIsMine(g, c.createdAt);
      assert g in AdmittedAll(db, 1, range, c) && g !in Dated(db, Mine(db, 1), range);
    }
  }

  /** A cursor before an ordinary range also lets in what lies between the two. */
  lemma EarlyCursorLeaks()
    ensures 7 in AdmittedAll(OneGathering(7, 7), 1, Range(10, 20), DateId(5, 0))
    ensures Dated(OneGathering(7, 7), Mine(OneGathering(7, 7), 1), Range(10, 20)) == {}
  {
    OneGatheringIsMine(7, 7);
  }

  /**
   With the range upside down nothing is in range, yet the second alternative still answers: a
   gathering on `minDate` is returned exactly when its identifier is above the cursor's.
   */
  lemma InvertedRangeLeaks(db: Db, user: Uuid, range: Range, c: DateId, g: Uuid)
    requires range.maxDate < range.minDate == c.createdAt
    ensures Dated(db, Mine(db, user), range) == {}
    ensures g in AdmittedAll(db, user, range, c)
       <==> g in Mine(db, user) && db.gatherings[g].gatheringDate == range.minDate && g > c.id
  {
  }

  /** One gathering on the boundary date and pages of one: neither walk ever ends. */
  lemma BoundaryWalksNeverEnd(n: nat)
    ensures var db := OneGathering(7, 20);
            Walk(DescendingPages(db, WaitingIn(db, 1, Range(10, 20)), Range(10, 20), 1), DateId(20, 0), n).next.Some?
    ensures var db := OneGathering(7, 10);
            Walk(AscendingPages(db, 1, Range(10, 20), 1), DateId(10, 0), n).next.Some?
  {
    hide OneGathering, WaitingIn, Dated, Mine, On, Walk, DescendingPages, AscendingPages, Listed;
    var range, late, early := Range(10, 20), OneGathering(7, 20), OneGathering(7, 10);
    var s := WaitingIn(late, 1, range);
    LateWaits();
    EarlyIsDated();
    DescendingWalkIff(late, 1, s, range, 1, DateId(20, 0), CallsNeeded(|Listed(late, DESC, s)|, 1));
    AscendingWalkIff(early, 1, range, 1, DateId(10, 0),
                     CallsNeeded(|Listed(early, ASC, Dated(early, Mine(early, 1), range))|, 1));
  }

  lemma LateWaits()
    ensures On(OneGathering(7, 20), WaitingIn(OneGathering(7, 20), 1, Range(10, 20)), 20) == {7}
  {
    OneGatheringIsMine(7, 20);
  }

  lemma EarlyIsDated()
    ensures On(OneGathering(7, 10), Dated(OneGathering(7, 10), Mine(OneGathering(7, 10), 1), Range(10, 20)), 10) == {7}
  {
    OneGatheringIsMine(7, 10);
  }

  // ---- Reading a chosen page back (waiting and no-feed) ----

  function InfoOf(db: Db, g: Uuid): GatheringInfo {
    if g in db.gatherings then GatheringInfo(g, db.gatherings[g].name, db.gatherings[g].gatheringDate)
    else GatheringInfo(g, "", 0)
  }

  predicate InfoEarlier(a: GatheringInfo, b: GatheringInfo) {
    Earlier(DateId(a.gatheringDate, a.id), DateId(b.gatheringDate, b.id))
  }

  /** What the outer query may return: the chosen gatherings, sorted again. */
  ghost predicate IsInfoList(db: Db, chosen: seq<Uuid>, rows: seq<GatheringInfo>) {
    && (forall row :: row in rows <==> row.id in chosen && ActiveGathering(db, row.id) && row == InfoOf(db, row.id))
    && (forall i, j | 0 <= i < j < |rows| :: InfoEarlier(rows[i], rows[j]))
  }

  lemma InfoRowsAreChosen(db: Db, chosen: seq<Uuid>, rows: seq<GatheringInfo>)
    requires Sorted(ByDate(db, DESC), chosen) && forall g <- chosen :: ActiveGathering(db, g)
    requires IsInfoList(db, chosen, rows)
    ensures |rows| == |chosen| && forall i | 0 <= i < |rows| :: rows[i] == InfoOf(db, chosen[i])
  {
    var o, ids := ByDate(db, DESC), MapSeq((row: GatheringInfo) => row.id, rows);
    assert forall i | 0 <= i < |rows| :: rows[i] in rows;
    forall g ensures g in ids <==> g in chosen {
      if g in chosen {
        assert InfoOf(db, g) in rows;
        var i :| 0 <= i < |rows| && rows[i] == InfoOf(db, g);
        assert ids[i] == g;
      }
    }
    forall i, j | 0 <= i < j < |ids| ensures o.Precedes(ids[i], ids[j]) {
      assert InfoEarlier(rows[i], rows[j]);
    }
    ByDateIsLawful(db, DESC, {});
    SortedUnique(o, ids, chosen);
  }

  /** What the loop knows after some rows, all of them different. */
  ghost predicate InfoSoFar(rows: seq<GatheringInfo>, keys: seq<Uuid>, result: map<Uuid, GatheringInfo>) {
    && |keys| == |rows|
    && (forall i | 0 <= i < |rows| :: keys[i] == rows[i].id && keys[i] in result && result[keys[i]] == rows[i])
    && (forall id | id in result :: id in keys)
  }

  lemma InfoTurnKeeps(
    rows: seq<GatheringInfo>, n: nat, keys: seq<Uuid>, result: map<Uuid, GatheringInfo>)
    requires n < |rows| && DifferentIds(rows) && InfoSoFar(rows[..n], keys, result)
    ensures rows[n].id !in result
    ensures InfoSoFar(rows[..n + 1], keys + [rows[n].id], result[rows[n].id := rows[n]])
  {
    assert forall i | 0 <= i < n :: rows[..n][i] == rows[i] && keys[i] == rows[i].id;
  }

  lemma NoInfoYet()
    ensures InfoSoFar([], [], map[])
  {
  }

  lemma InfoIsComplete(rows: seq<GatheringInfo>, keys: seq<Uuid>, result: map<Uuid, GatheringInfo>)
    requires InfoSoFar(rows, keys, result)
    ensures |keys| == |rows| && forall i | 0 <= i < |rows| :: keys[i] in result && result[keys[i]] == rows[i]
  {
  }

  ghost predicate DifferentIds(rows: seq<GatheringInfo>) {
    forall i, j | 0 <= i < j < |rows| :: rows[i].id != rows[j].id
  }

  lemma ChosenDiffer(db: Db, chosen: seq<Uuid>, rows: seq<GatheringInfo>)
    requires Sorted(ByDate(db, DESC), chosen) && |rows| == |chosen|
    requires forall i | 0 <= i < |rows| :: rows[i] == InfoOf(db, chosen[i])
    ensures DifferentIds(rows)
  {
    ByDateIsLawful(db, DESC, {});
    SortedHasNoRepeats(ByDate(db, DESC), chosen);
  }

  /** The loop of `findGatherings`: a dictionary filled in row order gives the chosen page back. */
  method FindGatherings(ghost db: Db, ghost chosen: seq<Uuid>, rows: seq<GatheringInfo>)
    returns (list: seq<GatheringInfo>)
    requires Sorted(ByDate(db, DESC), chosen) && forall g <- chosen :: ActiveGathering(db, g)
    requires IsInfoList(db, chosen, rows)
    ensures |list| == |chosen| && forall i | 0 <= i < |list| :: list[i] == InfoOf(db, chosen[i])
  {
    hide Sorted, IsInfoList, InfoSoFar, InfoOf, DifferentIds;
    InfoRowsAreChosen(db, chosen, rows);
    ChosenDiffer(db, chosen, rows);
    var keys: seq<Uuid> := [];
    var result: map<Uuid, GatheringInfo> := map[];
    NoInfoYet();
    for n := 0 to |rows|
      invariant InfoSoFar(rows[..n], keys, result)
    {
      var row := rows[n];
      InfoTurnKeeps(rows, n, keys, result);
      if row.id !in result {
        result := result[row.id := row];
        keys := keys + [row.id];
      }
    }
    assert rows[..|rows|] == rows;
    InfoIsComplete(rows, keys, result);
    list := seq(|keys|, i requires 0 <= i < |keys| => result[keys[i]]);
  }

  /** One request for the waiting or the no-feed list: `admitted` are the rows of `s` the cursor lets through. */
  method ReadGatherings(
    ghost db: Db, ghost s: set<Uuid>, ghost admitted: set<Uuid>, limit: nat, rows: seq<GatheringInfo>)
    returns (list: seq<GatheringInfo>, next: Option<DateId>)
    requires admitted <= s && forall g <- s :: ActiveGathering(db, g)
    requires IsInfoList(db, Take(Listed(db, DESC, admitted), limit), rows)
    ensures var page := Cut(ByDate(db, DESC), Listed(db, DESC, admitted), s, limit);
            && next == page.next
            && |list| == |page.items|
            && forall i | 0 <= i < |list| :: list[i] == InfoOf(db, page.items[i])
  {
    ghost var chosen := Take(Listed(db, DESC, admitted), limit);
    ChosenWithin(db, s, admitted, limit);
    assert forall g <- chosen :: ActiveGathering(db, g);
    list := FindGatherings(db, chosen, rows);
    next := if 0 < limit <= |list| then Some(DateId(list[limit - 1].gatheringDate, list[limit - 1].id)) else None;
  }

  lemma ChosenWithin(db: Db, s: set<Uuid>, admitted: set<Uuid>, limit: nat)
    requires admitted <= s
    ensures var chosen := Take(Listed(db, DESC, admitted), limit);
            && Sorted(ByDate(db, DESC), chosen) && (forall g <- chosen :: g in s) && Keep(chosen, s) == chosen
  {
    var chosen := Take(Listed(db, DESC, admitted), limit);
    ByDateIsLawful(db, DESC, admitted);
    ListingIsSorted(ByDate(db, DESC), admitted);
    forall g | g in chosen ensures g in s {
      assert g in Listed(db, DESC, admitted);
    }
    KeepAll(chosen, s);
  }

  // ---- Ended gatherings and their feed flag ----

  datatype EndedRow = EndedRow(id: Uuid, name: string, gatheringDate: Time, isFeedPosted: bool)

  function EndedIds(rows: seq<EndedRow>): seq<Uuid> {
    MapSeq((row: EndedRow) => row.id, rows)
  }

  /** The entry of one gathering: fields of any of its rows, and the flag if one of them is set. */
  ghost predicate FoldsTo(rows: seq<EndedRow>, id: Uuid, entry: EndedRow) {
    && (exists row <- rows :: row.id == id && entry == row.(isFeedPosted := entry.isFeedPosted))
    && (entry.isFeedPosted <==> exists row <- rows :: row.id == id && row.isFeedPosted)
  }

  lemma EndedKeys(rows: seq<EndedRow>, row: EndedRow)
    ensures Distinct(EndedIds(rows + [row]))
         == if row.id in Distinct(EndedIds(rows)) then Distinct(EndedIds(rows)) else Distinct(EndedIds(rows)) + [row.id]
  {
    assert EndedIds(rows + [row]) == EndedIds(rows) + [row.id];
    DistinctSnoc(EndedIds(rows), row.id);
  }

  lemma NewEntry(rows: seq<EndedRow>, row: EndedRow)
    requires row.id !in Distinct(EndedIds(rows))
    ensures FoldsTo(rows + [row], row.id, row)
  {
    DistinctElements(EndedIds(rows));
    forall r | r in rows ensures r.id != row.id {
      var i :| 0 <= i < |rows| && rows[i] == r;
      assert EndedIds(rows)[i] == r.id;
    }
    assert row in rows + [row];
  }

  /** What one row does to the entry of a gathering. */
  function Flagged(id: Uuid, entry: EndedRow, row: EndedRow): EndedRow {
    if id == row.id && row.isFeedPosted then entry.(isFeedPosted := true) else entry
  }

  lemma GrowEntry(rows: seq<EndedRow>, row: EndedRow, id: Uuid, entry: EndedRow)
    requires FoldsTo(rows, id, entry)
    ensures FoldsTo(rows + [row], id, Flagged(id, entry, row))
  {
    var first :| first in rows && first.id == id && entry == first.(isFeedPosted := entry.isFeedPosted);
    assert first in rows + [row] && row in rows + [row];
  }

  /** What the loop knows after some rows: the dictionary and the order in which its keys came. */
  ghost predicate EndedSoFar(rows: seq<EndedRow>, keys: seq<Uuid>, result: map<Uuid, EndedRow>) {
    && keys == Distinct(EndedIds(rows))
    && (forall id :: id in result <==> id in keys)
    && (forall id | id in result :: FoldsTo(rows, id, result[id]))
  }

  /** One turn of the loop. */
  function EndedTurn(result: map<Uuid, EndedRow>, row: EndedRow): map<Uuid, EndedRow> {
    if row.id !in result then result[row.id := row]
    else if row.isFeedPosted then result[row.id := result[row.id].(isFeedPosted := true)]
    else result
  }

  lemma EndedTurnKeeps(rows: seq<EndedRow>, keys: seq<Uuid>, result: map<Uuid, EndedRow>, row: EndedRow)
    requires EndedSoFar(rows, keys, result)
    ensures EndedSoFar(rows + [row], if row.id in result then keys else keys + [row.id], EndedTurn(result, row))
  {
    hide Distinct, EndedIds, FoldsTo;
    EndedKeys(rows, row);
    var next := EndedTurn(result, row);
    forall id | id in next ensures FoldsTo(rows + [row], id, next[id]) {
      if id in result {
        GrowEntry(rows, row, id, result[id]);
      } else {
        NewEntry(rows, row);
      }
    }
  }

  lemma EndedKeysAreIn(rows: seq<EndedRow>, keys: seq<Uuid>, result: map<Uuid, EndedRow>)
    requires EndedSoFar(rows, keys, result)
    ensures keys == Distinct(EndedIds(rows))
    ensures forall i | 0 <= i < |keys| :: keys[i] in result && FoldsTo(rows, keys[i], result[keys[i]])
  {
    hide Distinct, EndedIds, FoldsTo;
    assert forall i | 0 <= i < |keys| :: keys[i] in keys;
  }

  lemma NothingEnded()
    ensures EndedSoFar([], [], map[])
  {
  }

  /** The loop of `findEndedGatheringsByUserId`. */
  method FoldEnded(rows: seq<EndedRow>) returns (list: seq<EndedRow>)
    ensures |list| == |Distinct(EndedIds(rows))|
    ensures forall i | 0 <= i < |list| :: FoldsTo(rows, Distinct(EndedIds(rows))[i], list[i])
  {
    hide Distinct, EndedIds, FoldsTo, EndedSoFar;
    var keys: seq<Uuid> := [];
    var result: map<Uuid, EndedRow> := map[];
    NothingEnded();
    for n := 0 to |rows|
      invariant EndedSoFar(rows[..n], keys, result)
    {
      var row := rows[n];
      assert rows[..n + 1] == rows[..n] + [row];
      EndedTurnKeeps(rows[..n], keys, result, row);
      if row.id !in result {
        result := result[row.id := row];
        keys := keys + [row.id];
      } else if row.isFeedPosted {
        result := result[row.id := result[row.id].(isFeedPosted := true)];
      }
    }
    assert rows[..|rows|] == rows;
    EndedKeysAreIn(rows, keys, result);
    list := seq(|keys|, i requires 0 <= i < |keys| => result[keys[i]]);
  }

  /** What the outer query of the ended list may return: each chosen gathering with each of its active feeds. */
  predicate IsEndedJoinRow(db: Db, user: Uuid, chosen: seq<Uuid>, row: EndedRow) {
    && row.id in chosen && ActiveGathering(db, row.id)
    && row.name == db.gatherings[row.id].name && row.gatheringDate == db.gatherings[row.id].gatheringDate
    && (if row.isFeedPosted then HasFeed(db, row.id, user)
        else (exists f | f in db.feeds ::
                ActiveFeed(db, f) && db.feeds[f].gatheringId == Some(row.id) && db.feeds[f].writerId != user)
             || (forall f | f in db.feeds && ActiveFeed(db, f) :: db.feeds[f].gatheringId != Some(row.id)))
  }

  ghost predicate IsEndedJoin(db: Db, user: Uuid, chosen: seq<Uuid>, rows: seq<EndedRow>) {
    && (forall row :: row in rows <==> IsEndedJoinRow(db, user, chosen, row))
    && (forall i, j | 0 <= i < j < |rows| ::
          rows[i].id == rows[j].id
          || Earlier(DateId(rows[i].gatheringDate, rows[i].id), DateId(rows[j].gatheringDate, rows[j].id)))
  }

  /** The entries are the chosen gatherings in page order. */
  lemma EndedFoldKeepsOrder(db: Db, user: Uuid, chosen: seq<Uuid>, rows: seq<EndedRow>)
    requires IsEndedJoin(db, user, chosen, rows)
    requires Sorted(ByDate(db, DESC), chosen) && forall g <- chosen :: ActiveGathering(db, g)
    ensures Distinct(EndedIds(rows)) == chosen
  {
    var o, ids := ByDate(db, DESC), EndedIds(rows);
    var same := (a: Uuid, b: Uuid) => a == b || o.Precedes(a, b);
    forall j | 0 <= j < |ids| ensures ids[j] in ids[..j] || forall i | 0 <= i < j :: same(ids[i], ids[j]) {
      forall i | 0 <= i < j ensures same(ids[i], ids[j]) {
        assert rows[i] in rows && rows[j] in rows;
      }
    }
    DistinctSorted(ids, same);
    DistinctElements(ids);
    forall g ensures g in Distinct(ids) <==> g in chosen {
      if g in ids {
        var i :| 0 <= i < |ids| && ids[i] == g;
        assert rows[i] in rows;
      }
      if g in chosen {
        var row := EndedRow(g, db.gatherings[g].name, db.gatherings[g].gatheringDate, HasFeed(db, g, user));
        assert IsEndedJoinRow(db, user, chosen, row);
        var i :| 0 <= i < |rows| && rows[i] == row;
        assert ids[i] == g;
      }
    }
    ByDateIsLawful(db, DESC, {});
    SortedUnique(o, Distinct(ids), chosen);
  }

  /** The flag of an entry says whether the user has an active feed about the gathering. */
  lemma EndedFoldFlags(db: Db, user: Uuid, chosen: seq<Uuid>, rows: seq<EndedRow>, g: Uuid, entry: EndedRow)
    requires IsEndedJoin(db, user, chosen, rows) && FoldsTo(rows, g, entry)
    ensures g in db.gatherings
    ensures entry == EndedRow(g, db.gatherings[g].name, db.gatherings[g].gatheringDate, HasFeed(db, g, user))
  {
    var row :| row in rows && row.id == g && entry == row.(isFeedPosted := entry.isFeedPosted);
    if HasFeed(db, g, user) {
      assert row.(isFeedPosted := true) in rows;
    }
  }

  /** One request for the ended list: the page of the date window, every entry with its flag. */
  method ReadEnded(db: Db, user: Uuid, ghost range: Range, limit: nat, ghost c: DateId, rows: seq<EndedRow>)
    returns (list: seq<EndedRow>, next: Option<DateId>)
    requires IsEndedJoin(
               db, user, Take(Listed(db, DESC, Admitted(db, EndedIn(db, user, range), range, c)), limit), rows)
    ensures var page := DescendingPages(db, EndedIn(db, user, range), range, limit)(c);
            && next == page.next
            && |list| == |page.items|
            && forall i | 0 <= i < |list| ::
                 var g := page.items[i];
                 && g in db.gatherings
                 && list[i] == EndedRow(g, db.gatherings[g].name, db.gatherings[g].gatheringDate, HasFeed(db, g, user))
  {
    ghost var s := EndedIn(db, user, range);
    ghost var admitted := Admitted(db, s, range, c);
    ghost var chosen := Take(Listed(db, DESC, admitted), limit);
    ChosenWithin(db, s, admitted, limit);
    EndedFoldKeepsOrder(db, user, chosen, rows);
    list := FoldEnded(rows);
    forall i | 0 <= i < |list|
      ensures chosen[i] in db.gatherings
      ensures list[i] == EndedRow(chosen[i], db.gatherings[chosen[i]].name, db.gatherings[chosen[i]].gatheringDate,
                                  HasFeed(db, chosen[i], user))
    {
      EndedFoldFlags(db, user, chosen, rows, chosen[i], list[i]);
    }
    next := if 0 < limit <= |list| then Some(DateId(list[limit - 1].gatheringDate, list[limit - 1].id)) else None;
  }

  // ---- Gatherings without a feed of the user ----

  /** `findGatheringsWithoutFeedByUserId`. */
  function NoFeed(db: Db, user: Uuid): set<Uuid> {
    set g | g in Ended(db, Mine(db, user)) && !HasFeed(db, g, user)
  }

  ghost function NoFeedPages(db: Db, user: Uuid, limit: nat): DateId -> Answer<Uuid, DateId> {
    ByDateIsLawful(db, DESC, NoFeed(db, user));
    c => KeysetPage(ByDate(db, DESC), NoFeed(db, user), NoFeed(db, user), limit, c)
  }

  /** The strict cursor needs no hypothesis about boundary dates. */
  lemma NoFeedWalk(db: Db, user: Uuid, limit: nat, c: DateId, calls: nat)
    requires limit > 0
    requires calls >= CallsNeeded(|Listed(db, DESC, After(ByDate(db, DESC), NoFeed(db, user), c))|, limit)
    ensures Walk(NoFeedPages(db, user, limit), c, calls)
         == Answer(Listed(db, DESC, After(ByDate(db, DESC), NoFeed(db, user), c)), None)
  {
    var s := NoFeed(db, user);
    ByDateIsLawful(db, DESC, s);
    WalkIsListing(NoFeedPages(db, user, limit), ByDate(db, DESC), s, s, limit, c, calls);
  }

  /** The no-feed list is the ended list without the entries whose flag is set, in the same order. */
  lemma NoFeedIsEndedUnposted(db: Db, user: Uuid, range: Range)
    requires forall g | g in Ended(db, Mine(db, user)) :: InRange(range, db.gatherings[g].gatheringDate)
    ensures Listed(db, DESC, NoFeed(db, user))
         == Keep(Listed(db, DESC, EndedIn(db, user, range)), set g | g in db.gatherings && !HasFeed(db, g, user))
  {
    var o, ended := ByDate(db, DESC), EndedIn(db, user, range);
    var unposted := set g | g in db.gatherings && !HasFeed(db, g, user);
    ByDateIsLawful(db, DESC, ended);
    ByDateIsLawful(db, DESC, NoFeed(db, user));
    ListingIsSorted(o, ended);
    KeepSorted(o, Listing(o, ended), unposted);
    forall g ensures g in Keep(Listing(o, ended), unposted) <==> g in NoFeed(db, user) {
      KeepHas(Listing(o, ended), unposted, g);
    }
    ListingIs(o, NoFeed(db, user), Keep(Listing(o, ended), unposted));
  }

  /** Writing a feed moves exactly that gathering out of the writer's no-feed list; other lists stay. */
  lemma FeedMovesGathering(
    db: Db, g: Uuid, writer: Uuid, content: string, urls: seq<string>, now: Time, id: Uuid, user: Uuid, range: Range)
    requires CreateGatheringFeedReply(db, g, writer, now, id).Done? && TakesPart(db, g, writer)
    ensures var next := AfterCreateFeed(db, Some(g), writer, content, urls, now, id);
            && g in NoFeed(db, writer)
            && NoFeed(next, user) == (if user == writer then NoFeed(db, user) - {g} else NoFeed(db, user))
            && EndedIn(next, user, range) == EndedIn(db, user, range)
            && HasFeed(next, g, writer)
  {
    var next := AfterCreateFeed(db, Some(g), writer, content, urls, now, id);
    assert ActiveFeed(next, id);
    forall h, u ensures HasFeed(next, h, u) <==> HasFeed(db, h, u) || (h == g && u == writer) {
      if HasFeed(db, h, u) {
        var f :| f in db.feeds && ActiveFeed(db, f) && db.feeds[f].gatheringId == Some(h) && db.feeds[f].writerId == u;
        assert ActiveFeed(next, f) && next.feeds[f] == db.feeds[f];
      }
      if HasFeed(next, h, u) {
        var f :| f in next.feeds && ActiveFeed(next, f) && next.feeds[f].gatheringId == Some(h)
              && next.feeds[f].writerId == u;
        assert f != id ==> ActiveFeed(db, f) && next.feeds[f] == db.feeds[f];
      }
    }
    assert Mine(next, user) == Mine(db, user);
  }
}
