/** Cursor paging of the feed lists: which feeds match, and what the walk over the pages returns. */
module FeedQueries {
  import opened Prelude
  import opened Tables
  import opened Paging

  datatype Direction = ASC | DESC

  /** Rows dated and identified; also the cursor of every date-ordered list. */
  datatype DateId = DateId(createdAt: Time, id: Uuid)

  /** The cursor comparison of an ascending list, and its ORDER BY. */
  predicate Later(a: DateId, b: DateId) {
    a.createdAt < b.createdAt || (a.createdAt == b.createdAt && a.id < b.id)
  }

  /** The cursor comparison of a descending list: earlier dates come after, identifiers still ascend. */
  predicate Earlier(a: DateId, b: DateId) {
    a.createdAt > b.createdAt || (a.createdAt == b.createdAt && a.id < b.id)
  }

  function Compare(direction: Direction): (DateId, DateId) -> bool {
    if direction.ASC? then Later else Earlier
  }

  function FeedKey(db: Db): Uuid -> DateId {
    (id: Uuid) => DateId(if id in db.feeds then db.feeds[id].createdAt else 0, id)
  }

  function FeedOrder(db: Db, direction: Direction): Order<Uuid, DateId> {
    Order(FeedKey(db), Compare(direction))
  }

  lemma FeedOrderIsLawful(db: Db, direction: Direction, s: set<Uuid>)
    ensures Lawful(FeedOrder(db, direction), s)
  {
  }

  /** Feeds the outer join keeps: those whose writer has not withdrawn. */
  function Shown(db: Db): set<Uuid> {
    set f | f in db.feeds && ActiveUser(db.users, db.feeds[f].writerId)
  }

  datatype Range = Range(minDate: Time, maxDate: Time)

  predicate InRange(r: Range, t: Time) {
    r.minDate <= t <= r.maxDate
  }

  /** `findByUserId`: the user's own feeds. */
  function OwnFeeds(db: Db, user: Uuid, range: Range): set<Uuid> {
    set f | f in db.feeds && ActiveFeed(db, f) && (user, f) !in db.blockedFeeds
          && db.feeds[f].writerId == user && InRange(range, db.feeds[f].createdAt)
  }

  /** Why a feed is on the user's "all" list. */
  predicate MaySee(db: Db, user: Uuid, f: Uuid)
    requires f in db.feeds
  {
    var row := db.feeds[f];
    || (row.gatheringId.Some? && ActiveGathering(db, row.gatheringId.value)
        && db.gatherings[row.gatheringId.value].hostUserId == user)
    || row.writerId == user
    || (row.gatheringId.Some? && TakesPart(db, row.gatheringId.value, user))
    || (row.gatheringId.None? && (f, user) in db.visibilities && ActiveUser(db.users, row.writerId))
  }

  /** `findAllByUserId`. */
  function AllFeeds(db: Db, user: Uuid, range: Range): set<Uuid> {
    set f | f in db.feeds && ActiveFeed(db, f) && (user, f) !in db.blockedFeeds
          && MaySee(db, user, f) && InRange(range, db.feeds[f].createdAt)
  }

  /** `findBlockedFeedsByUserId`. */
  function BlockedFeeds(db: Db, user: Uuid): set<Uuid> {
    set f | f in db.feeds && ActiveFeed(db, f) && (user, f) in db.blockedFeeds
  }

  /** One request of any of the three lists: matching feeds `s`, then the outer join, then the reader's rule. */
  ghost function FeedPages(db: Db, direction: Direction, s: set<Uuid>, limit: nat): DateId -> Answer<Uuid, DateId> {
    FeedOrderIsLawful(db, direction, s);
    c => KeysetPage(FeedOrder(db, direction), s, Shown(db), limit, c)
  }

  /** The matching feeds after a cursor, sorted once. */
  ghost function FeedsAfter(db: Db, direction: Direction, s: set<Uuid>, c: DateId): seq<Uuid> {
    FeedOrderIsLawful(db, direction, After(FeedOrder(db, direction), s, c));
    Listing(FeedOrder(db, direction), After(FeedOrder(db, direction), s, c))
  }

  /** A feed walk ends, and returns the shown feeds up to the page in which the first one is hidden. */
  lemma FeedWalk(db: Db, direction: Direction, s: set<Uuid>, limit: nat, c: DateId, calls: nat)
    requires limit > 0 && calls >= CallsNeeded(|FeedsAfter(db, direction, s, c)|, limit)
    ensures Walk(FeedPages(db, direction, s, limit), c, calls)
         == Answer(VisitedRows(FeedsAfter(db, direction, s, c), Shown(db), limit), None)
  {
    FeedOrderIsLawful(db, direction, s);
    WalkIsVisitedListing(
      FeedPages(db, direction, s, limit), FeedOrder(db, direction), s, Shown(db), limit, c, calls);
  }

  /** However many requests are made, the feeds come sorted and without repeats. */
  lemma FeedWalkIsSorted(db: Db, direction: Direction, s: set<Uuid>, limit: nat, c: DateId, calls: nat)
    requires limit > 0
    ensures var items := Walk(FeedPages(db, direction, s, limit), c, calls).items;
            Sorted(FeedOrder(db, direction), items) && NoRepeats(items)
  {
    FeedOrderIsLawful(db, direction, s);
    WalkIsSorted(FeedPages(db, direction, s, limit), FeedOrder(db, direction), s, Shown(db), limit, c, calls);
  }

  /** An active user's own feeds: the walk is the sorted list. */
  lemma OwnFeedWalk(db: Db, user: Uuid, range: Range, direction: Direction, limit: nat, c: DateId, calls: nat)
    requires limit > 0 && ActiveUser(db.users, user)
    requires calls >= CallsNeeded(|FeedsAfter(db, direction, OwnFeeds(db, user, range), c)|, limit)
    ensures Walk(FeedPages(db, direction, OwnFeeds(db, user, range), limit), c, calls)
         == Answer(FeedsAfter(db, direction, OwnFeeds(db, user, range), c), None)
  {
    var s := OwnFeeds(db, user, range);
    FeedOrderIsLawful(db, direction, s);
    WalkIsListing(FeedPages(db, direction, s, limit), FeedOrder(db, direction), s, Shown(db), limit, c, calls);
  }

  /** The "all" list and the list of blocked feeds, as long as no writer on them has withdrawn. */
  lemma ActiveWritersWalk(
    db: Db, user: Uuid, range: Range, direction: Direction, s: set<Uuid>, limit: nat, c: DateId, calls: nat)
    requires s == AllFeeds(db, user, range) || s == BlockedFeeds(db, user)
    requires limit > 0 && forall f <- s :: ActiveUser(db.users, db.feeds[f].writerId)
    requires calls >= CallsNeeded(|FeedsAfter(db, direction, s, c)|, limit)
    ensures Walk(FeedPages(db, direction, s, limit), c, calls) == Answer(FeedsAfter(db, direction, s, c), None)
  {
    FeedOrderIsLawful(db, direction, s);
    WalkIsListing(FeedPages(db, direction, s, limit), FeedOrder(db, direction), s, Shown(db), limit, c, calls);
  }

  /**
   User 1 hosts gathering 3. User 2 wrote feed 5 about it and withdrew; user 1 wrote feed 6 before
   that.
   */
  function WithdrawnWriter(active: UserRow, withdrawn: UserRow): Db {
    Db(map[1 := active, 2 := withdrawn], map[], {}, map[],
       map[3 := GatheringRow(GatheringType.FRIEND, None, 1, "", 0, Some(0), None)], map[],
       map[5 := FeedRow(2, Some(3), "", 20, None), 6 := FeedRow(1, Some(3), "", 10, None)],
       map[], {}, {}, map[], map[])
  }

  lemma BothFeedsListed(active: UserRow, withdrawn: UserRow)
    ensures AllFeeds(WithdrawnWriter(active, withdrawn), 1, Range(0, 30)) == {5, 6}
  {
  }

  lemma BothFeedsAfter(active: UserRow, withdrawn: UserRow)
    ensures FeedsAfter(WithdrawnWriter(active, withdrawn), DESC, {5, 6}, DateId(30, 0)) == [5, 6]
  {
    var o := FeedOrder(WithdrawnWriter(active, withdrawn), DESC);
    FeedOrderIsLawful(WithdrawnWriter(active, withdrawn), DESC, {5, 6});
    assert After(o, {5, 6}, DateId(30, 0)) == {5, 6};
    ListingIs(o, {5, 6}, [5, 6]);
  }

  /** With pages of one the first page of user 1's list is empty and the last: their own feed never shows. */
  lemma WithdrawnWriterHidesOwnFeed(active: UserRow, withdrawn: UserRow, calls: nat)
    requires active.deletedAt.None? && withdrawn.deletedAt.Some? && calls >= 3
    ensures var db := WithdrawnWriter(active, withdrawn);
            && 6 in AllFeeds(db, 1, Range(0, 30)) && 6 in Shown(db) && db.feeds[6].writerId == 1
            && Walk(FeedPages(db, DESC, AllFeeds(db, 1, Range(0, 30)), 1), DateId(30, 0), calls) == Answer([], None)
  {
    var db := WithdrawnWriter(active, withdrawn);
    BothFeedsListed(active, withdrawn);
    BothFeedsAfter(active, withdrawn);
    assert Shown(db) == {6};
    assert FirstHidden([5, 6], {6}) == 0 && PageEnd(0, 1) == 1;
    assert [5, 6][..1] == [5] && Keep([5], {6}) == Keep([], {6}) == [];
    assert CallsNeeded(2, 1) == 1 + CallsNeeded(1, 1) && CallsNeeded(1, 1) == 1 + CallsNeeded(0, 1);
    FeedWalk(db, DESC, {5, 6}, 1, DateId(30, 0), calls);
  }

  /**
   Any feed list: the walk returns every feed with an active writer exactly when no such feed comes
   after the page that contains the first feed of a withdrawn writer.
   */
  lemma FeedWalkIsCompleteIff(db: Db, direction: Direction, s: set<Uuid>, limit: nat, c: DateId, calls: nat)
    requires limit > 0 && calls >= CallsNeeded(|FeedsAfter(db, direction, s, c)|, limit)
    ensures var xs := FeedsAfter(db, direction, s, c);
            Walk(FeedPages(db, direction, s, limit), c, calls).items == Keep(xs, Shown(db))
            <==> forall i | Visited(xs, Shown(db), limit) <= i < |xs| :: xs[i] !in Shown(db)
  {
    var o, xs := FeedOrder(db, direction), FeedsAfter(db, direction, s, c);
    FeedOrderIsLawful(db, direction, s);
    WalkIsCompleteIff(FeedPages(db, direction, s, limit), o, s, Shown(db), limit, c, calls);
  }
}
