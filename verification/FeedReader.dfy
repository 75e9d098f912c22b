/** The feed reader on top of the repository: the next cursor, and the members of feeds without a gathering. */
module FeedReader {
  import opened Prelude
  import opened Tables
  import opened Paging
  import opened Social
  import opened SocialSafety
  import opened FeedQueries
  import opened FeedFold
  import opened FeedJoin

  // ---- Visible users of common feeds (friend-feed-visibilities-prisma.repository.ts) ----

  datatype VisibleRow = VisibleRow(feedId: Uuid, user: User)

  /** The users of one feed, in row order. */
  function UsersFor(rows: seq<VisibleRow>, f: Uuid): seq<User> {
    if rows == [] then []
    else
      var front, last := UsersFor(rows[..|rows| - 1], f), rows[|rows| - 1];
      if last.feedId == f then front + [last.user] else front
  }

  method FindVisibleUsersByFeedIds(rows: seq<VisibleRow>) returns (result: map<Uuid, seq<User>>)
    ensures forall f :: f in result <==> UsersFor(rows, f) != []
    ensures forall f | f in result :: result[f] == UsersFor(rows, f)
  {
    result := map[];
    for n := 0 to |rows|
      invariant forall f :: f in result <==> UsersFor(rows[..n], f) != []
      invariant forall f | f in result :: result[f] == UsersFor(rows[..n], f)
    {
      var row := rows[n];
      assert rows[..n + 1][..n] == rows[..n];
      if row.feedId !in result {
        result := result[row.feedId := []];
      }
      result := result[row.feedId := result[row.feedId] + [row.user]];
    }
    assert rows[..|rows|] == rows;
  }

  lemma {:induction false} UsersForHas(rows: seq<VisibleRow>, f: Uuid, user: User)
    ensures user in UsersFor(rows, f) <==> VisibleRow(f, user) in rows
  {
    if rows != [] {
      UsersForHas(rows[..|rows| - 1], f, user);
      assert rows == rows[..|rows| - 1] + [rows[|rows| - 1]];
    }
  }

  lemma {:induction false} UsersForNoRepeats(rows: seq<VisibleRow>, f: Uuid)
    requires NoRepeats(rows)
    ensures NoRepeats(UsersFor(rows, f))
  {
    if rows != [] {
      var front, last := rows[..|rows| - 1], rows[|rows| - 1];
      assert forall i | 0 <= i < |front| :: front[i] == rows[i];
      UsersForNoRepeats(front, f);
      UsersForHas(front, f, last.user);
      assert last !in front;
    }
  }

  // ---- getFeeds ----

  /** The entry has no gathering to take its members from. */
  predicate IsCommon(db: Db, f: Uuid)
    requires f in db.feeds
  {
    !JoinsGathering(db, f) || db.gatherings[db.feeds[f].gatheringId.value].name == ""
  }

  /** The active users a common feed was shared with. */
  predicate SharedWith(db: Db, f: Uuid, user: User) {
    (f, user.id) in db.visibilities && ActiveUser(db.users, user.id) && user == UserOf(db, user.id)
  }

  /** What the visibility query may return for the common feeds of a page: (feed, user) is the key. */
  ghost predicate IsVisibleJoin(db: Db, page: seq<Uuid>, rows: seq<VisibleRow>) {
    && NoRepeats(rows)
    && forall row :: row in rows <==>
         && row.feedId in page && row.feedId in db.feeds && IsCommon(db, row.feedId)
         && SharedWith(db, row.feedId, row.user)
  }

  /** The feed as it should look to its reader. */
  ghost predicate Presents(db: Db, nameLe: (string, string) -> bool, f: Uuid, feed: Feed)
    requires ActiveFeed(db, f) && ActiveUser(db.users, db.feeds[f].writerId)
  {
    && feed.id == f && feed.content == db.feeds[f].content && feed.createdAt == db.feeds[f].createdAt
    && feed.writer == UserOf(db, db.feeds[f].writerId)
    && feed.images == Distinct(NonEmpty(DetailUrls(db, f)))
    && (if IsCommon(db, f) then
          && feed.gathering.None?
          && NoRepeats(feed.withMembers)
          && (forall user :: user in feed.withMembers <==> SharedWith(db, f, user))
        else
          && GatheringColumn(db, f, feed.gathering)
          && NoRepeats(feed.withMembers)
          && (forall user :: user in feed.withMembers <==> Accompanies(db, f, user))
          && InNameOrder(nameLe, feed.withMembers))
  }

  /** The feeds a page chooses. */
  ghost function Chosen(db: Db, direction: Direction, s: set<Uuid>, limit: nat, c: DateId): seq<Uuid> {
    Take(FeedsAfter(db, direction, s, c), limit)
  }

  lemma ChosenIsPage(db: Db, direction: Direction, s: set<Uuid>, limit: nat, c: DateId)
    requires forall f <- s :: ActiveFeed(db, f)
    ensures var page := FeedPages(db, direction, s, limit)(c);
            && page.items == Keep(Chosen(db, direction, s, limit, c), Shown(db))
            && page.next == NextCursor(FeedOrder(db, direction), page.items, limit)
    ensures Sorted(FeedOrder(db, direction), Chosen(db, direction, s, limit, c))
    ensures forall f <- Chosen(db, direction, s, limit, c) :: ActiveFeed(db, f)
    ensures forall f <- FeedPages(db, direction, s, limit)(c).items ::
              ActiveFeed(db, f) && ActiveUser(db.users, db.feeds[f].writerId)
  {
    var o := FeedOrder(db, direction);
    var xs := FeedsAfter(db, direction, s, c);
    FeedOrderIsLawful(db, direction, s);
    ListingIsSorted(o, After(o, s, c));
    forall f | f in Chosen(db, direction, s, limit, c) ensures ActiveFeed(db, f) {
      assert f in xs;
    }
    forall f | f in Keep(Take(xs, limit), Shown(db))
      ensures ActiveFeed(db, f) && ActiveUser(db.users, db.feeds[f].writerId)
    {
      KeepHas(Take(xs, limit), Shown(db), f);
    }
  }

  /** An entry of the fold shows its feed, before common feeds get their members. */
  lemma EntryShows(
    db: Db, chosen: seq<Uuid>, direction: Direction, nameLe: (string, string) -> bool, rows: seq<JoinRow>, f: Uuid)
    requires IsJoin(db, chosen, direction, nameLe, rows) && RowsOf(rows, f) != []
    ensures ActiveFeed(db, f) && ActiveUser(db.users, db.feeds[f].writerId)
    ensures EntryOf(rows, f).gathering.None? <==> IsCommon(db, f)
    ensures !IsCommon(db, f) ==> Presents(db, nameLe, f, EntryOf(rows, f))
    ensures forall members :: IsCommon(db, f) && NoRepeats(members)
                              && (forall user :: user in members <==> SharedWith(db, f, user))
              ==> Presents(db, nameLe, f, EntryOf(rows, f).(withMembers := members))
  {
    var first := RowsOf(rows, f)[0];
    RowsOfNonempty(rows, f);
    assert first in RowsOf(rows, f) && first in rows;
    FoldUndoesImages(db, chosen, direction, nameLe, rows, f);
    FoldUndoesMembers(db, chosen, direction, nameLe, rows, f);
  }

  /** A feed without a gathering takes its members from the visible users. */
  function Merge(feed: Feed, withMembers: map<Uuid, seq<User>>): Feed {
    feed.(withMembers :=
      if feed.gathering.Some? then feed.withMembers
      else if feed.id in withMembers then withMembers[feed.id] else [])
  }

  lemma MergedShows(
    db: Db, chosen: seq<Uuid>, direction: Direction, nameLe: (string, string) -> bool, rows: seq<JoinRow>,
    page: seq<Uuid>, visible: seq<VisibleRow>, withMembers: map<Uuid, seq<User>>, f: Uuid)
    requires IsJoin(db, chosen, direction, nameLe, rows) && RowsOf(rows, f) != [] && f in page
    requires IsVisibleJoin(db, page, visible)
    requires forall g :: g in withMembers <==> UsersFor(visible, g) != []
    requires forall g | g in withMembers :: withMembers[g] == UsersFor(visible, g)
    ensures ActiveFeed(db, f) && ActiveUser(db.users, db.feeds[f].writerId)
    ensures Presents(db, nameLe, f, Merge(EntryOf(rows, f), withMembers))
  {
    var first := RowsOf(rows, f)[0];
    RowsOfNonempty(rows, f);
    assert first in RowsOf(rows, f);
    EntryShows(db, chosen, direction, nameLe, rows, f);
    if IsCommon(db, f) {
      UsersForNoRepeats(visible, f);
      forall user ensures user in UsersFor(visible, f) <==> SharedWith(db, f, user) {
        UsersForHas(visible, f, user);
      }
    }
  }

  /** One request for a feed list: the page of the paging theory, every feed presented in full. */
  method GetFeeds(
    db: Db, direction: Direction, s: set<Uuid>, limit: nat, ghost cursor: DateId,
    ghost nameLe: (string, string) -> bool, rows: seq<JoinRow>, visible: seq<VisibleRow>)
    returns (feeds: seq<Feed>, next: Option<DateId>)
    requires forall f <- s :: ActiveFeed(db, f)
    requires IsJoin(db, Chosen(db, direction, s, limit, cursor), direction, nameLe, rows)
    requires IsVisibleJoin(db, FeedPages(db, direction, s, limit)(cursor).items, visible)
    ensures var page := FeedPages(db, direction, s, limit)(cursor);
            && next == page.next
            && |feeds| == |page.items|
            && forall i | 0 <= i < |feeds| ::
                 && ActiveFeed(db, page.items[i]) && ActiveUser(db.users, db.feeds[page.items[i]].writerId)
                 && Presents(db, nameLe, page.items[i], feeds[i])
  {
    ghost var page := FeedPages(db, direction, s, limit)(cursor);
    ghost var chosen := Chosen(db, direction, s, limit, cursor);
    ChosenIsPage(db, direction, s, limit, cursor);
    FoldKeepsPageOrder(db, chosen, direction, nameLe, rows);
    hide IsJoin, IsVisibleJoin, Chosen, FeedPages;
    var found := FindFeeds(rows);
    next := if 0 < limit <= |found| then Some(DateId(found[limit - 1].createdAt, found[limit - 1].id)) else None;
    var withMembers := FindVisibleUsersByFeedIds(visible);
    feeds := seq(|found|, i requires 0 <= i < |found| => Merge(found[i], withMembers));
    forall i | 0 <= i < |found|
      ensures ActiveFeed(db, page.items[i]) && ActiveUser(db.users, db.feeds[page.items[i]].writerId)
      ensures Presents(db, nameLe, page.items[i], feeds[i])
    {
      MergedShows(db, chosen, direction, nameLe, rows, page.items, visible, withMembers, page.items[i]);
    }
    assert next == NextCursor(FeedOrder(db, direction), page.items, limit) by {
      hide Presents;
      if 0 < limit <= |found| {
        PresentedKey(db, nameLe, page.items[limit - 1], feeds[limit - 1]);
      }
    }
  }

  lemma PresentedKey(db: Db, nameLe: (string, string) -> bool, f: Uuid, feed: Feed)
    requires ActiveFeed(db, f) && ActiveUser(db.users, db.feeds[f].writerId) && Presents(db, nameLe, f, feed)
    ensures FeedKey(db)(f) == DateId(feed.createdAt, feed.id)
  {
  }

  // ---- Posting and reading back ----

  /** The image rows of a new feed. */
  function Refs(urls: seq<string>): seq<ImageRef> {
    seq(|urls|, i requires 0 <= i < |urls| => ImageRef(i, urls[i]))
  }

  lemma RefsAreIndexed(urls: seq<string>)
    ensures Sorted(ByIndex(), Refs(urls)) && MapSeq(Url, Refs(urls)) == urls
    ensures forall image :: image in Refs(urls) <==> image.index < |urls| && urls[image.index] == image.url
  {
    forall image: ImageRef | image.index < |urls| && urls[image.index] == image.url ensures image in Refs(urls) {
      assert Refs(urls)[image.index] == image;
    }
  }

  /** The images of a new feed read back as the posted urls, in the posted order. */
  lemma PostedUrlsReadBack(
    db: Db, gathering: Option<Uuid>, writer: Uuid, content: string, urls: seq<string>, now: Time, id: Uuid)
    requires ImagesHaveFeeds(db) && id !in db.feeds
    ensures DetailUrls(AfterCreateFeed(db, gathering, writer, content, urls, now, id), id) == urls
  {
    var next := AfterCreateFeed(db, gathering, writer, content, urls, now, id);
    RefsAreIndexed(urls);
    ByIndexIsLawful(next, id);
    forall image ensures image in Refs(urls) <==> image in ImageSet(next, id) {
      if image in Refs(urls) {
        assert (id, image.index) in next.images;
      }
    }
    ListingIs(ByIndex(), ImageSet(next, id), Refs(urls));
  }
}
