/** The lists sorted by name and account id: friends, friend requests and the user search; and notifications. */
module UserQueries {
  import opened Prelude
  import opened Tables
  import opened Paging
  import opened AccountIds
  import opened Social
  import opened SocialSafety
  import opened Ties
  import FeedQueries

  datatype NameCursor = NameCursor(name: string, accountId: string)

  /** Names and account ids are compared in the order `less` of the database. */
  predicate NameBefore(less: (string, string) -> bool, a: NameCursor, b: NameCursor) {
    less(a.name, b.name) || (a.name == b.name && less(a.accountId, b.accountId))
  }

  function ByName(less: (string, string) -> bool): (NameCursor, NameCursor) -> bool {
    (a: NameCursor, b: NameCursor) => NameBefore(less, a, b)
  }

  lemma ByNameIsTotal(less: (string, string) -> bool)
    requires StrictTotal(less)
    ensures StrictTotal(ByName(less))
  {
    var before := ByName(less);
    forall a, b, c | before(a, b) && before(b, c) ensures before(a, c) {
      assert less(a.name, b.name) && less(b.name, c.name) ==> less(a.name, c.name);
      assert less(a.accountId, b.accountId) && less(b.accountId, c.accountId) ==> less(a.accountId, c.accountId);
    }
  }

  function NameOf(db: Db, u: Uuid): NameCursor {
    if u in db.users then NameCursor(db.users[u].name, db.users[u].accountId) else NameCursor("", "")
  }

  /** No two of the users have the same name and account id. */
  ghost predicate DistinctNames(db: Db, s: set<Uuid>) {
    forall u, v | u in s && v in s && u != v :: NameOf(db, u) != NameOf(db, v)
  }

  /** Different account ids of active users are enough, but more than is needed. */
  lemma AccountIdsSuffice(db: Db, s: set<Uuid>)
    requires OneLivePerAccountId(db.users) && forall u <- s :: ActiveUser(db.users, u)
    ensures DistinctNames(db, s)
  {
  }

  function UsersByName(db: Db, less: (string, string) -> bool): Order<Uuid, NameCursor> {
    Order((u: Uuid) => NameOf(db, u), ByName(less))
  }

  // ---- Friends ----

  /** `findFriendsByUserId`. */
  function FriendsOf(db: Db, user: Uuid): set<Uuid> {
    set u | u in db.users && ActiveUser(db.users, u) && u != user && AreFriends(db, user, u)
  }

  lemma UsersByNameIsLawful(db: Db, less: (string, string) -> bool, s: set<Uuid>)
    requires StrictTotal(less) && DistinctNames(db, s)
    ensures Lawful(UsersByName(db, less), s)
  {
    ByNameIsTotal(less);
  }

  ghost function FriendPages(db: Db, less: (string, string) -> bool, user: Uuid, limit: nat)
    : NameCursor -> Answer<Uuid, NameCursor>
    requires StrictTotal(less) && DistinctNames(db, FriendsOf(db, user))
  {
    UsersByNameIsLawful(db, less, FriendsOf(db, user));
    c => KeysetPage(UsersByName(db, less), FriendsOf(db, user), FriendsOf(db, user), limit, c)
  }

  /** Users of `s` after a cursor, by name. */
  ghost function UsersAfter(db: Db, less: (string, string) -> bool, s: set<Uuid>, c: NameCursor): seq<Uuid>
    requires StrictTotal(less) && DistinctNames(db, s)
  {
    UsersByNameIsLawful(db, less, s);
    Listing(UsersByName(db, less), After(UsersByName(db, less), s, c))
  }

  lemma FriendWalk(db: Db, less: (string, string) -> bool, user: Uuid, limit: nat, c: NameCursor, calls: nat)
    requires StrictTotal(less) && DistinctNames(db, FriendsOf(db, user)) && limit > 0
    requires calls >= CallsNeeded(|UsersAfter(db, less, FriendsOf(db, user), c)|, limit)
    ensures Walk(FriendPages(db, less, user, limit), c, calls)
         == Answer(UsersAfter(db, less, FriendsOf(db, user), c), None)
  {
    var s := FriendsOf(db, user);
    UsersByNameIsLawful(db, less, s);
    WalkIsListing(FriendPages(db, less, user, limit), UsersByName(db, less), s, s, limit, c, calls);
  }

  lemma UsersAfterHas(db: Db, less: (string, string) -> bool, s: set<Uuid>, c: NameCursor, u: Uuid)
    requires StrictTotal(less) && DistinctNames(db, s)
    ensures u in UsersAfter(db, less, s, c) <==> u in s && NameBefore(less, c, NameOf(db, u))
  {
    UsersByNameIsLawful(db, less, s);
    ListingIsSorted(UsersByName(db, less), After(UsersByName(db, less), s, c));
  }

  /** Who is on the friends list: in the columns of the tables. */
  lemma FriendWalkHas(
    db: Db, less: (string, string) -> bool, user: Uuid, limit: nat, c: NameCursor, calls: nat, u: Uuid)
    requires StrictTotal(less) && DistinctNames(db, FriendsOf(db, user)) && limit > 0
    requires calls >= CallsNeeded(|UsersAfter(db, less, FriendsOf(db, user), c)|, limit)
    ensures u in Walk(FriendPages(db, less, user, limit), c, calls).items
       <==> && u in db.users && db.users[u].deletedAt.None? && u != user && NameBefore(less, c, NameOf(db, u))
            && exists f | f in db.friends ::
                 || db.friends[f] == FriendRow(user, u, FriendStatus.ACCEPTED)
                 || db.friends[f] == FriendRow(u, user, FriendStatus.ACCEPTED)
  {
    FriendWalk(db, less, user, limit, c, calls);
    UsersAfterHas(db, less, FriendsOf(db, user), c, u);
    FriendsByColumn(db, user, u);
  }

  lemma FriendsByColumn(db: Db, user: Uuid, u: Uuid)
    ensures AreFriends(db, user, u)
       <==> exists f | f in db.friends ::
              || db.friends[f] == FriendRow(user, u, FriendStatus.ACCEPTED)
              || db.friends[f] == FriendRow(u, user, FriendStatus.ACCEPTED)
  {
    if AreFriends(db, user, u) {
      var f :| f in db.friends && Links(db.friends[f], user, u) && db.friends[f].status.ACCEPTED?;
      assert db.friends[f] == FriendRow(user, u, FriendStatus.ACCEPTED)
             || db.friends[f] == FriendRow(u, user, FriendStatus.ACCEPTED);
    }
    if f :| f in db.friends && (db.friends[f] == FriendRow(user, u, FriendStatus.ACCEPTED)
                                || db.friends[f] == FriendRow(u, user, FriendStatus.ACCEPTED)) {
      assert Links(db.friends[f], user, u);
    }
  }

  /**
   When names and account ids do tie, among friends or any other users, and in whatever order the
   database puts the tied ones: a walk returns all users after the cursor exactly when no page ends
   between two tied ones.
   */
  lemma TiedUserWalkIff(
    db: Db, less: (string, string) -> bool, s: set<Uuid>, users: seq<Uuid>, limit: nat, c: NameCursor, calls: nat)
    requires StrictTotal(less) && limit > 0
    requires Lists(users, s) && NoRepeats(users) && WeaklySorted(UsersByName(db, less), users)
    requires calls >= CallsNeeded(|DropUpTo(UsersByName(db, less), users, c)|, limit)
    ensures var o := UsersByName(db, less);
            var after := DropUpTo(o, users, c);
            && (forall u :: u in after <==> u in s && NameBefore(less, c, NameOf(db, u)))
            && Walk(TiePages(o, users, limit), c, calls).next.None?
            && (Walk(TiePages(o, users, limit), c, calls).items == after <==> SplitsNoTie(o, after, limit))
  {
    var o := UsersByName(db, less);
    ByNameIsTotal(less);
    TieWalkIsCompleteIff(o, users, limit, c, calls);
    DropUpToHas(o, users, c);
    assert forall u :: o.less(c, o.key(u)) <==> NameBefore(less, c, NameOf(db, u));
  }

  // ---- Friend requests ----

  /** The user a request is listed under: the receiver of a sent one, the sender of a received one. */
  function Other(db: Db, id: Uuid, sent: bool): Uuid {
    if id !in db.friends then 0 else if sent then db.friends[id].receiverId else db.friends[id].senderId
  }

  /** `findSentRequestsByUserId` and `findReceivedRequestsByUserId`. */
  function PendingRequests(db: Db, user: Uuid, sent: bool): set<Uuid> {
    set id | id in db.friends && db.friends[id].status.PENDING?
           && (if sent then db.friends[id].senderId else db.friends[id].receiverId) == user
           && ActiveUser(db.users, Other(db, id, sent))
  }

  /** The users those requests are listed under. */
  function Counterparts(db: Db, user: Uuid, sent: bool): set<Uuid> {
    set id | id in PendingRequests(db, user, sent) :: Other(db, id, sent)
  }

  function RequestsByName(db: Db, less: (string, string) -> bool, sent: bool): Order<Uuid, NameCursor> {
    Order((id: Uuid) => NameOf(db, Other(db, id, sent)), ByName(less))
  }

  lemma RequestsByNameIsLawful(db: Db, less: (string, string) -> bool, user: Uuid, sent: bool)
    requires StrictTotal(less) && DistinctNames(db, Counterparts(db, user, sent)) && OneRowPerDirection(db.friends)
    ensures Lawful(RequestsByName(db, less, sent), PendingRequests(db, user, sent))
  {
    ByNameIsTotal(less);
    var o, s := RequestsByName(db, less, sent), PendingRequests(db, user, sent);
    forall i, j | i in s && j in s && i != j ensures o.key(i) != o.key(j) {
      assert Other(db, i, sent) != Other(db, j, sent);
    }
  }

  ghost function RequestPages(db: Db, less: (string, string) -> bool, user: Uuid, sent: bool, limit: nat)
    : NameCursor -> Answer<Uuid, NameCursor>
    requires StrictTotal(less) && DistinctNames(db, Counterparts(db, user, sent)) && OneRowPerDirection(db.friends)
  {
    RequestsByNameIsLawful(db, less, user, sent);
    var s := PendingRequests(db, user, sent);
    c => KeysetPage(RequestsByName(db, less, sent), s, s, limit, c)
  }

  /** The cursor comes before every name. */
  ghost predicate BelowAll(db: Db, less: (string, string) -> bool, c: NameCursor) {
    forall u | ActiveUser(db.users, u) :: NameBefore(less, c, NameOf(db, u))
  }

  /** A walk from below all names returns each pending request once. */
  lemma RequestWalk(
    db: Db, less: (string, string) -> bool, user: Uuid, sent: bool, limit: nat, c: NameCursor, calls: nat)
    requires StrictTotal(less) && OneRowPerDirection(db.friends) && BelowAll(db, less, c)
    requires DistinctNames(db, Counterparts(db, user, sent))
    requires limit > 0 && calls >= CallsNeeded(|PendingRequests(db, user, sent)|, limit)
    ensures var walk := Walk(RequestPages(db, less, user, sent, limit), c, calls);
            && walk.next.None?
            && Sorted(RequestsByName(db, less, sent), walk.items)
            && Lists(walk.items, PendingRequests(db, user, sent))
            && |walk.items| == |PendingRequests(db, user, sent)|
  {
    var o, s := RequestsByName(db, less, sent), PendingRequests(db, user, sent);
    RequestsByNameIsLawful(db, less, user, sent);
    assert After(o, s, c) == s;
    ListingLength(o, s);
    ListingIsSorted(o, s);
    WalkIsListing(RequestPages(db, less, user, sent, limit), o, s, s, limit, c, calls);
  }

  /** Which requests the two lists hold: in the columns of the tables. */
  lemma RequestWalkHas(
    db: Db, less: (string, string) -> bool, user: Uuid, sent: bool, limit: nat, c: NameCursor, calls: nat, id: Uuid)
    requires StrictTotal(less) && OneRowPerDirection(db.friends) && BelowAll(db, less, c)
    requires DistinctNames(db, Counterparts(db, user, sent))
    requires limit > 0 && calls >= CallsNeeded(|PendingRequests(db, user, sent)|, limit)
    ensures id in Walk(RequestPages(db, less, user, sent, limit), c, calls).items
       <==> && id in db.friends && db.friends[id].status == FriendStatus.PENDING
            && var row := db.friends[id];
               var other := if sent then row.receiverId else row.senderId;
               && (if sent then row.senderId else row.receiverId) == user
               && other in db.users && db.users[other].deletedAt.None?
  {
    RequestWalk(db, less, user, sent, limit, c, calls);
  }

  /** The rows `countRequest` counts. */
  function CountedRequests(db: Db, user: Uuid): set<Uuid> {
    set id | id in db.friends && db.friends[id].status.PENDING?
           && ((db.friends[id].senderId == user && ActiveUser(db.users, db.friends[id].receiverId))
               || (db.friends[id].receiverId == user && ActiveUser(db.users, db.friends[id].senderId)))
  }

  function CountRequest(db: Db, user: Uuid): nat {
    |CountedRequests(db, user)|
  }

  /** Pending requests of an active user to themselves. */
  function SelfRequests(db: Db, user: Uuid): set<Uuid> {
    set id | id in db.friends && db.friends[id].status.PENDING? && ActiveUser(db.users, user)
           && db.friends[id].senderId == user && db.friends[id].receiverId == user
  }

  /** What `countRequest` counts is what the two lists show. */
  lemma CountedIsShown(db: Db, user: Uuid)
    ensures CountRequest(db, user) == |PendingRequests(db, user, true) + PendingRequests(db, user, false)|
  {
    assert CountedRequests(db, user) == PendingRequests(db, user, true) + PendingRequests(db, user, false);
  }

  lemma SelfIsInBoth(db: Db, user: Uuid)
    requires OneRowPerDirection(db.friends)
    ensures SelfRequests(db, user) == PendingRequests(db, user, true) * PendingRequests(db, user, false)
    ensures |SelfRequests(db, user)| <= 1
  {
    if id :| id in SelfRequests(db, user) {
      assert SelfRequests(db, user) == {id};
    }
  }

  /** The sent and the received requests together, against the count. */
  lemma CountSplits(db: Db, user: Uuid)
    requires OneRowPerDirection(db.friends)
    ensures |PendingRequests(db, user, true)| + |PendingRequests(db, user, false)|
         == CountRequest(db, user) + |SelfRequests(db, user)|
    ensures |SelfRequests(db, user)| <= 1
  {
    hide PendingRequests, CountRequest, SelfRequests, OneRowPerDirection;
    CountedIsShown(db, user);
    SelfIsInBoth(db, user);
  }

  /**
   The two complete walks return what `countRequest` counts, with a request to oneself, of which
   there is at most one, returned by both.
   */
  lemma WalksMatchCount(
    db: Db, less: (string, string) -> bool, user: Uuid, limit: nat, c: NameCursor, calls: nat)
    requires StrictTotal(less) && OneRowPerDirection(db.friends) && BelowAll(db, less, c)
    requires forall sent: bool :: DistinctNames(db, Counterparts(db, user, sent))
    requires limit > 0
    requires calls >= CallsNeeded(|PendingRequests(db, user, true)|, limit)
    requires calls >= CallsNeeded(|PendingRequests(db, user, false)|, limit)
    ensures |Walk(RequestPages(db, less, user, true, limit), c, calls).items|
          + |Walk(RequestPages(db, less, user, false, limit), c, calls).items|
         == CountRequest(db, user) + |SelfRequests(db, user)|
    ensures |SelfRequests(db, user)| <= 1
  {
    hide PendingRequests, CountRequest, SelfRequests, Walk, OneRowPerDirection, DistinctNames, StrictTotal, BelowAll,
         Sorted, Lists;
    RequestWalk(db, less, user, true, limit, c, calls);
    RequestWalk(db, less, user, false, limit, c, calls);
    CountSplits(db, user);
  }

  /** So it is after every run of the services, whose tables have one row per pair. */
  lemma WalksMatchCountInRun(
    table: map<Uuid, UserRow>, ops: seq<Op>, less: (string, string) -> bool, user: Uuid, limit: nat, c: NameCursor,
    calls: nat)
    requires var db := Run(NoRows(table), ops);
             && StrictTotal(less) && BelowAll(db, less, c) && limit > 0
             && (forall sent: bool :: DistinctNames(db, Counterparts(db, user, sent)))
             && calls >= CallsNeeded(|PendingRequests(db, user, true)|, limit)
             && calls >= CallsNeeded(|PendingRequests(db, user, false)|, limit)
    ensures var db := Run(NoRows(table), ops);
            && OneRowPerDirection(db.friends)
            && |Walk(RequestPages(db, less, user, true, limit), c, calls).items|
             + |Walk(RequestPages(db, less, user, false, limit), c, calls).items|
            == CountRequest(db, user) + |SelfRequests(db, user)|
  {
    hide Run, PendingRequests, CountRequest, SelfRequests, Walk, BelowAll, StrictTotal, DistinctNames;
    RunKeepsOneRow(table, ops);
    WalksMatchCount(Run(NoRows(table), ops), less, user, limit, c, calls);
  }

  // ---- User search ----

  datatype RequestStatus = SENT | RECEIVED | NONE

  /** One row of the left join: a user, and a PENDING friend row with the searcher if there is one. */
  datatype SearchRow = SearchRow(user: Uuid, request: Option<Uuid>)

  datatype SearchedUser = SearchedUser(id: Uuid, status: RequestStatus)

  /** The users a search may show, whatever their requests. */
  function Searched(db: Db, me: Uuid, matches: string -> bool): set<Uuid> {
    set u | u in db.users && ActiveUser(db.users, u) && (me, u) !in db.blockedUsers
          && matches(db.users[u].accountId) && u != me && !AreFriends(db, me, u)
  }

  predicate IsRequestBetween(db: Db, id: Uuid, a: Uuid, b: Uuid) {
    id in db.friends && Links(db.friends[id], a, b) && db.friends[id].status.PENDING?
  }

  /** The left join of the searched users with the pending rows. */
  function SearchRows(db: Db, me: Uuid, matches: string -> bool): set<SearchRow> {
    (set u, id | u in Searched(db, me, matches) && id in db.friends && IsRequestBetween(db, id, me, u)
       :: SearchRow(u, Some(id)))
    + (set u | u in Searched(db, me, matches) && (forall id | id in db.friends :: !IsRequestBetween(db, id, me, u))
       :: SearchRow(u, None))
  }

  /** The CASE expression of the query. */
  function Present(db: Db, me: Uuid, row: SearchRow): SearchedUser {
    SearchedUser(row.user,
      if row.request.Some? && row.request.value in db.friends then
        if db.friends[row.request.value].senderId == me then SENT
        else if db.friends[row.request.value].receiverId == me then RECEIVED
        else NONE
      else NONE)
  }

  /** A request of one user waits for the other's answer. */
  predicate Asked(db: Db, sender: Uuid, receiver: Uuid) {
    exists id | id in db.friends :: db.friends[id] == FriendRow(sender, receiver, FriendStatus.PENDING)
  }

  /** The tag a user should carry. */
  function Tagged(db: Db, me: Uuid, u: Uuid): SearchedUser {
    SearchedUser(u, if Asked(db, me, u) then SENT else if Asked(db, u, me) then RECEIVED else NONE)
  }

  function SearchByName(db: Db, less: (string, string) -> bool): Order<SearchRow, NameCursor> {
    Order((row: SearchRow) => NameOf(db, row.user), ByName(less))
  }

  /** One row per pair of users makes one join row per searched user. */
  lemma SearchIsLawful(db: Db, less: (string, string) -> bool, me: Uuid, matches: string -> bool)
    requires StrictTotal(less) && DistinctNames(db, Searched(db, me, matches)) && OneRowPerPair(db.friends)
    ensures Lawful(SearchByName(db, less), SearchRows(db, me, matches))
  {
    ByNameIsTotal(less);
    var s := SearchRows(db, me, matches);
    forall a, b | a in s && b in s && a.user == b.user ensures a == b {
      if a.request.Some? && b.request.Some? {
        var f := db.friends[b.request.value];
        assert Links(db.friends[a.request.value], f.senderId, f.receiverId);
      }
    }
  }

  ghost function SearchPages(
    db: Db, less: (string, string) -> bool, me: Uuid, matches: string -> bool, limit: nat)
    : NameCursor -> Answer<SearchRow, NameCursor>
    requires StrictTotal(less) && DistinctNames(db, Searched(db, me, matches)) && OneRowPerPair(db.friends)
  {
    SearchIsLawful(db, less, me, matches);
    var s := SearchRows(db, me, matches);
    c => KeysetPage(SearchByName(db, less), s, s, limit, c)
  }

  lemma SearchRowTag(db: Db, me: Uuid, matches: string -> bool, row: SearchRow)
    requires OneRowPerPair(db.friends) && row in SearchRows(db, me, matches)
    ensures row.user in Searched(db, me, matches) && Present(db, me, row) == Tagged(db, me, row.user)
  {
    if row.request.Some? {
      var f := db.friends[row.request.value];
      forall id | IsRequestBetween(db, id, me, row.user) ensures id == row.request.value {
        assert Links(db.friends[id], f.senderId, f.receiverId);
      }
      assert IsRequestBetween(db, row.request.value, me, row.user);
    } else {
      assert forall id | id in db.friends :: !IsRequestBetween(db, id, me, row.user);
    }
  }

  /** Each searched user has a join row. */
  lemma SearchRowExists(db: Db, me: Uuid, matches: string -> bool, u: Uuid) returns (row: SearchRow)
    requires u in Searched(db, me, matches)
    ensures row in SearchRows(db, me, matches) && row.user == u
  {
    if id :| id in db.friends && IsRequestBetween(db, id, me, u) {
      row := SearchRow(u, Some(id));
    } else {
      row := SearchRow(u, None);
    }
  }

  /**
   A complete search walk returns every user it may show after the cursor exactly once, by name,
   tagged by the pending request between the two.
   */
  lemma SearchWalk(
    db: Db, less: (string, string) -> bool, me: Uuid, matches: string -> bool, limit: nat, c: NameCursor, calls: nat)
    requires StrictTotal(less) && DistinctNames(db, Searched(db, me, matches)) && OneRowPerPair(db.friends) && limit > 0
    requires calls >= CallsNeeded(|UsersAfter(db, less, Searched(db, me, matches), c)|, limit)
    ensures var walk := Walk(SearchPages(db, less, me, matches, limit), c, calls);
            && walk.next.None?
            && MapSeq((row: SearchRow) => Present(db, me, row), walk.items)
            == MapSeq((u: Uuid) => Tagged(db, me, u), UsersAfter(db, less, Searched(db, me, matches), c))
  {
    var o, s, users := SearchByName(db, less), SearchRows(db, me, matches), Searched(db, me, matches);
    SearchIsLawful(db, less, me, matches);
    var xs := Listing(o, After(o, s, c));
    ListingIsSorted(o, After(o, s, c));
    var us := MapSeq((row: SearchRow) => row.user, xs);
    SearchedAfter(db, less, me, matches, c);
    assert us == UsersAfter(db, less, users, c);
    WalkIsListing(SearchPages(db, less, me, matches, limit), o, s, s, limit, c, calls);
    forall i | 0 <= i < |xs| ensures Present(db, me, xs[i]) == Tagged(db, me, us[i]) {
      assert xs[i] in xs;
      SearchRowTag(db, me, matches, xs[i]);
    }
  }

  /**
   Whom a search returns, in the columns of the tables: active users with a matching account id, other
   than the searcher, whom the searcher has not blocked and is no friend of.
   */
  lemma SearchWalkHas(
    db: Db, less: (string, string) -> bool, me: Uuid, matches: string -> bool, limit: nat, c: NameCursor, calls: nat,
    u: Uuid)
    requires StrictTotal(less) && DistinctNames(db, Searched(db, me, matches)) && OneRowPerPair(db.friends) && limit > 0
    requires calls >= CallsNeeded(|UsersAfter(db, less, Searched(db, me, matches), c)|, limit)
    ensures (exists row <- Walk(SearchPages(db, less, me, matches, limit), c, calls).items ::
               Present(db, me, row).id == u)
       <==> && u in db.users && db.users[u].deletedAt.None? && u != me && matches(db.users[u].accountId)
            && NameBefore(less, c, NameCursor(db.users[u].name, db.users[u].accountId))
            && (me, u) !in db.blockedUsers
            && !exists f | f in db.friends ::
                  || db.friends[f] == FriendRow(me, u, FriendStatus.ACCEPTED)
                  || db.friends[f] == FriendRow(u, me, FriendStatus.ACCEPTED)
  {
    var items := Walk(SearchPages(db, less, me, matches, limit), c, calls).items;
    var us := UsersAfter(db, less, Searched(db, me, matches), c);
    SearchWalk(db, less, me, matches, limit, c, calls);
    SearchedIds(db, me, items, us, u);
    UsersAfterHas(db, less, Searched(db, me, matches), c, u);
    FriendsByColumn(db, me, u);
  }

  lemma SearchedIds(db: Db, me: Uuid, items: seq<SearchRow>, us: seq<Uuid>, u: Uuid)
    requires MapSeq((row: SearchRow) => Present(db, me, row), items) == MapSeq((u: Uuid) => Tagged(db, me, u), us)
    ensures (exists row <- items :: Present(db, me, row).id == u) <==> u in us
  {
    var shown := MapSeq((row: SearchRow) => Present(db, me, row), items);
    assert forall i | 0 <= i < |items| :: shown[i] == Present(db, me, items[i]) && shown[i].id == us[i];
    if u in us {
      var i :| 0 <= i < |us| && us[i] == u;
      assert items[i] in items;
    }
    if row :| row in items && Present(db, me, row).id == u {
      var i :| 0 <= i < |items| && items[i] == row;
      assert us[i] == u;
    }
  }

  /** And with which tag: by the PENDING row that one of the two has sent the other, if there is one. */
  lemma SearchWalkTags(
    db: Db, less: (string, string) -> bool, me: Uuid, matches: string -> bool, limit: nat, c: NameCursor, calls: nat,
    row: SearchRow)
    requires StrictTotal(less) && DistinctNames(db, Searched(db, me, matches)) && OneRowPerPair(db.friends) && limit > 0
    requires calls >= CallsNeeded(|UsersAfter(db, less, Searched(db, me, matches), c)|, limit)
    requires row in Walk(SearchPages(db, less, me, matches, limit), c, calls).items
    ensures var shown := Present(db, me, row);
            && (shown.status == SENT
                <==> exists f | f in db.friends :: db.friends[f] == FriendRow(me, shown.id, FriendStatus.PENDING))
            && (shown.status == RECEIVED
                <==> exists f | f in db.friends :: db.friends[f] == FriendRow(shown.id, me, FriendStatus.PENDING))
  {
    hide SearchPages, Walk, DistinctNames, Searched, UsersAfter, CallsNeeded, Present, StrictTotal, NameBefore;
    var items := Walk(SearchPages(db, less, me, matches, limit), c, calls).items;
    var us := UsersAfter(db, less, Searched(db, me, matches), c);
    SearchWalk(db, less, me, matches, limit, c, calls);
    var u := Present(db, me, row).id;
    SearchedIds(db, me, items, us, u);
    UsersAfterHas(db, less, Searched(db, me, matches), c, u);
    SearchWalkHas(db, less, me, matches, limit, c, calls, u);
    TagOf(db, me, items, us, row);
    NotBothAsked(db, me, u);
  }

  lemma TagOf(db: Db, me: Uuid, items: seq<SearchRow>, us: seq<Uuid>, row: SearchRow)
    requires MapSeq((row: SearchRow) => Present(db, me, row), items) == MapSeq((u: Uuid) => Tagged(db, me, u), us)
    requires row in items
    ensures Present(db, me, row) == Tagged(db, me, Present(db, me, row).id)
  {
    var i :| 0 <= i < |items| && items[i] == row;
    assert MapSeq((row: SearchRow) => Present(db, me, row), items)[i] == Present(db, me, row);
    assert MapSeq((u: Uuid) => Tagged(db, me, u), us)[i] == Tagged(db, me, us[i]);
  }

  lemma NotBothAsked(db: Db, a: Uuid, b: Uuid)
    requires OneRowPerPair(db.friends) && a != b
    ensures !(Asked(db, a, b) && Asked(db, b, a))
  {
    if i, j :| i in db.friends && j in db.friends && db.friends[i] == FriendRow(a, b, FriendStatus.PENDING)
               && db.friends[j] == FriendRow(b, a, FriendStatus.PENDING) {
      assert Links(db.friends[i], db.friends[j].senderId, db.friends[j].receiverId);
    }
  }

  /** After a report no search of the reporter returns the reported user again, whatever happens in between. */
  lemma ReportedIsNotFound(
    table: map<Uuid, UserRow>, ops: seq<Op>, a: Uuid, b: Uuid, id: Uuid, more: seq<Op>,
    less: (string, string) -> bool, matches: string -> bool, limit: nat, c: NameCursor, calls: nat)
    requires FriendReply(Run(NoRows(table), ops), ReportFriend(a, b, id)).Done?
    requires var db := Run(NoRows(table), ops + [OnFriends(ReportFriend(a, b, id))] + more);
             && StrictTotal(less) && DistinctNames(db, Searched(db, a, matches)) && limit > 0
             && calls >= CallsNeeded(|UsersAfter(db, less, Searched(db, a, matches), c)|, limit)
    ensures var db := Run(NoRows(table), ops + [OnFriends(ReportFriend(a, b, id))] + more);
            && OneRowPerPair(db.friends)
            && forall row <- Walk(SearchPages(db, less, a, matches, limit), c, calls).items ::
                 Present(db, a, row).id != b
  {
    var start, report := NoRows(table), OnFriends(ReportFriend(a, b, id));
    RunSnoc(start, ops, report);
    ReportBlocks(Run(start, ops), a, b, id);
    hide Run, Searched, Walk, StrictTotal, DistinctNames, Present, OneRowPerPair, FriendReply, Step, SearchPages;
    RunAppend(start, ops + [report], more);
    RunKeepsBlock(Run(start, ops + [report]), more, (a, b));
    RunKeepsOneRow(table, ops + [report] + more);
    SearchWalkHas(Run(start, ops + [report] + more), less, a, matches, limit, c, calls, b);
  }

  lemma ReportBlocks(db: Db, a: Uuid, b: Uuid, id: Uuid)
    requires FriendReply(db, ReportFriend(a, b, id)).Done?
    ensures (a, b) in Step(db, OnFriends(ReportFriend(a, b, id))).blockedUsers
  {
  }

  /** So it is after every run of the services. */
  lemma SearchWalkInRun(
    table: map<Uuid, UserRow>, ops: seq<Op>, less: (string, string) -> bool, me: Uuid, matches: string -> bool,
    limit: nat, c: NameCursor, calls: nat)
    requires var db := Run(NoRows(table), ops);
             && StrictTotal(less) && DistinctNames(db, Searched(db, me, matches)) && limit > 0
             && calls >= CallsNeeded(|UsersAfter(db, less, Searched(db, me, matches), c)|, limit)
    ensures var db := Run(NoRows(table), ops);
            && OneRowPerPair(db.friends)
            && var walk := Walk(SearchPages(db, less, me, matches, limit), c, calls);
               && walk.next.None?
               && MapSeq((row: SearchRow) => Present(db, me, row), walk.items)
               == MapSeq((u: Uuid) => Tagged(db, me, u), UsersAfter(db, less, Searched(db, me, matches), c))
  {
    hide Run, Searched, Walk, StrictTotal, DistinctNames, Present, Tagged, OneRowPerPair;
    RunKeepsOneRow(table, ops);
    SearchWalk(Run(NoRows(table), ops), less, me, matches, limit, c, calls);
  }

  /** The users of the sorted join rows are the sorted users. */
  lemma SearchedAfter(db: Db, less: (string, string) -> bool, me: Uuid, matches: string -> bool, c: NameCursor)
    requires StrictTotal(less) && DistinctNames(db, Searched(db, me, matches)) && OneRowPerPair(db.friends)
    ensures Lawful(SearchByName(db, less), After(SearchByName(db, less), SearchRows(db, me, matches), c))
    ensures MapSeq((row: SearchRow) => row.user,
                   Listing(SearchByName(db, less), After(SearchByName(db, less), SearchRows(db, me, matches), c)))
         == UsersAfter(db, less, Searched(db, me, matches), c)
  {
    var o, s, users := SearchByName(db, less), SearchRows(db, me, matches), Searched(db, me, matches);
    SearchIsLawful(db, less, me, matches);
    var later := After(o, s, c);
    var xs := Listing(o, later);
    ListingIsSorted(o, later);
    var us := MapSeq((row: SearchRow) => row.user, xs);
    var ou := UsersByName(db, less);
    UsersByNameIsLawful(db, less, users);
    forall i, j | 0 <= i < j < |us| ensures ou.Precedes(us[i], us[j]) {
      assert o.Precedes(xs[i], xs[j]);
    }
    forall u ensures u in us <==> u in After(ou, users, c) {
      if u in us {
        var i :| 0 <= i < |us| && us[i] == u;
        assert xs[i] in xs;
        SearchRowTag(db, me, matches, xs[i]);
      }
      if u in After(ou, users, c) {
        var row := SearchRowExists(db, me, matches, u);
        assert row in later && row in xs;
        var i :| 0 <= i < |xs| && xs[i] == row;
        assert us[i] == u;
      }
    }
    ListingIs(ou, After(ou, users, c), us);
  }

  // ---- Notifications ----

  datatype NotificationRow = NotificationRow(userId: Uuid, createdAt: Time)

  function NotificationsOf(table: map<Uuid, NotificationRow>, user: Uuid): set<Uuid> {
    set n | n in table && table[n].userId == user
  }

  function NewestFirst(table: map<Uuid, NotificationRow>): Order<Uuid, FeedQueries.DateId> {
    Order((n: Uuid) => FeedQueries.DateId(if n in table then table[n].createdAt else 0, n), FeedQueries.Earlier)
  }

  lemma NewestFirstIsLawful(table: map<Uuid, NotificationRow>, s: set<Uuid>)
    ensures Lawful(NewestFirst(table), s)
  {
  }

  ghost function NotificationPages(table: map<Uuid, NotificationRow>, user: Uuid, limit: nat)
    : FeedQueries.DateId -> Answer<Uuid, FeedQueries.DateId>
  {
    NewestFirstIsLawful(table, NotificationsOf(table, user));
    var s := NotificationsOf(table, user);
    c => KeysetPage(NewestFirst(table), s, s, limit, c)
  }

  /** A user's notifications after a cursor, newest first. */
  ghost function NotificationsAfter(table: map<Uuid, NotificationRow>, user: Uuid, c: FeedQueries.DateId): seq<Uuid> {
    NewestFirstIsLawful(table, After(NewestFirst(table), NotificationsOf(table, user), c));
    Listing(NewestFirst(table), After(NewestFirst(table), NotificationsOf(table, user), c))
  }

  lemma NotificationWalk(
    table: map<Uuid, NotificationRow>, user: Uuid, limit: nat, c: FeedQueries.DateId, calls: nat)
    requires limit > 0 && calls >= CallsNeeded(|NotificationsAfter(table, user, c)|, limit)
    ensures Walk(NotificationPages(table, user, limit), c, calls) == Answer(NotificationsAfter(table, user, c), None)
  {
    var s := NotificationsOf(table, user);
    NewestFirstIsLawful(table, s);
    WalkIsListing(NotificationPages(table, user, limit), NewestFirst(table), s, s, limit, c, calls);
  }

  /** Which notifications the list holds: in the columns of the table. */
  lemma NotificationWalkHas(
    table: map<Uuid, NotificationRow>, user: Uuid, limit: nat, c: FeedQueries.DateId, calls: nat, n: Uuid)
    requires limit > 0 && calls >= CallsNeeded(|NotificationsAfter(table, user, c)|, limit)
    ensures n in Walk(NotificationPages(table, user, limit), c, calls).items
       <==> && n in table && table[n].userId == user
            && (table[n].createdAt < c.createdAt || (table[n].createdAt == c.createdAt && n > c.id))
  {
    NotificationWalk(table, user, limit, c, calls);
    var o := NewestFirst(table);
    NewestFirstIsLawful(table, After(o, NotificationsOf(table, user), c));
    ListingIsSorted(o, After(o, NotificationsOf(table, user), c));
  }
}
