/**
 What the feed calls do to the lists of feeds: on whose lists a new feed appears and whom it shows as
 its members, and which lists a deleted or reported feed leaves. The lists are described by the
 columns of the tables first.
 */
module FeedEffects {
  import opened Prelude
  import opened Tables
  import opened Social
  import opened SocialSafety
  import opened FeedQueries
  import opened FeedFold
  import opened FeedJoin
  import opened FeedReader
  import opened GatheringQueries
  import opened GatheringEffects

  // ---- The lists in the columns of the tables ----

  lemma OwnHas(db: Db, u: Uuid, range: Range, f: Uuid)
    ensures f in OwnFeeds(db, u, range)
       <==> && f in db.feeds && db.feeds[f].deletedAt.None? && db.feeds[f].writerId == u
            && range.minDate <= db.feeds[f].createdAt <= range.maxDate && (u, f) !in db.blockedFeeds
  {
  }

  lemma BlockedHas(db: Db, u: Uuid, f: Uuid)
    ensures f in BlockedFeeds(db, u) <==> f in db.feeds && db.feeds[f].deletedAt.None? && (u, f) in db.blockedFeeds
  {
  }

  /** A feed shared with friends is read by its writer and, while the writer is active, by those friends. */
  ghost predicate ReadsCommon(db: Db, writer: Uuid, f: Uuid, u: Uuid) {
    u == writer || ((f, u) in db.visibilities && writer in db.users && db.users[writer].deletedAt.None?)
  }

  /** A feed about a gathering is read by its writer, the host and everybody who accepted. */
  ghost predicate ReadsAbout(db: Db, writer: Uuid, g: Uuid, u: Uuid) {
    || u == writer
    || (g in db.gatherings && db.gatherings[g].deletedAt.None? && db.gatherings[g].hostUserId == u)
    || Accepted(db, g, u)
  }

  ghost predicate Reads(db: Db, f: Uuid, u: Uuid) {
    && f in db.feeds && db.feeds[f].deletedAt.None?
    && match db.feeds[f].gatheringId
       case None => ReadsCommon(db, db.feeds[f].writerId, f, u)
       case Some(g) => ReadsAbout(db, db.feeds[f].writerId, g, u)
  }

  lemma AllFeedsHas(db: Db, u: Uuid, range: Range, f: Uuid)
    ensures f in AllFeeds(db, u, range)
       <==> && Reads(db, f, u) && (u, f) !in db.blockedFeeds
            && range.minDate <= db.feeds[f].createdAt <= range.maxDate
  {
    if f in db.feeds && db.feeds[f].gatheringId.Some? {
      AcceptedIsTakesPart(db, db.feeds[f].gatheringId.value, u);
    }
  }

  /** A feed shows the users it was shared with unless it is about an undeleted gathering that has a name. */
  lemma CommonHas(db: Db, f: Uuid, user: User)
    requires f in db.feeds
    ensures IsCommon(db, f)
       <==> match db.feeds[f].gatheringId
            case None => true
            case Some(g) => g !in db.gatherings || db.gatherings[g].deletedAt.Some? || db.gatherings[g].name == ""
    ensures SharedWith(db, f, user)
       <==> && (f, user.id) in db.visibilities && user.id in db.users && db.users[user.id].deletedAt.None?
            && user == User(user.id, db.users[user.id].accountId, db.users[user.id].name)
  {
  }

  /** The own and the blocked feeds share nothing, and an own feed is also on the "all" list. */
  lemma OwnAreRead(db: Db, u: Uuid, range: Range)
    ensures OwnFeeds(db, u, range) <= AllFeeds(db, u, range)
    ensures AllFeeds(db, u, range) !! BlockedFeeds(db, u)
  {
    hide OwnFeeds, AllFeeds, BlockedFeeds;
    forall f: Uuid
      ensures f in OwnFeeds(db, u, range) ==> f in AllFeeds(db, u, range)
      ensures f in AllFeeds(db, u, range) ==> f !in BlockedFeeds(db, u)
    {
      OwnHas(db, u, range, f);
      AllFeedsHas(db, u, range, f);
      BlockedHas(db, u, f);
    }
  }

  // ---- A new feed ----

  /** One feed more; who reads the others stays. */
  ghost predicate Posted(db: Db, next: Db, id: Uuid, row: FeedRow) {
    && id !in db.feeds && next.feeds == db.feeds[id := row]
    && next.blockedFeeds == db.blockedFeeds && next.users == db.users && next.gatherings == db.gatherings
    && next.participations == db.participations
    && forall v: (Uuid, Uuid) | v.0 != id :: v in next.visibilities <==> v in db.visibilities
  }

  lemma ReadsElsewhere(db: Db, next: Db, id: Uuid, row: FeedRow, f: Uuid, u: Uuid)
    requires Posted(db, next, id, row) && f != id
    ensures Reads(next, f, u) <==> Reads(db, f, u)
  {
    assert (f, u).0 != id;
    if f in db.feeds && db.feeds[f].gatheringId.Some? {
      SameAccepted(db, next, db.feeds[f].gatheringId.value, u);
    }
  }

  /** A new feed comes onto exactly the lists it should be on, and every other entry stays. */
  lemma PostedLists(db: Db, next: Db, id: Uuid, row: FeedRow, u: Uuid, range: Range)
    requires Posted(db, next, id, row) && row.deletedAt.None?
    ensures var blocked, dated := (u, id) in db.blockedFeeds, range.minDate <= row.createdAt <= range.maxDate;
            && AllFeeds(next, u, range) == AllFeeds(db, u, range) + If(Reads(next, id, u) && !blocked && dated, id)
            && OwnFeeds(next, u, range) == OwnFeeds(db, u, range) + If(u == row.writerId && !blocked && dated, id)
            && BlockedFeeds(next, u) == BlockedFeeds(db, u) + If(blocked, id)
            && id !in AllFeeds(db, u, range) + OwnFeeds(db, u, range) + BlockedFeeds(db, u)
  {
    hide AllFeeds, OwnFeeds, BlockedFeeds, Reads;
    forall f: Uuid
      ensures f != id ==> (f in AllFeeds(next, u, range) <==> f in AllFeeds(db, u, range))
      ensures f != id ==> (f in OwnFeeds(next, u, range) <==> f in OwnFeeds(db, u, range))
      ensures f != id ==> (f in BlockedFeeds(next, u) <==> f in BlockedFeeds(db, u))
    {
      if f != id {
        ListedElsewhere(db, next, id, row, u, range, f);
      }
    }
    NotYetListed(db, u, range, id);
    AllFeedsHas(next, u, range, id);
    OwnHas(next, u, range, id);
    BlockedHas(next, u, id);
  }

  lemma NotYetListed(db: Db, u: Uuid, range: Range, id: Uuid)
    requires id !in db.feeds
    ensures id !in AllFeeds(db, u, range) && id !in OwnFeeds(db, u, range) && id !in BlockedFeeds(db, u)
  {
  }

  lemma ListedElsewhere(db: Db, next: Db, id: Uuid, row: FeedRow, u: Uuid, range: Range, f: Uuid)
    requires Posted(db, next, id, row) && f != id
    ensures f in AllFeeds(next, u, range) <==> f in AllFeeds(db, u, range)
    ensures f in OwnFeeds(next, u, range) <==> f in OwnFeeds(db, u, range)
    ensures f in BlockedFeeds(next, u) <==> f in BlockedFeeds(db, u)
  {
    hide AllFeeds, Reads;
    ReadsElsewhere(db, next, id, row, f, u);
    AllFeedsHas(db, u, range, f);
    AllFeedsHas(next, u, range, f);
  }

  // ---- A feed shared with friends ----

  /** What a successful post to friends writes. */
  lemma FriendFeedIsPosted(
    db: Db, writer: Uuid, content: string, urls: seq<string>, friends: seq<Uuid>, now: Time, id: Uuid)
    requires Safe(db) && FeedReply(db, CreateFriendFeed(writer, content, urls, friends, now, id)).Done?
    ensures var next := FeedStep(db, CreateFriendFeed(writer, content, urls, friends, now, id));
            && Posted(db, next, id, FeedRow(writer, None, content, now, None))
            && forall u: Uuid :: (id, u) in next.visibilities <==> u in friends
  {
    assert forall v | v in db.visibilities :: v.0 != id;
  }

  /**
   The new feed is on the writer's "all" list and, as long as the writer is active, on that of exactly
   the named friends, unless they have it blocked; it is on the writer's own list; nothing else moves.
   */
  lemma FriendFeedLists(
    db: Db, writer: Uuid, content: string, urls: seq<string>, friends: seq<Uuid>, now: Time, id: Uuid, u: Uuid,
    range: Range)
    requires Safe(db) && FeedReply(db, CreateFriendFeed(writer, content, urls, friends, now, id)).Done?
    ensures var next := FeedStep(db, CreateFriendFeed(writer, content, urls, friends, now, id));
            var blocked, dated := (u, id) in db.blockedFeeds, range.minDate <= now <= range.maxDate;
            var reader := u == writer || (u in friends && ActiveUser(db.users, writer));
            && AllFeeds(next, u, range) == AllFeeds(db, u, range) + If(reader && !blocked && dated, id)
            && OwnFeeds(next, u, range) == OwnFeeds(db, u, range) + If(u == writer && !blocked && dated, id)
            && BlockedFeeds(next, u) == BlockedFeeds(db, u) + If(blocked, id)
            && id !in AllFeeds(db, u, range) + OwnFeeds(db, u, range) + BlockedFeeds(db, u)
  {
    hide Safe, FeedReply, FeedStep, AllFeeds, OwnFeeds, BlockedFeeds;
    var next := FeedStep(db, CreateFriendFeed(writer, content, urls, friends, now, id));
    FriendFeedIsPosted(db, writer, content, urls, friends, now, id);
    PostedLists(db, next, id, FeedRow(writer, None, content, now, None), u, range);
  }

  /** Whoever reads the new feed finds the text, the pictures and exactly the active named friends on it. */
  lemma FriendFeedPresented(
    db: Db, writer: Uuid, content: string, urls: seq<string>, friends: seq<Uuid>, now: Time, id: Uuid,
    nameLe: (string, string) -> bool, feed: Feed)
    requires Safe(db) && FeedReply(db, CreateFriendFeed(writer, content, urls, friends, now, id)).Done?
    requires ActiveUser(db.users, writer)
    ensures var next := FeedStep(db, CreateFriendFeed(writer, content, urls, friends, now, id));
            && ActiveFeed(next, id) && next.feeds[id].writerId == writer && next.users == db.users
            && (Presents(next, nameLe, id, feed) ==>
                  && feed.id == id && feed.content == content && feed.createdAt == now && feed.gathering.None?
                  && feed.writer == UserOf(db, writer) && feed.images == Distinct(NonEmpty(urls))
                  && NoRepeats(feed.withMembers)
                  && forall user :: user in feed.withMembers
                       <==> user.id in friends && ActiveUser(db.users, user.id) && user == UserOf(db, user.id))
  {
    var next := FeedStep(db, CreateFriendFeed(writer, content, urls, friends, now, id));
    FriendFeedIsPosted(db, writer, content, urls, friends, now, id);
    FriendFeedUrls(db, writer, content, urls, friends, now, id);
    hide FeedStep, FeedReply, Safe, DetailUrls;
    if Presents(next, nameLe, id, feed) {
      forall user
        ensures user in feed.withMembers
           <==> user.id in friends && ActiveUser(db.users, user.id) && user == UserOf(db, user.id)
      {
        assert SharedWith(next, id, user) <==>
               ((id, user.id) in next.visibilities && ActiveUser(db.users, user.id) && user == UserOf(db, user.id));
      }
    }
  }

  lemma FriendFeedUrls(
    db: Db, writer: Uuid, content: string, urls: seq<string>, friends: seq<Uuid>, now: Time, id: Uuid)
    requires Safe(db) && FeedReply(db, CreateFriendFeed(writer, content, urls, friends, now, id)).Done?
    ensures DetailUrls(FeedStep(db, CreateFriendFeed(writer, content, urls, friends, now, id)), id) == urls
  {
    var plain := AfterCreateFeed(db, None, writer, content, urls, now, id);
    var next := FeedStep(db, CreateFriendFeed(writer, content, urls, friends, now, id));
    assert next == plain.(visibilities := next.visibilities);
    PostedUrlsReadBack(db, None, writer, content, urls, now, id);
    hide FeedStep, AfterCreateFeed;
    SameImages(plain, next, id);
  }

  lemma SameImages(db: Db, next: Db, f: Uuid)
    requires next.images == db.images
    ensures DetailUrls(next, f) == DetailUrls(db, f)
  {
    assert ImageSet(next, f) == ImageSet(db, f);
  }

  /** With whom a feed is shared is settled when it is posted. */
  lemma FeedStepKeepsReaders(db: Db, op: FeedOp, f: Uuid, u: Uuid)
    requires f in db.feeds
    ensures f in FeedStep(db, op).feeds && ((f, u) in FeedStep(db, op).visibilities <==> (f, u) in db.visibilities)
  {
    if op.CreateFriendFeed? {
      hide AfterCreateFriendFeed, AllFriends, Distinct;
      if FeedReply(db, op).Done? {
        FriendFeedKeepsReaders(db, op.writer, op.content, op.urls, op.friends, op.now, op.id, f, u);
      }
    } else {
      hide FeedStep;
      OtherFeedStep(db, op, f);
    }
  }

  lemma OtherFeedStep(db: Db, op: FeedOp, f: Uuid)
    requires f in db.feeds && !op.CreateFriendFeed?
    ensures f in FeedStep(db, op).feeds && FeedStep(db, op).visibilities == db.visibilities
  {
    hide FeedReply, ImageRows, AfterCreateFriendFeed;
  }

  lemma FriendFeedKeepsReaders(
    db: Db, writer: Uuid, content: string, urls: seq<string>, friends: seq<Uuid>, now: Time, id: Uuid, f: Uuid, u: Uuid)
    requires f in db.feeds && id != f
    ensures var next := AfterCreateFriendFeed(db, writer, content, urls, friends, now, id);
            f in next.feeds && ((f, u) in next.visibilities <==> (f, u) in db.visibilities)
  {
    hide ImageRows;
  }

  lemma StepKeepsReaders(db: Db, op: Op, f: Uuid, u: Uuid)
    requires f in db.feeds
    ensures f in Step(db, op).feeds && ((f, u) in Step(db, op).visibilities <==> (f, u) in db.visibilities)
  {
    hide FriendStep, GatheringStep, FeedStep, GroupStep;
    match op
    case OnFriends(o) => FriendStepFrame(db, o);
    case OnGatherings(o) => GatheringStepFrame(db, o);
    case OnFeeds(o) => FeedStepKeepsReaders(db, o, f, u);
    case OnGroups(o) => GroupStepFrame(db, o);
    case ChangeUsers(_) =>
  }

  lemma {:induction false} RunKeepsReaders(db: Db, ops: seq<Op>, f: Uuid, u: Uuid)
    requires f in db.feeds
    ensures f in Run(db, ops).feeds && ((f, u) in Run(db, ops).visibilities <==> (f, u) in db.visibilities)
  {
    hide Step;
    if ops != [] {
      RunKeepsReaders(db, ops[..|ops| - 1], f, u);
      StepKeepsReaders(Run(db, ops[..|ops| - 1]), ops[|ops| - 1], f, u);
    }
  }

  // ---- A feed about a gathering ----

  lemma GatheringFeedIsPosted(
    db: Db, g: Uuid, writer: Uuid, content: string, urls: seq<string>, now: Time, id: Uuid)
    requires FeedReply(db, CreateGatheringFeed(g, writer, content, urls, now, id)).Done?
    ensures var next := FeedStep(db, CreateGatheringFeed(g, writer, content, urls, now, id));
            && Posted(db, next, id, FeedRow(writer, Some(g), content, now, None))
            && g in db.gatherings && db.gatherings[g].deletedAt.None? && db.gatherings[g].endedAt.Some?
  {
  }

  /** The new feed is read by its writer, the host of the gathering and everybody who accepted, and nobody else. */
  lemma GatheringFeedLists(
    db: Db, g: Uuid, writer: Uuid, content: string, urls: seq<string>, now: Time, id: Uuid, u: Uuid, range: Range)
    requires FeedReply(db, CreateGatheringFeed(g, writer, content, urls, now, id)).Done?
    ensures g in db.gatherings
    ensures var next := FeedStep(db, CreateGatheringFeed(g, writer, content, urls, now, id));
            var blocked, dated := (u, id) in db.blockedFeeds, range.minDate <= now <= range.maxDate;
            var reader := u == writer || u == db.gatherings[g].hostUserId || Accepted(db, g, u);
            && AllFeeds(next, u, range) == AllFeeds(db, u, range) + If(reader && !blocked && dated, id)
            && OwnFeeds(next, u, range) == OwnFeeds(db, u, range) + If(u == writer && !blocked && dated, id)
            && BlockedFeeds(next, u) == BlockedFeeds(db, u) + If(blocked, id)
            && id !in AllFeeds(db, u, range) + OwnFeeds(db, u, range) + BlockedFeeds(db, u)
  {
    hide FeedReply, FeedStep, AllFeeds, OwnFeeds, BlockedFeeds, Accepted;
    var next := FeedStep(db, CreateGatheringFeed(g, writer, content, urls, now, id));
    GatheringFeedIsPosted(db, g, writer, content, urls, now, id);
    PostedLists(db, next, id, FeedRow(writer, Some(g), content, now, None), u, range);
    SameAccepted(db, next, g, u);
  }

  /**
   Whoever reads the new feed finds the text, the pictures and the gathering, with exactly its active
   participants of any status, apart from the writer. A gathering without a name shows nobody.
   */
  lemma GatheringFeedPresented(
    db: Db, g: Uuid, writer: Uuid, content: string, urls: seq<string>, now: Time, id: Uuid,
    nameLe: (string, string) -> bool, feed: Feed)
    requires Safe(db) && FeedReply(db, CreateGatheringFeed(g, writer, content, urls, now, id)).Done?
    requires ActiveUser(db.users, writer)
    ensures g in db.gatherings
    ensures var next := FeedStep(db, CreateGatheringFeed(g, writer, content, urls, now, id));
            && ActiveFeed(next, id) && next.feeds[id].writerId == writer && next.users == db.users
            && (Presents(next, nameLe, id, feed) ==>
                  && feed.id == id && feed.content == content && feed.createdAt == now
                  && feed.writer == UserOf(db, writer) && feed.images == Distinct(NonEmpty(urls))
                  && NoRepeats(feed.withMembers)
                  && if db.gatherings[g].name == "" then feed.gathering.None? && feed.withMembers == []
                     else
                       && feed.gathering
                       == Some(GatheringInfo(g, db.gatherings[g].name, db.gatherings[g].gatheringDate))
                       && forall user :: user in feed.withMembers <==> Companion(db, g, writer, user))
  {
    hide FeedStep, FeedReply, Safe, DetailUrls, NonEmpty, Distinct, HasPlace, Participates;
    var next := FeedStep(db, CreateGatheringFeed(g, writer, content, urls, now, id));
    GatheringFeedIsPosted(db, g, writer, content, urls, now, id);
    GatheringFeedUrls(db, g, writer, content, urls, now, id);
    if Presents(next, nameLe, id, feed) {
      if db.gatherings[g].name == "" {
        assert forall user <- feed.withMembers :: SharedWith(next, id, user);
        EmptyIff(feed.withMembers);
      } else {
        forall user ensures user in feed.withMembers <==> Companion(db, g, writer, user) {
          PlaceIsParticipation(db, next, g, user.id);
        }
      }
    }
  }

  lemma EmptyIff(users: seq<User>)
    ensures users == [] <==> forall user :: user !in users
  {
    if users != [] {
      assert users[0] in users;
    }
  }

  lemma GatheringFeedUrls(db: Db, g: Uuid, writer: Uuid, content: string, urls: seq<string>, now: Time, id: Uuid)
    requires Safe(db) && FeedReply(db, CreateGatheringFeed(g, writer, content, urls, now, id)).Done?
    ensures var next := FeedStep(db, CreateGatheringFeed(g, writer, content, urls, now, id));
            DetailUrls(next, id) == urls && forall u: Uuid :: (id, u) !in next.visibilities
  {
    PostedUrlsReadBack(db, Some(g), writer, content, urls, now, id);
    assert forall v | v in db.visibilities :: v.0 != id;
  }

  /** The user has a row in the gathering, whatever its status. */
  ghost predicate HasPlace(db: Db, g: Uuid, u: Uuid) {
    exists i: nat :: (g, i) in db.participations && db.participations[(g, i)].participantId == u
  }

  /** Another active user with a name, an account id and a row in the gathering. */
  ghost predicate Companion(db: Db, g: Uuid, writer: Uuid, user: User) {
    && HasPlace(db, g, user.id) && user.id != writer
    && ActiveUser(db.users, user.id) && user == UserOf(db, user.id) && user.name != "" && user.accountId != ""
  }

  lemma PlaceIsParticipation(db: Db, next: Db, g: Uuid, u: Uuid)
    requires next.participations == db.participations
    ensures HasPlace(db, g, u) <==> Participates(next, g, u)
  {
    if Participates(next, g, u) {
      var k :| k in db.participations && k.0 == g && db.participations[k].participantId == u;
      assert k == (g, k.1);
    }
    if i: nat :| (g, i) in db.participations && db.participations[(g, i)].participantId == u {
      assert (g, i).0 == g;
    }
  }

  /**
   Who may post: somebody who accepted may post about a gathering exactly while it is on their no-feed
   list and less than thirty days have passed since its end.
   */
  lemma MayPostIff(db: Db, g: Uuid, writer: Uuid, content: string, urls: seq<string>, now: Time, id: Uuid)
    requires Accepted(db, g, writer)
    ensures FeedReply(db, CreateGatheringFeed(g, writer, content, urls, now, id)).Done?
       <==> && g in NoFeed(db, writer) && now - db.gatherings[g].endedAt.value < 30 * DAY && id !in db.feeds
  {
    NoFeedHas(db, writer, g);
    var i: nat :| (g, i) in db.participations
                  && db.participations[(g, i)] == ParticipationRow(writer, ParticipationStatus.ACCEPTED);
    assert (g, i).0 == g;
    if g in db.gatherings && db.gatherings[g].endedAt.Some? {
      DaysBelow(now, db.gatherings[g].endedAt.value, 30);
    }
  }

  /** Why somebody who accepted may not, in the order of the checks. */
  lemma PostErrors(db: Db, g: Uuid, writer: Uuid, content: string, urls: seq<string>, now: Time, id: Uuid)
    requires ActiveGathering(db, g) && Accepted(db, g, writer)
    ensures var reply, row := FeedReply(db, CreateGatheringFeed(g, writer, content, urls, now, id)), db.gatherings[g];
            && (reply == Failed(GatheringNotCompleted) <==> row.endedAt.None?)
            && (reply == Failed(FeedCreationPeriodExceeded)
                <==> row.endedAt.Some? && now - row.endedAt.value >= 30 * DAY)
            && (reply == Failed(DuplicateFeed)
                <==> row.endedAt.Some? && now - row.endedAt.value < 30 * DAY && g !in NoFeed(db, writer))
  {
    NoFeedHas(db, writer, g);
    var i: nat :| (g, i) in db.participations
                  && db.participations[(g, i)] == ParticipationRow(writer, ParticipationStatus.ACCEPTED);
    assert (g, i).0 == g;
    if db.gatherings[g].endedAt.Some? {
      DaysBelow(now, db.gatherings[g].endedAt.value, 30);
    }
  }

  /** Without any participation nobody may post. */
  lemma StrangerMayNotPost(db: Db, g: Uuid, writer: Uuid, content: string, urls: seq<string>, now: Time, id: Uuid)
    requires forall i: nat :: (g, i) in db.participations ==> db.participations[(g, i)].participantId != writer
    ensures FeedReply(db, CreateGatheringFeed(g, writer, content, urls, now, id)).Failed?
  {
    assert forall k | k in db.participations && k.0 == g :: k == (g, k.1);
  }

  // ---- Deletion and reports ----

  /** A deleted feed leaves every list; the others stay. */
  lemma DeletedFeedLists(db: Db, id: Uuid, writer: Uuid, now: Time, u: Uuid, range: Range)
    requires FeedReply(db, DeleteFeed(id, writer, now)).Done?
    ensures var next := FeedStep(db, DeleteFeed(id, writer, now));
            && AllFeeds(next, u, range) == AllFeeds(db, u, range) - {id}
            && OwnFeeds(next, u, range) == OwnFeeds(db, u, range) - {id}
            && BlockedFeeds(next, u) == BlockedFeeds(db, u) - {id}
  {
    var next := FeedStep(db, DeleteFeed(id, writer, now));
    assert next == db.(feeds := db.feeds[id := db.feeds[id].(deletedAt := Some(now))]);
    hide FeedStep, FeedReply, AllFeeds, OwnFeeds, BlockedFeeds, Reads;
    forall f: Uuid
      ensures f in AllFeeds(next, u, range) <==> f in AllFeeds(db, u, range) - {id}
      ensures f in OwnFeeds(next, u, range) <==> f in OwnFeeds(db, u, range) - {id}
      ensures f in BlockedFeeds(next, u) <==> f in BlockedFeeds(db, u) - {id}
    {
      DeletedReads(db, next, id, now, f, u);
      AllFeedsHas(db, u, range, f);
      AllFeedsHas(next, u, range, f);
      OwnHas(db, u, range, f);
      OwnHas(next, u, range, f);
      BlockedHas(db, u, f);
      BlockedHas(next, u, f);
    }
  }

  lemma DeletedReads(db: Db, next: Db, id: Uuid, now: Time, f: Uuid, u: Uuid)
    requires id in db.feeds && next == db.(feeds := db.feeds[id := db.feeds[id].(deletedAt := Some(now))])
    ensures Reads(next, f, u) <==> Reads(db, f, u) && f != id
  {
    if f in db.feeds && db.feeds[f].gatheringId.Some? {
      SameAccepted(db, next, db.feeds[f].gatheringId.value, u);
    }
  }

  /** Somebody may delete a feed exactly when it is on their list of own feeds or they wrote and blocked it. */
  lemma MayDeleteIff(db: Db, id: Uuid, u: Uuid, now: Time, range: Range)
    requires id in db.feeds ==> range.minDate <= db.feeds[id].createdAt <= range.maxDate
    ensures FeedReply(db, DeleteFeed(id, u, now)).Done?
       <==> id in OwnFeeds(db, u, range) || (id in BlockedFeeds(db, u) && db.feeds[id].writerId == u)
  {
    OwnHas(db, u, range, id);
    BlockedHas(db, u, id);
  }

  /** A feed is deleted once. */
  lemma DeletedOnce(db: Db, id: Uuid, u: Uuid, now: Time, v: Uuid, later: Time)
    requires FeedReply(db, DeleteFeed(id, u, now)).Done?
    ensures FeedReply(FeedStep(db, DeleteFeed(id, u, now)), DeleteFeed(id, v, later)) == Failed(Forbidden)
  {
  }

  /** A reported feed goes from the reporter's lists to the reporter's blocked ones; other readers keep it. */
  lemma ReportedFeedLists(db: Db, reporter: Uuid, feed: Uuid, id: Uuid, u: Uuid, range: Range)
    requires FeedReply(db, ReportFeed(reporter, feed, id)).Done?
    ensures var next := FeedStep(db, ReportFeed(reporter, feed, id));
            var gone := If(u == reporter, feed);
            && AllFeeds(next, u, range) == AllFeeds(db, u, range) - gone
            && OwnFeeds(next, u, range) == OwnFeeds(db, u, range) - gone
            && BlockedFeeds(next, u)
            == BlockedFeeds(db, u) + If(u == reporter && feed in db.feeds && db.feeds[feed].deletedAt.None?, feed)
            && next.reports == db.reports[id := ReportRow(reporter, feed, ReportType.FEED)]
  {
    var next := FeedStep(db, ReportFeed(reporter, feed, id));
    assert next == db.(reports := next.reports, blockedFeeds := db.blockedFeeds + {(reporter, feed)});
    hide FeedStep, FeedReply, AllFeeds, OwnFeeds, BlockedFeeds, Reads;
    forall f: Uuid
      ensures f in AllFeeds(next, u, range) <==> f in AllFeeds(db, u, range) - If(u == reporter, feed)
      ensures f in OwnFeeds(next, u, range) <==> f in OwnFeeds(db, u, range) - If(u == reporter, feed)
      ensures f in BlockedFeeds(next, u)
         <==> (|| f in BlockedFeeds(db, u)
               || (f == feed && u == reporter && feed in db.feeds && db.feeds[feed].deletedAt.None?))
    {
      ReportedReads(db, next, f, u);
      AllFeedsHas(db, u, range, f);
      AllFeedsHas(next, u, range, f);
      OwnHas(db, u, range, f);
      OwnHas(next, u, range, f);
      BlockedHas(db, u, f);
      BlockedHas(next, u, f);
    }
  }

  lemma ReportedReads(db: Db, next: Db, f: Uuid, u: Uuid)
    requires next == db.(reports := next.reports, blockedFeeds := next.blockedFeeds)
    ensures Reads(next, f, u) <==> Reads(db, f, u)
  {
    if f in db.feeds && db.feeds[f].gatheringId.Some? {
      SameAccepted(db, next, db.feeds[f].gatheringId.value, u);
    }
  }

  lemma FeedStepKeepsFeedBlock(db: Db, op: FeedOp, b: (Uuid, Uuid))
    requires b in db.blockedFeeds
    ensures b in FeedStep(db, op).blockedFeeds
  {
    hide FeedReply, ImageRows;
  }

  lemma StepKeepsFeedBlock(db: Db, op: Op, b: (Uuid, Uuid))
    requires b in db.blockedFeeds
    ensures b in Step(db, op).blockedFeeds
  {
    hide FriendStep, GatheringStep, FeedStep, GroupStep;
    match op
    case OnFriends(o) => FriendStepFrame(db, o);
    case OnGatherings(o) => GatheringStepFrame(db, o);
    case OnFeeds(o) => FeedStepKeepsFeedBlock(db, o, b);
    case OnGroups(o) => GroupStepFrame(db, o);
    case ChangeUsers(_) =>
  }

  /** Whatever happens after a report, the reported feed never comes back onto the reporter's lists. */
  lemma {:induction false} RunKeepsFeedBlock(db: Db, ops: seq<Op>, b: (Uuid, Uuid))
    requires b in db.blockedFeeds
    ensures b in Run(db, ops).blockedFeeds
  {
    hide Step;
    if ops != [] {
      RunKeepsFeedBlock(db, ops[..|ops| - 1], b);
      StepKeepsFeedBlock(Run(db, ops[..|ops| - 1]), ops[|ops| - 1], b);
    }
  }

  lemma ReportedFeedStaysAway(db: Db, reporter: Uuid, feed: Uuid, id: Uuid, ops: seq<Op>, range: Range)
    requires FeedReply(db, ReportFeed(reporter, feed, id)).Done?
    ensures var later := Run(FeedStep(db, ReportFeed(reporter, feed, id)), ops);
            feed !in AllFeeds(later, reporter, range) && feed !in OwnFeeds(later, reporter, range)
  {
    hide Run;
    var next := FeedStep(db, ReportFeed(reporter, feed, id));
    RunKeepsFeedBlock(next, ops, (reporter, feed));
    hide FeedStep, AllFeeds, OwnFeeds, Reads;
    AllFeedsHas(Run(next, ops), reporter, range, feed);
    OwnHas(Run(next, ops), reporter, range, feed);
  }
}
