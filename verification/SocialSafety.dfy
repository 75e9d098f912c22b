/** What every run of the social services keeps. */
module SocialSafety {
  import opened Prelude
  import opened Tables
  import opened Social

  // ---- Runs ----

  lemma {:induction false} RunAppend(db: Db, a: seq<Op>, b: seq<Op>)
    ensures Run(db, a + b) == Run(Run(db, a), b)
  {
    hide Step;
    if b == [] {
      assert a + b == a;
    } else {
      assert (a + b)[..|a + b| - 1] == a + b[..|b| - 1];
      RunAppend(db, a, b[..|b| - 1]);
    }
  }

  lemma RunSnoc(db: Db, ops: seq<Op>, op: Op)
    ensures Run(db, ops + [op]) == Step(Run(db, ops), op)
  {
    assert (ops + [op])[..|ops|] == ops;
  }

  lemma RunAt(db: Db, ops: seq<Op>, i: nat)
    requires i < |ops|
    ensures Run(db, ops[..i + 1]) == Step(Run(db, ops[..i]), ops[i])
  {
    assert ops[..i + 1][..i] == ops[..i];
  }

  // ---- What each family of calls leaves alone ----

  lemma FriendStepFrame(db: Db, op: FriendOp)
    ensures var next := FriendStep(db, op);
            && next.gatherings == db.gatherings && next.feeds == db.feeds
            && next.images == db.images && next.visibilities == db.visibilities
            && next.blockedFeeds == db.blockedFeeds
            && next.groups == db.groups && next.members == db.members
  {
    hide FriendReply, WithoutLinks, WithoutPendingBetween;
  }

  lemma GatheringStepFrame(db: Db, op: GatheringOp)
    ensures var next := GatheringStep(db, op);
            && next.friends == db.friends && next.blockedUsers == db.blockedUsers && next.reports == db.reports
            && next.feeds == db.feeds && next.images == db.images && next.visibilities == db.visibilities
            && next.blockedFeeds == db.blockedFeeds
            && next.groups == db.groups && next.members == db.members
  {
    hide GatheringReply, Invitations, Invitees;
  }

  lemma FeedStepFrame(db: Db, op: FeedOp)
    ensures var next := FeedStep(db, op);
            && next.friends == db.friends && next.blockedUsers == db.blockedUsers
            && next.gatherings == db.gatherings && next.participations == db.participations
            && next.groups == db.groups && next.members == db.members
  {
    hide FeedReply, ImageRows;
  }

  lemma GroupStepFrame(db: Db, op: GroupOp)
    ensures var next := GroupStep(db, op);
            && next.friends == db.friends && next.blockedUsers == db.blockedUsers
            && next.participations == db.participations && next.feeds == db.feeds && next.images == db.images
            && next.visibilities == db.visibilities && next.blockedFeeds == db.blockedFeeds
  {
    hide GroupReply, NewMembers;
  }

  // ---- Friendships ----

  /** At most one row per unordered pair of users. */
  ghost predicate OneRowPerPair(friends: map<Uuid, FriendRow>) {
    forall i, j | i in friends && j in friends ::
      Links(friends[i], friends[j].senderId, friends[j].receiverId) ==> i == j
  }

  ghost predicate NeverReported(friends: map<Uuid, FriendRow>) {
    forall i | i in friends :: !friends[i].status.REPORTED?
  }

  ghost predicate FriendRowsSafe(db: Db) {
    OneRowPerPair(db.friends) && NeverReported(db.friends)
  }

  lemma RequestKeepsRows(db: Db, sender: Uuid, receiver: Uuid, id: Uuid)
    requires FriendRowsSafe(db) && RequestReply(db, sender, receiver, id).Done?
    ensures FriendRowsSafe(AfterRequest(db, sender, receiver, id))
  {
    forall j | j in db.friends ensures !Links(db.friends[j], sender, receiver) {
      assert !db.friends[j].status.REPORTED?;
    }
  }

  /** The other calls delete rows or turn them into friendships. */
  lemma FriendStepKeepsEnds(db: Db, op: FriendOp, i: Uuid)
    requires NeverReported(db.friends) && (op.Request? ==> FriendReply(db, op).Failed?)
    requires i in FriendStep(db, op).friends
    ensures i in db.friends
    ensures var row := FriendStep(db, op).friends[i];
            !row.status.REPORTED? && row == db.friends[i].(status := row.status)
  {
    hide FriendReply, WithoutPendingBetween;
  }

  lemma FriendStepKeepsRows(db: Db, op: FriendOp)
    requires FriendRowsSafe(db)
    ensures FriendRowsSafe(FriendStep(db, op))
  {
    if op.Request? && FriendReply(db, op).Done? {
      hide FriendRowsSafe;
      RequestKeepsRows(db, op.sender, op.receiver, op.id);
    } else {
      hide FriendStep;
      forall i | i in FriendStep(db, op).friends
        ensures i in db.friends
        ensures var row := FriendStep(db, op).friends[i];
                !row.status.REPORTED? && row == db.friends[i].(status := row.status)
      {
        FriendStepKeepsEnds(db, op, i);
      }
    }
  }

  /** A successful accept turns exactly one row, a PENDING one, into ACCEPTED. */
  lemma AcceptTurnsPending(db: Db, sender: Uuid, receiver: Uuid) returns (id: Uuid)
    requires FriendRowsSafe(db) && FriendReply(db, Accept(sender, receiver)).Done?
    ensures id in db.friends && Links(db.friends[id], sender, receiver) && db.friends[id].status.PENDING?
    ensures FriendStep(db, Accept(sender, receiver))
         == db.(friends := db.friends[id := db.friends[id].(status := FriendStatus.ACCEPTED)])
  {
    id :| id in db.friends && Links(db.friends[id], sender, receiver);
    var next := AfterAccept(db, sender, receiver).friends;
    assert next == db.friends[id := db.friends[id].(status := FriendStatus.ACCEPTED)];
  }

  /** A successful reject removes exactly one row, and that one is not a friendship. */
  lemma RejectRemovesPending(db: Db, sender: Uuid, receiver: Uuid) returns (id: Uuid)
    requires FriendRowsSafe(db) && FriendReply(db, Reject(sender, receiver)).Done?
    ensures id in db.friends && Links(db.friends[id], sender, receiver) && db.friends[id].status.PENDING?
    ensures FriendStep(db, Reject(sender, receiver)) == db.(friends := db.friends - {id})
  {
    id :| id in db.friends && Links(db.friends[id], sender, receiver);
    assert WithoutLinks(db.friends, sender, receiver) == db.friends - {id};
  }

  /** The call ends the friendship of the two users. */
  predicate Parts(op: FriendOp, a: Uuid, b: Uuid) {
    || (op.Unfriend? && Links(FriendRow(op.friend, op.user, FriendStatus.ACCEPTED), a, b))
    || (op.ReportFriend? && Links(FriendRow(op.reporter, op.reported, FriendStatus.ACCEPTED), a, b))
  }

  /** A friendship outlives every call but a successful unfriend or report between the two. */
  lemma FriendshipSurvives(db: Db, op: FriendOp, a: Uuid, b: Uuid)
    requires FriendRowsSafe(db) && AreFriends(db, a, b)
    requires Parts(op, a, b) ==> FriendReply(db, op).Failed?
    ensures AreFriends(FriendStep(db, op), a, b)
  {
    var id :| id in db.friends && Links(db.friends[id], a, b) && db.friends[id].status.ACCEPTED?;
    var next := FriendStep(db, op);
    if op.Reject? && FriendReply(db, op).Done? {
      var gone := RejectRemovesPending(db, op.sender, op.receiver);
    }
    assert id in next.friends && Links(next.friends[id], a, b) && next.friends[id].status.ACCEPTED?;
  }

  /** Those two calls do end it, and with it the invitations that wait for an answer between the two. */
  lemma PartingEndsFriendship(db: Db, op: FriendOp, a: Uuid, b: Uuid)
    requires Parts(op, a, b) && FriendReply(db, op).Done?
    ensures !exists id | id in FriendStep(db, op).friends :: Links(FriendStep(db, op).friends[id], a, b)
    ensures forall k | k in db.participations ::
              if PendingBetween(db, k, a, b) then k !in FriendStep(db, op).participations
              else k in FriendStep(db, op).participations
                   && FriendStep(db, op).participations[k] == db.participations[k]
  {
    assert forall k | k in db.participations :: PendingBetween(db, k, a, b) <==> PendingBetween(db, k, b, a);
  }

  // ---- Invitations ----

  /** Participations belong to gatherings that exist and are not deleted. */
  ghost predicate ParticipationsAreLive(db: Db) {
    forall k | k in db.participations :: ActiveGathering(db, k.0)
  }

  ghost predicate PendingForFriends(db: Db, k: (Uuid, nat)) {
    && k in db.participations && k.0 in db.gatherings
    && db.participations[k].status.PENDING? && db.gatherings[k.0].kind.FRIEND?
  }

  /** Whoever has a PENDING invitation to a friends' gathering is a friend of its host. */
  ghost predicate InvitedAreFriends(db: Db) {
    forall k: (Uuid, nat) | PendingForFriends(db, k) ::
      AreFriends(db, db.gatherings[k.0].hostUserId, db.participations[k].participantId)
  }

  lemma GatheringStepKeepsParticipationsLive(db: Db, op: GatheringOp)
    requires ParticipationsAreLive(db)
    ensures ParticipationsAreLive(GatheringStep(db, op))
  {
  }

  lemma FriendStepKeepsInvited(db: Db, op: FriendOp)
    requires FriendRowsSafe(db) && ParticipationsAreLive(db) && InvitedAreFriends(db)
    ensures InvitedAreFriends(FriendStep(db, op)) && ParticipationsAreLive(FriendStep(db, op))
  {
    var next := FriendStep(db, op);
    forall k: (Uuid, nat) | PendingForFriends(next, k)
      ensures AreFriends(next, next.gatherings[k.0].hostUserId, next.participations[k].participantId)
    {
      var host, guest := db.gatherings[k.0].hostUserId, db.participations[k].participantId;
      assert PendingForFriends(db, k) && next.participations[k] == db.participations[k];
      assert PendingBetween(db, k, host, guest) && PendingBetween(db, k, guest, host);
      FriendshipSurvives(db, op, host, guest);
    }
  }

  lemma GatheringStepKeepsInvited(db: Db, op: GatheringOp)
    requires ParticipationsAreLive(db) && InvitedAreFriends(db)
    ensures InvitedAreFriends(GatheringStep(db, op))
  {
    var next := GatheringStep(db, op);
    GatheringStepFrame(db, op);
    forall k: (Uuid, nat) | PendingForFriends(next, k)
      ensures AreFriends(next, next.gatherings[k.0].hostUserId, next.participations[k].participantId)
    {
      hide Linked;
      if k in db.participations {
        assert PendingForFriends(db, k);
        assert AreFriends(db, db.gatherings[k.0].hostUserId, db.participations[k].participantId);
      } else {
        NewInvitationIsToFriend(db, op, k);
      }
    }
  }

  lemma NewInvitationIsToFriend(db: Db, op: GatheringOp, k: (Uuid, nat))
    requires k !in db.participations && PendingForFriends(GatheringStep(db, op), k)
    ensures AreFriends(
              db, GatheringStep(db, op).gatherings[k.0].hostUserId,
              GatheringStep(db, op).participations[k].participantId)
  {
    hide AreFriends;
    var guest := GatheringStep(db, op).participations[k].participantId;
    var invitees := op.friendIds.value + [op.input.hostUserId];
    assert invitees[k.1] == guest && guest in op.friendIds.value;
  }

  // ---- Reports ----

  /** FRIEND reports and blocked users correspond one to one. */
  ghost predicate ReportsMatchBlocks(reports: map<Uuid, ReportRow>, blocks: set<(Uuid, Uuid)>) {
    && (forall r | r in reports && reports[r].kind.FRIEND? :: (reports[r].reporterId, reports[r].reportedId) in blocks)
    && (forall b | b in blocks :: exists r | r in reports :: reports[r] == ReportRow(b.0, b.1, ReportType.FRIEND))
    && (forall r, q | r in reports && q in reports :: reports[r].kind.FRIEND? && reports[r] == reports[q] ==> r == q)
  }

  lemma NewReportMatches(reports: map<Uuid, ReportRow>, blocks: set<(Uuid, Uuid)>, id: Uuid, row: ReportRow)
    requires ReportsMatchBlocks(reports, blocks) && id !in reports
    requires row.kind.FRIEND? ==> (row.reporterId, row.reportedId) !in blocks
    ensures row.kind.FRIEND? ==>
              ReportsMatchBlocks(reports[id := row], blocks + {(row.reporterId, row.reportedId)})
    ensures !row.kind.FRIEND? ==> ReportsMatchBlocks(reports[id := row], blocks)
  {
    var grown := reports[id := row];
    assert grown[id] == row;
    forall b | b in blocks
      ensures exists r | r in grown :: grown[r] == ReportRow(b.0, b.1, ReportType.FRIEND)
    {
      var r :| r in reports && reports[r] == ReportRow(b.0, b.1, ReportType.FRIEND);
      assert grown[r] == reports[r];
    }
  }

  lemma FriendStepKeepsReportsMatch(db: Db, op: FriendOp)
    requires ReportsMatchBlocks(db.reports, db.blockedUsers)
    ensures ReportsMatchBlocks(FriendStep(db, op).reports, FriendStep(db, op).blockedUsers)
  {
    if op.ReportFriend? && FriendReply(db, op).Done? {
      NewReportMatches(db.reports, db.blockedUsers, op.id, ReportRow(op.reporter, op.reported, ReportType.FRIEND));
    }
  }

  lemma FeedStepKeepsReportsMatch(db: Db, op: FeedOp)
    requires ReportsMatchBlocks(db.reports, db.blockedUsers)
    ensures ReportsMatchBlocks(FeedStep(db, op).reports, FeedStep(db, op).blockedUsers)
  {
    if op.ReportFeed? && FeedReply(db, op).Done? {
      NewReportMatches(db.reports, db.blockedUsers, op.id, ReportRow(op.reporter, op.feed, ReportType.FEED));
    }
  }

  lemma GroupStepKeepsReportsMatch(db: Db, op: GroupOp)
    requires ReportsMatchBlocks(db.reports, db.blockedUsers)
    ensures ReportsMatchBlocks(GroupStep(db, op).reports, GroupStep(db, op).blockedUsers)
  {
    if op.ReportGroup? && GroupReply(db, op).Done? {
      NewReportMatches(db.reports, db.blockedUsers, op.id, ReportRow(op.reporter, op.group, ReportType.GROUP));
    }
  }

  function FriendReportIds(reports: map<Uuid, ReportRow>): set<Uuid> {
    set r | r in reports && reports[r].kind.FRIEND?
  }

  /** There are as many FRIEND reports as blocked users. */
  lemma {:induction false} AsManyReportsAsBlocks(reports: map<Uuid, ReportRow>, blocks: set<(Uuid, Uuid)>)
    requires ReportsMatchBlocks(reports, blocks)
    ensures |FriendReportIds(reports)| == |blocks|
    decreases |blocks|
  {
    if blocks == {} {
      assert FriendReportIds(reports) == {};
    } else {
      var b :| b in blocks;
      var r :| r in reports && reports[r] == ReportRow(b.0, b.1, ReportType.FRIEND);
      WithoutOneReport(reports, blocks, b, r);
      hide ReportsMatchBlocks, FriendReportIds;
      AsManyReportsAsBlocks(reports - {r}, blocks - {b});
      assert |blocks| == |blocks - {b}| + 1;
    }
  }

  lemma WithoutOneReport(reports: map<Uuid, ReportRow>, blocks: set<(Uuid, Uuid)>, b: (Uuid, Uuid), r: Uuid)
    requires ReportsMatchBlocks(reports, blocks) && b in blocks
    requires r in reports && reports[r] == ReportRow(b.0, b.1, ReportType.FRIEND)
    ensures ReportsMatchBlocks(reports - {r}, blocks - {b})
    ensures FriendReportIds(reports) == FriendReportIds(reports - {r}) + {r} && r !in FriendReportIds(reports - {r})
  {
    var fewer := reports - {r};
    forall q | q in fewer && fewer[q].kind.FRIEND?
      ensures (fewer[q].reporterId, fewer[q].reportedId) in blocks - {b}
    {
      assert fewer[q] == reports[q] && reports[q] != reports[r];
    }
    forall c | c in blocks - {b}
      ensures exists q | q in fewer :: fewer[q] == ReportRow(c.0, c.1, ReportType.FRIEND)
    {
      var q :| q in reports && reports[q] == ReportRow(c.0, c.1, ReportType.FRIEND);
      assert q in fewer;
    }
  }

  lemma FriendStepKeepsBlock(db: Db, op: FriendOp, b: (Uuid, Uuid))
    requires b in db.blockedUsers
    ensures b in FriendStep(db, op).blockedUsers
  {
    hide FriendReply, WithoutLinks, WithoutPendingBetween;
  }

  lemma StepKeepsBlock(db: Db, op: Op, b: (Uuid, Uuid))
    requires b in db.blockedUsers
    ensures b in Step(db, op).blockedUsers
  {
    hide FriendStep, GatheringStep, FeedStep, GroupStep;
    match op
    case OnFriends(f) => FriendStepKeepsBlock(db, f, b);
    case OnGatherings(g) => GatheringStepFrame(db, g);
    case OnFeeds(f) => FeedStepFrame(db, f);
    case OnGroups(g) => GroupStepFrame(db, g);
    case ChangeUsers(_) =>
  }

  lemma {:induction false} RunKeepsBlock(db: Db, ops: seq<Op>, b: (Uuid, Uuid))
    requires b in db.blockedUsers
    ensures b in Run(db, ops).blockedUsers
  {
    if ops != [] {
      var before := Run(db, ops[..|ops| - 1]);
      RunKeepsBlock(db, ops[..|ops| - 1], b);
      StepKeepsBlock(before, ops[|ops| - 1], b);
    }
  }

  /** Whatever happens after a friend was reported, reporting the same user again changes nothing. */
  lemma RepeatedReportChangesNothing(db: Db, reporter: Uuid, reported: Uuid, id: Uuid, again: Uuid, ops: seq<Op>)
    requires FriendReply(db, ReportFriend(reporter, reported, id)).Done?
    ensures var later := Run(FriendStep(db, ReportFriend(reporter, reported, id)), ops);
            FriendStep(later, ReportFriend(reporter, reported, again)) == later
  {
    RunKeepsBlock(FriendStep(db, ReportFriend(reporter, reported, id)), ops, (reporter, reported));
  }

  // ---- Feeds and gatherings ----

  /**
   A gathering somebody wrote a feed about is over and was not deleted, and the feed was written less
   than thirty days after its end.
   */
  ghost predicate FeedsFollowEndings(db: Db) {
    forall f | f in db.feeds && db.feeds[f].gatheringId.Some? ::
      && ActiveGathering(db, db.feeds[f].gatheringId.value)
      && db.gatherings[db.feeds[f].gatheringId.value].endedAt.Some?
      && db.feeds[f].createdAt - db.gatherings[db.feeds[f].gatheringId.value].endedAt.value < 30 * DAY
  }

  ghost predicate OneFeedPerWriter(feeds: map<Uuid, FeedRow>) {
    forall f, e | f in feeds && e in feeds && SameSubject(feeds[f], feeds[e]) :: f == e
  }

  /** Two active feeds by the same writer about the same gathering. */
  predicate SameSubject(f: FeedRow, e: FeedRow) {
    && f.deletedAt.None? && e.deletedAt.None?
    && f.gatheringId.Some? && f.gatheringId == e.gatheringId && f.writerId == e.writerId
  }

  /** Images belong to feeds, so the images of a new feed are the posted ones. */
  ghost predicate ImagesHaveFeeds(db: Db) {
    forall k | k in db.images :: k.0 in db.feeds
  }

  /** Likewise with whom a feed is shared. */
  ghost predicate VisibilitiesHaveFeeds(db: Db) {
    forall v | v in db.visibilities :: v.0 in db.feeds
  }

  lemma FeedStepKeepsVisibilities(db: Db, op: FeedOp)
    requires VisibilitiesHaveFeeds(db)
    ensures VisibilitiesHaveFeeds(FeedStep(db, op))
  {
  }

  lemma FeedStepKeepsImages(db: Db, op: FeedOp)
    requires ImagesHaveFeeds(db)
    ensures ImagesHaveFeeds(FeedStep(db, op))
  {
  }

  lemma FeedStepKeepsFeedsFollowEndings(db: Db, op: FeedOp)
    requires FeedsFollowEndings(db)
    ensures FeedsFollowEndings(FeedStep(db, op))
  {
    if op.CreateGatheringFeed? && FeedReply(db, op).Done? {
      DaysBelow(op.now, db.gatherings[op.gathering].endedAt.value, 30);
    }
  }

  lemma FeedStepKeepsOneFeedPerWriter(db: Db, op: FeedOp)
    requires OneFeedPerWriter(db.feeds)
    ensures OneFeedPerWriter(FeedStep(db, op).feeds)
  {
    var next := FeedStep(db, op).feeds;
    forall f, e | f in next && e in next && SameSubject(next[f], next[e]) ensures f == e {
      if op.CreateGatheringFeed? && FeedReply(db, op).Done? {
        assert forall x | x in db.feeds :: !SameSubject(db.feeds[x], next[op.id]) by {
          assert !HasFeed(db, op.gathering, op.writer);
        }
      }
    }
  }

  lemma GatheringStepKeepsFeedsFollowEndings(db: Db, op: GatheringOp)
    requires FeedsFollowEndings(db)
    ensures FeedsFollowEndings(GatheringStep(db, op))
  {
  }

  // ---- Groups ----

  ghost predicate OwnersTakePart(db: Db) {
    forall g | g in db.groups :: (g, db.groups[g]) in db.members
  }

  lemma GroupStepKeepsOwners(db: Db, op: GroupOp)
    requires OwnersTakePart(db)
    ensures OwnersTakePart(GroupStep(db, op))
  {
    if op.CreateGroup? && GroupReply(db, op).Done? {
      assert op.owner in [op.owner] + op.friends;
    }
  }

  /** A member who reported the group does not become an ordinary member again in place. */
  lemma ReportedStaysReported(db: Db, op: GroupOp, k: (Uuid, Uuid))
    requires k in db.members && db.members[k].REPORTED?
    ensures k in GroupStep(db, op).members ==> GroupStep(db, op).members[k].REPORTED?
  {
    if op.AddMembers? && GroupReply(db, op).Done? && k in NewMembers(op.group, op.users) {
      assert HasMemberAmong(db, op.group, op.users, MemberStatus.REPORTED);
    }
  }

  // ---- All of it, over every run ----

  ghost predicate Safe(db: Db) {
    && FriendRowsSafe(db)
    && ParticipationsAreLive(db) && InvitedAreFriends(db)
    && ReportsMatchBlocks(db.reports, db.blockedUsers)
    && FeedsFollowEndings(db) && OneFeedPerWriter(db.feeds)
    && ImagesHaveFeeds(db) && VisibilitiesHaveFeeds(db)
    && OwnersTakePart(db)
  }

  /** In safe tables a linking row is the only one, and it is PENDING or ACCEPTED. */
  lemma OnlyLink(db: Db, a: Uuid, b: Uuid, id: Uuid)
    requires Safe(db) && id in db.friends && Links(db.friends[id], a, b)
    ensures forall i | i in db.friends && Links(db.friends[i], a, b) :: i == id
    ensures !db.friends[id].status.REPORTED?
  {
  }

  /** What single calls may count on. */
  lemma SafeParts(db: Db)
    requires Safe(db)
    ensures ParticipationsAreLive(db) && OwnersTakePart(db)
  {
  }

  /** A gathering that can be deleted has no feed, because a gathering with a feed has ended. */
  lemma DeletableHasNoFeed(db: Db, id: Uuid, user: Uuid)
    requires Safe(db) && DeleteGatheringReply(db, id, user).Done?
    ensures forall f | f in db.feeds :: db.feeds[f].gatheringId != Some(id)
  {
  }

  /** Deleting a feed lets its writer write about the gathering again: it was the only one. */
  lemma DeletedFeedFreesGathering(db: Db, id: Uuid, writer: Uuid, now: Time)
    requires Safe(db) && DeleteFeedReply(db, id, writer).Done?
    ensures db.feeds[id].gatheringId.Some? ==>
              !HasFeed(AfterDeleteFeed(db, id, now), db.feeds[id].gatheringId.value, writer)
  {
    forall f | f in db.feeds && f != id ensures !SameSubject(db.feeds[f], db.feeds[id]) { }
  }

  /** A new feed counts for its writer, and its images are the posted ones and no others. */
  lemma NewFeedIsAsPosted(
    db: Db, gathering: Option<Uuid>, writer: Uuid, content: string, urls: seq<string>, now: Time, id: Uuid)
    requires Safe(db) && id !in db.feeds
    ensures var images := AfterCreateFeed(db, gathering, writer, content, urls, now, id).images;
            && (forall i: nat | i < |urls| :: (id, i) in images && images[(id, i)] == urls[i])
            && (forall k | k in images && k.0 == id :: k.1 < |urls|)
    ensures gathering.Some? ==>
              HasFeed(AfterCreateFeed(db, gathering, writer, content, urls, now, id), gathering.value, writer)
  {
    assert ActiveFeed(AfterCreateFeed(db, gathering, writer, content, urls, now, id), id);
  }

  lemma FriendStepIsSafe(db: Db, op: FriendOp)
    requires Safe(db)
    ensures Safe(FriendStep(db, op))
  {
    hide FriendStep;
    FriendStepFrame(db, op);
    FriendStepKeepsRows(db, op);
    FriendStepKeepsInvited(db, op);
    FriendStepKeepsReportsMatch(db, op);
  }

  lemma GatheringStepIsSafe(db: Db, op: GatheringOp)
    requires Safe(db)
    ensures Safe(GatheringStep(db, op))
  {
    hide GatheringStep;
    GatheringStepFrame(db, op);
    GatheringStepKeepsParticipationsLive(db, op);
    GatheringStepKeepsInvited(db, op);
    GatheringStepKeepsFeedsFollowEndings(db, op);
  }

  lemma FeedStepIsSafe(db: Db, op: FeedOp)
    requires Safe(db)
    ensures Safe(FeedStep(db, op))
  {
    hide FeedStep;
    FeedStepFrame(db, op);
    FeedStepKeepsFeedsFollowEndings(db, op);
    FeedStepKeepsOneFeedPerWriter(db, op);
    FeedStepKeepsImages(db, op);
    FeedStepKeepsVisibilities(db, op);
    FeedStepKeepsReportsMatch(db, op);
  }

  lemma GroupStepIsSafe(db: Db, op: GroupOp)
    requires Safe(db)
    ensures Safe(GroupStep(db, op))
  {
    hide GroupStep;
    GroupStepFrame(db, op);
    GroupStepKeepsOwners(db, op);
    GroupStepKeepsGatherings(db, op);
    GroupStepKeepsReportsMatch(db, op);
  }

  lemma StepIsSafe(db: Db, op: Op)
    requires Safe(db)
    ensures Safe(Step(db, op))
  {
    hide FriendStep, GatheringStep, FeedStep, GroupStep;
    match op
    case OnFriends(f) => FriendStepIsSafe(db, f);
    case OnGatherings(g) => GatheringStepIsSafe(db, g);
    case OnFeeds(f) => FeedStepIsSafe(db, f);
    case OnGroups(g) => GroupStepIsSafe(db, g);
    case ChangeUsers(_) =>
  }

  /** Deleting a group leaves its gatherings, apart from their reference to the group. */
  lemma GroupStepKeepsGatherings(db: Db, op: GroupOp)
    requires ParticipationsAreLive(db) && InvitedAreFriends(db) && FeedsFollowEndings(db)
    ensures var next := GroupStep(db, op);
            ParticipationsAreLive(next) && InvitedAreFriends(next) && FeedsFollowEndings(next)
  {
    var next := GroupStep(db, op);
    forall k: (Uuid, nat) | PendingForFriends(next, k)
      ensures AreFriends(next, next.gatherings[k.0].hostUserId, next.participations[k].participantId)
    {
      assert PendingForFriends(db, k);
      assert AreFriends(db, db.gatherings[k.0].hostUserId, db.participations[k].participantId);
    }
  }

  /** Main theorem: whatever calls are made in whatever order, the tables stay safe. */
  lemma {:induction false} RunIsSafe(users: map<Uuid, UserRow>, ops: seq<Op>)
    ensures Safe(Run(NoRows(users), ops))
  {
    if ops != [] {
      var before := Run(NoRows(users), ops[..|ops| - 1]);
      RunIsSafe(users, ops[..|ops| - 1]);
      StepIsSafe(before, ops[|ops| - 1]);
    }
  }

  /** In every run two users are joined by one row at most, which is what the lists of users rest on. */
  lemma RunKeepsOneRow(users: map<Uuid, UserRow>, ops: seq<Op>)
    ensures OneRowPerPair(Run(NoRows(users), ops).friends) && OneRowPerDirection(Run(NoRows(users), ops).friends)
  {
    RunIsSafe(users, ops);
    var friends := Run(NoRows(users), ops).friends;
    forall i, j | i in friends && j in friends && friends[i].senderId == friends[j].senderId
                  && friends[i].receiverId == friends[j].receiverId
      ensures i == j
    {
      assert Links(friends[i], friends[j].senderId, friends[j].receiverId);
    }
  }
}
