/**
 The tables the services read and write, keyed by their primary or unique keys. A row that a bulk
 insert creates (a gathering participation, a feed image) is keyed by its owner row and its
 position in the insert instead of by an identifier of its own.
 */
module Tables {
  import opened Prelude

  datatype Provider = GOOGLE | KAKAO | APPLE

  datatype UserRow = UserRow(
    email: string, provider: Provider, name: string, accountId: string,
    profileImageUrl: Option<string>, notificationToken: Option<string>,
    createdAt: Time, updatedAt: Time, deletedAt: Option<Time>)

  datatype FriendStatus = PENDING | ACCEPTED | REPORTED

  datatype FriendRow = FriendRow(senderId: Uuid, receiverId: Uuid, status: FriendStatus)

  datatype GatheringType = FRIEND | GROUP

  datatype GatheringRow = GatheringRow(
    kind: GatheringType, groupId: Option<Uuid>, hostUserId: Uuid, name: string,
    gatheringDate: Time, endedAt: Option<Time>, deletedAt: Option<Time>)

  datatype ParticipationStatus = PENDING | ACCEPTED | REJECTED

  /** An invitation is a PENDING participation. */
  datatype ParticipationRow = ParticipationRow(participantId: Uuid, status: ParticipationStatus)

  datatype FeedRow = FeedRow(
    writerId: Uuid, gatheringId: Option<Uuid>, content: string, createdAt: Time, deletedAt: Option<Time>)

  datatype ReportType = FRIEND | FEED | GROUP | FEED_COMMENT

  datatype ReportRow = ReportRow(reporterId: Uuid, reportedId: Uuid, kind: ReportType)

  datatype MemberStatus = ACCEPTED | REPORTED

  datatype Db = Db(
    users: map<Uuid, UserRow>,
    friends: map<Uuid, FriendRow>,
    blockedUsers: set<(Uuid, Uuid)>,
    reports: map<Uuid, ReportRow>,
    gatherings: map<Uuid, GatheringRow>,
    participations: map<(Uuid, nat), ParticipationRow>,
    feeds: map<Uuid, FeedRow>,
    images: map<(Uuid, nat), string>,
    visibilities: set<(Uuid, Uuid)>,
    blockedFeeds: set<(Uuid, Uuid)>,
    groups: map<Uuid, Uuid>,
    members: map<(Uuid, Uuid), MemberStatus>)

  // ---- Views and the lookups several services share ----

  predicate ActiveUser(users: map<Uuid, UserRow>, u: Uuid) {
    u in users && users[u].deletedAt.None?
  }

  predicate ActiveGathering(db: Db, g: Uuid) {
    g in db.gatherings && db.gatherings[g].deletedAt.None?
  }

  predicate ActiveFeed(db: Db, f: Uuid) {
    f in db.feeds && db.feeds[f].deletedAt.None?
  }

  /** The row joins the two users, in either direction. */
  predicate Links(row: FriendRow, a: Uuid, b: Uuid) {
    || (row.senderId == a && row.receiverId == b)
    || (row.senderId == b && row.receiverId == a)
  }

  /** The unique (sender, receiver) key: at most one row per ordered pair. */
  ghost predicate OneRowPerDirection(friends: map<Uuid, FriendRow>) {
    forall i, j | i in friends && j in friends ::
      friends[i].senderId == friends[j].senderId && friends[i].receiverId == friends[j].receiverId ==> i == j
  }

  predicate Linked(friends: map<Uuid, FriendRow>, a: Uuid, b: Uuid, status: FriendStatus) {
    exists id | id in friends :: Links(friends[id], a, b) && friends[id].status == status
  }

  predicate AreFriends(db: Db, a: Uuid, b: Uuid) {
    Linked(db.friends, a, b, FriendStatus.ACCEPTED)
  }

  /** The user has an ACCEPTED participation in the gathering. */
  predicate TakesPart(db: Db, g: Uuid, u: Uuid) {
    exists k | k in db.participations ::
      k.0 == g && db.participations[k].participantId == u && db.participations[k].status.ACCEPTED?
  }

  /** The user has an active feed about the gathering. */
  predicate HasFeed(db: Db, g: Uuid, u: Uuid) {
    exists f | f in db.feeds :: ActiveFeed(db, f) && db.feeds[f].gatheringId == Some(g) && db.feeds[f].writerId == u
  }
}
