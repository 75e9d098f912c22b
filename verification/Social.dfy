/**
 The services that change friendships, gatherings, feeds, groups and reports, as transitions of the
 tables. Every call either does everything it promises or leaves the tables as they were; `...Reply`
 says which, with the error of the first check that fails, and `After...` what changes.
 */
module Social {
  import opened Prelude
  import opened Tables

  datatype Error =
    | AlreadyFriends | AlreadyExistRequest | ReportedUserCannotRequest | UserNotFound | FriendNotFound
    | FriendshipRequired | KeyViolation | GroupOrFriendRequired | BadRequest | GatheringCreationPastDate
    | GroupNotFound | GatheringNotFound | CannotDeleteEndedGathering | Forbidden | GatheringNotCompleted
    | FeedCreationPeriodExceeded | DuplicateFeed | GroupMemberLimitExceeded | GroupOwnerCannotLeave
    | ReportedUserCannotInvite | AlreadyExistMember | RecordNotFound

  datatype Reply = Done | Failed(error: Error)

  // ---- Friends (friends.service.ts, friends-checker.ts) ----

  /** What the check of a new request finds; `None` when it may go ahead. */
  function ExistingFriendError(db: Db, a: Uuid, b: Uuid): Option<Error> {
    if Linked(db.friends, a, b, FriendStatus.ACCEPTED) then Some(AlreadyFriends)
    else if Linked(db.friends, a, b, FriendStatus.PENDING) then Some(AlreadyExistRequest)
    else if Linked(db.friends, a, b, FriendStatus.REPORTED) then Some(ReportedUserCannotRequest)
    else None
  }

  /** The primary key and the unique (sender, receiver) key of the friend table. */
  predicate FriendKeyTaken(friends: map<Uuid, FriendRow>, id: Uuid, sender: Uuid, receiver: Uuid) {
    || id in friends
    || exists i | i in friends :: friends[i].senderId == sender && friends[i].receiverId == receiver
  }

  function RequestReply(db: Db, sender: Uuid, receiver: Uuid, id: Uuid): Reply {
    var existing := ExistingFriendError(db, sender, receiver);
    if existing.Some? then Failed(existing.value)
    else if !ActiveUser(db.users, receiver) then Failed(UserNotFound)
    else if FriendKeyTaken(db.friends, id, sender, receiver) then Failed(KeyViolation)
    else Done
  }

  function AfterRequest(db: Db, sender: Uuid, receiver: Uuid, id: Uuid): Db {
    db.(friends := db.friends[id := FriendRow(sender, receiver, FriendStatus.PENDING)])
  }

  /** Accepting and rejecting share their check: any linking row that is not ACCEPTED will do. */
  function PendingRequestReply(db: Db, sender: Uuid, receiver: Uuid): Reply {
    if AreFriends(db, sender, receiver) then Failed(AlreadyFriends)
    else if exists id | id in db.friends :: Links(db.friends[id], sender, receiver) then Done
    else Failed(FriendNotFound)
  }

  function AfterAccept(db: Db, sender: Uuid, receiver: Uuid): Db {
    db.(friends := map id | id in db.friends ::
      var row := db.friends[id];
      if Links(row, sender, receiver) then row.(status := FriendStatus.ACCEPTED) else row)
  }

  function WithoutLinks(friends: map<Uuid, FriendRow>, a: Uuid, b: Uuid): map<Uuid, FriendRow> {
    map id | id in friends && !Links(friends[id], a, b) :: friends[id]
  }

  function AfterReject(db: Db, sender: Uuid, receiver: Uuid): Db {
    db.(friends := WithoutLinks(db.friends, sender, receiver))
  }

  /** A PENDING participation of one user in a gathering the other one hosts. */
  predicate PendingBetween(db: Db, k: (Uuid, nat), a: Uuid, b: Uuid)
    requires k in db.participations
  {
    var p := db.participations[k];
    && p.status.PENDING?
    && k.0 in db.gatherings
    && var host := db.gatherings[k.0].hostUserId;
       (p.participantId == a && host == b) || (p.participantId == b && host == a)
  }

  function WithoutPendingBetween(db: Db, a: Uuid, b: Uuid): map<(Uuid, nat), ParticipationRow> {
    map k | k in db.participations && !PendingBetween(db, k, a, b) :: db.participations[k]
  }

  function UnfriendReply(db: Db, friend: Uuid, user: Uuid): Reply {
    if AreFriends(db, friend, user) then Done else Failed(FriendNotFound)
  }

  function AfterUnfriend(db: Db, friend: Uuid, user: Uuid): Db {
    db.(friends := WithoutLinks(db.friends, friend, user),
        participations := WithoutPendingBetween(db, friend, user))
  }

  // ---- Friend reports (friend-reports-write.service.ts) ----

  function ReportFriendReply(db: Db, reporter: Uuid, reported: Uuid, id: Uuid): Reply {
    if !AreFriends(db, reporter, reported) then Failed(FriendNotFound)
    else if id in db.reports || (reporter, reported) in db.blockedUsers then Failed(KeyViolation)
    else Done
  }

  function AfterReportFriend(db: Db, reporter: Uuid, reported: Uuid, id: Uuid): Db {
    db.(participations := WithoutPendingBetween(db, reporter, reported),
        reports := db.reports[id := ReportRow(reporter, reported, ReportType.FRIEND)],
        blockedUsers := db.blockedUsers + {(reporter, reported)},
        friends := WithoutLinks(db.friends, reporter, reported))
  }

  // ---- Gatherings (gatherings.service.ts, gathering-invitations-writer.ts) ----

  datatype GatheringInput = GatheringInput(
    kind: GatheringType, groupId: Option<Uuid>, hostUserId: Uuid, name: string, gatheringDate: Time)

  predicate AllFriends(db: Db, user: Uuid, others: seq<Uuid>) {
    forall other <- others :: AreFriends(db, user, other)
  }

  /** The participants of a group in the order in which the database returned their rows. */
  ghost predicate ListsMembers(db: Db, group: Uuid, listing: seq<Uuid>) {
    NoRepeats(listing) && forall u :: u in listing <==> (group, u) in db.members
  }

  function CreateGatheringReply(
    db: Db, input: GatheringInput, friendIds: Option<seq<Uuid>>, now: Time, id: Uuid): Reply
  {
    if input.groupId.None? && friendIds.None? then Failed(GroupOrFriendRequired)
    else if input.kind.GROUP? && input.groupId.None? then Failed(BadRequest)
    else if input.kind.FRIEND? && friendIds.None? then Failed(BadRequest)
    else if input.groupId.Some? && friendIds.Some? then Failed(BadRequest)
    else if now > input.gatheringDate then Failed(GatheringCreationPastDate)
    else if input.kind.GROUP? && input.groupId.value !in db.groups then Failed(GroupNotFound)
    else if input.kind.FRIEND? && !AllFriends(db, input.hostUserId, friendIds.value) then Failed(FriendshipRequired)
    else if id in db.gatherings then Failed(KeyViolation)
    else Done
  }

  /** Whom the gathering invites: the group's listed members, or the friends and then the host. */
  function Invitees(input: GatheringInput, friendIds: Option<seq<Uuid>>, listing: seq<Uuid>): seq<Uuid> {
    if input.kind.GROUP? then listing
    else if friendIds.Some? then friendIds.value + [input.hostUserId]
    else []
  }

  /** One row per invitee: the host takes part at once, everybody else is asked. */
  function Invitations(id: Uuid, host: Uuid, invitees: seq<Uuid>): map<(Uuid, nat), ParticipationRow> {
    map i: nat | i < |invitees| ::
      (id, i) := ParticipationRow(
        invitees[i],
        if invitees[i] == host then ParticipationStatus.ACCEPTED else ParticipationStatus.PENDING)
  }

  function AfterCreateGathering(
    db: Db, input: GatheringInput, friendIds: Option<seq<Uuid>>, listing: seq<Uuid>, id: Uuid): Db
  {
    db.(gatherings := db.gatherings[id := GatheringRow(
          input.kind, input.groupId, input.hostUserId, input.name, input.gatheringDate, None, None)],
        participations := db.participations
          + Invitations(id, input.hostUserId, Invitees(input, friendIds, listing)))
  }

  function UpdateGatheringReply(db: Db, id: Uuid, host: Uuid, date: Time, now: Time): Reply {
    if !ActiveGathering(db, id) then Failed(GatheringNotFound)
    else if now > date then Failed(GatheringCreationPastDate)
    else if db.gatherings[id].hostUserId != host then Failed(Forbidden)
    else Done
  }

  function AfterUpdateGathering(db: Db, id: Uuid, name: string, date: Time): Db
    requires id in db.gatherings
  {
    db.(gatherings := db.gatherings[id := db.gatherings[id].(name := name, gatheringDate := date)])
  }

  function DeleteGatheringReply(db: Db, id: Uuid, user: Uuid): Reply {
    if !(ActiveGathering(db, id) && db.gatherings[id].hostUserId == user) then Failed(GatheringNotFound)
    else if db.gatherings[id].endedAt.Some? then Failed(CannotDeleteEndedGathering)
    else Done
  }

  function AfterDeleteGathering(db: Db, id: Uuid, now: Time): Db
    requires id in db.gatherings
  {
    db.(gatherings := db.gatherings[id := db.gatherings[id].(deletedAt := Some(now))],
        participations := map k | k in db.participations && k.0 != id :: db.participations[k])
  }

  /** The step outside the services that ends a gathering: it sets `endedAt` once. */
  function AfterEndGathering(db: Db, id: Uuid, at: Time): Db {
    if id in db.gatherings && db.gatherings[id].endedAt.None?
    then db.(gatherings := db.gatherings[id := db.gatherings[id].(endedAt := Some(at))])
    else db
  }

  function InvitationReply(db: Db, k: (Uuid, nat), user: Uuid): Reply {
    if k in db.participations && db.participations[k].participantId == user then Done else Failed(Forbidden)
  }

  function AfterAcceptInvitation(db: Db, k: (Uuid, nat)): Db
    requires k in db.participations
  {
    db.(participations := db.participations[k := db.participations[k].(status := ParticipationStatus.ACCEPTED)])
  }

  function AfterRejectInvitation(db: Db, k: (Uuid, nat)): Db {
    db.(participations := map j | j in db.participations && j != k :: db.participations[j])
  }

  // ---- Feeds (feeds.service.ts, feeds-writer.ts, feed-reports-write.service.ts) ----

  function CreateGatheringFeedReply(db: Db, gathering: Uuid, writer: Uuid, now: Time, id: Uuid): Reply {
    if !ActiveGathering(db, gathering) then Failed(GatheringNotFound)
    else if db.gatherings[gathering].endedAt.None? then Failed(GatheringNotCompleted)
    else if !exists k | k in db.participations :: k.0 == gathering && db.participations[k].participantId == writer
    then Failed(Forbidden)
    else if CalcDateDiff(now, db.gatherings[gathering].endedAt.value) >= 30 then Failed(FeedCreationPeriodExceeded)
    else if HasFeed(db, gathering, writer) then Failed(DuplicateFeed)
    else if id in db.feeds then Failed(KeyViolation)
    else Done
  }

  /** The image rows of a new feed, indexed by position. */
  function ImageRows(id: Uuid, urls: seq<string>): map<(Uuid, nat), string> {
    map i: nat | i < |urls| :: (id, i) := urls[i]
  }

  function AfterCreateFeed(
    db: Db, gathering: Option<Uuid>, writer: Uuid, content: string, urls: seq<string>, now: Time, id: Uuid): Db
  {
    db.(feeds := db.feeds[id := FeedRow(writer, gathering, content, now, None)],
        images := db.images + ImageRows(id, urls))
  }

  function CreateFriendFeedReply(db: Db, writer: Uuid, friendIds: seq<Uuid>, id: Uuid): Reply {
    if !AllFriends(db, writer, friendIds) then Failed(FriendshipRequired)
    else if id in db.feeds || Distinct(friendIds) != friendIds then Failed(KeyViolation)
    else Done
  }

  function AfterCreateFriendFeed(
    db: Db, writer: Uuid, content: string, urls: seq<string>, friendIds: seq<Uuid>, now: Time, id: Uuid): Db
  {
    AfterCreateFeed(db, None, writer, content, urls, now, id)
      .(visibilities := db.visibilities + set u | u in friendIds :: (id, u))
  }

  function DeleteFeedReply(db: Db, id: Uuid, writer: Uuid): Reply {
    if ActiveFeed(db, id) && db.feeds[id].writerId == writer then Done else Failed(Forbidden)
  }

  function AfterDeleteFeed(db: Db, id: Uuid, now: Time): Db
    requires id in db.feeds
  {
    db.(feeds := db.feeds[id := db.feeds[id].(deletedAt := Some(now))])
  }

  function ReportFeedReply(db: Db, reporter: Uuid, feed: Uuid, id: Uuid): Reply {
    if id in db.reports || (reporter, feed) in db.blockedFeeds then Failed(KeyViolation) else Done
  }

  function AfterReportFeed(db: Db, reporter: Uuid, feed: Uuid, id: Uuid): Db {
    db.(reports := db.reports[id := ReportRow(reporter, feed, ReportType.FEED)],
        blockedFeeds := db.blockedFeeds + {(reporter, feed)})
  }

  // ---- Groups (groups.service.ts, group-reports.write.service.ts) ----

  /** Bulk insert of ACCEPTED members; the (group, participant) key admits no repeats. */
  predicate MemberKeyTaken(db: Db, group: Uuid, users: seq<Uuid>) {
    Distinct(users) != users || exists u <- users :: (group, u) in db.members
  }

  function NewMembers(group: Uuid, users: seq<Uuid>): (rows: map<(Uuid, Uuid), MemberStatus>)
    ensures forall k :: k in rows <==> k.0 == group && k.1 in users
    ensures forall k | k in rows :: rows[k].ACCEPTED?
  {
    if users == [] then map[]
    else
      assert users == users[..|users| - 1] + [users[|users| - 1]];
      NewMembers(group, users[..|users| - 1])[(group, users[|users| - 1]) := MemberStatus.ACCEPTED]
  }

  function CreateGroupReply(db: Db, owner: Uuid, friendIds: seq<Uuid>, id: Uuid): Reply {
    if !AllFriends(db, owner, friendIds) then Failed(FriendshipRequired)
    else if id in db.groups || MemberKeyTaken(db, id, [owner] + friendIds) then Failed(KeyViolation)
    else Done
  }

  function AfterCreateGroup(db: Db, owner: Uuid, friendIds: seq<Uuid>, id: Uuid): Db {
    db.(groups := db.groups[id := owner], members := db.members + NewMembers(id, [owner] + friendIds))
  }

  function AcceptedMembers(members: map<(Uuid, Uuid), MemberStatus>, group: Uuid): set<(Uuid, Uuid)> {
    set k | k in members && k.0 == group && members[k].ACCEPTED?
  }

  predicate HasMemberAmong(db: Db, group: Uuid, users: seq<Uuid>, status: MemberStatus) {
    exists u <- users :: (group, u) in db.members && db.members[(group, u)] == status
  }

  /**
   Nobody looks the group up. With rows of both kinds the error depends on which the database returns
   first; this is one choice.
   */
  function AddMembersReply(db: Db, group: Uuid, inviter: Uuid, users: seq<Uuid>): Reply {
    if !AllFriends(db, inviter, users) then Failed(FriendshipRequired)
    else if HasMemberAmong(db, group, users, MemberStatus.REPORTED) then Failed(ReportedUserCannotInvite)
    else if HasMemberAmong(db, group, users, MemberStatus.ACCEPTED) then Failed(AlreadyExistMember)
    else if |AcceptedMembers(db.members, group)| + |users| > 10 then Failed(GroupMemberLimitExceeded)
    else if MemberKeyTaken(db, group, users) then Failed(KeyViolation)
    else Done
  }

  function AfterAddMembers(db: Db, group: Uuid, users: seq<Uuid>): Db {
    db.(members := db.members + NewMembers(group, users))
  }

  function LeaveGroupReply(db: Db, group: Uuid, user: Uuid): Reply {
    if group in db.groups && db.groups[group] == user then Failed(GroupOwnerCannotLeave)
    else if (group, user) !in db.members then Failed(RecordNotFound)
    else Done
  }

  function AfterLeaveGroup(db: Db, group: Uuid, user: Uuid): Db {
    db.(members := map k | k in db.members && k != (group, user) :: db.members[k])
  }

  function DeleteGroupReply(db: Db, group: Uuid, user: Uuid): Reply {
    if group in db.groups && db.groups[group] == user then Done else Failed(Forbidden)
  }

  /** Members go with their group; its gatherings stay and lose the reference. */
  function AfterDeleteGroup(db: Db, group: Uuid): Db {
    db.(groups := map g | g in db.groups && g != group :: db.groups[g],
        members := map k | k in db.members && k.0 != group :: db.members[k],
        gatherings := map g | g in db.gatherings ::
          var row := db.gatherings[g];
          if row.groupId == Some(group) then row.(groupId := None) else row)
  }

  function ReportGroupReply(db: Db, reporter: Uuid, group: Uuid, id: Uuid): Reply {
    if id in db.reports then Failed(KeyViolation)
    else if (group, reporter) !in db.members then Failed(GroupNotFound)
    else Done
  }

  function AfterReportGroup(db: Db, reporter: Uuid, group: Uuid, id: Uuid): Db {
    db.(reports := db.reports[id := ReportRow(reporter, group, ReportType.GROUP)],
        members := db.members[(group, reporter) := MemberStatus.REPORTED])
  }

  // ---- Runs ----

  datatype FriendOp =
    | Request(sender: Uuid, receiver: Uuid, id: Uuid)
    | Accept(sender: Uuid, receiver: Uuid)
    | Reject(sender: Uuid, receiver: Uuid)
    | Unfriend(friend: Uuid, user: Uuid)
    | ReportFriend(reporter: Uuid, reported: Uuid, id: Uuid)

  datatype GatheringOp =
    | CreateGathering(input: GatheringInput, friendIds: Option<seq<Uuid>>, listing: seq<Uuid>, now: Time, id: Uuid)
    | UpdateGathering(id: Uuid, host: Uuid, name: string, date: Time, now: Time)
    | DeleteGathering(id: Uuid, user: Uuid, now: Time)
    | EndGathering(id: Uuid, now: Time)
    | AcceptInvitation(k: (Uuid, nat), user: Uuid)
    | RejectInvitation(k: (Uuid, nat), user: Uuid)

  datatype FeedOp =
    | CreateGatheringFeed(gathering: Uuid, writer: Uuid, content: string, urls: seq<string>, now: Time, id: Uuid)
    | CreateFriendFeed(writer: Uuid, content: string, urls: seq<string>, friends: seq<Uuid>, now: Time, id: Uuid)
    | DeleteFeed(id: Uuid, writer: Uuid, now: Time)
    | ReportFeed(reporter: Uuid, feed: Uuid, id: Uuid)

  datatype GroupOp =
    | CreateGroup(owner: Uuid, friends: seq<Uuid>, id: Uuid)
    | AddMembers(group: Uuid, inviter: Uuid, users: seq<Uuid>)
    | LeaveGroup(group: Uuid, user: Uuid)
    | DeleteGroup(group: Uuid, user: Uuid)
    | ReportGroup(reporter: Uuid, group: Uuid, id: Uuid)

  function FriendReply(db: Db, op: FriendOp): Reply {
    match op
    case Request(sender, receiver, id) => RequestReply(db, sender, receiver, id)
    case Accept(sender, receiver) => PendingRequestReply(db, sender, receiver)
    case Reject(sender, receiver) => PendingRequestReply(db, sender, receiver)
    case Unfriend(friend, user) => UnfriendReply(db, friend, user)
    case ReportFriend(reporter, reported, id) => ReportFriendReply(db, reporter, reported, id)
  }

  /** A failed call changes nothing. */
  function FriendStep(db: Db, op: FriendOp): Db {
    if FriendReply(db, op).Failed? then db else
      match op
      case Request(sender, receiver, id) => AfterRequest(db, sender, receiver, id)
      case Accept(sender, receiver) => AfterAccept(db, sender, receiver)
      case Reject(sender, receiver) => AfterReject(db, sender, receiver)
      case Unfriend(friend, user) => AfterUnfriend(db, friend, user)
      case ReportFriend(reporter, reported, id) => AfterReportFriend(db, reporter, reported, id)
  }

  function GatheringReply(db: Db, op: GatheringOp): Reply {
    match op
    case CreateGathering(input, friendIds, _, now, id) => CreateGatheringReply(db, input, friendIds, now, id)
    case UpdateGathering(id, host, _, date, now) => UpdateGatheringReply(db, id, host, date, now)
    case DeleteGathering(id, user, _) => DeleteGatheringReply(db, id, user)
    case EndGathering(_, _) => Done
    case AcceptInvitation(k, user) => InvitationReply(db, k, user)
    case RejectInvitation(k, user) => InvitationReply(db, k, user)
  }

  function GatheringStep(db: Db, op: GatheringOp): Db {
    if GatheringReply(db, op).Failed? then db else
      match op
      case CreateGathering(input, friendIds, listing, _, id) =>
        AfterCreateGathering(db, input, friendIds, listing, id)
      case UpdateGathering(id, _, name, date, _) => AfterUpdateGathering(db, id, name, date)
      case DeleteGathering(id, _, now) => AfterDeleteGathering(db, id, now)
      case EndGathering(id, now) => AfterEndGathering(db, id, now)
      case AcceptInvitation(k, _) => AfterAcceptInvitation(db, k)
      case RejectInvitation(k, _) => AfterRejectInvitation(db, k)
  }

  function FeedReply(db: Db, op: FeedOp): Reply {
    match op
    case CreateGatheringFeed(gathering, writer, _, _, now, id) =>
      CreateGatheringFeedReply(db, gathering, writer, now, id)
    case CreateFriendFeed(writer, _, _, friends, _, id) => CreateFriendFeedReply(db, writer, friends, id)
    case DeleteFeed(id, writer, _) => DeleteFeedReply(db, id, writer)
    case ReportFeed(reporter, feed, id) => ReportFeedReply(db, reporter, feed, id)
  }

  function FeedStep(db: Db, op: FeedOp): Db {
    if FeedReply(db, op).Failed? then db else
      match op
      case CreateGatheringFeed(gathering, writer, content, urls, now, id) =>
        AfterCreateFeed(db, Some(gathering), writer, content, urls, now, id)
      case CreateFriendFeed(writer, content, urls, friends, now, id) =>
        AfterCreateFriendFeed(db, writer, content, urls, friends, now, id)
      case DeleteFeed(id, _, now) => AfterDeleteFeed(db, id, now)
      case ReportFeed(reporter, feed, id) => AfterReportFeed(db, reporter, feed, id)
  }

  function GroupReply(db: Db, op: GroupOp): Reply {
    match op
    case CreateGroup(owner, friends, id) => CreateGroupReply(db, owner, friends, id)
    case AddMembers(group, inviter, users) => AddMembersReply(db, group, inviter, users)
    case LeaveGroup(group, user) => LeaveGroupReply(db, group, user)
    case DeleteGroup(group, user) => DeleteGroupReply(db, group, user)
    case ReportGroup(reporter, group, id) => ReportGroupReply(db, reporter, group, id)
  }

  function GroupStep(db: Db, op: GroupOp): Db {
    if GroupReply(db, op).Failed? then db else
      match op
      case CreateGroup(owner, friends, id) => AfterCreateGroup(db, owner, friends, id)
      case AddMembers(group, _, users) => AfterAddMembers(db, group, users)
      case LeaveGroup(group, user) => AfterLeaveGroup(db, group, user)
      case DeleteGroup(group, _) => AfterDeleteGroup(db, group)
      case ReportGroup(reporter, group, id) => AfterReportGroup(db, reporter, group, id)
  }

  /** Any call of any service, or a change of the user table from outside. */
  datatype Op =
    | OnFriends(friendOp: FriendOp)
    | OnGatherings(gatheringOp: GatheringOp)
    | OnFeeds(feedOp: FeedOp)
    | OnGroups(groupOp: GroupOp)
    | ChangeUsers(table: map<Uuid, UserRow>)

  function Step(db: Db, op: Op): Db {
    match op
    case OnFriends(f) => FriendStep(db, f)
    case OnGatherings(g) => GatheringStep(db, g)
    case OnFeeds(f) => FeedStep(db, f)
    case OnGroups(g) => GroupStep(db, g)
    case ChangeUsers(table) => db.(users := table)
  }

  function Run(db: Db, ops: seq<Op>): Db {
    if ops == [] then db else Step(Run(db, ops[..|ops| - 1]), ops[|ops| - 1])
  }

  /** Before the first call there are only users. */
  function NoRows(users: map<Uuid, UserRow>): Db {
    Db(users, map[], {}, map[], map[], map[], map[], map[], {}, {}, map[], map[])
  }
}
