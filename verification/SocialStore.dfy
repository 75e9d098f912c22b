/**
 The services as they run: tables are updated in place, a lookup takes whichever matching row the
 database returns first, and a key violation inside a transaction puts back what the transaction
 had already written. Each method is proved against the transition of the same name.
 */
module SocialStore {
  import opened Prelude
  import opened Tables
  import opened Social
  import opened SocialSafety
  import opened FeedQueries
  import opened GatheringQueries
  import opened GatheringEffects
  import opened FeedEffects

  /** In safe tables whichever linking row a lookup finds decides what accepting and rejecting do. */
  lemma FoundRowDecides(db: Db, a: Uuid, b: Uuid, found: Option<Uuid>)
    requires Safe(db)
    requires found.Some? ==> found.value in db.friends && Links(db.friends[found.value], a, b)
    requires found.None? ==> forall id | id in db.friends :: !Links(db.friends[id], a, b)
    ensures PendingRequestReply(db, a, b)
         == if found.None? then Failed(FriendNotFound)
            else if db.friends[found.value].status.ACCEPTED? then Failed(AlreadyFriends)
            else Done
    ensures PendingRequestReply(db, a, b).Failed? ==>
              FriendStep(db, FriendOp.Accept(a, b)) == db && FriendStep(db, FriendOp.Reject(a, b)) == db
    ensures PendingRequestReply(db, a, b).Done? ==>
              && FriendStep(db, FriendOp.Accept(a, b))
              == db.(friends := db.friends[found.value := db.friends[found.value].(status := FriendStatus.ACCEPTED)])
              && FriendStep(db, FriendOp.Reject(a, b)) == db.(friends := WithoutLinks(db.friends, a, b))
  {
    if found.Some? {
      OnlyLink(db, a, b, found.value);
      if !db.friends[found.value].status.ACCEPTED? {
        var id := AcceptTurnsPending(db, a, b);
      }
    }
  }

  /** On everybody's waiting list nothing changes, except that the host waits for the new gathering. */
  ghost predicate OnlyHostWaits(db: Db, next: Db, id: Uuid, input: GatheringInput) {
    forall u, range ::
      WaitingIn(next, u, range)
      == WaitingIn(db, u, range) + If(u == input.hostUserId && InRange(range, input.gatheringDate), id)
  }

  /** A successful creation, on the tables it leaves. */
  lemma CreationEffect(
    db: Db, next: Db, input: GatheringInput, friendIds: Option<seq<Uuid>>, listing: seq<Uuid>, now: Time, id: Uuid)
    requires Safe(db) && CreateGatheringReply(db, input, friendIds, now, id).Done?
    requires next == AfterCreateGathering(db, input, friendIds, listing, id)
    requires input.groupId.Some? ==>
               ListsMembers(db, input.groupId.value, listing) && (input.groupId.value, input.hostUserId) in db.members
    ensures Convened(next, id, input.hostUserId, Guests(db, input, friendIds)) && OnlyHostWaits(db, next, id, input)
  {
    hide WaitingIn, Convened, Guests, AfterCreateGathering, CreateGatheringReply, Safe;
    CreationConvenes(db, input, friendIds, listing, now, id);
    forall u, range
      ensures WaitingIn(next, u, range)
           == WaitingIn(db, u, range) + If(u == input.hostUserId && InRange(range, input.gatheringDate), id)
    {
      CreationLists(db, input, friendIds, listing, now, id, u, range);
    }
  }

  /** On everybody's "all" list nothing changes, except that the audience finds the new feed, unless blocked. */
  ghost predicate OnlyAudienceFinds(db: Db, next: Db, id: Uuid, now: Time, audience: iset<Uuid>) {
    forall u, range ::
      AllFeeds(next, u, range)
      == AllFeeds(db, u, range) + If(u in audience && (u, id) !in db.blockedFeeds && InRange(range, now), id)
  }

  /** The writer and, while the writer is active, the named friends. */
  ghost function FriendAudience(users: map<Uuid, UserRow>, writer: Uuid, friendIds: seq<Uuid>): iset<Uuid> {
    iset u: Uuid | u == writer || (u in friendIds && ActiveUser(users, writer))
  }

  /** The writer, the host and everybody who accepted. */
  ghost function GatheringAudience(db: Db, gathering: Uuid, writer: Uuid): iset<Uuid>
    requires gathering in db.gatherings
  {
    iset u: Uuid | u == writer || u == db.gatherings[gathering].hostUserId || Accepted(db, gathering, u)
  }

  lemma FriendFeedEffect(
    db: Db, next: Db, writer: Uuid, content: string, urls: seq<string>, friendIds: seq<Uuid>, now: Time, id: Uuid)
    requires Safe(db) && CreateFriendFeedReply(db, writer, friendIds, id).Done?
    requires next == AfterCreateFriendFeed(db, writer, content, urls, friendIds, now, id)
    ensures OnlyAudienceFinds(db, next, id, now, FriendAudience(db.users, writer, friendIds))
  {
    hide AllFeeds, AfterCreateFriendFeed, CreateFriendFeedReply, Safe;
    forall u, range
      ensures AllFeeds(next, u, range) == AllFeeds(db, u, range)
              + If(u in FriendAudience(db.users, writer, friendIds) && (u, id) !in db.blockedFeeds
                   && InRange(range, now), id)
    {
      FriendFeedLists(db, writer, content, urls, friendIds, now, id, u, range);
    }
  }

  lemma GatheringFeedEffect(
    db: Db, next: Db, gathering: Uuid, writer: Uuid, content: string, urls: seq<string>, now: Time, id: Uuid)
    requires CreateGatheringFeedReply(db, gathering, writer, now, id).Done?
    requires next == AfterCreateFeed(db, Some(gathering), writer, content, urls, now, id)
    ensures gathering in db.gatherings
    ensures OnlyAudienceFinds(db, next, id, now, GatheringAudience(db, gathering, writer))
  {
    hide AllFeeds, AfterCreateFeed, CreateGatheringFeedReply, Accepted;
    GatheringFeedIsPosted(db, gathering, writer, content, urls, now, id);
    forall u, range
      ensures AllFeeds(next, u, range) == AllFeeds(db, u, range)
              + If(u in GatheringAudience(db, gathering, writer) && (u, id) !in db.blockedFeeds
                   && InRange(range, now), id)
    {
      GatheringFeedLists(db, gathering, writer, content, urls, now, id, u, range);
    }
  }

  lemma GatheringFeedOutcome(
    db: Db, gathering: Uuid, writer: Uuid, content: string, urls: seq<string>, now: Time, id: Uuid)
    requires Safe(db)
    ensures var reply := CreateGatheringFeedReply(db, gathering, writer, now, id);
            var next := FeedStep(db, FeedOp.CreateGatheringFeed(gathering, writer, content, urls, now, id));
            && Safe(next)
            && (reply.Failed? ==> next == db)
            && (reply.Done? ==>
                  && next == db.(feeds := db.feeds[id := FeedRow(writer, Some(gathering), content, now, None)],
                                 images := db.images + ImageRows(id, urls))
                  && HasFeed(next, gathering, writer) && gathering in db.gatherings
                  && (forall i: nat | i < |urls| :: (id, i) in next.images && next.images[(id, i)] == urls[i])
                  && (forall k | k in next.images && k.0 == id :: k.1 < |urls|)
                  && (forall f | f in db.feeds :: f in next.feeds && next.feeds[f] == db.feeds[f])
                  && OnlyAudienceFinds(db, next, id, now, GatheringAudience(db, gathering, writer)))
  {
    hide Safe, OnlyAudienceFinds, GatheringAudience, HasFeed, ImageRows;
    FeedStepIsSafe(db, FeedOp.CreateGatheringFeed(gathering, writer, content, urls, now, id));
    if CreateGatheringFeedReply(db, gathering, writer, now, id).Done? {
      NewFeedIsAsPosted(db, Some(gathering), writer, content, urls, now, id);
      GatheringFeedEffect(
        db, AfterCreateFeed(db, Some(gathering), writer, content, urls, now, id), gathering, writer, content, urls,
        now, id);
    }
  }

  /** Exactly the feed leaves the "all" list of one user, or of everybody. */
  ghost predicate OnlyLeaves(db: Db, next: Db, feed: Uuid, reader: Option<Uuid>) {
    forall u: Uuid, range ::
      AllFeeds(next, u, range) == AllFeeds(db, u, range) - If(reader.None? || reader == Some(u), feed)
  }

  lemma DeletionEffect(db: Db, next: Db, id: Uuid, writer: Uuid, now: Time)
    requires DeleteFeedReply(db, id, writer).Done? && next == AfterDeleteFeed(db, id, now)
    ensures OnlyLeaves(db, next, id, None)
  {
    hide AllFeeds, AfterDeleteFeed, DeleteFeedReply;
    forall u, range ensures AllFeeds(next, u, range) == AllFeeds(db, u, range) - {id} {
      DeletedFeedLists(db, id, writer, now, u, range);
    }
  }

  lemma FeedReportEffect(db: Db, next: Db, reporter: Uuid, feed: Uuid, id: Uuid)
    requires ReportFeedReply(db, reporter, feed, id).Done? && next == AfterReportFeed(db, reporter, feed, id)
    ensures OnlyLeaves(db, next, feed, Some(reporter))
  {
    hide AllFeeds, AfterReportFeed, ReportFeedReply;
    forall u, range ensures AllFeeds(next, u, range) == AllFeeds(db, u, range) - If(u == reporter, feed) {
      ReportedFeedLists(db, reporter, feed, id, u, range);
    }
  }

  lemma FeedReportOutcome(db: Db, reporter: Uuid, feed: Uuid, id: Uuid)
    requires Safe(db)
    ensures var reply := ReportFeedReply(db, reporter, feed, id);
            var next := FeedStep(db, FeedOp.ReportFeed(reporter, feed, id));
            && Safe(next)
            && if id in db.reports || (reporter, feed) in db.blockedFeeds then
                 reply == Failed(KeyViolation) && next == db
               else
                 && reply == Done && OnlyLeaves(db, next, feed, Some(reporter))
                 && next == db.(reports := db.reports[id := ReportRow(reporter, feed, ReportType.FEED)],
                                blockedFeeds := db.blockedFeeds + {(reporter, feed)})
  {
    hide Safe, OnlyLeaves;
    FeedStepIsSafe(db, FeedOp.ReportFeed(reporter, feed, id));
    if ReportFeedReply(db, reporter, feed, id).Done? {
      FeedReportEffect(db, AfterReportFeed(db, reporter, feed, id), reporter, feed, id);
    }
  }

  class Store {
    var users: map<Uuid, UserRow>
    var friends: map<Uuid, FriendRow>
    var blockedUsers: set<(Uuid, Uuid)>
    var reports: map<Uuid, ReportRow>
    var gatherings: map<Uuid, GatheringRow>
    var participations: map<(Uuid, nat), ParticipationRow>
    var feeds: map<Uuid, FeedRow>
    var images: map<(Uuid, nat), string>
    var visibilities: set<(Uuid, Uuid)>
    var blockedFeeds: set<(Uuid, Uuid)>
    var groups: map<Uuid, Uuid>
    var members: map<(Uuid, Uuid), MemberStatus>

    function Contents(): Db
      reads this
    {
      Db(users, friends, blockedUsers, reports, gatherings, participations, feeds, images,
         visibilities, blockedFeeds, groups, members)
    }

    ghost predicate Valid()
      reads this
    {
      Safe(Contents())
    }

    constructor (table: map<Uuid, UserRow>)
      ensures Valid() && Contents() == NoRows(table)
    {
      users := table;
      friends, blockedUsers, reports := map[], {}, map[];
      gatherings, participations := map[], map[];
      feeds, images, visibilities, blockedFeeds := map[], map[], {}, {};
      groups, members := map[], map[];
      new;
      RunIsSafe(table, []);
    }

    // ---- Lookups and bulk deletes of the repositories ----

    /** The first row that links the two users, in whatever order the database returns rows. */
    method FindFriendRow(a: Uuid, b: Uuid) returns (found: Option<Uuid>)
      ensures found.Some? ==> found.value in friends && Links(friends[found.value], a, b)
      ensures found.None? ==> forall id | id in friends :: !Links(friends[id], a, b)
    {
      if id :| id in friends && Links(friends[id], a, b) {
        found := Some(id);
      } else {
        found := None;
      }
    }

    /** The status of a linking row tells whether the two are friends. */
    method CheckIsFriend(user: Uuid, friend: Uuid) returns (ok: bool)
      requires Valid()
      ensures ok <==> AreFriends(Contents(), user, friend)
    {
      var found := FindFriendRow(friend, user);
      ok := found.Some? && friends[found.value].status.ACCEPTED?;
      if found.Some? { OnlyLink(Contents(), user, friend, found.value); }
    }

    method CheckIsFriendAll(user: Uuid, others: seq<Uuid>) returns (ok: bool)
      requires Valid()
      ensures ok <==> AllFriends(Contents(), user, others)
    {
      ok := true;
      for i := 0 to |others|
        invariant ok <==> forall j | 0 <= j < i :: AreFriends(Contents(), user, others[j])
      {
        var isFriend := CheckIsFriend(user, others[i]);
        ok := ok && isFriend;
      }
    }

    method DeleteByUserIds(a: Uuid, b: Uuid)
      modifies this`friends
      ensures friends == WithoutLinks(old(friends), a, b)
    {
      friends := map id | id in friends && !Links(friends[id], a, b) :: friends[id];
    }

    method DeleteAllPendingInvitation(a: Uuid, b: Uuid)
      modifies this`participations
      ensures participations == WithoutPendingBetween(old(Contents()), a, b)
    {
      var db := Contents();
      participations := map k | k in participations && !PendingBetween(db, k, a, b) :: participations[k];
    }

    method DeleteAllByGatheringId(id: Uuid)
      modifies this`participations
      ensures participations == map k | k in old(participations) && k.0 != id :: old(participations)[k]
    {
      participations := map k | k in participations && k.0 != id :: participations[k];
    }

    // ---- Friends ----

    method Request(sender: Uuid, receiver: Uuid, id: Uuid) returns (reply: Reply)
      requires Valid()
      modifies this`friends
      ensures Valid()
      ensures reply == RequestReply(old(Contents()), sender, receiver, id)
      ensures Contents() == FriendStep(old(Contents()), FriendOp.Request(sender, receiver, id))
    {
      hide Safe;
      FriendStepIsSafe(Contents(), FriendOp.Request(sender, receiver, id));
      var existing := FindFriendRow(sender, receiver);
      if existing.Some? {
        OnlyLink(Contents(), sender, receiver, existing.value);
        match friends[existing.value].status {
          case ACCEPTED => return Failed(AlreadyFriends);
          case PENDING => return Failed(AlreadyExistRequest);
          case REPORTED => return Failed(ReportedUserCannotRequest);
        }
      }
      if !(receiver in users && users[receiver].deletedAt.None?) {
        return Failed(UserNotFound);
      }
      if FriendKeyTaken(friends, id, sender, receiver) {
        return Failed(KeyViolation);
      }
      friends := friends[id := FriendRow(sender, receiver, FriendStatus.PENDING)];
      return Done;
    }

    method Accept(sender: Uuid, receiver: Uuid) returns (reply: Reply)
      requires Valid()
      modifies this`friends
      ensures Valid()
      ensures reply == PendingRequestReply(old(Contents()), sender, receiver)
      ensures Contents() == FriendStep(old(Contents()), FriendOp.Accept(sender, receiver))
    {
      hide Safe, FriendStep, PendingRequestReply;
      FriendStepIsSafe(Contents(), FriendOp.Accept(sender, receiver));
      var found := FindFriendRow(sender, receiver);
      FoundRowDecides(Contents(), sender, receiver, found);
      if found.None? {
        return Failed(FriendNotFound);
      }
      var id := found.value;
      if friends[id].status.ACCEPTED? {
        return Failed(AlreadyFriends);
      }
      friends := friends[id := friends[id].(status := FriendStatus.ACCEPTED)];
      return Done;
    }

    method Reject(sender: Uuid, receiver: Uuid) returns (reply: Reply)
      requires Valid()
      modifies this`friends
      ensures Valid()
      ensures reply == PendingRequestReply(old(Contents()), sender, receiver)
      ensures Contents() == FriendStep(old(Contents()), FriendOp.Reject(sender, receiver))
    {
      hide Safe, FriendStep, PendingRequestReply, WithoutLinks;
      FriendStepIsSafe(Contents(), FriendOp.Reject(sender, receiver));
      var found := FindFriendRow(sender, receiver);
      FoundRowDecides(Contents(), sender, receiver, found);
      if found.None? {
        return Failed(FriendNotFound);
      }
      if friends[found.value].status.ACCEPTED? {
        return Failed(AlreadyFriends);
      }
      DeleteByUserIds(sender, receiver);
      return Done;
    }

    method Unfriend(friend: Uuid, user: Uuid) returns (reply: Reply)
      requires Valid()
      modifies this`friends, this`participations
      ensures Valid()
      ensures reply == UnfriendReply(old(Contents()), friend, user)
      ensures Contents() == FriendStep(old(Contents()), FriendOp.Unfriend(friend, user))
    {
      hide Safe;
      ghost var db := Contents();
      FriendStepIsSafe(Contents(), FriendOp.Unfriend(friend, user));
      var isFriend := CheckIsFriend(friend, user);
      if !isFriend {
        return Failed(FriendNotFound);
      }
      DeleteByUserIds(friend, user);
      DeleteAllPendingInvitation(friend, user);
      assert participations == WithoutPendingBetween(db, friend, user);
      return Done;
    }

    /** The four writes of a report; a taken key undoes those before it. */
    method ReportTransaction(reporter: Uuid, reported: Uuid, id: Uuid) returns (ok: bool)
      modifies this`participations, this`reports, this`blockedUsers, this`friends
      ensures ok <==> id !in old(reports) && (reporter, reported) !in old(blockedUsers)
      ensures Contents() == if ok then AfterReportFriend(old(Contents()), reporter, reported, id) else old(Contents())
    {
      hide WithoutLinks, WithoutPendingBetween;
      var savedParticipations, savedReports := participations, reports;
      DeleteAllPendingInvitation(reporter, reported);
      if id in reports {
        participations := savedParticipations;
        return false;
      }
      reports := reports[id := ReportRow(reporter, reported, ReportType.FRIEND)];
      if (reporter, reported) in blockedUsers {
        participations, reports := savedParticipations, savedReports;
        return false;
      }
      blockedUsers := blockedUsers + {(reporter, reported)};
      DeleteByUserIds(reporter, reported);
      return true;
    }

    method ReportFriend(reporter: Uuid, reported: Uuid, id: Uuid) returns (reply: Reply)
      requires Valid()
      modifies this`participations, this`reports, this`blockedUsers, this`friends
      ensures Valid()
      ensures reply == ReportFriendReply(old(Contents()), reporter, reported, id)
      ensures Contents() == FriendStep(old(Contents()), FriendOp.ReportFriend(reporter, reported, id))
    {
      hide Safe, AreFriends, AfterReportFriend;
      FriendStepIsSafe(Contents(), FriendOp.ReportFriend(reporter, reported, id));
      var isFriend := CheckIsFriend(reporter, reported);
      if !isFriend {
        return Failed(FriendNotFound);
      }
      var ok := ReportTransaction(reporter, reported, id);
      return if ok then Done else Failed(KeyViolation);
    }

    // ---- Gatherings ----

    /** The invitees are collected first, then both tables are written. */
    method CreateGathering(
      input: GatheringInput, friendIds: Option<seq<Uuid>>, listing: seq<Uuid>, now: Time, id: Uuid)
      returns (reply: Reply)
      requires Valid()
      requires input.kind.GROUP? && input.groupId.Some? ==> ListsMembers(Contents(), input.groupId.value, listing)
      modifies this`gatherings, this`participations
      ensures Valid()
      ensures reply == CreateGatheringReply(old(Contents()), input, friendIds, now, id)
      ensures Contents()
           == GatheringStep(old(Contents()), GatheringOp.CreateGathering(input, friendIds, listing, now, id))
      ensures reply.Done? && (input.groupId.Some? ==> (input.groupId.value, input.hostUserId) in members) ==>
                && Convened(Contents(), id, input.hostUserId, Guests(old(Contents()), input, friendIds))
                && OnlyHostWaits(old(Contents()), Contents(), id, input)
    {
      hide Safe, AllFriends, Invitations, Convened, Guests, OnlyHostWaits, ListsMembers;
      ghost var db := Contents();
      GatheringStepIsSafe(Contents(), GatheringOp.CreateGathering(input, friendIds, listing, now, id));
      if input.groupId.None? && friendIds.None? {
        return Failed(GroupOrFriendRequired);
      }
      if input.kind.GROUP? && input.groupId.None? {
        return Failed(BadRequest);
      }
      if input.kind.FRIEND? && friendIds.None? {
        return Failed(BadRequest);
      }
      if input.groupId.Some? && friendIds.Some? {
        return Failed(BadRequest);
      }
      if now > input.gatheringDate {
        return Failed(GatheringCreationPastDate);
      }
      var inviteeIds: seq<Uuid> := [];
      if input.kind.GROUP? {
        if input.groupId.value !in groups {
          return Failed(GroupNotFound);
        }
        inviteeIds := inviteeIds + listing;
      } else {
        var allFriends := CheckIsFriendAll(input.hostUserId, friendIds.value);
        if !allFriends {
          return Failed(FriendshipRequired);
        }
        inviteeIds := inviteeIds + friendIds.value + [input.hostUserId];
      }
      if id in gatherings {
        return Failed(KeyViolation);
      }
      gatherings := gatherings[id := GatheringRow(
        input.kind, input.groupId, input.hostUserId, input.name, input.gatheringDate, None, None)];
      assert inviteeIds == Invitees(input, friendIds, listing);
      participations := participations + Invitations(id, input.hostUserId, inviteeIds);
      if input.groupId.Some? ==> (input.groupId.value, input.hostUserId) in members {
        CreationEffect(db, Contents(), input, friendIds, listing, now, id);
      }
      return Done;
    }

    method UpdateGathering(id: Uuid, host: Uuid, name: string, date: Time, now: Time) returns (reply: Reply)
      requires Valid()
      modifies this`gatherings
      ensures Valid()
      ensures reply == UpdateGatheringReply(old(Contents()), id, host, date, now)
      ensures Contents() == GatheringStep(old(Contents()), GatheringOp.UpdateGathering(id, host, name, date, now))
      ensures reply.Done? <==>
                ActiveGathering(old(Contents()), id) && old(Contents()).gatherings[id].hostUserId == host && now <= date
      ensures reply.Done? ==>
                && ActiveGathering(Contents(), id)
                && gatherings[id].name == name && gatherings[id].gatheringDate == date
                && gatherings[id].hostUserId == host && gatherings[id].endedAt == old(Contents()).gatherings[id].endedAt
      ensures forall g | g in old(gatherings) && g != id :: g in gatherings && gatherings[g] == old(gatherings)[g]
    {
      hide Safe;
      GatheringStepIsSafe(Contents(), GatheringOp.UpdateGathering(id, host, name, date, now));
      if !(id in gatherings && gatherings[id].deletedAt.None?) {
        return Failed(GatheringNotFound);
      }
      if now > date {
        return Failed(GatheringCreationPastDate);
      }
      if gatherings[id].hostUserId != host {
        return Failed(Forbidden);
      }
      gatherings := gatherings[id := gatherings[id].(name := name, gatheringDate := date)];
      return Done;
    }

    method DeleteGathering(id: Uuid, user: Uuid, now: Time) returns (reply: Reply)
      requires Valid()
      modifies this`gatherings, this`participations
      ensures Valid()
      ensures reply == DeleteGatheringReply(old(Contents()), id, user)
      ensures Contents() == GatheringStep(old(Contents()), GatheringOp.DeleteGathering(id, user, now))
      ensures reply.Done? ==>
                && old(ActiveGathering(Contents(), id)) && !ActiveGathering(Contents(), id)
                && (forall k | k in participations :: k.0 != id)
                && (forall f | f in feeds :: feeds[f].gatheringId != Some(id))
      ensures forall k | k in old(participations) && k.0 != id ::
                k in participations && participations[k] == old(participations)[k]
      ensures forall g | g in old(gatherings) && g != id :: g in gatherings && gatherings[g] == old(gatherings)[g]
    {
      hide Safe;
      GatheringStepIsSafe(Contents(), GatheringOp.DeleteGathering(id, user, now));
      if !(id in gatherings && gatherings[id].deletedAt.None? && gatherings[id].hostUserId == user) {
        return Failed(GatheringNotFound);
      }
      if gatherings[id].endedAt.Some? {
        return Failed(CannotDeleteEndedGathering);
      }
      DeletableHasNoFeed(Contents(), id, user);
      gatherings := gatherings[id := gatherings[id].(deletedAt := Some(now))];
      DeleteAllByGatheringId(id);
      return Done;
    }

    method AcceptInvitation(k: (Uuid, nat), user: Uuid) returns (reply: Reply)
      requires Valid()
      modifies this`participations
      ensures Valid()
      ensures reply == InvitationReply(old(Contents()), k, user)
      ensures Contents() == GatheringStep(old(Contents()), GatheringOp.AcceptInvitation(k, user))
      ensures reply.Done? ==> TakesPart(Contents(), k.0, user) && ActiveGathering(Contents(), k.0)
      ensures participations.Keys == old(participations).Keys
      ensures forall j | j in participations && j != k :: participations[j] == old(participations)[j]
    {
      hide Safe;
      SafeParts(Contents());
      GatheringStepIsSafe(Contents(), GatheringOp.AcceptInvitation(k, user));
      if !(k in participations && participations[k].participantId == user) {
        return Failed(Forbidden);
      }
      participations := participations[k := participations[k].(status := ParticipationStatus.ACCEPTED)];
      return Done;
    }

    method RejectInvitation(k: (Uuid, nat), user: Uuid) returns (reply: Reply)
      requires Valid()
      modifies this`participations
      ensures Valid()
      ensures reply == InvitationReply(old(Contents()), k, user)
      ensures Contents() == GatheringStep(old(Contents()), GatheringOp.RejectInvitation(k, user))
      ensures reply.Done? <==> k in old(participations) && k !in participations
      ensures forall j | j in old(participations) && j != k ::
                j in participations && participations[j] == old(participations)[j]
    {
      hide Safe;
      GatheringStepIsSafe(Contents(), GatheringOp.RejectInvitation(k, user));
      if !(k in participations && participations[k].participantId == user) {
        return Failed(Forbidden);
      }
      participations := map j | j in participations && j != k :: participations[j];
      return Done;
    }

    // ---- Feeds ----

    /** Everything but the key of the new row. */
    method CheckCreateGatheringFeedConstraints(gathering: Uuid, writer: Uuid, now: Time) returns (error: Option<Error>)
      ensures forall id :: CreateGatheringFeedReply(Contents(), gathering, writer, now, id)
                        == if error.Some? then Failed(error.value)
                           else if id in feeds then Failed(KeyViolation) else Done
      ensures error.None? ==> !HasFeed(Contents(), gathering, writer)
    {
      hide HasFeed;
      if !(gathering in gatherings && gatherings[gathering].deletedAt.None?) {
        return Some(GatheringNotFound);
      }
      if gatherings[gathering].endedAt.None? {
        return Some(GatheringNotCompleted);
      }
      if !exists k | k in participations :: k.0 == gathering && participations[k].participantId == writer {
        return Some(Forbidden);
      }
      if CalcDateDiff(now, gatherings[gathering].endedAt.value) >= 30 {
        return Some(FeedCreationPeriodExceeded);
      }
      if HasFeed(Contents(), gathering, writer) {
        return Some(DuplicateFeed);
      }
      return None;
    }

    method CreateGatheringFeed(
      gathering: Uuid, writer: Uuid, content: string, urls: seq<string>, now: Time, id: Uuid) returns (reply: Reply)
      requires Valid()
      modifies this`feeds, this`images
      ensures Valid()
      ensures reply == CreateGatheringFeedReply(old(Contents()), gathering, writer, now, id)
      ensures Contents()
           == FeedStep(old(Contents()), FeedOp.CreateGatheringFeed(gathering, writer, content, urls, now, id))
      ensures reply.Done? ==>
                && !old(HasFeed(Contents(), gathering, writer)) && HasFeed(Contents(), gathering, writer)
                && (forall i: nat | i < |urls| :: (id, i) in images && images[(id, i)] == urls[i])
                && (forall k | k in images && k.0 == id :: k.1 < |urls|)
                && gathering in gatherings
                && OnlyAudienceFinds(
                     old(Contents()), Contents(), id, now, GatheringAudience(old(Contents()), gathering, writer))
      ensures forall f | f in old(feeds) :: f in feeds && feeds[f] == old(feeds)[f]
    {
      hide Safe, ImageRows, HasFeed, CreateGatheringFeedReply, OnlyAudienceFinds, GatheringAudience, FeedStep;
      GatheringFeedOutcome(Contents(), gathering, writer, content, urls, now, id);
      var error := CheckCreateGatheringFeedConstraints(gathering, writer, now);
      if error.Some? {
        return Failed(error.value);
      }
      if id in feeds {
        return Failed(KeyViolation);
      }
      feeds := feeds[id := FeedRow(writer, Some(gathering), content, now, None)];
      images := images + ImageRows(id, urls);
      return Done;
    }

    /** Feed and visibilities are written together; a taken key takes the feed back out. */
    method FriendFeedTransaction(
      writer: Uuid, content: string, urls: seq<string>, friendIds: seq<Uuid>, now: Time, id: Uuid)
      returns (ok: bool)
      modifies this`feeds, this`images, this`visibilities
      ensures ok <==> id !in old(feeds) && Distinct(friendIds) == friendIds
      ensures Contents() == if ok then AfterCreateFriendFeed(old(Contents()), writer, content, urls, friendIds, now, id)
                            else old(Contents())
      ensures ok ==> id in feeds && feeds[id] == FeedRow(writer, None, content, now, None)
      ensures forall v: (Uuid, Uuid) ::
                v in visibilities <==> v in old(visibilities) || (ok && v.0 == id && v.1 in friendIds)
    {
      hide ImageRows, Distinct;
      if id in feeds {
        return false;
      }
      var savedFeeds, savedImages := feeds, images;
      feeds := feeds[id := FeedRow(writer, None, content, now, None)];
      images := images + ImageRows(id, urls);
      if Distinct(friendIds) != friendIds {
        feeds, images := savedFeeds, savedImages;
        return false;
      }
      visibilities := visibilities + set u | u in friendIds :: (id, u);
      return true;
    }

    method CreateFriendFeed(
      writer: Uuid, content: string, urls: seq<string>, friendIds: seq<Uuid>, now: Time, id: Uuid)
      returns (reply: Reply)
      requires Valid()
      modifies this`feeds, this`images, this`visibilities
      ensures Valid()
      ensures reply == CreateFriendFeedReply(old(Contents()), writer, friendIds, id)
      ensures Contents()
           == FeedStep(old(Contents()), FeedOp.CreateFriendFeed(writer, content, urls, friendIds, now, id))
      ensures reply.Done? ==>
                && (forall v: (Uuid, Uuid) ::
                      v in visibilities <==> v in old(visibilities) || (v.0 == id && v.1 in friendIds))
                && OnlyAudienceFinds(old(Contents()), Contents(), id, now, FriendAudience(users, writer, friendIds))
    {
      hide Safe, AllFriends, Distinct, AfterCreateFriendFeed, OnlyAudienceFinds, FriendAudience;
      ghost var db := Contents();
      FeedStepIsSafe(Contents(), FeedOp.CreateFriendFeed(writer, content, urls, friendIds, now, id));
      var allFriends := CheckIsFriendAll(writer, friendIds);
      if !allFriends {
        return Failed(FriendshipRequired);
      }
      var ok := FriendFeedTransaction(writer, content, urls, friendIds, now, id);
      if ok {
        FriendFeedEffect(db, Contents(), writer, content, urls, friendIds, now, id);
      }
      return if ok then Done else Failed(KeyViolation);
    }

    method DeleteFeed(id: Uuid, writer: Uuid, now: Time) returns (reply: Reply)
      requires Valid()
      modifies this`feeds
      ensures Valid()
      ensures reply == DeleteFeedReply(old(Contents()), id, writer)
      ensures Contents() == FeedStep(old(Contents()), FeedOp.DeleteFeed(id, writer, now))
      ensures reply.Done? ==>
                && old(ActiveFeed(Contents(), id)) && !ActiveFeed(Contents(), id)
                && (feeds[id].gatheringId.Some? ==> !HasFeed(Contents(), feeds[id].gatheringId.value, writer))
                && OnlyLeaves(old(Contents()), Contents(), id, None)
      ensures forall f | f in old(feeds) && f != id :: f in feeds && feeds[f] == old(feeds)[f]
    {
      hide Safe, HasFeed, OnlyLeaves;
      ghost var db := Contents();
      FeedStepIsSafe(Contents(), FeedOp.DeleteFeed(id, writer, now));
      if !(id in feeds && feeds[id].deletedAt.None? && feeds[id].writerId == writer) {
        return Failed(Forbidden);
      }
      DeletedFeedFreesGathering(Contents(), id, writer, now);
      feeds := feeds[id := feeds[id].(deletedAt := Some(now))];
      DeletionEffect(db, Contents(), id, writer, now);
      return Done;
    }

    method ReportFeed(reporter: Uuid, feed: Uuid, id: Uuid) returns (reply: Reply)
      requires Valid()
      modifies this`reports, this`blockedFeeds
      ensures Valid()
      ensures reply == ReportFeedReply(old(Contents()), reporter, feed, id)
      ensures Contents() == FeedStep(old(Contents()), FeedOp.ReportFeed(reporter, feed, id))
      ensures reply.Done? <==> id !in old(reports) && (reporter, feed) !in old(blockedFeeds)
      ensures reply.Done? ==> OnlyLeaves(old(Contents()), Contents(), feed, Some(reporter))
    {
      hide Safe, OnlyLeaves, FeedStep, ReportFeedReply;
      FeedReportOutcome(Contents(), reporter, feed, id);
      if id in reports {
        return Failed(KeyViolation);
      }
      var savedReports := reports;
      reports := reports[id := ReportRow(reporter, feed, ReportType.FEED)];
      if (reporter, feed) in blockedFeeds {
        reports := savedReports;
        return Failed(KeyViolation);
      }
      blockedFeeds := blockedFeeds + {(reporter, feed)};
      return Done;
    }

    // ---- Groups ----

    /** The group is written first and taken back when one of its members collides. */
    method GroupTransaction(owner: Uuid, friendIds: seq<Uuid>, id: Uuid) returns (ok: bool)
      modifies this`groups, this`members
      ensures ok <==> id !in old(groups) && !MemberKeyTaken(old(Contents()), id, [owner] + friendIds)
      ensures Contents() == if ok then AfterCreateGroup(old(Contents()), owner, friendIds, id) else old(Contents())
    {
      hide NewMembers, Distinct;
      if id in groups {
        return false;
      }
      var savedGroups := groups;
      groups := groups[id := owner];
      if MemberKeyTaken(Contents(), id, [owner] + friendIds) {
        groups := savedGroups;
        return false;
      }
      members := members + NewMembers(id, [owner] + friendIds);
      return true;
    }

    method CreateGroup(owner: Uuid, friendIds: seq<Uuid>, id: Uuid) returns (reply: Reply)
      requires Valid()
      modifies this`groups, this`members
      ensures Valid()
      ensures reply == CreateGroupReply(old(Contents()), owner, friendIds, id)
      ensures Contents() == GroupStep(old(Contents()), GroupOp.CreateGroup(owner, friendIds, id))
    {
      hide Safe, AllFriends, MemberKeyTaken, AfterCreateGroup;
      GroupStepIsSafe(Contents(), GroupOp.CreateGroup(owner, friendIds, id));
      var allFriends := CheckIsFriendAll(owner, friendIds);
      if !allFriends {
        return Failed(FriendshipRequired);
      }
      var ok := GroupTransaction(owner, friendIds, id);
      return if ok then Done else Failed(KeyViolation);
    }

    /** Which existing row the check meets first is up to the database. */
    method AddMembers(group: Uuid, inviter: Uuid, ids: seq<Uuid>) returns (reply: Reply)
      requires Valid()
      modifies this`members
      ensures Valid()
      ensures || reply == AddMembersReply(old(Contents()), group, inviter, ids)
              || (reply == Failed(AlreadyExistMember)
                  && AddMembersReply(old(Contents()), group, inviter, ids) == Failed(ReportedUserCannotInvite)
                  && HasMemberAmong(old(Contents()), group, ids, MemberStatus.ACCEPTED))
      ensures Contents() == GroupStep(old(Contents()), GroupOp.AddMembers(group, inviter, ids))
    {
      hide Safe, AllFriends, NewMembers, AcceptedMembers;
      GroupStepIsSafe(Contents(), GroupOp.AddMembers(group, inviter, ids));
      var allFriends := CheckIsFriendAll(inviter, ids);
      if !allFriends {
        return Failed(FriendshipRequired);
      }
      if u :| u in ids && (group, u) in members {
        match members[(group, u)] {
          case REPORTED => return Failed(ReportedUserCannotInvite);
          case ACCEPTED => return Failed(AlreadyExistMember);
        }
      }
      if |AcceptedMembers(members, group)| + |ids| > 10 {
        return Failed(GroupMemberLimitExceeded);
      }
      if MemberKeyTaken(Contents(), group, ids) {
        return Failed(KeyViolation);
      }
      members := members + NewMembers(group, ids);
      return Done;
    }

    method LeaveGroup(group: Uuid, user: Uuid) returns (reply: Reply)
      requires Valid()
      modifies this`members
      ensures Valid()
      ensures reply == LeaveGroupReply(old(Contents()), group, user)
      ensures Contents() == GroupStep(old(Contents()), GroupOp.LeaveGroup(group, user))
      ensures reply.Done? <==> (group, user) in old(members) && (group, user) !in members
      ensures forall k | k in old(members) && k != (group, user) :: k in members && members[k] == old(members)[k]
      ensures forall g | g in groups :: (g, groups[g]) in members
    {
      hide Safe;
      SafeParts(Contents());
      GroupStepIsSafe(Contents(), GroupOp.LeaveGroup(group, user));
      if group in groups && groups[group] == user {
        return Failed(GroupOwnerCannotLeave);
      }
      if (group, user) !in members {
        return Failed(RecordNotFound);
      }
      members := map k | k in members && k != (group, user) :: members[k];
      return Done;
    }

    /** The cascades that come with a group: its members go, its gatherings lose the reference. */
    method RemoveGroup(group: Uuid)
      modifies this`groups, this`members, this`gatherings
      ensures groups == AfterDeleteGroup(old(Contents()), group).groups
      ensures members == AfterDeleteGroup(old(Contents()), group).members
      ensures gatherings == AfterDeleteGroup(old(Contents()), group).gatherings
    {
      groups := map g | g in groups && g != group :: groups[g];
      members := map k | k in members && k.0 != group :: members[k];
      gatherings := map g | g in gatherings ::
        if gatherings[g].groupId == Some(group) then gatherings[g].(groupId := None) else gatherings[g];
    }

    method DeleteGroup(group: Uuid, user: Uuid) returns (reply: Reply)
      requires Valid()
      modifies this`groups, this`members, this`gatherings
      ensures Valid()
      ensures reply == DeleteGroupReply(old(Contents()), group, user)
      ensures Contents() == GroupStep(old(Contents()), GroupOp.DeleteGroup(group, user))
      ensures reply.Done? ==>
                && group in old(groups) && old(groups)[group] == user && group !in groups
                && (forall k | k in members :: k.0 != group)
                && (forall g | g in gatherings :: gatherings[g].groupId != Some(group))
      ensures gatherings.Keys == old(gatherings).Keys
      ensures forall g | g in gatherings && old(gatherings)[g].groupId != Some(group) ::
                gatherings[g] == old(gatherings)[g]
      ensures forall k | k in old(members) && k.0 != group :: k in members && members[k] == old(members)[k]
    {
      hide Safe;
      GroupStepIsSafe(Contents(), GroupOp.DeleteGroup(group, user));
      if !(group in groups && groups[group] == user) {
        return Failed(Forbidden);
      }
      RemoveGroup(group);
      return Done;
    }

    /** The report is written first and taken back when there is no participation to mark. */
    method ReportGroup(reporter: Uuid, group: Uuid, id: Uuid) returns (reply: Reply)
      requires Valid()
      modifies this`reports, this`members
      ensures Valid()
      ensures reply == ReportGroupReply(old(Contents()), reporter, group, id)
      ensures Contents() == GroupStep(old(Contents()), GroupOp.ReportGroup(reporter, group, id))
    {
      hide Safe;
      GroupStepIsSafe(Contents(), GroupOp.ReportGroup(reporter, group, id));
      if id in reports {
        return Failed(KeyViolation);
      }
      var savedReports := reports;
      reports := reports[id := ReportRow(reporter, group, ReportType.GROUP)];
      if (group, reporter) !in members {
        reports := savedReports;
        return Failed(GroupNotFound);
      }
      members := members[(group, reporter) := MemberStatus.REPORTED];
      return Done;
    }
  }
}
