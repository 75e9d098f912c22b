/**
 What the gathering calls do to the lists of gatherings: who waits for a gathering, for whom it has
 ended, and which call moves it where. The lists are described by the columns of the tables first.
 */
module GatheringEffects {
  import opened Prelude
  import opened Tables
  import opened Social
  import opened SocialSafety
  import opened FeedQueries
  import opened GatheringQueries
  import GroupEffects

  // ---- The lists in the columns of the tables ----

  /** The user has accepted; stated on the rows. */
  ghost predicate Accepted(db: Db, g: Uuid, u: Uuid) {
    exists i: nat :: (g, i) in db.participations
      && db.participations[(g, i)] == ParticipationRow(u, ParticipationStatus.ACCEPTED)
  }

  lemma AcceptedIsTakesPart(db: Db, g: Uuid, u: Uuid)
    ensures Accepted(db, g, u) <==> TakesPart(db, g, u)
  {
    if TakesPart(db, g, u) {
      var k :| k in db.participations && k.0 == g && db.participations[k].participantId == u
               && db.participations[k].status.ACCEPTED?;
      assert k == (g, k.1);
    }
    if i: nat :| (g, i) in db.participations
                 && db.participations[(g, i)] == ParticipationRow(u, ParticipationStatus.ACCEPTED) {
      assert (g, i).0 == g;
    }
  }

  /** The waiting list: accepted, not deleted, dated in the range and not ended. */
  lemma WaitingHas(db: Db, u: Uuid, range: Range, g: Uuid)
    ensures g in WaitingIn(db, u, range)
       <==> && g in db.gatherings && db.gatherings[g].deletedAt.None? && db.gatherings[g].endedAt.None?
            && range.minDate <= db.gatherings[g].gatheringDate <= range.maxDate && Accepted(db, g, u)
  {
    AcceptedIsTakesPart(db, g, u);
  }

  /** The ended list: the same with an end. */
  lemma EndedHas(db: Db, u: Uuid, range: Range, g: Uuid)
    ensures g in EndedIn(db, u, range)
       <==> && g in db.gatherings && db.gatherings[g].deletedAt.None? && db.gatherings[g].endedAt.Some?
            && range.minDate <= db.gatherings[g].gatheringDate <= range.maxDate && Accepted(db, g, u)
  {
    AcceptedIsTakesPart(db, g, u);
  }

  /** The "all" list: both. */
  lemma AllHas(db: Db, u: Uuid, range: Range, g: Uuid)
    ensures g in Dated(db, Mine(db, u), range)
       <==> && g in db.gatherings && db.gatherings[g].deletedAt.None?
            && range.minDate <= db.gatherings[g].gatheringDate <= range.maxDate && Accepted(db, g, u)
  {
    AcceptedIsTakesPart(db, g, u);
  }

  /** The no-feed list: ended, accepted, and without an active feed of the user, whatever the date. */
  lemma NoFeedHas(db: Db, u: Uuid, g: Uuid)
    ensures g in NoFeed(db, u)
       <==> && g in db.gatherings && db.gatherings[g].deletedAt.None? && db.gatherings[g].endedAt.Some?
            && Accepted(db, g, u)
            && forall f | f in db.feeds ::
                 db.feeds[f].gatheringId == Some(g) && db.feeds[f].writerId == u ==> db.feeds[f].deletedAt.Some?
  {
    AcceptedIsTakesPart(db, g, u);
  }

  /** The waiting and the ended list share nothing, and together they are the "all" list. */
  lemma WaitingAndEnded(db: Db, u: Uuid, range: Range)
    ensures WaitingIn(db, u, range) !! EndedIn(db, u, range)
    ensures WaitingIn(db, u, range) + EndedIn(db, u, range) == Dated(db, Mine(db, u), range)
  {
    hide WaitingIn, EndedIn, Dated, Mine;
    forall g: Uuid
      ensures g in WaitingIn(db, u, range) ==> g !in EndedIn(db, u, range)
      ensures g in WaitingIn(db, u, range) + EndedIn(db, u, range) <==> g in Dated(db, Mine(db, u), range)
    {
      WaitingHas(db, u, range, g);
      EndedHas(db, u, range, g);
      AllHas(db, u, range, g);
    }
  }

  // ---- Ending ----

  /** Ending a gathering takes exactly it from every participant's waiting list to the ended list. */
  lemma EndingMoves(db: Db, g: Uuid, at: Time, u: Uuid, range: Range)
    requires g in db.gatherings && db.gatherings[g].deletedAt.None? && db.gatherings[g].endedAt.None?
    ensures var next := GatheringStep(db, EndGathering(g, at));
            var listed := Accepted(db, g, u) && range.minDate <= db.gatherings[g].gatheringDate <= range.maxDate;
            && (g in WaitingIn(db, u, range) <==> listed) && g !in EndedIn(db, u, range)
            && WaitingIn(next, u, range) == WaitingIn(db, u, range) - {g}
            && EndedIn(next, u, range) == EndedIn(db, u, range) + If(listed, g)
            && next.gatherings == db.gatherings[g := db.gatherings[g].(endedAt := Some(at))]
  {
    var next := GatheringStep(db, EndGathering(g, at));
    assert next == db.(gatherings := db.gatherings[g := db.gatherings[g].(endedAt := Some(at))]);
    hide GatheringStep, WaitingIn, EndedIn;
    forall h: Uuid
      ensures h in WaitingIn(next, u, range) <==> h in WaitingIn(db, u, range) - {g}
      ensures h in EndedIn(next, u, range) <==> h in EndedIn(db, u, range) || (h == g && g in WaitingIn(db, u, range))
    {
      WaitingHas(db, u, range, h);
      WaitingHas(next, u, range, h);
      EndedHas(db, u, range, h);
      EndedHas(next, u, range, h);
      SameAccepted(db, next, h, u);
    }
    WaitingHas(db, u, range, g);
    EndedHas(db, u, range, g);
  }

  /** A gathering that has ended keeps its end. */
  lemma EndingTwice(db: Db, g: Uuid, at: Time)
    requires g in db.gatherings ==> db.gatherings[g].endedAt.Some?
    ensures GatheringStep(db, EndGathering(g, at)) == db
  {
  }

  lemma SameAccepted(db: Db, next: Db, g: Uuid, u: Uuid)
    requires next.participations == db.participations
    ensures Accepted(next, g, u) <==> Accepted(db, g, u)
  {
  }

  // ---- Creation ----

  /** A PENDING participation. */
  ghost predicate Asked(db: Db, g: Uuid, u: Uuid) {
    exists i: nat :: (g, i) in db.participations
      && db.participations[(g, i)] == ParticipationRow(u, ParticipationStatus.PENDING)
  }

  /** The host takes part, the other guests are asked, and that is all. */
  ghost predicate Convened(db: Db, g: Uuid, host: Uuid, guests: set<Uuid>) {
    && Accepted(db, g, host)
    && (forall u | u in guests && u != host :: Asked(db, g, u))
    && (forall k | k in db.participations && k.0 == g ::
          || db.participations[k] == ParticipationRow(host, ParticipationStatus.ACCEPTED)
          || (db.participations[k].status == ParticipationStatus.PENDING
              && db.participations[k].participantId in guests && db.participations[k].participantId != host))
  }

  /** Rows of one gathering more. */
  ghost predicate Grows(db: Db, next: Db, id: Uuid) {
    && (forall k | k in db.participations ::
          k in next.participations && next.participations[k] == db.participations[k] && k.0 != id)
    && (forall k | k in next.participations && k !in db.participations :: k.0 == id)
  }

  /** Whom a successful creation concerns besides the host: the named friends, or the members of the group. */
  ghost function Guests(db: Db, input: GatheringInput, friendIds: Option<seq<Uuid>>): set<Uuid> {
    if input.groupId.Some? then set k | k in db.members && k.0 == input.groupId.value :: k.1
    else if friendIds.Some? then set u | u in friendIds.value
    else {}
  }

  /** The rows of an insert for a list of invitees that has the host and, apart from the host, the guests. */
  lemma InsertedRows(db: Db, g: Uuid, host: Uuid, invitees: seq<Uuid>, guests: set<Uuid>)
    requires forall k | k in db.participations :: k.0 != g
    requires host in invitees && forall u | u != host :: u in invitees <==> u in guests
    ensures Convened(db.(participations := db.participations + Invitations(g, host, invitees)), g, host, guests)
    ensures Grows(db, db.(participations := db.participations + Invitations(g, host, invitees)), g)
  {
    var next := db.(participations := db.participations + Invitations(g, host, invitees));
    forall i: nat | i < |invitees|
      ensures (g, i) in next.participations && next.participations[(g, i)] == Invitations(g, host, invitees)[(g, i)] { }
    var h: nat :| h < |invitees| && invitees[h] == host;
    assert next.participations[(g, h)] == ParticipationRow(host, ParticipationStatus.ACCEPTED);
    forall u | u in guests && u != host ensures Asked(next, g, u) {
      var i: nat :| i < |invitees| && invitees[i] == u;
      assert next.participations[(g, i)] == ParticipationRow(u, ParticipationStatus.PENDING);
    }
    forall k | k in next.participations && k.0 == g
      ensures k.1 < |invitees| && next.participations[k] == Invitations(g, host, invitees)[(g, k.1)]
    {
      assert k in Invitations(g, host, invitees);
    }
  }

  /**
   A new gathering: its row is as asked for, and who has a participation is as above. A group's
   gathering assumes that the host is a member.
   */
  lemma CreationConvenes(
    db: Db, input: GatheringInput, friendIds: Option<seq<Uuid>>, listing: seq<Uuid>, now: Time, id: Uuid)
    requires Safe(db) && GatheringReply(db, CreateGathering(input, friendIds, listing, now, id)).Done?
    requires input.groupId.Some? ==>
               ListsMembers(db, input.groupId.value, listing) && (input.groupId.value, input.hostUserId) in db.members
    ensures var next := GatheringStep(db, CreateGathering(input, friendIds, listing, now, id));
            && Convened(next, id, input.hostUserId, Guests(db, input, friendIds))
            && next.gatherings == db.gatherings[id := GatheringRow(
                 input.kind, input.groupId, input.hostUserId, input.name, input.gatheringDate, None, None)]
            && id !in db.gatherings && Grows(db, next, id)
  {
    hide Guests, Invitees, Convened, Invitations;
    var invitees := Invitees(input, friendIds, listing);
    var next := AfterCreateGathering(db, input, friendIds, listing, id);
    assert next == GatheringStep(db, CreateGathering(input, friendIds, listing, now, id));
    hide GatheringStep;
    IdIsNew(db, input, friendIds, now, id);
    WhoIsInvited(db, input, friendIds, listing, now, id);
    InsertedRows(db, id, input.hostUserId, invitees, Guests(db, input, friendIds));
    var inserted := db.(participations := db.participations + Invitations(id, input.hostUserId, invitees));
    SameConvened(inserted, next, id, input.hostUserId, Guests(db, input, friendIds));
  }

  lemma IdIsNew(db: Db, input: GatheringInput, friendIds: Option<seq<Uuid>>, now: Time, id: Uuid)
    requires Safe(db) && CreateGatheringReply(db, input, friendIds, now, id).Done?
    ensures id !in db.gatherings && forall k | k in db.participations :: k.0 != id
  {
  }

  lemma SameConvened(db: Db, next: Db, g: Uuid, host: Uuid, guests: set<Uuid>)
    requires next.participations == db.participations && Convened(db, g, host, guests)
    ensures Convened(next, g, host, guests)
  {
    SameAccepted(db, next, g, host);
    forall u | u in guests && u != host ensures Asked(next, g, u) {
      assert Asked(db, g, u);
    }
  }

  lemma WhoIsInvited(
    db: Db, input: GatheringInput, friendIds: Option<seq<Uuid>>, listing: seq<Uuid>, now: Time, id: Uuid)
    requires CreateGatheringReply(db, input, friendIds, now, id).Done?
    requires input.groupId.Some? ==>
               ListsMembers(db, input.groupId.value, listing) && (input.groupId.value, input.hostUserId) in db.members
    ensures var invitees := Invitees(input, friendIds, listing);
            && input.hostUserId in invitees
            && forall u | u != input.hostUserId :: u in invitees <==> u in Guests(db, input, friendIds)
  {
    if input.groupId.Some? {
      forall u ensures u in listing <==> u in Guests(db, input, friendIds) {
        if u in listing {
          assert (input.groupId.value, u) in db.members && (input.groupId.value, u).1 == u;
        }
      }
    } else {
      assert (friendIds.value + [input.hostUserId])[|friendIds.value|] == input.hostUserId;
    }
  }

  lemma NewGatheringLists(db: Db, next: Db, id: Uuid, row: GatheringRow, guests: set<Uuid>, u: Uuid, range: Range)
    requires Grows(db, next, id) && Convened(next, id, row.hostUserId, guests)
    requires id !in db.gatherings && next.gatherings == db.gatherings[id := row]
    requires row.endedAt.None? && row.deletedAt.None?
    ensures WaitingIn(next, u, range) == WaitingIn(db, u, range)
              + If(u == row.hostUserId && range.minDate <= row.gatheringDate <= range.maxDate, id)
    ensures id !in WaitingIn(db, u, range) && EndedIn(next, u, range) == EndedIn(db, u, range)
  {
    hide WaitingIn, EndedIn;
    var host := u == row.hostUserId && range.minDate <= row.gatheringDate <= range.maxDate;
    forall h: Uuid
      ensures h in WaitingIn(next, u, range) <==> (h in WaitingIn(db, u, range) || (h == id && host))
      ensures h in EndedIn(next, u, range) <==> h in EndedIn(db, u, range)
    {
      WaitingHas(db, u, range, h);
      WaitingHas(next, u, range, h);
      EndedHas(db, u, range, h);
      EndedHas(next, u, range, h);
      if h != id {
        AcceptedElsewhere(db, next, id, h, u);
      }
    }
    WaitingHas(db, u, range, id);
  }

  /** At once the gathering waits for its host, if dated in the range, and for nobody else. */
  lemma CreationLists(
    db: Db, input: GatheringInput, friendIds: Option<seq<Uuid>>, listing: seq<Uuid>, now: Time, id: Uuid, u: Uuid,
    range: Range)
    requires Safe(db) && GatheringReply(db, CreateGathering(input, friendIds, listing, now, id)).Done?
    requires input.groupId.Some? ==>
               ListsMembers(db, input.groupId.value, listing) && (input.groupId.value, input.hostUserId) in db.members
    ensures var next := GatheringStep(db, CreateGathering(input, friendIds, listing, now, id));
            && WaitingIn(next, u, range) == WaitingIn(db, u, range)
                 + If(u == input.hostUserId && range.minDate <= input.gatheringDate <= range.maxDate, id)
            && id !in WaitingIn(db, u, range)
            && EndedIn(next, u, range) == EndedIn(db, u, range)
  {
    hide Safe, GatheringStep, GatheringReply, WaitingIn, EndedIn, Guests, Convened, Grows;
    var next := GatheringStep(db, CreateGathering(input, friendIds, listing, now, id));
    var row := GatheringRow(
      input.kind, input.groupId, input.hostUserId, input.name, input.gatheringDate, None, None);
    CreationConvenes(db, input, friendIds, listing, now, id);
    NewGatheringLists(db, next, id, row, Guests(db, input, friendIds), u, range);
  }

  lemma AcceptedElsewhere(db: Db, next: Db, id: Uuid, h: Uuid, u: Uuid)
    requires h != id
    requires forall k | k in db.participations ::
               k in next.participations && next.participations[k] == db.participations[k]
    requires forall k | k in next.participations && k !in db.participations :: k.0 == id
    ensures Accepted(next, h, u) <==> Accepted(db, h, u)
  {
    if i: nat :| (h, i) in next.participations
                 && next.participations[(h, i)] == ParticipationRow(u, ParticipationStatus.ACCEPTED) {
      assert (h, i).0 == h;
    }
  }

  /**
   Nobody checks that the host belongs to the group: the host takes part in the new gathering exactly
   when it is a friends' gathering or the host is one of the group's members.
   */
  lemma HostTakesPartIff(
    db: Db, input: GatheringInput, friendIds: Option<seq<Uuid>>, listing: seq<Uuid>, now: Time, id: Uuid)
    requires Safe(db) && GatheringReply(db, CreateGathering(input, friendIds, listing, now, id)).Done?
    requires input.groupId.Some? ==> ListsMembers(db, input.groupId.value, listing)
    ensures Accepted(GatheringStep(db, CreateGathering(input, friendIds, listing, now, id)), id, input.hostUserId)
       <==> (input.groupId.Some? ==> (input.groupId.value, input.hostUserId) in db.members)
  {
    var next := GatheringStep(db, CreateGathering(input, friendIds, listing, now, id));
    if input.groupId.Some? && (input.groupId.value, input.hostUserId) !in db.members {
      IdIsNew(db, input, friendIds, now, id);
      assert next.participations == db.participations + Invitations(id, input.hostUserId, listing);
      assert input.hostUserId !in listing;
      hide GatheringStep, GatheringReply, Safe, ListsMembers;
      NotInvited(db, next, id, input.hostUserId, listing);
    } else {
      hide GatheringStep, GatheringReply, Safe, ListsMembers, Guests;
      CreationConvenes(db, input, friendIds, listing, now, id);
    }
  }

  lemma NotInvited(db: Db, next: Db, id: Uuid, host: Uuid, listing: seq<Uuid>)
    requires forall k | k in db.participations :: k.0 != id
    requires next.participations == db.participations + Invitations(id, host, listing) && host !in listing
    ensures !Accepted(next, id, host)
  {
    forall i: nat | (id, i) in next.participations
      ensures next.participations[(id, i)] != ParticipationRow(host, ParticipationStatus.ACCEPTED)
    {
      assert (id, i).0 == id && (id, i) in Invitations(id, host, listing);
      assert next.participations[(id, i)].participantId in listing;
    }
  }

  /** User 2 founds group 1 alone. */
  lemma SoleMember(users: map<Uuid, UserRow>)
    ensures var db := Run(NoRows(users), [OnGroups(CreateGroup(2, [], 1))]);
            Safe(db) && ListsMembers(db, 1, [2]) && 1 in db.groups && db.gatherings == map[]
  {
    var ops := [OnGroups(CreateGroup(2, [], 1))];
    RunIsSafe(users, ops);
    assert Run(NoRows(users), []) == NoRows(users) && ops[..0] == [];
    assert Run(NoRows(users), ops) == GroupStep(NoRows(users), CreateGroup(2, [], 1));
    hide Run, Safe, GroupStep, GroupReply;
    assert NoRepeats<Uuid>([]);
    GroupEffects.CreateGroupIff(NoRows(users), 2, [], 1);
    GroupEffects.CreatedGroupHas(NoRows(users), 2, [], 1);
  }

  /** User 3 makes a gathering of that group and takes no part in it. */
  lemma HostOutsideGroup(users: map<Uuid, UserRow>, date: Time)
    ensures var create :=
              CreateGathering(GatheringInput(GatheringType.GROUP, Some(1), 3, "", date), None, [2], date, 4);
            var db := Run(NoRows(users), [OnGroups(CreateGroup(2, [], 1))]);
            && ListsMembers(db, 1, [2]) && GatheringReply(db, create).Done?
            && !Accepted(GatheringStep(db, create), 4, 3)
  {
    hide Run, Safe, GatheringStep, Accepted;
    var db := Run(NoRows(users), [OnGroups(CreateGroup(2, [], 1))]);
    SoleMember(users);
    HostTakesPartIff(db, GatheringInput(GatheringType.GROUP, Some(1), 3, "", date), None, [2], date, 4);
  }

  /** A gathering is created for friends or for a group, not for both and not in the past. */
  lemma CreationIff(
    db: Db, input: GatheringInput, friendIds: Option<seq<Uuid>>, listing: seq<Uuid>, now: Time, id: Uuid)
    ensures GatheringReply(db, CreateGathering(input, friendIds, listing, now, id)).Done?
       <==> && now <= input.gatheringDate && id !in db.gatherings
            && match input.kind
               case FRIEND =>
                 && input.groupId.None? && friendIds.Some?
                 && forall u <- friendIds.value :: AreFriends(db, input.hostUserId, u)
               case GROUP => input.groupId.Some? && friendIds.None? && input.groupId.value in db.groups
  {
    hide AreFriends;
  }

  /** Why a gathering of the right shape is refused, in the order of the checks. */
  lemma CreationErrors(
    db: Db, input: GatheringInput, friendIds: Option<seq<Uuid>>, listing: seq<Uuid>, now: Time, id: Uuid)
    requires if input.kind.GROUP? then input.groupId.Some? && friendIds.None?
             else input.groupId.None? && friendIds.Some?
    ensures var reply := GatheringReply(db, CreateGathering(input, friendIds, listing, now, id));
            && (reply == Failed(GatheringCreationPastDate) <==> now > input.gatheringDate)
            && (reply == Failed(GroupNotFound)
                <==> now <= input.gatheringDate && input.kind.GROUP? && input.groupId.value !in db.groups)
            && (reply == Failed(FriendshipRequired)
                <==> now <= input.gatheringDate && input.kind.FRIEND?
                     && exists u <- friendIds.value :: !AreFriends(db, input.hostUserId, u))
  {
    hide AreFriends;
  }

  // ---- Answers, changes and deletion ----

  /** Only participations of one gathering differ. */
  ghost predicate SameElsewhere(db: Db, next: Db, g: Uuid) {
    && next.gatherings == db.gatherings
    && (forall k: (Uuid, nat) | k.0 != g :: k in next.participations <==> k in db.participations)
    && (forall k: (Uuid, nat) | k.0 != g && k in db.participations :: next.participations[k] == db.participations[k])
  }

  lemma SameListsElsewhere(db: Db, next: Db, g: Uuid, u: Uuid, range: Range, h: Uuid)
    requires SameElsewhere(db, next, g) && (h == g ==> (Accepted(next, g, u) <==> Accepted(db, g, u)))
    ensures h in WaitingIn(next, u, range) <==> h in WaitingIn(db, u, range)
    ensures h in EndedIn(next, u, range) <==> h in EndedIn(db, u, range)
  {
    hide WaitingIn, EndedIn;
    WaitingHas(db, u, range, h);
    WaitingHas(next, u, range, h);
    EndedHas(db, u, range, h);
    EndedHas(next, u, range, h);
    if h != g {
      assert forall i: nat :: (h, i).0 == h;
    }
  }

  /** Only the participant answers an invitation, by accepting or rejecting it. */
  lemma InvitationIff(db: Db, k: (Uuid, nat), user: Uuid)
    ensures GatheringReply(db, AcceptInvitation(k, user)).Done?
       <==> k in db.participations && db.participations[k].participantId == user
    ensures GatheringReply(db, RejectInvitation(k, user)) == GatheringReply(db, AcceptInvitation(k, user))
  {
  }

  /** Who has accepted after somebody answers: the one who accepts joins, and nobody else joins or leaves. */
  lemma AcceptanceJoins(db: Db, k: (Uuid, nat), user: Uuid, u: Uuid)
    requires GatheringReply(db, AcceptInvitation(k, user)).Done?
    ensures var next := GatheringStep(db, AcceptInvitation(k, user));
            && SameElsewhere(db, next, k.0)
            && (Accepted(next, k.0, u) <==> Accepted(db, k.0, u) || u == user)
  {
    var next := GatheringStep(db, AcceptInvitation(k, user));
    assert next.participations == db.participations[k := ParticipationRow(user, ParticipationStatus.ACCEPTED)];
    assert k == (k.0, k.1);
    if Accepted(db, k.0, u) {
      var i: nat :| (k.0, i) in db.participations
                    && db.participations[(k.0, i)] == ParticipationRow(u, ParticipationStatus.ACCEPTED);
      assert next.participations[(k.0, i)] == ParticipationRow(u, ParticipationStatus.ACCEPTED);
    }
    if u == user {
      assert next.participations[(k.0, k.1)] == ParticipationRow(u, ParticipationStatus.ACCEPTED);
    }
  }

  /** Accepting puts exactly that gathering on the list of the one who accepts: waiting, or ended if it has ended. */
  lemma AcceptanceLists(db: Db, k: (Uuid, nat), user: Uuid, u: Uuid, range: Range)
    requires Safe(db) && GatheringReply(db, AcceptInvitation(k, user)).Done?
    ensures k.0 in db.gatherings
    ensures var next := GatheringStep(db, AcceptInvitation(k, user));
            var row := db.gatherings[k.0];
            var joins := u == user && range.minDate <= row.gatheringDate <= range.maxDate;
            && WaitingIn(next, u, range) == WaitingIn(db, u, range) + If(joins && row.endedAt.None?, k.0)
            && EndedIn(next, u, range) == EndedIn(db, u, range) + If(joins && row.endedAt.Some?, k.0)
  {
    SafeParts(db);
    hide Safe, GatheringStep, WaitingIn, EndedIn, SameElsewhere;
    var next := GatheringStep(db, AcceptInvitation(k, user));
    AcceptanceJoins(db, k, user, u);
    forall h: Uuid | h != k.0
      ensures h in WaitingIn(next, u, range) <==> h in WaitingIn(db, u, range)
      ensures h in EndedIn(next, u, range) <==> h in EndedIn(db, u, range)
    {
      SameListsElsewhere(db, next, k.0, u, range, h);
    }
    SameGatherings(db, next, k.0);
    WaitingHas(db, u, range, k.0);
    WaitingHas(next, u, range, k.0);
    EndedHas(db, u, range, k.0);
    EndedHas(next, u, range, k.0);
  }

  lemma SameGatherings(db: Db, next: Db, g: Uuid)
    requires SameElsewhere(db, next, g)
    ensures next.gatherings == db.gatherings
  {
  }

  /** Rejecting what was not accepted changes nobody's lists. */
  lemma RejectionLists(db: Db, k: (Uuid, nat), user: Uuid, u: Uuid, range: Range)
    requires GatheringReply(db, RejectInvitation(k, user)).Done? && !db.participations[k].status.ACCEPTED?
    ensures var next := GatheringStep(db, RejectInvitation(k, user));
            && WaitingIn(next, u, range) == WaitingIn(db, u, range)
            && EndedIn(next, u, range) == EndedIn(db, u, range)
  {
    var next := GatheringStep(db, RejectInvitation(k, user));
    assert SameElsewhere(db, next, k.0);
    assert Accepted(next, k.0, u) <==> Accepted(db, k.0, u) by {
      if i: nat :| (k.0, i) in db.participations
                   && db.participations[(k.0, i)] == ParticipationRow(u, ParticipationStatus.ACCEPTED) {
        assert (k.0, i) in next.participations;
      }
    }
    forall h: Uuid
      ensures h in WaitingIn(next, u, range) <==> h in WaitingIn(db, u, range)
      ensures h in EndedIn(next, u, range) <==> h in EndedIn(db, u, range)
    {
      SameListsElsewhere(db, next, k.0, u, range, h);
    }
  }

  /** A deleted gathering leaves every waiting list and was on no ended list. */
  lemma DeletionLists(db: Db, id: Uuid, user: Uuid, now: Time, u: Uuid, range: Range)
    requires GatheringReply(db, DeleteGathering(id, user, now)).Done?
    ensures var next := GatheringStep(db, DeleteGathering(id, user, now));
            && WaitingIn(next, u, range) == WaitingIn(db, u, range) - {id}
            && EndedIn(next, u, range) == EndedIn(db, u, range)
            && id !in EndedIn(db, u, range)
  {
    var next := GatheringStep(db, DeleteGathering(id, user, now));
    assert next.gatherings == db.gatherings[id := db.gatherings[id].(deletedAt := Some(now))];
    assert forall k: (Uuid, nat) | k.0 != id :: k in next.participations <==> k in db.participations;
    hide WaitingIn, EndedIn, GatheringStep;
    forall h: Uuid
      ensures h in WaitingIn(next, u, range) <==> h in WaitingIn(db, u, range) - {id}
      ensures h in EndedIn(next, u, range) <==> h in EndedIn(db, u, range)
    {
      WaitingHas(db, u, range, h);
      WaitingHas(next, u, range, h);
      EndedHas(db, u, range, h);
      EndedHas(next, u, range, h);
      if h != id {
        assert forall i: nat :: (h, i).0 == h;
      }
    }
    EndedHas(db, u, range, id);
  }

  /** The host may delete a gathering until it ends. */
  lemma DeletionIff(db: Db, id: Uuid, user: Uuid, now: Time)
    ensures GatheringReply(db, DeleteGathering(id, user, now)).Done?
       <==> && id in db.gatherings && db.gatherings[id].hostUserId == user
            && db.gatherings[id].deletedAt.None? && db.gatherings[id].endedAt.None?
    ensures GatheringReply(db, DeleteGathering(id, user, now)) == Failed(CannotDeleteEndedGathering)
       <==> && id in db.gatherings && db.gatherings[id].hostUserId == user
            && db.gatherings[id].deletedAt.None? && db.gatherings[id].endedAt.Some?
  {
  }

  /** A gathering deleted right after its creation leaves everybody's participations and lists as they were. */
  lemma CreateThenDelete(
    db: Db, input: GatheringInput, friendIds: Option<seq<Uuid>>, listing: seq<Uuid>, now: Time, id: Uuid, later: Time,
    u: Uuid, range: Range)
    requires Safe(db) && GatheringReply(db, CreateGathering(input, friendIds, listing, now, id)).Done?
    requires input.groupId.Some? ==>
               ListsMembers(db, input.groupId.value, listing) && (input.groupId.value, input.hostUserId) in db.members
    ensures var mid := GatheringStep(db, CreateGathering(input, friendIds, listing, now, id));
            var delete := DeleteGathering(id, input.hostUserId, later);
            && GatheringReply(mid, delete).Done?
            && GatheringStep(mid, delete).participations == db.participations
            && WaitingIn(GatheringStep(mid, delete), u, range) == WaitingIn(db, u, range)
            && EndedIn(GatheringStep(mid, delete), u, range) == EndedIn(db, u, range)
  {
    hide Safe, WaitingIn, EndedIn, GatheringStep, GatheringReply, Convened, Guests;
    var mid := GatheringStep(db, CreateGathering(input, friendIds, listing, now, id));
    CreationConvenes(db, input, friendIds, listing, now, id);
    CreationLists(db, input, friendIds, listing, now, id, u, range);
    DeletionIff(mid, id, input.hostUserId, later);
    DeletionLists(mid, id, input.hostUserId, later, u, range);
    DeletedParticipations(db, mid, id, input.hostUserId, later);
  }

  lemma DeletedParticipations(db: Db, mid: Db, id: Uuid, host: Uuid, later: Time)
    requires Grows(db, mid, id) && GatheringReply(mid, DeleteGathering(id, host, later)).Done?
    ensures GatheringStep(mid, DeleteGathering(id, host, later)).participations == db.participations
  {
  }

  /** A new date decides anew on which lists of its participants the gathering is; other entries stay. */
  lemma UpdateLists(db: Db, id: Uuid, host: Uuid, name: string, date: Time, now: Time, u: Uuid, range: Range)
    requires GatheringReply(db, UpdateGathering(id, host, name, date, now)).Done?
    ensures var next := GatheringStep(db, UpdateGathering(id, host, name, date, now));
            var listed := Accepted(db, id, u) && range.minDate <= date <= range.maxDate;
            && WaitingIn(next, u, range)
            == WaitingIn(db, u, range) - {id} + If(listed && db.gatherings[id].endedAt.None?, id)
            && EndedIn(next, u, range)
            == EndedIn(db, u, range) - {id} + If(listed && db.gatherings[id].endedAt.Some?, id)
  {
    var next := GatheringStep(db, UpdateGathering(id, host, name, date, now));
    assert next == db.(gatherings := db.gatherings[id := db.gatherings[id].(name := name, gatheringDate := date)]);
    hide WaitingIn, EndedIn, GatheringStep;
    forall h: Uuid
      ensures h != id ==> (h in WaitingIn(next, u, range) <==> h in WaitingIn(db, u, range))
      ensures h != id ==> (h in EndedIn(next, u, range) <==> h in EndedIn(db, u, range))
    {
      WaitingHas(db, u, range, h);
      WaitingHas(next, u, range, h);
      EndedHas(db, u, range, h);
      EndedHas(next, u, range, h);
      SameAccepted(db, next, h, u);
    }
    SameAccepted(db, next, id, u);
    WaitingHas(next, u, range, id);
    EndedHas(next, u, range, id);
  }

  // ---- Nobody takes part without having said so ----

  /** The call makes the user a participant: creating the gathering as its host, or accepting. */
  predicate Joins(op: Op, g: Uuid, u: Uuid) {
    && op.OnGatherings?
    && ((op.gatheringOp.CreateGathering? && op.gatheringOp.id == g && op.gatheringOp.input.hostUserId == u)
        || (op.gatheringOp.AcceptInvitation? && op.gatheringOp.k.0 == g && op.gatheringOp.user == u))
  }

  lemma GatheringStepJoins(db: Db, op: GatheringOp, g: Uuid, u: Uuid)
    requires Accepted(GatheringStep(db, op), g, u) && !Accepted(db, g, u)
    ensures Joins(OnGatherings(op), g, u)
  {
    var next := GatheringStep(db, op);
    var i: nat :| (g, i) in next.participations
                  && next.participations[(g, i)] == ParticipationRow(u, ParticipationStatus.ACCEPTED);
    assert (g, i) in db.participations ==> db.participations[(g, i)] != next.participations[(g, i)];
  }

  lemma FriendStepJoinsNobody(db: Db, op: FriendOp, g: Uuid, u: Uuid)
    requires Accepted(FriendStep(db, op), g, u)
    ensures Accepted(db, g, u)
  {
    var next := FriendStep(db, op);
    var i: nat :| (g, i) in next.participations
                  && next.participations[(g, i)] == ParticipationRow(u, ParticipationStatus.ACCEPTED);
    assert (g, i) in db.participations;
  }

  lemma StepJoins(db: Db, op: Op, g: Uuid, u: Uuid)
    requires Accepted(Step(db, op), g, u) && !Accepted(db, g, u)
    ensures Joins(op, g, u)
  {
    hide FriendStep, GatheringStep, FeedStep, GroupStep;
    match op
    case OnFriends(f) => FriendStepJoinsNobody(db, f, g, u);
    case OnGatherings(o) => GatheringStepJoins(db, o, g, u);
    case OnFeeds(f) => FeedStepFrame(db, f); SameAccepted(db, FeedStep(db, f), g, u);
    case OnGroups(o) => GroupStepFrame(db, o); SameAccepted(db, GroupStep(db, o), g, u);
    case ChangeUsers(table) => SameAccepted(db, db.(users := table), g, u);
  }

  /** In every run, whoever takes part in a gathering has created it or accepted. */
  lemma {:induction false} RunJoins(db: Db, ops: seq<Op>, g: Uuid, u: Uuid)
    requires !Accepted(db, g, u) && forall op <- ops :: !Joins(op, g, u)
    ensures !Accepted(Run(db, ops), g, u)
  {
    hide Accepted, Joins, Step;
    if ops != [] {
      var front, last := ops[..|ops| - 1], ops[|ops| - 1];
      assert last in ops;
      RunJoins(db, front, g, u);
      if Accepted(Step(Run(db, front), last), g, u) {
        StepJoins(Run(db, front), last, g, u);
      }
    }
  }

  /** So a gathering waits for nobody, and has ended for nobody, who did not create or accept it. */
  lemma NotListedUntilJoined(db: Db, ops: seq<Op>, g: Uuid, u: Uuid, range: Range)
    requires !Accepted(db, g, u) && forall op <- ops :: !Joins(op, g, u)
    ensures g !in WaitingIn(Run(db, ops), u, range) && g !in EndedIn(Run(db, ops), u, range)
  {
    hide Joins, Run, WaitingIn, EndedIn, Accepted;
    RunJoins(db, ops, g, u);
    WaitingHas(Run(db, ops), u, range, g);
    EndedHas(Run(db, ops), u, range, g);
  }
}
