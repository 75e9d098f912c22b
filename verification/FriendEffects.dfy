/**
 What the friend calls achieve: when each goes through, what it does to everybody's list of friends
 and of requests, and what undoes what.
 */
module FriendEffects {
  import opened Prelude
  import opened Tables
  import opened Social
  import opened SocialSafety
  import opened FeedQueries
  import opened GatheringQueries
  import opened UserQueries

  // ---- When the calls go through ----

  /** A request goes through when no row joins the two yet, in either direction, and the receiver is active. */
  lemma RequestIff(db: Db, a: Uuid, b: Uuid, id: Uuid)
    ensures FriendReply(db, Request(a, b, id)).Done?
       <==> && (forall f | f in db.friends :: !Links(db.friends[f], a, b))
            && b in db.users && db.users[b].deletedAt.None? && id !in db.friends
  {
    var statuses := {FriendStatus.ACCEPTED, FriendStatus.PENDING, FriendStatus.REPORTED};
    forall f | f in db.friends && Links(db.friends[f], a, b)
      ensures Linked(db.friends, a, b, db.friends[f].status) && db.friends[f].status in statuses { }
  }

  /** Why it is refused. The answer for reported users is never given. */
  lemma RequestErrors(db: Db, a: Uuid, b: Uuid, id: Uuid)
    requires Safe(db)
    ensures FriendReply(db, Request(a, b, id)) == Failed(AlreadyFriends) <==> AreFriends(db, a, b)
    ensures FriendReply(db, Request(a, b, id)) == Failed(AlreadyExistRequest)
       <==> exists f | f in db.friends :: Links(db.friends[f], a, b) && db.friends[f].status.PENDING?
    ensures FriendReply(db, Request(a, b, id)) != Failed(ReportedUserCannotRequest)
    ensures FriendReply(db, Request(a, b, id)) == Failed(UserNotFound)
       <==> (forall f | f in db.friends :: !Links(db.friends[f], a, b)) && !ActiveUser(db.users, b)
  {
    forall f | f in db.friends && Links(db.friends[f], a, b)
      ensures forall g | g in db.friends && Links(db.friends[g], a, b) :: g == f
      ensures !db.friends[f].status.REPORTED? && Linked(db.friends, a, b, db.friends[f].status)
    {
      OnlyLink(db, a, b, f);
    }
  }

  /** Accepting and rejecting go through, for either of the two, exactly while a request waits between them. */
  lemma AnswerIff(db: Db, a: Uuid, b: Uuid)
    requires Safe(db)
    ensures FriendReply(db, Accept(a, b)).Done?
       <==> exists f | f in db.friends :: Links(db.friends[f], a, b) && db.friends[f].status.PENDING?
    ensures FriendReply(db, Reject(a, b)) == FriendReply(db, Accept(a, b)) == FriendReply(db, Accept(b, a))
    ensures FriendReply(db, Accept(a, b)) == Failed(AlreadyFriends) <==> AreFriends(db, a, b)
  {
    forall f | f in db.friends && Links(db.friends[f], a, b)
      ensures forall g | g in db.friends && Links(db.friends[g], a, b) :: g == f
      ensures !db.friends[f].status.REPORTED? && Links(db.friends[f], b, a)
    {
      OnlyLink(db, a, b, f);
    }
    SameEitherWay(db, a, b);
  }

  lemma SameEitherWay(db: Db, a: Uuid, b: Uuid)
    ensures AreFriends(db, a, b) <==> AreFriends(db, b, a)
    ensures PendingRequestReply(db, a, b) == PendingRequestReply(db, b, a)
  {
    assert forall f | f in db.friends :: Links(db.friends[f], a, b) <==> Links(db.friends[f], b, a);
  }

  /** Unfriending goes through exactly for friends; reporting needs a new report of a friend not yet blocked. */
  lemma PartIff(db: Db, a: Uuid, b: Uuid, id: Uuid)
    ensures FriendReply(db, Unfriend(a, b)).Done? <==> AreFriends(db, a, b)
    ensures FriendReply(db, Unfriend(a, b)) == FriendReply(db, Unfriend(b, a))
    ensures FriendReply(db, ReportFriend(a, b, id)).Done?
       <==> AreFriends(db, a, b) && id !in db.reports && (a, b) !in db.blockedUsers
    ensures FriendReply(db, ReportFriend(a, b, id)) == Failed(FriendNotFound) <==> !AreFriends(db, a, b)
  {
    SameEitherWay(db, a, b);
  }

  // ---- What undoes what ----

  /** Rejecting a request, from either side, brings back the tables from before it. */
  lemma RequestThenReject(db: Db, a: Uuid, b: Uuid, id: Uuid)
    requires FriendReply(db, Request(a, b, id)).Done?
    ensures var mid := FriendStep(db, Request(a, b, id));
            && FriendReply(mid, Reject(a, b)).Done? && FriendStep(mid, Reject(a, b)) == db
            && FriendReply(mid, Reject(b, a)).Done? && FriendStep(mid, Reject(b, a)) == db
  {
    RequestIff(db, a, b, id);
    var mid := FriendStep(db, Request(a, b, id));
    assert mid == db.(friends := db.friends[id := FriendRow(a, b, FriendStatus.PENDING)]);
    hide FriendStep;
    OnlyThatRow(db, mid, a, b, id);
    SameEitherWay(mid, a, b);
  }

  lemma OnlyThatRow(db: Db, mid: Db, a: Uuid, b: Uuid, id: Uuid)
    requires mid == db.(friends := db.friends[id := FriendRow(a, b, FriendStatus.PENDING)]) && id !in db.friends
    requires forall f | f in db.friends :: !Links(db.friends[f], a, b)
    ensures PendingRequestReply(mid, a, b).Done?
    ensures FriendStep(mid, Reject(a, b)) == db && FriendStep(mid, Reject(b, a)) == db
  {
    assert WithoutLinks(mid.friends, a, b) == db.friends && WithoutLinks(mid.friends, b, a) == db.friends;
    assert id in mid.friends && Links(mid.friends[id], a, b);
    SameEitherWay(mid, a, b);
  }

  /** After a request and its acceptance the two are friends, joined by that one row. */
  lemma RequestThenAccept(db: Db, a: Uuid, b: Uuid, id: Uuid)
    requires FriendReply(db, Request(a, b, id)).Done?
    ensures var mid := FriendStep(db, Request(a, b, id));
            && FriendReply(mid, Accept(a, b)).Done?
            && FriendStep(mid, Accept(a, b)) == db.(friends := db.friends[id := FriendRow(a, b, FriendStatus.ACCEPTED)])
            && AreFriends(FriendStep(mid, Accept(a, b)), a, b)
  {
    RequestIff(db, a, b, id);
    var mid := FriendStep(db, Request(a, b, id));
    assert mid == db.(friends := db.friends[id := FriendRow(a, b, FriendStatus.PENDING)]);
    OnlyThatRow(db, mid, a, b, id);
    var next := db.(friends := db.friends[id := FriendRow(a, b, FriendStatus.ACCEPTED)]);
    assert AfterAccept(mid, a, b).friends == next.friends;
    assert id in next.friends && Links(next.friends[id], a, b);
  }

  /** Parting two friends brings the friend table back to what it was before they got together. */
  lemma TogetherThenApart(db: Db, a: Uuid, b: Uuid, id: Uuid, op: FriendOp)
    requires FriendReply(db, Request(a, b, id)).Done? && Parts(op, a, b)
    requires op.ReportFriend? ==> op.id !in db.reports && (op.reporter, op.reported) !in db.blockedUsers
    ensures var together := FriendStep(FriendStep(db, Request(a, b, id)), Accept(a, b));
            && FriendReply(together, op).Done? && FriendStep(together, op).friends == db.friends
  {
    RequestIff(db, a, b, id);
    RequestThenAccept(db, a, b, id);
    var together := FriendStep(FriendStep(db, Request(a, b, id)), Accept(a, b));
    hide FriendReply, FriendStep, AreFriends;
    SameEitherWay(together, a, b);
    ApartAgain(db, together, a, b, id, op);
  }

  lemma ApartAgain(db: Db, together: Db, a: Uuid, b: Uuid, id: Uuid, op: FriendOp)
    requires together == db.(friends := db.friends[id := FriendRow(a, b, FriendStatus.ACCEPTED)])
    requires forall f | f in db.friends :: !Links(db.friends[f], a, b)
    requires id !in db.friends && Parts(op, a, b) && AreFriends(together, a, b) && AreFriends(together, b, a)
    requires op.ReportFriend? ==> op.id !in db.reports && (op.reporter, op.reported) !in db.blockedUsers
    ensures FriendReply(together, op).Done? && FriendStep(together, op).friends == db.friends
  {
    hide AreFriends;
    assert WithoutLinks(together.friends, a, b) == db.friends && WithoutLinks(together.friends, b, a) == db.friends;
  }

  /** Parted users may ask each other again at once, even when one has reported the other. */
  lemma PartedMayAskAgain(db: Db, op: FriendOp, a: Uuid, b: Uuid, id: Uuid)
    requires Parts(op, a, b) && FriendReply(db, op).Done?
    ensures FriendReply(FriendStep(db, op), Request(a, b, id)).Done?
       <==> b in db.users && db.users[b].deletedAt.None? && id !in FriendStep(db, op).friends
  {
    PartingEndsFriendship(db, op, a, b);
    RequestIff(FriendStep(db, op), a, b, id);
    assert FriendStep(db, op).users == db.users;
  }

  // ---- Everybody's lists ----

  /** A row between two users, in the columns that make it a friendship or a waiting request. */
  lemma FriendHas(db: Db, u: Uuid, v: Uuid)
    ensures v in FriendsOf(db, u)
       <==> && v in db.users && db.users[v].deletedAt.None? && v != u
            && exists f | f in db.friends ::
                 || db.friends[f] == FriendRow(u, v, FriendStatus.ACCEPTED)
                 || db.friends[f] == FriendRow(v, u, FriendStatus.ACCEPTED)
  {
    FriendsByColumn(db, u, v);
  }

  /** One row more or another status: only the lists of its two users move. */
  ghost predicate OneRowDiffers(db: Db, next: Db, id: Uuid) {
    && next.users == db.users
    && forall f | f != id :: (f in next.friends <==> f in db.friends)
                             && (f in db.friends ==> next.friends[f] == db.friends[f])
  }

  lemma SameFriendsElsewhere(db: Db, next: Db, id: Uuid, u: Uuid, v: Uuid)
    requires OneRowDiffers(db, next, id)
    requires id in db.friends ==> !Links(db.friends[id], u, v)
    requires id in next.friends ==> !Links(next.friends[id], u, v)
    ensures v in FriendsOf(next, u) <==> v in FriendsOf(db, u)
  {
    if AreFriends(db, u, v) {
      var f :| f in db.friends && Links(db.friends[f], u, v) && db.friends[f].status.ACCEPTED?;
      assert f in next.friends && next.friends[f] == db.friends[f];
    }
    if AreFriends(next, u, v) {
      var f :| f in next.friends && Links(next.friends[f], u, v) && next.friends[f].status.ACCEPTED?;
      assert f in db.friends;
    }
  }

  /** A request waits on the sent list of its sender and the received list of its receiver, and nowhere else. */
  lemma RequestLists(db: Db, a: Uuid, b: Uuid, id: Uuid, u: Uuid)
    requires FriendReply(db, Request(a, b, id)).Done?
    ensures var next := FriendStep(db, Request(a, b, id));
            && PendingRequests(next, u, true) == PendingRequests(db, u, true) + If(u == a, id)
            && PendingRequests(next, u, false)
            == PendingRequests(db, u, false) + If(u == b && ActiveUser(db.users, a), id)
            && id !in PendingRequests(db, u, true) + PendingRequests(db, u, false)
            && FriendsOf(next, u) == FriendsOf(db, u)
  {
    RequestIff(db, a, b, id);
    var next := FriendStep(db, Request(a, b, id));
    assert next == db.(friends := db.friends[id := FriendRow(a, b, FriendStatus.PENDING)]);
    hide FriendStep, FriendReply;
    forall v: Uuid ensures v in FriendsOf(next, u) <==> v in FriendsOf(db, u) {
      PendingRowIsNoFriendship(db, next, id, u, v);
    }
    PendingGrows(db, next, a, b, id, u);
  }

  lemma PendingRowIsNoFriendship(db: Db, next: Db, id: Uuid, u: Uuid, v: Uuid)
    requires next == db.(friends := next.friends) && OneRowDiffers(db, next, id)
    requires id in db.friends ==> db.friends[id].status.PENDING?
    requires id in next.friends ==> next.friends[id].status.PENDING?
    ensures v in FriendsOf(next, u) <==> v in FriendsOf(db, u)
  {
    if AreFriends(db, u, v) {
      var f :| f in db.friends && Links(db.friends[f], u, v) && db.friends[f].status.ACCEPTED?;
      assert f in next.friends && next.friends[f] == db.friends[f];
    }
  }

  lemma PendingGrows(db: Db, next: Db, a: Uuid, b: Uuid, id: Uuid, u: Uuid)
    requires id !in db.friends && next == db.(friends := db.friends[id := FriendRow(a, b, FriendStatus.PENDING)])
    ensures PendingRequests(next, u, true)
         == PendingRequests(db, u, true) + If(u == a && ActiveUser(db.users, b), id)
    ensures PendingRequests(next, u, false)
         == PendingRequests(db, u, false) + If(u == b && ActiveUser(db.users, a), id)
  {
  }

  /** Accepting takes the request off both lists and puts each of the two, while active, on the other's friends. */
  lemma AcceptLists(db: Db, a: Uuid, b: Uuid, u: Uuid) returns (id: Uuid)
    requires Safe(db) && FriendReply(db, Accept(a, b)).Done?
    ensures id in db.friends && Links(db.friends[id], a, b) && db.friends[id].status.PENDING?
    ensures var next := FriendStep(db, Accept(a, b));
            && PendingRequests(next, u, true) == PendingRequests(db, u, true) - {id}
            && PendingRequests(next, u, false) == PendingRequests(db, u, false) - {id}
            && FriendsOf(next, u) == FriendsOf(db, u)
               + If(u == a && b != a && ActiveUser(db.users, b), b) + If(u == b && b != a && ActiveUser(db.users, a), a)
  {
    hide FriendStep, FriendReply, FriendRowsSafe, PendingRequests, FriendsOf;
    id := AcceptTurnsPending(db, a, b);
    hide Safe;
    var next := FriendStep(db, Accept(a, b));
    PendingEnds(db, next, id, u);
    forall v: Uuid
      ensures v in FriendsOf(next, u)
         <==> (|| v in FriendsOf(db, u)
               || (v != u && ActiveUser(db.users, v) && ((u == a && v == b) || (u == b && v == a))))
    {
      JoinsFriends(db, next, id, a, b, u, v);
    }
  }

  lemma JoinsFriends(db: Db, next: Db, id: Uuid, a: Uuid, b: Uuid, u: Uuid, v: Uuid)
    requires OneRowDiffers(db, next, id) && id in db.friends && id in next.friends
    requires Links(db.friends[id], a, b)
    requires next.friends[id] == db.friends[id].(status := FriendStatus.ACCEPTED)
    ensures v in FriendsOf(next, u)
       <==> (|| v in FriendsOf(db, u)
             || (v != u && ActiveUser(db.users, v) && ((u == a && v == b) || (u == b && v == a))))
  {
    if (u == a && v == b) || (u == b && v == a) {
      assert Links(next.friends[id], u, v) && next.friends[id].status.ACCEPTED?;
    } else {
      SameFriendsElsewhere(db, next, id, u, v);
    }
  }

  lemma PendingEnds(db: Db, next: Db, id: Uuid, u: Uuid)
    requires OneRowDiffers(db, next, id) && (id in next.friends ==> !next.friends[id].status.PENDING?)
    ensures PendingRequests(next, u, true) == PendingRequests(db, u, true) - {id}
    ensures PendingRequests(next, u, false) == PendingRequests(db, u, false) - {id}
    ensures id in db.friends && !db.friends[id].status.PENDING? ==>
              id !in PendingRequests(db, u, true) && id !in PendingRequests(db, u, false)
  {
  }

  /** Rejecting takes the request off both lists and changes nobody's friends. */
  lemma RejectLists(db: Db, a: Uuid, b: Uuid, u: Uuid) returns (id: Uuid)
    requires Safe(db) && FriendReply(db, Reject(a, b)).Done?
    ensures id in db.friends && Links(db.friends[id], a, b) && db.friends[id].status.PENDING?
    ensures var next := FriendStep(db, Reject(a, b));
            && PendingRequests(next, u, true) == PendingRequests(db, u, true) - {id}
            && PendingRequests(next, u, false) == PendingRequests(db, u, false) - {id}
            && FriendsOf(next, u) == FriendsOf(db, u)
  {
    id := RejectRemovesPending(db, a, b);
    var next := FriendStep(db, Reject(a, b));
    hide FriendStep, FriendReply, Safe;
    PendingEnds(db, next, id, u);
    forall v: Uuid ensures v in FriendsOf(next, u) <==> v in FriendsOf(db, u) {
      PendingRowIsNoFriendship(db, next, id, u, v);
    }
  }

  /** While the request waits, each of the two finds the other in a search, as asked or asking, unless blocked. */
  lemma RequestShowsInSearch(db: Db, a: Uuid, b: Uuid, id: Uuid, matches: string -> bool)
    requires Safe(db) && FriendReply(db, Request(a, b, id)).Done? && a != b
    ensures var next := FriendStep(db, Request(a, b, id));
            && Tagged(next, a, b) == SearchedUser(b, SENT) && Tagged(next, b, a) == SearchedUser(a, RECEIVED)
            && Tagged(db, a, b) == SearchedUser(b, NONE) && Tagged(db, b, a) == SearchedUser(a, NONE)
            && (b in Searched(next, a, matches) <==> (a, b) !in db.blockedUsers && matches(db.users[b].accountId))
            && (a in Searched(next, b, matches)
                <==> (b, a) !in db.blockedUsers && ActiveUser(db.users, a) && matches(db.users[a].accountId))
  {
    hide FriendReply, Safe, Tagged, Searched;
    RequestIff(db, a, b, id);
    var next := FriendStep(db, Request(a, b, id));
    assert next == db.(friends := db.friends[id := FriendRow(a, b, FriendStatus.PENDING)]);
    TagsOfRequest(db, next, a, b, id);
    SearchedWhenAsked(db, next, a, b, id, a, b, matches);
    SearchedWhenAsked(db, next, a, b, id, b, a, matches);
  }

  lemma TagsOfRequest(db: Db, next: Db, a: Uuid, b: Uuid, id: Uuid)
    requires next == db.(friends := db.friends[id := FriendRow(a, b, FriendStatus.PENDING)]) && a != b
    requires forall f | f in db.friends :: !Links(db.friends[f], a, b)
    ensures Tagged(next, a, b) == SearchedUser(b, SENT) && Tagged(next, b, a) == SearchedUser(a, RECEIVED)
    ensures Tagged(db, a, b) == SearchedUser(b, NONE) && Tagged(db, b, a) == SearchedUser(a, NONE)
  {
    assert next.friends[id] == FriendRow(a, b, FriendStatus.PENDING);
    assert forall f | f in db.friends :: !Links(db.friends[f], b, a);
  }

  lemma SearchedWhenAsked(
    db: Db, next: Db, a: Uuid, b: Uuid, id: Uuid, u: Uuid, v: Uuid, matches: string -> bool)
    requires next == db.(friends := db.friends[id := FriendRow(a, b, FriendStatus.PENDING)])
    requires u != v && forall f | f in db.friends :: !Links(db.friends[f], u, v)
    ensures v in Searched(next, u, matches)
       <==> (u, v) !in db.blockedUsers && ActiveUser(db.users, v) && matches(db.users[v].accountId)
  {
    assert !AreFriends(next, u, v);
  }

  /** Friends do not find each other in a search. */
  lemma FriendsAreNotSearched(db: Db, a: Uuid, b: Uuid, matches: string -> bool)
    requires AreFriends(db, a, b)
    ensures b !in Searched(db, a, matches) && a !in Searched(db, b, matches)
  {
    SameEitherWay(db, a, b);
  }

  /**
   Parting takes back exactly the invitations that wait between the two: PENDING rows of one of them in
   a gathering the other hosts.
   */
  lemma PartingInvitations(db: Db, op: FriendOp, a: Uuid, b: Uuid, k: (Uuid, nat))
    requires Parts(op, a, b) && FriendReply(db, op).Done? && k in db.participations
    ensures var next, row := FriendStep(db, op), db.participations[k];
            var taken := && row.status == ParticipationStatus.PENDING && k.0 in db.gatherings
                         && ((row.participantId == a && db.gatherings[k.0].hostUserId == b)
                             || (row.participantId == b && db.gatherings[k.0].hostUserId == a));
            && next.participations.Keys <= db.participations.Keys
            && (k in next.participations <==> !taken)
            && (k in next.participations ==> next.participations[k] == row)
  {
    hide FriendStep, FriendReply, Parts;
    PartingParticipations(db, op, a, b);
  }

  lemma PartingParticipations(db: Db, op: FriendOp, a: Uuid, b: Uuid)
    requires Parts(op, a, b) && FriendReply(db, op).Done?
    ensures FriendStep(db, op).participations == WithoutPendingBetween(db, a, b)
  {
    hide FriendReply, WithoutPendingBetween, WithoutLinks;
    EitherWayPending(db, a, b);
  }

  lemma EitherWayPending(db: Db, a: Uuid, b: Uuid)
    ensures WithoutPendingBetween(db, a, b) == WithoutPendingBetween(db, b, a)
  {
    assert forall k | k in db.participations :: PendingBetween(db, k, a, b) <==> PendingBetween(db, k, b, a);
  }

  /** So nobody leaves a gathering they have accepted: all waiting and ended lists stay. */
  lemma PartingKeepsGatherings(db: Db, op: FriendOp, a: Uuid, b: Uuid, u: Uuid, range: Range)
    requires Parts(op, a, b) && FriendReply(db, op).Done?
    ensures WaitingIn(FriendStep(db, op), u, range) == WaitingIn(db, u, range)
    ensures EndedIn(FriendStep(db, op), u, range) == EndedIn(db, u, range)
  {
    var next := FriendStep(db, op);
    FriendStepFrame(db, op);
    forall k | k in db.participations
      ensures k in next.participations ==> next.participations[k] == db.participations[k]
      ensures db.participations[k].status.ACCEPTED? ==> k in next.participations
    {
      PartingInvitations(db, op, a, b, k);
    }
    assert next.participations.Keys <= db.participations.Keys;
    hide FriendStep, FriendReply, Parts;
    forall g: Uuid ensures TakesPart(next, g, u) <==> TakesPart(db, g, u) { }
    assert Mine(next, u) == Mine(db, u);
    assert Ended(next, Mine(next, u)) == Ended(db, Mine(db, u));
  }

  /** Parting takes the two off each other's friends, and changes no other list of friends and no list of requests. */
  lemma PartingLists(db: Db, op: FriendOp, a: Uuid, b: Uuid, u: Uuid)
    requires Safe(db) && Parts(op, a, b) && FriendReply(db, op).Done?
    ensures var next := FriendStep(db, op);
            && FriendsOf(next, u) == FriendsOf(db, u) - If(u == a, b) - If(u == b, a)
            && PendingRequests(next, u, true) == PendingRequests(db, u, true)
            && PendingRequests(next, u, false) == PendingRequests(db, u, false)
  {
    hide FriendStep, FriendReply, Parts, PendingRequests, FriendsOf, Safe;
    var id := PartingRemovesOne(db, op, a, b);
    var next := FriendStep(db, op);
    PendingEnds(db, next, id, u);
    forall v: Uuid
      ensures v in FriendsOf(next, u) <==> v in FriendsOf(db, u) && !(u == a && v == b) && !(u == b && v == a)
    {
      PartsFriends(db, next, id, a, b, u, v);
    }
  }

  lemma PartsFriends(db: Db, next: Db, id: Uuid, a: Uuid, b: Uuid, u: Uuid, v: Uuid)
    requires id in db.friends && Links(db.friends[id], a, b)
    requires next.friends == db.friends - {id} && next.users == db.users
    requires forall f | f in db.friends && f != id :: !Links(db.friends[f], a, b)
    ensures v in FriendsOf(next, u) <==> v in FriendsOf(db, u) && !(u == a && v == b) && !(u == b && v == a)
  {
    if !((u == a && v == b) || (u == b && v == a)) {
      SameFriendsElsewhere(db, next, id, u, v);
    }
  }

  lemma PartingRemovesOne(db: Db, op: FriendOp, a: Uuid, b: Uuid) returns (id: Uuid)
    requires Safe(db) && Parts(op, a, b) && FriendReply(db, op).Done?
    ensures id in db.friends && Links(db.friends[id], a, b) && db.friends[id].status.ACCEPTED?
    ensures FriendStep(db, op).friends == db.friends - {id} && FriendStep(db, op).users == db.users
    ensures forall f | f in db.friends && f != id :: !Links(db.friends[f], a, b)
  {
    hide Safe, WithoutLinks;
    SameEitherWay(db, a, b);
    id :| id in db.friends && Links(db.friends[id], a, b) && db.friends[id].status.ACCEPTED?;
    OnlyLink(db, a, b, id);
    LinkGone(db.friends, a, b, id);
  }

  lemma LinkGone(friends: map<Uuid, FriendRow>, a: Uuid, b: Uuid, id: Uuid)
    requires id in friends && Links(friends[id], a, b)
    requires forall f | f in friends && f != id :: !Links(friends[f], a, b)
    ensures WithoutLinks(friends, a, b) == WithoutLinks(friends, b, a) == friends - {id}
  {
  }
}
