/**
 What the group calls achieve: when each goes through, whose membership it changes and how, what undoes
 what, and what a report of a group means for later additions.
 */
module GroupEffects {
  import opened Prelude
  import opened Tables
  import opened Social
  import opened SocialSafety

  // ---- Memberships ----

  /** Exactly these users join the group, as accepted members; every other membership stays. */
  ghost predicate Join(
    members: map<(Uuid, Uuid), MemberStatus>, next: map<(Uuid, Uuid), MemberStatus>, group: Uuid, users: seq<Uuid>)
  {
    && (forall u <- users :: (group, u) !in members)
    && (forall k: (Uuid, Uuid) :: k in next <==> k in members || (k.0 == group && k.1 in users))
    && (forall k | k in members :: next[k] == members[k])
    && (forall k | k in next && k !in members :: next[k] == MemberStatus.ACCEPTED)
  }

  /** No two of the listed users are the same. */
  lemma DistinctIff(users: seq<Uuid>)
    ensures Distinct(users) == users <==> NoRepeats(users)
  {
    DistinctElements(users);
    if NoRepeats(users) {
      DistinctOfNoRepeats(users);
    }
  }

  // ---- Creation ----

  /** A group can be created with friends of the owner, each named once and the owner not among them. */
  lemma CreateGroupIff(db: Db, owner: Uuid, friends: seq<Uuid>, id: Uuid)
    ensures GroupReply(db, CreateGroup(owner, friends, id)).Done?
       <==> && (forall f <- friends :: AreFriends(db, owner, f)) && id !in db.groups
            && NoRepeats(friends) && owner !in friends
            && (forall u <- [owner] + friends :: (id, u) !in db.members)
    ensures GroupReply(db, CreateGroup(owner, friends, id)) == Failed(FriendshipRequired)
       <==> exists f <- friends :: !AreFriends(db, owner, f)
  {
    hide AreFriends;
    DistinctIff([owner] + friends);
    OwnerAndFriends(owner, friends);
  }

  lemma OwnerAndFriends(owner: Uuid, friends: seq<Uuid>)
    ensures NoRepeats([owner] + friends) <==> NoRepeats(friends) && owner !in friends
  {
    var all := [owner] + friends;
    assert forall i | 0 <= i < |friends| :: all[i + 1] == friends[i];
    if NoRepeats(all) {
      forall i, j | 0 <= i < j < |friends| ensures friends[i] != friends[j] {
        assert all[i + 1] != all[j + 1];
      }
      forall i | 0 <= i < |friends| ensures friends[i] != owner {
        assert all[0] != all[i + 1];
      }
    }
  }

  /** The owner and the friends are its members; nobody else is, and no other group is affected. */
  lemma CreatedGroupHas(db: Db, owner: Uuid, friends: seq<Uuid>, id: Uuid)
    requires GroupReply(db, CreateGroup(owner, friends, id)).Done?
    ensures var next := GroupStep(db, CreateGroup(owner, friends, id));
            && id !in db.groups && next.groups == db.groups[id := owner]
            && Join(db.members, next.members, id, [owner] + friends)
            && next == db.(groups := next.groups, members := next.members)
  {
    hide NewMembers, AllFriends, Distinct;
  }

  // ---- Additions ----

  /** Friends of the inviter can be added, each once, as long as no row of theirs is there and ten suffice. */
  lemma AddMembersIff(db: Db, group: Uuid, inviter: Uuid, users: seq<Uuid>)
    ensures GroupReply(db, AddMembers(group, inviter, users)).Done?
       <==> && (forall u <- users :: AreFriends(db, inviter, u)) && NoRepeats(users)
            && (forall u <- users :: (group, u) !in db.members)
            && |AcceptedMembers(db.members, group)| + |users| <= 10
  {
    hide AreFriends, AcceptedMembers;
    DistinctIff(users);
    forall u | u in users && (group, u) in db.members
      ensures HasMemberAmong(db, group, users, db.members[(group, u)]) { }
  }

  /** Why an addition is refused, in the order of the checks. */
  lemma AddMembersErrors(db: Db, group: Uuid, inviter: Uuid, users: seq<Uuid>)
    requires forall u <- users :: AreFriends(db, inviter, u)
    ensures GroupReply(db, AddMembers(group, inviter, users)) != Failed(FriendshipRequired)
    ensures GroupReply(db, AddMembers(group, inviter, users)) == Failed(ReportedUserCannotInvite)
       <==> exists u <- users :: (group, u) in db.members && db.members[(group, u)] == MemberStatus.REPORTED
    ensures GroupReply(db, AddMembers(group, inviter, users)) == Failed(GroupMemberLimitExceeded)
       <==> (forall u <- users :: (group, u) !in db.members) && |AcceptedMembers(db.members, group)| + |users| > 10
  {
    hide AreFriends, AcceptedMembers;
    forall u | u in users && (group, u) in db.members
      ensures HasMemberAmong(db, group, users, db.members[(group, u)]) { }
  }

  /** Exactly the given users join. */
  lemma AddedGroupHas(db: Db, group: Uuid, inviter: Uuid, users: seq<Uuid>)
    requires GroupReply(db, AddMembers(group, inviter, users)).Done?
    ensures var next := GroupStep(db, AddMembers(group, inviter, users));
            next == db.(members := next.members) && Join(db.members, next.members, group, users)
  {
    AddMembersIff(db, group, inviter, users);
    hide NewMembers, AllFriends, Distinct, AcceptedMembers, AddMembersReply;
  }

  // ---- What undoes what ----

  /** Whoever was added and leaves leaves the tables as they were before. */
  lemma AddThenLeave(db: Db, group: Uuid, inviter: Uuid, u: Uuid)
    requires Safe(db) && GroupReply(db, AddMembers(group, inviter, [u])).Done?
    ensures var mid := GroupStep(db, AddMembers(group, inviter, [u]));
            GroupReply(mid, LeaveGroup(group, u)).Done? && GroupStep(mid, LeaveGroup(group, u)) == db
  {
    var mid := GroupStep(db, AddMembers(group, inviter, [u]));
    SafeParts(db);
    AddedGroupHas(db, group, inviter, [u]);
    hide Safe, AddMembersReply;
    assert u in [u] && (group, u) in mid.members && (group, u) !in db.members;
    LeavingRestores(db, mid, group, u);
  }

  lemma LeavingRestores(db: Db, mid: Db, group: Uuid, u: Uuid)
    requires OwnersTakePart(db) && mid == db.(members := mid.members) && Join(db.members, mid.members, group, [u])
    ensures GroupReply(mid, LeaveGroup(group, u)).Done? && GroupStep(mid, LeaveGroup(group, u)) == db
  {
    assert u in [u];
    assert AfterLeaveGroup(mid, group, u).members == db.members;
  }

  /** No gathering refers to a missing group. */
  ghost predicate GroupsOfGatherings(db: Db) {
    forall g | g in db.gatherings && db.gatherings[g].groupId.Some? :: db.gatherings[g].groupId.value in db.groups
  }

  lemma GatheringStepKeepsGroups(db: Db, op: GatheringOp)
    requires GroupsOfGatherings(db)
    ensures GroupsOfGatherings(GatheringStep(db, op))
  {
    GatheringStepFrame(db, op);
    hide AllFriends, Invitations, Invitees;
  }

  lemma GroupStepKeepsGroups(db: Db, op: GroupOp)
    requires GroupsOfGatherings(db)
    ensures GroupsOfGatherings(GroupStep(db, op))
  {
    hide NewMembers, AllFriends, AddMembersReply, MemberKeyTaken;
  }

  lemma StepKeepsGroups(db: Db, op: Op)
    requires GroupsOfGatherings(db)
    ensures GroupsOfGatherings(Step(db, op))
  {
    hide FriendStep, GatheringStep, FeedStep, GroupStep;
    match op
    case OnFriends(o) => FriendStepFrame(db, o);
    case OnGatherings(o) => GatheringStepKeepsGroups(db, o);
    case OnFeeds(o) => FeedStepFrame(db, o);
    case OnGroups(o) => GroupStepKeepsGroups(db, o);
    case ChangeUsers(_) =>
  }

  /** In every run a gathering's group exists: deleting a group takes the reference out of its gatherings. */
  lemma {:induction false} RunKeepsGroups(users: map<Uuid, UserRow>, ops: seq<Op>)
    ensures GroupsOfGatherings(Run(NoRows(users), ops))
  {
    hide Step;
    if ops != [] {
      RunKeepsGroups(users, ops[..|ops| - 1]);
      StepKeepsGroups(Run(NoRows(users), ops[..|ops| - 1]), ops[|ops| - 1]);
    }
  }

  /** Deleting a group just created brings the tables back. */
  lemma CreateThenDelete(db: Db, owner: Uuid, friends: seq<Uuid>, id: Uuid)
    requires GroupsOfGatherings(db) && (forall u :: (id, u) !in db.members)
    requires GroupReply(db, CreateGroup(owner, friends, id)).Done?
    ensures var mid := GroupStep(db, CreateGroup(owner, friends, id));
            GroupReply(mid, DeleteGroup(id, owner)).Done? && GroupStep(mid, DeleteGroup(id, owner)) == db
  {
    var mid := GroupStep(db, CreateGroup(owner, friends, id));
    CreatedGroupHas(db, owner, friends, id);
    hide CreateGroupReply;
    DeletingRestores(db, mid, owner, [owner] + friends, id);
  }

  lemma DeletingRestores(db: Db, mid: Db, owner: Uuid, users: seq<Uuid>, id: Uuid)
    requires GroupsOfGatherings(db) && (forall u :: (id, u) !in db.members) && id !in db.groups
    requires mid == db.(groups := db.groups[id := owner], members := mid.members)
    requires Join(db.members, mid.members, id, users)
    ensures GroupReply(mid, DeleteGroup(id, owner)).Done? && GroupStep(mid, DeleteGroup(id, owner)) == db
  {
    var next := AfterDeleteGroup(mid, id);
    assert forall k: (Uuid, Uuid) | k in db.members :: k == (k.0, k.1);
    assert next.groups == db.groups && next.gatherings == db.gatherings;
    assert next.members == db.members;
  }

  // ---- Reports ----

  /** A report needs a membership of the reporter and a new report. */
  lemma ReportGroupIff(db: Db, reporter: Uuid, group: Uuid, id: Uuid)
    ensures GroupReply(db, ReportGroup(reporter, group, id)).Done?
       <==> (group, reporter) in db.members && id !in db.reports
  {
  }

  /** It takes the reporter, and nobody else, from the accepted members, and leaves the row behind as REPORTED. */
  lemma ReportedGroupHas(db: Db, reporter: Uuid, group: Uuid, id: Uuid, g: Uuid)
    requires GroupReply(db, ReportGroup(reporter, group, id)).Done?
    ensures var next := GroupStep(db, ReportGroup(reporter, group, id));
            && AcceptedMembers(next.members, g) == AcceptedMembers(db.members, g) - {(group, reporter)}
            && next.members == db.members[(group, reporter) := MemberStatus.REPORTED]
            && next.reports == db.reports[id := ReportRow(reporter, group, ReportType.GROUP)]
  {
  }

  /** The call takes the user out of the group. */
  predicate Removes(op: Op, group: Uuid, u: Uuid) {
    && op.OnGroups?
    && ((op.groupOp.LeaveGroup? && op.groupOp.group == group && op.groupOp.user == u)
        || (op.groupOp.DeleteGroup? && op.groupOp.group == group))
  }

  lemma StepKeepsReported(db: Db, op: Op, group: Uuid, u: Uuid)
    requires (group, u) in db.members && db.members[(group, u)].REPORTED? && !Removes(op, group, u)
    ensures (group, u) in Step(db, op).members && Step(db, op).members[(group, u)].REPORTED?
  {
    hide FriendStep, GatheringStep, FeedStep, GroupStep;
    match op
    case OnFriends(o) => FriendStepFrame(db, o);
    case OnGatherings(o) => GatheringStepFrame(db, o);
    case OnFeeds(o) => FeedStepFrame(db, o);
    case OnGroups(o) => GroupStepKeepsRow(db, o, group, u); ReportedStaysReported(db, o, (group, u));
    case ChangeUsers(_) =>
  }

  lemma GroupStepKeepsRow(db: Db, op: GroupOp, group: Uuid, u: Uuid)
    requires (group, u) in db.members && !Removes(OnGroups(op), group, u)
    ensures (group, u) in GroupStep(db, op).members
  {
    hide NewMembers, AllFriends, AddMembersReply, MemberKeyTaken;
  }

  lemma {:induction false} RunKeepsReported(db: Db, ops: seq<Op>, group: Uuid, u: Uuid)
    requires (group, u) in db.members && db.members[(group, u)].REPORTED?
    requires forall op <- ops :: !Removes(op, group, u)
    ensures (group, u) in Run(db, ops).members && Run(db, ops).members[(group, u)].REPORTED?
  {
    hide Step, Removes;
    if ops != [] {
      assert ops[|ops| - 1] in ops;
      RunKeepsReported(db, ops[..|ops| - 1], group, u);
      StepKeepsReported(Run(db, ops[..|ops| - 1]), ops[|ops| - 1], group, u);
    }
  }

  /**
   Main theorem: whoever reported a group cannot be added to it in any further run that does not take
   them out of it, not even among others, and does not count towards its ten members.
   */
  lemma ReporterIsNotReadded(
    db: Db, reporter: Uuid, group: Uuid, id: Uuid, ops: seq<Op>, inviter: Uuid, users: seq<Uuid>)
    requires GroupReply(db, ReportGroup(reporter, group, id)).Done? && reporter in users
    requires forall op <- ops :: !Removes(op, group, reporter)
    ensures var later := Run(GroupStep(db, ReportGroup(reporter, group, id)), ops);
            && GroupReply(later, AddMembers(group, inviter, users)).Failed?
            && ((forall u <- users :: AreFriends(later, inviter, u)) ==>
                  GroupReply(later, AddMembers(group, inviter, users)) == Failed(ReportedUserCannotInvite))
            && (group, reporter) !in AcceptedMembers(later.members, group)
  {
    hide Run, AreFriends;
    var next := GroupStep(db, ReportGroup(reporter, group, id));
    ReportedGroupHas(db, reporter, group, id, group);
    hide GroupStep;
    RunKeepsReported(next, ops, group, reporter);
    AddMembersIff(Run(next, ops), group, inviter, users);
    if forall u <- users :: AreFriends(Run(next, ops), inviter, u) {
      AddMembersErrors(Run(next, ops), group, inviter, users);
    }
  }
}
