/** How large groups become, and whether their members have a group at all. */
module GroupSize {
  import opened Prelude
  import opened Tables
  import opened Social
  import opened SocialSafety

  lemma {:induction false} NewMembersSize(g: Uuid, users: seq<Uuid>)
    requires NoRepeats(users)
    ensures |NewMembers(g, users).Keys| == |users|
  {
    if users != [] {
      var front, last := users[..|users| - 1], users[|users| - 1];
      NewMembersSize(g, front);
      assert NewMembers(g, users).Keys == NewMembers(g, front).Keys + {(g, last)};
    }
  }

  lemma AddingMembers(
    members: map<(Uuid, Uuid), MemberStatus>, g: Uuid, users: seq<Uuid>, other: Uuid)
    requires NoRepeats(users) && forall u <- users :: (g, u) !in members
    ensures |AcceptedMembers(members + NewMembers(g, users), other)|
         == |AcceptedMembers(members, other)| + if other == g then |users| else 0
  {
    var rows := NewMembers(g, users);
    NewMembersSize(g, users);
    assert AcceptedMembers(rows, other) == if other == g then rows.Keys else {};
    hide NewMembers, AcceptedMembers;
    AcceptedAfterAdding(members, rows, other);
  }

  lemma AcceptedAfterAdding(
    members: map<(Uuid, Uuid), MemberStatus>, rows: map<(Uuid, Uuid), MemberStatus>, g: Uuid)
    requires members.Keys !! rows.Keys
    ensures |AcceptedMembers(members + rows, g)| == |AcceptedMembers(members, g)| + |AcceptedMembers(rows, g)|
  {
    assert AcceptedMembers(members + rows, g) == AcceptedMembers(members, g) + AcceptedMembers(rows, g);
    assert AcceptedMembers(members, g) !! AcceptedMembers(rows, g);
  }

  lemma AcceptedMembersShrink(
    members: map<(Uuid, Uuid), MemberStatus>, next: map<(Uuid, Uuid), MemberStatus>, g: Uuid)
    requires forall k | k in next && next[k].ACCEPTED? :: k in members && members[k].ACCEPTED?
    ensures |AcceptedMembers(next, g)| <= |AcceptedMembers(members, g)|
  {
    SubsetSize(AcceptedMembers(next, g), AcceptedMembers(members, g));
  }

  lemma SubsetSize<T>(a: set<T>, b: set<T>)
    requires a <= b
    ensures |a| <= |b|
  {
    assert b == a + (b - a);
  }

  /** A successful addition grows its group by the given users to ten at most, and no other group. */
  lemma AddMembersLeavesTen(db: Db, group: Uuid, inviter: Uuid, users: seq<Uuid>, g: Uuid)
    requires GroupReply(db, AddMembers(group, inviter, users)).Done?
    ensures |AcceptedMembers(GroupStep(db, AddMembers(group, inviter, users)).members, g)|
         == |AcceptedMembers(db.members, g)| + if g == group then |users| else 0
    ensures |AcceptedMembers(db.members, group)| + |users| <= 10
  {
    DistinctElements(users);
    AddingMembers(db.members, group, users, g);
  }

  /** A new group has its owner and the given friends on top of whatever rows carry its identifier. */
  lemma FoundingSize(db: Db, owner: Uuid, friends: seq<Uuid>, id: Uuid, g: Uuid)
    requires GroupReply(db, CreateGroup(owner, friends, id)).Done?
    ensures |AcceptedMembers(GroupStep(db, CreateGroup(owner, friends, id)).members, g)|
         == |AcceptedMembers(db.members, g)| + if g == id then |friends| + 1 else 0
  {
    DistinctElements([owner] + friends);
    AddingMembers(db.members, id, [owner] + friends, g);
  }

  /** No member row carries the identifier, as for one drawn at random. */
  ghost predicate Fresh(db: Db, g: Uuid) {
    forall k | k in db.members :: k.0 != g
  }

  /** A new group keeps to the limit of ten exactly when at most nine friends are asked. */
  lemma NewGroupHasTenIff(db: Db, owner: Uuid, friends: seq<Uuid>, id: Uuid)
    requires GroupReply(db, CreateGroup(owner, friends, id)).Done? && Fresh(db, id)
    ensures |AcceptedMembers(GroupStep(db, CreateGroup(owner, friends, id)).members, id)| == |friends| + 1
    ensures |AcceptedMembers(GroupStep(db, CreateGroup(owner, friends, id)).members, id)| <= 10 <==> |friends| <= 9
  {
    assert AcceptedMembers(db.members, id) == {};
    FoundingSize(db, owner, friends, id, id);
  }

  // ---- Over runs ----

  /** The call creates the group. */
  predicate Founds(db: Db, op: Op, g: Uuid) {
    op.OnGroups? && op.groupOp.CreateGroup? && op.groupOp.id == g && GroupReply(db, op.groupOp).Done?
  }

  lemma GroupStepShrinksMembers(db: Db, op: GroupOp, k: (Uuid, Uuid))
    requires (op.CreateGroup? || op.AddMembers?) ==> GroupReply(db, op).Failed?
    requires k in GroupStep(db, op).members && GroupStep(db, op).members[k].ACCEPTED?
    ensures k in db.members && db.members[k].ACCEPTED?
  {
  }

  lemma GroupStepKeepsBound(db: Db, op: GroupOp, g: Uuid, n: nat)
    requires |AcceptedMembers(db.members, g)| <= Max(10, n) && !Founds(db, OnGroups(op), g)
    ensures |AcceptedMembers(GroupStep(db, op).members, g)| <= Max(10, n)
  {
    hide AcceptedMembers, GroupStep;
    if op.CreateGroup? && GroupReply(db, op).Done? {
      FoundingSize(db, op.owner, op.friends, op.id, g);
    } else if op.AddMembers? && GroupReply(db, op).Done? {
      AddMembersLeavesTen(db, op.group, op.inviter, op.users, g);
    } else {
      var next := GroupStep(db, op).members;
      forall k | k in next && next[k].ACCEPTED? ensures k in db.members && db.members[k].ACCEPTED? {
        GroupStepShrinksMembers(db, op, k);
      }
      AcceptedMembersShrink(db.members, next, g);
    }
  }

  lemma StepKeepsBound(db: Db, op: Op, g: Uuid, n: nat)
    requires |AcceptedMembers(db.members, g)| <= Max(10, n) && !Founds(db, op, g)
    ensures |AcceptedMembers(Step(db, op).members, g)| <= Max(10, n)
  {
    hide FriendStep, GatheringStep, FeedStep, GroupStep, AcceptedMembers;
    match op
    case OnFriends(f) => FriendStepFrame(db, f);
    case OnGatherings(o) => GatheringStepFrame(db, o);
    case OnFeeds(f) => FeedStepFrame(db, f);
    case OnGroups(o) => GroupStepKeepsBound(db, o, g, n);
    case ChangeUsers(_) =>
  }

  /** Whatever is called, a group that is not created anew stays within ten or the size it started with. */
  lemma {:induction false} RunKeepsBound(db: Db, ops: seq<Op>, g: Uuid, n: nat)
    requires |AcceptedMembers(db.members, g)| <= Max(10, n)
    requires forall i | 0 <= i < |ops| :: !Founds(Run(db, ops[..i]), ops[i], g)
    ensures |AcceptedMembers(Run(db, ops).members, g)| <= Max(10, n)
  {
    hide AcceptedMembers, Founds, Step;
    if ops != [] {
      var front := ops[..|ops| - 1];
      assert forall i | 0 <= i < |front| :: front[..i] == ops[..i] && front[i] == ops[i];
      RunKeepsBound(db, front, g, n);
      StepKeepsBound(Run(db, front), ops[|front|], g, n);
    }
  }

  lemma FoundedSize(users: map<Uuid, UserRow>, ops: seq<Op>, i: nat, g: Uuid)
    requires i < |ops| && Founds(Run(NoRows(users), ops[..i]), ops[i], g)
    ensures ops[i].OnGroups? && ops[i].groupOp.CreateGroup?
    ensures Fresh(Run(NoRows(users), ops[..i]), g) ==>
              |AcceptedMembers(Run(NoRows(users), ops[..i + 1]).members, g)| == |ops[i].groupOp.friends| + 1
  {
    hide Run, AcceptedMembers, GroupStep, GroupReply, Fresh;
    var before, op := Run(NoRows(users), ops[..i]), ops[i].groupOp;
    RunAt(NoRows(users), ops, i);
    if Fresh(before, g) {
      NewGroupHasTenIff(before, op.owner, op.friends, g);
    }
  }

  /**
   Main theorem: no group outgrows ten or its own size at its creation. With a fresh identifier that
   size is the number of friends asked plus one; other groups of the run play no part.
   */
  lemma RunBoundsMembers(users: map<Uuid, UserRow>, ops: seq<Op>, i: nat, g: Uuid)
    requires i < |ops| && Founds(Run(NoRows(users), ops[..i]), ops[i], g)
    requires forall j | i < j < |ops| :: !Founds(Run(NoRows(users), ops[..j]), ops[j], g)
    ensures |AcceptedMembers(Run(NoRows(users), ops).members, g)|
         <= Max(10, |AcceptedMembers(Run(NoRows(users), ops[..i + 1]).members, g)|)
    ensures Fresh(Run(NoRows(users), ops[..i]), g) ==>
              |AcceptedMembers(Run(NoRows(users), ops[..i + 1]).members, g)| == |ops[i].groupOp.friends| + 1
  {
    hide Founds, AcceptedMembers, Step, Run, Fresh;
    var founded, rest := Run(NoRows(users), ops[..i + 1]), ops[i + 1..];
    FoundedSize(users, ops, i, g);
    assert ops == ops[..i + 1] + rest;
    RunAppend(NoRows(users), ops[..i + 1], rest);
    forall j | 0 <= j < |rest| ensures !Founds(Run(founded, rest[..j]), rest[j], g) {
      assert ops[..i + 1 + j] == ops[..i + 1] + rest[..j];
      RunAppend(NoRows(users), ops[..i + 1], rest[..j]);
    }
    RunKeepsBound(founded, rest, g, |AcceptedMembers(founded.members, g)|);
  }

  /** Members can be added to an identifier that never was a group's; there are at most ten of them. */
  lemma RunBoundsUnfounded(users: map<Uuid, UserRow>, ops: seq<Op>, g: Uuid)
    requires forall i | 0 <= i < |ops| :: !Founds(Run(NoRows(users), ops[..i]), ops[i], g)
    ensures |AcceptedMembers(Run(NoRows(users), ops).members, g)| <= 10
  {
    assert AcceptedMembers(NoRows(users).members, g) == {};
    RunKeepsBound(NoRows(users), ops, g, 0);
  }

  // ---- Eleven members ----

  /** The friend table after `owner` has asked `friends` in turn and all of them have accepted. */
  ghost predicate Befriended(db: Db, users: map<Uuid, UserRow>, owner: Uuid, friends: seq<Uuid>) {
    && db.users == users && db.groups == map[] && db.members == map[]
    && (forall i: Uuid :: i in db.friends <==> i < |friends|)
    && (forall i | i in db.friends :: db.friends[i] == FriendRow(owner, friends[i], FriendStatus.ACCEPTED))
  }

  lemma AskOne(db: Db, users: map<Uuid, UserRow>, owner: Uuid, friends: seq<Uuid>, last: Uuid)
    requires Befriended(db, users, owner, friends) && last !in friends && last != owner
    requires ActiveUser(users, last)
    ensures FriendStep(db, Request(owner, last, |friends|))
         == db.(friends := db.friends[|friends| := FriendRow(owner, last, FriendStatus.PENDING)])
  {
    assert forall i | i in db.friends :: db.friends[i].receiverId in friends;
    assert RequestReply(db, owner, last, |friends|).Done?;
  }

  lemma AnswerOne(db: Db, users: map<Uuid, UserRow>, owner: Uuid, friends: seq<Uuid>, last: Uuid)
    requires Befriended(db, users, owner, friends) && last !in friends && last != owner
    ensures var asked := db.(friends := db.friends[|friends| := FriendRow(owner, last, FriendStatus.PENDING)]);
            Befriended(FriendStep(asked, Accept(owner, last)), users, owner, friends + [last])
  {
    var asked := db.(friends := db.friends[|friends| := FriendRow(owner, last, FriendStatus.PENDING)]);
    assert forall i | i in db.friends :: db.friends[i].receiverId in friends;
    assert forall i | i in asked.friends :: Links(asked.friends[i], owner, last) <==> i == |friends|;
    assert PendingRequestReply(asked, owner, last).Done? by {
      assert Links(asked.friends[|friends|], owner, last);
    }
    var next := AfterAccept(asked, owner, last);
    assert next.friends == db.friends[|friends| := FriendRow(owner, last, FriendStatus.ACCEPTED)];
    assert FriendStep(asked, Accept(owner, last)) == next;
  }

  lemma {:induction false} BefriendAll(users: map<Uuid, UserRow>, owner: Uuid, friends: seq<Uuid>)
    returns (ops: seq<Op>)
    requires NoRepeats(friends) && owner !in friends && forall f <- friends :: ActiveUser(users, f)
    ensures Befriended(Run(NoRows(users), ops), users, owner, friends)
  {
    hide FriendStep;
    if friends == [] {
      ops := [];
    } else {
      var front, last := friends[..|friends| - 1], friends[|friends| - 1];
      assert friends == front + [last];
      var before := BefriendAll(users, owner, front);
      var ask, answer := OnFriends(Request(owner, last, |front|)), OnFriends(Accept(owner, last));
      ops := before + [ask, answer];
      AskOne(Run(NoRows(users), before), users, owner, front, last);
      AnswerOne(Run(NoRows(users), before), users, owner, front, last);
      RunAppend(NoRows(users), before, [ask, answer]);
      RunTwo(Run(NoRows(users), before), ask, answer);
    }
  }

  lemma RunTwo(db: Db, first: Op, second: Op)
    ensures Run(db, [first, second]) == Step(Step(db, first), second)
  {
    assert [first, second][..1] == [first] && [first][..0] == [];
    assert Run(db, []) == db;
    assert Run(db, [first]) == Step(db, first);
  }

  /** Any number of active users can be befriended and then made a group, so the bound is reached. */
  lemma FoundWith(users: map<Uuid, UserRow>, owner: Uuid, friends: seq<Uuid>, id: Uuid) returns (ops: seq<Op>)
    requires NoRepeats(friends) && owner !in friends && forall f <- friends :: ActiveUser(users, f)
    ensures |AcceptedMembers(Run(NoRows(users), ops).members, id)| == |friends| + 1
    ensures Run(NoRows(users), ops).groups == map[id := owner]
  {
    hide AcceptedMembers, Befriended, Run, GroupReply, Fresh;
    var before := BefriendAll(users, owner, friends);
    var db, op := Run(NoRows(users), before), CreateGroup(owner, friends, id);
    ops := before + [OnGroups(op)];
    RunSnoc(NoRows(users), before, OnGroups(op));
    CanFound(db, users, owner, friends, id);
    NewGroupHasTenIff(db, owner, friends, id);
  }

  lemma BefriendedAreFriends(db: Db, users: map<Uuid, UserRow>, owner: Uuid, friends: seq<Uuid>)
    requires Befriended(db, users, owner, friends)
    ensures AllFriends(db, owner, friends)
  {
    forall f | f in friends ensures AreFriends(db, owner, f) {
      var i :| 0 <= i < |friends| && friends[i] == f;
      assert i in db.friends && Links(db.friends[i], owner, f);
    }
  }

  lemma CanFound(db: Db, users: map<Uuid, UserRow>, owner: Uuid, friends: seq<Uuid>, id: Uuid)
    requires Befriended(db, users, owner, friends) && NoRepeats(friends) && owner !in friends
    ensures GroupReply(db, CreateGroup(owner, friends, id)).Done? && Fresh(db, id) && db.groups == map[]
  {
    hide AllFriends, Distinct;
    BefriendedAreFriends(db, users, owner, friends);
    DistinctOfNoRepeats([owner] + friends);
  }

  function ElevenUsers(row: UserRow): map<Uuid, UserRow> {
    map[0 := row, 1 := row, 2 := row, 3 := row, 4 := row, 5 := row, 6 := row, 7 := row, 8 := row, 9 := row, 10 := row]
  }

  /** A request may name ten friends: user 0 founds group 7 with users 1 to 10. */
  lemma GroupOfEleven(row: UserRow) returns (ops: seq<Op>)
    requires row.deletedAt.None?
    ensures |AcceptedMembers(Run(NoRows(ElevenUsers(row)), ops).members, 7)| == 11
  {
    ops := FoundWith(ElevenUsers(row), 0, [1, 2, 3, 4, 5, 6, 7, 8, 9, 10], 7);
  }

  // ---- Members without a group ----

  ghost predicate MembersHaveGroups(db: Db) {
    forall k | k in db.members :: k.0 in db.groups
  }

  /** The call adds somebody to a group that does not exist. */
  predicate AddsToMissing(db: Db, op: Op) {
    && op.OnGroups? && op.groupOp.AddMembers? && GroupReply(db, op.groupOp).Done?
    && op.groupOp.users != [] && op.groupOp.group !in db.groups
  }

  lemma GroupStepKeepsMembersHaveGroupsIff(db: Db, op: GroupOp)
    requires MembersHaveGroups(db)
    ensures MembersHaveGroups(GroupStep(db, op)) <==> !AddsToMissing(db, OnGroups(op))
  {
    if AddsToMissing(db, OnGroups(op)) {
      assert (op.group, op.users[0]) in GroupStep(db, op).members;
    }
  }

  /** Nothing checks that a group exists: exactly such an addition leaves members without a group. */
  lemma StepKeepsMembersHaveGroupsIff(db: Db, op: Op)
    requires MembersHaveGroups(db)
    ensures MembersHaveGroups(Step(db, op)) <==> !AddsToMissing(db, op)
  {
    hide FriendStep, GatheringStep, FeedStep, GroupStep;
    match op
    case OnFriends(f) => FriendStepFrame(db, f);
    case OnGatherings(g) => GatheringStepFrame(db, g);
    case OnFeeds(f) => FeedStepFrame(db, f);
    case OnGroups(g) => GroupStepKeepsMembersHaveGroupsIff(db, g);
    case ChangeUsers(_) =>
  }

  lemma {:induction false} MembersHaveGroupsUpTo(users: map<Uuid, UserRow>, ops: seq<Op>, j: nat)
    requires j <= |ops| && forall i | 0 <= i < j :: !AddsToMissing(Run(NoRows(users), ops[..i]), ops[i])
    ensures MembersHaveGroups(Run(NoRows(users), ops[..j]))
  {
    hide MembersHaveGroups, AddsToMissing, Step, Run;
    if j == 0 {
      NoMembersYet(users);
      assert ops[..0] == [];
    } else {
      MembersHaveGroupsUpTo(users, ops, j - 1);
      StepKeepsMembersHaveGroupsIff(Run(NoRows(users), ops[..j - 1]), ops[j - 1]);
      RunAt(NoRows(users), ops, j - 1);
    }
  }

  /** Members have groups all along a run exactly when none of its calls adds to a missing group. */
  lemma RunKeepsMembersHaveGroupsIff(users: map<Uuid, UserRow>, ops: seq<Op>)
    ensures (forall i | 0 <= i <= |ops| :: MembersHaveGroups(Run(NoRows(users), ops[..i])))
       <==> (forall i | 0 <= i < |ops| :: !AddsToMissing(Run(NoRows(users), ops[..i]), ops[i]))
  {
    hide MembersHaveGroups, AddsToMissing, Step, Run;
    var none := NoRows(users);
    if forall i | 0 <= i < |ops| :: !AddsToMissing(Run(none, ops[..i]), ops[i]) {
      forall j | 0 <= j <= |ops| ensures MembersHaveGroups(Run(none, ops[..j])) {
        MembersHaveGroupsUpTo(users, ops, j);
      }
    }
    if forall i | 0 <= i <= |ops| :: MembersHaveGroups(Run(none, ops[..i])) {
      forall i | 0 <= i < |ops| ensures !AddsToMissing(Run(none, ops[..i]), ops[i]) {
        StepKeepsMembersHaveGroupsIff(Run(none, ops[..i]), ops[i]);
        RunAt(none, ops, i);
      }
    }
  }

  lemma NoMembersYet(users: map<Uuid, UserRow>)
    ensures MembersHaveGroups(Run(NoRows(users), []))
  {
  }

  /** Two friends are enough: one of them adds the other to a group nobody created. */
  lemma MemberOfNoGroup(users: map<Uuid, UserRow>, a: Uuid, b: Uuid, g: Uuid) returns (ops: seq<Op>)
    requires a != b && ActiveUser(users, b)
    ensures var db := Run(NoRows(users), ops);
            db.groups == map[] && (g, b) in db.members && !MembersHaveGroups(db)
  {
    hide Befriended, Run, GroupReply, MembersHaveGroups;
    var before := BefriendAll(users, a, [b]);
    var db, op := Run(NoRows(users), before), AddMembers(g, a, [b]);
    ops := before + [OnGroups(op)];
    CanAdd(db, users, a, b, g);
    RunSnoc(NoRows(users), before, OnGroups(op));
    StepKeepsMembersHaveGroupsIff(db, OnGroups(op));
  }

  lemma CanAdd(db: Db, users: map<Uuid, UserRow>, a: Uuid, b: Uuid, g: Uuid)
    requires Befriended(db, users, a, [b])
    ensures GroupReply(db, AddMembers(g, a, [b])).Done? && AddsToMissing(db, OnGroups(AddMembers(g, a, [b])))
    ensures MembersHaveGroups(db) && db.groups == map[]
  {
    hide AllFriends;
    BefriendedAreFriends(db, users, a, [b]);
    assert [b][..0] == [] && Distinct([b]) == [b];
    assert AcceptedMembers(db.members, g) == {};
  }
}
