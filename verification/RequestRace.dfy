/**
 Friend requests whose check and insert are separate steps, interleaved in any way with each other
 and with the other friend calls. Only the unique (sender, receiver) key protects the table then,
 and a lookup that finds two rows may return either.
 */
module RequestRace {
  import opened Prelude
  import opened Tables
  import opened Social
  import opened SocialSafety

  /** A request that passed its check and is about to insert its row. */
  datatype InFlight = InFlight(sender: Uuid, receiver: Uuid, id: Uuid)

  datatype State = State(friends: map<Uuid, FriendRow>, inFlight: set<InFlight>)

  predicate NoLink(friends: map<Uuid, FriendRow>, a: Uuid, b: Uuid) {
    forall i | i in friends :: !Links(friends[i], a, b)
  }

  /** The check finds no row in either direction. */
  ghost predicate Checks(s: State, t: State, r: InFlight) {
    NoLink(s.friends, r.sender, r.receiver) && t == s.(inFlight := s.inFlight + {r})
  }

  /** The insert succeeds unless one of the keys is taken. */
  ghost predicate Inserts(s: State, t: State, r: InFlight) {
    && r in s.inFlight
    && t == State(
         if FriendKeyTaken(s.friends, r.id, r.sender, r.receiver) then s.friends
         else s.friends[r.id := FriendRow(r.sender, r.receiver, FriendStatus.PENDING)],
         s.inFlight - {r})
  }

  /** Whichever linking row is found, it is accepted unless it already was. */
  ghost predicate Accepts(s: State, t: State, a: Uuid, b: Uuid, found: Uuid) {
    && found in s.friends && Links(s.friends[found], a, b) && !s.friends[found].status.ACCEPTED?
    && t == s.(friends := s.friends[found := s.friends[found].(status := FriendStatus.ACCEPTED)])
  }

  /** Reject, unfriend and report look at one linking row and delete both. */
  ghost predicate Deletes(s: State, t: State, a: Uuid, b: Uuid, found: Uuid) {
    && found in s.friends && Links(s.friends[found], a, b)
    && t == s.(friends := WithoutLinks(s.friends, a, b))
  }

  ghost predicate Next(s: State, t: State) {
    || (exists r :: Checks(s, t, r))
    || (exists r :: Inserts(s, t, r))
    || (exists a: Uuid, b: Uuid, found: Uuid :: Accepts(s, t, a, b, found))
    || (exists a: Uuid, b: Uuid, found: Uuid :: Deletes(s, t, a, b, found))
  }

  ghost predicate IsRun(states: seq<State>) {
    && |states| > 0 && states[0] == State(map[], {})
    && forall i | 0 <= i < |states| - 1 :: Next(states[i], states[i + 1])
  }

  lemma NextKeepsDirections(s: State, t: State)
    requires OneRowPerDirection(s.friends) && Next(s, t)
    ensures OneRowPerDirection(t.friends)
  {
    if r :| Inserts(s, t, r) {
    } else if a: Uuid, b: Uuid, found: Uuid :| Accepts(s, t, a, b, found) {
    } else if a: Uuid, b: Uuid, found: Uuid :| Deletes(s, t, a, b, found) {
    }
  }

  /** However requests interleave, each direction of a pair has at most one row. */
  lemma {:induction false} RunKeepsDirections(states: seq<State>)
    requires IsRun(states)
    ensures OneRowPerDirection(states[|states| - 1].friends)
    decreases |states|
  {
    if |states| > 1 {
      var front := states[..|states| - 1];
      forall i | 0 <= i < |front| - 1 ensures Next(front[i], front[i + 1]) {
        assert front[i] == states[i] && front[i + 1] == states[i + 1];
      }
      RunKeepsDirections(front);
      NextKeepsDirections(states[|states| - 2], states[|states| - 1]);
    }
  }

  function LinkingRows(friends: map<Uuid, FriendRow>, a: Uuid, b: Uuid): set<Uuid> {
    set i | i in friends && Links(friends[i], a, b)
  }

  function RowsFrom(friends: map<Uuid, FriendRow>, sender: Uuid, receiver: Uuid): set<Uuid> {
    set i | i in friends && friends[i].senderId == sender && friends[i].receiverId == receiver
  }

  lemma LinksGoEitherWay(friends: map<Uuid, FriendRow>, a: Uuid, b: Uuid)
    ensures LinkingRows(friends, a, b) == RowsFrom(friends, a, b) + RowsFrom(friends, b, a)
  {
  }

  lemma OneRowEachWay(friends: map<Uuid, FriendRow>, a: Uuid, b: Uuid)
    requires OneRowPerDirection(friends)
    ensures |RowsFrom(friends, a, b)| <= 1
  {
    SingletonAtMost(RowsFrom(friends, a, b));
  }

  lemma TwoRowsAreOpposite(friends: map<Uuid, FriendRow>, a: Uuid, b: Uuid, i: Uuid, j: Uuid)
    requires OneRowPerDirection(friends) && i in LinkingRows(friends, a, b) && j in LinkingRows(friends, a, b) && i != j
    ensures friends[i].senderId == friends[j].receiverId && friends[i].receiverId == friends[j].senderId
  {
  }

  /** Hence two users are joined by at most two rows, and if by two then by opposite ones. */
  lemma AtMostTwoRows(states: seq<State>, a: Uuid, b: Uuid)
    requires IsRun(states)
    ensures var friends := states[|states| - 1].friends;
            && |LinkingRows(friends, a, b)| <= 2
            && forall i, j | i in LinkingRows(friends, a, b) && j in LinkingRows(friends, a, b) && i != j ::
                 friends[i].senderId == friends[j].receiverId && friends[i].receiverId == friends[j].senderId
  {
    RunKeepsDirections(states);
    var friends := states[|states| - 1].friends;
    OneRowEachWay(friends, a, b);
    OneRowEachWay(friends, b, a);
    LinksGoEitherWay(friends, a, b);
    forall i, j | i in LinkingRows(friends, a, b) && j in LinkingRows(friends, a, b) && i != j
      ensures friends[i].senderId == friends[j].receiverId && friends[i].receiverId == friends[j].senderId
    {
      TwoRowsAreOpposite(friends, a, b, i, j);
    }
  }

  lemma SingletonAtMost(s: set<Uuid>)
    requires forall x, y | x in s && y in s :: x == y
    ensures |s| <= 1
  {
    if x :| x in s {
      assert s == {x};
    }
  }

  /** Deleting by user ids leaves no row between the two, from any state whatsoever. */
  lemma DeleteLeavesNone(s: State, t: State, a: Uuid, b: Uuid, found: Uuid)
    requires Deletes(s, t, a, b, found)
    ensures LinkingRows(t.friends, a, b) == {}
    ensures forall i | i in s.friends && !Links(s.friends[i], a, b) :: i in t.friends && t.friends[i] == s.friends[i]
  {
  }

  /**
   An insert keeps one row per unordered pair exactly when the opposite row did not appear since
   the check: when the check would still pass, or the key stops the insert.
   */
  lemma InsertKeepsPairIff(s: State, t: State, r: InFlight)
    requires OneRowPerPair(s.friends) && Inserts(s, t, r)
    ensures OneRowPerPair(t.friends)
       <==> NoLink(s.friends, r.sender, r.receiver) || FriendKeyTaken(s.friends, r.id, r.sender, r.receiver)
  {
    if !FriendKeyTaken(s.friends, r.id, r.sender, r.receiver) && !NoLink(s.friends, r.sender, r.receiver) {
      var i :| i in s.friends && Links(s.friends[i], r.sender, r.receiver);
      assert Links(t.friends[i], t.friends[r.id].senderId, t.friends[r.id].receiverId);
    }
  }

  /** An insert whose opposite row appeared after the check, and which no key stops. */
  ghost predicate InsertsStale(s: State, t: State) {
    exists r :: Inserts(s, t, r) && !NoLink(s.friends, r.sender, r.receiver)
                && !FriendKeyTaken(s.friends, r.id, r.sender, r.receiver)
  }

  /** Every other transition keeps one row per pair. */
  lemma NextKeepsPairIff(s: State, t: State)
    requires OneRowPerPair(s.friends) && Next(s, t)
    ensures OneRowPerPair(t.friends) <==> !InsertsStale(s, t)
  {
    if r :| Inserts(s, t, r) {
      forall q | Inserts(s, t, q) ensures OneRowPerPair(t.friends) <==>
          NoLink(s.friends, q.sender, q.receiver) || FriendKeyTaken(s.friends, q.id, q.sender, q.receiver) {
        InsertKeepsPairIff(s, t, q);
      }
    } else if a: Uuid, b: Uuid, found: Uuid :| Accepts(s, t, a, b, found) {
    } else if a: Uuid, b: Uuid, found: Uuid :| Deletes(s, t, a, b, found) {
    }
  }

  /** Along a run there is one row per pair in every state exactly when no insert of it is stale. */
  lemma {:induction false} RunKeepsPairIff(states: seq<State>)
    requires IsRun(states)
    ensures (forall s <- states :: OneRowPerPair(s.friends))
       <==> (forall i | 0 <= i < |states| - 1 :: !InsertsStale(states[i], states[i + 1]))
    decreases |states|
  {
    hide InsertsStale, OneRowPerPair, Next;
    if |states| == 1 {
      NoRowsNoPairs();
    } else {
      var front, last := states[..|states| - 1], states[|states| - 1];
      assert states == front + [last];
      assert forall i | 0 <= i < |front| :: front[i] == states[i];
      RunKeepsPairIff(front);
      assert front[|front| - 1] in front;
      if OneRowPerPair(front[|front| - 1].friends) {
        NextKeepsPairIff(states[|states| - 2], last);
      }
    }
  }

  lemma NoRowsNoPairs()
    ensures OneRowPerPair(map[])
  {
  }

  // ---- Two users asking each other at the same time ----

  /** They end up with two rows. */
  function Crossed(): seq<State> {
    var p, q := InFlight(1, 2, 10), InFlight(2, 1, 11);
    var f, g := FriendRow(1, 2, FriendStatus.PENDING), FriendRow(2, 1, FriendStatus.PENDING);
    [State(map[], {}), State(map[], {p}), State(map[], {p, q}), State(map[10 := f], {q}),
     State(map[10 := f, 11 := g], {})]
  }

  /** Then the first row is accepted. */
  function HalfAccepted(): State {
    State(map[10 := FriendRow(1, 2, FriendStatus.ACCEPTED), 11 := FriendRow(2, 1, FriendStatus.PENDING)], {})
  }

  lemma CrossedRequests()
    ensures IsRun(Crossed()) && |LinkingRows(Crossed()[4].friends, 1, 2)| == 2
    ensures !OneRowPerPair(Crossed()[4].friends)
  {
    var p, q := InFlight(1, 2, 10), InFlight(2, 1, 11);
    var s := Crossed();
    assert Checks(s[0], s[1], p);
    assert Checks(s[1], s[2], q);
    assert Inserts(s[2], s[3], p);
    assert Inserts(s[3], s[4], q);
    assert LinkingRows(s[4].friends, 1, 2) == {10, 11};
    assert Links(s[4].friends[10], s[4].friends[11].senderId, s[4].friends[11].receiverId);
  }

  /** A reject that finds the other row, which is PENDING, deletes the friendship along with it. */
  lemma RejectEndsFriendship()
    ensures var states := Crossed() + [HalfAccepted(), State(map[], {})];
            && IsRun(states)
            && Deletes(HalfAccepted(), State(map[], {}), 1, 2, 11)
            && HalfAccepted().friends[11].status.PENDING?
            && Linked(HalfAccepted().friends, 1, 2, FriendStatus.ACCEPTED)
  {
    CrossedRequests();
    var crossed, half, none := Crossed(), HalfAccepted(), State(map[], {});
    assert Accepts(crossed[4], half, 1, 2, 10);
    assert WithoutLinks(half.friends, 1, 2) == map[];
    assert Deletes(half, none, 1, 2, 11);
    assert Links(half.friends[10], 1, 2);
    var states := crossed + [half, none];
    forall i | 0 <= i < |states| - 1 ensures Next(states[i], states[i + 1]) {
      if i < 4 {
        assert states[i] == crossed[i] && states[i + 1] == crossed[i + 1];
      }
    }
  }

  /** With such a pair, a reject that finds the PENDING row also deletes the friendship beside it. */
  lemma RejectMayEndFriendship(s: State, t: State, a: Uuid, b: Uuid, found: Uuid)
    requires Deletes(s, t, a, b, found) && s.friends[found].status.PENDING?
    ensures Linked(s.friends, a, b, FriendStatus.ACCEPTED)
       <==> exists i | i in s.friends :: i !in t.friends && s.friends[i].status.ACCEPTED?
  {
    if i :| i in s.friends && Links(s.friends[i], a, b) && s.friends[i].status.ACCEPTED? {
      assert i !in t.friends;
    }
  }

  // ---- A reject deletes no invitations ----

  /** An invitation to a friends' gathering waits between the two users. */
  ghost predicate FriendInvitationBetween(db: Db, a: Uuid, b: Uuid) {
    exists k: (Uuid, nat) :: PendingForFriends(db, k) && PendingBetween(db, k, a, b)
  }

  /**
   Whatever rows it deletes, a reject keeps invited users and hosts friends exactly when no invitation
   to a friends' gathering waits between the two.
   */
  lemma RejectKeepsInvitedIff(db: Db, a: Uuid, b: Uuid)
    requires InvitedAreFriends(db)
    ensures InvitedAreFriends(AfterReject(db, a, b)) <==> !FriendInvitationBetween(db, a, b)
  {
    var next := AfterReject(db, a, b);
    if k: (Uuid, nat) :| PendingForFriends(db, k) && PendingBetween(db, k, a, b) {
      assert PendingForFriends(next, k);
    } else {
      forall k: (Uuid, nat) | PendingForFriends(next, k)
        ensures AreFriends(next, next.gatherings[k.0].hostUserId, next.participations[k].participantId)
      {
        var host, guest := db.gatherings[k.0].hostUserId, db.participations[k].participantId;
        assert PendingForFriends(db, k) && !PendingBetween(db, k, a, b);
        var id :| id in db.friends && Links(db.friends[id], host, guest) && db.friends[id].status.ACCEPTED?;
        assert id in next.friends && Links(next.friends[id], host, guest);
      }
    }
  }

  /** The tables of `HalfAccepted` after user 1 invited user 2 to a gathering. */
  function Invited(): Db {
    GatheringStep(
      NoRows(map[]).(friends := HalfAccepted().friends),
      CreateGathering(GatheringInput(GatheringType.FRIEND, None, 1, "", 0), Some([2]), [], 0, 3))
  }

  /** In the run above the reject leaves user 2 invited by a user who is no friend any more. */
  lemma RejectLeavesInvitation()
    ensures InvitedAreFriends(Invited()) && !InvitedAreFriends(AfterReject(Invited(), 1, 2))
    ensures Invited().friends == HalfAccepted().friends && FriendInvitationBetween(Invited(), 1, 2)
  {
    var before := NoRows(map[]).(friends := HalfAccepted().friends);
    var op := CreateGathering(GatheringInput(GatheringType.FRIEND, None, 1, "", 0), Some([2]), [], 0, 3);
    assert Links(before.friends[10], 1, 2);
    assert AllFriends(before, 1, [2]);
    GatheringStepKeepsInvited(before, op);
    assert (3, 0) in Invited().participations;
    assert PendingForFriends(Invited(), (3, 0)) && PendingBetween(Invited(), (3, 0), 1, 2);
    RejectKeepsInvitedIff(Invited(), 1, 2);
  }
}
