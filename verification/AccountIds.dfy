/** Whether active users have different account ids: what calls, runs and the duplicate check do to that. */
module AccountIds {
  import opened Prelude
  import opened Tables
  import opened Accounts
  import opened AccountSafety

  ghost predicate OneLivePerAccountId(users: map<Uuid, UserRow>) {
    forall u, v | ActiveUser(users, u) && ActiveUser(users, v) && users[u].accountId == users[v].accountId :: u == v
  }

  /** Another active user has the account id. */
  predicate HeldByOther(users: map<Uuid, UserRow>, user: Uuid, accountId: string) {
    exists u | u in users :: ActiveUser(users, u) && u != user && users[u].accountId == accountId
  }

  /** The user and the account id that a call makes active: by restoring, registering or changing. */
  function Activated(a: Accounts, op: AccountOp): Option<(Uuid, string)> {
    var reply := ReplyTo(a, op);
    if reply.SignedIn? && op.Login? then Some((op.pick.value, a.users[op.pick.value].accountId))
    else if reply.SignedIn? && op.Register? then Some((op.id, op.profile.accountId))
    else if reply.Done? && op.ChangeAccountId? then Some((op.user, op.accountId))
    else None
  }

  predicate SharesAccountId(a: Accounts, op: AccountOp) {
    var made := Activated(a, op);
    made.Some? && HeldByOther(a.users, made.value.0, made.value.1)
  }

  /** What a call does to the active users other than the one it makes active. */
  lemma OthersStay(a: Accounts, op: AccountOp, u: Uuid)
    requires ActiveUser(Step(a, op).users, u)
    ensures (Activated(a, op).Some? && Activated(a, op).value.0 == u)
            || (ActiveUser(a.users, u) && Step(a, op).users[u].accountId == a.users[u].accountId)
  {
  }

  lemma ActivatedIsActive(a: Accounts, op: AccountOp)
    requires Activated(a, op).Some?
    ensures var made, next := Activated(a, op).value, Step(a, op).users;
            && ActiveUser(next, made.0) && next[made.0].accountId == made.1
            && forall u: Uuid | ActiveUser(a.users, u) && u != made.0 :: ActiveUser(next, u) && next[u] == a.users[u]
  {
  }

  /** Any call keeps active account ids different exactly when no other active user has the one it makes active. */
  lemma StepKeepsAccountIdsIff(a: Accounts, op: AccountOp)
    requires OneLivePerAccountId(a.users)
    ensures OneLivePerAccountId(Step(a, op).users) <==> !SharesAccountId(a, op)
  {
    hide Step, Activated;
    var made, next := Activated(a, op), Step(a, op).users;
    if made.Some? {
      ActivatedIsActive(a, op);
    }
    forall u: Uuid | ActiveUser(next, u)
      ensures (made.Some? && made.value.0 == u)
              || (ActiveUser(a.users, u) && next[u].accountId == a.users[u].accountId)
    {
      OthersStay(a, op, u);
    }
  }

  lemma {:induction false} AccountIdsUpTo(ops: seq<AccountOp>, j: nat)
    requires j <= |ops| && forall i | 0 <= i < j :: !SharesAccountId(Run(ops[..i]), ops[i])
    ensures OneLivePerAccountId(Run(ops[..j]).users)
  {
    hide OneLivePerAccountId, SharesAccountId, Step, Run;
    if j == 0 {
      NobodySharesId();
      assert ops[..0] == [];
    } else {
      AccountIdsUpTo(ops, j - 1);
      StepKeepsAccountIdsIff(Run(ops[..j - 1]), ops[j - 1]);
      RunAt(ops, j - 1);
    }
  }

  /** Active account ids differ all along a run exactly when no call of it makes a held one active. */
  lemma RunKeepsAccountIdsIff(ops: seq<AccountOp>)
    ensures (forall i | 0 <= i <= |ops| :: OneLivePerAccountId(Run(ops[..i]).users))
       <==> (forall i | 0 <= i < |ops| :: !SharesAccountId(Run(ops[..i]), ops[i]))
  {
    hide OneLivePerAccountId, SharesAccountId, Step, Run;
    if forall i | 0 <= i < |ops| :: !SharesAccountId(Run(ops[..i]), ops[i]) {
      forall j | 0 <= j <= |ops| ensures OneLivePerAccountId(Run(ops[..j]).users) {
        AccountIdsUpTo(ops, j);
      }
    }
    if forall i | 0 <= i <= |ops| :: OneLivePerAccountId(Run(ops[..i]).users) {
      forall i | 0 <= i < |ops| ensures !SharesAccountId(Run(ops[..i]), ops[i]) {
        StepKeepsAccountIdsIff(Run(ops[..i]), ops[i]);
        RunAt(ops, i);
      }
    }
  }

  lemma NobodySharesId()
    ensures OneLivePerAccountId(Run([]).users)
  {
  }

  // ---- The duplicate check ----

  /** A row of the account id was withdrawn at least thirty full days ago. */
  predicate HasExpiredRow(users: map<Uuid, UserRow>, accountId: string, now: Time) {
    exists v | v in users ::
      users[v].accountId == accountId && users[v].deletedAt.Some? && now - users[v].deletedAt.value >= 30 * DAY
  }

  /** Some row the lookup may return lets the check pass. */
  ghost predicate CheckMayPass(users: map<Uuid, UserRow>, accountId: string, now: Time) {
    exists pick :: PicksByAccountId(users, accountId, pick) && !AccountIdTaken(Row(users, pick), now)
  }

  /** With a row of the account id in the table the check can pass exactly when one of them has expired. */
  lemma CheckMayPassIff(users: map<Uuid, UserRow>, accountId: string, now: Time)
    requires exists u | u in users :: users[u].accountId == accountId
    ensures CheckMayPass(users, accountId, now) <==> HasExpiredRow(users, accountId, now)
  {
    forall v | v in users && users[v].accountId == accountId
      ensures !AccountIdTaken(Row(users, Some(v)), now)
         <==> users[v].deletedAt.Some? && now - users[v].deletedAt.value >= 30 * DAY
      ensures PicksByAccountId(users, accountId, Some(v))
    {
      if users[v].deletedAt.Some? {
        DaysBelow(now, users[v].deletedAt.value, 30);
      }
    }
  }

  /**
   A registration whose other checks pass can give out an account id twice exactly when an active row
   and an expired row both carry it.
   */
  lemma RegistrationMayShareIff(
    a: Accounts, profile: Profile, device: Device, emailPick: Option<Uuid>, id: Uuid, issued: Token, now: Time)
    requires PicksWithdrawn(a.users, profile.email, emailPick) && !RecentlyWithdrawn(Row(a.users, emailPick), now)
    requires OneLivePerAccountId(a.users) && id !in a.users
    ensures (exists pick ::
               var op := Register(profile, Some(device), emailPick, pick, id, issued, now);
               Plausible(a, op) && !OneLivePerAccountId(Step(a, op).users))
       <==> HeldByOther(a.users, id, profile.accountId) && HasExpiredRow(a.users, profile.accountId, now)
  {
    forall pick: Option<Uuid>
      ensures var op := Register(profile, Some(device), emailPick, pick, id, issued, now);
              Plausible(a, op) && !OneLivePerAccountId(Step(a, op).users)
              <==> && PicksByAccountId(a.users, profile.accountId, pick) && !AccountIdTaken(Row(a.users, pick), now)
                   && HeldByOther(a.users, id, profile.accountId)
    {
      StepKeepsAccountIdsIff(a, Register(profile, Some(device), emailPick, pick, id, issued, now));
    }
    hide Step, Plausible, OneLivePerAccountId, AccountIdTaken, HasExpiredRow, PicksByAccountId;
    if HeldByOther(a.users, id, profile.accountId) {
      CheckMayPassIff(a.users, profile.accountId, now);
    }
  }

  /** Likewise for a change by an active user who is not cooling down. */
  lemma ChangeMayShareIff(a: Accounts, user: Uuid, accountId: string, now: Time)
    requires ActiveUser(a.users, user) && !CoolingDown(a.users[user], now) && OneLivePerAccountId(a.users)
    ensures (exists pick ::
               var op := ChangeAccountId(user, accountId, pick, now);
               Plausible(a, op) && !OneLivePerAccountId(Step(a, op).users))
       <==> HeldByOther(a.users, user, accountId) && HasExpiredRow(a.users, accountId, now)
  {
    forall pick: Option<Uuid>
      ensures var op := ChangeAccountId(user, accountId, pick, now);
              Plausible(a, op) && !OneLivePerAccountId(Step(a, op).users)
              <==> && PicksByAccountId(a.users, accountId, pick) && !AccountIdTaken(Row(a.users, pick), now)
                   && HeldByOther(a.users, user, accountId)
    {
      StepKeepsAccountIdsIff(a, ChangeAccountId(user, accountId, pick, now));
    }
    hide Step, Plausible, OneLivePerAccountId, AccountIdTaken, HasExpiredRow, PicksByAccountId;
    if HeldByOther(a.users, user, accountId) {
      CheckMayPassIff(a.users, accountId, now);
    }
  }

  // ---- Two runs ----

  lemma WithdrawnAtOnce(profile: Profile)
    ensures var ops := [Registration(profile, 0, None, 0), Withdraw(0, 0)];
            PlausibleRun(ops) && Run(ops).users == map[0 := NewUser(profile, 0).(deletedAt := Some(0))]
  {
    var first, second := Registration(profile, 0, None, 0), Withdraw(0, 0);
    assert Run([]) == NOBODY && PlausibleRun([]);
    hide Run, PlausibleRun;
    RegisterNew([], profile, 0, 0);
    assert [] + [first] == [first];
    OneMore([first], second);
    assert [first] + [second] == [first, second];
  }

  /** While a row withdrawn thirty days ago is what the check looks at, its account id can be taken. */
  lemma RegisterOver(ops: seq<AccountOp>, profile: Profile, id: Uuid, p: Uuid)
    requires PlausibleRun(ops) && id !in Run(ops).users && p in Run(ops).users
    requires Run(ops).users[p].accountId == profile.accountId && Run(ops).users[p].deletedAt == Some(0)
    requires forall u | u in Run(ops).users :: Run(ops).users[u].email != profile.email
    ensures PlausibleRun(ops + [Registration(profile, id, Some(p), 30 * DAY)])
    ensures Run(ops + [Registration(profile, id, Some(p), 30 * DAY)]).users
         == Run(ops).users[id := NewUser(profile, 30 * DAY)]
  {
    assert CalcDateDiff(30 * DAY, 0) == 30;
    hide Run, PlausibleRun;
    OneMore(ops, Registration(profile, id, Some(p), 30 * DAY));
  }

  /**
   The check looks at one row that has the account id, whichever the database returns: once an
   expired id is in use again, the expired row can hide the active one.
   */
  lemma ExpiredRowHidesActive(profile: Profile, e1: string, e2: string)
    requires profile.email != e1 && profile.email != e2 && e1 != e2
    ensures var ops := [Registration(profile, 0, None, 0), Withdraw(0, 0),
                        Registration(profile.(email := e1), 1, Some(0), 30 * DAY),
                        Registration(profile.(email := e2), 2, Some(0), 30 * DAY)];
            PlausibleRun(ops) && !OneLivePerAccountId(Run(ops).users)
  {
    var ops := [Registration(profile, 0, None, 0), Withdraw(0, 0)];
    var third := Registration(profile.(email := e1), 1, Some(0), 30 * DAY);
    var fourth := Registration(profile.(email := e2), 2, Some(0), 30 * DAY);
    hide Run, PlausibleRun, Registration;
    WithdrawnAtOnce(profile);
    RegisterOver(ops, profile.(email := e1), 1, 0);
    RegisterOver(ops + [third], profile.(email := e2), 2, 0);
    var users := Run(ops + [third] + [fourth]).users;
    assert ActiveUser(users, 1) && ActiveUser(users, 2) && users[1].accountId == users[2].accountId;
    assert ops + [third] + [fourth] == [Registration(profile, 0, None, 0), Withdraw(0, 0), third, fourth];
  }

  lemma WithdrawOne(ops: seq<AccountOp>, user: Uuid, now: Time)
    requires PlausibleRun(ops) && user in Run(ops).users
    requires forall v | v in Run(ops).users :: Run(ops).users[v].deletedAt != Some(now)
    ensures PlausibleRun(ops + [Withdraw(user, now)])
    ensures Run(ops + [Withdraw(user, now)]).users
         == Run(ops).users[user := Run(ops).users[user].(deletedAt := Some(now), notificationToken := None)]
  {
    hide Run, PlausibleRun;
    OneMore(ops, Withdraw(user, now));
  }

  function Restoration(profile: Profile, p: Uuid, now: Time): AccountOp {
    Login(profile.email, profile.provider, Some(""), Some(p), "", now)
  }

  /** A login in the instant of withdrawal restores the only row of its email. */
  lemma RestoreOne(ops: seq<AccountOp>, profile: Profile, p: Uuid, now: Time)
    requires PlausibleRun(ops) && p in Run(ops).users
    requires Run(ops).users[p].provider == profile.provider && Run(ops).users[p].deletedAt == Some(now)
    requires forall u | u in Run(ops).users :: Run(ops).users[u].email == profile.email <==> u == p
    ensures PlausibleRun(ops + [Restoration(profile, p, now)])
    ensures Run(ops + [Restoration(profile, p, now)]).users
         == Run(ops).users[p := Run(ops).users[p].(deletedAt := None)]
  {
    assert CalcDateDiff(now, now) == 0;
    hide Run, PlausibleRun;
    OneMore(ops, Restoration(profile, p, now));
  }

  /** User 0 registers and withdraws; thirty days later user 1 takes the account id, withdraws, and user 2 takes it. */
  function TakenTwice(profile: Profile, e1: string, e2: string): seq<AccountOp> {
    [Registration(profile, 0, None, 0), Withdraw(0, 0)]
    + [Registration(profile.(email := e1), 1, Some(0), 30 * DAY)]
    + [Withdraw(1, 30 * DAY)]
    + [Registration(profile.(email := e2), 2, Some(0), 30 * DAY)]
  }

  lemma TakenTwiceEnds(profile: Profile, e1: string, e2: string)
    requires profile.email != e1 && profile.email != e2 && e1 != e2
    ensures PlausibleRun(TakenTwice(profile, e1, e2))
    ensures Run(TakenTwice(profile, e1, e2)).users
         == map[0 := NewUser(profile, 0).(deletedAt := Some(0)),
                1 := NewUser(profile.(email := e1), 30 * DAY).(deletedAt := Some(30 * DAY)),
                2 := NewUser(profile.(email := e2), 30 * DAY)]
  {
    hide Run, PlausibleRun, Registration;
    var ops := [Registration(profile, 0, None, 0), Withdraw(0, 0)];
    WithdrawnAtOnce(profile);
    RegisterOver(ops, profile.(email := e1), 1, 0);
    ops := ops + [Registration(profile.(email := e1), 1, Some(0), 30 * DAY)];
    WithdrawOne(ops, 1, 30 * DAY);
    ops := ops + [Withdraw(1, 30 * DAY)];
    RegisterOver(ops, profile.(email := e2), 2, 0);
  }

  /**
   No registration of the run meets an active row with its account id, and yet the login that restores
   user 1 leaves two active users with one.
   */
  lemma RestoredRowShares(profile: Profile, e1: string, e2: string)
    requires profile.email != e1 && profile.email != e2 && e1 != e2
    ensures var ops, login := TakenTwice(profile, e1, e2), Restoration(profile.(email := e1), 1, 30 * DAY);
            && PlausibleRun(ops + [login])
            && OneLivePerAccountId(Run(ops).users) && !OneLivePerAccountId(Run(ops + [login]).users)
  {
    hide Run, PlausibleRun, TakenTwice;
    var ops, login := TakenTwice(profile, e1, e2), Restoration(profile.(email := e1), 1, 30 * DAY);
    TakenTwiceEnds(profile, e1, e2);
    RestoreOne(ops, profile.(email := e1), 1, 30 * DAY);
    var users := Run(ops + [login]).users;
    assert ActiveUser(users, 1) && ActiveUser(users, 2) && users[1].accountId == users[2].accountId;
  }
}
