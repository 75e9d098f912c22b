/** What every run of the account services keeps, and what its history decides. */
module AccountSafety {
  import opened Prelude
  import opened Tables
  import opened Accounts

  // ---- Keys and owners of tokens ----

  /** The unique keys of the user table, for rows with a withdrawal date. */
  ghost predicate WithdrawalsDiffer(users: map<Uuid, UserRow>) {
    forall u, v | u in users && v in users && u != v
                  && !ActiveUser(users, u) && users[u].deletedAt == users[v].deletedAt ::
      users[u].email != users[v].email && users[u].accountId != users[v].accountId
  }

  /** Only active users hold refresh tokens. */
  ghost predicate TokensOfLiveUsers(a: Accounts) {
    forall k | k in a.tokens :: ActiveUser(a.users, k.0)
  }

  ghost predicate AccountsSafe(a: Accounts) {
    WithdrawalsDiffer(a.users) && TokensOfLiveUsers(a)
  }

  lemma StepKeepsWithdrawalsDiffer(a: Accounts, op: AccountOp)
    requires WithdrawalsDiffer(a.users)
    ensures WithdrawalsDiffer(Step(a, op).users)
  {
  }

  lemma StepKeepsTokenOwners(a: Accounts, op: AccountOp)
    requires TokensOfLiveUsers(a)
    ensures TokensOfLiveUsers(Step(a, op))
  {
  }

  lemma StepKeepsAccountsSafe(a: Accounts, op: AccountOp)
    requires AccountsSafe(a)
    ensures AccountsSafe(Step(a, op))
  {
    hide Step, WithdrawalsDiffer, TokensOfLiveUsers;
    StepKeepsWithdrawalsDiffer(a, op);
    StepKeepsTokenOwners(a, op);
  }

  lemma {:induction false} RunKeepsAccountsSafe(ops: seq<AccountOp>)
    ensures AccountsSafe(Run(ops))
  {
    if ops != [] {
      RunKeepsAccountsSafe(ops[..|ops| - 1]);
      StepKeepsAccountsSafe(Run(ops[..|ops| - 1]), ops[|ops| - 1]);
    }
  }

  // ---- Which account a login is about ----

  /** The account an email stands for: an active one, or else the last withdrawn within thirty days. */
  ghost predicate Answers(users: map<Uuid, UserRow>, email: string, now: Time, u: Uuid) {
    && u in users && users[u].email == email
    && (ActiveUser(users, u)
        || (now - users[u].deletedAt.value < 30 * DAY
            && forall v | v in users && users[v].email == email && v != u ::
                 !ActiveUser(users, v) && users[v].deletedAt.value < users[u].deletedAt.value))
  }

  lemma PickAnswers(users: map<Uuid, UserRow>, email: string, now: Time, p: Uuid)
    requires WithdrawalsDiffer(users) && PicksByEmail(users, email, Some(p))
    ensures Answers(users, email, now, p) <==> ActiveUser(users, p) || CalcDateDiff(now, users[p].deletedAt.value) < 30
    ensures forall u | Answers(users, email, now, u) :: Answers(users, email, now, p)
  {
    if users[p].deletedAt.Some? {
      DaysBelow(now, users[p].deletedAt.value, 30);
    }
    forall v | v in users && users[v].email == email && v != p
      ensures !ActiveUser(users, p) ==> !ActiveUser(users, v) && users[v].deletedAt.value < users[p].deletedAt.value
    {
      assert NotBehind(users[p].deletedAt, users[v].deletedAt);
    }
  }

  /** A login signs in to such an account when it is of the same provider, and restores it if need be. */
  lemma LoginFollowsAnswer(a: Accounts, op: AccountOp)
    requires WithdrawalsDiffer(a.users) && op.Login? && op.device.Some? && Plausible(a, op)
    ensures ReplyTo(a, op).SignedIn? || ReplyTo(a, op) == Failed(UserNotRegistered)
            || ReplyTo(a, op) == Failed(RegisteredOtherPlatform)
    ensures ReplyTo(a, op) == Failed(UserNotRegistered)
       <==> forall u :: !Answers(a.users, op.email, op.now, u)
    ensures ReplyTo(a, op) == Failed(RegisteredOtherPlatform) ==>
              exists u :: Answers(a.users, op.email, op.now, u) && a.users[u].provider != op.provider
    ensures ReplyTo(a, op).SignedIn? ==>
              var u := ReplyTo(a, op).user;
              && Answers(a.users, op.email, op.now, u) && a.users[u].provider == op.provider
              && Step(a, op).users == a.users[u := a.users[u].(deletedAt := None)]
              && ActiveUser(Step(a, op).users, u)
  {
    if op.pick.Some? {
      PickAnswers(a.users, op.email, op.now, op.pick.value);
    }
  }

  // ---- One active account per email ----

  ghost predicate OneLivePerEmail(users: map<Uuid, UserRow>) {
    forall u, v | ActiveUser(users, u) && ActiveUser(users, v) && users[u].email == users[v].email :: u == v
  }

  /** Then at most one account answers, so a login does not depend on the order of rows. */
  lemma AnswerIsUnique(users: map<Uuid, UserRow>, email: string, now: Time, u: Uuid, v: Uuid)
    requires OneLivePerEmail(users) && Answers(users, email, now, u) && Answers(users, email, now, v)
    ensures u == v
  {
  }

  /** A registration that goes through keeps the email to one account exactly when no active row has it. */
  lemma RegisterKeepsEmailIff(a: Accounts, op: AccountOp)
    requires OneLivePerEmail(a.users) && op.Register? && ReplyTo(a, op).SignedIn?
    ensures OneLivePerEmail(Step(a, op).users)
       <==> forall u | ActiveUser(a.users, u) :: a.users[u].email != op.profile.email
  {
    var next := Step(a, op).users;
    forall u: Uuid | ActiveUser(a.users, u) ensures ActiveUser(next, u) && u != op.id && next[u] == a.users[u] { }
    assert ActiveUser(next, op.id) && next[op.id].email == op.profile.email;
  }

  lemma OneMore(ops: seq<AccountOp>, op: AccountOp)
    requires PlausibleRun(ops) && Plausible(Run(ops), op)
    ensures PlausibleRun(ops + [op]) && Run(ops + [op]) == Step(Run(ops), op)
  {
    var longer := ops + [op];
    assert longer[..|ops|] == ops;
    forall i | 0 <= i < |longer| ensures Plausible(Run(longer[..i]), longer[i]) {
      if i < |ops| { assert longer[..i] == ops[..i]; }
    }
  }

  function Registration(profile: Profile, id: Uuid, accountPick: Option<Uuid>, now: Time): AccountOp {
    Register(profile, Some(""), None, accountPick, id, "", now)
  }

  /** The check of a registration looks at withdrawn rows only: active ones do not stand in its way. */
  lemma RegisterNew(ops: seq<AccountOp>, profile: Profile, id: Uuid, now: Time)
    requires PlausibleRun(ops) && id !in Run(ops).users
    requires forall u | u in Run(ops).users && Run(ops).users[u].email == profile.email :: ActiveUser(Run(ops).users, u)
    requires forall u | u in Run(ops).users :: Run(ops).users[u].accountId != profile.accountId
    ensures PlausibleRun(ops + [Registration(profile, id, None, now)])
    ensures Run(ops + [Registration(profile, id, None, now)]).users == Run(ops).users[id := NewUser(profile, now)]
  {
    hide Run, PlausibleRun;
    OneMore(ops, Registration(profile, id, None, now));
  }

  /** The same email twice makes two active accounts. */
  lemma RegisterTwice(profile: Profile, other: string, now: Time)
    requires profile.accountId != other
    ensures var ops := [Registration(profile, 0, None, now), Registration(profile.(accountId := other), 1, None, now)];
            PlausibleRun(ops) && !OneLivePerEmail(Run(ops).users)
  {
    var first, second := Registration(profile, 0, None, now), Registration(profile.(accountId := other), 1, None, now);
    assert Run([]) == NOBODY && PlausibleRun([]);
    hide Run, PlausibleRun, Registration;
    RegisterNew([], profile, 0, now);
    assert [] + [first] == [first];
    RegisterNew([first], profile.(accountId := other), 1, now);
    assert [first] + [second] == [first, second];
    assert ActiveUser(Run([first, second]).users, 0) && ActiveUser(Run([first, second]).users, 1);
  }

  /** A registration of an email that an active account has. */
  predicate SharesEmail(a: Accounts, op: AccountOp) {
    && op.Register? && ReplyTo(a, op).SignedIn?
    && exists u | u in a.users :: ActiveUser(a.users, u) && a.users[u].email == op.profile.email
  }

  /** No other call, a restoring login included, makes two active accounts of one email. */
  lemma StepKeepsEmailsIff(a: Accounts, op: AccountOp)
    requires OneLivePerEmail(a.users) && Plausible(a, op)
    ensures OneLivePerEmail(Step(a, op).users) <==> !SharesEmail(a, op)
  {
    if op.Register? && ReplyTo(a, op).SignedIn? {
      hide Step, ReplyTo, Plausible, OneLivePerEmail;
      RegisterKeepsEmailIff(a, op);
    } else if op.Login? && ReplyTo(a, op).SignedIn? {
      LoginKeepsOneLive(a, op);
    }
  }

  lemma RunAt(ops: seq<AccountOp>, i: nat)
    requires i < |ops|
    ensures Run(ops[..i + 1]) == Step(Run(ops[..i]), ops[i])
  {
    assert ops[..i + 1][..i] == ops[..i];
  }

  lemma {:induction false} EmailsUpTo(ops: seq<AccountOp>, j: nat)
    requires PlausibleRun(ops) && j <= |ops| && forall i | 0 <= i < j :: !SharesEmail(Run(ops[..i]), ops[i])
    ensures OneLivePerEmail(Run(ops[..j]).users)
  {
    hide OneLivePerEmail, SharesEmail, Step, Plausible, Run;
    if j == 0 {
      NobodyShares();
      assert ops[..0] == [];
    } else {
      EmailsUpTo(ops, j - 1);
      StepKeepsEmailsIff(Run(ops[..j - 1]), ops[j - 1]);
      RunAt(ops, j - 1);
    }
  }

  /** Emails have one active account all along a run exactly when no registration shares one. */
  lemma RunKeepsEmailsIff(ops: seq<AccountOp>)
    requires PlausibleRun(ops)
    ensures (forall i | 0 <= i <= |ops| :: OneLivePerEmail(Run(ops[..i]).users))
       <==> (forall i | 0 <= i < |ops| :: !SharesEmail(Run(ops[..i]), ops[i]))
  {
    hide OneLivePerEmail, SharesEmail, Step, Plausible, Run;
    if forall i | 0 <= i < |ops| :: !SharesEmail(Run(ops[..i]), ops[i]) {
      forall j | 0 <= j <= |ops| ensures OneLivePerEmail(Run(ops[..j]).users) {
        EmailsUpTo(ops, j);
      }
    }
    if forall i | 0 <= i <= |ops| :: OneLivePerEmail(Run(ops[..i]).users) {
      forall i | 0 <= i < |ops| ensures !SharesEmail(Run(ops[..i]), ops[i]) {
        StepKeepsEmailsIff(Run(ops[..i]), ops[i]);
        RunAt(ops, i);
      }
    }
  }

  lemma NobodyShares()
    ensures OneLivePerEmail(Run([]).users)
  {
  }

  /** Registrations follow the advice of a login with the same email in the same state. */
  ghost predicate Advised(a: Accounts, op: AccountOp) {
    op.Register? ==> exists login: AccountOp ::
      && login.Login? && login.email == op.profile.email && Plausible(a, login)
      && ReplyTo(a, login) == Failed(UserNotRegistered)
  }

  ghost predicate AdvisedRun(ops: seq<AccountOp>) {
    forall i | 0 <= i < |ops| :: Plausible(Run(ops[..i]), ops[i]) && Advised(Run(ops[..i]), ops[i])
  }

  lemma AdvisedIsNew(a: Accounts, op: AccountOp)
    requires WithdrawalsDiffer(a.users) && op.Register? && Advised(a, op)
    ensures forall u | ActiveUser(a.users, u) :: a.users[u].email != op.profile.email
  {
    var login: AccountOp :| login.Login? && login.email == op.profile.email && Plausible(a, login)
                            && ReplyTo(a, login) == Failed(UserNotRegistered);
    LoginFollowsAnswer(a, login);
    forall u: Uuid | ActiveUser(a.users, u) ensures a.users[u].email != op.profile.email {
      assert !Answers(a.users, login.email, login.now, u);
    }
  }

  lemma LoginKeepsOneLive(a: Accounts, op: AccountOp)
    requires OneLivePerEmail(a.users) && Plausible(a, op) && op.Login? && ReplyTo(a, op).SignedIn?
    ensures OneLivePerEmail(Step(a, op).users)
  {
    var p := op.pick.value;
    forall u: Uuid | ActiveUser(a.users, u) && a.users[u].email == a.users[p].email ensures u == p {
      assert NotBehind(a.users[p].deletedAt, a.users[u].deletedAt);
    }
  }

  lemma StepKeepsOneLive(a: Accounts, op: AccountOp)
    requires AccountsSafe(a) && OneLivePerEmail(a.users) && Plausible(a, op) && Advised(a, op)
    ensures OneLivePerEmail(Step(a, op).users)
  {
    if op.Register? && ReplyTo(a, op).SignedIn? {
      hide Step, ReplyTo, Plausible, Advised;
      AdvisedIsNew(a, op);
      RegisterKeepsEmailIff(a, op);
    } else if op.Login? && ReplyTo(a, op).SignedIn? {
      hide Step, ReplyTo, Plausible, Advised;
      LoginKeepsOneLive(a, op);
    }
  }

  /** Main theorem: in a run of advised registrations every email has at most one active account. */
  lemma {:induction false} RunKeepsOneLive(ops: seq<AccountOp>)
    requires AdvisedRun(ops)
    ensures OneLivePerEmail(Run(ops).users)
  {
    if ops != [] {
      var front := ops[..|ops| - 1];
      assert forall i | 0 <= i < |front| :: front[..i] == ops[..i];
      RunKeepsOneLive(front);
      RunKeepsAccountsSafe(front);
      StepKeepsOneLive(Run(front), ops[|front|]);
    }
  }

  // ---- Refresh tokens ----

  datatype TokenEvent =
    | Issued(key: (Uuid, Device), token: Token)
    | Revoked(key: (Uuid, Device))
    | RevokedAll(user: Uuid)

  /** What a call did to the refresh tokens. */
  function EventOf(a: Accounts, op: AccountOp): Option<TokenEvent> {
    var reply := ReplyTo(a, op);
    if reply.SignedIn? then Some(Issued((reply.user, op.device.value), reply.token))
    else if reply.Done? && op.Logout? then Some(Revoked((op.user, op.device.value)))
    else if reply.Done? && op.Withdraw? then Some(RevokedAll(op.user))
    else None
  }

  function History(ops: seq<AccountOp>): seq<TokenEvent> {
    if ops == [] then []
    else
      var front := ops[..|ops| - 1];
      var event := EventOf(Run(front), ops[|ops| - 1]);
      if event.Some? then History(front) + [event.value] else History(front)
  }

  predicate Touches(e: TokenEvent, key: (Uuid, Device)) {
    match e
    case Issued(k, _) => k == key
    case Revoked(k) => k == key
    case RevokedAll(u) => u == key.0
  }

  /** The token was issued for the key and nothing has happened to the key since. */
  ghost predicate Current(history: seq<TokenEvent>, key: (Uuid, Device), token: Token) {
    exists i | 0 <= i < |history| ::
      history[i] == Issued(key, token) && forall j | i < j < |history| :: !Touches(history[j], key)
  }

  lemma CurrentSnoc(history: seq<TokenEvent>, e: TokenEvent, key: (Uuid, Device), token: Token)
    ensures Current(history + [e], key, token)
       <==> e == Issued(key, token) || (!Touches(e, key) && Current(history, key, token))
  {
    var longer := history + [e];
    assert longer[|history|] == e;
    if !Touches(e, key) && Current(history, key, token) {
      var i :| 0 <= i < |history| && history[i] == Issued(key, token)
               && forall j | i < j < |history| :: !Touches(history[j], key);
      assert longer[i] == history[i];
    }
    assert forall j | 0 <= j < |history| :: longer[j] == history[j];
  }

  /** A call leaves the tokens it does not touch. */
  lemma StepFollowsEvent(a: Accounts, op: AccountOp, key: (Uuid, Device), token: Token)
    ensures var event, next := EventOf(a, op), Step(a, op).tokens;
            (key in next && next[key] == token)
            <==> (event == Some(Issued(key, token))
                  || ((event.None? || !Touches(event.value, key)) && key in a.tokens && a.tokens[key] == token))
  {
  }

  /** The stored tokens are the current ones. */
  lemma {:induction false} StoredIsCurrent(ops: seq<AccountOp>, key: (Uuid, Device), token: Token)
    ensures key in Run(ops).tokens && Run(ops).tokens[key] == token <==> Current(History(ops), key, token)
  {
    if ops != [] {
      var front, op := ops[..|ops| - 1], ops[|ops| - 1];
      StoredIsCurrent(front, key, token);
      StepFollowsEvent(Run(front), op, key, token);
      hide Current, Touches, EventOf, Step;
      var event := EventOf(Run(front), op);
      if event.Some? {
        CurrentSnoc(History(front), event.value, key, token);
      }
    }
  }

  /** Main theorem: a refresh goes through exactly with the token that the history leaves current. */
  lemma RefreshIffCurrent(
    ops: seq<AccountOp>, token: Token, user: Uuid, device: Device, issued: Token)
    ensures ReplyTo(Run(ops), Refresh(Some(token), Some(user), Some(device), issued)).SignedIn?
       <==> token != "" && Current(History(ops), (user, device), token)
    ensures ReplyTo(Run(ops), Refresh(Some(token), Some(user), Some(device), issued)).SignedIn?
         ==> ActiveUser(Run(ops).users, user)
  {
    StoredIsCurrent(ops, (user, device), token);
    RunKeepsAccountsSafe(ops);
  }

  /** No token is issued twice. */
  ghost predicate TokensAreFresh(history: seq<TokenEvent>) {
    forall i, j | 0 <= i < j < |history| ::
      history[i].Issued? && history[j].Issued? ==> history[i].token != history[j].token
  }

  /**
   When no token is issued twice, one that was rotated, logged out or withdrawn is never accepted
   again, on whatever device and whatever the verifier takes it for, not even after a restore.
   */
  lemma SupersededIsRefused(
    ops: seq<AccountOp>, i: nat, j: nat, decoded: Option<Uuid>, device: Option<Device>, issued: Token)
    requires TokensAreFresh(History(ops)) && i < j < |History(ops)|
    requires History(ops)[i].Issued? && Touches(History(ops)[j], History(ops)[i].key)
    ensures ReplyTo(Run(ops), Refresh(Some(History(ops)[i].token), decoded, device, issued)).Failed?
  {
    hide Run, History;
    if decoded.Some? && device.Some? {
      StoredIsCurrent(ops, (decoded.value, device.value), History(ops)[i].token);
    }
  }

  // ---- The cooldown of account ids ----

  predicate ChangesId(a: Accounts, op: AccountOp, user: Uuid) {
    op.ChangeAccountId? && op.user == user && ReplyTo(a, op).Done?
  }

  /** Nothing else moves the date of the last change, and nothing moves the date of creation. */
  lemma StepKeepsDates(a: Accounts, op: AccountOp, user: Uuid)
    requires user in a.users
    ensures user in Step(a, op).users && Step(a, op).users[user].createdAt == a.users[user].createdAt
    ensures Step(a, op).users[user].updatedAt == if ChangesId(a, op, user) then op.now else a.users[user].updatedAt
  {
  }

  /** From a change onwards the date of the last change does not go back. */
  lemma {:induction false} ChangeHolds(ops: seq<AccountOp>, i: nat, j: nat, user: Uuid)
    requires i < j <= |ops| && ChangesId(Run(ops[..i]), ops[i], user)
    requires Run(ops[..i]).users[user].createdAt < ops[i].now
    ensures var state := Run(ops[..j]);
            && user in state.users && state.users[user].createdAt < ops[i].now <= state.users[user].updatedAt
    decreases j
  {
    var before, op := Run(ops[..j - 1]), ops[j - 1];
    assert ops[..j][..j - 1] == ops[..j - 1];
    if i < j - 1 {
      ChangeHolds(ops, i, j - 1, user);
      DaysBelow(if op.ChangeAccountId? then op.now else 0, before.users[user].updatedAt, 30);
    }
    StepKeepsDates(before, op, user);
  }

  /**
   Main theorem: after a change made later than the account was created, every further change of the
   same user comes at least thirty days later, whatever happens in between.
   */
  lemma ChangesAreMonthsApart(ops: seq<AccountOp>, i: nat, j: nat, user: Uuid)
    requires i < j < |ops| && ChangesId(Run(ops[..i]), ops[i], user) && ChangesId(Run(ops[..j]), ops[j], user)
    requires Run(ops[..i]).users[user].createdAt < ops[i].now
    ensures ops[j].now - ops[i].now >= 30 * DAY
  {
    ChangeHolds(ops, i, j, user);
    DaysBelow(ops[j].now, Run(ops[..j]).users[user].updatedAt, 30);
  }

  /** The next attempt after a change is held back exactly when it is early and the change was no first one. */
  lemma NextChangeCoolsDownIff(a: Accounts, first: AccountOp, second: AccountOp, user: Uuid)
    requires ChangesId(a, first, user) && second.ChangeAccountId? && second.user == user
    ensures (exists n :: ReplyTo(Step(a, first), second) == Failed(AccountIdCooldown(n)))
       <==> a.users[user].createdAt != first.now && second.now - first.now < 30 * DAY
  {
    DaysBelow(second.now, first.now, 30);
    var reply := ReplyTo(Step(a, first), second);
    if a.users[user].createdAt != first.now && second.now - first.now < 30 * DAY {
      assert reply == Failed(AccountIdCooldown(30 - CalcDateDiff(second.now, first.now)));
    }
  }

  /** A change of an active user who is not cooling down, to an id that no row has. */
  lemma ChangeFreely(ops: seq<AccountOp>, user: Uuid, accountId: string, now: Time)
    requires PlausibleRun(ops) && ActiveUser(Run(ops).users, user) && !CoolingDown(Run(ops).users[user], now)
    requires forall u | u in Run(ops).users :: Run(ops).users[u].accountId != accountId
    ensures var op := ChangeAccountId(user, accountId, None, now);
            && PlausibleRun(ops + [op]) && ChangesId(Run(ops), op, user)
            && Run(ops + [op]).users
            == Run(ops).users[user := Run(ops).users[user].(accountId := accountId, updatedAt := now)]
  {
    hide Run, PlausibleRun;
    OneMore(ops, ChangeAccountId(user, accountId, None, now));
  }

  /** A new user who changes their account id in the instant of creation may change it again at once. */
  lemma TwoChangesAtOnce(profile: Profile, second: string, third: string)
    requires profile.accountId != second && second != third && third != profile.accountId
    ensures var register := Registration(profile, 0, None, 0);
            var change, again := ChangeAccountId(0, second, None, 0), ChangeAccountId(0, third, None, 1);
            && PlausibleRun([register, change, again])
            && ChangesId(Run([register]), change, 0) && ChangesId(Run([register, change]), again, 0)
            && again.now - change.now < 30 * DAY
  {
    var register := Registration(profile, 0, None, 0);
    var change, again := ChangeAccountId(0, second, None, 0), ChangeAccountId(0, third, None, 1);
    assert Run([]) == NOBODY && PlausibleRun([]);
    hide Run, PlausibleRun, Registration, ChangesId;
    RegisterNew([], profile, 0, 0);
    assert [] + [register] == [register];
    ChangeFreely([register], 0, second, 0);
    assert [register] + [change] == [register, change];
    ChangeFreely([register, change], 0, third, 1);
    assert [register, change] + [again] == [register, change, again];
  }
}
