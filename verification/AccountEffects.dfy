/**
 What signing in, refreshing, logging out, withdrawing and registering achieve, over every run: when
 each goes through, which tokens it leaves behind, and what undoes what.
 */
module AccountEffects {
  import opened Prelude
  import opened Tables
  import opened Accounts
  import opened AccountSafety

  // ---- Tokens handed out ----

  /** The tokens of all pairs but one are the same. */
  ghost predicate SameButFor(
    tokens: map<(Uuid, Device), Token>, next: map<(Uuid, Device), Token>, key: (Uuid, Device))
  {
    forall k | k != key :: (k in next <==> k in tokens) && (k in tokens ==> next[k] == tokens[k])
  }

  /** Whoever is signed in receives the newly issued token, which replaces the one of the pair and no other. */
  lemma SignedInIsStored(a: Accounts, op: AccountOp)
    requires ReplyTo(a, op).SignedIn?
    ensures (op.Login? || op.Register? || op.Refresh?) && op.device.Some? && ReplyTo(a, op).token == op.issued
    ensures var key, next := (ReplyTo(a, op).user, op.device.value), Step(a, op).tokens;
            key in next && next[key] == op.issued && SameButFor(a.tokens, next, key)
  {
  }

  /**
   Main theorem: the token a call hands out is accepted in the next refresh of the user on that device,
   and no other one is: a rotated token is refused at once.
   */
  lemma HandedOutIsCurrent(ops: seq<AccountOp>, op: AccountOp, token: Token, issued: Token)
    requires ReplyTo(Run(ops), op).SignedIn?
    ensures op.Login? || op.Register? || op.Refresh?
    ensures var reply := ReplyTo(Run(ops), op);
            ReplyTo(Run(ops + [op]), Refresh(Some(token), Some(reply.user), op.device, issued)).SignedIn?
            <==> token != "" && token == reply.token == op.issued
  {
    hide Step, ReplyTo, SameButFor;
    SignedInIsStored(Run(ops), op);
    assert (ops + [op])[..|ops|] == ops;
    RefreshIffStored(Run(ops + [op]), token, ReplyTo(Run(ops), op).user, op.device.value, issued);
  }

  lemma RefreshIffStored(a: Accounts, token: Token, user: Uuid, device: Device, issued: Token)
    ensures ReplyTo(a, Refresh(Some(token), Some(user), Some(device), issued)).SignedIn?
       <==> token != "" && (user, device) in a.tokens && a.tokens[(user, device)] == token
  {
  }

  /** The whole run of refreshes of one pair: each uses the token the one before handed out. */
  function Refreshes(user: Uuid, device: Device, tokens: seq<Token>): seq<AccountOp>
    requires |tokens| > 0
  {
    seq(|tokens| - 1, i requires 0 <= i < |tokens| - 1 =>
      Refresh(Some(tokens[i]), Some(user), Some(device), tokens[i + 1]))
  }

  lemma RefreshGoesThrough(a: Accounts, user: Uuid, device: Device, stored: Token, issued: Token)
    requires (user, device) in a.tokens && a.tokens[(user, device)] == stored && stored != ""
    ensures Step(a, Refresh(Some(stored), Some(user), Some(device), issued))
         == a.(tokens := a.tokens[(user, device) := issued])
  {
  }

  /** Such a chain goes through from the stored token to its end, however long, and moves only that token. */
  lemma {:induction false} ChainOfRefreshes(ops: seq<AccountOp>, user: Uuid, device: Device, tokens: seq<Token>)
    requires |tokens| > 0 && forall i | 0 <= i < |tokens| :: tokens[i] != ""
    requires (user, device) in Run(ops).tokens && Run(ops).tokens[(user, device)] == tokens[0]
    ensures Run(ops + Refreshes(user, device, tokens))
         == Run(ops).(tokens := Run(ops).tokens[(user, device) := tokens[|tokens| - 1]])
    decreases |tokens|
  {
    hide Step;
    var n, calls := |tokens| - 1, Refreshes(user, device, tokens);
    if n == 0 {
      assert ops + calls == ops;
    } else {
      var front := Refreshes(user, device, tokens[..n]);
      ChainOfRefreshes(ops, user, device, tokens[..n]);
      assert (ops + calls)[..|ops + calls| - 1] == ops + front;
      RefreshGoesThrough(Run(ops + front), user, device, tokens[n - 1], tokens[n]);
    }
  }

  // ---- Logout ----

  /** Main theorem: a logout goes through exactly when the history leaves some token current for the pair. */
  lemma LogoutIffCurrent(ops: seq<AccountOp>, user: Uuid, device: Option<Device>)
    ensures ReplyTo(Run(ops), Logout(user, device)).Done?
       <==> device.Some? && exists token :: Current(History(ops), (user, device.value), token)
  {
    hide Current, History, Run;
    RunKeepsAccountsSafe(ops);
    if device.Some? {
      var key := (user, device.value);
      if token :| Current(History(ops), key, token) {
        StoredIsCurrent(ops, key, token);
        assert ActiveUser(Run(ops).users, key.0);
      }
      if key in Run(ops).tokens {
        StoredIsCurrent(ops, key, Run(ops).tokens[key]);
      }
    }
  }

  /** It takes away the token of the pair and the user's notification token, and nothing else. */
  lemma LogoutTakesOneToken(a: Accounts, user: Uuid, device: Device)
    requires ReplyTo(a, Logout(user, Some(device))).Done?
    ensures var next := Step(a, Logout(user, Some(device)));
            && (user, device) in a.tokens && (user, device) !in next.tokens
            && SameButFor(a.tokens, next.tokens, (user, device))
            && next.users.Keys == a.users.Keys && user in a.users
            && next.users[user] == a.users[user].(notificationToken := None)
            && forall u | u in a.users && u != user :: next.users[u] == a.users[u]
  {
  }

  /** A token is issued for the pair in this call. */
  ghost predicate Issues(a: Accounts, op: AccountOp, key: (Uuid, Device)) {
    ReplyTo(a, op).SignedIn? && op.device == Some(key.1) && ReplyTo(a, op).user == key.0
  }

  lemma StepIssues(a: Accounts, op: AccountOp, key: (Uuid, Device))
    requires key !in a.tokens && !Issues(a, op, key)
    ensures key !in Step(a, op).tokens
  {
  }

  lemma {:induction false} NoTokenUntilIssued(ops: seq<AccountOp>, i: nat, key: (Uuid, Device))
    requires i <= |ops| && key !in Run(ops[..i]).tokens
    requires forall j | i <= j < |ops| :: !Issues(Run(ops[..j]), ops[j], key)
    ensures key !in Run(ops).tokens
    decreases |ops|
  {
    hide Issues, Step;
    if i == |ops| {
      assert ops[..i] == ops;
    } else {
      var front := ops[..|ops| - 1];
      assert front[..i] == ops[..i];
      assert forall j | i <= j < |front| :: front[..j] == ops[..j];
      NoTokenUntilIssued(front, i, key);
      StepIssues(Run(front), ops[|ops| - 1], key);
    }
  }

  /** Main theorem: after a logout no refresh of the pair goes through until a token is issued for it again. */
  lemma LoggedOutIsRefused(
    ops: seq<AccountOp>, i: nat, user: Uuid, device: Device, token: Option<Token>, issued: Token)
    requires i < |ops| && ops[i] == Logout(user, Some(device)) && ReplyTo(Run(ops[..i]), ops[i]).Done?
    requires forall j | i < j < |ops| :: !Issues(Run(ops[..j]), ops[j], (user, device))
    ensures ReplyTo(Run(ops), Refresh(token, Some(user), Some(device), issued)).Failed?
    ensures ReplyTo(Run(ops), Logout(user, Some(device))) == Failed(RecordNotFound)
  {
    hide Issues, Run, Step;
    RunAt(ops, i);
    LogoutTakesOneToken(Run(ops[..i]), user, device);
    NoTokenUntilIssued(ops, i + 1, (user, device));
  }

  /** Signing in on a device and logging out there leaves the tokens of every other pair as they were. */
  lemma SignInThenLogout(a: Accounts, op: AccountOp)
    requires TokensOfLiveUsers(a) && ReplyTo(a, op).SignedIn?
    ensures op.Login? || op.Register? || op.Refresh?
    ensures op.device.Some?
    ensures var key := (ReplyTo(a, op).user, op.device.value);
            && ReplyTo(Step(a, op), Logout(key.0, op.device)).Done?
            && Step(Step(a, op), Logout(key.0, op.device)).tokens == a.tokens - {key}
  {
    hide Step;
    SignedInIsStored(a, op);
    var mid, key := Step(a, op), (ReplyTo(a, op).user, op.device.value);
    StepKeepsTokenOwners(a, op);
    assert key in mid.tokens && ActiveUser(mid.users, key.0);
    LogoutTakesOneToken(mid, key.0, key.1);
  }

  // ---- Withdrawal ----

  /** A withdrawal goes through unless another row of the email or account id was withdrawn in that very instant. */
  lemma WithdrawIff(a: Accounts, user: Uuid, now: Time)
    ensures ReplyTo(a, Withdraw(user, now)).Done?
       <==> && user in a.users
            && forall v | v in a.users && v != user :: a.users[v].deletedAt == Some(now) ==>
                 a.users[v].email != a.users[user].email && a.users[v].accountId != a.users[user].accountId
  {
  }

  /** It signs the user out on every device, and nobody else anywhere. */
  lemma WithdrawalSignsOut(a: Accounts, user: Uuid, now: Time)
    requires ReplyTo(a, Withdraw(user, now)).Done?
    ensures var next := Step(a, Withdraw(user, now));
            && (forall device :: (user, device) !in next.tokens)
            && (forall k | k in a.tokens && k.0 != user :: k in next.tokens && next.tokens[k] == a.tokens[k])
            && next.tokens.Keys <= a.tokens.Keys
            && user in a.users && next.users.Keys == a.users.Keys
            && next.users[user] == a.users[user].(deletedAt := Some(now), notificationToken := None)
            && forall u | u in a.users && u != user :: next.users[u] == a.users[u]
  {
    assert forall device: Device :: (user, device).0 == user;
  }

  /** Until the user signs in again, no refresh with any token on any device goes through. */
  lemma WithdrawnIsRefused(ops: seq<AccountOp>, i: nat, user: Uuid, device: Device, token: Option<Token>, issued: Token)
    requires i < |ops| && ops[i].Withdraw? && ops[i].user == user && ReplyTo(Run(ops[..i]), ops[i]).Done?
    requires forall j | i < j < |ops| :: !Issues(Run(ops[..j]), ops[j], (user, device))
    ensures ReplyTo(Run(ops), Refresh(token, Some(user), Some(device), issued)).Failed?
  {
    hide Issues, Run, Step;
    RunAt(ops, i);
    WithdrawalSignsOut(Run(ops[..i]), user, ops[i].now);
    NoTokenUntilIssued(ops, i + 1, (user, device));
  }

  /** No row of the email but this one is active, and the others were withdrawn earlier. */
  ghost predicate LastOfEmail(users: map<Uuid, UserRow>, user: Uuid, now: Time) {
    && user in users
    && forall v | v in users && v != user && users[v].email == users[user].email ::
         users[v].deletedAt.Some? && users[v].deletedAt.value < now
  }

  /**
   Main theorem: after a withdrawal a login with the email signs in to the same account exactly within
   thirty days and with the same provider; it gives back everything but the notification token.
   */
  lemma WithdrawThenLogin(a: Accounts, user: Uuid, now: Time, login: AccountOp)
    requires WithdrawalsDiffer(a.users) && ReplyTo(a, Withdraw(user, now)).Done? && LastOfEmail(a.users, user, now)
    requires login.Login? && login.device.Some? && login.email == a.users[user].email
    requires Plausible(Step(a, Withdraw(user, now)), login)
    ensures var mid := Step(a, Withdraw(user, now));
            && (ReplyTo(mid, login) == Failed(UserNotRegistered) <==> login.now - now >= 30 * DAY)
            && (ReplyTo(mid, login).SignedIn?
                <==> login.now - now < 30 * DAY && login.provider == a.users[user].provider)
            && (ReplyTo(mid, login).SignedIn? ==>
                  && ReplyTo(mid, login) == SignedIn(user, login.issued)
                  && Step(mid, login).users
                  == a.users[user := a.users[user].(deletedAt := None, notificationToken := None)])
  {
    var mid := Step(a, Withdraw(user, now));
    WithdrawalSignsOut(a, user, now);
    StepKeepsWithdrawalsDiffer(a, Withdraw(user, now));
    hide Step;
    WithdrawnAnswers(a, mid, user, now, login.now);
    LoginFollowsAnswer(mid, login);
    if ReplyTo(mid, login).SignedIn? {
      assert Step(mid, login).users == mid.users[user := mid.users[user].(deletedAt := None)];
    }
  }

  /** The withdrawn account answers for its email for thirty days, and no other one does. */
  lemma WithdrawnAnswers(a: Accounts, mid: Accounts, user: Uuid, now: Time, later: Time)
    requires LastOfEmail(a.users, user, now) && mid.users.Keys == a.users.Keys
    requires mid.users[user] == a.users[user].(deletedAt := Some(now), notificationToken := None)
    requires forall u | u in a.users && u != user :: mid.users[u] == a.users[u]
    ensures forall u :: Answers(mid.users, a.users[user].email, later, u) <==> u == user && later - now < 30 * DAY
  {
    forall u | u in mid.users && u != user && mid.users[u].email == a.users[user].email
      ensures !Answers(mid.users, a.users[user].email, later, u)
    {
      assert !(mid.users[user].deletedAt.value < mid.users[u].deletedAt.value);
    }
  }

  /** In those thirty days the email cannot be registered anew; afterwards it no longer stands in the way. */
  lemma WithdrawThenRegister(a: Accounts, user: Uuid, now: Time, register: AccountOp)
    requires ReplyTo(a, Withdraw(user, now)).Done?
    requires register.Register? && register.device.Some? && register.profile.email == a.users[user].email
    requires forall v | v in a.users && v != user && a.users[v].email == a.users[user].email :: ActiveUser(a.users, v)
    requires Plausible(Step(a, Withdraw(user, now)), register)
    ensures ReplyTo(Step(a, Withdraw(user, now)), register) == Failed(DuplicateEmail)
       <==> register.now - now < 30 * DAY
  {
    var mid := Step(a, Withdraw(user, now));
    WithdrawalSignsOut(a, user, now);
    hide Step;
    assert mid.users[user].deletedAt == Some(now) && !ActiveUser(mid.users, user);
    DaysBelow(register.now, now, 30);
  }

  // ---- Account ids and notification tokens ----

  /** To an id that no row has an active user may change, the first time at once and then after thirty days. */
  lemma FreeIdChangeIff(a: Accounts, user: Uuid, accountId: string, now: Time)
    requires forall u | u in a.users :: a.users[u].accountId != accountId
    ensures ReplyTo(a, ChangeAccountId(user, accountId, None, now)).Done?
       <==> && user in a.users && a.users[user].deletedAt.None?
            && (a.users[user].createdAt == a.users[user].updatedAt || now - a.users[user].updatedAt >= 30 * DAY)
    ensures ReplyTo(a, ChangeAccountId(user, accountId, None, now)).Done? ==>
              && (forall u | u in a.users ::
                    Step(a, ChangeAccountId(user, accountId, None, now)).users[u].accountId
                    == if u == user then accountId else a.users[u].accountId)
              && Step(a, ChangeAccountId(user, accountId, None, now)).tokens == a.tokens
  {
    if user in a.users {
      DaysBelow(now, a.users[user].updatedAt, 30);
    }
  }

  /** The days a refused change names are the fewest whole days after which the cooldown is over. */
  lemma CooldownIsLeastWait(
    a: Accounts, user: Uuid, accountId: string, pick: Option<Uuid>, now: Time, days: int, n: nat)
    requires ReplyTo(a, ChangeAccountId(user, accountId, pick, now)) == Failed(AccountIdCooldown(days))
    ensures days > 0
    ensures (exists left :: ReplyTo(a, ChangeAccountId(user, accountId, pick, now + n * DAY))
                         == Failed(AccountIdCooldown(left)))
       <==> n < days
  {
    var updated := a.users[user].updatedAt;
    DaysBelow(now, updated, 30);
    assert CalcDateDiff(now + n * DAY, updated) == CalcDateDiff(now, updated) + n by {
      assert now + n * DAY - updated == (now - updated) + n * DAY;
    }
    var later := ChangeAccountId(user, accountId, pick, now + n * DAY);
    if n < days {
      assert ReplyTo(a, later) == Failed(AccountIdCooldown(days - n));
    }
  }

  /** The call takes the notification token of the user away or replaces it. */
  predicate DropsNotifications(op: AccountOp, user: Uuid) {
    (op.Logout? || op.Withdraw? || op.ChangeNotificationToken?) && op.user == user
  }

  lemma StepKeepsNotifications(a: Accounts, op: AccountOp, user: Uuid)
    requires user in a.users && !DropsNotifications(op, user)
    ensures user in Step(a, op).users
         && Step(a, op).users[user].notificationToken == a.users[user].notificationToken
  {
  }

  /** A notification token stays until the user logs out, withdraws or sends another one. */
  lemma {:induction false} NotificationTokenStays(ops: seq<AccountOp>, i: nat, user: Uuid, token: string)
    requires i < |ops| && ops[i] == ChangeNotificationToken(user, token) && ReplyTo(Run(ops[..i]), ops[i]).Done?
    requires forall j | i < j < |ops| :: !DropsNotifications(ops[j], user)
    ensures user in Run(ops).users && Run(ops).users[user].notificationToken == Some(token)
    decreases |ops|
  {
    var front := ops[..|ops| - 1];
    if i < |front| {
      assert front[..i] == ops[..i];
      NotificationTokenStays(front, i, user, token);
      hide Step, ReplyTo;
      StepKeepsNotifications(Run(front), ops[|front|], user);
    }
  }

  // ---- Registration ----

  /** Without a device nobody is signed in or out. */
  lemma NoDeviceNoEntry(a: Accounts, op: AccountOp)
    requires (op.Login? || op.Register? || op.Refresh? || op.Logout?) && op.device.None?
    ensures ReplyTo(a, op) == Failed(DeviceIdRequired) && Step(a, op) == a
  {
  }

  /** The check that the email was not withdrawn lately looks at one withdrawn row of the email. */
  lemma DuplicateEmailMayShowIff(
    a: Accounts, profile: Profile, device: Device, accountPick: Option<Uuid>, id: Uuid, issued: Token, now: Time)
    requires PicksByAccountId(a.users, profile.accountId, accountPick)
    ensures (exists pick :: && Plausible(a, Register(profile, Some(device), pick, accountPick, id, issued, now))
                            && ReplyTo(a, Register(profile, Some(device), pick, accountPick, id, issued, now))
                               == Failed(DuplicateEmail))
       <==> exists u | u in a.users ::
              a.users[u].email == profile.email && a.users[u].deletedAt.Some?
              && now - a.users[u].deletedAt.value < 30 * DAY
  {
    if u :| u in a.users && a.users[u].email == profile.email && a.users[u].deletedAt.Some?
            && now - a.users[u].deletedAt.value < 30 * DAY {
      DaysBelow(now, a.users[u].deletedAt.value, 30);
      var op := Register(profile, Some(device), Some(u), accountPick, id, issued, now);
      assert Plausible(a, op) && ReplyTo(a, op) == Failed(DuplicateEmail);
    }
    if pick :| && Plausible(a, Register(profile, Some(device), pick, accountPick, id, issued, now))
               && ReplyTo(a, Register(profile, Some(device), pick, accountPick, id, issued, now))
                  == Failed(DuplicateEmail) {
      DaysBelow(now, a.users[pick.value].deletedAt.value, 30);
    }
  }

  /** With an email and an account id that no row has, a registration goes through on every device. */
  lemma FreshRegisters(a: Accounts, op: AccountOp)
    requires op.Register? && Plausible(a, op) && op.id !in a.users
    requires forall u | u in a.users ::
               a.users[u].email != op.profile.email && a.users[u].accountId != op.profile.accountId
    ensures if op.device.None? then ReplyTo(a, op) == Failed(DeviceIdRequired)
            else ReplyTo(a, op) == SignedIn(op.id, op.issued)
  {
  }

  /** Whoever registered signs in with the email and the same provider from then on, on any device. */
  lemma RegisterThenLogin(a: Accounts, register: AccountOp, login: AccountOp)
    requires WithdrawalsDiffer(a.users) && register.Register? && ReplyTo(a, register).SignedIn?
    requires forall u | ActiveUser(a.users, u) :: a.users[u].email != register.profile.email
    requires login.Login? && login.device.Some? && login.email == register.profile.email
    requires Plausible(Step(a, register), login)
    ensures ReplyTo(Step(a, register), login)
         == if login.provider == register.profile.provider then SignedIn(register.id, login.issued)
            else Failed(RegisteredOtherPlatform)
    ensures var row := Step(Step(a, register), login).users[register.id];
            && row.email == register.profile.email && row.provider == register.profile.provider
            && row.name == register.profile.name && row.accountId == register.profile.accountId
            && row.profileImageUrl == register.profile.profileImageUrl && row.deletedAt.None?
            && row.createdAt == row.updatedAt == register.now && row.notificationToken.None?
  {
    var mid, id := Step(a, register), register.id;
    StepKeepsWithdrawalsDiffer(a, register);
    assert mid.users == a.users[id := NewUser(register.profile, register.now)] && id !in a.users;
    hide Step;
    forall u ensures Answers(mid.users, login.email, login.now, u) <==> u == id {
      assert ActiveUser(mid.users, id);
    }
    LoginFollowsAnswer(mid, login);
    if ReplyTo(mid, login).SignedIn? {
      assert Step(mid, login).users == mid.users[id := mid.users[id].(deletedAt := None)];
    }
  }
}
