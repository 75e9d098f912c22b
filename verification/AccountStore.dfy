/**
 The account services as they run, on a user table and a token table updated in place. Each method
 is proved against the transition of the same name, and says which row a lookup happened to return.
 */
module AccountStore {
  import opened Prelude
  import opened Tables
  import opened Accounts
  import opened AccountSafety

  lemma FirstExists(users: map<Uuid, UserRow>, rows: set<Uuid>) returns (p: Uuid)
    requires rows != {} && forall u <- rows :: u in users
    ensures p in rows && forall u <- rows :: NotBehind(users[p].deletedAt, users[u].deletedAt)
    decreases |rows|
  {
    p :| p in rows;
    if rows != {p} {
      var q := FirstExists(users, rows - {p});
      if !NotBehind(users[p].deletedAt, users[q].deletedAt) { p := q; }
    }
  }

  class Store {
    var users: map<Uuid, UserRow>
    var tokens: map<(Uuid, Device), Token>

    function Contents(): Accounts
      reads this
    {
      Accounts(users, tokens)
    }

    ghost predicate Valid()
      reads this
    {
      AccountsSafe(Contents())
    }

    constructor ()
      ensures Valid() && Contents() == NOBODY
    {
      users, tokens := map[], map[];
    }

    // ---- Lookups ----

    method FindOneByEmail(email: string) returns (pick: Option<Uuid>)
      ensures PicksByEmail(users, email, pick)
    {
      var rows := set u | u in users && users[u].email == email;
      if rows == {} {
        assert forall u | u in users && users[u].email == email :: u in rows;
        return None;
      }
      ghost var first := FirstExists(users, rows);
      var p :| p in rows && forall u <- rows :: NotBehind(users[p].deletedAt, users[u].deletedAt);
      return Some(p);
    }

    method FindDeletedByEmail(email: string) returns (pick: Option<Uuid>)
      ensures PicksWithdrawn(users, email, pick)
    {
      if p :| p in users && users[p].email == email && users[p].deletedAt.Some? {
        pick := Some(p);
      } else {
        pick := None;
      }
    }

    method FindOneByAccountId(accountId: string) returns (pick: Option<Uuid>)
      ensures PicksByAccountId(users, accountId, pick)
    {
      if p :| p in users && users[p].accountId == accountId {
        pick := Some(p);
      } else {
        pick := None;
      }
    }

    method CheckDuplicateAccountId(accountId: string, now: Time) returns (taken: bool, ghost pick: Option<Uuid>)
      ensures PicksByAccountId(users, accountId, pick)
      ensures taken <==> AccountIdTaken(Row(users, pick), now)
      ensures taken ==> exists u | u in users :: users[u].accountId == accountId && AccountIdTaken(Some(users[u]), now)
      ensures !taken ==>
                || (forall u | u in users :: users[u].accountId != accountId)
                || (exists u | u in users :: users[u].accountId == accountId && !AccountIdTaken(Some(users[u]), now))
    {
      var found := FindOneByAccountId(accountId);
      pick := found;
      if found.None? {
        return false, pick;
      }
      var deletedAt := users[found.value].deletedAt;
      if deletedAt.Some? {
        return CalcDateDiff(now, deletedAt.value) < 30, pick;
      }
      return true, pick;
    }

    // ---- Signing in and out ----

    method Login(email: string, provider: Provider, device: Option<Device>, issued: Token, now: Time)
      returns (reply: AccountReply, ghost pick: Option<Uuid>)
      requires Valid()
      modifies this
      ensures Valid()
      ensures device.Some? ==> PicksByEmail(old(users), email, pick)
      ensures reply == LoginReply(old(Contents()), provider, device, pick, issued, now)
      ensures Contents() == if reply.SignedIn? then AfterLogin(old(Contents()), reply.user, device.value, issued)
                            else old(Contents())
      ensures reply.SignedIn? ==>
                && reply.token == issued && tokens == old(tokens)[(reply.user, device.value) := issued]
                && ActiveUser(users, reply.user) && users[reply.user].email == email
                && users[reply.user].provider == provider
    {
      pick := None;
      if device.None? {
        return Failed(DeviceIdRequired), pick;
      }
      var found := FindOneByEmail(email);
      pick := found;
      if found.None? {
        return Failed(UserNotRegistered), pick;
      }
      var id := found.value;
      var user := users[id];
      if user.deletedAt.Some? {
        if CalcDateDiff(now, user.deletedAt.value) >= 30 {
          return Failed(UserNotRegistered), pick;
        }
      }
      if user.provider != provider {
        return Failed(RegisteredOtherPlatform), pick;
      }
      StepKeepsAccountsSafe(Contents(), AccountOp.Login(email, provider, device, found, issued, now));
      if user.deletedAt.Some? {
        users := users[id := user.(deletedAt := None)];
      }
      tokens := tokens[(id, device.value) := issued];
      assert users == old(users)[id := user.(deletedAt := None)];
      return SignedIn(id, issued), pick;
    }

    /** The user row is written before the token row, which is new because the user is. */
    method Register(profile: Profile, device: Option<Device>, id: Uuid, issued: Token, now: Time)
      returns (reply: AccountReply, ghost emailPick: Option<Uuid>, ghost accountPick: Option<Uuid>)
      requires Valid()
      modifies this
      ensures Valid()
      ensures device.Some? ==> PicksWithdrawn(old(users), profile.email, emailPick)
      ensures device.Some? && reply != Failed(DuplicateEmail) ==>
                PicksByAccountId(old(users), profile.accountId, accountPick)
      ensures reply == RegisterReply(old(Contents()), profile, device, emailPick, accountPick, id, issued, now)
      ensures Contents() == if reply.SignedIn?
                            then AfterRegister(old(Contents()), profile, device.value, id, issued, now)
                            else old(Contents())
      ensures reply.SignedIn? ==>
                && reply == SignedIn(id, issued) && id !in old(users) && ActiveUser(users, id)
                && users[id].email == profile.email && users[id].accountId == profile.accountId
                && tokens == old(tokens)[(id, device.value) := issued]
    {
      emailPick, accountPick := None, None;
      if device.None? {
        return Failed(DeviceIdRequired), emailPick, accountPick;
      }
      var withdrawn := FindDeletedByEmail(profile.email);
      emailPick := withdrawn;
      if withdrawn.Some? && CalcDateDiff(now, users[withdrawn.value].deletedAt.value) < 30 {
        return Failed(DuplicateEmail), emailPick, accountPick;
      }
      var taken;
      taken, accountPick := CheckDuplicateAccountId(profile.accountId, now);
      if taken {
        return Failed(DuplicateAccountId), emailPick, accountPick;
      }
      if id in users {
        return Failed(KeyViolation), emailPick, accountPick;
      }
      StepKeepsAccountsSafe(
        Contents(), AccountOp.Register(profile, device, emailPick, accountPick, id, issued, now));
      assert (id, device.value) !in tokens;
      users := users[id := NewUser(profile, now)];
      tokens := tokens[(id, device.value) := issued];
      return SignedIn(id, issued), emailPick, accountPick;
    }

    method RefreshAccessToken(token: Option<Token>, decoded: Option<Uuid>, device: Option<Device>, issued: Token)
      returns (reply: AccountReply)
      requires Valid()
      modifies this`tokens
      ensures Valid()
      ensures reply == RefreshReply(old(Contents()), token, decoded, device, issued)
      ensures Contents() == if reply.SignedIn? then AfterRefresh(old(Contents()), reply.user, device.value, issued)
                            else old(Contents())
      ensures reply.SignedIn?
         <==> && device.Some? && token.Some? && token.value != "" && decoded.Some?
              && (decoded.value, device.value) in old(tokens)
              && old(tokens)[(decoded.value, device.value)] == token.value
      ensures reply.SignedIn? ==>
                && reply == SignedIn(decoded.value, issued)
                && tokens == old(tokens)[(decoded.value, device.value) := issued]
    {
      if device.None? {
        return Failed(DeviceIdRequired);
      }
      if token.None? || token.value == "" {
        return Failed(RefreshTokenMissing);
      }
      if decoded.None? {
        return Failed(InvalidToken);
      }
      var key := (decoded.value, device.value);
      if key !in tokens || tokens[key] != token.value {
        return Failed(InvalidToken);
      }
      tokens := tokens[key := issued];
      return SignedIn(decoded.value, issued);
    }

    /** The owner of a stored token exists, so the second write cannot fail after the first. */
    method Logout(user: Uuid, device: Option<Device>) returns (reply: AccountReply)
      requires Valid()
      modifies this
      ensures Valid()
      ensures reply == LogoutReply(old(Contents()), user, device)
      ensures Contents() == if reply.Done? then AfterLogout(old(Contents()), user, device.value) else old(Contents())
      ensures reply.Done? <==> device.Some? && (user, device.value) in old(tokens)
      ensures reply.Done? ==>
                && tokens == old(tokens) - {(user, device.value)} && user in old(users)
                && users == old(users)[user := old(users)[user].(notificationToken := None)]
    {
      if device.None? {
        return Failed(DeviceIdRequired);
      }
      if (user, device.value) !in tokens {
        return Failed(RecordNotFound);
      }
      StepKeepsAccountsSafe(Contents(), AccountOp.Logout(user, device));
      assert ActiveUser(users, user) by { assert (user, device.value) in tokens && (user, device.value).0 == user; }
      tokens := tokens - {(user, device.value)};
      users := users[user := users[user].(notificationToken := None)];
      return Done;
    }

    // ---- Accounts ----

    method Withdraw(user: Uuid, now: Time) returns (reply: AccountReply)
      requires Valid()
      modifies this
      ensures Valid()
      ensures reply == WithdrawReply(old(Contents()), user, now)
      ensures Contents() == if reply.Done? then AfterWithdraw(old(Contents()), user, now) else old(Contents())
      ensures reply.Done? ==>
                && user in users && !ActiveUser(users, user) && (forall k | k in tokens :: k.0 != user)
                && forall k | k in old(tokens) && k.0 != user :: k in tokens && tokens[k] == old(tokens)[k]
    {
      if user !in users {
        return Failed(RecordNotFound);
      }
      if WithdrawalKeyTaken(users, user, now) {
        return Failed(KeyViolation);
      }
      StepKeepsAccountsSafe(Contents(), AccountOp.Withdraw(user, now));
      users := users[user := users[user].(deletedAt := Some(now), notificationToken := None)];
      tokens := map k | k in tokens && k.0 != user :: tokens[k];
      return Done;
    }

    method ChangeAccountId(user: Uuid, accountId: string, now: Time)
      returns (reply: AccountReply, ghost pick: Option<Uuid>)
      requires Valid()
      modifies this`users
      ensures Valid()
      ensures reply.Done? || reply == Failed(DuplicateAccountId) ==> PicksByAccountId(old(users), accountId, pick)
      ensures reply == ChangeAccountIdReply(old(Contents()), user, pick, now)
      ensures Contents() == if reply.Done? then AfterChangeAccountId(old(Contents()), user, accountId, now)
                            else old(Contents())
    {
      pick := None;
      if !(user in users && users[user].deletedAt.None?) {
        return Failed(UserNotFound), pick;
      }
      var isSetFirst := users[user].createdAt == users[user].updatedAt;
      var days := CalcDateDiff(now, users[user].updatedAt);
      if !isSetFirst && days < 30 {
        return Failed(AccountIdCooldown(30 - days)), pick;
      }
      var taken;
      taken, pick := CheckDuplicateAccountId(accountId, now);
      if taken {
        return Failed(DuplicateAccountId), pick;
      }
      StepKeepsAccountsSafe(Contents(), AccountOp.ChangeAccountId(user, accountId, pick, now));
      users := users[user := users[user].(accountId := accountId, updatedAt := now)];
      return Done, pick;
    }

    method ChangeProfileImage(user: Uuid, url: string) returns (reply: AccountReply)
      requires Valid()
      modifies this`users
      ensures Valid()
      ensures reply == UpdateReply(old(Contents()), user)
      ensures Contents() == if reply.Done? then AfterChangeProfileImage(old(Contents()), user, url) else old(Contents())
      ensures reply.Done? <==> user in old(users)
      ensures reply.Done? ==> users == old(users)[user := old(users)[user].(profileImageUrl := Some(url))]
    {
      if user !in users {
        return Failed(RecordNotFound);
      }
      StepKeepsAccountsSafe(Contents(), AccountOp.ChangeProfileImage(user, url));
      users := users[user := users[user].(profileImageUrl := Some(url))];
      return Done;
    }
  }
}
