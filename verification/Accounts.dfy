/**
 Signing in, refresh tokens, withdrawal and account ids, as transitions of the user and token
 tables. Where a query names no order, the row the database returned is part of the call (`pick`),
 and so is what the token verifier made of a presented token (`decoded`).
 */
module Accounts {
  import opened Prelude
  import opened Tables

  type Token = string

  type Device = string

  datatype Accounts = Accounts(users: map<Uuid, UserRow>, tokens: map<(Uuid, Device), Token>)

  datatype AccountError =
    | DeviceIdRequired | UserNotRegistered | RegisteredOtherPlatform | DuplicateEmail | DuplicateAccountId
    | RefreshTokenMissing | InvalidToken | UserNotFound | AccountIdCooldown(daysLeft: int)
    | KeyViolation | RecordNotFound

  datatype AccountReply = SignedIn(user: Uuid, token: Token) | Done | Failed(error: AccountError)

  // ---- What the lookups return ----

  /** The descending order of `deletedAt`, in which no date comes first. */
  predicate NotBehind(a: Option<Time>, b: Option<Time>) {
    a.None? || (b.Some? && b.value <= a.value)
  }

  /** `findOneByEmail`: a first row in that order. */
  predicate PicksByEmail(users: map<Uuid, UserRow>, email: string, pick: Option<Uuid>) {
    match pick
    case None => forall u | u in users :: users[u].email != email
    case Some(p) =>
      && p in users && users[p].email == email
      && forall u | u in users && users[u].email == email :: NotBehind(users[p].deletedAt, users[u].deletedAt)
  }

  /** `findDeletedByEmail`: any withdrawn row. */
  predicate PicksWithdrawn(users: map<Uuid, UserRow>, email: string, pick: Option<Uuid>) {
    match pick
    case None => forall u | u in users && users[u].email == email :: ActiveUser(users, u)
    case Some(p) => p in users && users[p].email == email && !ActiveUser(users, p)
  }

  /** `findOneByAccountId`: any row, withdrawn or not. */
  predicate PicksByAccountId(users: map<Uuid, UserRow>, accountId: string, pick: Option<Uuid>) {
    match pick
    case None => forall u | u in users :: users[u].accountId != accountId
    case Some(p) => p in users && users[p].accountId == accountId
  }

  function Row(users: map<Uuid, UserRow>, pick: Option<Uuid>): Option<UserRow> {
    if pick.Some? && pick.value in users then Some(users[pick.value]) else None
  }

  // ---- auth.service.ts ----

  function LoginReply(
    a: Accounts, provider: Provider, device: Option<Device>, pick: Option<Uuid>, issued: Token, now: Time): AccountReply
  {
    var user := Row(a.users, pick);
    if device.None? then Failed(DeviceIdRequired)
    else if user.None? then Failed(UserNotRegistered)
    else if user.value.deletedAt.Some? && CalcDateDiff(now, user.value.deletedAt.value) >= 30 then
      Failed(UserNotRegistered)
    else if user.value.provider != provider then Failed(RegisteredOtherPlatform)
    else SignedIn(pick.value, issued)
  }

  /** A withdrawn account is restored; the token replaces the one of the device, if there is one. */
  function AfterLogin(a: Accounts, user: Uuid, device: Device, issued: Token): Accounts
    requires user in a.users
  {
    Accounts(a.users[user := a.users[user].(deletedAt := None)], a.tokens[(user, device) := issued])
  }

  datatype Profile = Profile(
    email: string, provider: Provider, name: string, accountId: string, profileImageUrl: Option<string>)

  predicate RecentlyWithdrawn(row: Option<UserRow>, now: Time) {
    row.Some? && row.value.deletedAt.Some? && CalcDateDiff(now, row.value.deletedAt.value) < 30
  }

  predicate AccountIdTaken(row: Option<UserRow>, now: Time) {
    row.Some? && (row.value.deletedAt.None? || RecentlyWithdrawn(row, now))
  }

  function RegisterReply(
    a: Accounts, profile: Profile, device: Option<Device>, emailPick: Option<Uuid>, accountPick: Option<Uuid>,
    id: Uuid, issued: Token, now: Time): AccountReply
  {
    if device.None? then Failed(DeviceIdRequired)
    else if RecentlyWithdrawn(Row(a.users, emailPick), now) then Failed(DuplicateEmail)
    else if AccountIdTaken(Row(a.users, accountPick), now) then Failed(DuplicateAccountId)
    else if id in a.users then Failed(KeyViolation)
    else SignedIn(id, issued)
  }

  function NewUser(profile: Profile, now: Time): UserRow {
    UserRow(profile.email, profile.provider, profile.name, profile.accountId, profile.profileImageUrl, None,
            now, now, None)
  }

  function AfterRegister(
    a: Accounts, profile: Profile, device: Device, id: Uuid, issued: Token, now: Time): Accounts
  {
    Accounts(a.users[id := NewUser(profile, now)], a.tokens[(id, device) := issued])
  }

  function RefreshReply(
    a: Accounts, token: Option<Token>, decoded: Option<Uuid>, device: Option<Device>, issued: Token): AccountReply
  {
    if device.None? then Failed(DeviceIdRequired)
    else if token.None? || token.value == "" then Failed(RefreshTokenMissing)
    else if decoded.None? then Failed(InvalidToken)
    else if (decoded.value, device.value) !in a.tokens || a.tokens[(decoded.value, device.value)] != token.value then
      Failed(InvalidToken)
    else SignedIn(decoded.value, issued)
  }

  function AfterRefresh(a: Accounts, user: Uuid, device: Device, issued: Token): Accounts {
    a.(tokens := a.tokens[(user, device) := issued])
  }

  function LogoutReply(a: Accounts, user: Uuid, device: Option<Device>): AccountReply {
    if device.None? then Failed(DeviceIdRequired)
    else if (user, device.value) !in a.tokens || user !in a.users then Failed(RecordNotFound)
    else Done
  }

  function AfterLogout(a: Accounts, user: Uuid, device: Device): Accounts
    requires user in a.users
  {
    Accounts(a.users[user := a.users[user].(notificationToken := None)], a.tokens - {(user, device)})
  }

  // ---- users.service.ts ----

  /** The unique (email, deletedAt) and (accountId, deletedAt) keys; rows without a date escape both. */
  predicate WithdrawalKeyTaken(users: map<Uuid, UserRow>, user: Uuid, now: Time)
    requires user in users
  {
    exists v | v in users ::
      && v != user && users[v].deletedAt == Some(now)
      && (users[v].email == users[user].email || users[v].accountId == users[user].accountId)
  }

  function WithdrawReply(a: Accounts, user: Uuid, now: Time): AccountReply {
    if user !in a.users then Failed(RecordNotFound)
    else if WithdrawalKeyTaken(a.users, user, now) then Failed(KeyViolation)
    else Done
  }

  function TokensOfOthers(tokens: map<(Uuid, Device), Token>, user: Uuid): map<(Uuid, Device), Token> {
    map k | k in tokens && k.0 != user :: tokens[k]
  }

  function AfterWithdraw(a: Accounts, user: Uuid, now: Time): Accounts
    requires user in a.users
  {
    Accounts(a.users[user := a.users[user].(deletedAt := Some(now), notificationToken := None)],
             TokensOfOthers(a.tokens, user))
  }

  /** The first change is free: it is told by the row never having been updated. */
  predicate CoolingDown(row: UserRow, now: Time) {
    row.createdAt != row.updatedAt && CalcDateDiff(now, row.updatedAt) < 30
  }

  function ChangeAccountIdReply(a: Accounts, user: Uuid, pick: Option<Uuid>, now: Time): AccountReply {
    if !ActiveUser(a.users, user) then Failed(UserNotFound)
    else if CoolingDown(a.users[user], now) then
      Failed(AccountIdCooldown(30 - CalcDateDiff(now, a.users[user].updatedAt)))
    else if AccountIdTaken(Row(a.users, pick), now) then Failed(DuplicateAccountId)
    else Done
  }

  function AfterChangeAccountId(a: Accounts, user: Uuid, accountId: string, now: Time): Accounts
    requires user in a.users
  {
    a.(users := a.users[user := a.users[user].(accountId := accountId, updatedAt := now)])
  }

  /** Neither of the last two touches `updatedAt`. */
  function AfterChangeProfileImage(a: Accounts, user: Uuid, url: string): Accounts
    requires user in a.users
  {
    a.(users := a.users[user := a.users[user].(profileImageUrl := Some(url))])
  }

  function AfterChangeNotificationToken(a: Accounts, user: Uuid, token: string): Accounts
    requires user in a.users
  {
    a.(users := a.users[user := a.users[user].(notificationToken := Some(token))])
  }

  function UpdateReply(a: Accounts, user: Uuid): AccountReply {
    if user in a.users then Done else Failed(RecordNotFound)
  }

  // ---- Runs ----

  datatype AccountOp =
    | Login(email: string, provider: Provider, device: Option<Device>, pick: Option<Uuid>, issued: Token, now: Time)
    | Register(profile: Profile, device: Option<Device>, emailPick: Option<Uuid>, accountPick: Option<Uuid>,
               id: Uuid, issued: Token, now: Time)
    | Refresh(token: Option<Token>, decoded: Option<Uuid>, device: Option<Device>, issued: Token)
    | Logout(user: Uuid, device: Option<Device>)
    | Withdraw(user: Uuid, now: Time)
    | ChangeAccountId(user: Uuid, accountId: string, pick: Option<Uuid>, now: Time)
    | ChangeProfileImage(user: Uuid, url: string)
    | ChangeNotificationToken(user: Uuid, notificationToken: string)

  function ReplyTo(a: Accounts, op: AccountOp): AccountReply {
    match op
    case Login(_, provider, device, pick, issued, now) => LoginReply(a, provider, device, pick, issued, now)
    case Register(profile, device, emailPick, accountPick, id, issued, now) =>
      RegisterReply(a, profile, device, emailPick, accountPick, id, issued, now)
    case Refresh(token, decoded, device, issued) => RefreshReply(a, token, decoded, device, issued)
    case Logout(user, device) => LogoutReply(a, user, device)
    case Withdraw(user, now) => WithdrawReply(a, user, now)
    case ChangeAccountId(user, _, pick, now) => ChangeAccountIdReply(a, user, pick, now)
    case ChangeProfileImage(user, _) => UpdateReply(a, user)
    case ChangeNotificationToken(user, _) => UpdateReply(a, user)
  }

  /** A failed call changes nothing. */
  function Step(a: Accounts, op: AccountOp): Accounts {
    if ReplyTo(a, op).Failed? then a else
      match op
      case Login(_, _, device, pick, issued, _) => AfterLogin(a, pick.value, device.value, issued)
      case Register(profile, device, _, _, id, issued, now) => AfterRegister(a, profile, device.value, id, issued, now)
      case Refresh(_, decoded, device, issued) => AfterRefresh(a, decoded.value, device.value, issued)
      case Logout(user, device) => AfterLogout(a, user, device.value)
      case Withdraw(user, now) => AfterWithdraw(a, user, now)
      case ChangeAccountId(user, accountId, _, now) => AfterChangeAccountId(a, user, accountId, now)
      case ChangeProfileImage(user, url) => AfterChangeProfileImage(a, user, url)
      case ChangeNotificationToken(user, token) => AfterChangeNotificationToken(a, user, token)
  }

  /** The rows a call was answered from are rows its query may return. */
  ghost predicate Plausible(a: Accounts, op: AccountOp) {
    match op
    case Login(email, _, _, pick, _, _) => PicksByEmail(a.users, email, pick)
    case Register(profile, _, emailPick, accountPick, _, _, _) =>
      PicksWithdrawn(a.users, profile.email, emailPick) && PicksByAccountId(a.users, profile.accountId, accountPick)
    case ChangeAccountId(_, accountId, pick, _) => PicksByAccountId(a.users, accountId, pick)
    case _ => true
  }

  const NOBODY := Accounts(map[], map[])

  function Run(ops: seq<AccountOp>): Accounts {
    if ops == [] then NOBODY else Step(Run(ops[..|ops| - 1]), ops[|ops| - 1])
  }

  ghost predicate PlausibleRun(ops: seq<AccountOp>) {
    forall i | 0 <= i < |ops| :: Plausible(Run(ops[..i]), ops[i])
  }
}
