/** User accounts: the user and authentication repositories and services over one table, one cache and one
    token blacklist.

    A request happens at one instant `at` (logout reads the clock three times). Which outside calls fail is
    given call by call as `Faults`. Row timestamps are not modelled. */
module Users {
  import opened Shared

  /** The instant that Go's zero `time.Time` stands for; every clock reading is later. */
  const ZERO_TIME := 0.0

  datatype Profile = Profile(
    email: string, username: string, firstName: string, lastName: string, role: string, status: string,
    phone: string, address: string, lastLogin: real)

  datatype User = User(id: Id, profile: Profile, password: string, refreshToken: string, refreshExp: real)

  /** What the cached JSON brings back: the three secret fields are left out of it and decode to zero values. */
  function Visible(u: User): User {
    u.(password := "", refreshToken := "", refreshExp := ZERO_TIME)
  }

  /** All three lookups use the prefix "user:". Usernames have at most 30 characters and e-mail addresses an
      "@", so neither is ever the text of an id, but a username can be an e-mail address. */
  datatype UserKey = IdKey(id: Id) | NameKey(text: string)

  /** A signed access token is its claims; `expires` is in whole seconds. */
  datatype Claims = Claims(userId: Id, email: string, role: string, username: string, expires: int)
  datatype Token = Signed(claims: Claims) | Forged(text: string)

  datatype Config = Config(accessTtl: real, refreshTtl: real)

  /** `blacklist` maps a token to the end of its entry; `issued` holds all refresh tokens ever generated. */
  datatype Accounts = Accounts(users: map<Id, User>, cache: map<UserKey, Entry<User>>, blacklist: map<Token, real>,
                               issued: set<string>, cfg: Config)

  /** Whether the database and the cache answer a call, and the keys whose deletion fails. */
  datatype Faults = Faults(db: bool, get: bool, put: bool, stuck: set<UserKey>)
  datatype Plan = Plan(first: Faults, second: Faults, third: Faults, fourth: Faults)

  // ---------- The user repository ----------

  datatype Query = ByUid(id: Id) | ByEmail(email: string) | ByUsername(username: string)

  function KeyOf(q: Query): UserKey {
    match q
    case ByUid(id) => IdKey(id)
    case ByEmail(email) => NameKey(email)
    case ByUsername(username) => NameKey(username)
  }

  function FirstOf(users: map<Id, User>, ids: set<Id>): Option<User>
    requires ids <= users.Keys
  {
    if ids == {} then None else Some(users[First(ids)])
  }

  function WithEmail(users: map<Id, User>, email: string): set<Id> {
    set id | id in users && users[id].profile.email == email
  }

  function WithUsername(users: map<Id, User>, name: string): set<Id> {
    set id | id in users && users[id].profile.username == name
  }

  /** What the database answers. */
  function Ask(users: map<Id, User>, q: Query): Option<User> {
    match q
    case ByUid(id) => if id in users then Some(users[id]) else None
    case ByEmail(email) => FirstOf(users, WithEmail(users, email))
    case ByUsername(name) => FirstOf(users, WithUsername(users, name))
  }

  function AskUsernameOrEmail(users: map<Id, User>, x: string): Option<User> {
    FirstOf(users, WithUsername(users, x) + WithEmail(users, x))
  }

  predicate IsHit(s: Accounts, k: UserKey, at: real, f: Faults) {
    f.get && k in s.cache && at < s.cache[k].expiry
  }

  function Get(s: Accounts, q: Query, at: real, f: Faults): (Accounts, Lookup<User>) {
    if IsHit(s, KeyOf(q), at, f) then (s, Found(s.cache[KeyOf(q)].row))
    else if !f.db then (s, Failed)
    else
      match Ask(s.users, q)
      case None => (s, NotFound)
      case Some(u) =>
        (if f.put then s.(cache := s.cache[KeyOf(q) := Entry(Visible(u), at + TTL)]) else s, Found(u))
  }

  /** The unique indexes on e-mail address and username. */
  predicate Unclaimed(users: map<Id, User>, u: User) {
    (set id | id in users && id != u.id
           && (users[id].profile.email == u.profile.email || users[id].profile.username == u.profile.username)) == {}
  }

  function KeysOf(u: User): set<UserKey> {
    {IdKey(u.id), NameKey(u.profile.email), NameKey(u.profile.username)}
  }

  function Insert(s: Accounts, u: User, f: Faults): (Accounts, bool) {
    if f.db && u.id !in s.users && Unclaimed(s.users, u) then (s.(users := s.users[u.id := u]), true) else (s, false)
  }

  /** Saves the whole row, inserting it when its id is not live. */
  function Save(s: Accounts, u: User, f: Faults): (Accounts, bool) {
    if f.db && Unclaimed(s.users, u)
    then (s.(users := s.users[u.id := u], cache := s.cache - (KeysOf(u) - f.stuck)), true)
    else (s, false)
  }

  function Remove(s: Accounts, id: Id, at: real, f: Faults, f': Faults): (Accounts, bool) {
    var (s1, found) := Get(s, ByUid(id), at, f);
    if !found.Found? || !f'.db then (s1, false)
    else (s1.(users := s1.users - {id},
              cache := s1.cache - ({IdKey(id), NameKey(found.row.profile.email), NameKey(found.row.profile.username)}
                                   - f'.stuck)), true)
  }

  function TouchLogin(s: Accounts, id: Id, at: real, f: Faults): Accounts {
    if !f.db then s
    else
      var s' := s.(cache := s.cache - ({IdKey(id)} - f.stuck));
      if id in s.users
      then s'.(users := s.users[id := s.users[id].(profile := s.users[id].profile.(lastLogin := at))])
      else s'
  }

  // ---------- The authentication repository ----------

  function SetRefresh(users: map<Id, User>, id: Id, token: string, exp: real): map<Id, User> {
    if id in users then users[id := users[id].(refreshToken := token, refreshExp := exp)] else users
  }

  function StoreRefresh(s: Accounts, id: Id, token: string, exp: real, f: Faults): (Accounts, bool) {
    if f.db then (s.(users := SetRefresh(s.users, id, token, exp)), true) else (s, false)
  }

  function Holders(users: map<Id, User>, token: string, at: real): set<Id> {
    set id | id in users && users[id].refreshToken == token && at < users[id].refreshExp
  }

  function UserByRefresh(s: Accounts, token: string, at: real, f: Faults): Lookup<User> {
    if f.db then Answer(FirstOf(s.users, Holders(s.users, token, at))) else Failed
  }

  function Swept(u: User, at: real): User {
    if u.refreshExp < at then u.(refreshToken := "", refreshExp := at) else u
  }

  function CleanupExpired(s: Accounts, at: real, f: Faults): Accounts {
    if f.db then s.(users := map id | id in s.users :: Swept(s.users[id], at)) else s
  }

  // ---------- Tokens ----------

  function GenerateToken(u: User, at: real, cfg: Config): Token {
    Signed(Claims(u.id, u.profile.email, u.profile.role, u.profile.username, (at + cfg.accessTtl).Floor))
  }

  /** Signature and expiry: on or after `expires` a token is not accepted (section 4.1.4 of RFC 7519). */
  predicate JwtValid(t: Token, at: real) {
    t.Signed? && at < t.claims.expires as real
  }

  predicate Blacklisted(s: Accounts, t: Token, at: real, f: Faults) {
    f.get && t in s.blacklist && at < s.blacklist[t]
  }

  /** The auth service's own check: the blacklist first, then the token. */
  predicate TokenAccepted(s: Accounts, t: Token, checked: real, validated: real, f: Faults) {
    !Blacklisted(s, t, checked, f) && JwtValid(t, validated)
  }

  // ---------- Requests ----------

  datatype ProfileUpdate = ProfileUpdate(
    email: Option<string>, username: Option<string>, firstName: Option<string>, lastName: Option<string>,
    role: Option<string>, status: Option<string>, phone: Option<string>, address: Option<string>)

  const NOTHING := ProfileUpdate(None, None, None, None, None, None, None, None)

  function Edited(p: Profile, u: ProfileUpdate): Profile {
    Profile(Or(u.email, p.email), Or(u.username, p.username), Or(u.firstName, p.firstName),
            Or(u.lastName, p.lastName), Or(u.role, p.role), Or(u.status, p.status), Or(u.phone, p.phone),
            Or(u.address, p.address), p.lastLogin)
  }

  datatype Denial = InvalidCredentials | InvalidToken | EmailTaken | UsernameTaken | UserMissing
                  | RequiredField | WeakPassword | StoreFailed

  datatype Reply =
    | Session(access: Token, refresh: Option<string>)
    | Account(profile: Profile)
    | Done
    | Denied(why: Denial)

  function Register(s: Accounts, p: Profile, hash: string, newId: Id, at: real, plan: Plan): (Accounts, Reply) {
    var (s1, byEmail) := Get(s, ByEmail(p.email), at, plan.first);
    if byEmail.Found? then (s1, Denied(EmailTaken))
    else
      var (s2, byName) := Get(s1, ByUsername(p.username), at, plan.second);
      if byName.Found? then (s2, Denied(UsernameTaken))
      else
        var u := User(newId, p, hash, "", ZERO_TIME);
        var (s3, ok) := Insert(s2, u, plan.third);
        (s3, if ok then Account(p) else Denied(StoreFailed))
  }

  /** Looks for another account under a name that the update changes to. */
  function Clash(s: Accounts, id: Id, changed: bool, q: Query, at: real, f: Faults): (Accounts, bool) {
    if !changed then (s, false)
    else
      var (s', existing) := Get(s, q, at, f);
      (s', existing.Found? && existing.row.id != id)
  }

  function UpdateUser(s: Accounts, id: Id, u: ProfileUpdate, at: real, plan: Plan): (Accounts, Reply) {
    var (s1, found) := Get(s, ByUid(id), at, plan.first);
    if !found.Found? then (s1, Denied(UserMissing))
    else
      var user := found.row;
      var email, name := Or(u.email, user.profile.email), Or(u.username, user.profile.username);
      var (s2, emailTaken) := Clash(s1, id, email != user.profile.email, ByEmail(email), at, plan.second);
      if emailTaken then (s2, Denied(EmailTaken))
      else
        var (s3, nameTaken) := Clash(s2, id, name != user.profile.username, ByUsername(name), at, plan.third);
        if nameTaken then (s3, Denied(UsernameTaken))
        else
          var (s4, ok) := Save(s3, user.(profile := Edited(user.profile, u)), plan.fourth);
          (s4, if ok then Account(Edited(user.profile, u)) else Denied(StoreFailed))
  }

  /** `matching` holds the hashes that the given current password checks against. */
  function ChangePassword(s: Accounts, id: Id, current: string, matching: set<string>, next: string, hash: string,
                          at: real, plan: Plan): (Accounts, Reply)
  {
    if current == "" || next == "" then (s, Denied(RequiredField))
    else if |next| < 8 then (s, Denied(WeakPassword))
    else
      var (s1, found) := Get(s, ByUid(id), at, plan.first);
      if !found.Found? then (s1, Denied(UserMissing))
      else if found.row.password !in matching then (s1, Denied(InvalidCredentials))
      else
        var (s2, ok) := Save(s1, found.row.(password := hash), plan.second);
        (s2, if ok then Done else Denied(StoreFailed))
  }

  function DeleteUser(s: Accounts, id: Id, at: real, plan: Plan): (Accounts, Reply) {
    var (s1, found) := Get(s, ByUid(id), at, plan.first);
    if !found.Found? then (s1, Denied(UserMissing))
    else
      var (s2, ok) := Remove(s1, id, at, plan.second, plan.third);
      (s2, if ok then Done else Denied(StoreFailed))
  }

  function Login(s: Accounts, name: string, matching: set<string>, newToken: string, at: real, plan: Plan)
    : (Accounts, Reply)
  {
    var found := if plan.first.db then AskUsernameOrEmail(s.users, name) else None;
    if found.None? || found.value.password !in matching then (s, Denied(InvalidCredentials))
    else
      var user := found.value;
      var s1 := TouchLogin(s, user.id, at, plan.second).(issued := s.issued + {newToken});
      var (s2, ok) := StoreRefresh(s1, user.id, newToken, at + s.cfg.refreshTtl, plan.third);
      (s2, if ok then Session(GenerateToken(user, at, s.cfg), Some(newToken)) else Denied(StoreFailed))
  }

  /** When the new token cannot be stored, the caller gets only an access token. */
  function Refresh(s: Accounts, token: string, newToken: string, at: real, plan: Plan): (Accounts, Reply) {
    match UserByRefresh(s, token, at, plan.first)
    case Found(user) => Grant(s, user, newToken, at, plan.second)
    case _ => (s, Denied(InvalidToken))
  }

  /** The second half of a refresh, once the holder of the token has been read. */
  function Grant(s: Accounts, user: User, newToken: string, at: real, f: Faults): (Accounts, Reply) {
    var s1 := s.(issued := s.issued + {newToken});
    var (s2, ok) := StoreRefresh(s1, user.id, newToken, at + s.cfg.refreshTtl, f);
    (s2, Session(GenerateToken(user, at, s.cfg), if ok then Some(newToken) else None))
  }

  /** The token is validated at `at`, its remaining life taken at `measured`, its entry written at `stored`. */
  function Logout(s: Accounts, t: Token, at: real, measured: real, stored: real, plan: Plan): (Accounts, Reply) {
    if !JwtValid(t, at) then (s, Denied(InvalidToken))
    else
      var left := t.claims.expires as real - measured;
      var s1 := if 0.0 < left && plan.first.put then s.(blacklist := s.blacklist[t := stored + left]) else s;
      (StoreRefresh(s1, t.claims.userId, "", stored, plan.second).0, Done)
  }

  datatype Request =
    | Registering(profile: Profile, hash: string, newId: Id)
    | Editing(id: Id, update: ProfileUpdate)
    | ChangingPassword(id: Id, current: string, matching: set<string>, next: string, hash: string)
    | Deleting(id: Id)
    | LoggingIn(name: string, matching: set<string>, newToken: string)
    | Refreshing(token: string, newToken: string)
    | LoggingOut(access: Token, measured: real, stored: real)
    | Looking(query: Query)
    | Sweeping

  datatype Call = Call(at: real, request: Request, plan: Plan)

  function Serve(s: Accounts, c: Call): (Accounts, Reply) {
    match c.request
    case Registering(p, hash, newId) => Register(s, p, hash, newId, c.at, c.plan)
    case Editing(id, u) => UpdateUser(s, id, u, c.at, c.plan)
    case ChangingPassword(id, current, matching, next, hash) =>
      ChangePassword(s, id, current, matching, next, hash, c.at, c.plan)
    case Deleting(id) => DeleteUser(s, id, c.at, c.plan)
    case LoggingIn(name, matching, newToken) => Login(s, name, matching, newToken, c.at, c.plan)
    case Refreshing(token, newToken) => Refresh(s, token, newToken, c.at, c.plan)
    case LoggingOut(t, measured, stored) => Logout(s, t, c.at, measured, stored, c.plan)
    case Looking(q) =>
      var (s', found) := Get(s, q, c.at, c.plan.first);
      (s', if found.Found? then Account(found.row.profile) else Denied(UserMissing))
    case Sweeping => (CleanupExpired(s, c.at, c.plan.first), Done)
  }

  /** When the request is over. */
  function End(c: Call): real {
    if c.request.LoggingOut? then c.request.stored else c.at
  }

  predicate OnTime(now: real, c: Call) {
    && now <= c.at <= End(c)
    && (c.request.LoggingOut? ==> c.at <= c.request.measured <= c.request.stored)
  }

  predicate Timely(now: real, calls: seq<Call>)
    decreases |calls|
  {
    calls != [] ==> OnTime(now, calls[0]) && Timely(End(calls[0]), calls[1..])
  }

  function ServeAll(s: Accounts, calls: seq<Call>): Accounts
    decreases |calls|
  {
    if calls == [] then s else ServeAll(Serve(s, calls[0]).0, calls[1..])
  }

  function Open(users: map<Id, User>, cfg: Config): Accounts {
    Accounts(users, map[], map[], {}, cfg)
  }
}
