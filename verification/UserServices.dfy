/** The user and authentication objects: each method is the code, proved equal to its specification in `Users`. */
module UserServices {
  import opened Shared
  import opened Users

  /** The database table and the cache that both repositories work on. `issued` only records what was generated. */
  class UserStore {
    var users: map<Id, User>
    var cache: map<UserKey, Entry<User>>
    var blacklist: map<Token, real>
    var issued: set<string>
    const cfg: Config

    ghost function State(): Accounts
      reads this
    {
      Accounts(users, cache, blacklist, issued, cfg)
    }

    constructor (users: map<Id, User>, cfg: Config)
      ensures State() == Open(users, cfg)
    {
      this.users, this.cfg := users, cfg;
      cache, blacklist, issued := map[], map[], {};
    }

    // ---------- The user repository ----------

    method Lookup(q: Query, at: real, f: Faults) returns (found: Shared.Lookup<User>)
      modifies this
      ensures (State(), found) == Get(old(State()), q, at, f)
    {
      var key := KeyOf(q);
      if f.get && key in cache && at < cache[key].expiry {
        return Found(cache[key].row);
      }
      if !f.db {
        return Failed;
      }
      var row := Ask(users, q);
      if row.None? {
        return NotFound;
      }
      if f.put {
        cache := cache[key := Entry(Visible(row.value), at + TTL)];
      }
      found := Found(row.value);
    }

    method Create(u: User, f: Faults) returns (ok: bool)
      modifies this
      ensures (State(), ok) == Insert(old(State()), u, f)
    {
      ok := f.db && u.id !in users && Unclaimed(users, u);
      if ok {
        users := users[u.id := u];
      }
    }

    method DropKey(key: UserKey, f: Faults)
      modifies this
      ensures State() == old(State()).(cache := old(cache) - ({key} - f.stuck))
    {
      if key !in f.stuck {
        cache := cache - {key};
      }
    }

    method Update(u: User, f: Faults) returns (ok: bool)
      modifies this
      ensures (State(), ok) == Save(old(State()), u, f)
    {
      ok := f.db && Unclaimed(users, u);
      if ok {
        users := users[u.id := u];
        DropKey(IdKey(u.id), f);
        DropKey(NameKey(u.profile.email), f);
        DropKey(NameKey(u.profile.username), f);
        assert cache == old(cache) - (KeysOf(u) - f.stuck);
      }
    }

    method Delete(id: Id, at: real, f: Faults, f': Faults) returns (ok: bool)
      modifies this
      ensures (State(), ok) == Remove(old(State()), id, at, f, f')
    {
      hide Get;
      var found := Lookup(ByUid(id), at, f);
      if !found.Found? || !f'.db {
        return false;
      }
      ghost var loaded := cache;
      users := users - {id};
      DropKey(IdKey(id), f');
      DropKey(NameKey(found.row.profile.email), f');
      DropKey(NameKey(found.row.profile.username), f');
      assert cache == loaded - ({IdKey(id), NameKey(found.row.profile.email), NameKey(found.row.profile.username)}
                                - f'.stuck);
      ok := true;
    }

    method UpdateLastLogin(id: Id, at: real, f: Faults)
      modifies this
      ensures State() == TouchLogin(old(State()), id, at, f)
    {
      if !f.db {
        return;
      }
      if id in users {
        users := users[id := users[id].(profile := users[id].profile.(lastLogin := at))];
      }
      DropKey(IdKey(id), f);
    }

    // ---------- The authentication repository ----------

    method StoreRefreshToken(id: Id, token: string, exp: real, f: Faults) returns (ok: bool)
      modifies this
      ensures (State(), ok) == StoreRefresh(old(State()), id, token, exp, f)
    {
      ok := f.db;
      if ok && id in users {
        users := users[id := users[id].(refreshToken := token, refreshExp := exp)];
      }
    }

    method GetUserByRefreshToken(token: string, at: real, f: Faults) returns (found: Shared.Lookup<User>)
      ensures found == UserByRefresh(State(), token, at, f)
    {
      if !f.db {
        return Failed;
      }
      var ids := set id | id in users && users[id].refreshToken == token && at < users[id].refreshExp;
      assert ids == Holders(users, token, at);
      found := if ids == {} then NotFound else Found(users[First(ids)]);
    }

    method CleanupExpiredTokens(at: real, f: Faults)
      modifies this
      ensures State() == CleanupExpired(old(State()), at, f)
    {
      if f.db {
        users := map id | id in users :: Swept(users[id], at);
      }
    }

    method StoreTokenInBlacklist(t: Token, at: real, ttl: real, f: Faults)
      modifies this
      ensures State() == if f.put then old(State()).(blacklist := old(blacklist)[t := at + ttl]) else old(State())
    {
      if f.put {
        blacklist := blacklist[t := at + ttl];
      }
    }

    method IsTokenBlacklisted(t: Token, at: real, f: Faults) returns (listed: bool)
      ensures listed == Blacklisted(State(), t, at, f)
    {
      listed := f.get && t in blacklist && at < blacklist[t];
    }
  }

  class AuthService {
    const store: UserStore

    constructor (store: UserStore)
      ensures this.store == store
    {
      this.store := store;
    }

    method Login(name: string, matching: set<string>, newToken: string, at: real, plan: Plan) returns (reply: Reply)
      modifies store
      ensures (store.State(), reply) == Users.Login(old(store.State()), name, matching, newToken, at, plan)
    {
      var found := if plan.first.db then AskUsernameOrEmail(store.users, name) else None;
      if found.None? {
        return Denied(InvalidCredentials);
      }
      var user := found.value;
      if user.password !in matching {
        return Denied(InvalidCredentials);
      }
      store.UpdateLastLogin(user.id, at, plan.second);
      var access := GenerateToken(user, at, store.cfg);
      store.issued := store.issued + {newToken};
      var ok := store.StoreRefreshToken(user.id, newToken, at + store.cfg.refreshTtl, plan.third);
      reply := if ok then Session(access, Some(newToken)) else Denied(StoreFailed);
    }

    method RefreshToken(token: string, newToken: string, at: real, plan: Plan) returns (reply: Reply)
      modifies store
      ensures (store.State(), reply) == Refresh(old(store.State()), token, newToken, at, plan)
    {
      var found := store.GetUserByRefreshToken(token, at, plan.first);
      if !found.Found? {
        return Denied(InvalidToken);
      }
      var access := GenerateToken(found.row, at, store.cfg);
      store.issued := store.issued + {newToken};
      var ok := store.StoreRefreshToken(found.row.id, newToken, at + store.cfg.refreshTtl, plan.second);
      reply := Session(access, if ok then Some(newToken) else None);
    }

    method Logout(access: Token, at: real, measured: real, stored: real, plan: Plan) returns (reply: Reply)
      modifies store
      ensures (store.State(), reply) == Users.Logout(old(store.State()), access, at, measured, stored, plan)
    {
      if !JwtValid(access, at) {
        return Denied(InvalidToken);
      }
      var timeUntilExpiration := access.claims.expires as real - measured;
      if timeUntilExpiration > 0.0 {
        store.StoreTokenInBlacklist(access, stored, timeUntilExpiration, plan.first);
      }
      var _ := store.StoreRefreshToken(access.claims.userId, "", stored, plan.second);
      reply := Done;
    }

    method ValidateToken(t: Token, checked: real, validated: real, f: Faults) returns (claims: Option<Claims>)
      ensures claims == if TokenAccepted(store.State(), t, checked, validated, f) then Some(t.claims) else None
    {
      var blacklisted := store.IsTokenBlacklisted(t, checked, f);
      if blacklisted {
        return None;
      }
      claims := if JwtValid(t, validated) then Some(t.claims) else None;
    }

    method Register(p: Profile, hash: string, newId: Id, at: real, plan: Plan) returns (reply: Reply)
      modifies store
      ensures (store.State(), reply) == Users.Register(old(store.State()), p, hash, newId, at, plan)
    {
      var byEmail := store.Lookup(ByEmail(p.email), at, plan.first);
      if byEmail.Found? {
        return Denied(EmailTaken);
      }
      var byName := store.Lookup(ByUsername(p.username), at, plan.second);
      if byName.Found? {
        return Denied(UsernameTaken);
      }
      var ok := store.Create(User(newId, p, hash, "", ZERO_TIME), plan.third);
      reply := if ok then Account(p) else Denied(StoreFailed);
    }
  }

  class UserService {
    const store: UserStore

    constructor (store: UserStore)
      ensures this.store == store
    {
      this.store := store;
    }

    method UpdateUser(id: Id, u: ProfileUpdate, at: real, plan: Plan) returns (reply: Reply)
      modifies store
      ensures (store.State(), reply) == Users.UpdateUser(old(store.State()), id, u, at, plan)
    {
      hide Get, Save, Edited;
      var found := store.Lookup(ByUid(id), at, plan.first);
      if !found.Found? {
        return Denied(UserMissing);
      }
      var user := found.row;

      if u.email.Some? && u.email.value != user.profile.email {
        var existing := store.Lookup(ByEmail(u.email.value), at, plan.second);
        if existing.Found? && existing.row.id != id {
          return Denied(EmailTaken);
        }
      }
      if u.username.Some? && u.username.value != user.profile.username {
        var existing := store.Lookup(ByUsername(u.username.value), at, plan.third);
        if existing.Found? && existing.row.id != id {
          return Denied(UsernameTaken);
        }
      }

      var profile := SetFields(user.profile, u);
      user := user.(profile := profile);
      var ok := store.Update(user, plan.fourth);
      reply := if ok then Account(user.profile) else Denied(StoreFailed);
    }

    static method SetFields(profile: Profile, u: ProfileUpdate) returns (p: Profile)
      ensures p == Edited(profile, u)
    {
      p := profile;
      if u.email.Some? { p := p.(email := u.email.value); }
      if u.username.Some? { p := p.(username := u.username.value); }
      if u.firstName.Some? { p := p.(firstName := u.firstName.value); }
      if u.lastName.Some? { p := p.(lastName := u.lastName.value); }
      if u.role.Some? { p := p.(role := u.role.value); }
      if u.status.Some? { p := p.(status := u.status.value); }
      if u.phone.Some? { p := p.(phone := u.phone.value); }
      if u.address.Some? { p := p.(address := u.address.value); }
    }

    method ChangePassword(id: Id, current: string, matching: set<string>, next: string, hash: string,
                          at: real, plan: Plan) returns (reply: Reply)
      modifies store
      ensures (store.State(), reply)
           == Users.ChangePassword(old(store.State()), id, current, matching, next, hash, at, plan)
    {
      if current == "" || next == "" {
        return Denied(RequiredField);
      }
      if |next| < 8 {
        return Denied(WeakPassword);
      }
      var found := store.Lookup(ByUid(id), at, plan.first);
      if !found.Found? {
        return Denied(UserMissing);
      }
      if found.row.password !in matching {
        return Denied(InvalidCredentials);
      }
      var ok := store.Update(found.row.(password := hash), plan.second);
      reply := if ok then Done else Denied(StoreFailed);
    }

    method DeleteUser(id: Id, at: real, plan: Plan) returns (reply: Reply)
      modifies store
      ensures (store.State(), reply) == Users.DeleteUser(old(store.State()), id, at, plan)
    {
      var found := store.Lookup(ByUid(id), at, plan.first);
      if !found.Found? {
        return Denied(UserMissing);
      }
      var ok := store.Delete(id, at, plan.second, plan.third);
      reply := if ok then Done else Denied(StoreFailed);
    }
  }
}
