/** What the account operations do, column by column and key by key, and who may log in. */
module AccountEffects {
  import opened Shared
  import opened Users

  // ---------- The user repository ----------

  /** The account that a query for one row gives: the first in id order that has what is asked for. */
  ghost predicate FirstWith(users: map<Id, User>, q: Query, id: Id) {
    && Has(users, q, id) && forall other <- users :: Has(users, q, other) ==> id <= other
  }

  ghost predicate Has(users: map<Id, User>, q: Query, id: Id) {
    && id in users
    && match q
       case ByUid(i) => id == i
       case ByEmail(email) => users[id].profile.email == email
       case ByUsername(name) => users[id].profile.username == name
  }

  lemma AskIs(users: map<Id, User>, q: Query, id: Id)
    requires FirstWith(users, q, id)
    ensures Ask(users, q) == Some(users[id])
  {
    match q
    case ByUid(_) =>
    case ByEmail(email) => assert id in WithEmail(users, email);
    case ByUsername(name) => assert id in WithUsername(users, name);
  }

  lemma AskNobody(users: map<Id, User>, q: Query)
    requires forall id <- users :: !Has(users, q, id)
    ensures Ask(users, q).None?
  {
    match q
    case ByUid(_) =>
    case ByEmail(email) =>
      forall id | id in users ensures users[id].profile.email != email { assert !Has(users, q, id); }
    case ByUsername(name) =>
      forall id | id in users ensures users[id].profile.username != name { assert !Has(users, q, id); }
  }

  lemma SomebodyFirst(users: map<Id, User>, q: Query)
    ensures (forall id <- users :: !Has(users, q, id)) || exists id :: FirstWith(users, q, id)
  {
    var ids := set id | id in users && Has(users, q, id);
    if ids != {} {
      LeastExists(ids);
      var m :| IsLeast(m, ids);
      forall other | other in users && Has(users, q, other) ensures m <= other { assert other in ids; }
      assert FirstWith(users, q, m);
    } else {
      forall id | id in users ensures !Has(users, q, id) { assert id !in ids; }
    }
  }

  /** A lookup. A readable entry that has not run out is the answer, and nothing changes. Else the database
      answers with the first matching row, and that row without its three secret columns is cached for 15 minutes.
      Addresses and usernames are cached under one prefix. */
  lemma LookupMeans(s: Accounts, q: Query, at: real, f: Faults, id: Id)
    ensures var key := (match q case ByUid(i) => IdKey(i) case ByEmail(email) => NameKey(email)
                                case ByUsername(name) => NameKey(name));
            var (s', found) := Get(s, q, at, f);
            if f.get && key in s.cache && at < s.cache[key].expiry then s' == s && found == Found(s.cache[key].row)
            else if !f.db then s' == s && found == Failed
            else
              && ((forall other <- s.users :: !Has(s.users, q, other)) ==> s' == s && found == NotFound)
              && (FirstWith(s.users, q, id) ==>
                    && found == Found(s.users[id])
                    && s' == if !f.put then s
                             else s.(cache := s.cache[key := Entry(
                                     s.users[id].(password := "", refreshToken := "", refreshExp := 0.0), at + 900.0)]))
  {
    if FirstWith(s.users, q, id) { AskIs(s.users, q, id); }
    if forall other <- s.users :: !Has(s.users, q, other) { AskNobody(s.users, q); }
    hide Ask;
  }

  /** No other row has the address or the username. */
  ghost predicate NamesFree(users: map<Id, User>, u: User) {
    forall id <- users :: id != u.id ==>
      users[id].profile.email != u.profile.email && users[id].profile.username != u.profile.username
  }

  lemma UnclaimedIff(users: map<Id, User>, u: User)
    ensures Unclaimed(users, u) <==> NamesFree(users, u)
  {
    var claimed := set id | id in users && id != u.id
      && (users[id].profile.email == u.profile.email || users[id].profile.username == u.profile.username);
    if claimed == {} {
      forall id | id in users && id != u.id
        ensures users[id].profile.email != u.profile.email && users[id].profile.username != u.profile.username
      {
        assert id !in claimed;
      }
    }
  }

  /** What is left of the cache when the keys of one account are dropped: everything but its id, address and
      username, except where the deletion failed. */
  ghost predicate KeysDropped(cache: map<UserKey, Entry<User>>, cache': map<UserKey, Entry<User>>, id: Id, email: string,
                              username: string, stuck: set<UserKey>)
  {
    && (forall k <- cache' :: k in cache && cache'[k] == cache[k])
    && forall k <- cache ::
         k in cache' <==> k in stuck || (k != IdKey(id) && k != NameKey(email) && k != NameKey(username))
  }

  /** Insert and save: done exactly when the database answers and the names are free (and, to insert, the id is
      new); then the whole row is written, and a save drops the keys of the row as saved. */
  lemma WritesMean(s: Accounts, u: User, f: Faults)
    ensures var (s', ok) := Insert(s, u, f);
            && (ok <==> f.db && u.id !in s.users && NamesFree(s.users, u))
            && s' == if ok then s.(users := s.users[u.id := u]) else s
    ensures var (s', ok) := Save(s, u, f);
            && (ok <==> f.db && NamesFree(s.users, u))
            && (!ok ==> s' == s)
            && (ok ==> s' == s.(users := s.users[u.id := u], cache := s'.cache)
                       && KeysDropped(s.cache, s'.cache, u.id, u.profile.email, u.profile.username, f.stuck))
  {
    UnclaimedIff(s.users, u);
    hide Unclaimed, NamesFree;
  }

  /** Deletion, once loaded: the row is gone, and the keys of the loaded row are dropped. */
  lemma RemoveMeans(s: Accounts, id: Id, at: real, f: Faults, f': Faults)
    ensures var (s1, found) := Get(s, ByUid(id), at, f);
            var (s', ok) := Remove(s, id, at, f, f');
            && (ok <==> found.Found? && f'.db)
            && (!ok ==> s' == s1)
            && (ok ==> s' == s1.(users := s'.users, cache := s'.cache) && s'.users == s1.users - {id}
                       && KeysDropped(s1.cache, s'.cache, id, found.row.profile.email, found.row.profile.username,
                                      f'.stuck))
  {
    hide Get;
  }

  /** The login time: one column of one row, and the entry under its id. */
  lemma TouchMeans(s: Accounts, id: Id, at: real, f: Faults)
    ensures var s' := TouchLogin(s, id, at, f);
            && s'.users.Keys == s.users.Keys
            && s' == s.(users := s'.users, cache := s'.cache)
            && (forall j <- s.users :: s'.users[j] ==
                  if f.db && j == id then s.users[j].(profile := s.users[j].profile.(lastLogin := at)) else s.users[j])
            && s'.cache == if f.db && IdKey(id) !in f.stuck then s.cache - {IdKey(id)} else s.cache
  {
  }

  // ---------- The authentication repository ----------

  /** A refresh token is stored in one row, in two of its columns; nothing else changes. */
  lemma StoreMeans(s: Accounts, id: Id, token: string, exp: real, f: Faults)
    ensures var (s', ok) := StoreRefresh(s, id, token, exp, f);
            && ok == f.db && s' == s.(users := s'.users) && s'.users.Keys == s.users.Keys
            && forall j <- s.users :: s'.users[j] ==
                 if f.db && j == id then s.users[j].(refreshToken := token, refreshExp := exp) else s.users[j]
  {
  }

  /** The cleanup blanks exactly the refresh tokens whose expiry is past. */
  lemma SweepMeans(s: Accounts, at: real, f: Faults)
    ensures var s' := CleanupExpired(s, at, f);
            && s' == s.(users := s'.users) && s'.users.Keys == s.users.Keys
            && forall j <- s.users :: s'.users[j] ==
                 if f.db && s.users[j].refreshExp < at then s.users[j].(refreshToken := "", refreshExp := at)
                 else s.users[j]
  {
  }

  // ---------- Logging in, refreshing, logging out ----------

  /** The account that a name typed at login means: the first in id order with that username or e-mail address. */
  ghost predicate Named(users: map<Id, User>, name: string, id: Id) {
    && id in users && (users[id].profile.username == name || users[id].profile.email == name)
    && forall j <- users :: users[j].profile.username == name || users[j].profile.email == name ==> id <= j
  }

  lemma AskNamed(users: map<Id, User>, name: string, id: Id)
    ensures Named(users, name, id) ==> AskUsernameOrEmail(users, name) == Some(users[id])
    ensures AskUsernameOrEmail(users, name).Some? ==> exists j :: Named(users, name, j)
  {
    var ids := WithUsername(users, name) + WithEmail(users, name);
    assert forall j :: j in ids <==> j in users && (users[j].profile.username == name || users[j].profile.email == name);
    if ids != {} {
      assert Named(users, name, First(ids));
    }
  }

  /** The claims that a session for an account gets: its own, and an expiry in whole seconds. */
  ghost predicate ClaimsOf(t: Token, id: Id, p: Profile, at: real, ttl: real) {
    t == Signed(Claims(id, p.email, p.role, p.username, (at + ttl).Floor))
  }

  /** The answer to a login under a name that means a given account. */
  lemma LoginOfNamed(s: Accounts, name: string, id: Id, matching: set<string>, newToken: string, at: real, plan: Plan)
    requires Named(s.users, name, id) && s.users[id].id == id
    ensures var (s', reply) := Login(s, name, matching, newToken, at, plan);
            && s'.blacklist == s.blacklist && s'.cfg == s.cfg
            && if !plan.first.db || s.users[id].password !in matching then reply == Denied(InvalidCredentials)
               else if !plan.third.db then reply == Denied(StoreFailed)
               else
                 && reply.Session? && reply.refresh == Some(newToken)
                 && ClaimsOf(reply.access, id, s.users[id].profile, at, s.cfg.accessTtl)
                 && s'.users == s.users[id := s.users[id].(refreshToken := newToken, refreshExp := at + s.cfg.refreshTtl,
                      profile := if plan.second.db then s.users[id].profile.(lastLogin := at) else s.users[id].profile)]
  {
    hide AskUsernameOrEmail, Named, TouchLogin, StoreRefresh;
    NamedIsLive(s.users, name, id);
    AskNamed(s.users, name, id);
    LoginRows(s, id, newToken, at, plan);
  }

  lemma NamedIsLive(users: map<Id, User>, name: string, id: Id)
    requires Named(users, name, id)
    ensures id in users && forall j :: Named(users, name, j) ==> j == id
  {
  }

  /** A login is granted exactly to the account that the name means, exactly for a password that its hash matches,
      as long as the database reads it and stores the new token. It then holds the new token for the configured
      time, its login time is set if that call succeeds, and no other row changes. */
  lemma LoginIff(s: Accounts, name: string, matching: set<string>, newToken: string, at: real, plan: Plan)
    requires forall id <- s.users :: s.users[id].id == id
    ensures var (s', reply) := Login(s, name, matching, newToken, at, plan);
            && (reply.Session? <==> plan.first.db && plan.third.db
                                    && exists id :: Named(s.users, name, id) && s.users[id].password in matching)
            && (!reply.Session? ==> reply == Denied(if plan.first.db
                                     && exists id :: Named(s.users, name, id) && s.users[id].password in matching
                                     then StoreFailed else InvalidCredentials))
            && (forall id :: Named(s.users, name, id) && reply.Session? ==>
                  && ClaimsOf(reply.access, id, s.users[id].profile, at, s.cfg.accessTtl)
                  && reply.refresh == Some(newToken)
                  && s'.users == s.users[id := s.users[id].(refreshToken := newToken, refreshExp := at + s.cfg.refreshTtl,
                       profile := if plan.second.db then s.users[id].profile.(lastLogin := at) else s.users[id].profile)])
            && s'.blacklist == s.blacklist && s'.cfg == s.cfg
  {
    if id :| Named(s.users, name, id) {
      NamedIsLive(s.users, name, id);
      LoginOfNamed(s, name, id, matching, newToken, at, plan);
      hide Login, Named, ClaimsOf;
    } else {
      AskNamed(s.users, name, 0);
      hide AskUsernameOrEmail, Named;
    }
  }

  /** The two writes of a login. */
  lemma LoginRows(s: Accounts, id: Id, newToken: string, at: real, plan: Plan)
    requires id in s.users
    ensures var s1 := TouchLogin(s, id, at, plan.second).(issued := s.issued + {newToken});
            var (s', ok) := StoreRefresh(s1, id, newToken, at + s.cfg.refreshTtl, plan.third);
            && ok == plan.third.db && s'.blacklist == s.blacklist && s'.cfg == s.cfg
            && (ok ==> s'.users == s.users[id := s.users[id].(refreshToken := newToken,
                 refreshExp := at + s.cfg.refreshTtl,
                 profile := if plan.second.db then s.users[id].profile.(lastLogin := at) else s.users[id].profile)])
  {
  }

  /** The account that holds a refresh token that has not run out. */
  ghost predicate Holds(users: map<Id, User>, token: string, at: real, id: Id) {
    && id in users && users[id].refreshToken == token && at < users[id].refreshExp
    && forall j <- users :: users[j].refreshToken == token && at < users[j].refreshExp ==> id <= j
  }

  lemma HolderIs(users: map<Id, User>, token: string, at: real, id: Id)
    ensures Holds(users, token, at, id) ==> FirstOf(users, Holders(users, token, at)) == Some(users[id])
    ensures FirstOf(users, Holders(users, token, at)).Some? ==> exists j :: Holds(users, token, at, j)
  {
    var ids := Holders(users, token, at);
    assert forall j :: j in ids <==> j in users && users[j].refreshToken == token && at < users[j].refreshExp;
    if ids != {} { assert Holds(users, token, at, First(ids)); }
  }

  /** A refresh is granted exactly when somebody holds the token; the holder gets claims of its own row, and if it
      can be stored a new token in place of the old one, and no other row changes. */
  lemma RefreshIff(s: Accounts, token: string, newToken: string, at: real, plan: Plan)
    requires forall id <- s.users :: s.users[id].id == id
    ensures var (s', reply) := Refresh(s, token, newToken, at, plan);
            && (reply.Session? <==> plan.first.db && exists id :: Holds(s.users, token, at, id))
            && (!reply.Session? ==> s' == s && reply == Denied(InvalidToken))
            && (forall id :: Holds(s.users, token, at, id) && reply.Session? ==>
                  && ClaimsOf(reply.access, id, s.users[id].profile, at, s.cfg.accessTtl)
                  && reply.refresh == (if plan.second.db then Some(newToken) else None)
                  && s'.users == if !plan.second.db then s.users
                       else s.users[id := s.users[id].(refreshToken := newToken, refreshExp := at + s.cfg.refreshTtl)])
            && s'.cache == s.cache && s'.blacklist == s.blacklist && s'.cfg == s.cfg
  {
    if id :| Holds(s.users, token, at, id) {
      HolderIs(s.users, token, at, id);
      assert forall j :: Holds(s.users, token, at, j) ==> j == id;
    } else {
      HolderIs(s.users, token, at, 0);
    }
    hide Holders, FirstOf, Holds;
  }

  /** A token with such claims passes the auth service's check, unless it is blacklisted, exactly until the
      configured time after it was issued has passed. */
  lemma AccessTokenLasts(s: Accounts, t: Token, id: Id, p: Profile, at: real, ttl: real, checked: real, validated: real,
                         f: Faults)
    requires ClaimsOf(t, id, p, at, ttl) && t !in s.blacklist
    ensures TokenAccepted(s, t, checked, validated, f) <==> validated < (at + ttl).Floor as real
    ensures validated <= at + ttl - 1.0 ==> TokenAccepted(s, t, checked, validated, f)
    ensures at + ttl <= validated ==> !TokenAccepted(s, t, checked, validated, f)
  {
  }

  /** Logging out refuses an invalid token and changes nothing. A valid one is blacklisted until its expiry, plus
      the time between measuring and storing, if the cache can be written; and its user's refresh token is blanked
      if the database can. No other row, entry or column changes. */
  lemma LogoutMeans(s: Accounts, t: Token, at: real, measured: real, stored: real, plan: Plan)
    ensures var (s', reply) := Logout(s, t, at, measured, stored, plan);
            if t.Forged? || t.claims.expires as real <= at then s' == s && reply == Denied(InvalidToken)
            else
              && reply == Done && s'.cache == s.cache && s'.issued == s.issued && s'.cfg == s.cfg
              && s'.blacklist == (if plan.first.put && measured < t.claims.expires as real
                                  then s.blacklist[t := t.claims.expires as real + (stored - measured)] else s.blacklist)
              && s'.users.Keys == s.users.Keys
              && forall j <- s.users :: s'.users[j] ==
                   if plan.second.db && j == t.claims.userId then s.users[j].(refreshToken := "", refreshExp := stored)
                   else s.users[j]
  {
    if JwtValid(t, at) {
      var left := t.claims.expires as real - measured;
      assert stored + left == t.claims.expires as real + (stored - measured);
    }
  }

  // ---------- Passwords ----------

  /** A password change: refused for a blank password, a new one of fewer than 8 characters, an account that is not
      found, and a current password that the loaded hash does not match, in that order; then the loaded row is
      saved with the new hash. */
  lemma ChangePasswordMeans(s: Accounts, id: Id, current: string, matching: set<string>, next: string, hash: string,
                            at: real, plan: Plan)
    ensures var (s1, found) := Get(s, ByUid(id), at, plan.first);
            var (s', reply) := ChangePassword(s, id, current, matching, next, hash, at, plan);
            && (current == "" || next == "" ==> s' == s && reply == Denied(RequiredField))
            && (current != "" && 1 <= |next| < 8 ==> s' == s && reply == Denied(WeakPassword))
            && (current != "" && 8 <= |next| ==>
                  if !found.Found? then s' == s1 && reply == Denied(UserMissing)
                  else if found.row.password !in matching then s' == s1 && reply == Denied(InvalidCredentials)
                  else var (s2, ok) := Save(s1, found.row.(password := hash), plan.second);
                       s' == s2 && reply == if ok then Done else Denied(StoreFailed))
  {
    hide Get, Save;
  }
}
