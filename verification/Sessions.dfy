/** Refresh tokens are single-use over serialised requests, and exactly when an overlapping update undoes that. */
module Sessions {
  import opened Shared
  import opened Users

  // ---------- Refresh tokens over whole runs ----------

  /** Nobody shares a refresh token, every one was issued, a blank one has run out, and no cached user has one. */
  ghost predicate TokensOk(s: Accounts, now: real) {
    && ZERO_TIME <= now
    && (forall id <- s.users ::
          && s.users[id].id == id
          && (s.users[id].refreshToken == "" ==> s.users[id].refreshExp <= now)
          && (s.users[id].refreshToken != "" ==> s.users[id].refreshToken in s.issued))
    && (forall a, b :: a in s.users && b in s.users && s.users[a].refreshToken == s.users[b].refreshToken != "" ==> a == b)
    && (forall k <- s.cache :: s.cache[k].row.refreshToken == "" && s.cache[k].row.refreshExp == ZERO_TIME)
  }

  /** An issued token that no row holds any more. */
  ghost predicate Spent(s: Accounts, x: string) {
    x != "" && x in s.issued && forall id <- s.users :: s.users[id].refreshToken != x
  }

  /** A step from a good state: the state stays good, and what was spent stays spent. */
  ghost predicate Safe(s: Accounts, s': Accounts, now: real) {
    TokensOk(s', now) && forall x :: Spent(s, x) ==> Spent(s', x)
  }

  lemma SafeOnward(s: Accounts, s1: Accounts, s2: Accounts, now: real)
    requires Safe(s, s1, now) && Safe(s1, s2, now)
    ensures Safe(s, s2, now)
  {
  }

  lemma GetSafe(s: Accounts, q: Query, at: real, f: Faults)
    requires TokensOk(s, at)
    ensures var (s', found) := Get(s, q, at, f);
            && Safe(s, s', at) && s'.users == s.users && s'.issued == s.issued
            && (found.Found? && q.ByUid? ==>
                  || (found.row.refreshToken == "" && found.row.refreshExp <= at)
                  || (q.id in s.users && found.row == s.users[q.id] && found.row.id == q.id))
  {
  }

  /** Saving a row that holds the token its live row holds, or a blank one that has run out. */
  lemma SaveSafe(s: Accounts, u: User, at: real, f: Faults)
    requires TokensOk(s, at)
    requires || (u.refreshToken == "" && u.refreshExp <= at)
             || (u.id in s.users && u.refreshToken == s.users[u.id].refreshToken
                 && u.refreshExp == s.users[u.id].refreshExp)
    ensures Safe(s, Save(s, u, f).0, at)
  {
  }

  /** Replacing one row's token by a freshly issued one, or by a blank one that has run out. */
  lemma StoreSafe(s: Accounts, id: Id, token: string, exp: real, at: real, f: Faults)
    requires TokensOk(s, at)
    requires token == "" ==> exp <= at
    requires token != "" ==> token in s.issued && forall j <- s.users :: s.users[j].refreshToken != token
    ensures TokensOk(StoreRefresh(s, id, token, exp, f).0, at)
    ensures forall x :: Spent(s, x) && x != token ==> Spent(StoreRefresh(s, id, token, exp, f).0, x)
  {
  }

  lemma TouchSafe(s: Accounts, id: Id, at: real, f: Faults)
    requires TokensOk(s, at)
    ensures Safe(s, TouchLogin(s, id, at, f), at)
    ensures forall j <- TouchLogin(s, id, at, f).users ::
              j in s.users && TouchLogin(s, id, at, f).users[j].refreshToken == s.users[j].refreshToken
    ensures TouchLogin(s, id, at, f).issued == s.issued && TouchLogin(s, id, at, f).users.Keys == s.users.Keys
  {
    var s' := TouchLogin(s, id, at, f);
    assert s'.users.Keys == s.users.Keys && s'.issued == s.issued && s'.cache.Items <= s.cache.Items;
    assert forall j <- s.users ::
        && s'.users[j].id == s.users[j].id && s'.users[j].refreshToken == s.users[j].refreshToken
        && s'.users[j].refreshExp == s.users[j].refreshExp;
    hide TouchLogin;
    SameTokensSafe(s, s', at);
  }

  lemma SameTokensSafe(s: Accounts, s': Accounts, at: real)
    requires TokensOk(s, at) && s'.users.Keys == s.users.Keys && s'.issued == s.issued
    requires s'.cache.Items <= s.cache.Items
    requires forall j <- s.users ::
               && s'.users[j].id == s.users[j].id && s'.users[j].refreshToken == s.users[j].refreshToken
               && s'.users[j].refreshExp == s.users[j].refreshExp
    ensures Safe(s, s', at)
  {
    forall k | k in s'.cache ensures k in s.cache && s'.cache[k] == s.cache[k] {
      assert (k, s'.cache[k]) in s'.cache.Items;
    }
  }

  predicate Fresh(s: Accounts, c: Call) {
    match c.request
    case LoggingIn(_, _, newToken) => newToken != "" && newToken !in s.issued
    case Refreshing(_, newToken) => newToken != "" && newToken !in s.issued
    case _ => true
  }

  predicate AllFresh(s: Accounts, calls: seq<Call>)
    decreases |calls|
  {
    calls != [] ==> Fresh(s, calls[0]) && AllFresh(Serve(s, calls[0]).0, calls[1..])
  }

  lemma LaterOk(s: Accounts, now: real, later: real)
    requires TokensOk(s, now) && now <= later
    ensures TokensOk(s, later)
  {
  }

  /** A fresh token goes into the row of one user. */
  lemma IssueSafe(s: Accounts, id: Id, newToken: string, exp: real, at: real, f: Faults)
    requires TokensOk(s, at) && newToken != "" && newToken !in s.issued
    ensures Safe(s, StoreRefresh(s.(issued := s.issued + {newToken}), id, newToken, exp, f).0, at)
  {
    var s1 := s.(issued := s.issued + {newToken});
    assert TokensOk(s1, at);
    assert forall x :: Spent(s, x) ==> Spent(s1, x) && x != newToken;
    StoreSafe(s1, id, newToken, exp, at, f);
  }

  lemma RegisterSafe(s: Accounts, p: Profile, hash: string, newId: Id, at: real, plan: Plan)
    requires TokensOk(s, at)
    ensures Safe(s, Register(s, p, hash, newId, at, plan).0, at)
  {
    hide Get, Unclaimed;
    GetSafe(s, ByEmail(p.email), at, plan.first);
    var s1 := Get(s, ByEmail(p.email), at, plan.first).0;
    GetSafe(s1, ByUsername(p.username), at, plan.second);
  }

  lemma ClashSafe(s: Accounts, id: Id, changed: bool, q: Query, at: real, f: Faults)
    requires TokensOk(s, at)
    ensures var s' := Clash(s, id, changed, q, at, f).0; Safe(s, s', at) && s'.users == s.users
  {
    hide Get, TokensOk;
    if changed { GetSafe(s, q, at, f); }
  }

  lemma UpdateUserSafe(s: Accounts, id: Id, u: ProfileUpdate, at: real, plan: Plan)
    requires TokensOk(s, at)
    ensures Safe(s, UpdateUser(s, id, u, at, plan).0, at)
  {
    hide Get, Clash, Save, TokensOk, Edited;
    GetSafe(s, ByUid(id), at, plan.first);
    var (s1, found) := Get(s, ByUid(id), at, plan.first);
    if found.Found? {
      var user := found.row;
      var email, name := Or(u.email, user.profile.email), Or(u.username, user.profile.username);
      ClashSafe(s1, id, email != user.profile.email, ByEmail(email), at, plan.second);
      var s2 := Clash(s1, id, email != user.profile.email, ByEmail(email), at, plan.second).0;
      SafeOnward(s, s1, s2, at);
      ClashSafe(s2, id, name != user.profile.username, ByUsername(name), at, plan.third);
      var s3 := Clash(s2, id, name != user.profile.username, ByUsername(name), at, plan.third).0;
      SafeOnward(s, s2, s3, at);
      SaveSafe(s3, user.(profile := Edited(user.profile, u)), at, plan.fourth);
      SafeOnward(s, s3, Save(s3, user.(profile := Edited(user.profile, u)), plan.fourth).0, at);
    }
  }

  lemma ChangePasswordSafe(s: Accounts, id: Id, current: string, matching: set<string>, next: string, hash: string,
                           at: real, plan: Plan)
    requires TokensOk(s, at)
    ensures Safe(s, ChangePassword(s, id, current, matching, next, hash, at, plan).0, at)
  {
    hide Get, Save, TokensOk;
    GetSafe(s, ByUid(id), at, plan.first);
    var (s1, found) := Get(s, ByUid(id), at, plan.first);
    if found.Found? {
      SaveSafe(s1, found.row.(password := hash), at, plan.second);
      SafeOnward(s, s1, Save(s1, found.row.(password := hash), plan.second).0, at);
    }
  }

  lemma DeleteUserSafe(s: Accounts, id: Id, at: real, plan: Plan)
    requires TokensOk(s, at)
    ensures Safe(s, DeleteUser(s, id, at, plan).0, at)
  {
    hide Get;
    GetSafe(s, ByUid(id), at, plan.first);
    var s1 := Get(s, ByUid(id), at, plan.first).0;
    GetSafe(s1, ByUid(id), at, plan.second);
  }

  lemma LoginSafe(s: Accounts, name: string, matching: set<string>, newToken: string, at: real, plan: Plan)
    requires TokensOk(s, at) && newToken != "" && newToken !in s.issued
    ensures Safe(s, Login(s, name, matching, newToken, at, plan).0, at)
  {
    hide TouchLogin, StoreRefresh, TokensOk;
    var found := if plan.first.db then AskUsernameOrEmail(s.users, name) else None;
    if found.Some? {
      var id := found.value.id;
      TouchSafe(s, id, at, plan.second);
      var s1 := TouchLogin(s, id, at, plan.second);
      IssueSafe(s1, id, newToken, at + s.cfg.refreshTtl, at, plan.third);
      var s2 := s1.(issued := s1.issued + {newToken});
      SafeOnward(s, s1, StoreRefresh(s2, id, newToken, at + s.cfg.refreshTtl, plan.third).0, at);
    }
  }

  lemma RefreshSafe(s: Accounts, token: string, newToken: string, at: real, plan: Plan)
    requires TokensOk(s, at) && newToken != "" && newToken !in s.issued
    ensures Safe(s, Refresh(s, token, newToken, at, plan).0, at)
  {
    hide UserByRefresh, StoreRefresh, TokensOk, Spent;
    var found := UserByRefresh(s, token, at, plan.first);
    if found.Found? { IssueSafe(s, found.row.id, newToken, at + s.cfg.refreshTtl, at, plan.second); }
  }

  lemma SweepSafe(s: Accounts, at: real, f: Faults)
    requires TokensOk(s, at)
    ensures Safe(s, CleanupExpired(s, at, f), at)
  {
    var s' := CleanupExpired(s, at, f);
    assert s'.users.Keys == s.users.Keys && s'.cache == s.cache && s'.issued == s.issued;
    assert forall id <- s.users ::
        s'.users[id] == s.users[id] || s'.users[id] == s.users[id].(refreshToken := "", refreshExp := at);
    hide CleanupExpired, Swept;
    BlankedSafe(s, s', at);
  }

  lemma BlankedSafe(s: Accounts, s': Accounts, at: real)
    requires TokensOk(s, at) && s'.users.Keys == s.users.Keys && s'.cache == s.cache && s'.issued == s.issued
    requires forall id <- s.users ::
        s'.users[id] == s.users[id] || s'.users[id] == s.users[id].(refreshToken := "", refreshExp := at)
    ensures Safe(s, s', at)
  {
  }

  lemma LogoutSafe(s: Accounts, t: Token, at: real, measured: real, stored: real, plan: Plan)
    requires TokensOk(s, stored)
    ensures Safe(s, Logout(s, t, at, measured, stored, plan).0, stored)
  {
    hide StoreRefresh;
    if JwtValid(t, at) {
      var left := t.claims.expires as real - measured;
      var s1 := if 0.0 < left && plan.first.put then s.(blacklist := s.blacklist[t := stored + left]) else s;
      assert Safe(s, s1, stored);
      StoreSafe(s1, t.claims.userId, "", stored, stored, plan.second);
    }
  }

  lemma ServeSafe(s: Accounts, now: real, c: Call)
    requires TokensOk(s, now) && OnTime(now, c) && Fresh(s, c)
    ensures Safe(s, Serve(s, c).0, End(c))
  {
    LaterOk(s, now, End(c));
    hide TokensOk, Spent, Get, Register, UpdateUser, ChangePassword, DeleteUser, Login, Refresh, Logout, CleanupExpired;
    match c.request
    case Registering(p, hash, newId) => RegisterSafe(s, p, hash, newId, c.at, c.plan);
    case Editing(id, u) => UpdateUserSafe(s, id, u, c.at, c.plan);
    case ChangingPassword(id, current, matching, next, hash) =>
      ChangePasswordSafe(s, id, current, matching, next, hash, c.at, c.plan);
    case Deleting(id) => DeleteUserSafe(s, id, c.at, c.plan);
    case LoggingIn(name, matching, newToken) => LoginSafe(s, name, matching, newToken, c.at, c.plan);
    case Refreshing(token, newToken) => RefreshSafe(s, token, newToken, c.at, c.plan);
    case LoggingOut(t, measured, stored) => LogoutSafe(s, t, c.at, measured, stored, c.plan);
    case Looking(q) => GetSafe(s, q, c.at, c.plan.first);
    case Sweeping => SweepSafe(s, c.at, c.plan.first);
  }

  /** The clock at the end of a run. */
  function Close(now: real, calls: seq<Call>): real {
    if calls == [] then now else End(calls[|calls| - 1])
  }

  lemma {:induction false} RunSafe(s: Accounts, now: real, calls: seq<Call>)
    requires TokensOk(s, now) && Timely(now, calls) && AllFresh(s, calls)
    ensures Safe(s, ServeAll(s, calls), Close(now, calls))
    decreases |calls|
  {
    hide TokensOk, Spent, Serve, Fresh;
    if calls != [] {
      ServeSafe(s, now, calls[0]);
      RunSafe(Serve(s, calls[0]).0, End(calls[0]), calls[1..]);
    }
  }

  // ---------- What is accepted ----------

  /** A token is accepted as a user exactly when that user's row holds it and it has not run out. */
  lemma AcceptedIff(s: Accounts, now: real, x: string, at: real, f: Faults, u: User)
    requires TokensOk(s, now) && now <= at && f.db
    ensures UserByRefresh(s, x, at, f) == Found(u) <==>
            u.id in s.users && s.users[u.id] == u && u.refreshToken == x && at < u.refreshExp
    ensures UserByRefresh(s, x, at, f) == Found(u) ==> x != ""
  {
    var ids := Holders(s.users, x, at);
    if ids != {} {
      var m := First(ids);
      assert m in ids;
    }
    if u.id in s.users && s.users[u.id] == u && u.refreshToken == x && at < u.refreshExp {
      assert u.id in ids;
    }
  }

  lemma SpentIsRefused(s: Accounts, x: string, at: real, f: Faults)
    requires Spent(s, x)
    ensures !UserByRefresh(s, x, at, f).Found?
  {
  }

  lemma FirstOfIn(users: map<Id, User>, ids: set<Id>)
    requires ids <= users.Keys && FirstOf(users, ids).Some?
    ensures exists m :: m in ids && FirstOf(users, ids).value == users[m]
  {
  }

  lemma LoginIssues(s: Accounts, name: string, matching: set<string>, newToken: string, at: real, plan: Plan)
    requires TokensOk(s, at) && Login(s, name, matching, newToken, at, plan).1.Session?
    ensures var (s', reply) := Login(s, name, matching, newToken, at, plan);
            && reply.access.Signed? && reply.refresh == Some(newToken)
            && var id := reply.access.claims.userId;
               id in s'.users && s'.users[id].refreshToken == newToken && s'.users[id].refreshExp == at + s.cfg.refreshTtl
  {
    FirstOfIn(s.users, WithUsername(s.users, name) + WithEmail(s.users, name));
  }

  lemma RefreshIssues(s: Accounts, token: string, newToken: string, at: real, plan: Plan)
    requires TokensOk(s, at) && Refresh(s, token, newToken, at, plan).1.Session?
    requires Refresh(s, token, newToken, at, plan).1.refresh.Some?
    ensures var (s', reply) := Refresh(s, token, newToken, at, plan);
            && reply.access.Signed? && reply.refresh == Some(newToken)
            && var id := reply.access.claims.userId;
               id in s'.users && s'.users[id].refreshToken == newToken && s'.users[id].refreshExp == at + s.cfg.refreshTtl
  {
    FirstOfIn(s.users, Holders(s.users, token, at));
  }

  /** The refresh token that a session is given is accepted exactly until the configured time has passed, and as the
      user of the session's access token. */
  lemma IssuedTokenIsAccepted(s: Accounts, now: real, c: Call, later: real, f: Faults)
    requires TokensOk(s, now) && OnTime(now, c) && Fresh(s, c)
    requires c.request.LoggingIn? || c.request.Refreshing?
    requires Serve(s, c).1.Session? && Serve(s, c).1.refresh.Some?
    requires f.db && c.at <= later
    ensures var (s', reply) := Serve(s, c);
            var found := UserByRefresh(s', reply.refresh.value, later, f);
            && reply.access.Signed?
            && (found.Found? <==> later < c.at + s.cfg.refreshTtl)
            && (found.Found? ==> found.row.id == reply.access.claims.userId)
  {
    hide TokensOk, Login, Refresh, UserByRefresh;
    ServeSafe(s, now, c);
    LaterOk(s, now, c.at);
    var (s', reply) := Serve(s, c);
    match c.request {
      case LoggingIn(name, matching, newToken) => LoginIssues(s, name, matching, newToken, c.at, c.plan);
      case Refreshing(token, newToken) => RefreshIssues(s, token, newToken, c.at, c.plan);
    }
    var id := reply.access.claims.userId;
    RowsKnowTheirIds(s', c.at);
    AcceptedIff(s', c.at, reply.refresh.value, later, f, s'.users[id]);
    var found := UserByRefresh(s', reply.refresh.value, later, f);
    if found.Found? {
      AcceptedIff(s', c.at, reply.refresh.value, later, f, found.row);
      OthersDiffer(s', id, reply.refresh.value, c.at);
    }
  }

  lemma RowsKnowTheirIds(s: Accounts, now: real)
    requires TokensOk(s, now)
    ensures forall id <- s.users :: s.users[id].id == id
  {
  }

  /** A token that a rotation, a login or a logout has just replaced or revoked. */
  ghost predicate Retired(s: Accounts, now: real, c: Call, x: string) {
    && x != ""
    && match c.request
       case Refreshing(token, _) =>
         token == x && Serve(s, c).1.Session? && Serve(s, c).1.refresh.Some?
       case LoggingIn(name, _, _) =>
         && Serve(s, c).1.Session?
         && AskUsernameOrEmail(s.users, name).value.refreshToken == x
       case LoggingOut(t, _, _) =>
         && JwtValid(t, c.at) && c.plan.second.db
         && t.claims.userId in s.users && s.users[t.claims.userId].refreshToken == x
       case _ => false
  }

  /** Replacing the token of the row that holds x leaves no holder of x. */
  lemma ReplaceSpends(s: Accounts, now: real, id: Id, x: string, token: string, exp: real)
    requires TokensOk(s, now) && id in s.users && s.users[id].refreshToken == x != "" && token != x
    ensures forall j <- SetRefresh(s.users, id, token, exp) :: SetRefresh(s.users, id, token, exp)[j].refreshToken != x
  {
  }

  lemma RotatedIsSpent(s: Accounts, now: real, x: string, newToken: string, at: real, plan: Plan)
    requires TokensOk(s, now) && now <= at && newToken != "" && newToken !in s.issued
    requires Refresh(s, x, newToken, at, plan).1.Session? && Refresh(s, x, newToken, at, plan).1.refresh.Some?
    ensures x != "" ==> Spent(Refresh(s, x, newToken, at, plan).0, x)
  {
    hide SetRefresh;
    FirstOfIn(s.users, Holders(s.users, x, at));
    if x != "" {
      ReplaceSpends(s, now, First(Holders(s.users, x, at)), x, newToken, at + s.cfg.refreshTtl);
    }
  }

  lemma ReplacedIsSpent(s: Accounts, now: real, name: string, matching: set<string>, x: string, newToken: string,
                        at: real, plan: Plan)
    requires TokensOk(s, now) && now <= at && x != "" && newToken != "" && newToken !in s.issued
    requires Login(s, name, matching, newToken, at, plan).1.Session?
    requires AskUsernameOrEmail(s.users, name).value.refreshToken == x
    ensures Spent(Login(s, name, matching, newToken, at, plan).0, x)
  {
    hide SetRefresh, TouchLogin;
    LaterOk(s, now, at);
    var ids := WithUsername(s.users, name) + WithEmail(s.users, name);
    FirstOfIn(s.users, ids);
    TouchSafe(s, First(ids), at, plan.second);
    ReplaceSpends(TouchLogin(s, First(ids), at, plan.second), at, First(ids), x, newToken, at + s.cfg.refreshTtl);
  }

  lemma RevokedIsSpent(s: Accounts, now: real, t: Token, x: string, at: real, measured: real, stored: real, plan: Plan)
    requires TokensOk(s, now) && x != "" && JwtValid(t, at) && plan.second.db
    requires t.claims.userId in s.users && s.users[t.claims.userId].refreshToken == x
    ensures Spent(Logout(s, t, at, measured, stored, plan).0, x)
  {
    hide SetRefresh;
    ReplaceSpends(s, now, t.claims.userId, x, "", stored);
  }

  lemma RetiredIsSpent(s: Accounts, now: real, c: Call, x: string)
    requires TokensOk(s, now) && OnTime(now, c) && Fresh(s, c) && Retired(s, now, c, x)
    ensures Spent(Serve(s, c).0, x)
  {
    hide Refresh, Login, Logout, TokensOk, Spent;
    match c.request
    case Refreshing(token, newToken) => RotatedIsSpent(s, now, x, newToken, c.at, c.plan);
    case LoggingIn(name, matching, newToken) => ReplacedIsSpent(s, now, name, matching, x, newToken, c.at, c.plan);
    case LoggingOut(t, measured, stored) => RevokedIsSpent(s, now, t, x, c.at, measured, stored, c.plan);
  }

  /** Single use, over whole runs: once a stored rotation, a login or a logout has replaced or revoked a
      refresh token, no later request is granted on it, whatever is served in between. */
  lemma RefreshTokensAreSingleUse(s: Accounts, now: real, c: Call, x: string, calls: seq<Call>, at: real, f: Faults)
    requires TokensOk(s, now) && OnTime(now, c) && Fresh(s, c) && Retired(s, now, c, x)
    requires Timely(End(c), calls) && AllFresh(Serve(s, c).0, calls)
    ensures !UserByRefresh(ServeAll(Serve(s, c).0, calls), x, at, f).Found?
  {
    hide TokensOk, Serve, Spent, Retired;
    ServeSafe(s, now, c);
    RetiredIsSpent(s, now, c, x);
    RunSafe(Serve(s, c).0, End(c), calls);
    SpentIsRefused(ServeAll(Serve(s, c).0, calls), x, at, f);
  }

  /** At any moment of any run a user has at most one accepted refresh token, and a token one user. */
  lemma OneTokenPerUser(s: Accounts, now: real, calls: seq<Call>, x: string, y: string, at: real, f: Faults)
    requires TokensOk(s, now) && Timely(now, calls) && AllFresh(s, calls) && Close(now, calls) <= at
    requires var e := ServeAll(s, calls); UserByRefresh(e, x, at, f).Found? && UserByRefresh(e, y, at, f).Found?
    ensures var e := ServeAll(s, calls);
            UserByRefresh(e, x, at, f).row.id == UserByRefresh(e, y, at, f).row.id <==> x == y
  {
    RunSafe(s, now, calls);
    hide ServeAll, TokensOk;
    var e := ServeAll(s, calls);
    AcceptedIff(e, Close(now, calls), x, at, f, UserByRefresh(e, x, at, f).row);
    AcceptedIff(e, Close(now, calls), y, at, f, UserByRefresh(e, y, at, f).row);
  }

  // ---------- Overlapping requests ----------

  /** An account that a profile update or a password change has loaded is saved whole, with any other columns
      changed, after other requests have been served in between. A token that was spent by then comes back
      exactly when the save succeeds and the account had been read from the database while it held that token.
      It is then accepted again until its old expiry. */
  lemma OverlappedSaveRevivesIff(s: Accounts, id: Id, at: real, f: Faults, calls: seq<Call>, u: User, f': Faults,
                                 x: string, later: real, g: Faults)
    requires TokensOk(s, at) && Get(s, ByUid(id), at, f).1.Found? && g.db
    requires var loaded := Get(s, ByUid(id), at, f).1.row;
             u.id == loaded.id && u.refreshToken == loaded.refreshToken && u.refreshExp == loaded.refreshExp
    requires Spent(ServeAll(Get(s, ByUid(id), at, f).0, calls), x)
    ensures var (s2, saved) := Save(ServeAll(Get(s, ByUid(id), at, f).0, calls), u, f');
            var revived := saved && !IsHit(s, IdKey(id), at, f) && s.users[id].refreshToken == x;
            && (!Spent(s2, x) <==> revived)
            && (UserByRefresh(s2, x, later, g).Found? <==> revived && later < s.users[id].refreshExp)
  {
    var s' := ServeAll(Get(s, ByUid(id), at, f).0, calls);
    LoadedToken(s, id, at, f);
    hide Get, ServeAll, TokensOk, Unclaimed, KeysOf;
    SavedHolders(s', u, f', x, later);
  }

  /** What an update loads: on a miss the row, on a hit a row without a token. */
  lemma LoadedToken(s: Accounts, id: Id, at: real, f: Faults)
    requires TokensOk(s, at) && Get(s, ByUid(id), at, f).1.Found?
    ensures var u := Get(s, ByUid(id), at, f).1.row;
            if IsHit(s, IdKey(id), at, f) then u.refreshToken == "" else id in s.users && u == s.users[id]
  {
  }

  lemma SavedHolders(s: Accounts, u: User, f: Faults, x: string, later: real)
    requires Spent(s, x)
    ensures var (s', saved) := Save(s, u, f);
            && (!Spent(s', x) <==> saved && u.refreshToken == x)
            && (Holders(s'.users, x, later) != {} <==> saved && u.refreshToken == x && later < u.refreshExp)
  {
    var (s', saved) := Save(s, u, f);
    if saved {
      assert s'.users[u.id] == u;
      if u.refreshToken == x && later < u.refreshExp { assert u.id in Holders(s'.users, x, later); }
    }
  }

  /** Such runs: an account is loaded, its token is rotated, and the loaded account is saved with changes. The
      token that was rotated away is accepted again, and the one issued for it is not. */
  lemma RotationUndone(u: User, saved: User, cfg: Config, newToken: string)
    requires u.refreshToken != "" && newToken != "" && newToken != u.refreshToken && 3.0 < u.refreshExp
    requires saved == u.(profile := saved.profile, password := saved.password)
    ensures var up := Faults(true, true, true, {});
            var plan := Plan(up, up, up, up);
            var s := Open(map[u.id := u], cfg).(issued := {u.refreshToken});
            var (s1, loaded) := Get(s, ByUid(u.id), 1.0, up);
            var (s2, rotated) := Serve(s1, Call(2.0, Refreshing(u.refreshToken, newToken), plan));
            && loaded == Found(u) && rotated.Session? && rotated.refresh == Some(newToken)
            && !UserByRefresh(s2, u.refreshToken, 2.0, up).Found?
            && var s3 := Save(s2, saved, up).0;
               && UserByRefresh(s3, u.refreshToken, 3.0, up) == Found(saved)
               && !UserByRefresh(s3, newToken, 3.0, up).Found?
  {
    var up := Faults(true, true, true, {});
    var plan := Plan(up, up, up, up);
    var s := Open(map[u.id := u], cfg).(issued := {u.refreshToken});
    var s1 := Get(s, ByUid(u.id), 1.0, up).0;
    assert Holders(s1.users, u.refreshToken, 2.0) == {u.id};
    var s2 := Serve(s1, Call(2.0, Refreshing(u.refreshToken, newToken), plan)).0;
    assert s2.users == map[u.id := u.(refreshToken := newToken, refreshExp := 2.0 + cfg.refreshTtl)];
    var s3 := Save(s2, saved, up).0;
    assert s3.users == map[u.id := saved];
    assert Holders(s3.users, u.refreshToken, 3.0) == {u.id};
    assert Holders(s3.users, newToken, 3.0) == {};
  }

  /** A profile update does it. */
  lemma RotationUndoneByUpdate(u: User, cfg: Config, newToken: string, update: ProfileUpdate)
    requires u.refreshToken != "" && newToken != "" && newToken != u.refreshToken && 3.0 < u.refreshExp
    ensures var up := Faults(true, true, true, {});
            var s1 := Get(Open(map[u.id := u], cfg).(issued := {u.refreshToken}), ByUid(u.id), 1.0, up).0;
            var s2 := Serve(s1, Call(2.0, Refreshing(u.refreshToken, newToken), Plan(up, up, up, up))).0;
            var s3 := Save(s2, u.(profile := Edited(u.profile, update)), up).0;
            UserByRefresh(s3, u.refreshToken, 3.0, up).Found? && !UserByRefresh(s3, newToken, 3.0, up).Found?
  {
    RotationUndone(u, u.(profile := Edited(u.profile, update)), cfg, newToken);
    hide Get, Serve, Save, UserByRefresh, Edited;
  }

  /** And so does a password change. */
  lemma RotationUndoneByPasswordChange(u: User, cfg: Config, newToken: string, hash: string)
    requires u.refreshToken != "" && newToken != "" && newToken != u.refreshToken && 3.0 < u.refreshExp
    ensures var up := Faults(true, true, true, {});
            var s1 := Get(Open(map[u.id := u], cfg).(issued := {u.refreshToken}), ByUid(u.id), 1.0, up).0;
            var s2 := Serve(s1, Call(2.0, Refreshing(u.refreshToken, newToken), Plan(up, up, up, up))).0;
            var s3 := Save(s2, u.(password := hash), up).0;
            UserByRefresh(s3, u.refreshToken, 3.0, up).Found? && !UserByRefresh(s3, newToken, 3.0, up).Found?
  {
    RotationUndone(u, u.(password := hash), cfg, newToken);
    hide Get, Serve, Save, UserByRefresh;
  }

  /** Two refreshes with one token, both reading its holder before either stores a new one: both are granted, and
      from then on the holder's only accepted token is the one stored last. */
  lemma OverlappingRefreshes(s: Accounts, x: string, y: string, z: string, at: real, u: User, f: Faults, f1: Faults,
                             f2: Faults, t: string, later: real, g: Faults)
    requires TokensOk(s, at) && UserByRefresh(s, x, at, f) == Found(u) && g.db && at <= later
    requires y != "" && z != "" && y != z && y !in s.issued && z !in s.issued
    ensures var (s1, first) := Grant(s, u, y, at, f1);
            var (s2, second) := Grant(s1, u, z, at, f2);
            var last := if f2.db then z else if f1.db then y else x;
            && first.Session? && second.Session?
            && first.refresh == (if f1.db then Some(y) else None) && second.refresh == (if f2.db then Some(z) else None)
            && u.id in s2.users && s2.users[u.id].refreshToken == last
            && (UserByRefresh(s2, t, later, g).Found? && UserByRefresh(s2, t, later, g).row.id == u.id
                <==> t == last && later < s2.users[u.id].refreshExp)
            && (t in {x, y, z} && t != last ==> !UserByRefresh(s2, t, later, g).Found?)
  {
    assert f.db;
    hide TokensOk, UserByRefresh, Grant, Spent;
    AcceptedIff(s, at, x, at, f, u);
    OthersDiffer(s, u.id, x, at);
    GrantedTwice(s, u, y, z, at, f1, f2);
    var s2 := Grant(Grant(s, u, y, at, f1).0, u, z, at, f2).0;
    AcceptedAsOwner(s2, at, u.id, t, later, g);
    if t in {x, y, z} && t != s2.users[u.id].refreshToken {
      assert Spent(s2, t) by { NobodyHolds(s, s2, u.id, x, t); }
      SpentIsRefused(s2, t, later, g);
    }
  }

  lemma GrantedTwice(s: Accounts, u: User, y: string, z: string, at: real, f1: Faults, f2: Faults)
    requires TokensOk(s, at) && u.id in s.users
    requires y != "" && z != "" && y != z && y !in s.issued && z !in s.issued
    ensures var (s1, first) := Grant(s, u, y, at, f1);
            var (s2, second) := Grant(s1, u, z, at, f2);
            && TokensOk(s2, at) && s2.issued == s.issued + {y, z}
            && first.Session? && first.refresh == (if f1.db then Some(y) else None)
            && second.Session? && second.refresh == (if f2.db then Some(z) else None)
            && u.id in s2.users && s2.users - {u.id} == s.users - {u.id}
            && s2.users[u.id].refreshToken == if f2.db then z else if f1.db then y else s.users[u.id].refreshToken
  {
    hide TokensOk, Grant;
    GrantRows(s, u, y, at, f1);
    GrantRows(Grant(s, u, y, at, f1).0, u, z, at, f2);
  }

  lemma GrantRows(s: Accounts, u: User, y: string, at: real, f: Faults)
    requires TokensOk(s, at) && u.id in s.users && y != "" && y !in s.issued
    ensures var (s', reply) := Grant(s, u, y, at, f);
            && TokensOk(s', at) && s'.issued == s.issued + {y} && s'.cfg == s.cfg
            && s'.users == (if !f.db then s.users
                            else s.users[u.id := s.users[u.id].(refreshToken := y, refreshExp := at + s.cfg.refreshTtl)])
            && reply.Session? && reply.refresh == (if f.db then Some(y) else None)
  {
    hide TokensOk, Spent;
    IssueSafe(s, u.id, y, at + s.cfg.refreshTtl, at, f);
  }

  /** The one token that is accepted as a given user. */
  lemma AcceptedAsOwner(s: Accounts, now: real, id: Id, t: string, at: real, f: Faults)
    requires TokensOk(s, now) && now <= at && f.db && id in s.users
    ensures UserByRefresh(s, t, at, f).Found? && UserByRefresh(s, t, at, f).row.id == id
            <==> t == s.users[id].refreshToken && at < s.users[id].refreshExp
  {
    RowsKnowTheirIds(s, now);
    hide TokensOk, UserByRefresh;
    AcceptedIff(s, now, t, at, f, s.users[id]);
    if UserByRefresh(s, t, at, f).Found? { AcceptedIff(s, now, t, at, f, UserByRefresh(s, t, at, f).row); }
  }

  lemma NobodyHolds(s: Accounts, s': Accounts, id: Id, x: string, t: string)
    requires id in s'.users && s'.users - {id} == s.users - {id} && s'.users[id].refreshToken != t
    requires t != "" && t in s'.issued && (t == x || t !in s.issued)
    requires forall j <- s.users :: j != id ==> s.users[j].refreshToken != x
    requires forall j <- s.users :: s.users[j].refreshToken == "" || s.users[j].refreshToken in s.issued
    ensures Spent(s', t)
  {
    forall j | j in s'.users ensures s'.users[j].refreshToken != t {
      if j != id { assert j in s'.users - {id} && j in s.users && s'.users[j] == s.users[j]; }
    }
  }

  /** Nobody else holds a holder's token, and held tokens were issued. */
  lemma OthersDiffer(s: Accounts, id: Id, x: string, now: real)
    requires TokensOk(s, now) && id in s.users && s.users[id].refreshToken == x != ""
    ensures forall j <- s.users :: j != id ==> s.users[j].refreshToken != x
    ensures forall j <- s.users :: s.users[j].refreshToken == "" || s.users[j].refreshToken in s.issued
  {
  }
}
