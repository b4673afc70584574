/** How long a refresh token lives: until it runs out, or one of exactly the requests named here ends it. */
module TokenLives {
  import opened Shared
  import opened Users
  import opened Sessions
  import opened AccountEffects

  /** A row cached under an id has that id. */
  ghost predicate CacheOwn(s: Accounts) {
    forall id :: IdKey(id) in s.cache ==> s.cache[IdKey(id)].row.id == id
  }

  ghost predicate Good(s: Accounts, now: real) {
    TokensOk(s, now) && CacheOwn(s)
  }

  /** All that a step changes of the table is one row; every token that was issued stays known as issued. */
  ghost predicate OnlyRow(s: Accounts, s': Accounts, id: Id) {
    s'.users - {id} == s.users - {id} && s.issued <= s'.issued && CacheOwn(s')
  }

  ghost predicate NoRow(s: Accounts, s': Accounts) {
    s'.users == s.users && s.issued <= s'.issued && CacheOwn(s')
  }

  lemma GetOwn(s: Accounts, now: real, q: Query, at: real, f: Faults)
    requires Good(s, now)
    ensures var (s', found) := Get(s, q, at, f);
            && NoRow(s, s')
            && (found.Found? && q.ByUid? ==>
                  && found.row.id == q.id
                  && if IsHit(s, KeyOf(q), at, f) then found.row.refreshToken == ""
                     else q.id in s.users && found.row == s.users[q.id])
  {
  }

  lemma ClashOwn(s: Accounts, now: real, id: Id, changed: bool, q: Query, at: real, f: Faults)
    requires Good(s, now)
    ensures NoRow(s, Clash(s, id, changed, q, at, f).0)
  {
    hide Get, Good;
    if changed { GetOwn(s, now, q, at, f); } else { GoodIsOwn(s, now); }
  }

  lemma GoodIsOwn(s: Accounts, now: real)
    requires Good(s, now)
    ensures CacheOwn(s)
  {
  }

  lemma SaveOwn(s: Accounts, u: User, f: Faults)
    requires CacheOwn(s)
    ensures var (s', ok) := Save(s, u, f);
            && OnlyRow(s, s', u.id) && s'.users == (if ok then s.users[u.id := u] else s.users)
  {
    hide Unclaimed;
  }

  // ---------- What each request writes ----------

  /** A row that was saved as loaded: without its token from the cache, with it from the database. */
  ghost predicate Rewritten(s: Accounts, s': Accounts, id: Id, hit: bool) {
    && id in s'.users
    && if hit then s'.users[id].refreshToken == "" else id in s.users && SameToken(s, s', id)
  }

  ghost predicate SameToken(s: Accounts, s': Accounts, id: Id)
    requires id in s.users
  {
    && id in s'.users && s'.users[id].refreshToken == s.users[id].refreshToken
    && s'.users[id].refreshExp == s.users[id].refreshExp
  }

  lemma EditWrites(s: Accounts, id: Id, u: ProfileUpdate, at: real, plan: Plan)
    requires Good(s, at)
    ensures var (s', reply) := UpdateUser(s, id, u, at, plan);
            && OnlyRow(s, s', id)
            && (reply.Denied? ==> s'.users == s.users)
            && (!reply.Denied? ==> Rewritten(s, s', id, IsHit(s, IdKey(id), at, plan.first)))
  {
    hide Get, Clash, Save, Good, TokensOk, CacheOwn, Edited, IsHit;
    GetOwn(s, at, ByUid(id), at, plan.first);
    GetGood(s, ByUid(id), at, plan.first);
    var (s1, found) := Get(s, ByUid(id), at, plan.first);
    if found.Found? {
      var p := found.row.profile;
      var email, name := Or(u.email, p.email), Or(u.username, p.username);
      ClashOwn(s1, at, id, email != p.email, ByEmail(email), at, plan.second);
      ClashGood(s1, id, email != p.email, ByEmail(email), at, plan.second);
      var s2 := Clash(s1, id, email != p.email, ByEmail(email), at, plan.second).0;
      ClashOwn(s2, at, id, name != p.username, ByUsername(name), at, plan.third);
      var s3 := Clash(s2, id, name != p.username, ByUsername(name), at, plan.third).0;
      SaveOwn(s3, found.row.(profile := Edited(p, u)), plan.fourth);
    }
  }

  lemma GetGood(s: Accounts, q: Query, at: real, f: Faults)
    requires Good(s, at)
    ensures Good(Get(s, q, at, f).0, at)
  {
    hide Get, TokensOk, CacheOwn;
    GetSafe(s, q, at, f);
    GetOwn(s, at, q, at, f);
  }

  lemma ClashGood(s: Accounts, id: Id, changed: bool, q: Query, at: real, f: Faults)
    requires Good(s, at)
    ensures Good(Clash(s, id, changed, q, at, f).0, at)
  {
    hide Get, Good;
    if changed { GetGood(s, q, at, f); }
  }

  lemma PasswordWrites(s: Accounts, id: Id, current: string, matching: set<string>, next: string, hash: string,
                       at: real, plan: Plan)
    requires Good(s, at)
    ensures var (s', reply) := ChangePassword(s, id, current, matching, next, hash, at, plan);
            && OnlyRow(s, s', id)
            && (reply.Denied? ==> s'.users == s.users)
            && (!reply.Denied? ==> Rewritten(s, s', id, IsHit(s, IdKey(id), at, plan.first)))
  {
    hide Get, Save, Good, CacheOwn, IsHit;
    GoodIsOwn(s, at);
    GetOwn(s, at, ByUid(id), at, plan.first);
    var (s1, found) := Get(s, ByUid(id), at, plan.first);
    if found.Found? { SaveOwn(s1, found.row.(password := hash), plan.second); }
  }

  lemma DeleteWrites(s: Accounts, id: Id, at: real, plan: Plan)
    requires Good(s, at)
    ensures var (s', reply) := DeleteUser(s, id, at, plan);
            && OnlyRow(s, s', id)
            && (reply.Denied? ==> s'.users == s.users) && (!reply.Denied? ==> id !in s'.users)
  {
    hide Get, Good;
    GetOwn(s, at, ByUid(id), at, plan.first);
    GetGood(s, ByUid(id), at, plan.first);
    var s1 := Get(s, ByUid(id), at, plan.first).0;
    GetOwn(s1, at, ByUid(id), at, plan.second);
  }

  lemma RegisterWrites(s: Accounts, p: Profile, hash: string, newId: Id, at: real, plan: Plan)
    requires Good(s, at)
    ensures var (s', reply) := Register(s, p, hash, newId, at, plan);
            && OnlyRow(s, s', newId) && (newId in s.users ==> s'.users == s.users)
            && (newId in s'.users && newId !in s.users ==> s'.users[newId].refreshToken == "")
  {
    hide Get, Good, Unclaimed;
    GetOwn(s, at, ByEmail(p.email), at, plan.first);
    GetGood(s, ByEmail(p.email), at, plan.first);
    var s1 := Get(s, ByEmail(p.email), at, plan.first).0;
    GetOwn(s1, at, ByUsername(p.username), at, plan.second);
  }

  lemma LoginWrites(s: Accounts, name: string, matching: set<string>, newToken: string, at: real, plan: Plan, id: Id)
    requires Good(s, at) && id in s.users
    ensures var (s', reply) := Login(s, name, matching, newToken, at, plan);
            && s.issued <= s'.issued && CacheOwn(s')
            && if !reply.Denied? && Named(s.users, name, id) then id in s'.users && s'.users[id].refreshToken == newToken
               else SameToken(s, s', id)
  {
    hide AskUsernameOrEmail, TouchLogin, StoreRefresh, Named, TokensOk, CacheOwn;
    AskNamed(s.users, name, 0);
    GoodIsOwn(s, at);
    RowsKnowTheirIds(s, at);
    if plan.first.db && AskUsernameOrEmail(s.users, name).Some? {
      var j :| Named(s.users, name, j);
      AskNamed(s.users, name, j);
      NamedIsLive(s.users, name, j);
      StoredAtLogin(s, j, newToken, at, plan, id);
    }
  }

  lemma StoredAtLogin(s: Accounts, j: Id, newToken: string, at: real, plan: Plan, id: Id)
    requires CacheOwn(s) && id in s.users
    ensures var s1 := TouchLogin(s, j, at, plan.second).(issued := s.issued + {newToken});
            var (s', ok) := StoreRefresh(s1, j, newToken, at + s.cfg.refreshTtl, plan.third);
            && s.issued <= s'.issued && CacheOwn(s') && id in s'.users
            && if ok && j == id then s'.users[id].refreshToken == newToken else SameToken(s, s', id)
  {
  }

  lemma RefreshWrites(s: Accounts, token: string, newToken: string, at: real, plan: Plan, id: Id)
    requires Good(s, at) && id in s.users && s.users[id].refreshToken != ""
    ensures var s' := Refresh(s, token, newToken, at, plan).0;
            && s.issued <= s'.issued && CacheOwn(s') && s'.users.Keys == s.users.Keys
            && if plan.first.db && plan.second.db && token == s.users[id].refreshToken && at < s.users[id].refreshExp
               then s'.users[id].refreshToken == newToken
               else s'.users[id].refreshToken == s.users[id].refreshToken
                    && s'.users[id].refreshExp == s.users[id].refreshExp
  {
    var found := UserByRefresh(s, token, at, plan.first);
    if plan.first.db { AcceptedIff(s, at, token, at, plan.first, s.users[id]); }
    RowsKnowTheirIds(s, at);
    if found.Found? {
      AcceptedIff(s, at, token, at, plan.first, found.row);
      StoreMeans(s.(issued := s.issued + {newToken}), found.row.id, newToken, at + s.cfg.refreshTtl, plan.second);
    }
    hide StoreRefresh, UserByRefresh;
  }

  // ---------- Which requests end a token ----------

  /** The requests that end the refresh token in a live row:
      - a profile update or a password change that is done and had read the account from the cache,
      - the deletion of the account,
      - a login that is granted to it,
      - a refresh with the token itself, whose new token is stored,
      - a logout with a valid access token of the account, where the database answers,
      - and a cleanup after the token has run out. */
  ghost predicate Ends(s: Accounts, c: Call, id: Id)
    requires id in s.users
  {
    var u, done := s.users[id], !Serve(s, c).1.Denied?;
    match c.request
    case Editing(i, _) => i == id && done && IsHit(s, IdKey(id), c.at, c.plan.first)
    case ChangingPassword(i, _, _, _, _) => i == id && done && IsHit(s, IdKey(id), c.at, c.plan.first)
    case Deleting(i) => i == id && done
    case LoggingIn(name, _, _) => done && Named(s.users, name, id)
    case Refreshing(token, _) => token == u.refreshToken && c.at < u.refreshExp && c.plan.first.db && c.plan.second.db
    case LoggingOut(t, _, _) =>
      t.Signed? && c.at < t.claims.expires as real && t.claims.userId == id && c.plan.second.db
    case Sweeping => c.plan.first.db && u.refreshExp < c.at
    case _ => false
  }

  lemma ServeEndsIff(s: Accounts, now: real, c: Call, id: Id)
    requires Good(s, now) && OnTime(now, c) && Fresh(s, c) && id in s.users && s.users[id].refreshToken != ""
    ensures var s' := Serve(s, c).0;
            && CacheOwn(s') && s.issued <= s'.issued
            && (if Ends(s, c, id) then id in s'.users ==> s'.users[id].refreshToken != s.users[id].refreshToken
                else SameToken(s, s', id))
  {
    hide TokensOk, CacheOwn, SameToken, Ends, Serve;
    LaterOk(s, now, c.at);
    TokenIssued(s, now, id);
    if c.request.LoggingIn? || c.request.Refreshing? || c.request.LoggingOut? {
      SessionCallEndsIff(s, c, id);
    } else if c.request.Looking? || c.request.Sweeping? {
      BackgroundEndsIff(s, c, id);
    } else {
      AccountCallEndsIff(s, c, id);
    }
  }

  ghost predicate EndsExactly(s: Accounts, c: Call, id: Id)
    requires id in s.users
  {
    var s' := Serve(s, c).0;
    && CacheOwn(s') && s.issued <= s'.issued
    && if Ends(s, c, id) then id in s'.users ==> s'.users[id].refreshToken != s.users[id].refreshToken
       else SameToken(s, s', id)
  }

  lemma AccountCallEndsIff(s: Accounts, c: Call, id: Id)
    requires Good(s, c.at) && id in s.users && s.users[id].refreshToken != ""
    requires c.request.Registering? || c.request.Editing? || c.request.ChangingPassword? || c.request.Deleting?
    ensures EndsExactly(s, c, id)
  {
    hide Good, CacheOwn, IsHit, Register, UpdateUser, ChangePassword, DeleteUser;
    match c.request
    case Registering(p, hash, newId) =>
      RegisterWrites(s, p, hash, newId, c.at, c.plan);
      Others(s, Serve(s, c).0, newId, id);
    case Editing(i, u) =>
      EditWrites(s, i, u, c.at, c.plan);
      Others(s, Serve(s, c).0, i, id);
    case ChangingPassword(i, current, matching, next, hash) =>
      PasswordWrites(s, i, current, matching, next, hash, c.at, c.plan);
      Others(s, Serve(s, c).0, i, id);
    case Deleting(i) =>
      DeleteWrites(s, i, c.at, c.plan);
      Others(s, Serve(s, c).0, i, id);
  }

  lemma SessionCallEndsIff(s: Accounts, c: Call, id: Id)
    requires Good(s, c.at) && Fresh(s, c) && id in s.users && s.users[id].refreshToken != ""
    requires s.users[id].refreshToken in s.issued
    requires c.request.LoggingIn? || c.request.Refreshing? || c.request.LoggingOut?
    ensures EndsExactly(s, c, id)
  {
    hide Good, CacheOwn, Login, Refresh, Logout, Named;
    GoodIsOwn(s, c.at);
    match c.request
    case LoggingIn(name, matching, newToken) => LoginWrites(s, name, matching, newToken, c.at, c.plan, id);
    case Refreshing(token, newToken) => RefreshWrites(s, token, newToken, c.at, c.plan, id);
    case LoggingOut(t, measured, stored) =>
      LogoutMeans(s, t, c.at, measured, stored, c.plan);
      SameCacheOwn(s, Serve(s, c).0);
  }

  lemma BackgroundEndsIff(s: Accounts, c: Call, id: Id)
    requires Good(s, c.at) && id in s.users && s.users[id].refreshToken != ""
    requires c.request.Looking? || c.request.Sweeping?
    ensures EndsExactly(s, c, id)
  {
    hide Good, CacheOwn, Get, CleanupExpired;
    GoodIsOwn(s, c.at);
    match c.request
    case Looking(q) => GetOwn(s, c.at, q, c.at, c.plan.first);
    case Sweeping =>
      SweepMeans(s, c.at, c.plan.first);
      SameCacheOwn(s, Serve(s, c).0);
  }

  lemma SameCacheOwn(s: Accounts, s': Accounts)
    requires CacheOwn(s) && s'.cache == s.cache
    ensures CacheOwn(s')
  {
  }

  lemma Others(s: Accounts, s': Accounts, i: Id, id: Id)
    requires OnlyRow(s, s', i) && id in s.users
    ensures CacheOwn(s') && s.issued <= s'.issued
    ensures i != id ==> id in s'.users && s'.users[id] == s.users[id]
  {
    if i != id { assert id in s.users - {i} && (s.users - {i})[id] == s.users[id]; }
  }

  lemma TokenIssued(s: Accounts, now: real, id: Id)
    requires TokensOk(s, now) && id in s.users && s.users[id].refreshToken != ""
    ensures s.users[id].refreshToken in s.issued
  {
  }

  // ---------- Where tokens come from ----------

  /** A token in a row was there before, or is blank, or was generated just now. */
  ghost predicate TokenFrom(s: Accounts, s': Accounts, j: Id)
    requires j in s'.users
  {
    var token := s'.users[j].refreshToken;
    token == "" || token !in s.issued || (j in s.users && token == s.users[j].refreshToken)
  }

  lemma OnlyRowFrom(s: Accounts, s': Accounts, i: Id)
    requires OnlyRow(s, s', i) && (i in s'.users ==> TokenFrom(s, s', i))
    ensures forall j <- s'.users :: TokenFrom(s, s', j)
  {
    forall j | j in s'.users ensures TokenFrom(s, s', j) {
      if j != i { assert j in s'.users - {i} && (s'.users - {i})[j] == s'.users[j]; }
    }
  }

  lemma GrantFrom(s: Accounts, now: real, c: Call)
    requires Good(s, c.at) && Fresh(s, c) && (c.request.LoggingIn? || c.request.Refreshing?)
    ensures forall j <- Serve(s, c).0.users :: TokenFrom(s, Serve(s, c).0, j)
  {
    match c.request
    case LoggingIn(name, matching, newToken) =>
      var found := if c.plan.first.db then AskUsernameOrEmail(s.users, name) else None;
      if found.Some? { LoginRowsFrom(s, found.value.id, newToken, c.at, c.plan); }
      hide AskUsernameOrEmail, TouchLogin, StoreRefresh;
    case Refreshing(token, newToken) =>
      hide UserByRefresh;
  }

  lemma LoginRowsFrom(s: Accounts, id: Id, newToken: string, at: real, plan: Plan)
    requires newToken !in s.issued
    ensures var s1 := TouchLogin(s, id, at, plan.second).(issued := s.issued + {newToken});
            var s' := StoreRefresh(s1, id, newToken, at + s.cfg.refreshTtl, plan.third).0;
            forall j <- s'.users :: TokenFrom(s, s', j)
  {
  }

  lemma ServeFrom(s: Accounts, now: real, c: Call)
    requires Good(s, now) && OnTime(now, c) && Fresh(s, c)
    ensures forall j <- Serve(s, c).0.users :: TokenFrom(s, Serve(s, c).0, j)
  {
    LaterOk(s, now, c.at);
    hide TokensOk, CacheOwn, OnlyRow, Get, Register, UpdateUser, ChangePassword, DeleteUser, Login, Refresh, Logout,
         CleanupExpired, IsHit;
    match c.request
    case Registering(p, hash, newId) =>
      RegisterWrites(s, p, hash, newId, c.at, c.plan);
      OnlyRowFrom(s, Serve(s, c).0, newId);
    case Editing(i, u) =>
      EditWrites(s, i, u, c.at, c.plan);
      OnlyRowFrom(s, Serve(s, c).0, i);
    case ChangingPassword(i, current, matching, next, hash) =>
      PasswordWrites(s, i, current, matching, next, hash, c.at, c.plan);
      OnlyRowFrom(s, Serve(s, c).0, i);
    case Deleting(i) =>
      DeleteWrites(s, i, c.at, c.plan);
      OnlyRowFrom(s, Serve(s, c).0, i);
    case LoggingOut(t, measured, stored) => LogoutMeans(s, t, c.at, measured, stored, c.plan);
    case Looking(q) => GetOwn(s, c.at, q, c.at, c.plan.first);
    case Sweeping => SweepMeans(s, c.at, c.plan.first);
    case _ => GrantFrom(s, now, c);
  }

  /** A token that has been ended is spent: nobody holds it. */
  lemma EndedIsSpent(s: Accounts, now: real, c: Call, id: Id)
    requires Good(s, now) && OnTime(now, c) && Fresh(s, c) && id in s.users && s.users[id].refreshToken != ""
    requires Ends(s, c, id)
    ensures Spent(Serve(s, c).0, s.users[id].refreshToken)
  {
    var s' := Serve(s, c).0;
    ServeEndsIff(s, now, c, id);
    ServeFrom(s, now, c);
    OthersDiffer(s, id, s.users[id].refreshToken, now);
    TokenIssued(s, now, id);
    hide TokensOk, CacheOwn, Serve, Ends;
    forall j | j in s'.users ensures s'.users[j].refreshToken != s.users[id].refreshToken {
      assert TokenFrom(s, s', j);
    }
  }

  lemma OnlyOwner(s: Accounts, now: real, id: Id, at: real, f: Faults)
    requires TokensOk(s, now) && now <= at && f.db && id in s.users && s.users[id].refreshToken != ""
    ensures var found := UserByRefresh(s, s.users[id].refreshToken, at, f); found.Found? ==> found.row.id == id
  {
    var x := s.users[id].refreshToken;
    OthersDiffer(s, id, x, now);
    RowsKnowTheirIds(s, now);
    hide TokensOk, UserByRefresh;
    var found := UserByRefresh(s, x, at, f);
    if found.Found? { AcceptedIff(s, now, x, at, f, found.row); }
  }

  // ---------- Whole runs ----------

  ghost predicate NothingEnds(s: Accounts, calls: seq<Call>, id: Id)
    decreases |calls|
  {
    calls != [] ==> id in s.users && !Ends(s, calls[0], id) && NothingEnds(Serve(s, calls[0]).0, calls[1..], id)
  }

  /** A live refresh token lives on exactly as long as no request of the run ends it: after the run it is accepted, as
      its account, if and only if none did and it has not run out. Whatever else is served in between, for this
      account or for others, cannot take it away, and nothing brings it back. */
  lemma {:induction false} TokenLivesIff(s: Accounts, now: real, calls: seq<Call>, id: Id, at: real, f: Faults)
    requires Good(s, now) && Timely(now, calls) && AllFresh(s, calls) && Close(now, calls) <= at && f.db
    requires id in s.users && s.users[id].refreshToken != ""
    ensures var end, x := ServeAll(s, calls), s.users[id].refreshToken;
            && (UserByRefresh(end, x, at, f).Found? <==> NothingEnds(s, calls, id) && at < s.users[id].refreshExp)
            && (UserByRefresh(end, x, at, f).Found? ==> UserByRefresh(end, x, at, f).row.id == id)
    decreases |calls|
  {
    hide TokensOk, CacheOwn, Serve, Ends, Fresh, UserByRefresh, Spent, OnTime;
    var x := s.users[id].refreshToken;
    if calls == [] {
      AcceptedAsOwner(s, now, id, x, at, f);
      OnlyOwner(s, now, id, at, f);
    } else {
      var s1 := Serve(s, calls[0]).0;
      ServeEndsIff(s, now, calls[0], id);
      ServeSafe(s, now, calls[0]);
      if Ends(s, calls[0], id) {
        EndedIsSpent(s, now, calls[0], id);
        RunSafe(s1, End(calls[0]), calls[1..]);
        assert Spent(ServeAll(s, calls), x);
        SpentIsRefused(ServeAll(s, calls), x, at, f);
      } else {
        TokenLivesIff(s1, End(calls[0]), calls[1..], id, at, f);
      }
    }
  }
}
