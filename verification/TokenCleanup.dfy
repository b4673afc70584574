/** The background task that blanks expired refresh tokens changes no answer, then or later. */
module TokenCleanup {
  import opened Shared
  import opened Users

  /** The same row, or two rows that differ only in refresh tokens that have both run out. */
  ghost predicate SameButDead(u: User, v: User, now: real) {
    u == v || (u.(refreshToken := v.refreshToken, refreshExp := v.refreshExp) == v
               && u.refreshExp <= now && v.refreshExp <= now)
  }

  ghost predicate Alike(s: Accounts, t: Accounts, now: real) {
    && s.cache == t.cache && s.blacklist == t.blacklist && s.issued == t.issued && s.cfg == t.cfg
    && s.users.Keys == t.users.Keys
    && forall id <- s.users :: SameButDead(s.users[id], t.users[id], now)
  }

  ghost predicate SameFind(a: Lookup<User>, b: Lookup<User>, now: real) {
    match (a, b)
    case (Found(u), Found(v)) => SameButDead(u, v, now)
    case _ => a == b
  }

  lemma LaterAlike(s: Accounts, t: Accounts, now: real, later: real)
    requires Alike(s, t, now) && now <= later
    ensures Alike(s, t, later)
  {
  }

  lemma FirstOfAlike(s: Accounts, t: Accounts, idsS: set<Id>, idsT: set<Id>, now: real)
    requires Alike(s, t, now) && idsS == idsT && idsS <= s.users.Keys
    ensures SameFind(Answer(FirstOf(s.users, idsS)), Answer(FirstOf(t.users, idsT)), now)
  {
  }

  lemma AskAlike(s: Accounts, t: Accounts, q: Query, now: real)
    requires Alike(s, t, now)
    ensures SameFind(Answer(Ask(s.users, q)), Answer(Ask(t.users, q)), now)
  {
    match q
    case ByUid(_) =>
    case ByEmail(email) =>
      FirstOfAlike(s, t, WithEmail(s.users, email), WithEmail(t.users, email), now);
    case ByUsername(name) =>
      FirstOfAlike(s, t, WithUsername(s.users, name), WithUsername(t.users, name), now);
  }

  lemma AskEitherAlike(s: Accounts, t: Accounts, x: string, now: real)
    requires Alike(s, t, now)
    ensures SameFind(Answer(AskUsernameOrEmail(s.users, x)), Answer(AskUsernameOrEmail(t.users, x)), now)
  {
    assert WithUsername(s.users, x) == WithUsername(t.users, x) && WithEmail(s.users, x) == WithEmail(t.users, x);
    FirstOfAlike(s, t, WithUsername(s.users, x) + WithEmail(s.users, x),
                 WithUsername(t.users, x) + WithEmail(t.users, x), now);
  }

  lemma GetAlike(s: Accounts, t: Accounts, q: Query, at: real, f: Faults)
    requires Alike(s, t, at)
    ensures Alike(Get(s, q, at, f).0, Get(t, q, at, f).0, at)
    ensures SameFind(Get(s, q, at, f).1, Get(t, q, at, f).1, at)
  {
    AskAlike(s, t, q, at);
    hide Ask;
  }

  lemma UnclaimedAlike(s: Accounts, t: Accounts, u: User, v: User, now: real)
    requires Alike(s, t, now) && u.id == v.id && u.profile == v.profile
    ensures Unclaimed(s.users, u) == Unclaimed(t.users, v)
  {
  }

  lemma SaveAlike(s: Accounts, t: Accounts, u: User, v: User, at: real, f: Faults)
    requires Alike(s, t, at) && SameButDead(u, v, at)
    ensures Alike(Save(s, u, f).0, Save(t, v, f).0, at) && Save(s, u, f).1 == Save(t, v, f).1
  {
    UnclaimedAlike(s, t, u, v, at);
    hide Unclaimed;
  }

  lemma ClashAlike(s: Accounts, t: Accounts, id: Id, changed: bool, q: Query, at: real, f: Faults)
    requires Alike(s, t, at)
    ensures Alike(Clash(s, id, changed, q, at, f).0, Clash(t, id, changed, q, at, f).0, at)
    ensures Clash(s, id, changed, q, at, f).1 == Clash(t, id, changed, q, at, f).1
  {
    GetAlike(s, t, q, at, f);
    hide Get, Alike;
  }

  lemma RegisterAlike(s: Accounts, t: Accounts, p: Profile, hash: string, newId: Id, at: real, plan: Plan)
    requires Alike(s, t, at)
    ensures Alike(Register(s, p, hash, newId, at, plan).0, Register(t, p, hash, newId, at, plan).0, at)
    ensures Register(s, p, hash, newId, at, plan).1 == Register(t, p, hash, newId, at, plan).1
  {
    hide Get, Unclaimed;
    GetAlike(s, t, ByEmail(p.email), at, plan.first);
    var s1, t1 := Get(s, ByEmail(p.email), at, plan.first).0, Get(t, ByEmail(p.email), at, plan.first).0;
    GetAlike(s1, t1, ByUsername(p.username), at, plan.second);
    var s2, t2 := Get(s1, ByUsername(p.username), at, plan.second).0, Get(t1, ByUsername(p.username), at, plan.second).0;
    var u := User(newId, p, hash, "", ZERO_TIME);
    UnclaimedAlike(s2, t2, u, u, at);
  }

  lemma UpdateUserAlike(s: Accounts, t: Accounts, id: Id, u: ProfileUpdate, at: real, plan: Plan)
    requires Alike(s, t, at)
    ensures Alike(UpdateUser(s, id, u, at, plan).0, UpdateUser(t, id, u, at, plan).0, at)
    ensures UpdateUser(s, id, u, at, plan).1 == UpdateUser(t, id, u, at, plan).1
  {
    hide Get, Clash, Save, Alike, Edited;
    GetAlike(s, t, ByUid(id), at, plan.first);
    var (s1, foundS) := Get(s, ByUid(id), at, plan.first);
    var (t1, foundT) := Get(t, ByUid(id), at, plan.first);
    if foundS.Found? {
      var p := foundS.row.profile;
      var email, name := Or(u.email, p.email), Or(u.username, p.username);
      ClashAlike(s1, t1, id, email != p.email, ByEmail(email), at, plan.second);
      var s2 := Clash(s1, id, email != p.email, ByEmail(email), at, plan.second).0;
      var t2 := Clash(t1, id, email != p.email, ByEmail(email), at, plan.second).0;
      ClashAlike(s2, t2, id, name != p.username, ByUsername(name), at, plan.third);
      var s3 := Clash(s2, id, name != p.username, ByUsername(name), at, plan.third).0;
      var t3 := Clash(t2, id, name != p.username, ByUsername(name), at, plan.third).0;
      SaveAlike(s3, t3, foundS.row.(profile := Edited(p, u)), foundT.row.(profile := Edited(p, u)), at, plan.fourth);
    }
  }

  lemma ChangePasswordAlike(s: Accounts, t: Accounts, id: Id, current: string, matching: set<string>, next: string,
                            hash: string, at: real, plan: Plan)
    requires Alike(s, t, at)
    ensures Alike(ChangePassword(s, id, current, matching, next, hash, at, plan).0,
                  ChangePassword(t, id, current, matching, next, hash, at, plan).0, at)
    ensures ChangePassword(s, id, current, matching, next, hash, at, plan).1
         == ChangePassword(t, id, current, matching, next, hash, at, plan).1
  {
    hide Get, Save, Alike;
    GetAlike(s, t, ByUid(id), at, plan.first);
    var (s1, foundS) := Get(s, ByUid(id), at, plan.first);
    var (t1, foundT) := Get(t, ByUid(id), at, plan.first);
    if foundS.Found? {
      SaveAlike(s1, t1, foundS.row.(password := hash), foundT.row.(password := hash), at, plan.second);
    }
  }

  lemma DeleteUserAlike(s: Accounts, t: Accounts, id: Id, at: real, plan: Plan)
    requires Alike(s, t, at)
    ensures Alike(DeleteUser(s, id, at, plan).0, DeleteUser(t, id, at, plan).0, at)
    ensures DeleteUser(s, id, at, plan).1 == DeleteUser(t, id, at, plan).1
  {
    hide Get;
    GetAlike(s, t, ByUid(id), at, plan.first);
    var s1, t1 := Get(s, ByUid(id), at, plan.first).0, Get(t, ByUid(id), at, plan.first).0;
    GetAlike(s1, t1, ByUid(id), at, plan.second);
  }

  lemma StoreAlike(s: Accounts, t: Accounts, id: Id, token: string, exp: real, at: real, f: Faults)
    requires Alike(s, t, at)
    ensures Alike(StoreRefresh(s, id, token, exp, f).0, StoreRefresh(t, id, token, exp, f).0, at)
    ensures StoreRefresh(s, id, token, exp, f).1 == StoreRefresh(t, id, token, exp, f).1
  {
  }

  lemma TouchAlike(s: Accounts, t: Accounts, id: Id, token: string, at: real, f: Faults)
    requires Alike(s, t, at)
    ensures Alike(TouchLogin(s, id, at, f).(issued := s.issued + {token}),
                  TouchLogin(t, id, at, f).(issued := t.issued + {token}), at) && s.cfg == t.cfg
  {
  }

  lemma LoginAlike(s: Accounts, t: Accounts, name: string, matching: set<string>, newToken: string, at: real, plan: Plan)
    requires Alike(s, t, at)
    ensures Alike(Login(s, name, matching, newToken, at, plan).0, Login(t, name, matching, newToken, at, plan).0, at)
    ensures Login(s, name, matching, newToken, at, plan).1 == Login(t, name, matching, newToken, at, plan).1
  {
    hide AskUsernameOrEmail, StoreRefresh, TouchLogin, Alike;
    AskEitherAlike(s, t, name, at);
    var found := AskUsernameOrEmail(s.users, name);
    if found.Some? {
      TouchAlike(s, t, found.value.id, newToken, at, plan.second);
      var s1 := TouchLogin(s, found.value.id, at, plan.second).(issued := s.issued + {newToken});
      var t1 := TouchLogin(t, found.value.id, at, plan.second).(issued := t.issued + {newToken});
      StoreAlike(s1, t1, found.value.id, newToken, at + s.cfg.refreshTtl, at, plan.third);
    }
  }

  /** The answer to a refresh token depends only on rows whose token has not run out. */
  lemma UserByRefreshAlike(s: Accounts, t: Accounts, token: string, now: real, at: real, f: Faults)
    requires Alike(s, t, now) && now <= at
    ensures UserByRefresh(s, token, at, f) == UserByRefresh(t, token, at, f)
  {
    var ids := Holders(s.users, token, at);
    assert ids == Holders(t.users, token, at);
    if ids != {} {
      var m := First(ids);
      assert m in ids;
    }
  }

  lemma SweepAlike(s: Accounts, t: Accounts, at: real, f: Faults)
    requires Alike(s, t, at)
    ensures Alike(CleanupExpired(s, at, f), t, at)
  {
  }

  lemma IssueAlike(s: Accounts, t: Accounts, token: string, now: real)
    requires Alike(s, t, now)
    ensures Alike(s.(issued := s.issued + {token}), t.(issued := t.issued + {token}), now) && s.cfg == t.cfg
  {
  }

  lemma RefreshAlike(s: Accounts, t: Accounts, token: string, newToken: string, at: real, plan: Plan)
    requires Alike(s, t, at)
    ensures Alike(Refresh(s, token, newToken, at, plan).0, Refresh(t, token, newToken, at, plan).0, at)
    ensures Refresh(s, token, newToken, at, plan).1 == Refresh(t, token, newToken, at, plan).1
  {
    hide Alike, StoreRefresh, UserByRefresh;
    UserByRefreshAlike(s, t, token, at, at, plan.first);
    IssueAlike(s, t, newToken, at);
    var found := UserByRefresh(s, token, at, plan.first);
    if found.Found? {
      StoreAlike(s.(issued := s.issued + {newToken}), t.(issued := t.issued + {newToken}), found.row.id, newToken,
                 at + s.cfg.refreshTtl, at, plan.second);
    }
  }

  ghost predicate ServedAlike(s: Accounts, t: Accounts, c: Call) {
    Serve(s, c).1 == Serve(t, c).1 && Alike(Serve(s, c).0, Serve(t, c).0, End(c))
  }

  /** The requests about accounts. */
  lemma AccountCallAlike(s: Accounts, t: Accounts, c: Call)
    requires Alike(s, t, c.at)
    requires c.request.Registering? || c.request.Editing? || c.request.ChangingPassword? || c.request.Deleting?
    ensures ServedAlike(s, t, c)
  {
    hide Alike, Register, UpdateUser, ChangePassword, DeleteUser;
    match c.request
    case Registering(p, hash, newId) => RegisterAlike(s, t, p, hash, newId, c.at, c.plan);
    case Editing(id, u) => UpdateUserAlike(s, t, id, u, c.at, c.plan);
    case ChangingPassword(id, current, matching, next, hash) =>
      ChangePasswordAlike(s, t, id, current, matching, next, hash, c.at, c.plan);
    case Deleting(id) => DeleteUserAlike(s, t, id, c.at, c.plan);
  }

  /** The requests about sessions. */
  lemma SessionCallAlike(s: Accounts, t: Accounts, c: Call)
    requires Alike(s, t, c.at) && Alike(s, t, End(c))
    requires c.request.LoggingIn? || c.request.Refreshing? || c.request.LoggingOut?
    ensures ServedAlike(s, t, c)
  {
    hide Alike, Login, Refresh, Logout;
    match c.request
    case LoggingIn(name, matching, newToken) => LoginAlike(s, t, name, matching, newToken, c.at, c.plan);
    case Refreshing(token, newToken) => RefreshAlike(s, t, token, newToken, c.at, c.plan);
    case LoggingOut(token, measured, stored) => LogoutAlike(s, t, token, c.at, measured, stored, c.plan);
  }

  lemma LookUpAlike(s: Accounts, t: Accounts, c: Call)
    requires Alike(s, t, c.at) && c.request.Looking?
    ensures ServedAlike(s, t, c)
  {
    hide Alike, Get;
    GetAlike(s, t, c.request.query, c.at, c.plan.first);
  }

  lemma ServeAlike(s: Accounts, t: Accounts, now: real, c: Call)
    requires Alike(s, t, now) && OnTime(now, c) && !c.request.Sweeping?
    ensures ServedAlike(s, t, c)
  {
    hide Alike, ServedAlike;
    LaterAlike(s, t, now, c.at);
    LaterAlike(s, t, now, End(c));
    if c.request.Looking? {
      LookUpAlike(s, t, c);
    } else if c.request.LoggingIn? || c.request.Refreshing? || c.request.LoggingOut? {
      SessionCallAlike(s, t, c);
    } else {
      AccountCallAlike(s, t, c);
    }
  }

  lemma LogoutAlike(s: Accounts, t: Accounts, token: Token, at: real, measured: real, stored: real, plan: Plan)
    requires Alike(s, t, stored)
    ensures Alike(Logout(s, token, at, measured, stored, plan).0, Logout(t, token, at, measured, stored, plan).0, stored)
    ensures Logout(s, token, at, measured, stored, plan).1 == Logout(t, token, at, measured, stored, plan).1
  {
  }

  function WithoutSweeps(calls: seq<Call>): seq<Call> {
    if calls == [] then []
    else (if calls[0].request.Sweeping? then [] else [calls[0]]) + WithoutSweeps(calls[1..])
  }

  /** The replies of a run, leaving out the sweeps. */
  function Replies(s: Accounts, calls: seq<Call>): seq<Reply>
    decreases |calls|
  {
    if calls == [] then []
    else
      var (s', reply) := Serve(s, calls[0]);
      (if calls[0].request.Sweeping? then [] else [reply]) + Replies(s', calls[1..])
  }

  lemma {:induction false} RunAlike(s: Accounts, t: Accounts, now: real, end: real, calls: seq<Call>)
    requires Alike(s, t, now) && now <= end && Timely(now, calls)
    requires forall i :: 0 <= i < |calls| ==> End(calls[i]) <= end
    ensures Replies(s, calls) == Replies(t, WithoutSweeps(calls))
    ensures Alike(ServeAll(s, calls), ServeAll(t, WithoutSweeps(calls)), end)
    decreases |calls|
  {
    if calls == [] {
      LaterAlike(s, t, now, end);
    } else {
      var c, rest := calls[0], WithoutSweeps(calls[1..]);
      if c.request.Sweeping? {
        LaterAlike(s, t, now, c.at);
        SweepAlike(s, t, c.at, c.plan.first);
        RunAlike(Serve(s, c).0, t, c.at, end, calls[1..]);
        assert [] + rest == rest;
      } else {
        ServeAlike(s, t, now, c);
        hide Serve, Alike, OnTime;
        RunAlike(Serve(s, c).0, Serve(t, c).0, End(c), end, calls[1..]);
        assert ([c] + rest)[1..] == rest;
      }
    }
  }

  /** Sweeps inserted anywhere in a run change no reply, and afterwards no answer about a refresh token. */
  lemma CleanupIsTransparent(s: Accounts, now: real, end: real, calls: seq<Call>, token: string, at: real, f: Faults)
    requires now <= end <= at && Timely(now, calls)
    requires forall i :: 0 <= i < |calls| ==> End(calls[i]) <= end
    ensures Replies(s, calls) == Replies(s, WithoutSweeps(calls))
    ensures UserByRefresh(ServeAll(s, calls), token, at, f) == UserByRefresh(ServeAll(s, WithoutSweeps(calls)), token, at, f)
  {
    RunAlike(s, s, now, end, calls);
    hide Alike, ServeAll;
    UserByRefreshAlike(ServeAll(s, calls), ServeAll(s, WithoutSweeps(calls)), token, end, at, f);
  }
}
