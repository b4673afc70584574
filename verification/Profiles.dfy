/** Read-modify-write of accounts through a cache that forgets their secrets, and what cached lookups of
    accounts can be trusted for. */
module Profiles {
  import opened Shared
  import opened Users
  import opened Staleness

  // ---------- Accounts over runs whose invalidations land ----------

  ghost predicate RowsOk(users: map<Id, User>) {
    && (forall id <- users :: users[id].id == id)
    && (forall a, b :: a in users && b in users && a != b ==>
          users[a].profile.email != users[b].profile.email && users[a].profile.username != users[b].profile.username)
  }

  /** Every entry under an id is the visible part of the live row. */
  ghost predicate Coherent(s: Accounts) {
    && RowsOk(s.users)
    && forall id :: IdKey(id) in s.cache ==> id in s.users && s.cache[IdKey(id)].row == Visible(s.users[id])
  }

  predicate Lands(plan: Plan) {
    plan.first.stuck == plan.second.stuck == plan.third.stuck == plan.fourth.stuck == {}
  }

  lemma GetCoherent(s: Accounts, q: Query, at: real, f: Faults)
    requires Coherent(s)
    ensures var (s', found) := Get(s, q, at, f);
            && Coherent(s') && s'.users == s.users
            && (q.ByUid? && found.Found? ==>
                  && q.id in s.users && found.row.id == q.id
                  && found.row == if IsHit(s, KeyOf(q), at, f) then Visible(s.users[q.id]) else s.users[q.id])
  {
  }

  lemma OthersHold(users: map<Id, User>, u: User, id: Id)
    requires Unclaimed(users, u) && id in users && id != u.id
    ensures users[id].profile.email != u.profile.email && users[id].profile.username != u.profile.username
  {
    var claimed := set j | j in users && j != u.id
                    && (users[j].profile.email == u.profile.email || users[j].profile.username == u.profile.username);
    assert id !in claimed;
  }

  lemma WrittenRowsOk(users: map<Id, User>, u: User)
    requires RowsOk(users) && Unclaimed(users, u)
    ensures RowsOk(users[u.id := u])
  {
    forall id | id in users && id != u.id
      ensures users[id].profile.email != u.profile.email && users[id].profile.username != u.profile.username
    {
      OthersHold(users, u, id);
    }
  }

  lemma SameNamesRowsOk(users: map<Id, User>, users': map<Id, User>)
    requires RowsOk(users) && users'.Keys == users.Keys
    requires forall id <- users :: users'[id].id == users[id].id
               && users'[id].profile.email == users[id].profile.email
               && users'[id].profile.username == users[id].profile.username
    ensures RowsOk(users')
  {
  }

  lemma SaveCoherent(s: Accounts, u: User, f: Faults)
    requires Coherent(s) && f.stuck == {}
    ensures Coherent(Save(s, u, f).0)
  {
    hide RowsOk, Unclaimed;
    if Save(s, u, f).1 { WrittenRowsOk(s.users, u); }
  }

  lemma InsertCoherent(s: Accounts, u: User, f: Faults)
    requires Coherent(s)
    ensures Coherent(Insert(s, u, f).0)
  {
    hide RowsOk, Unclaimed;
    if Insert(s, u, f).1 { WrittenRowsOk(s.users, u); }
  }

  lemma ClashCoherent(s: Accounts, id: Id, changed: bool, q: Query, at: real, f: Faults)
    requires Coherent(s)
    ensures Coherent(Clash(s, id, changed, q, at, f).0) && Clash(s, id, changed, q, at, f).0.users == s.users
  {
  }

  lemma UpdateUserCoherent(s: Accounts, id: Id, u: ProfileUpdate, at: real, plan: Plan)
    requires Coherent(s) && Lands(plan)
    ensures Coherent(UpdateUser(s, id, u, at, plan).0)
  {
    hide Get, Clash, Save, Coherent, Edited;
    GetCoherent(s, ByUid(id), at, plan.first);
    var (s1, found) := Get(s, ByUid(id), at, plan.first);
    if found.Found? {
      var p := found.row.profile;
      var email, name := Or(u.email, p.email), Or(u.username, p.username);
      ClashCoherent(s1, id, email != p.email, ByEmail(email), at, plan.second);
      var s2 := Clash(s1, id, email != p.email, ByEmail(email), at, plan.second).0;
      ClashCoherent(s2, id, name != p.username, ByUsername(name), at, plan.third);
      var s3 := Clash(s2, id, name != p.username, ByUsername(name), at, plan.third).0;
      SaveCoherent(s3, found.row.(profile := Edited(p, u)), plan.fourth);
    }
  }

  lemma RegisterCoherent(s: Accounts, p: Profile, hash: string, newId: Id, at: real, plan: Plan)
    requires Coherent(s)
    ensures Coherent(Register(s, p, hash, newId, at, plan).0)
  {
    hide Get, Insert, Coherent;
    GetCoherent(s, ByEmail(p.email), at, plan.first);
    var s1 := Get(s, ByEmail(p.email), at, plan.first).0;
    GetCoherent(s1, ByUsername(p.username), at, plan.second);
    InsertCoherent(Get(s1, ByUsername(p.username), at, plan.second).0, User(newId, p, hash, "", ZERO_TIME), plan.third);
  }

  lemma ChangePasswordCoherent(s: Accounts, id: Id, current: string, matching: set<string>, next: string, hash: string,
                               at: real, plan: Plan)
    requires Coherent(s) && Lands(plan)
    ensures Coherent(ChangePassword(s, id, current, matching, next, hash, at, plan).0)
  {
    hide Get, Save, Coherent;
    GetCoherent(s, ByUid(id), at, plan.first);
    var (s1, found) := Get(s, ByUid(id), at, plan.first);
    if found.Found? { SaveCoherent(s1, found.row.(password := hash), plan.second); }
  }

  lemma DeleteUserCoherent(s: Accounts, id: Id, at: real, plan: Plan)
    requires Coherent(s) && Lands(plan)
    ensures Coherent(DeleteUser(s, id, at, plan).0)
  {
    hide Get;
    GetCoherent(s, ByUid(id), at, plan.first);
    var s1 := Get(s, ByUid(id), at, plan.first).0;
    GetCoherent(s1, ByUid(id), at, plan.second);
  }

  lemma StoreCoherent(s: Accounts, id: Id, token: string, exp: real, f: Faults)
    requires Coherent(s)
    ensures Coherent(StoreRefresh(s, id, token, exp, f).0)
  {
    hide RowsOk;
    SameNamesRowsOk(s.users, StoreRefresh(s, id, token, exp, f).0.users);
  }

  lemma TouchCoherent(s: Accounts, id: Id, at: real, f: Faults)
    requires Coherent(s) && f.stuck == {}
    ensures Coherent(TouchLogin(s, id, at, f))
  {
    hide RowsOk;
    SameNamesRowsOk(s.users, TouchLogin(s, id, at, f).users);
  }

  /** Coherence is about the table and the cache only. */
  lemma SameTableCoherent(s: Accounts, s': Accounts)
    requires Coherent(s) && s'.users == s.users && s'.cache == s.cache
    ensures Coherent(s')
  {
    hide RowsOk;
  }

  lemma LoginCoherent(s: Accounts, name: string, matching: set<string>, newToken: string, at: real, plan: Plan)
    requires Coherent(s) && Lands(plan)
    ensures Coherent(Login(s, name, matching, newToken, at, plan).0)
  {
    hide AskUsernameOrEmail, StoreRefresh, Coherent, TouchLogin;
    var found := if plan.first.db then AskUsernameOrEmail(s.users, name) else None;
    if found.Some? {
      var s0 := TouchLogin(s, found.value.id, at, plan.second);
      var s1 := s0.(issued := s.issued + {newToken});
      TouchCoherent(s, found.value.id, at, plan.second);
      SameTableCoherent(s0, s1);
      StoreCoherent(s1, found.value.id, newToken, at + s.cfg.refreshTtl, plan.third);
    }
  }

  lemma LogoutCoherent(s: Accounts, t: Token, at: real, measured: real, stored: real, plan: Plan)
    requires Coherent(s)
    ensures Coherent(Logout(s, t, at, measured, stored, plan).0)
  {
    hide Coherent, StoreRefresh;
    if JwtValid(t, at) {
      var left := t.claims.expires as real - measured;
      var s1 := if 0.0 < left && plan.first.put then s.(blacklist := s.blacklist[t := stored + left]) else s;
      SameTableCoherent(s, s1);
      StoreCoherent(s1, t.claims.userId, "", stored, plan.second);
    }
  }

  lemma SweepCoherent(s: Accounts, at: real, f: Faults)
    requires Coherent(s)
    ensures Coherent(CleanupExpired(s, at, f))
  {
    hide RowsOk;
    SameNamesRowsOk(s.users, CleanupExpired(s, at, f).users);
  }

  lemma ServeCoherent(s: Accounts, c: Call)
    requires Coherent(s) && Lands(c.plan)
    ensures Coherent(Serve(s, c).0)
  {
    hide Get, Register, UpdateUser, ChangePassword, DeleteUser, Login, StoreRefresh, Logout, CleanupExpired, RowsOk;
    match c.request
    case Registering(p, hash, newId) => RegisterCoherent(s, p, hash, newId, c.at, c.plan);
    case Editing(id, u) => UpdateUserCoherent(s, id, u, c.at, c.plan);
    case ChangingPassword(id, current, matching, next, hash) =>
      ChangePasswordCoherent(s, id, current, matching, next, hash, c.at, c.plan);
    case Deleting(id) => DeleteUserCoherent(s, id, c.at, c.plan);
    case LoggingIn(name, matching, newToken) => LoginCoherent(s, name, matching, newToken, c.at, c.plan);
    case Refreshing(token, newToken) =>
      var found := UserByRefresh(s, token, c.at, c.plan.first);
      if found.Found? {
        StoreCoherent(s.(issued := s.issued + {newToken}), found.row.id, newToken, c.at + s.cfg.refreshTtl, c.plan.second);
      }
    case LoggingOut(t, measured, stored) => LogoutCoherent(s, t, c.at, measured, stored, c.plan);
    case Looking(q) => GetCoherent(s, q, c.at, c.plan.first);
    case Sweeping => SweepCoherent(s, c.at, c.plan.first);
  }

  lemma {:induction false} RunCoherent(s: Accounts, calls: seq<Call>)
    requires Coherent(s) && forall i :: 0 <= i < |calls| ==> Lands(calls[i].plan)
    ensures Coherent(ServeAll(s, calls))
    decreases |calls|
  {
    hide Coherent, Serve;
    if calls != [] {
      ServeCoherent(s, calls[0]);
      RunCoherent(Serve(s, calls[0]).0, calls[1..]);
    }
  }

  // ---------- Is an update lossless? ----------

  lemma EditedNothing(p: Profile)
    ensures Edited(p, NOTHING) == p
  {
  }

  lemma OwnRowUnclaimed(users: map<Id, User>, u: User)
    requires RowsOk(users) && u.id in users && u.profile == users[u.id].profile
    ensures Unclaimed(users, u)
  {
  }

  /** What an update of an account starts from: the row on a cache miss, the row without its secrets on a hit. */
  function Loaded(s: Accounts, id: Id, at: real, f: Faults): User
    requires id in s.users
  {
    if IsHit(s, IdKey(id), at, f) then Visible(s.users[id]) else s.users[id]
  }

  /** The effect of an update: nothing when it is refused; when it is done, one row. Its profile has each named
      column's new value and the table's own value elsewhere; the secret columns are the table's when the account was
      read from the database, and blank when it was read from the cache. */
  lemma UpdateUserEffect(s: Accounts, id: Id, u: ProfileUpdate, at: real, plan: Plan)
    requires Coherent(s)
    ensures var (s', reply) := UpdateUser(s, id, u, at, plan);
            && (reply.Denied? ==> s'.users == s.users)
            && (!reply.Denied? ==>
                  && id in s.users && id in s'.users && s'.users == s.users[id := s'.users[id]]
                  && reply == Account(s'.users[id].profile)
                  && var before, after, hit := s.users[id], s'.users[id], IsHit(s, IdKey(id), at, plan.first);
                     && after.profile == Profile(
                          if u.email.Some? then u.email.value else before.profile.email,
                          if u.username.Some? then u.username.value else before.profile.username,
                          if u.firstName.Some? then u.firstName.value else before.profile.firstName,
                          if u.lastName.Some? then u.lastName.value else before.profile.lastName,
                          if u.role.Some? then u.role.value else before.profile.role,
                          if u.status.Some? then u.status.value else before.profile.status,
                          if u.phone.Some? then u.phone.value else before.profile.phone,
                          if u.address.Some? then u.address.value else before.profile.address,
                          before.profile.lastLogin)
                     && after.id == id
                     && after.password == (if hit then "" else before.password)
                     && after.refreshToken == (if hit then "" else before.refreshToken)
                     && after.refreshExp == (if hit then ZERO_TIME else before.refreshExp))
  {
    hide Get, Clash, Coherent, Edited, Unclaimed;
    UpdateWritesLoaded(s, id, u, at, plan);
    CoherentRows(s);
    EditedColumns(if id in s.users then s.users[id].profile else Profile("", "", "", "", "", "", "", "", 0.0), u);
    hide UpdateUser;
  }

  lemma EditedColumns(p: Profile, u: ProfileUpdate)
    ensures Edited(p, u) == Profile(
              if u.email.Some? then u.email.value else p.email,
              if u.username.Some? then u.username.value else p.username,
              if u.firstName.Some? then u.firstName.value else p.firstName,
              if u.lastName.Some? then u.lastName.value else p.lastName,
              if u.role.Some? then u.role.value else p.role,
              if u.status.Some? then u.status.value else p.status,
              if u.phone.Some? then u.phone.value else p.phone,
              if u.address.Some? then u.address.value else p.address,
              p.lastLogin)
  {
  }

  lemma UpdateWritesLoaded(s: Accounts, id: Id, u: ProfileUpdate, at: real, plan: Plan)
    requires Coherent(s)
    ensures var (s', reply) := UpdateUser(s, id, u, at, plan);
            && (reply.Denied? ==> s'.users == s.users)
            && (!reply.Denied? ==>
                  && id in s.users && reply == Account(Edited(s.users[id].profile, u))
                  && s'.users == s.users[id := Loaded(s, id, at, plan.first).(profile := Edited(s.users[id].profile, u))])
  {
    hide Get, Clash, Coherent, Edited, Unclaimed;
    GetCoherent(s, ByUid(id), at, plan.first);
    var (s1, found) := Get(s, ByUid(id), at, plan.first);
    if found.Found? {
      var p := found.row.profile;
      var email, name := Or(u.email, p.email), Or(u.username, p.username);
      ClashCoherent(s1, id, email != p.email, ByEmail(email), at, plan.second);
      var s2 := Clash(s1, id, email != p.email, ByEmail(email), at, plan.second).0;
      ClashCoherent(s2, id, name != p.username, ByUsername(name), at, plan.third);
    }
  }

  /** An update that names nothing writes back what it loaded: the row itself on a cache miss, the row
      without its secrets on a hit. */
  lemma EmptyUpdateWritesBack(s: Accounts, id: Id, at: real, plan: Plan)
    requires Coherent(s) && id in s.users && plan.first.db && plan.fourth.db
    ensures UpdateUser(s, id, NOTHING, at, plan).0.users == s.users[id := Loaded(s, id, at, plan.first)]
  {
    hide Coherent, RowsOk, Unclaimed, Edited;
    GetCoherent(s, ByUid(id), at, plan.first);
    var (s1, found) := Get(s, ByUid(id), at, plan.first);
    EditedNothing(found.row.profile);
    CoherentRows(s);
    OwnRowUnclaimed(s.users, found.row);
  }

  /** A registration adds one row with no refresh token, or changes nothing. */
  lemma RegisterEffect(s: Accounts, p: Profile, hash: string, newId: Id, at: real, plan: Plan)
    requires Coherent(s)
    ensures var (s', reply) := Register(s, p, hash, newId, at, plan);
            && (reply.Denied? ==> s'.users == s.users)
            && (!reply.Denied? ==> reply == Account(p) && newId !in s.users
                                   && s'.users == s.users[newId := User(newId, p, hash, "", ZERO_TIME)]
                                   && Ask(s.users, ByEmail(p.email)).None? && Ask(s.users, ByUsername(p.username)).None?)
  {
    hide Get, Coherent, Ask, Unclaimed;
    GetCoherent(s, ByEmail(p.email), at, plan.first);
    var s1 := Get(s, ByEmail(p.email), at, plan.first).0;
    GetCoherent(s1, ByUsername(p.username), at, plan.second);
    if Unclaimed(s.users, User(newId, p, hash, "", ZERO_TIME)) && newId !in s.users {
      UnclaimedMeansFree(s.users, User(newId, p, hash, "", ZERO_TIME));
    }
  }

  lemma UnclaimedMeansFree(users: map<Id, User>, u: User)
    requires Unclaimed(users, u) && u.id !in users
    ensures Ask(users, ByEmail(u.profile.email)).None? && Ask(users, ByUsername(u.profile.username)).None?
  {
    hide Unclaimed;
    forall id | id in users
      ensures users[id].profile.email != u.profile.email && users[id].profile.username != u.profile.username
    {
      OthersHold(users, u, id);
    }
  }

  /** A deletion removes one row, or changes nothing. */
  lemma DeleteUserEffect(s: Accounts, id: Id, at: real, plan: Plan)
    requires Coherent(s)
    ensures var (s', reply) := DeleteUser(s, id, at, plan);
            s'.users == (if reply.Denied? then s.users else s.users - {id}) && (!reply.Denied? ==> id in s.users)
  {
    hide Get, Coherent;
    GetCoherent(s, ByUid(id), at, plan.first);
    GetCoherent(Get(s, ByUid(id), at, plan.first).0, ByUid(id), at, plan.second);
  }

  // ---------- When requests about accounts are done ----------

  predicate AllDbUp(plan: Plan) {
    plan.first.db && plan.second.db && plan.third.db && plan.fourth.db
  }

  /** What a lookup finds: a live entry under its key, whoever put it there, or else the database's answer. */
  function Seen(s: Accounts, q: Query, at: real, f: Faults): Option<User> {
    if IsHit(s, KeyOf(q), at, f) then Some(s.cache[KeyOf(q)].row) else Ask(s.users, q)
  }

  predicate OtherSeen(s: Accounts, q: Query, id: Id, at: real, f: Faults) {
    Seen(s, q, at, f).Some? && Seen(s, q, at, f).value.id != id
  }

  function Why(reply: Reply): Option<Denial> {
    if reply.Denied? then Some(reply.why) else None
  }

  lemma GetFinds(s: Accounts, q: Query, at: real, f: Faults)
    requires f.db
    ensures Get(s, q, at, f).1 == Answer(Seen(s, q, at, f))
    ensures Seen(s, q, at, f).None? ==> Get(s, q, at, f).0 == s
    ensures IsHit(s, KeyOf(q), at, f) ==> Get(s, q, at, f).0 == s
  {
  }

  /** Why an update cannot be done, if there is a reason. A name is refused as taken for any other account that is
      seen under its key, which may be one that had the name, or has it as its other name, up to 15 minutes ago. */
  function UpdateObjection(s: Accounts, id: Id, u: ProfileUpdate, at: real, plan: Plan): Option<Denial> {
    if id !in s.users then Some(UserMissing)
    else
      var p := s.users[id].profile;
      var email, name := Or(u.email, p.email), Or(u.username, p.username);
      if email != p.email && OtherSeen(s, ByEmail(email), id, at, plan.second) then Some(EmailTaken)
      else if name != p.username && OtherSeen(s, ByUsername(name), id, at, plan.third) then Some(UsernameTaken)
      else if !Unclaimed(s.users, s.users[id].(profile := Edited(p, u))) then Some(StoreFailed)
      else None
  }

  /** The check of a changed name: it finds what is seen, and a name that it lets through is not cached by it. */
  lemma ClashMeans(s: Accounts, id: Id, changed: bool, q: Query, at: real, f: Faults)
    requires RowsOk(s.users) && f.db && !q.ByUid?
    requires changed ==> forall u <- s.users.Values :: u.id == id ==> !Matches(u, q)
    ensures var (s', clash) := Clash(s, id, changed, q, at, f);
            clash == (changed && OtherSeen(s, q, id, at, f)) && (!clash ==> s' == s)
  {
    hide Get, Ask, RowsOk;
    GetFinds(s, q, at, f);
    if changed && !IsHit(s, KeyOf(q), at, f) && Ask(s.users, q).Some? {
      AskGives(s.users, q);
      assert s.users[Ask(s.users, q).value.id] in s.users.Values;
    }
  }

  /** With the database up, an update is done exactly when nothing speaks against it, and else says what does. */
  lemma UpdateUserOutcome(s: Accounts, id: Id, u: ProfileUpdate, at: real, plan: Plan)
    requires Coherent(s) && AllDbUp(plan)
    ensures Why(UpdateUser(s, id, u, at, plan).1) == UpdateObjection(s, id, u, at, plan)
  {
    hide Get, Clash, Coherent, RowsOk, Edited, Unclaimed, OtherSeen, Matches, Ask;
    CoherentRows(s);
    GetCoherent(s, ByUid(id), at, plan.first);
    LoadsLive(s, id, at, plan.first);
    var (s1, found) := Get(s, ByUid(id), at, plan.first);
    if found.Found? {
      var p := found.row.profile;
      var email, name := Or(u.email, p.email), Or(u.username, p.username);
      OwnNames(s.users, id, email, name);
      ClashMeans(s1, id, email != p.email, ByEmail(email), at, plan.second);
      SameSeen(s, s1, ByEmail(email), id, at, plan.second);
      ClashMeans(s1, id, name != p.username, ByUsername(name), at, plan.third);
      SameSeen(s, s1, ByUsername(name), id, at, plan.third);
      SameUnclaimed(s.users, found.row.(profile := Edited(p, u)), s.users[id].(profile := Edited(p, u)));
    }
  }

  lemma LoadsLive(s: Accounts, id: Id, at: real, f: Faults)
    requires Coherent(s) && f.db
    ensures var (s1, found) := Get(s, ByUid(id), at, f);
            && (found.Found? <==> id in s.users)
            && (found.Found? ==> found.row.profile == s.users[id].profile && found.row.id == id)
            && s1.users == s.users && (forall text :: NameKey(text) in s1.cache <==> NameKey(text) in s.cache)
            && (forall text :: NameKey(text) in s.cache ==> s1.cache[NameKey(text)] == s.cache[NameKey(text)])
  {
  }

  lemma SameSeen(s: Accounts, s1: Accounts, q: Query, id: Id, at: real, f: Faults)
    requires !q.ByUid? && s1.users == s.users
    requires forall text :: NameKey(text) in s1.cache <==> NameKey(text) in s.cache
    requires forall text :: NameKey(text) in s.cache ==> s1.cache[NameKey(text)] == s.cache[NameKey(text)]
    ensures OtherSeen(s1, q, id, at, f) == OtherSeen(s, q, id, at, f)
  {
  }

  lemma OwnNames(users: map<Id, User>, id: Id, email: string, name: string)
    requires RowsOk(users) && id in users
    ensures email != users[id].profile.email ==> forall u <- users.Values :: u.id == id ==> !Matches(u, ByEmail(email))
    ensures name != users[id].profile.username ==> forall u <- users.Values :: u.id == id ==> !Matches(u, ByUsername(name))
  {
  }

  lemma SameUnclaimed(users: map<Id, User>, u: User, v: User)
    requires u.id == v.id && u.profile == v.profile
    ensures Unclaimed(users, u) == Unclaimed(users, v)
  {
  }

  /** With the database up, a registration is done exactly when nothing is seen under its e-mail address and then
      under its username, and the row can be inserted. So an address is refused as taken while an entry under it
      lasts, even when the account it shows has another address by now. */
  lemma RegisterOutcome(s: Accounts, p: Profile, hash: string, newId: Id, at: real, plan: Plan)
    requires AllDbUp(plan)
    ensures Why(Register(s, p, hash, newId, at, plan).1) ==
              if Seen(s, ByEmail(p.email), at, plan.first).Some? then Some(EmailTaken)
              else if Seen(s, ByUsername(p.username), at, plan.second).Some? then Some(UsernameTaken)
              else if newId in s.users || !Unclaimed(s.users, User(newId, p, hash, "", ZERO_TIME)) then Some(StoreFailed)
              else None
  {
    hide Get, Unclaimed, Seen;
    GetFinds(s, ByEmail(p.email), at, plan.first);
    GetFinds(s, ByUsername(p.username), at, plan.second);
  }

  /** With the database up, a deletion is done exactly for a live account. */
  lemma DeleteUserOutcome(s: Accounts, id: Id, at: real, plan: Plan)
    requires Coherent(s) && AllDbUp(plan)
    ensures Why(DeleteUser(s, id, at, plan).1) == if id in s.users then None else Some(UserMissing)
  {
    hide Get, Coherent;
    GetCoherent(s, ByUid(id), at, plan.first);
    LoadsLive(s, id, at, plan.first);
    LoadsLive(Get(s, ByUid(id), at, plan.first).0, id, at, plan.second);
  }

  lemma CoherentRows(s: Accounts)
    requires Coherent(s)
    ensures RowsOk(s.users)
  {
  }

  /** After any run: updating an account without naming a field leaves every row as it was exactly when the
      account is read from the database, or has no secrets left to lose. */
  lemma {:induction false} EmptyUpdateLosslessIff(users: map<Id, User>, cfg: Config, calls: seq<Call>, id: Id, at: real,
                                                  plan: Plan)
    requires RowsOk(users) && forall i :: 0 <= i < |calls| ==> Lands(calls[i].plan)
    requires id in ServeAll(Open(users, cfg), calls).users && plan.first.db && plan.fourth.db
    ensures var s := ServeAll(Open(users, cfg), calls);
            UpdateUser(s, id, NOTHING, at, plan).0.users == s.users
            <==> !IsHit(s, IdKey(id), at, plan.first) || s.users[id] == Visible(s.users[id])
  {
    assert Coherent(Open(users, cfg));
    RunCoherent(Open(users, cfg), calls);
    hide ServeAll, Coherent, UpdateUser;
    var s := ServeAll(Open(users, cfg), calls);
    EmptyUpdateWritesBack(s, id, at, plan);
    if IsHit(s, IdKey(id), at, plan.first) && s.users[id] != Visible(s.users[id]) {
      assert UpdateUser(s, id, NOTHING, at, plan).0.users[id] != s.users[id];
    }
  }

  /** The loss takes two requests: look an account up by id, and then, while it is cached, update it without
      naming a field. */
  lemma LookUpThenUpdateLosesSecrets(users: map<Id, User>, cfg: Config, id: Id, at: real, later: real)
    requires RowsOk(users) && id in users && at <= later < at + TTL
    ensures var up := Faults(true, true, true, {});
            var s := ServeAll(Open(users, cfg), [Call(at, Looking(ByUid(id)), Plan(up, up, up, up))]);
            && s.users == users && IsHit(s, IdKey(id), later, up)
            && UpdateUser(s, id, NOTHING, later, Plan(up, up, up, up)).0.users == users[id := Visible(users[id])]
  {
    var up := Faults(true, true, true, {});
    var plan := Plan(up, up, up, up);
    var s := Open(users, cfg);
    var calls := [Call(at, Looking(ByUid(id)), plan)];
    assert Coherent(s);
    RunCoherent(s, calls);
    var s1 := ServeAll(s, calls);
    assert s1 == ServeAll(Serve(s, calls[0]).0, []) == Get(s, ByUid(id), at, up).0;
    EmptyUpdateWritesBack(s1, id, later, plan);
    hide UpdateUser, Coherent, ServeAll, Serve;
  }

  /** What the loss means: after it, neither the old refresh token nor any password works for the account. */
  lemma HitLocksAccountOut(s: Accounts, id: Id, at: real, plan: Plan)
    requires Coherent(s) && id in s.users && plan.first.db && plan.fourth.db && ZERO_TIME <= at
    requires IsHit(s, IdKey(id), at, plan.first)
    ensures var s' := UpdateUser(s, id, NOTHING, at, plan).0;
            && id in s'.users
            && (forall token, later: real, f ::
                  at <= later ==> UserByRefresh(s', token, later, f) != Found(s'.users[id]))
            && (forall name, matching, newToken, later, p ::
                  "" !in matching && AskUsernameOrEmail(s'.users, name) == Some(s'.users[id])
                  ==> Login(s', name, matching, newToken, later, p).1 == Denied(InvalidCredentials))
  {
  }

  /** A password can only be changed when the account is read from the database: a cached one has no hash
      to check against. */
  lemma PasswordChangeNeedsMiss(s: Accounts, id: Id, current: string, matching: set<string>, next: string, hash: string,
                                at: real, plan: Plan)
    requires Coherent(s) && id in s.users && plan.first.db && plan.second.db && "" !in matching
    requires current != "" && 8 <= |next|
    ensures ChangePassword(s, id, current, matching, next, hash, at, plan).1 == Done
            <==> !IsHit(s, IdKey(id), at, plan.first) && s.users[id].password in matching
    ensures var (s', reply) := ChangePassword(s, id, current, matching, next, hash, at, plan);
            s'.users == if reply == Done then s.users[id := s.users[id].(password := hash)] else s.users
  {
  }

  // ---------- Interleaved lookups of accounts ----------

  /** What a cached lookup of accounts stores of the database's answer. */
  function VisibleAnswer(users: map<Id, User>, q: Query): Option<User> {
    match Ask(users, q) case None => None case Some(u) => Some(Visible(u))
  }

  type UserEvent = Event<map<Id, User>, Query, UserKey>
  type UserSystem = System<map<Id, User>, UserKey, User>

  function UsersAfter(s: UserSystem, events: seq<UserEvent>, n: nat): UserSystem
    requires n <= |events|
  {
    After((t: map<Id, User>, q: Query) => VisibleAnswer(t, q), (q: Query) => KeyOf(q), s, events, n)
  }

  /** A lookup is a run of this system in which nobody interferes: a hit there, or a database read and a cache write. */
  lemma LookupIsFetchThenFill(s: Accounts, q: Query, at: real, f: Faults)
    ensures var before: UserSystem := System(s.users, s.cache, map[], at);
            var (s', found) := Get(s, q, at, f);
            var steps: seq<UserEvent> := [Fetch(0, q), Fill(0, f.put)];
            && (f.get && Hit(before, KeyOf(q)).Some? ==> s' == s && found == Found(Hit(before, KeyOf(q)).value))
            && (!(f.get && Hit(before, KeyOf(q)).Some?) && f.db ==>
                  System(s'.users, s'.cache, map[], at) == UsersAfter(before, steps, 2))
  {
    var before: UserSystem := System(s.users, s.cache, map[], at);
    var steps: seq<UserEvent> := [Fetch(0, q), Fill(0, f.put)];
    assert UsersAfter(before, steps, 0) == before;
    var found := VisibleAnswer(s.users, q);
    hide Ask;
    if found.Some? {
      assert UsersAfter(before, steps, 1) == before.(pending := map[0 := Pending(KeyOf(q), found.value)]);
      assert map[0 := Pending(KeyOf(q), found.value)] - {0} == map[];
    } else {
      var none: map<nat, Pending<UserKey, User>> := map[];
      assert none - {0} == none;
      assert UsersAfter(before, steps, 1) == before;
    }
  }

  predicate Matches(u: User, q: Query) {
    match q
    case ByUid(id) => u.id == id
    case ByEmail(email) => u.profile.email == email
    case ByUsername(name) => u.profile.username == name
  }

  lemma AskGives(users: map<Id, User>, q: Query)
    requires RowsOk(users) && Ask(users, q).Some?
    ensures var u := Ask(users, q).value;
            u.id in users && users[u.id] == u && Matches(u, q)
  {
  }

  lemma AskFinds(users: map<Id, User>, u: User, q: Query)
    requires RowsOk(users) && u.id in users && users[u.id] == u && Matches(u, q)
    ensures Ask(users, q) == Some(u)
  {
    match q
    case ByUid(_) =>
    case ByEmail(email) =>
      assert u.id in WithEmail(users, email);
      AskGives(users, q);
    case ByUsername(name) =>
      assert u.id in WithUsername(users, name);
      AskGives(users, q);
  }

  /** Which account the database would have given to q: a given one exactly when that one matches q. */
  lemma AnswersWhatMatches(users: map<Id, User>, asked: Query, q: Query)
    requires RowsOk(users) && VisibleAnswer(users, asked).Some?
    ensures VisibleAnswer(users, q) == VisibleAnswer(users, asked) <==> Matches(VisibleAnswer(users, asked).value, q)
  {
    hide Ask, RowsOk;
    AskGives(users, asked);
    var u := Ask(users, asked).value;
    if Matches(u, q) { AskFinds(users, u, q); }
    if Ask(users, q).Some? { AskGives(users, q); }
  }

  /** Every account served from the cache is what the database gave, to a lookup with the same cache key, less
      than 15 minutes plus that read-through's duration earlier. It is what the database would have given to
      this lookup as well if and only if it matches it: if it has the e-mail address, username or id asked for. */
  lemma AccountsAreFreshEnough(users: map<Id, User>, now: real, events: seq<UserEvent>, n: nat, q: Query)
    requires n <= |events| && Hit(UsersAfter(Start(users, now), events, n), KeyOf(q)).Some?
    ensures exists i: nat, j: nat ::
              && i < j < n && ReadThrough(events, i, j) && KeyOf(events[i].query) == KeyOf(q)
              && var past, served := UsersAfter(Start(users, now), events, i).table,
                                      Hit(UsersAfter(Start(users, now), events, n), KeyOf(q));
                 && VisibleAnswer(past, events[i].query) == served
                 && (RowsOk(past) ==> (VisibleAnswer(past, q) == served <==> Matches(served.value, q)))
                 && UsersAfter(Start(users, now), events, n).now - UsersAfter(Start(users, now), events, i).now
                    < 900.0 + (UsersAfter(Start(users, now), events, j).now - UsersAfter(Start(users, now), events, i).now)
  {
    hide Ask, RowsOk, Matches;
    var answer := (t: map<Id, User>, q: Query) => VisibleAnswer(t, q);
    var key := (q: Query) => KeyOf(q);
    var i, j := EntryOrigin(answer, key, users, now, events, n, KeyOf(q));
    var past := UsersAfter(Start(users, now), events, i).table;
    if RowsOk(past) { AnswersWhatMatches(past, events[i].query, q); }
  }

  /** The shared prefix mixes accounts up: one account's username is another's e-mail address, and a lookup by
      e-mail address is served the wrong account. */
  lemma SharedPrefixServesOtherAccount(one: User, two: User, cfg: Config)
    requires one.id != two.id && one.profile.username == two.profile.email
    requires one.profile.email != two.profile.email && one.profile.username != two.profile.username
    ensures var s := Open(map[one.id := one, two.id := two], cfg);
            var up := Faults(true, true, true, {});
            var s1 := Get(s, ByUsername(one.profile.username), 1.0, up).0;
            && Ask(s1.users, ByEmail(two.profile.email)) == Some(two)
            && Get(s1, ByEmail(two.profile.email), 2.0, up).1 == Found(Visible(one))
  {
    var users := map[one.id := one, two.id := two];
    AskFinds(users, one, ByUsername(one.profile.username));
    AskFinds(users, two, ByEmail(two.profile.email));
    hide Ask;
  }

  /** And one account is enough: its username is an address that no account has. A lookup by that address is
      served the account, and a registration with the address is refused as taken. */
  lemma UsernameTakesAddress(one: User, cfg: Config, p: Profile, hash: string, newId: Id)
    requires one.profile.username != one.profile.email && p.email == one.profile.username
    ensures var s := Open(map[one.id := one], cfg);
            var up := Faults(true, true, true, {});
            var s1 := Get(s, ByUsername(one.profile.username), 1.0, up).0;
            && Ask(s1.users, ByEmail(p.email)).None?
            && Get(s1, ByEmail(p.email), 2.0, up).1 == Found(Visible(one))
            && Register(s1, p, hash, newId, 2.0, Plan(up, up, up, up)).1 == Denied(EmailTaken)
            && Register(s, p, hash, newId, 2.0, Plan(up, up, up, up)).1 != Denied(EmailTaken)
  {
    var users := map[one.id := one];
    AskFinds(users, one, ByUsername(one.profile.username));
    assert Ask(users, ByEmail(p.email)).None?;
    hide Ask;
  }
}
