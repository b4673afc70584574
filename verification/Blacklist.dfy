/** A token that was logged out stays out. */
module Blacklist {
  import opened Shared
  import opened Users

  /** The token has expired, or its blacklist entry lasts at least until it does. */
  ghost predicate Barred(s: Accounts, t: Token, now: real) {
    t.Forged? || t.claims.expires as real <= now
    || (t in s.blacklist && t.claims.expires as real <= s.blacklist[t])
  }

  /** With the cache answering, a token is refused at every later time exactly when it is barred now. */
  lemma BarredIffRefused(s: Accounts, t: Token, now: real)
    ensures Barred(s, t, now) <==>
            forall checked: real, validated: real, f: Faults | now <= checked <= validated && f.get ::
              !TokenAccepted(s, t, checked, validated, f)
  {
    var up := Faults(true, true, true, {});
    if !Barred(s, t, now) {
      var when := if t in s.blacklist && now < s.blacklist[t] then s.blacklist[t] else now;
      assert TokenAccepted(s, t, when, when, up);
    }
  }

  /** Every request keeps a token barred. */
  lemma ServeKeepsBarred(s: Accounts, t: Token, now: real, c: Call)
    requires OnTime(now, c) && Barred(s, t, now)
    ensures Barred(Serve(s, c).0, t, End(c))
  {
    BlacklistOnlyGrows(s, c);
    hide Serve;
    if c.request.LoggingOut? && c.request.access == t && t.Signed? {
      assert c.request.stored + (t.claims.expires as real - c.request.measured) >= t.claims.expires as real;
    }
  }

  lemma GetQuiet(s: Accounts, q: Query, at: real, f: Faults)
    ensures Get(s, q, at, f).0.blacklist == s.blacklist
  {
  }

  lemma ClashQuiet(s: Accounts, id: Id, changed: bool, q: Query, at: real, f: Faults)
    ensures Clash(s, id, changed, q, at, f).0.blacklist == s.blacklist
  {
  }

  lemma UpdateUserQuiet(s: Accounts, id: Id, u: ProfileUpdate, at: real, plan: Plan)
    ensures UpdateUser(s, id, u, at, plan).0.blacklist == s.blacklist
  {
    hide Get, Clash, Edited, Unclaimed;
    GetQuiet(s, ByUid(id), at, plan.first);
    var (s1, found) := Get(s, ByUid(id), at, plan.first);
    if found.Found? {
      var p := found.row.profile;
      var email, name := Or(u.email, p.email), Or(u.username, p.username);
      ClashQuiet(s1, id, email != p.email, ByEmail(email), at, plan.second);
      var s2 := Clash(s1, id, email != p.email, ByEmail(email), at, plan.second).0;
      ClashQuiet(s2, id, name != p.username, ByUsername(name), at, plan.third);
    }
  }

  lemma RegisterQuiet(s: Accounts, p: Profile, hash: string, newId: Id, at: real, plan: Plan)
    ensures Register(s, p, hash, newId, at, plan).0.blacklist == s.blacklist
  {
  }

  lemma DeleteUserQuiet(s: Accounts, id: Id, at: real, plan: Plan)
    ensures DeleteUser(s, id, at, plan).0.blacklist == s.blacklist
  {
  }

  /** Only logout writes the blacklist, and only the entry of its own token. */
  lemma BlacklistOnlyGrows(s: Accounts, c: Call)
    ensures var s' := Serve(s, c).0;
            s'.blacklist == s.blacklist
            || (c.request.LoggingOut? && c.request.access.Signed?
                && s'.blacklist == s.blacklist[c.request.access :=
                     c.request.stored + (c.request.access.claims.expires as real - c.request.measured)])
  {
    hide Get, Register, UpdateUser, DeleteUser, Unclaimed, AskUsernameOrEmail, Users.Holders, FirstOf;
    match c.request
    case Registering(p, hash, newId) => RegisterQuiet(s, p, hash, newId, c.at, c.plan);
    case Editing(id, u) => UpdateUserQuiet(s, id, u, c.at, c.plan);
    case ChangingPassword(id, _, _, _, _) => GetQuiet(s, ByUid(id), c.at, c.plan.first);
    case Deleting(id) => DeleteUserQuiet(s, id, c.at, c.plan);
    case Looking(q) => GetQuiet(s, q, c.at, c.plan.first);
    case _ =>
  }

  lemma {:induction false} RunKeepsBarred(s: Accounts, t: Token, now: real, calls: seq<Call>, end: real)
    requires Timely(now, calls) && Barred(s, t, now) && now <= end
    requires forall i :: 0 <= i < |calls| ==> End(calls[i]) <= end
    ensures Barred(ServeAll(s, calls), t, end)
    decreases |calls|
  {
    hide Serve;
    if calls != [] {
      ServeKeepsBarred(s, t, now, calls[0]);
      RunKeepsBarred(Serve(s, calls[0]).0, t, End(calls[0]), calls[1..], end);
    }
  }

  /** A logout bars its token exactly when its entry gets written, or the token is out of date by then, or
      was barred already. */
  lemma LogoutBarsIff(s: Accounts, c: Call, now: real)
    requires OnTime(now, c) && c.request.LoggingOut? && JwtValid(c.request.access, c.at)
    ensures Barred(Serve(s, c).0, c.request.access, End(c)) <==>
            c.plan.first.put || Barred(s, c.request.access, End(c))
  {
  }

  /** Once logout has written the entry, the auth service refuses the token at every later time, through
      any later requests, because the entry lasts until the expiry check takes over. */
  lemma LoggedOutStaysOut(s: Accounts, now: real, c: Call, calls: seq<Call>, checked: real, validated: real, f: Faults)
    requires OnTime(now, c) && c.request.LoggingOut? && JwtValid(c.request.access, c.at) && c.plan.first.put
    requires Timely(End(c), calls) && End(c) <= checked <= validated
    requires forall i :: 0 <= i < |calls| ==> End(calls[i]) <= checked
    requires f.get
    ensures !TokenAccepted(ServeAll(Serve(s, c).0, calls), c.request.access, checked, validated, f)
  {
    LogoutBarsIff(s, c, now);
    hide Serve;
    RunKeepsBarred(Serve(s, c).0, c.request.access, End(c), calls, checked);
    BarredIffRefused(ServeAll(Serve(s, c).0, calls), c.request.access, checked);
  }
}
