/** src/modules/auth/auth.service.ts: finding or creating the account behind a Google
    profile. */
module Accounts {
  import opened Prelude
  import opened Text
  import opened UniqueNames

  datatype Profile = Profile(googleId: string, email: string, avatar: string)

  datatype User = User(
    googleId: Option<string>, email: Option<string>, handle: string, avatar: string, isAdmin: bool, deleted: bool)

  datatype Failure = UniqueIndex

  type Users = map<Id, User>

  function NonEmpty(s: string): Option<string> {
    if s == "" then None else Some(s)
  }

  predicate ByGoogle(users: Users, p: Profile, id: Id) {
    id in users && !users[id].deleted && users[id].googleId == Some(p.googleId)
  }

  predicate ByEmail(users: Users, p: Profile, id: Id) {
    p.email != "" && id in users && !users[id].deleted && users[id].email == Some(p.email)
  }

  /** The row the profile leads to: by Google id, else by email. */
  ghost predicate Leads(users: Users, p: Profile, id: Id) {
    ByGoogle(users, p, id) || ((forall k :: !ByGoogle(users, p, k)) && ByEmail(users, p, id))
  }

  /** What a login writes to the row it found: it completes, refreshes and promotes. */
  function Refreshed(u: User, p: Profile, admin: bool): User {
    u.(googleId := if Missing(u.googleId) then Some(p.googleId) else u.googleId,
       avatar := if p.avatar != "" then p.avatar else u.avatar,
       isAdmin := u.isAdmin || admin)
  }

  predicate Missing(s: Option<string>) {
    s.None? || s.value == ""
  }

  predicate WantsAdmin(p: Profile, adminEmails: set<string>) {
    p.email != "" && Lower(p.email) in adminEmails
  }

  /** The unique indexes; they look at soft-deleted rows too. */
  ghost predicate KeysUnique(users: Users) {
    forall a, b :: a in users && b in users && a != b ==>
      && users[a].handle != users[b].handle
      && (users[a].googleId.Some? ==> users[a].googleId != users[b].googleId)
      && (users[a].email.Some? ==> users[a].email != users[b].email)
  }

  function LiveHandles(users: Users): set<string> {
    set id | id in users && !users[id].deleted :: users[id].handle
  }

  function DefaultAvatar(handle: string): string {
    "https://picsum.photos/seed/avatar-" + handle + "/200/200"
  }

  function NewUser(p: Profile, handle: string, admin: bool): User {
    User(Some(p.googleId), NonEmpty(p.email), handle, if p.avatar != "" then p.avatar else DefaultAvatar(handle), admin, false)
  }

  /** The row to be saved runs into a unique index. */
  ghost predicate Refused(a: Users, p: Profile, adminEmails: set<string>, base: string, newId: Id) {
    if exists k :: Leads(a, p, k)
    then exists k :: Leads(a, p, k) && !KeysUnique(a[k := Refreshed(a[k], p, WantsAdmin(p, adminEmails))])
    else
      newId in a
      || exists k :: FirstFree(LiveHandles(a), base, "", k)
           && !KeysUnique(a[newId := NewUser(p, Candidate(base, "", k), WantsAdmin(p, adminEmails))])
  }

  /** One login. A database refusal leaves everything as it was. */
  ghost predicate Login(a: Users, b: Users, p: Profile, adminEmails: set<string>, base: string, newId: Id,
                        r: Result<Id, Failure>)
  {
    match r
    case Err(_) => b == a && Refused(a, p, adminEmails, base, newId)
    case Ok(id) =>
      KeysUnique(b) &&
      if exists k :: Leads(a, p, k)
      then Leads(a, p, id) && b == a[id := Refreshed(a[id], p, WantsAdmin(p, adminEmails))]
      else
        && id == newId && newId !in a
        && exists k :: FirstFree(LiveHandles(a), base, "", k)
             && b == a[newId := NewUser(p, Candidate(base, "", k), WantsAdmin(p, adminEmails))]
  }

  lemma LeadsToOne(users: Users, p: Profile, i: Id, j: Id)
    requires KeysUnique(users) && Leads(users, p, i) && Leads(users, p, j)
    ensures i == j
  {
  }

  lemma LoginLeads(a: Users, b: Users, p: Profile, adminEmails: set<string>, base: string, id: Id, newId: Id)
    requires KeysUnique(a) && p.googleId != "" && Login(a, b, p, adminEmails, base, newId, Ok(id))
    ensures Leads(b, p, id) && a.Keys <= b.Keys && KeysUnique(b)
    ensures forall k :: k in a && a[k].isAdmin ==> b[k].isAdmin
  {
    hide LiveHandles, Candidate, FirstFree, WantsAdmin, KeysUnique, DefaultAvatar;
    if exists k :: Leads(a, p, k) {
      if ByGoogle(a, p, id) || Missing(a[id].googleId) {
        assert ByGoogle(b, p, id);
      } else {
        forall k ensures !ByGoogle(b, p, k) {
          assert !ByGoogle(a, p, k);
        }
        assert ByEmail(b, p, id);
      }
    } else {
      assert ByGoogle(b, p, id);
    }
  }

  /** What a successful login leaves: the row found, or a new one under a handle no live row
      has; with the Google id if it had none, the avatar if one came along, and the
      administrator's role if it had it or the email is listed. Every other row stays. */
  lemma LoginDoes(a: Users, b: Users, p: Profile, adminEmails: set<string>, base: string, newId: Id, id: Id)
    requires Login(a, b, p, adminEmails, base, newId, Ok(id))
    ensures id in b && b == a[id := b[id]] && !b[id].deleted
    ensures b[id].isAdmin <==> (id in a && a[id].isAdmin) || (p.email != "" && Lower(p.email) in adminEmails)
    ensures id in a ==>
              && Leads(a, p, id) && b[id].email == a[id].email && b[id].handle == a[id].handle
              && b[id].googleId == (if a[id].googleId == None || a[id].googleId == Some("") then Some(p.googleId) else a[id].googleId)
              && b[id].avatar == (if p.avatar == "" then a[id].avatar else p.avatar)
    ensures id !in a ==>
              && (forall k :: !Leads(a, p, k)) && id == newId
              && b[id].googleId == Some(p.googleId) && b[id].email == (if p.email == "" then None else Some(p.email))
              && (forall k :: k in a && !a[k].deleted ==> a[k].handle != b[id].handle)
              && b[id].avatar == if p.avatar != "" then p.avatar
                                 else "https://picsum.photos/seed/avatar-" + b[id].handle + "/200/200"
  {
    hide Lower, KeysUnique, Candidate;
    if exists k :: Leads(a, p, k) {
      LeadsIn(a, p, id);
    } else if id !in a {
      forall k | k in a && !a[k].deleted ensures a[k].handle != b[id].handle {
        assert a[k].handle in LiveHandles(a);
      }
    }
  }

  /** What else goes on: other logins, accounts being deleted (users.service.ts), and all
      that touches neither Google ids nor emails. */
  datatype Event =
    | Visit(p: Profile, adminEmails: set<string>, base: string, newId: Id, r: Result<Id, Failure>)
    | Gone(id: Id)
    | EmailSet(id: Id, email: string) // the seed script, on its role accounts
    | Elsewhere

  predicate SameKeys(u: User, v: User) {
    u.googleId == v.googleId && u.email == v.email && u.deleted == v.deleted
  }

  /** Profiles and roles may change; the rows that appear, made-up reviewers and seeded
      users, have no Google id. */
  ghost predicate KeysKept(a: Users, b: Users) {
    && (forall k :: k in a ==> k in b && SameKeys(a[k], b[k]))
    && forall k :: k in b && k !in a ==> b[k].googleId.None?
  }

  ghost predicate Happens(a: Users, b: Users, e: Event) {
    match e
    case Visit(p, adminEmails, base, newId, r) => Login(a, b, p, adminEmails, base, newId, r)
    case Gone(id) => b == a - {id}
    case EmailSet(id, email) => id in a && b == a[id := a[id].(email := Some(email))] && KeysUnique(b)
    case Elsewhere => KeysUnique(b) && KeysKept(a, b)
  }

  /** The states of the table, one event after the other. */
  ghost predicate History(us: seq<Users>, es: seq<Event>) {
    |us| == |es| + 1 && forall i :: 0 <= i < |es| ==> Happens(us[i], us[i + 1], es[i])
  }

  /** An account is taken from a profile by being deleted; and, when the profile finds it by
      email alone, by another email being set, or by a successful login that brings the
      profile's Google id, leads elsewhere, and finds a row without a Google id to put it on,
      or no row at all. */
  ghost predicate TakesAway(a: Users, e: Event, p: Profile, id: Id) {
    match e
    case Gone(k) => k == id
    case Visit(q, _, _, _, r) =>
      && r.Ok? && q.googleId == p.googleId && !ByGoogle(a, p, id) && !Leads(a, q, id)
      && forall k :: Leads(a, q, k) ==> Missing(a[k].googleId)
    case EmailSet(k, email) => k == id && !ByGoogle(a, p, id) && email != p.email
    case Elsewhere => false
  }

  lemma SameGoogle(users: Users, q: Profile, p: Profile)
    requires q.googleId == p.googleId
    ensures forall k :: ByGoogle(users, q, k) == ByGoogle(users, p, k)
  {
  }

  /** A login with another Google id. */
  lemma StrangerLeaves(a: Users, b: Users, q: Profile, adminEmails: set<string>, base: string, newId: Id,
                       r: Result<Id, Failure>, p: Profile, id: Id)
    requires p.googleId != "" && Leads(a, p, id) && q.googleId != p.googleId
    requires Login(a, b, q, adminEmails, base, newId, r)
    ensures Leads(b, p, id)
  {
    hide LiveHandles, Candidate, FirstFree, WantsAdmin, DefaultAvatar, KeysUnique;
    if r.Ok? {
      if ByGoogle(a, p, id) {
        assert ByGoogle(b, p, id);
      } else {
        forall j ensures !ByGoogle(b, p, j) {
          assert !ByGoogle(a, p, j);
        }
        assert ByEmail(b, p, id);
      }
    }
  }

  /** A login with the same Google id, where the account is found by it. */
  lemma NamesakeFinds(a: Users, b: Users, q: Profile, adminEmails: set<string>, base: string, newId: Id,
                      r: Result<Id, Failure>, p: Profile, id: Id)
    requires KeysUnique(a) && p.googleId != "" && ByGoogle(a, p, id) && q.googleId == p.googleId
    requires Login(a, b, q, adminEmails, base, newId, r)
    ensures Leads(b, p, id)
  {
    hide LiveHandles, Candidate, FirstFree, WantsAdmin, DefaultAvatar, KeysUnique;
    assert ByGoogle(a, q, id) && Leads(a, q, id);
    if r.Ok? {
      LeadsToOne(a, q, id, r.value);
      assert ByGoogle(b, p, id);
    }
  }

  /** And where it is found by email alone. */
  lemma NamesakeTakes(a: Users, b: Users, q: Profile, adminEmails: set<string>, base: string, newId: Id,
                      id2: Id, p: Profile, id: Id)
    requires KeysUnique(a) && p.googleId != "" && Leads(a, p, id) && !ByGoogle(a, p, id) && q.googleId == p.googleId
    requires Login(a, b, q, adminEmails, base, newId, Ok(id2))
    ensures Leads(b, p, id) <==> Leads(a, q, id) || exists k :: Leads(a, q, k) && !Missing(a[k].googleId)
  {
    hide LiveHandles, Candidate, FirstFree, WantsAdmin, DefaultAvatar, KeysUnique;
    SameGoogle(a, q, p);
    assert forall k :: !ByGoogle(a, p, k);
    if exists k :: Leads(a, q, k) {
      assert forall k :: Leads(a, q, k) ==> k == id2 by { OnlyLead(a, q, id2); }
      if Missing(a[id2].googleId) {
        assert ByGoogle(b, p, id2);
        assert id2 != id ==> !ByGoogle(b, p, id);
      } else {
        forall j ensures !ByGoogle(b, p, j) {
          assert !ByGoogle(a, p, j);
        }
        assert ByEmail(b, p, id);
      }
    } else {
      assert ByGoogle(b, p, newId);
      assert !ByGoogle(b, p, id);
    }
  }

  lemma OnlyLead(users: Users, p: Profile, id: Id)
    requires KeysUnique(users) && Leads(users, p, id)
    ensures forall k :: Leads(users, p, k) ==> k == id
  {
    hide KeysUnique, Leads;
    forall k | Leads(users, p, k) ensures k == id {
      LeadsToOne(users, p, k, id);
    }
  }

  lemma GoneLeavesIff(a: Users, b: Users, k: Id, p: Profile, id: Id)
    requires KeysUnique(a) && Leads(a, p, id) && b == a - {k}
    ensures KeysUnique(b) && (Leads(b, p, id) <==> k != id)
  {
    forall j ensures ByGoogle(b, p, j) ==> ByGoogle(a, p, j) {}
  }

  lemma ElsewhereLeaves(a: Users, b: Users, p: Profile, id: Id)
    requires p.googleId != "" && Leads(a, p, id) && KeysKept(a, b)
    ensures Leads(b, p, id)
  {
    forall j ensures ByGoogle(b, p, j) ==> ByGoogle(a, p, j) {}
  }

  lemma EmailLeavesIff(a: Users, b: Users, k: Id, email: string, p: Profile, id: Id)
    requires Leads(a, p, id) && k in a && b == a[k := a[k].(email := Some(email))]
    ensures Leads(b, p, id) <==> !(k == id && !ByGoogle(a, p, id) && email != p.email)
  {
    forall j ensures ByGoogle(b, p, j) == ByGoogle(a, p, j) {}
  }

  /** Exactly when one event takes the account away. */
  lemma LeadsStaysIff(a: Users, b: Users, e: Event, p: Profile, id: Id)
    requires KeysUnique(a) && p.googleId != "" && Leads(a, p, id) && Happens(a, b, e)
    ensures KeysUnique(b) && (Leads(b, p, id) <==> !TakesAway(a, e, p, id))
  {
    match e
    case Gone(k) => GoneLeavesIff(a, b, k, p, id);
    case EmailSet(k, email) => EmailLeavesIff(a, b, k, email, p, id);
    case Elsewhere => ElsewhereLeaves(a, b, p, id);
    case Visit(q, adminEmails, base, newId, r) =>
      LoginUnique(a, b, q, adminEmails, base, newId, r);
      hide Login, Leads, KeysUnique, ByGoogle;
      if r.Err? {
        RefusedLogin(a, b, q, adminEmails, base, newId, r);
      } else if q.googleId != p.googleId {
        StrangerLeaves(a, b, q, adminEmails, base, newId, r, p, id);
      } else if ByGoogle(a, p, id) {
        NamesakeFinds(a, b, q, adminEmails, base, newId, r, p, id);
      } else {
        NamesakeTakes(a, b, q, adminEmails, base, newId, r.value, p, id);
      }
  }

  lemma LoginUnique(a: Users, b: Users, q: Profile, adminEmails: set<string>, base: string, newId: Id, r: Result<Id, Failure>)
    requires KeysUnique(a) && Login(a, b, q, adminEmails, base, newId, r)
    ensures KeysUnique(b)
  {
  }

  lemma RefusedLogin(a: Users, b: Users, q: Profile, adminEmails: set<string>, base: string, newId: Id, r: Result<Id, Failure>)
    requires Login(a, b, q, adminEmails, base, newId, r) && r.Err?
    ensures b == a
  {
  }

  /** Over a history: the profile leads to the account all along if and only if no event
      takes it away. */
  lemma {:induction false} HistoryLeadsIff(us: seq<Users>, es: seq<Event>, p: Profile, id: Id)
    requires History(us, es) && KeysUnique(us[0]) && p.googleId != "" && Leads(us[0], p, id)
    ensures (forall i :: 0 <= i < |us| ==> Leads(us[i], p, id)) <==>
            forall i :: 0 <= i < |es| ==> !TakesAway(us[i], es[i], p, id)
    ensures (forall i :: 0 <= i < |es| ==> !TakesAway(us[i], es[i], p, id)) ==> KeysUnique(us[|es|])
    decreases |es|
  {
    hide KeysUnique, Leads, Happens, TakesAway;
    if es != [] {
      assert Happens(us[0], us[1], es[0]);
      LeadsStaysIff(us[0], us[1], es[0], p, id);
      if Leads(us[1], p, id) {
        var vs, fs := us[1..], es[1..];
        HistoryLeadsIff(vs, fs, p, id);
        assert forall i :: 0 <= i < |vs| ==> vs[i] == us[i + 1];
        assert forall i :: 0 <= i < |fs| ==> fs[i] == es[i + 1];
        if forall i :: 0 <= i < |es| ==> !TakesAway(us[i], es[i], p, id) {
          assert forall i :: 0 <= i < |fs| ==> !TakesAway(vs[i], fs[i], p, id);
          assert forall i :: 0 <= i < |us| ==> i == 0 || us[i] == vs[i - 1];
        }
        if forall i :: 0 <= i < |us| ==> Leads(us[i], p, id) {
          assert forall i :: 0 <= i < |vs| ==> Leads(vs[i], p, id);
          assert forall i :: 0 <= i < |es| ==> i == 0 || (us[i] == vs[i - 1] && es[i] == fs[i - 1]);
        }
      }
    }
  }

  /** Logging in again with the same profile, whatever came between, finds the same
      account, creates none, and takes no administrator's role away; unless something took
      the account away. */
  lemma LoginAgain(a: Users, us: seq<Users>, d: Users, p: Profile, es: seq<Event>,
                   adminEmails: set<string>, later: set<string>, base: string, base2: string,
                   id: Id, newId: Id, newId2: Id, r: Result<Id, Failure>)
    requires KeysUnique(a) && p.googleId != "" && History(us, es)
    requires Login(a, us[0], p, adminEmails, base, newId, Ok(id))
    requires forall i :: 0 <= i < |es| ==> !TakesAway(us[i], es[i], p, id)
    requires Login(us[|es|], d, p, later, base2, newId2, r)
    ensures var c := us[|es|];
            && Leads(c, p, id) && (r.Ok? ==> r == Ok(id)) && d.Keys == c.Keys
            && forall k :: k in c && c[k].isAdmin ==> k in d && d[k].isAdmin
  {
    hide KeysUnique, Leads, TakesAway;
    var c := us[|es|];
    LoginLeads(a, us[0], p, adminEmails, base, id, newId);
    HistoryLeadsIff(us, es, p, id);
    if r.Ok? {
      LoginLeads(c, d, p, later, base2, r.value, newId2);
      assert Leads(c, p, r.value);
      LeadsToOne(c, p, id, r.value);
      LeadsIn(c, p, r.value);
    }
  }

  /** Two such losses. Somebody comes back with a new Google id and the old email, and is
      let into the old account; a login with the new Google id and a new email then makes
      an account of its own, or takes over one that had no Google id. From then on the old
      email with the new Google id leads there. */
  lemma GoogleIdMovesAway()
    ensures var p, q := Profile("new", "old@x", ""), Profile("new", "new@x", "");
            var i := User(Some("old"), Some("old@x"), "h", "", false, false);
            var j := User(None, Some("new@x"), "k", "", false, false);
            && Leads(map["i" := i], p, "i")
            && TakesAway(map["i" := i], Visit(q, {}, "n", "j", Ok("j")), p, "i")
            && (exists b :: Happens(map["i" := i], b, Visit(q, {}, "n", "j", Ok("j"))) && Leads(b, p, "j"))
            && Leads(map["i" := i, "j" := j], p, "i")
            && TakesAway(map["i" := i, "j" := j], Visit(q, {}, "n", "", Ok("j")), p, "i")
            && exists b :: Happens(map["i" := i, "j" := j], b, Visit(q, {}, "n", "", Ok("j"))) && Leads(b, p, "j")
  {
    var p, q := Profile("new", "old@x", ""), Profile("new", "new@x", "");
    var i := User(Some("old"), Some("old@x"), "h", "", false, false);
    var j := User(None, Some("new@x"), "k", "", false, false);
    RowCreated(p, q, i);
    RowTakenOver(p, q, i, j);
  }

  lemma RowCreated(p: Profile, q: Profile, i: User)
    requires p == Profile("new", "old@x", "") && q == Profile("new", "new@x", "")
    requires i == User(Some("old"), Some("old@x"), "h", "", false, false)
    ensures Leads(map["i" := i], p, "i")
    ensures TakesAway(map["i" := i], Visit(q, {}, "n", "j", Ok("j")), p, "i")
    ensures exists b :: Happens(map["i" := i], b, Visit(q, {}, "n", "j", Ok("j"))) && Leads(b, p, "j")
  {
    hide DefaultAvatar;
    var a := map["i" := i];
    assert ByEmail(a, p, "i") && forall k :: !ByGoogle(a, p, k) && !ByGoogle(a, q, k) && !ByEmail(a, q, k);
    var b := a["j" := NewUser(q, "n", false)];
    assert LiveHandles(a) == {"h"} by { assert "i" in a; }
    assert FirstFree(LiveHandles(a), "n", "", 1) && Candidate("n", "", 1) == "n";
    assert KeysUnique(b);
    assert Happens(a, b, Visit(q, {}, "n", "j", Ok("j")));
    assert ByGoogle(b, p, "j");
  }

  lemma RowTakenOver(p: Profile, q: Profile, i: User, j: User)
    requires p == Profile("new", "old@x", "") && q == Profile("new", "new@x", "")
    requires i == User(Some("old"), Some("old@x"), "h", "", false, false)
    requires j == User(None, Some("new@x"), "k", "", false, false)
    ensures Leads(map["i" := i, "j" := j], p, "i")
    ensures TakesAway(map["i" := i, "j" := j], Visit(q, {}, "n", "", Ok("j")), p, "i")
    ensures exists b :: Happens(map["i" := i, "j" := j], b, Visit(q, {}, "n", "", Ok("j"))) && Leads(b, p, "j")
  {
    hide DefaultAvatar;
    var a := map["i" := i, "j" := j];
    assert ByEmail(a, p, "i") && ByEmail(a, q, "j") && forall k :: !ByGoogle(a, p, k) && !ByGoogle(a, q, k);
    assert Leads(a, q, "j");
    var b := a["j" := Refreshed(j, q, false)];
    assert KeysUnique(b);
    assert Happens(a, b, Visit(q, {}, "n", "", Ok("j")));
    assert ByGoogle(b, p, "j");
  }

  lemma LeadsIn(users: Users, p: Profile, id: Id)
    ensures Leads(users, p, id) ==> id in users
  {
  }

  class AuthService {
    var users: Users

    ghost predicate Valid()
      reads this
    {
      KeysUnique(users)
    }

    /** Saving runs into the unique indexes or goes through. */
    method Save(id: Id, u: User) returns (ok: bool)
      requires Valid()
      modifies this
      ensures Valid()
      ensures ok ==> users == old(users)[id := u]
      ensures !ok ==> users == old(users)
      ensures ok <==> KeysUnique(old(users)[id := u])
    {
      ok := forall k :: k in users && k != id ==>
        && users[k].handle != u.handle
        && (u.googleId.Some? ==> users[k].googleId != u.googleId)
        && (u.email.Some? ==> users[k].email != u.email);
      if ok {
        users := users[id := u];
      } else {
        ghost var next := users[id := u];
        ghost var k :| k in users && k != id && !(
          && users[k].handle != u.handle
          && (u.googleId.Some? ==> users[k].googleId != u.googleId)
          && (u.email.Some? ==> users[k].email != u.email));
        assert k in next && id in next && next[k] == users[k] && next[id] == u;
      }
    }

    /** base is the cleaned local part of the email, or a stand-in when that is empty. */
    method FindOrCreateGoogleUser(p: Profile, adminEmails: set<string>, base: string, newId: Id)
      returns (r: Result<Id, Failure>)
      requires Valid()
      modifies this
      ensures Valid() && Login(old(users), users, p, adminEmails, base, newId, r)
    {
      var admin := WantsAdmin(p, adminEmails);
      var existing: Option<Id> := None;
      if g :| g in users && ByGoogle(users, p, g) {
        existing := Some(g);
      } else if e :| e in users && ByEmail(users, p, e) {
        existing := Some(e);
      }
      if existing.Some? {
        assert Leads(users, p, existing.value);
        var u := users[existing.value];
        if Missing(u.googleId) {
          u := u.(googleId := Some(p.googleId));
        }
        if p.avatar != "" && u.avatar != p.avatar {
          u := u.(avatar := p.avatar);
        }
        if admin && !u.isAdmin {
          u := u.(isAdmin := true);
        }
        var ok := Save(existing.value, u);
        return if ok then Ok(existing.value) else Err(UniqueIndex);
      }
      var handle, probes := UniqueName(LiveHandles(users), base, "");
      if newId in users {
        return Err(UniqueIndex);
      }
      var ok := Save(newId, NewUser(p, handle, admin));
      r := if ok then Ok(newId) else Err(UniqueIndex);
    }
  }
}
