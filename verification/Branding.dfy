/** src/modules/branding/branding.service.ts: verification of a brand's contact email
    by mailed tokens, and the brand's face on its owner's tours. */
module Branding {
  import opened Prelude
  import opened Sequences
  import opened Text
  import Tours

  const TOKEN_TTL_MS := 24 * 60 * 60 * 1000

  datatype User = User(
    handle: string,
    isAdmin: bool,
    brandName: Option<string>,
    shortName: Option<string>,
    logoUrl: Option<string>,
    email: Option<string>,
    verified: bool,
    verifiedAt: Option<int>,
    token: Option<string>,
    tokenExpiresAt: Option<int>)

  datatype Issue = Issue(userId: Id, email: string, at: int)

  /** What a tour copies from its owner. */
  datatype OwnedTour = OwnedTour(ownerId: Option<Id>, provider: Tours.Provider)

  /** None for a property left out of the request. */
  datatype Patch = Patch(
    brandName: Option<string>, shortName: Option<string>, logoUrl: Option<string>, email: Option<string>)

  /** The users and tours, and the history that the claims are about: every token ever mailed,
      those that are no longer outstanding, and when tokens were accepted. */
  datatype State = State(
    users: map<Id, User>,
    tours: map<Id, OwnedTour>,
    issued: map<string, Issue>,
    retired: set<string>,
    accepted: map<string, int>)

  datatype Op =
    | Update(userId: Id, patch: Patch)
    | SendVerification(userId: Id, token: string)
    | PresentToken(token: string)
    | DeleteAccount(userId: Id) // users.service.ts; tours lose their owner
    | ChangeRole(userId: Id, isAdmin: bool) // an administrator, or a login that promotes
    | StampTours(stamped: set<Id>, provider: Tours.Provider) // by editing a tour or a brand of the catalogue

  datatype Event = Event(now: int, op: Op)

  /** A null or empty string. */
  predicate Missing(s: Option<string>) {
    s.None? || s.value == ""
  }

  function Outstanding(u: User): set<string> {
    if u.token.Some? then {u.token.value} else {}
  }

  predicate ChangesEmail(u: User, email: Option<string>) {
    email.Some? && Lower(email.value) != Lower(u.email.GetOr(""))
  }

  function Updated(u: User, p: Patch): User {
    var w := u.(brandName := if p.brandName.Some? then p.brandName else u.brandName,
                shortName := if p.shortName.Some? then p.shortName else u.shortName,
                logoUrl := if p.logoUrl.Some? then Tours.NonEmpty(p.logoUrl.value) else u.logoUrl,
                email := if p.email.Some? then Some(Lower(p.email.value)) else u.email);
    if ChangesEmail(u, p.email)
    then w.(verified := false, verifiedAt := None, token := None, tokenExpiresAt := None) else w
  }

  /** How a brand appears on a tour; an administrator's always with the tick. */
  function Face(u: User): Tours.Provider {
    Tours.Provider(u.brandName.GetOr(""), u.shortName.GetOr(Upper(Slice(u.handle, 0, 6))),
                   u.isAdmin || u.verified, u.logoUrl)
  }

  function Synced(tours: map<Id, OwnedTour>, userId: Id, u: User): map<Id, OwnedTour> {
    if Missing(u.brandName) then tours
    else map t | t in tours :: if tours[t].ownerId == Some(userId) then tours[t].(provider := Face(u)) else tours[t]
  }

  function UpdateStep(s: State, userId: Id, p: Patch): State {
    if userId !in s.users then s
    else
      var u := s.users[userId];
      s.(users := s.users[userId := Updated(u, p)],
         tours := Synced(s.tours, userId, Updated(u, p)),
         retired := if ChangesEmail(u, p.email) then s.retired + Outstanding(u) else s.retired)
  }

  /** Whether a mail goes out. */
  predicate Sends(s: State, userId: Id) {
    userId in s.users && !Missing(s.users[userId].brandName) && !Missing(s.users[userId].email)
    && !s.users[userId].verified
  }

  function SendStep(s: State, now: int, userId: Id, token: string): State {
    if !Sends(s, userId) then s
    else
      var u := s.users[userId];
      s.(users := s.users[userId := u.(token := Some(token), tokenExpiresAt := Some(now + TOKEN_TTL_MS))],
         issued := s.issued[token := Issue(userId, u.email.value, now)],
         retired := s.retired + Outstanding(u))
  }

  predicate Holds(s: State, userId: Id, token: string) {
    userId in s.users && s.users[userId].token == Some(token)
  }

  predicate Accepts(s: State, now: int, userId: Id, token: string) {
    token != "" && Holds(s, userId, token)
    && s.users[userId].tokenExpiresAt.Some? && now <= s.users[userId].tokenExpiresAt.value
  }

  function AcceptStep(s: State, now: int, userId: Id, token: string): State
    requires userId in s.users
  {
    var u := s.users[userId].(verified := true, verifiedAt := Some(now), token := None, tokenExpiresAt := None);
    s.(users := s.users[userId := u],
       tours := Synced(s.tours, userId, u),
       retired := s.retired + {token},
       accepted := s.accepted[token := now])
  }

  ghost function PresentStep(s: State, now: int, token: string): State {
    if u :| Accepts(s, now, u, token) then AcceptStep(s, now, u, token) else s
  }

  function DeleteStep(s: State, userId: Id): State {
    s.(users := s.users - {userId},
       tours := map t | t in s.tours ::
                  if s.tours[t].ownerId == Some(userId) then s.tours[t].(ownerId := None) else s.tours[t],
       retired := if userId in s.users then s.retired + Outstanding(s.users[userId]) else s.retired)
  }

  function RoleStep(s: State, userId: Id, isAdmin: bool): State {
    if userId !in s.users then s else s.(users := s.users[userId := s.users[userId].(isAdmin := isAdmin)])
  }

  function StampStep(s: State, stamped: set<Id>, p: Tours.Provider): State {
    s.(tours := map t | t in s.tours :: if t in stamped then s.tours[t].(provider := p) else s.tours[t])
  }

  ghost predicate Verifies(s: State, now: int, token: string) {
    exists u :: Accepts(s, now, u, token)
  }

  ghost function Step(s: State, e: Event): State {
    match e.op
    case Update(userId, patch) => UpdateStep(s, userId, patch)
    case SendVerification(userId, token) => SendStep(s, e.now, userId, token)
    case PresentToken(token) => PresentStep(s, e.now, token)
    case DeleteAccount(userId) => DeleteStep(s, userId)
    case ChangeRole(userId, isAdmin) => RoleStep(s, userId, isAdmin)
    case StampTours(stamped, p) => StampStep(s, stamped, p)
  }

  ghost function Run(s: State, es: seq<Event>): State
    decreases |es|
  {
    if es == [] then s else Run(Step(s, es[0]), es[1..])
  }

  /** Time does not go back, and generated tokens are new and not empty. */
  ghost predicate Possible(s: State, clock: int, es: seq<Event>)
    decreases |es|
  {
    es == [] || (
      && clock <= es[0].now
      && (es[0].op.SendVerification? ==> es[0].op.token != "" && es[0].op.token !in s.issued)
      && Possible(Step(s, es[0]), es[0].now, es[1..]))
  }

  /** An outstanding token was mailed to its holder for the present email. */
  ghost predicate TokenOk(s: State, id: Id) {
    id in s.users && s.users[id].token.Some? ==>
      var t := s.users[id].token.value;
      && t in s.issued && t !in s.retired
      && s.issued[t].userId == id
      && s.users[id].email.Some? && Lower(s.issued[t].email) == Lower(s.users[id].email.value)
      && s.users[id].tokenExpiresAt == Some(s.issued[t].at + TOKEN_TTL_MS)
  }

  /** Token t proves the present email of a user: mailed for it, up to case, and
      presented within its day. */
  ghost predicate Proves(s: State, id: Id, t: string) {
    && id in s.users && t in s.accepted && t in s.issued
    && s.issued[t].userId == id
    && s.users[id].email.Some? && Lower(s.issued[t].email) == Lower(s.users[id].email.value)
    && s.issued[t].at <= s.accepted[t] <= s.issued[t].at + TOKEN_TTL_MS
  }

  ghost predicate VerifiedOk(s: State, id: Id) {
    id in s.users && s.users[id].verified ==>
      s.users[id].token.None? && exists t :: Proves(s, id, t)
  }

  ghost predicate Inv(s: State, clock: int) {
    && (forall id :: id in s.users ==> TokenOk(s, id) && VerifiedOk(s, id))
    && (forall t :: t in s.issued ==> s.issued[t].at <= clock && (t in s.retired || Holds(s, s.issued[t].userId, t)))
    && (forall t :: t in s.retired ==> t in s.issued)
    && (forall t :: t in s.accepted ==> t in s.retired)
  }

  /** History is only added to. */
  ghost predicate Remembers(s: State, after: State) {
    && (forall t :: t in s.issued ==> t in after.issued && after.issued[t] == s.issued[t])
    && (forall t :: t in s.accepted ==> t in after.accepted && after.accepted[t] == s.accepted[t])
  }

  /** Then what proved an email proves it still. */
  lemma StillVerified(s: State, after: State, id: Id)
    requires VerifiedOk(s, id) && Remembers(s, after) && id in s.users && id in after.users
    requires after.users[id].verified ==>
               && s.users[id].verified && after.users[id].token.None?
               && s.users[id].email.Some? == after.users[id].email.Some?
               && Lower(s.users[id].email.GetOr("")) == Lower(after.users[id].email.GetOr(""))
    ensures VerifiedOk(after, id)
  {
    hide Lower;
    if after.users[id].verified {
      var t :| Proves(s, id, t);
      assert Proves(after, id, t);
    }
  }

  lemma UpdateKeeps(s: State, clock: int, userId: Id, patch: Patch)
    requires Inv(s, clock)
    ensures Inv(UpdateStep(s, userId, patch), clock)
  {
    hide Lower, Synced;
    var after := UpdateStep(s, userId, patch);
    if userId in s.users {
      var u := s.users[userId];
      if patch.email.Some? { LowerTwice(patch.email.value); }
      forall id | id in after.users ensures TokenOk(after, id) && VerifiedOk(after, id) {
        assert TokenOk(s, id) && VerifiedOk(s, id);
        StillVerified(s, after, id);
      }
      forall t | t in after.issued
        ensures t in after.retired || Holds(after, after.issued[t].userId, t)
      {
        assert t in s.retired || Holds(s, s.issued[t].userId, t);
      }
    }
  }

  lemma SendTokens(s: State, clock: int, now: int, userId: Id, token: string)
    requires Inv(s, clock) && clock <= now && token !in s.issued && Sends(s, userId)
    ensures var after := SendStep(s, now, userId, token);
            && (forall id :: id in after.users ==> TokenOk(after, id))
            && forall t :: t in after.issued ==> t in after.retired || Holds(after, after.issued[t].userId, t)
  {
    hide Lower, VerifiedOk;
    var after := SendStep(s, now, userId, token);
    forall id | id in after.users ensures TokenOk(after, id) {
      assert TokenOk(s, id) && TokenOk(s, userId);
    }
    forall t | t in after.issued ensures t in after.retired || Holds(after, after.issued[t].userId, t) {
      assert t in s.issued ==> t in s.retired || Holds(s, s.issued[t].userId, t);
    }
  }

  lemma SendVerified(s: State, clock: int, now: int, userId: Id, token: string)
    requires Inv(s, clock) && token !in s.issued && Sends(s, userId)
    ensures var after := SendStep(s, now, userId, token);
            forall id :: id in after.users ==> VerifiedOk(after, id)
  {
    hide Lower, TokenOk, Proves;
    var after := SendStep(s, now, userId, token);
    forall id | id in after.users ensures VerifiedOk(after, id) {
      StillVerified(s, after, id);
    }
  }

  lemma SendKeeps(s: State, clock: int, now: int, userId: Id, token: string)
    requires Inv(s, clock) && clock <= now && token !in s.issued
    ensures Inv(SendStep(s, now, userId, token), now)
  {
    hide Lower, TokenOk, VerifiedOk;
    ClockMoves(s, clock, now);
    if Sends(s, userId) {
      SendTokens(s, clock, now, userId, token);
      SendVerified(s, clock, now, userId, token);
      OutstandingIssued(s, clock, userId);
    }
  }

  lemma OutstandingIssued(s: State, clock: int, userId: Id)
    requires Inv(s, clock) && userId in s.users
    ensures forall t :: t in Outstanding(s.users[userId]) ==> t in s.issued
  {
    hide Lower;
    assert TokenOk(s, userId);
  }

  lemma PresentKeeps(s: State, clock: int, now: int, token: string)
    requires Inv(s, clock) && clock <= now
    ensures Inv(PresentStep(s, now, token), now)
  {
    hide Lower, Synced;
    var after := PresentStep(s, now, token);
    if Verifies(s, now, token) {
      var u :| Accepts(s, now, u, token) && after == AcceptStep(s, now, u, token);
      assert TokenOk(s, u) && VerifiedOk(s, u);
      assert Proves(after, u, token);
      assert Remembers(s, after);
      forall id | id in after.users ensures TokenOk(after, id) && VerifiedOk(after, id) {
        assert TokenOk(s, id) && VerifiedOk(s, id);
        if id != u { StillVerified(s, after, id); }
      }
      forall t | t in after.issued
        ensures t in after.retired || Holds(after, after.issued[t].userId, t)
      {
        assert t in s.retired || Holds(s, s.issued[t].userId, t);
      }
    }
  }

  lemma DeleteKeeps(s: State, clock: int, userId: Id)
    requires Inv(s, clock)
    ensures Inv(DeleteStep(s, userId), clock)
  {
    hide Lower;
    var after := DeleteStep(s, userId);
    forall id | id in after.users ensures TokenOk(after, id) && VerifiedOk(after, id) {
      assert TokenOk(s, id) && VerifiedOk(s, id);
      StillVerified(s, after, id);
      if userId in s.users { assert TokenOk(s, userId); }
    }
    forall t | t in after.issued
      ensures t in after.retired || Holds(after, after.issued[t].userId, t)
    {
      assert t in s.retired || Holds(s, s.issued[t].userId, t);
    }
    if userId in s.users { assert TokenOk(s, userId); }
  }

  lemma RoleKeeps(s: State, clock: int, userId: Id, isAdmin: bool)
    requires Inv(s, clock)
    ensures Inv(RoleStep(s, userId, isAdmin), clock)
  {
    hide Lower;
    var after := RoleStep(s, userId, isAdmin);
    forall id | id in after.users ensures TokenOk(after, id) && VerifiedOk(after, id) {
      assert TokenOk(s, id) && VerifiedOk(s, id);
      StillVerified(s, after, id);
    }
    forall t | t in after.issued ensures t in after.retired || Holds(after, after.issued[t].userId, t) {
      assert t in s.retired || Holds(s, s.issued[t].userId, t);
    }
  }

  lemma StampKeeps(s: State, clock: int, stamped: set<Id>, p: Tours.Provider)
    requires Inv(s, clock)
    ensures Inv(StampStep(s, stamped, p), clock)
  {
    hide Lower;
    var after := StampStep(s, stamped, p);
    forall id | id in after.users ensures TokenOk(after, id) && VerifiedOk(after, id) {
      assert TokenOk(s, id) && VerifiedOk(s, id);
      StillVerified(s, after, id);
    }
    forall t | t in after.issued ensures t in after.retired || Holds(after, after.issued[t].userId, t) {
      assert t in s.retired || Holds(s, s.issued[t].userId, t);
    }
  }

  /** In every possible run: a verified brand has no outstanding token and some token
      proves its present email. */
  lemma {:induction false} RunKeeps(s: State, clock: int, es: seq<Event>)
    requires Inv(s, clock) && Possible(s, clock, es)
    ensures Inv(Run(s, es), if es == [] then clock else es[|es| - 1].now)
    decreases |es|
  {
    hide Inv, UpdateStep, SendStep, PresentStep, DeleteStep, RoleStep, StampStep;
    if es != [] {
      ClockMoves(s, clock, es[0].now);
      match es[0].op {
        case Update(userId, patch) => UpdateKeeps(s, es[0].now, userId, patch);
        case SendVerification(userId, token) => SendKeeps(s, clock, es[0].now, userId, token);
        case PresentToken(token) => PresentKeeps(s, clock, es[0].now, token);
        case DeleteAccount(userId) => DeleteKeeps(s, es[0].now, userId);
        case ChangeRole(userId, isAdmin) => RoleKeeps(s, es[0].now, userId, isAdmin);
        case StampTours(stamped, p) => StampKeeps(s, es[0].now, stamped, p);
      }
      RunKeeps(Step(s, es[0]), es[0].now, es[1..]);
    }
  }

  lemma ClockMoves(s: State, clock: int, now: int)
    requires Inv(s, clock) && clock <= now
    ensures Inv(s, now)
  {
  }

  lemma StepRemembers(s: State, e: Event)
    requires e.op.SendVerification? ==> e.op.token !in s.issued
    ensures s.retired <= Step(s, e).retired
    ensures forall t :: t in s.issued ==> t in Step(s, e).issued && Step(s, e).issued[t] == s.issued[t]
  {
    hide Updated, Synced;
  }

  /** History is only ever added to. */
  lemma {:induction false} RunRemembers(s: State, clock: int, es: seq<Event>)
    requires Possible(s, clock, es)
    ensures s.retired <= Run(s, es).retired
    ensures forall t :: t in s.issued ==> t in Run(s, es).issued && Run(s, es).issued[t] == s.issued[t]
    decreases |es|
  {
    hide Step;
    if es != [] {
      StepRemembers(s, es[0]);
      RunRemembers(Step(s, es[0]), es[0].now, es[1..]);
    }
  }

  lemma DeadTokens(s: State, clock: int, now: int, t: string)
    requires Inv(s, clock)
    ensures t in s.retired ==> !Verifies(s, now, t)
    ensures t in s.issued && now > s.issued[t].at + TOKEN_TTL_MS ==> !Verifies(s, now, t)
  {
    hide Lower;
    forall u ensures Accepts(s, now, u, t) ==> t !in s.retired && t in s.issued && now <= s.issued[t].at + TOKEN_TTL_MS {
      if Accepts(s, now, u, t) { assert TokenOk(s, u); }
    }
  }

  /** A token that is retired, or past its day, is refused ever after. */
  lemma NeverAgain(s: State, clock: int, es: seq<Event>, now: int, t: string)
    requires Inv(s, clock) && Possible(s, clock, es)
    requires clock <= now && (es != [] ==> es[|es| - 1].now <= now)
    requires t in s.retired || (t in s.issued && clock > s.issued[t].at + TOKEN_TTL_MS)
    ensures !Verifies(Run(s, es), now, t)
  {
    hide Inv, Step, Possible, Run;
    RunKeeps(s, clock, es);
    RunRemembers(s, clock, es);
    DeadTokens(Run(s, es), if es == [] then clock else es[|es| - 1].now, now, t);
  }

  /** What retires a token: being accepted, being superseded by a new mail, the email
      changing by more than case, and the account going. */
  lemma WhatRetires(s: State, clock: int, now: int, userId: Id, t: string, next: string, patch: Patch)
    requires Inv(s, clock) && Holds(s, userId, t)
    ensures Accepts(s, now, userId, t) ==> t in PresentStep(s, now, t).retired
    ensures Sends(s, userId) ==> t in SendStep(s, now, userId, next).retired
    ensures ChangesEmail(s.users[userId], patch.email) ==> t in UpdateStep(s, userId, patch).retired
    ensures t in DeleteStep(s, userId).retired
  {
    hide Lower, Updated, Synced;
  }

  /** A token is accepted exactly while it is the one its user last got, its email has
      not changed since, and its day is not over. */
  lemma AcceptedIff(s: State, clock: int, now: int, t: string)
    requires Inv(s, clock) && t != ""
    ensures Verifies(s, now, t) <==> t in s.issued && t !in s.retired && now <= s.issued[t].at + TOKEN_TTL_MS
  {
    hide Lower;
    DeadTokens(s, clock, now, t);
    if Verifies(s, now, t) {
      var u :| Accepts(s, now, u, t);
      assert TokenOk(s, u);
    } else if t in s.issued && t !in s.retired {
      assert TokenOk(s, s.issued[t].userId);
      assert !Accepts(s, now, s.issued[t].userId, t);
    }
  }

  // The face on the tours ---------------------------------------------------------

  predicate Named(s: State, userId: Id) {
    userId in s.users && !Missing(s.users[userId].brandName)
  }

  predicate Owns(s: State, userId: Id, t: Id) {
    t in s.tours && s.tours[t].ownerId == Some(userId)
  }

  /** The tours of a brand that has a name show its present face. */
  ghost predicate FaceShown(s: State, userId: Id) {
    Named(s, userId) ==> forall t :: Owns(s, userId, t) ==> s.tours[t].provider == Face(s.users[userId])
  }

  /** What puts it there: a saved update and an accepted token. */
  ghost predicate PutsFace(s: State, e: Event, userId: Id) {
    || (e.op.Update? && e.op.userId == userId)
    || (e.op.PresentToken? && Accepts(s, e.now, userId, e.op.token)
        && forall u :: Accepts(s, e.now, u, e.op.token) ==> u == userId)
  }

  lemma PutShows(s: State, e: Event, userId: Id)
    requires PutsFace(s, e, userId)
    ensures FaceShown(Step(s, e), userId)
  {
    hide Lower, Upper, ChangesEmail;
  }

  /** What leaves it there. Requests on the catalogue write the provider of a tour whoever
      owns it: they must not reach the tours of a named brand, or write its very face. A
      change of role stamps nothing: it must not move the tick. */
  ghost predicate LeavesFace(s: State, e: Event, userId: Id) {
    match e.op
    case StampTours(stamped, p) =>
      Named(s, userId) ==> forall t :: t in stamped && Owns(s, userId, t) ==> p == Face(s.users[userId])
    case ChangeRole(u, isAdmin) =>
      u == userId && Named(s, userId) ==>
        isAdmin == s.users[userId].isAdmin || s.users[userId].verified || forall t :: !Owns(s, userId, t)
    case _ => true
  }

  /** Exactly then a face that is current stays current. */
  lemma StepShowsIff(s: State, e: Event, userId: Id)
    requires FaceShown(s, userId)
    ensures FaceShown(Step(s, e), userId) <==> LeavesFace(s, e, userId)
  {
    hide Lower, Upper, ChangesEmail;
    match e.op
    case StampTours(stamped, p) => StampShowsIff(s, stamped, p, userId);
    case ChangeRole(u, isAdmin) => RoleShowsIff(s, u, isAdmin, userId);
    case _ =>
  }

  lemma StampShowsIff(s: State, stamped: set<Id>, p: Tours.Provider, userId: Id)
    requires FaceShown(s, userId)
    ensures FaceShown(StampStep(s, stamped, p), userId) <==>
            (Named(s, userId) ==> forall t :: t in stamped && Owns(s, userId, t) ==> p == Face(s.users[userId]))
  {
    hide Face;
    var after := StampStep(s, stamped, p);
    assert forall t :: Owns(after, userId, t) <==> Owns(s, userId, t);
    if Named(s, userId) && FaceShown(after, userId) {
      forall t | t in stamped && Owns(s, userId, t) ensures p == Face(s.users[userId]) {
        assert Owns(after, userId, t);
      }
    }
  }

  lemma RoleShowsIff(s: State, u: Id, isAdmin: bool, userId: Id)
    requires FaceShown(s, userId)
    ensures FaceShown(RoleStep(s, u, isAdmin), userId) <==>
            (u == userId && Named(s, userId) ==>
               isAdmin == s.users[userId].isAdmin || s.users[userId].verified || forall t :: !Owns(s, userId, t))
  {
    hide Upper;
    var after := RoleStep(s, u, isAdmin);
    assert forall t :: Owns(after, userId, t) <==> Owns(s, userId, t);
    if u == userId && Named(s, userId) {
      if t :| Owns(s, userId, t) {
        assert Owns(after, userId, t);
        assert s.tours[t].provider == Face(s.users[userId]);
      }
    }
  }

  ghost predicate AllLeaveFace(s: State, es: seq<Event>, userId: Id)
    decreases |es|
  {
    es == [] || (LeavesFace(s, es[0], userId) && AllLeaveFace(Step(s, es[0]), es[1..], userId))
  }

  ghost predicate ShownThroughout(s: State, es: seq<Event>, userId: Id)
    decreases |es|
  {
    FaceShown(s, userId) && (es == [] || ShownThroughout(Step(s, es[0]), es[1..], userId))
  }

  /** Over every run: once shown, a brand's face is current on its tours all along if and
      only if no request of the run takes it away. */
  lemma {:induction false} RunShowsIff(s: State, es: seq<Event>, userId: Id)
    requires FaceShown(s, userId)
    ensures ShownThroughout(s, es, userId) <==> AllLeaveFace(s, es, userId)
    decreases |es|
  {
    hide Step, FaceShown, LeavesFace;
    if es != [] {
      var next := Step(s, es[0]);
      StepShowsIff(s, es[0], userId);
      if FaceShown(next, userId) { RunShowsIff(next, es[1..], userId); } else { NotShown(next, es[1..], userId); }
    }
  }

  lemma NotShown(s: State, es: seq<Event>, userId: Id)
    requires !FaceShown(s, userId)
    ensures !ShownThroughout(s, es, userId)
  {
  }

  /** Such a request: taking a tour out of its catalogue brand puts the site's face on it
      and leaves its owner, who is not told. */
  lemma ClearedBrandHidesFace(db: Tours.Db, s: State, now: int, t: Id, userId: Id)
    requires t in db.tours && !db.tours[t].deleted && db.tours[t].ownerId == Some(userId)
    requires FaceShown(s, userId) && Named(s, userId) && Owns(s, userId, t)
    requires Face(s.users[userId]) != Tours.SITE_PROVIDER
    ensures var edited := Tours.Step(db, Tours.TourUpdate(t, Some(None), None)).db.tours[t];
            && edited.ownerId == Some(userId) && edited.provider == Tours.SITE_PROVIDER
            && !FaceShown(Step(s, Event(now, StampTours({t}, edited.provider))), userId)
  {
    hide Face, FaceShown;
    StepShowsIff(s, Event(now, StampTours({t}, Tours.SITE_PROVIDER)), userId);
  }

  // What each request does -----------------------------------------------------------

  /** Everybody but one user is as before. */
  ghost predicate OthersKept(a: State, b: State, userId: Id) {
    && a.users.Keys == b.users.Keys
    && forall u :: u in a.users && u != userId ==> b.users[u] == a.users[u]
  }

  /** The user's tours show the brand as it is, if it has a name; all others stay. */
  ghost predicate Stamped(a: State, b: State, userId: Id)
    requires userId in b.users
  {
    var u := b.users[userId];
    && a.tours.Keys == b.tours.Keys
    && forall t :: t in a.tours ==>
         if a.tours[t].ownerId == Some(userId) && u.brandName.Some? && u.brandName.value != ""
         then b.tours[t] == OwnedTour(Some(userId), Tours.Provider(
                u.brandName.value,
                if u.shortName.Some? then u.shortName.value else Upper(Slice(u.handle, 0, 6)),
                u.isAdmin || u.verified, u.logoUrl))
         else b.tours[t] == a.tours[t]
  }

  /** Editing a brand: what is sent is stored, the email in lower case, an empty logo as
      none; an email that differs by more than case ends the verification and its token, and
      nothing else does. */
  lemma UpdateDoes(s: State, now: int, userId: Id, p: Patch)
    ensures userId !in s.users ==> Step(s, Event(now, Update(userId, p))) == s
    ensures userId in s.users ==>
              var (after, u) := (Step(s, Event(now, Update(userId, p))), s.users[userId]);
              && OthersKept(s, after, userId) && Stamped(s, after, userId)
              && after.issued == s.issued && after.accepted == s.accepted
              && var w := after.users[userId];
                 var moved := p.email.Some? && Lower(p.email.value) != Lower(if u.email.Some? then u.email.value else "");
                 && w.brandName == (if p.brandName.Some? then p.brandName else u.brandName)
                 && w.shortName == (if p.shortName.Some? then p.shortName else u.shortName)
                 && w.logoUrl == (if p.logoUrl.None? then u.logoUrl else if p.logoUrl.value == "" then None else p.logoUrl)
                 && w.email == (if p.email.Some? then Some(Lower(p.email.value)) else u.email)
                 && w.verified == (u.verified && !moved)
                 && (w.verifiedAt, w.token, w.tokenExpiresAt)
                    == (if moved then (None, None, None) else (u.verifiedAt, u.token, u.tokenExpiresAt))
                 && w.handle == u.handle && w.isAdmin == u.isAdmin
  {
    hide Lower, Upper;
  }

  /** Sending a mail: with a name and an email, and not verified yet; then the new token is
      good for a day, to the instant, and the one before it no longer. */
  lemma SendDoes(s: State, clock: int, now: int, userId: Id, token: string, later: int)
    requires Inv(s, clock) && clock <= now <= later && token != "" && token !in s.issued
    ensures var after := Step(s, Event(now, SendVerification(userId, token)));
            if userId in s.users && s.users[userId].brandName.GetOr("") != "" && s.users[userId].email.GetOr("") != ""
               && !s.users[userId].verified
            then
              && token in after.issued && after.issued[token] == Issue(userId, s.users[userId].email.value, now)
              && (Verifies(after, later, token) <==> later <= now + 86_400_000)
              && (s.users[userId].token.Some? ==> !Verifies(after, later, s.users[userId].token.value))
              && OthersKept(s, after, userId) && after.tours == s.tours && after.accepted == s.accepted
              && userId in after.users
              && after.users[userId] ==
                 s.users[userId].(token := Some(token), tokenExpiresAt := Some(now + 86_400_000))
            else after == s
  {
    hide Inv, Lower;
    SendKeeps(s, clock, now, userId, token);
    var after := SendStep(s, now, userId, token);
    if Sends(s, userId) {
      AcceptedIff(after, now, later, token);
      SendLeavesNew(s, clock, userId, token);
      if s.users[userId].token.Some? { DeadTokens(after, now, later, s.users[userId].token.value); }
    }
  }

  lemma SendLeavesNew(s: State, clock: int, userId: Id, token: string)
    requires Inv(s, clock) && token !in s.issued && userId in s.users
    ensures token !in s.retired && token !in Outstanding(s.users[userId])
  {
    hide Lower;
    OutstandingIssued(s, clock, userId);
  }

  /** Presenting a token: one that is accepted verifies exactly the user it was mailed to,
      now, and is used up; any other changes nothing. */
  lemma PresentDoes(s: State, clock: int, now: int, token: string)
    requires Inv(s, clock) && clock <= now
    ensures var after := Step(s, Event(now, PresentToken(token)));
            if Verifies(s, now, token)
            then
              && token in s.issued && s.issued[token].userId in s.users
              && var userId := s.issued[token].userId;
                 && OthersKept(s, after, userId)
                 && after.users[userId] ==
                    s.users[userId].(verified := true, verifiedAt := Some(now), token := None, tokenExpiresAt := None)
                 && Stamped(s, after, userId)
                 && after.issued == s.issued && after.accepted == s.accepted[token := now]
            else after == s
  {
    hide Lower, Upper;
    if Verifies(s, now, token) {
      var u :| Accepts(s, now, u, token) && PresentStep(s, now, token) == AcceptStep(s, now, u, token);
      assert TokenOk(s, u);
      AcceptStamps(s, now, u, token);
    }
  }

  lemma AcceptStamps(s: State, now: int, userId: Id, token: string)
    requires userId in s.users
    ensures Stamped(s, AcceptStep(s, now, userId, token), userId)
  {
    hide Upper;
  }

  /** Deleting an account takes the user and leaves the tours, without an owner. */
  lemma DeleteDoes(s: State, now: int, userId: Id)
    ensures var after := Step(s, Event(now, DeleteAccount(userId)));
            && after.users == s.users - {userId} && after.tours.Keys == s.tours.Keys
            && (forall t :: t in s.tours ==>
                  after.tours[t] == if s.tours[t].ownerId == Some(userId) then OwnedTour(None, s.tours[t].provider)
                                    else s.tours[t])
            && after.issued == s.issued && after.accepted == s.accepted
  {
  }

  datatype Verdict = Accepted | Invalid | Expired

  class BrandingService {
    var users: map<Id, User>
    var tours: map<Id, OwnedTour>
    ghost var issued: map<string, Issue>
    ghost var retired: set<string>
    ghost var accepted: map<string, int>

    ghost function Abstract(): State
      reads this
    {
      State(users, tours, issued, retired, accepted)
    }

    method SyncOwnedTourProviders(userId: Id)
      requires userId in users
      modifies this`tours
      ensures tours == Synced(old(tours), userId, users[userId])
    {
      hide Upper;
      var user := users[userId];
      if Missing(user.brandName) {
        return;
      }
      var p := Tours.Provider(
        user.brandName.value,
        if user.shortName.Some? then user.shortName.value else Upper(Slice(user.handle, 0, 6)),
        if user.isAdmin then true else user.verified,
        user.logoUrl);
      tours := map t | t in tours :: if tours[t].ownerId == Some(userId) then tours[t].(provider := p) else tours[t];
    }

    static method Patched(before: User, dto: Patch) returns (user: User)
      ensures user == Updated(before, dto)
    {
      hide Lower;
      user := before;
      var prevEmail := user.email;
      if dto.brandName.Some? {
        user := user.(brandName := dto.brandName);
      }
      if dto.shortName.Some? {
        user := user.(shortName := dto.shortName);
      }
      if dto.logoUrl.Some? {
        user := user.(logoUrl := if dto.logoUrl.value == "" then None else dto.logoUrl);
      }
      if dto.email.Some? {
        user := user.(email := Some(Lower(dto.email.value)));
      }
      if dto.email.Some? && Lower(dto.email.value) != Lower(prevEmail.GetOr("")) {
        user := user.(verified := false, verifiedAt := None, token := None, tokenExpiresAt := None);
      }
    }

    /** False when there is no such user. */
    method Update(ghost clock: int, userId: Id, dto: Patch) returns (found: bool)
      modifies this
      ensures found == (userId in old(users))
      ensures Abstract() == UpdateStep(old(Abstract()), userId, dto)
      ensures old(Inv(Abstract(), clock)) ==> Inv(Abstract(), clock)
      ensures FaceShown(Abstract(), userId)
    {
      hide Inv, FaceShown, Updated, ChangesEmail, Synced;
      ghost var s := Abstract();
      if Inv(s, clock) { UpdateKeeps(s, clock, userId, dto); }
      PutShows(s, Event(clock, Op.Update(userId, dto)), userId);
      if userId !in users {
        return false;
      }
      var user := Patched(users[userId], dto);
      if ChangesEmail(users[userId], dto.email) {
        retired := retired + Outstanding(users[userId]);
      }
      users := users[userId := user];
      SyncOwnedTourProviders(userId);
      found := true;
    }

    /** None when the brand name or the email is missing; otherwise whether a mail went out. */
    method SendVerification(now: int, userId: Id, token: string) returns (sent: Option<bool>)
      modifies this
      ensures sent == (if userId !in old(users) || Missing(old(users)[userId].brandName)
                          || Missing(old(users)[userId].email) then None
                       else Some(!old(users)[userId].verified))
      ensures Abstract() == SendStep(old(Abstract()), now, userId, token)
      ensures old(Inv(Abstract(), now)) && token !in old(issued) ==> Inv(Abstract(), now)
    {
      hide Inv;
      if Inv(Abstract(), now) && token !in issued { SendKeeps(Abstract(), now, now, userId, token); }
      if userId !in users {
        return None;
      }
      var user := users[userId];
      if Missing(user.brandName) || Missing(user.email) {
        return None;
      }
      if user.verified {
        return Some(false);
      }
      retired := retired + Outstanding(user);
      issued := issued[token := Issue(userId, user.email.value, now)];
      users := users[userId := user.(token := Some(token), tokenExpiresAt := Some(now + TOKEN_TTL_MS))];
      sent := Some(true);
    }

    method VerifyToken(ghost clock: int, now: int, token: string) returns (v: Verdict)
      requires Inv(Abstract(), clock) && clock <= now
      modifies this
      ensures Inv(Abstract(), now)
      ensures forall u :: FaceShown(old(Abstract()), u) || Accepts(old(Abstract()), now, u, token) ==> FaceShown(Abstract(), u)
      ensures v == Accepted <==> Verifies(old(Abstract()), now, token)
      ensures v == Expired <==> !Verifies(old(Abstract()), now, token) && token != "" && token in old(issued) && token !in old(retired)
      ensures Abstract() == PresentStep(old(Abstract()), now, token)
    {
      hide Lower, Face, FaceShown, Inv;
      ghost var s := Abstract();
      PresentKeeps(s, clock, now, token);
      PresentShows(s, clock, now, token);
      if token == "" {
        return Invalid;
      }
      AcceptedIff(s, clock, now, token);
      HoldersAre(s, clock, token);
      if u :| u in users && users[u].token == Some(token) {
        var user := users[u];
        OneHolder(s, clock, u, token);
        assert Holds(s, u, token);
        if user.tokenExpiresAt.None? || user.tokenExpiresAt.value < now {
          return Expired;
        }
        assert Accepts(s, now, u, token);
        users := users[u := user.(verified := true, verifiedAt := Some(now), token := None, tokenExpiresAt := None)];
        retired := retired + {token};
        accepted := accepted[token := now];
        SyncOwnedTourProviders(u);
        v := Accepted;
      } else {
        v := Invalid;
      }
    }
  }

  lemma PresentShows(s: State, clock: int, now: int, token: string)
    requires Inv(s, clock)
    ensures forall u :: FaceShown(s, u) || Accepts(s, now, u, token) ==> FaceShown(PresentStep(s, now, token), u)
  {
    hide Inv, FaceShown, PresentStep;
    forall u | FaceShown(s, u) || Accepts(s, now, u, token) ensures FaceShown(PresentStep(s, now, token), u) {
      if Accepts(s, now, u, token) {
        OneHolder(s, clock, u, token);
        PutShows(s, Event(now, PresentToken(token)), u);
      } else {
        StepShowsIff(s, Event(now, PresentToken(token)), u);
      }
    }
  }

  lemma HoldersAre(s: State, clock: int, token: string)
    requires Inv(s, clock)
    ensures forall u :: Holds(s, u, token) ==>
              token in s.issued && token !in s.retired
              && s.users[u].tokenExpiresAt == Some(s.issued[token].at + TOKEN_TTL_MS)
    ensures token in s.issued && token !in s.retired ==> Holds(s, s.issued[token].userId, token)
  {
    hide Lower;
    forall u | Holds(s, u, token)
      ensures token in s.issued && token !in s.retired
              && s.users[u].tokenExpiresAt == Some(s.issued[token].at + TOKEN_TTL_MS)
    {
      assert TokenOk(s, u);
    }
  }

  lemma OneHolder(s: State, clock: int, u: Id, token: string)
    requires Inv(s, clock) && Holds(s, u, token)
    ensures forall w :: Holds(s, w, token) ==> w == u
  {
    hide Lower;
    forall w | Holds(s, w, token) ensures w == u {
      assert TokenOk(s, w) && TokenOk(s, u);
    }
  }
}
