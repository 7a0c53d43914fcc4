/** src/modules/check-ins/check-ins.service.ts and src/modules/votes/votes.service.ts:
    the check-in, memory-lock, vote and counter machine, one transaction a step. */
module CheckIns {
  import opened Prelude
  import opened Text
  import opened VnTime

  const MEMORY_LOCK_MS := 30 * 60 * 1000

  datatype Place = Place(name: string, address: Option<string>, lat: real, lng: real)

  datatype CheckIn = CheckIn(
    userId: Id,
    venueId: Option<Id>,
    place: Option<Place>,
    comment: Option<string>,
    photos: seq<string>,
    friends: seq<string>,
    isPublic: bool,
    memoryCreatedAt: Option<int>,
    createdAt: Instant,
    deletedAt: Option<int>)

  /** Create and update requests; None stands for an undefined property. */
  datatype Memory = Memory(
    comment: Option<string>,
    photos: Option<seq<string>>,
    friends: Option<seq<string>>,
    isPublic: Option<bool>)

  /** The tables. Votes and journey entries are unique per (user, venue); the slug
      index covers the venues that are not soft-deleted. */
  datatype Db = Db(
    checkIns: map<Id, CheckIn>,
    checkInCount: map<Id, int>,
    venueBySlug: map<string, Id>,
    upvotes: map<Id, int>,
    votes: map<(Id, Id), int>,
    journey: set<(Id, Id)>)

  datatype Error =
    | VenueNotFound
    | AlreadyCheckedInToday
    | CheckInNotFound
    | NotYours
    | Locked
    | CheckInRequired
    | ConstraintViolation // primary or foreign key; the transaction rolls back

  datatype Outcome = Outcome(db: Db, error: Option<Error>)

  function Done(db: Db): Outcome {
    Outcome(db, None)
  }

  function Fail(db: Db, e: Error): Outcome {
    Outcome(db, Some(e))
  }

  predicate Live(row: CheckIn) {
    row.deletedAt.None?
  }

  function LiveOf(rows: map<Id, CheckIn>, user: Id): set<Id> {
    set id | id in rows && Live(rows[id]) && rows[id].userId == user
  }

  function LiveAt(rows: map<Id, CheckIn>, user: Id, venue: Id): set<Id> {
    set id | id in rows && Live(rows[id]) && rows[id].userId == user && rows[id].venueId == Some(venue)
  }

  function UpvotersOf(votes: map<(Id, Id), int>, venue: Id): set<(Id, Id)> {
    set k | k in votes && k.1 == venue && votes[k] == 1
  }

  /** ORDER BY created_at DESC LIMIT 1 over the live rows of a user at a venue. */
  predicate IsLatest(rows: map<Id, CheckIn>, user: Id, venue: Id, id: Id) {
    id in LiveAt(rows, user, venue)
    && forall j :: j in LiveAt(rows, user, venue) ==> rows[j].createdAt <= rows[id].createdAt
  }

  lemma {:induction false} LatestExists(rows: map<Id, CheckIn>, ids: set<Id>) returns (id: Id)
    requires ids != {} && ids <= rows.Keys
    ensures id in ids && forall j :: j in ids ==> rows[j].createdAt <= rows[id].createdAt
  {
    id :| id in ids;
    if ids != {id} {
      var other := LatestExists(rows, ids - {id});
      if rows[id].createdAt < rows[other].createdAt { id := other; }
    }
  }

  ghost function Latest(rows: map<Id, CheckIn>, user: Id, venue: Id): (r: Option<Id>)
    ensures r.Some? ==> IsLatest(rows, user, venue, r.value)
    ensures r.None? <==> LiveAt(rows, user, venue) == {}
  {
    if LiveAt(rows, user, venue) == {} then None
    else
      assert exists id :: IsLatest(rows, user, venue, id) by {
        var id := LatestExists(rows, LiveAt(rows, user, venue));
        assert IsLatest(rows, user, venue, id);
      }
      var id :| IsLatest(rows, user, venue, id);
      Some(id)
  }

  predicate HasContent(comment: Option<string>, photos: seq<string>) {
    (comment.Some? && !IsBlank(comment.value)) || photos != []
  }

  function NewRow(user: Id, venue: Option<Id>, place: Option<Place>, dto: Memory, now: Instant): CheckIn {
    var photos := dto.photos.GetOr([]);
    CheckIn(user, venue, place, dto.comment, photos, dto.friends.GetOr([]), dto.isPublic.GetOr(true),
            if HasContent(dto.comment, photos) then Some(now) else None, now, None)
  }

  ghost predicate CheckedInToday(rows: map<Id, CheckIn>, user: Id, venue: Id, now: Instant) {
    var last := Latest(rows, user, venue);
    last.Some? && IsSameVnDay(rows[last.value].createdAt, now) == Some(true)
  }

  function Insert(db: Db, id: Id, row: CheckIn): Outcome {
    if id in db.checkIns || row.userId !in db.checkInCount then Fail(db, ConstraintViolation)
    else Done(db.(checkIns := db.checkIns[id := row],
                  checkInCount := db.checkInCount[row.userId := db.checkInCount[row.userId] + 1]))
  }

  ghost function Create(db: Db, now: Instant, slug: string, user: Id, id: Id, dto: Memory): Outcome {
    if slug !in db.venueBySlug then Fail(db, VenueNotFound)
    else
      var venue := db.venueBySlug[slug];
      if CheckedInToday(db.checkIns, user, venue, now) then Fail(db, AlreadyCheckedInToday)
      else
        var o := Insert(db, id, NewRow(user, Some(venue), None, dto, now));
        if o.error.Some? then o else Done(o.db.(journey := o.db.journey + {(user, venue)}))
  }

  function CreateCustom(db: Db, now: Instant, user: Id, id: Id, place: Place, dto: Memory): Outcome {
    Insert(db, id, NewRow(user, None, Some(place), dto, now))
  }

  predicate PrivacyOnly(patch: Memory) {
    patch.isPublic.Some? && patch.comment.None? && patch.photos.None? && patch.friends.None?
  }

  predicate LockedAt(row: CheckIn, now: int) {
    row.memoryCreatedAt.Some? && now - row.memoryCreatedAt.value > MEMORY_LOCK_MS
  }

  function Patched(row: CheckIn, now: int, patch: Memory): CheckIn {
    row.(memoryCreatedAt := if row.memoryCreatedAt.None? && !PrivacyOnly(patch) then Some(now) else row.memoryCreatedAt,
         comment := if patch.comment.Some? then patch.comment else row.comment,
         photos := patch.photos.GetOr(row.photos),
         friends := patch.friends.GetOr(row.friends),
         isPublic := patch.isPublic.GetOr(row.isPublic))
  }

  function UpdateMemory(db: Db, now: int, id: Id, user: Id, patch: Memory): Outcome {
    if id !in db.checkIns || !Live(db.checkIns[id]) then Fail(db, CheckInNotFound)
    else
      var row := db.checkIns[id];
      if row.userId != user then Fail(db, NotYours)
      else if !PrivacyOnly(patch) && LockedAt(row, now) then Fail(db, Locked)
      else Done(db.(checkIns := db.checkIns[id := Patched(row, now, patch)]))
  }

  ghost function UpdateLatestMemory(db: Db, now: int, slug: string, user: Id, patch: Memory): Outcome {
    if slug !in db.venueBySlug then Fail(db, VenueNotFound)
    else
      var latest := Latest(db.checkIns, user, db.venueBySlug[slug]);
      if latest.None? then Fail(db, CheckInNotFound) else UpdateMemory(db, now, latest.value, user, patch)
  }

  /** The last check-in of a user at a venue takes the user's vote with it. */
  function DropVote(db: Db, user: Id, venue: Id): Db {
    if LiveAt(db.checkIns, user, venue) != {} || (user, venue) !in db.votes then db
    else
      db.(votes := db.votes - {(user, venue)},
          upvotes := if db.votes[(user, venue)] == 1 && venue in db.upvotes
                     then db.upvotes[venue := db.upvotes[venue] - 1] else db.upvotes)
  }

  function Remove(db: Db, now: int, id: Id, user: Id): Outcome {
    if id !in db.checkIns || !Live(db.checkIns[id]) then Done(db)
    else
      var row := db.checkIns[id];
      if row.userId != user then Fail(db, NotYours)
      else if LockedAt(row, now) then Fail(db, Locked)
      else
        var d := db.(checkIns := db.checkIns[id := row.(deletedAt := Some(now))],
                     checkInCount := if user in db.checkInCount
                                     then db.checkInCount[user := db.checkInCount[user] - 1] else db.checkInCount);
        Done(if row.venueId.Some? then DropVote(d, user, row.venueId.value) else d)
  }

  ghost function RemoveLatest(db: Db, now: int, slug: string, user: Id): Outcome {
    if slug !in db.venueBySlug then Fail(db, VenueNotFound)
    else
      var latest := Latest(db.checkIns, user, db.venueBySlug[slug]);
      if latest.None? then Done(db) else Remove(db, now, latest.value, user)
  }

  /** Voting toggles the same value off and flips the opposite one. */
  function Cast(db: Db, slug: string, user: Id, up: bool): Outcome {
    if slug !in db.venueBySlug then Fail(db, VenueNotFound)
    else
      var venue := db.venueBySlug[slug];
      var k, value := (user, venue), if up then 1 else -1;
      if LiveAt(db.checkIns, user, venue) == {} then Fail(db, CheckInRequired)
      else
        var before := if k in db.votes then db.votes[k] else 0;
        var votes := if before == value then db.votes - {k} else db.votes[k := value];
        var delta := if up then (if before == 1 then -1 else 1) else (if before == 1 then -1 else 0);
        Done(db.(votes := votes,
                 upvotes := if delta != 0 && venue in db.upvotes
                            then db.upvotes[venue := db.upvotes[venue] + delta] else db.upvotes))
  }

  function Register(db: Db, user: Id): Outcome {
    if user in db.checkInCount then Fail(db, ConstraintViolation)
    else Done(db.(checkInCount := db.checkInCount[user := 0]))
  }

  /** A venue starts with any number of upvotes. */
  function CreateVenue(db: Db, slug: string, venue: Id, seeded: int): Outcome {
    if slug in db.venueBySlug || venue in db.upvotes then Fail(db, ConstraintViolation)
    else Done(db.(venueBySlug := db.venueBySlug[slug := venue], upvotes := db.upvotes[venue := seeded]))
  }

  /** users.service.ts: the user's rows cascade away; counters on venues stay as they are. */
  function DeleteAccount(db: Db, user: Id): Db {
    db.(checkIns := map id | id in db.checkIns && db.checkIns[id].userId != user :: db.checkIns[id],
        checkInCount := db.checkInCount - {user},
        votes := map k | k in db.votes && k.0 != user :: db.votes[k],
        journey := set k | k in db.journey && k.0 != user)
  }

  datatype Op =
    | OpCreate(slug: string, user: Id, id: Id, dto: Memory)
    | OpCreateCustom(user: Id, id: Id, place: Place, dto: Memory)
    | OpUpdateMemory(id: Id, user: Id, patch: Memory)
    | OpUpdateLatest(slug: string, user: Id, patch: Memory)
    | OpRemove(id: Id, user: Id)
    | OpRemoveLatest(slug: string, user: Id)
    | OpCast(slug: string, user: Id, up: bool)
    | OpRegister(user: Id)
    | OpVenueCreated(slug: string, venue: Id, seeded: int) // by an administrator or the importer
    | OpVenueSoftDeleted(slug: string)
    | OpDeleteAccount(user: Id)

  datatype Event = Event(now: Instant, op: Op)

  ghost function Step(db: Db, e: Event): Outcome {
    match e.op
    case OpCreate(slug, user, id, dto) => Create(db, e.now, slug, user, id, dto)
    case OpCreateCustom(user, id, place, dto) => CreateCustom(db, e.now, user, id, place, dto)
    case OpUpdateMemory(id, user, patch) => UpdateMemory(db, e.now, id, user, patch)
    case OpUpdateLatest(slug, user, patch) => UpdateLatestMemory(db, e.now, slug, user, patch)
    case OpRemove(id, user) => Remove(db, e.now, id, user)
    case OpRemoveLatest(slug, user) => RemoveLatest(db, e.now, slug, user)
    case OpCast(slug, user, up) => Cast(db, slug, user, up)
    case OpRegister(user) => Register(db, user)
    case OpVenueCreated(slug, venue, seeded) => CreateVenue(db, slug, venue, seeded)
    case OpVenueSoftDeleted(slug) => Done(db.(venueBySlug := db.venueBySlug - {slug}))
    case OpDeleteAccount(user) => Done(DeleteAccount(db, user))
  }

  /** A run under a clock that never goes back. */
  ghost predicate Timeline(from: int, es: seq<Event>)
    decreases |es|
  {
    es == [] || (from <= es[0].now && Timeline(es[0].now, es[1..]))
  }

  ghost function Run(db: Db, es: seq<Event>): Db
    decreases |es|
  {
    if es == [] then db else Run(Step(db, es[0]).db, es[1..])
  }

  // What holds between runs -----------------------------------------------

  ghost predicate RowOk(row: CheckIn, clock: int) {
    && row.createdAt <= clock
    && (row.venueId.Some? <==> row.place.None?)
    && (HasContent(row.comment, row.photos) ==> row.memoryCreatedAt.Some?)
  }

  ghost predicate RowsOk(db: Db, clock: int) {
    forall id :: id in db.checkIns ==> RowOk(db.checkIns[id], clock) && db.checkIns[id].userId in db.checkInCount
  }

  /** At most one live check-in per user, venue and Vietnam day. */
  ghost predicate OncePerDay(rows: map<Id, CheckIn>) {
    forall a, b :: a in rows && b in rows && a != b && Live(rows[a]) && Live(rows[b])
                   && rows[a].userId == rows[b].userId && rows[a].venueId.Some? && rows[a].venueId == rows[b].venueId
                   ==> VnDay(rows[a].createdAt) != VnDay(rows[b].createdAt)
  }

  ghost predicate CountsExact(db: Db) {
    forall u :: u in db.checkInCount ==> db.checkInCount[u] == |LiveOf(db.checkIns, u)|
  }

  /** Every vote is by someone with a live check-in, on a venue row, and worth 1 or -1. */
  ghost predicate VotesBacked(db: Db) {
    forall k :: k in db.votes ==>
      LiveAt(db.checkIns, k.0, k.1) != {} && k.1 in db.upvotes && (db.votes[k] == 1 || db.votes[k] == -1)
  }

  ghost predicate Inv(db: Db, clock: int) {
    && RowsOk(db, clock)
    && OncePerDay(db.checkIns)
    && CountsExact(db)
    && VotesBacked(db)
    && forall s :: s in db.venueBySlug ==> db.venueBySlug[s] in db.upvotes
  }

  /** The part of a venue's counter that does not come from votes. */
  ghost function BaseUpvotes(db: Db, venue: Id): int
    requires venue in db.upvotes
  {
    db.upvotes[venue] - |UpvotersOf(db.votes, venue)|
  }

  ghost predicate BasesKept(a: Db, b: Db) {
    a.upvotes.Keys == b.upvotes.Keys
    && forall v :: v in a.upvotes ==> BaseUpvotes(a, v) == BaseUpvotes(b, v)
  }

  lemma RowWritten(rows: map<Id, CheckIn>, id: Id, row: CheckIn, user: Id, venue: Id)
    ensures var after := rows[id := row];
            && LiveOf(after, user) ==
               (if Live(row) && row.userId == user then LiveOf(rows, user) + {id} else LiveOf(rows, user) - {id})
            && LiveAt(after, user, venue) ==
               (if Live(row) && row.userId == user && row.venueId == Some(venue)
                then LiveAt(rows, user, venue) + {id} else LiveAt(rows, user, venue) - {id})
            && (id in LiveAt(rows, user, venue) ==>
                id in rows && rows[id].userId == user && rows[id].venueId == Some(venue))
  {
  }

  /** A day seen in any live row is seen in the latest one: time only moves forward. */
  lemma LatestDecides(rows: map<Id, CheckIn>, user: Id, venue: Id, now: Instant, id: Id)
    requires id in LiveAt(rows, user, venue) && IsSameVnDay(rows[id].createdAt, now) == Some(true)
    requires forall j :: j in LiveAt(rows, user, venue) ==> rows[j].createdAt <= now
    ensures CheckedInToday(rows, user, venue, now)
  {
    hide IsSameVnDay, VnCivil, VnDay;
    var last := Latest(rows, user, venue).value;
    SameDayBetween(rows[id].createdAt, rows[last].createdAt, now);
  }

  lemma TimePasses(db: Db, clock: int, now: int)
    requires Inv(db, clock) && clock <= now
    ensures Inv(db, now)
  {
  }

  lemma WriteKeepsRows(db: Db, after: Db, id: Id, row: CheckIn, clock: int)
    requires RowsOk(db, clock) && RowOk(row, clock)
    requires after.checkIns == db.checkIns[id := row]
    requires after.checkInCount.Keys == db.checkInCount.Keys && row.userId in db.checkInCount
    ensures RowsOk(after, clock)
  {
    hide RowOk;
  }

  lemma WriteKeepsOncePerDay(rows: map<Id, CheckIn>, id: Id, row: CheckIn)
    requires OncePerDay(rows)
    requires Live(row) && row.venueId.Some? ==>
               forall j :: j in LiveAt(rows, row.userId, row.venueId.value) && j != id ==>
                 VnDay(rows[j].createdAt) != VnDay(row.createdAt)
    ensures OncePerDay(rows[id := row])
  {
    hide VnDay;
    var after := rows[id := row];
    forall a, b | a in after && b in after && a != b && Live(after[a]) && Live(after[b])
                  && after[a].userId == after[b].userId && after[a].venueId.Some? && after[a].venueId == after[b].venueId
      ensures VnDay(after[a].createdAt) != VnDay(after[b].createdAt)
    {
      if a == id {
        assert b in LiveAt(rows, row.userId, row.venueId.value);
      } else if b == id {
        assert a in LiveAt(rows, row.userId, row.venueId.value);
      }
    }
  }

  /** The counter of the row's owner follows its liveness; nobody else's moves. */
  lemma WriteKeepsCounts(db: Db, after: Db, id: Id, row: CheckIn)
    requires CountsExact(db) && after.checkIns == db.checkIns[id := row] && row.userId in db.checkInCount
    requires id in db.checkIns ==> db.checkIns[id].userId == row.userId
    requires var was := if id in db.checkIns && Live(db.checkIns[id]) then 1 else 0;
             var now := if Live(row) then 1 else 0;
             after.checkInCount == db.checkInCount[row.userId := db.checkInCount[row.userId] + now - was]
    ensures CountsExact(after)
  {
    forall u | u in after.checkInCount ensures after.checkInCount[u] == |LiveOf(after.checkIns, u)| {
      RowWritten(db.checkIns, id, row, u, "");
      assert id in LiveOf(db.checkIns, u) <==> id in db.checkIns && Live(db.checkIns[id]) && row.userId == u;
      if u != row.userId {
        assert LiveOf(after.checkIns, u) == LiveOf(db.checkIns, u);
      }
    }
  }

  lemma WriteKeepsVotes(db: Db, after: Db, id: Id, row: CheckIn)
    requires VotesBacked(db) && after.checkIns == db.checkIns[id := row]
    requires after.votes == db.votes && after.upvotes == db.upvotes
    requires id in db.checkIns ==>
               db.checkIns[id].userId == row.userId && db.checkIns[id].venueId == row.venueId
               && (Live(db.checkIns[id]) ==> Live(row))
    ensures VotesBacked(after)
  {
    forall k | k in db.votes ensures LiveAt(after.checkIns, k.0, k.1) != {} {
      RowWritten(db.checkIns, id, row, k.0, k.1);
    }
  }

  lemma InsertKeeps(db: Db, now: int, id: Id, row: CheckIn)
    requires Inv(db, now) && RowOk(row, now) && Live(row)
    requires row.venueId.Some? ==>
               forall j :: j in LiveAt(db.checkIns, row.userId, row.venueId.value) ==>
                 VnDay(db.checkIns[j].createdAt) != VnDay(row.createdAt)
    ensures Inv(Insert(db, id, row).db, now)
    ensures BasesKept(db, Insert(db, id, row).db)
  {
    hide VnDay, RowOk, RowsOk, OncePerDay, CountsExact, VotesBacked, LiveAt;
    var after := Insert(db, id, row).db;
    if id !in db.checkIns && row.userId in db.checkInCount {
      WriteKeepsRows(db, after, id, row, now);
      WriteKeepsOncePerDay(db.checkIns, id, row);
      WriteKeepsCounts(db, after, id, row);
      WriteKeepsVotes(db, after, id, row);
    }
  }

  lemma PatchKeeps(db: Db, now: int, id: Id, user: Id, patch: Memory)
    requires Inv(db, now)
    ensures Inv(UpdateMemory(db, now, id, user, patch).db, now)
    ensures BasesKept(db, UpdateMemory(db, now, id, user, patch).db)
  {
    hide VnDay, IsBlank, OncePerDay, CountsExact, VotesBacked;
    var o := UpdateMemory(db, now, id, user, patch);
    if o.error.None? {
      var row := o.db.checkIns[id];
      assert RowOk(db.checkIns[id], now);
      WriteKeepsRows(db, o.db, id, row, now);
      forall j | j in LiveAt(db.checkIns, user, if row.venueId.Some? then row.venueId.value else "") && j != id && row.venueId.Some?
        ensures VnDay(db.checkIns[j].createdAt) != VnDay(row.createdAt)
      {
        DifferentDays(db.checkIns, id, j);
      }
      WriteKeepsOncePerDay(db.checkIns, id, row);
      WriteKeepsCounts(db, o.db, id, row);
      WriteKeepsVotes(db, o.db, id, row);
    }
  }

  lemma DifferentDays(rows: map<Id, CheckIn>, a: Id, b: Id)
    requires OncePerDay(rows) && a in rows && b in rows && a != b && Live(rows[a]) && Live(rows[b])
    requires rows[a].userId == rows[b].userId && rows[a].venueId.Some? && rows[a].venueId == rows[b].venueId
    ensures VnDay(rows[b].createdAt) != VnDay(rows[a].createdAt)
  {
  }

  /** Deleting the row can strand only the owner's vote at that venue, and that one goes too. */
  lemma DropVoteKeepsVotes(db: Db, d: Db, id: Id, row: CheckIn)
    requires VotesBacked(db) && !Live(row) && d.checkIns == db.checkIns[id := row]
    requires d.votes == db.votes && d.upvotes == db.upvotes
    requires id in db.checkIns && db.checkIns[id].userId == row.userId && db.checkIns[id].venueId == row.venueId
    ensures row.venueId.None? ==> VotesBacked(d)
    ensures row.venueId.Some? ==> VotesBacked(DropVote(d, row.userId, row.venueId.value))
  {
    hide UpvotersOf, LiveAt;
    forall k | k in d.votes && (row.venueId != Some(k.1) || k.0 != row.userId)
      ensures LiveAt(d.checkIns, k.0, k.1) == LiveAt(db.checkIns, k.0, k.1)
    {
      RowWritten(db.checkIns, id, row, k.0, k.1);
      assert id !in LiveAt(db.checkIns, k.0, k.1);
    }
  }

  lemma DropVoteKeepsBases(db: Db, d: Db, user: Id, venue: Id)
    requires d.votes == db.votes && d.upvotes == db.upvotes
    requires forall k :: k in db.votes ==> k.1 in db.upvotes
    ensures BasesKept(db, DropVote(d, user, venue))
  {
    hide UpvotersOf, LiveAt;
    var after := DropVote(d, user, venue);
    forall v | v in db.upvotes ensures BaseUpvotes(db, v) == BaseUpvotes(after, v) {
      if after != d { VoteDropped(db.votes, user, venue, v); }
    }
  }

  lemma RemoveKeeps(db: Db, now: int, id: Id, user: Id)
    requires Inv(db, now)
    ensures Inv(Remove(db, now, id, user).db, now)
    ensures BasesKept(db, Remove(db, now, id, user).db)
  {
    hide VnDay, HasContent, OncePerDay, CountsExact, VotesBacked, LiveAt, BasesKept;
    var o := Remove(db, now, id, user);
    assert BasesKept(db, db) by { BasesKeptRefl(db); }
    if o.error.None? && id in db.checkIns && Live(db.checkIns[id]) {
      var row := db.checkIns[id].(deletedAt := Some(now));
      var d := db.(checkIns := db.checkIns[id := row], checkInCount := db.checkInCount[user := db.checkInCount[user] - 1]);
      assert RowOk(db.checkIns[id], now);
      WriteKeepsRows(db, o.db, id, row, now);
      WriteKeepsOncePerDay(db.checkIns, id, row);
      WriteKeepsCounts(db, d, id, row);
      CountsFrame(d, o.db);
      DropVoteKeepsVotes(db, d, id, row);
      VotesOnVenues(db);
      if row.venueId.Some? { DropVoteKeepsBases(db, d, user, row.venueId.value); }
      BasesFrame(db, d);
    }
  }

  lemma VotesOnVenues(db: Db)
    requires VotesBacked(db)
    ensures forall k :: k in db.votes ==> k.1 in db.upvotes
  {
  }

  lemma BasesKeptRefl(db: Db)
    ensures BasesKept(db, db)
  {
  }

  lemma BasesFrame(db: Db, d: Db)
    requires d.upvotes == db.upvotes && d.votes == db.votes
    ensures BasesKept(db, d)
  {
  }

  lemma CountsFrame(d: Db, after: Db)
    requires CountsExact(d) && after.checkIns == d.checkIns && after.checkInCount == d.checkInCount
    ensures CountsExact(after)
  {
  }

  lemma VoteDropped(votes: map<(Id, Id), int>, user: Id, venue: Id, v: Id)
    requires (user, venue) in votes
    ensures |UpvotersOf(votes - {(user, venue)}, v)| ==
            |UpvotersOf(votes, v)| - (if v == venue && votes[(user, venue)] == 1 then 1 else 0)
  {
    assert UpvotersOf(votes - {(user, venue)}, v) == UpvotersOf(votes, v) - {(user, venue)};
  }

  lemma UpvotersWritten(votes: map<(Id, Id), int>, user: Id, venue: Id, value: int, v: Id)
    ensures var (k, us, after) := ((user, venue), UpvotersOf(votes, v), UpvotersOf(votes[(user, venue) := value], v));
            after == if v != venue then us else if value == 1 then us + {k} else us - {k}
    ensures (user, venue) in UpvotersOf(votes, v) <==> v == venue && (user, venue) in votes && votes[(user, venue)] == 1
  {
  }

  lemma VoteWritten(votes: map<(Id, Id), int>, user: Id, venue: Id, value: int, v: Id)
    ensures var (k, us) := ((user, venue), UpvotersOf(votes, v));
            |UpvotersOf(votes[k := value], v)| ==
            if v != venue || (value == 1) == (k in us) then |us| else if value == 1 then |us| + 1 else |us| - 1
    ensures v == venue ==> ((user, venue) in UpvotersOf(votes, v) <==>
                            (user, venue) in votes && votes[(user, venue)] == 1)
  {
    hide UpvotersOf;
    UpvotersWritten(votes, user, venue, value, v);
    var k, us := (user, venue), UpvotersOf(votes, v);
    assert k in us ==> us + {k} == us;
    assert k !in us ==> us - {k} == us;
  }

  lemma CastKeeps(db: Db, now: int, slug: string, user: Id, up: bool)
    requires Inv(db, now)
    ensures Inv(Cast(db, slug, user, up).db, now)
    ensures BasesKept(db, Cast(db, slug, user, up).db)
  {
    hide RowsOk, OncePerDay, CountsExact, LiveAt, UpvotersOf;
    var o := Cast(db, slug, user, up);
    if o.error.None? {
      var venue, value := db.venueBySlug[slug], if up then 1 else -1;
      assert RowsOk(o.db, now) by { RowsFrame(db, o.db, now); }
      CountsFrame(db, o.db);
      forall v | v in db.upvotes ensures BaseUpvotes(db, v) == BaseUpvotes(o.db, v) {
        if (user, venue) in db.votes && db.votes[(user, venue)] == value {
          VoteDropped(db.votes, user, venue, v);
        } else {
          VoteWritten(db.votes, user, venue, value, v);
        }
      }
    }
  }

  lemma RowsFrame(db: Db, after: Db, clock: int)
    requires RowsOk(db, clock) && after.checkIns == db.checkIns && after.checkInCount == db.checkInCount
    ensures RowsOk(after, clock)
  {
  }

  lemma CreateKeeps(db: Db, now: Instant, slug: string, user: Id, id: Id, dto: Memory)
    requires Inv(db, now)
    ensures Inv(Create(db, now, slug, user, id, dto).db, now)
    ensures BasesKept(db, Create(db, now, slug, user, id, dto).db)
  {
    hide VnDay, IsSameVnDay, HasContent, Insert, OncePerDay, CountsExact, VotesBacked, UpvotersOf;
    var o := Create(db, now, slug, user, id, dto);
    if slug in db.venueBySlug {
      var venue := db.venueBySlug[slug];
      if !CheckedInToday(db.checkIns, user, venue, now) {
        var row := NewRow(user, Some(venue), None, dto, now);
        forall j | j in LiveAt(db.checkIns, user, venue)
          ensures VnDay(db.checkIns[j].createdAt) != VnDay(now)
        {
          if VnDay(db.checkIns[j].createdAt) == VnDay(now) {
            SameKeyIff(db.checkIns[j].createdAt, now);
            LatestDecides(db.checkIns, user, venue, now, j);
          }
        }
        InsertKeeps(db, now, id, row);
        JourneyFrame(Insert(db, id, row).db, o.db, now);
      }
    }
  }

  lemma JourneyFrame(d: Db, after: Db, now: int)
    requires Inv(d, now) && after == d.(journey := after.journey)
    ensures Inv(after, now)
  {
    hide LiveAt, LiveOf, VnDay;
  }

  // Deleted accounts -----------------------------------------------------------

  predicate Upvoted(db: Db, user: Id, venue: Id) {
    (user, venue) in db.votes && db.votes[(user, venue)] == 1
  }

  lemma RowsOfOthers(db: Db, user: Id, other: Id, venue: Id)
    requires other != user
    ensures var after := DeleteAccount(db, user).checkIns;
            LiveOf(after, other) == LiveOf(db.checkIns, other)
            && LiveAt(after, other, venue) == LiveAt(db.checkIns, other, venue)
  {
  }

  lemma AccountGoneCounts(db: Db, user: Id)
    requires CountsExact(db)
    ensures CountsExact(DeleteAccount(db, user))
  {
    hide LiveOf, LiveAt;
    var after := DeleteAccount(db, user);
    forall u | u in after.checkInCount ensures after.checkInCount[u] == |LiveOf(after.checkIns, u)| {
      RowsOfOthers(db, user, u, "");
    }
  }

  lemma AccountGoneVotes(db: Db, user: Id)
    requires VotesBacked(db)
    ensures VotesBacked(DeleteAccount(db, user))
  {
    hide LiveOf, LiveAt;
    var after := DeleteAccount(db, user);
    forall k | k in after.votes ensures LiveAt(after.checkIns, k.0, k.1) != {} {
      RowsOfOthers(db, user, k.0, k.1);
    }
  }

  /** The tables stay consistent, but a +1 vote that goes leaves its upvote behind. */
  lemma DeleteAccountKeeps(db: Db, now: int, user: Id)
    requires Inv(db, now)
    ensures var after := DeleteAccount(db, user);
            && Inv(after, now) && after.upvotes == db.upvotes
            && forall v :: v in db.upvotes ==>
                 BaseUpvotes(after, v) == BaseUpvotes(db, v) + if Upvoted(db, user, v) then 1 else 0
  {
    hide RowsOk, OncePerDay, CountsExact, VotesBacked, UpvotersOf, Upvoted;
    AccountGoneRows(db, now, user);
    AccountGoneCounts(db, user);
    AccountGoneVotes(db, user);
    forall v | v in db.upvotes
      ensures BaseUpvotes(DeleteAccount(db, user), v) == BaseUpvotes(db, v) + if Upvoted(db, user, v) then 1 else 0
    {
      UpvoterGone(db, user, v);
    }
  }

  lemma AccountGoneRows(db: Db, now: int, user: Id)
    requires RowsOk(db, now) && OncePerDay(db.checkIns)
    ensures RowsOk(DeleteAccount(db, user), now) && OncePerDay(DeleteAccount(db, user).checkIns)
  {
    hide RowOk, VnDay;
  }

  lemma UpvoterGone(db: Db, user: Id, v: Id)
    ensures |UpvotersOf(DeleteAccount(db, user).votes, v)| ==
            |UpvotersOf(db.votes, v)| - if Upvoted(db, user, v) then 1 else 0
  {
    var before, after := UpvotersOf(db.votes, v), UpvotersOf(DeleteAccount(db, user).votes, v);
    assert after == before - {(user, v)};
    assert (user, v) in before <==> Upvoted(db, user, v);
  }

  /** So deleting an account moves no upvote base exactly when the user has upvoted nothing. */
  lemma DeleteAccountKeepsBasesIff(db: Db, now: int, user: Id)
    requires Inv(db, now)
    ensures BasesKept(db, DeleteAccount(db, user)) <==> forall v :: v in db.upvotes ==> !Upvoted(db, user, v)
  {
    hide Inv, DeleteAccount, BaseUpvotes, Upvoted;
    DeleteAccountKeeps(db, now, user);
  }

  /** The upvotes that a step leaves without a vote behind them. */
  function Orphaned(db: Db, e: Event, venue: Id): nat {
    if e.op.OpDeleteAccount? && Upvoted(db, e.op.user, venue) then 1 else 0
  }

  ghost function OrphanedIn(db: Db, es: seq<Event>, venue: Id): nat
    decreases |es|
  {
    if es == [] then 0 else Orphaned(db, es[0], venue) + OrphanedIn(Step(db, es[0]).db, es[1..], venue)
  }

  /** How far a step moves each venue's upvotes against its votes. */
  ghost predicate BasesMoved(db: Db, after: Db, e: Event) {
    db.upvotes.Keys <= after.upvotes.Keys
    && forall v :: v in db.upvotes ==> BaseUpvotes(after, v) == BaseUpvotes(db, v) + Orphaned(db, e, v)
  }

  /** Every step keeps the tables consistent, and no counter moves without a vote unless
      an account goes. */
  lemma StepKeeps(db: Db, clock: int, e: Event)
    requires Inv(db, clock) && clock <= e.now
    ensures Inv(Step(db, e).db, e.now)
    ensures BasesMoved(db, Step(db, e).db, e)
  {
    hide Inv, Create, UpdateMemory, Remove, Cast, Insert, Register, CreateVenue, DeleteAccount, BaseUpvotes, Upvoted;
    TimePasses(db, clock, e.now);
    match e.op
    case OpCreate(slug, user, id, dto) => CreateKeeps(db, e.now, slug, user, id, dto);
    case OpCreateCustom(user, id, place, dto) => InsertKeeps(db, e.now, id, NewRow(user, None, Some(place), dto, e.now));
    case OpUpdateMemory(id, user, patch) => PatchKeeps(db, e.now, id, user, patch);
    case OpUpdateLatest(slug, user, patch) =>
      if slug in db.venueBySlug && Latest(db.checkIns, user, db.venueBySlug[slug]).Some? {
        PatchKeeps(db, e.now, Latest(db.checkIns, user, db.venueBySlug[slug]).value, user, patch);
      }
    case OpRemove(id, user) => RemoveKeeps(db, e.now, id, user);
    case OpRemoveLatest(slug, user) =>
      if slug in db.venueBySlug && Latest(db.checkIns, user, db.venueBySlug[slug]).Some? {
        RemoveKeeps(db, e.now, Latest(db.checkIns, user, db.venueBySlug[slug]).value, user);
      }
    case OpCast(slug, user, up) => CastKeeps(db, e.now, slug, user, up);
    case OpRegister(user) => RegisterKeeps(db, e.now, user);
    case OpVenueCreated(slug, venue, seeded) => CreateVenueKeeps(db, e.now, slug, venue, seeded);
    case OpVenueSoftDeleted(slug) => VenueGoneKeeps(db, e.now, slug);
    case OpDeleteAccount(user) => DeleteAccountKeeps(db, e.now, user);
  }

  lemma RegisterKeeps(db: Db, now: int, user: Id)
    requires Inv(db, now)
    ensures Inv(Register(db, user).db, now) && BasesKept(db, Register(db, user).db)
  {
    hide LiveAt, RowOk, VnDay;
    if user !in db.checkInCount {
      assert LiveOf(db.checkIns, user) == {} by {
        assert forall id :: id in db.checkIns ==> db.checkIns[id].userId in db.checkInCount;
      }
    }
  }

  lemma CreateVenueKeeps(db: Db, now: int, slug: string, venue: Id, seeded: int)
    requires Inv(db, now)
    ensures var after := CreateVenue(db, slug, venue, seeded).db;
            && Inv(after, now) && db.upvotes.Keys <= after.upvotes.Keys
            && forall v :: v in db.upvotes ==> BaseUpvotes(after, v) == BaseUpvotes(db, v)
  {
    hide RowsOk, OncePerDay, LiveAt, LiveOf, UpvotersOf;
    var after := CreateVenue(db, slug, venue, seeded).db;
    RowsFrame(db, after, now);
    CountsFrame(db, after);
  }

  lemma VenueGoneKeeps(db: Db, now: int, slug: string)
    requires Inv(db, now)
    ensures var after := db.(venueBySlug := db.venueBySlug - {slug}); Inv(after, now) && BasesKept(db, after)
  {
    var after := db.(venueBySlug := db.venueBySlug - {slug});
    RowsFrame(db, after, now);
    CountsFrame(db, after);
    BasesFrame(db, after);
  }

  /** The tables stay consistent over every run. */
  lemma {:induction false} RunKeeps(db: Db, clock: int, es: seq<Event>)
    requires Inv(db, clock) && Timeline(clock, es)
    ensures Inv(Run(db, es), if es == [] then clock else es[|es| - 1].now)
    decreases |es|
  {
    hide Inv, Step, BasesMoved;
    if es != [] {
      StepKeeps(db, clock, es[0]);
      RunKeeps(Step(db, es[0]).db, es[0].now, es[1..]);
    }
  }

  /** Conservation: over every run, a venue's upvotes minus its +1 votes grows by exactly
      the +1 votes that deleted accounts took with them, and by nothing else. */
  lemma {:induction false} BasesConserved(db: Db, clock: int, es: seq<Event>, venue: Id)
    requires Inv(db, clock) && Timeline(clock, es) && venue in db.upvotes
    ensures venue in Run(db, es).upvotes
    ensures BaseUpvotes(Run(db, es), venue) == BaseUpvotes(db, venue) + OrphanedIn(db, es, venue)
    decreases |es|
  {
    hide Inv, Step, BaseUpvotes, Orphaned;
    if es != [] {
      StepKeeps(db, clock, es[0]);
      BasesConserved(Step(db, es[0]).db, es[0].now, es[1..], venue);
    }
  }

  // The memory lock ----------------------------------------------------------

  /** How a row may change: identity never, the stamp once, a deleted row not at all. */
  ghost predicate Evolves(a: CheckIn, b: CheckIn) {
    && a.userId == b.userId && a.venueId == b.venueId && a.place == b.place && a.createdAt == b.createdAt
    && (a.memoryCreatedAt.Some? ==> b.memoryCreatedAt == a.memoryCreatedAt)
    && (a.deletedAt.Some? ==> b == a)
  }

  ghost predicate Kept(before: Db, after: Db, id: Id, now: int)
    requires id in before.checkIns
  {
    id in after.checkIns
    && var (a, b) := (before.checkIns[id], after.checkIns[id]);
       Evolves(a, b) && (Live(a) && LockedAt(a, now) ==> b == a.(isPublic := b.isPublic))
  }

  lemma UpdateEvolves(db: Db, now: int, target: Id, user: Id, patch: Memory, id: Id)
    requires id in db.checkIns
    ensures Kept(db, UpdateMemory(db, now, target, user, patch).db, id, now)
  {
  }

  lemma RemoveEvolves(db: Db, now: int, target: Id, user: Id, id: Id)
    requires id in db.checkIns
    ensures Kept(db, Remove(db, now, target, user).db, id, now)
  {
    hide LiveAt;
  }

  predicate DeletesAccount(e: Event, user: Id) {
    e.op.OpDeleteAccount? && e.op.user == user
  }

  /** A row survives every step except the deletion of its owner's account. */
  lemma StepEvolves(db: Db, e: Event, id: Id)
    requires id in db.checkIns
    ensures Kept(db, Step(db, e).db, id, e.now) <==> !DeletesAccount(e, db.checkIns[id].userId)
  {
    hide CheckedInToday, NewRow, UpdateMemory, Remove, LiveAt;
    match e.op
    case OpUpdateMemory(target, user, patch) => UpdateEvolves(db, e.now, target, user, patch, id);
    case OpRemove(target, user) => RemoveEvolves(db, e.now, target, user, id);
    case OpUpdateLatest(slug, user, patch) =>
      if slug in db.venueBySlug && Latest(db.checkIns, user, db.venueBySlug[slug]).Some? {
        UpdateEvolves(db, e.now, Latest(db.checkIns, user, db.venueBySlug[slug]).value, user, patch, id);
      }
    case OpRemoveLatest(slug, user) =>
      if slug in db.venueBySlug && Latest(db.checkIns, user, db.venueBySlug[slug]).Some? {
        RemoveEvolves(db, e.now, Latest(db.checkIns, user, db.venueBySlug[slug]).value, user, id);
      }
    case _ =>
  }

  ghost predicate AccountStays(es: seq<Event>, user: Id) {
    forall i :: 0 <= i < |es| ==> !DeletesAccount(es[i], user)
  }

  /** Stamps are write-once and rows are not lost, in every run that does not delete the
      owner's account. */
  lemma {:induction false} RunEvolves(db: Db, es: seq<Event>, id: Id)
    requires id in db.checkIns && AccountStays(es, db.checkIns[id].userId)
    ensures id in Run(db, es).checkIns && Evolves(db.checkIns[id], Run(db, es).checkIns[id])
    decreases |es|
  {
    hide Step, DeletesAccount;
    if es != [] {
      StepEvolves(db, es[0], id);
      RunEvolves(Step(db, es[0]).db, es[1..], id);
    }
  }

  /** Once the lock has closed on a live check-in nothing but its visibility changes, as
      long as its owner has an account: not comment, photos or friends, and it is never
      deleted. */
  lemma {:induction false} LockedForever(db: Db, clock: int, es: seq<Event>, id: Id)
    requires id in db.checkIns && Live(db.checkIns[id]) && LockedAt(db.checkIns[id], clock)
    requires Timeline(clock, es) && AccountStays(es, db.checkIns[id].userId)
    ensures var after := Run(db, es).checkIns;
            id in after && after[id] == db.checkIns[id].(isPublic := after[id].isPublic)
    decreases |es|
  {
    hide Step, DeletesAccount;
    if es != [] {
      StepEvolves(db, es[0], id);
      LockedForever(Step(db, es[0]).db, es[0].now, es[1..], id);
    }
  }

  /** Who may still delete a check-in: its owner, while no stamp is older than thirty
      minutes. At exactly thirty it is not yet locked. */
  lemma RemovableIff(db: Db, now: int, id: Id, user: Id)
    requires id in db.checkIns && Live(db.checkIns[id])
    ensures var row := db.checkIns[id];
            Remove(db, now, id, user).error.None? <==> row.userId == user && !LockedAt(row, now)
    ensures Remove(db, now, id, user).error.None? ==> !Live(Remove(db, now, id, user).db.checkIns[id])
    ensures var row := db.checkIns[id];
            row.memoryCreatedAt == Some(now - 1_800_000) ==>
              Remove(db, now, id, row.userId).error.None? && Remove(db, now + 1, id, row.userId).error == Some(Locked)
  {
    hide LiveAt;
  }

  /** Who may still write: the owner of a live row, at any time for visibility alone,
      otherwise while no stamp is older than thirty minutes. Exactly thirty is in time. */
  lemma WritableIff(db: Db, now: int, id: Id, user: Id, patch: Memory)
    ensures UpdateMemory(db, now, id, user, patch).error.None? <==>
            && id in db.checkIns && Live(db.checkIns[id]) && db.checkIns[id].userId == user
            && (PrivacyOnly(patch) || !LockedAt(db.checkIns[id], now))
    ensures PrivacyOnly(patch) && UpdateMemory(db, now, id, user, patch).error.None? ==>
              UpdateMemory(db, now, id, user, patch).db ==
              db.(checkIns := db.checkIns[id := db.checkIns[id].(isPublic := patch.isPublic.value)])
  {
  }

  /** A user can check in somewhere exactly when no live check-in of theirs there
      shares today's key, although only the latest one is looked at. */
  lemma CreateIff(db: Db, now: Instant, slug: string, user: Id, id: Id, dto: Memory)
    requires Inv(db, now) && id !in db.checkIns && user in db.checkInCount
    ensures Create(db, now, slug, user, id, dto).error.None? <==>
            && slug in db.venueBySlug
            && forall j :: j in LiveAt(db.checkIns, user, db.venueBySlug[slug]) ==>
                 IsSameVnDay(db.checkIns[j].createdAt, now) != Some(true)
  {
    hide IsSameVnDay, HasContent, OncePerDay, CountsExact, VotesBacked;
    if slug in db.venueBySlug {
      var venue := db.venueBySlug[slug];
      forall j | j in LiveAt(db.checkIns, user, venue) && IsSameVnDay(db.checkIns[j].createdAt, now) == Some(true)
        ensures CheckedInToday(db.checkIns, user, venue, now)
      {
        LatestDecides(db.checkIns, user, venue, now, j);
      }
    }
  }

  /** No two live rows tie for latest, so a query by recency has one answer. */
  lemma LatestUnique(db: Db, clock: int, user: Id, venue: Id, id: Id)
    requires Inv(db, clock) && IsLatest(db.checkIns, user, venue, id)
    ensures Latest(db.checkIns, user, venue) == Some(id)
  {
    hide VnDay;
    var other := Latest(db.checkIns, user, venue).value;
    if other != id {
      DifferentDays(db.checkIns, id, other);
    }
  }

  lemma FreshDatabase(users: set<Id>, venues: map<string, Id>, seeded: map<Id, int>, clock: int)
    requires forall v :: v in venues ==> venues[v] in seeded
    ensures Inv(Db(map[], map u | u in users :: 0, venues, seeded, map[], {}), clock)
  {
    assert forall u :: LiveOf(map[], u) == {};
  }

  // What each request does ------------------------------------------------------

  /** The vote that stands, 0 for none. */
  function VoteOf(db: Db, user: Id, venue: Id): int {
    if (user, venue) in db.votes then db.votes[(user, venue)] else 0
  }

  function PlusOne(vote: int): int {
    if vote == 1 then 1 else 0
  }

  ghost predicate OtherVotesKept(a: Db, b: Db, user: Id, venue: Id) {
    forall k: (Id, Id) :: k != (user, venue) ==> (k in a.votes <==> k in b.votes) && (k in a.votes ==> b.votes[k] == a.votes[k])
  }

  /** The upvotes of a venue follow one vote there, and no other venue's move. */
  ghost predicate UpvotesFollow(a: Db, b: Db, user: Id, venue: Id) {
    && a.upvotes.Keys == b.upvotes.Keys
    && forall v :: v in a.upvotes ==>
         b.upvotes[v] == a.upvotes[v] + if v == venue then PlusOne(VoteOf(b, user, v)) - PlusOne(VoteOf(a, user, v)) else 0
  }

  /** Voting: allowed with a live check-in at the venue; the vote asked for is given, or
      taken back when it stands already; nothing else changes. */
  lemma CastDoes(db: Db, now: Instant, slug: string, user: Id, up: bool)
    requires Inv(db, now)
    ensures var o := Step(db, Event(now, OpCast(slug, user, up)));
            && (slug !in db.venueBySlug ==> o == Outcome(db, Some(VenueNotFound)))
            && (slug in db.venueBySlug ==>
                  var venue, asked := db.venueBySlug[slug], if up then 1 else -1;
                  if LiveAt(db.checkIns, user, venue) == {} then o == Outcome(db, Some(CheckInRequired))
                  else
                    && o.error.None?
                    && VoteOf(o.db, user, venue) == (if VoteOf(db, user, venue) == asked then 0 else asked)
                    && ((user, venue) in o.db.votes <==> VoteOf(db, user, venue) != asked)
                    && OtherVotesKept(db, o.db, user, venue)
                    && UpvotesFollow(db, o.db, user, venue)
                    && o.db == db.(votes := o.db.votes, upvotes := o.db.upvotes))
  {
    hide RowsOk, OncePerDay, CountsExact, LiveAt;
  }

  /** A row as a request describes it, with what the source puts for the parts left out. */
  ghost predicate RowAsAsked(row: CheckIn, user: Id, dto: Memory, now: Instant) {
    && row.userId == user && row.createdAt == now && row.deletedAt.None?
    && row.comment == dto.comment
    && row.photos == (if dto.photos.Some? then dto.photos.value else [])
    && row.friends == (if dto.friends.Some? then dto.friends.value else [])
    && row.isPublic == (dto.isPublic.None? || dto.isPublic.value)
    && row.memoryCreatedAt ==
       (if (dto.comment.Some? && Trim(dto.comment.value) != "") || (dto.photos.Some? && dto.photos.value != [])
        then Some(now) else None)
  }

  /** A new row, one more on its owner's counter, and nothing else but the journey. */
  ghost predicate Added(db: Db, after: Db, id: Id, user: Id) {
    && id !in db.checkIns && id in after.checkIns && after.checkIns == db.checkIns[id := after.checkIns[id]]
    && user in db.checkInCount && after.checkInCount == db.checkInCount[user := db.checkInCount[user] + 1]
    && after == db.(checkIns := after.checkIns, checkInCount := after.checkInCount, journey := after.journey)
  }

  /** Checking in at a venue: what is stored, and what is refused. */
  lemma CreateDoes(db: Db, now: Instant, slug: string, user: Id, id: Id, dto: Memory)
    ensures var o := Step(db, Event(now, OpCreate(slug, user, id, dto)));
            && (slug !in db.venueBySlug ==> o == Outcome(db, Some(VenueNotFound)))
            && (slug in db.venueBySlug && CheckedInToday(db.checkIns, user, db.venueBySlug[slug], now) ==>
                  o == Outcome(db, Some(AlreadyCheckedInToday)))
            && (o.error.Some? ==> o.db == db)
            && (o.error.None? ==>
                  && slug in db.venueBySlug && Added(db, o.db, id, user)
                  && RowAsAsked(o.db.checkIns[id], user, dto, now)
                  && o.db.checkIns[id].venueId == Some(db.venueBySlug[slug]) && o.db.checkIns[id].place.None?
                  && o.db.journey == db.journey + {(user, db.venueBySlug[slug])})
  {
    hide CheckedInToday;
  }

  /** Checking in at a place of one's own. */
  lemma CreateCustomDoes(db: Db, now: Instant, user: Id, id: Id, place: Place, dto: Memory)
    ensures var o := Step(db, Event(now, OpCreateCustom(user, id, place, dto)));
            && (o.error.None? <==> id !in db.checkIns && user in db.checkInCount)
            && (o.error.Some? ==> o.db == db)
            && (o.error.None? ==>
                  && Added(db, o.db, id, user) && o.db.journey == db.journey
                  && RowAsAsked(o.db.checkIns[id], user, dto, now)
                  && o.db.checkIns[id].venueId.None? && o.db.checkIns[id].place == Some(place))
  {
  }

  /** An accepted update: each part sent is stored, each part left out stays, and the first
      one that is about more than visibility stamps the row. */
  lemma UpdateDoes(db: Db, now: Instant, id: Id, user: Id, patch: Memory)
    ensures id !in db.checkIns || !Live(db.checkIns[id]) ==>
              Step(db, Event(now, OpUpdateMemory(id, user, patch))) == Outcome(db, Some(CheckInNotFound))
    ensures id in db.checkIns && Live(db.checkIns[id]) ==>
              Step(db, Event(now, OpUpdateMemory(id, user, patch))).error ==
              if db.checkIns[id].userId != user then Some(NotYours)
              else if LockedAt(db.checkIns[id], now)
                      && !(patch.isPublic.Some? && patch.comment.None? && patch.photos.None? && patch.friends.None?)
              then Some(Locked) else None
    ensures id in db.checkIns ==>
            var (o, row) := (Step(db, Event(now, OpUpdateMemory(id, user, patch))), db.checkIns[id]);
            && (o.error.Some? ==> o.db == db)
            && (o.error.None? ==>
                  && id in o.db.checkIns && o.db == db.(checkIns := db.checkIns[id := o.db.checkIns[id]])
                  && var next := o.db.checkIns[id];
                     && next.comment == (if patch.comment.Some? then patch.comment else row.comment)
                     && next.photos == (if patch.photos.Some? then patch.photos.value else row.photos)
                     && next.friends == (if patch.friends.Some? then patch.friends.value else row.friends)
                     && next.isPublic == (if patch.isPublic.Some? then patch.isPublic.value else row.isPublic)
                     && next.memoryCreatedAt ==
                        (if row.memoryCreatedAt.Some? then row.memoryCreatedAt
                         else if patch.isPublic.Some? && patch.comment.None? && patch.photos.None? && patch.friends.None?
                         then None else Some(now))
                     && (next.userId, next.venueId, next.place, next.createdAt, next.deletedAt)
                        == (row.userId, row.venueId, row.place, row.createdAt, row.deletedAt))
  {
  }

  /** Deleting a check-in: one that is gone already is no error; otherwise the row is marked,
      its owner's counter falls, and the owner's vote there goes with the last live row and
      stays with any other. */
  lemma RemoveDoes(db: Db, now: Instant, id: Id, user: Id)
    requires Inv(db, now)
    ensures var o := Step(db, Event(now, OpRemove(id, user)));
            && (id !in db.checkIns || !Live(db.checkIns[id]) ==> o == Outcome(db, None))
            && (id in db.checkIns && Live(db.checkIns[id]) ==>
                  o.error == if db.checkIns[id].userId != user then Some(NotYours)
                             else if LockedAt(db.checkIns[id], now) then Some(Locked) else None)
            && (o.error.Some? ==> o.db == db)
            && (o.error.None? && id in db.checkIns && Live(db.checkIns[id]) ==>
                  && user in db.checkInCount
                  && o.db.checkIns == db.checkIns[id := db.checkIns[id].(deletedAt := Some(now))]
                  && o.db.checkInCount == db.checkInCount[user := db.checkInCount[user] - 1]
                  && o.db == db.(checkIns := o.db.checkIns, checkInCount := o.db.checkInCount,
                                 votes := o.db.votes, upvotes := o.db.upvotes)
                  && match db.checkIns[id].venueId
                     case None => o.db.votes == db.votes && o.db.upvotes == db.upvotes
                     case Some(venue) =>
                       && OtherVotesKept(db, o.db, user, venue) && UpvotesFollow(db, o.db, user, venue)
                       && VoteOf(o.db, user, venue) ==
                          (if LiveAt(db.checkIns, user, venue) == {id} then 0 else VoteOf(db, user, venue)))
  {
    hide RowOk, OncePerDay, CountsExact, LiveAt, Inv;
    InvVotes(db, now);
    if id in db.checkIns && Live(db.checkIns[id]) && db.checkIns[id].userId == user && db.checkIns[id].venueId.Some? {
      LastRow(db.checkIns, id, now);
    }
    if id in db.checkIns { OwnerKnown(db, now, id); }
  }

  lemma InvVotes(db: Db, now: int)
    requires Inv(db, now)
    ensures VotesBacked(db)
  {
  }

  lemma OwnerKnown(db: Db, now: int, id: Id)
    requires Inv(db, now) && id in db.checkIns
    ensures db.checkIns[id].userId in db.checkInCount
  {
  }

  lemma LastRow(rows: map<Id, CheckIn>, id: Id, now: int)
    requires id in rows && Live(rows[id]) && rows[id].venueId.Some?
    ensures var (user, venue) := (rows[id].userId, rows[id].venueId.value);
            LiveAt(rows[id := rows[id].(deletedAt := Some(now))], user, venue) == {} <==> LiveAt(rows, user, venue) == {id}
  {
    var (user, venue) := (rows[id].userId, rows[id].venueId.value);
    RowWritten(rows, id, rows[id].(deletedAt := Some(now)), user, venue);
    assert id in LiveAt(rows, user, venue);
  }

  /** The requests by venue act on the latest live check-in there. */
  lemma LatestDoes(db: Db, now: Instant, slug: string, user: Id, patch: Memory, id: Id)
    requires Inv(db, now) && slug in db.venueBySlug && IsLatest(db.checkIns, user, db.venueBySlug[slug], id)
    ensures Step(db, Event(now, OpUpdateLatest(slug, user, patch))) == Step(db, Event(now, OpUpdateMemory(id, user, patch)))
    ensures Step(db, Event(now, OpRemoveLatest(slug, user))) == Step(db, Event(now, OpRemove(id, user)))
  {
    hide Inv, UpdateMemory, Remove;
    LatestUnique(db, now, user, db.venueBySlug[slug], id);
  }

  /** Deleting an account takes the user's rows, votes, journey and counter, and leaves
      everybody else's and all upvotes. */
  lemma DeleteAccountDoes(db: Db, now: Instant, user: Id)
    ensures var after := Step(db, Event(now, OpDeleteAccount(user))).db;
            && (forall id :: id in after.checkIns <==> id in db.checkIns && db.checkIns[id].userId != user)
            && (forall id :: id in after.checkIns ==> after.checkIns[id] == db.checkIns[id])
            && (forall k: (Id, Id) :: k in after.votes <==> k in db.votes && k.0 != user)
            && (forall k :: k in after.votes ==> after.votes[k] == db.votes[k])
            && (forall k: (Id, Id) :: k in after.journey <==> k in db.journey && k.0 != user)
            && (forall u :: u in after.checkInCount <==> u in db.checkInCount && u != user)
            && (forall u :: u in after.checkInCount ==> after.checkInCount[u] == db.checkInCount[u])
            && after.upvotes == db.upvotes && after.venueBySlug == db.venueBySlug
  {
  }
}
