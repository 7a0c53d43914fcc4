/** src/modules/reviews/reviews.service.ts: the blended venue rating, recomputed from
    the review rows, and the importer's own formula for a brought venue. */
module Reviews {
  import opened Prelude
  import opened Sequences

  /** One review per user and venue; ratings have one decimal and are kept in tenths. */
  datatype Review = Review(venueId: Id, userId: Id, tenths: nat, body: string)

  /** Ratings of venues have two decimals and are kept in hundredths. */
  datatype Venue = Venue(rating: int, reviewCount: nat, externalRating: nat, externalReviewCount: nat)

  datatype Aggregate = Aggregate(rating: int, reviewCount: nat)

  /** Math.round: halves go up. */
  function Round(x: real): int {
    (x + 0.5).Floor
  }

  function Times(x: real, n: nat): real {
    x * n as real
  }

  function Mean(total: real, n: nat): real
    requires n > 0
  {
    total / n as real
  }

  /** The sum of the ratings, on the scale of 1 to 5. */
  function Sum(rs: seq<Review>): real {
    if rs == [] then 0.0 else rs[0].tenths as real / 10.0 + Sum(rs[1..])
  }

  /** AVG(r.rating), with the zero the service puts for no rows. */
  function Average(rs: seq<Review>): real {
    if rs == [] then 0.0 else Mean(Sum(rs), |rs|)
  }

  function ExternalRating(v: Venue): real {
    v.externalRating as real / 100.0
  }

  function BlendRating(v: Venue, localAvg: real, localCount: nat): Aggregate {
    var count := localCount + v.externalReviewCount;
    var combined :=
      if count > 0 then Mean(Times(localAvg, localCount) + Times(ExternalRating(v), v.externalReviewCount), count)
      else 0.0;
    Aggregate(Round(combined * 100.0), count)
  }

  /** What the displayed rating should be near: the mean of all ratings, external ones
      counted with their multiplicity. */
  ghost function TrueMean(v: Venue, rs: seq<Review>): real
    requires |rs| + v.externalReviewCount > 0
  {
    Mean(Sum(rs) + Times(ExternalRating(v), v.externalReviewCount), |rs| + v.externalReviewCount)
  }

  ghost predicate ValidRatings(v: Venue, rs: seq<Review>) {
    v.externalRating <= 500 && forall r :: r in rs ==> 10 <= r.tenths <= 50
  }

  /** The venue's display fields agree with its rows. */
  ghost predicate Consistent(v: Venue, rs: seq<Review>) {
    && v.reviewCount == |rs| + v.externalReviewCount
    && 0 <= v.rating <= 500
    && (v.reviewCount == 0 ==> v.rating == 0)
    && (v.reviewCount > 0 ==>
        TrueMean(v, rs) - 0.005 <= v.rating as real / 100.0 <= TrueMean(v, rs) + 0.005)
  }

  lemma {:induction false} SumBounds(rs: seq<Review>)
    requires forall r :: r in rs ==> 10 <= r.tenths <= 50
    ensures 0.0 <= Sum(rs) <= Times(5.0, |rs|)
  {
    if rs != [] { SumBounds(rs[1..]); }
  }

  lemma TimesBounds(x: real, n: nat)
    requires 0.0 <= x <= 5.0
    ensures 0.0 <= Times(x, n) <= Times(5.0, n)
  {
  }

  lemma TimesAdds(x: real, n: nat, m: nat)
    ensures Times(x, n) + Times(x, m) == Times(x, n + m)
  {
  }

  lemma MeanBetween(total: real, n: nat)
    requires n > 0 && 0.0 <= total <= Times(5.0, n)
    ensures 0.0 <= Mean(total, n) <= 5.0
  {
    assert total / n as real * n as real == total;
  }

  lemma MeanUndoesTimes(x: real, n: nat)
    requires n > 0
    ensures Mean(Times(x, n), n) == x && Times(Mean(x, n), n) == x
  {
  }

  lemma AverageTimesCount(rs: seq<Review>)
    ensures Times(Average(rs), |rs|) == Sum(rs)
  {
    if rs != [] { MeanUndoesTimes(Sum(rs), |rs|); }
  }

  lemma MeanBounds(v: Venue, rs: seq<Review>)
    requires ValidRatings(v, rs) && |rs| + v.externalReviewCount > 0
    ensures 0.0 <= TrueMean(v, rs) <= 5.0
  {
    hide Mean, Times, Sum;
    SumBounds(rs);
    TimesBounds(ExternalRating(v), v.externalReviewCount);
    TimesAdds(5.0, |rs|, v.externalReviewCount);
    MeanBetween(Sum(rs) + Times(ExternalRating(v), v.externalReviewCount), |rs| + v.externalReviewCount);
  }

  /** Blending gives display fields that agree with the rows. */
  lemma BlendIsConsistent(v: Venue, rs: seq<Review>)
    requires ValidRatings(v, rs)
    ensures var a := BlendRating(v, Average(rs), |rs|);
            Consistent(v.(rating := a.rating, reviewCount := a.reviewCount), rs)
  {
    hide Mean, Times, Sum, Average;
    AverageTimesCount(rs);
    var a := BlendRating(v, Average(rs), |rs|);
    var w := v.(rating := a.rating, reviewCount := a.reviewCount);
    if a.reviewCount > 0 {
      MeanBounds(v, rs);
      assert TrueMean(w, rs) == TrueMean(v, rs);
      assert a.rating == Round(TrueMean(v, rs) * 100.0);
    }
  }

  // The tables ---------------------------------------------------------------

  datatype Db = Db(reviews: seq<Review>, venues: map<Id, Venue>, venueBySlug: map<string, Id>)

  predicate SameKey(r: Review, venueId: Id, userId: Id) {
    r.venueId == venueId && r.userId == userId
  }

  ghost predicate UniqueKeys(rs: seq<Review>) {
    forall i, j :: 0 <= i < j < |rs| ==> !SameKey(rs[i], rs[j].venueId, rs[j].userId)
  }

  function OfVenue(rs: seq<Review>, venueId: Id): seq<Review> {
    Filter(rs, (r: Review) => r.venueId == venueId)
  }

  /** Overwrite the user's row, or append one. */
  function UpsertRow(rs: seq<Review>, r: Review): seq<Review> {
    if rs == [] then [r]
    else if SameKey(rs[0], r.venueId, r.userId) then [r] + rs[1..]
    else [rs[0]] + UpsertRow(rs[1..], r)
  }

  function RemoveRow(rs: seq<Review>, venueId: Id, userId: Id): seq<Review> {
    Filter(rs, (r: Review) => !SameKey(r, venueId, userId))
  }

  function Recomputed(db: Db, venueId: Id): Db
    requires venueId in db.venues
  {
    var v, mine := db.venues[venueId], OfVenue(db.reviews, venueId);
    var a := BlendRating(v, Average(mine), |mine|);
    db.(venues := db.venues[venueId := v.(rating := a.rating, reviewCount := a.reviewCount)])
  }

  datatype Op =
    | Upsert(slug: string, userId: Id, tenths: nat, body: string)
    | Remove(slug: string, userId: Id)
    | DeleteAccount(userId: Id) // users.service.ts: the rows cascade, the venues stay as they are
    | Refresh(venueId: Id, rating: real, reviews: nat, brought: seq<Review>, synthetic: set<Id>) // piso-verify.ts

  predicate ValidRow(r: Review) {
    10 <= r.tenths <= 50
  }

  /** Ratings in range; a refresh brings one row per reviewer, all of them synthetic
      accounts, for its venue. */
  ghost predicate ValidOp(op: Op) {
    match op
    case Upsert(_, _, tenths, _) => 10 <= tenths <= 50
    case Refresh(venueId, rating, _, brought, synthetic) =>
      && 0.0 <= rating <= 5.0 && UniqueKeys(brought)
      && forall r :: r in brought ==> ValidRow(r) && r.venueId == venueId && r.userId in synthetic
    case _ => true
  }

  /** The refresh deletes what synthetic accounts wrote about the venue, and only that. */
  function WithoutSynthetic(rs: seq<Review>, venueId: Id, synthetic: set<Id>): seq<Review> {
    Filter(rs, (r: Review) => !(r.venueId == venueId && r.userId in synthetic))
  }

  /** What others wrote about it. */
  function RealRows(rs: seq<Review>, venueId: Id, synthetic: set<Id>): seq<Review> {
    Filter(rs, (r: Review) => r.venueId == venueId && r.userId !in synthetic)
  }

  /** The refresh of a venue: new provider figures and synthetic reviews, blended without
      looking at the reviews that stay. */
  function Refreshed(db: Db, op: Op): Db
    requires op.Refresh?
  {
    if op.venueId !in db.venues || op.rating < 0.0 then db
    else
      var a := ImportedAggregate(op.rating, op.reviews, op.brought);
      db.(reviews := WithoutSynthetic(db.reviews, op.venueId, op.synthetic) + op.brought,
          venues := db.venues[op.venueId := ImportedVenue(op.rating, op.reviews).(rating := a.rating,
                                                                                 reviewCount := a.reviewCount)])
  }

  /** The reviews left when a user's go. */
  function WithoutUser(rs: seq<Review>, userId: Id): seq<Review> {
    Filter(rs, (r: Review) => r.userId != userId)
  }

  /** An unknown slug changes nothing; neither does removing a review that is not there. */
  function Step(db: Db, op: Op): Db {
    if op.DeleteAccount? then db.(reviews := WithoutUser(db.reviews, op.userId))
    else if op.Refresh? then Refreshed(db, op)
    else if op.slug !in db.venueBySlug || db.venueBySlug[op.slug] !in db.venues then db
    else
      var id := db.venueBySlug[op.slug];
      match op
      case Upsert(_, userId, tenths, body) =>
        Recomputed(db.(reviews := UpsertRow(db.reviews, Review(id, userId, tenths, body))), id)
      case Remove(_, userId) =>
        if forall r :: r in db.reviews ==> !SameKey(r, id, userId) then db
        else Recomputed(db.(reviews := RemoveRow(db.reviews, id, userId)), id)
  }

  function Run(db: Db, ops: seq<Op>): Db
    decreases |ops|
  {
    if ops == [] then db else Run(Step(db, ops[0]), ops[1..])
  }

  ghost predicate Ranges(db: Db) {
    && UniqueKeys(db.reviews)
    && (forall r :: r in db.reviews ==> 10 <= r.tenths <= 50)
    && forall v :: v in db.venues ==> db.venues[v].externalRating <= 500
  }

  ghost predicate AllConsistent(db: Db) {
    forall v :: v in db.venues ==> Consistent(db.venues[v], OfVenue(db.reviews, v))
  }

  /** External fields are the same venue by venue. */
  ghost predicate ExternalKept(a: Db, b: Db) {
    a.venues.Keys == b.venues.Keys
    && forall v :: v in a.venues ==>
         && a.venues[v].externalRating == b.venues[v].externalRating
         && a.venues[v].externalReviewCount == b.venues[v].externalReviewCount
  }

  lemma {:induction false} UpsertFacts(rs: seq<Review>, r: Review)
    requires UniqueKeys(rs)
    ensures UniqueKeys(UpsertRow(rs, r))
    ensures forall x :: x in UpsertRow(rs, r) <==> x == r || (x in rs && !SameKey(x, r.venueId, r.userId))
  {
    if rs != [] {
      var t := rs[1..];
      assert forall x :: x in rs <==> x == rs[0] || x in t;
      assert forall x :: x in t ==> !SameKey(rs[0], x.venueId, x.userId);
      if !SameKey(rs[0], r.venueId, r.userId) { UpsertFacts(t, r); }
    }
  }

  lemma {:induction false} UpsertElsewhere(rs: seq<Review>, r: Review, venueId: Id)
    requires venueId != r.venueId
    ensures OfVenue(UpsertRow(rs, r), venueId) == OfVenue(rs, venueId)
  {
    if rs != [] { UpsertElsewhere(rs[1..], r, venueId); }
  }

  lemma {:induction false} RemoveFacts(rs: seq<Review>, venueId: Id, userId: Id)
    requires UniqueKeys(rs)
    ensures UniqueKeys(RemoveRow(rs, venueId, userId))
  {
    if rs != [] {
      var t := rs[1..];
      assert forall x :: x in t ==> !SameKey(rs[0], x.venueId, x.userId);
      RemoveFacts(t, venueId, userId);
    }
  }

  lemma {:induction false} RemoveElsewhere(rs: seq<Review>, venueId: Id, userId: Id, v: Id)
    requires v != venueId
    ensures OfVenue(RemoveRow(rs, venueId, userId), v) == OfVenue(rs, v)
  {
    if rs != [] { RemoveElsewhere(rs[1..], venueId, userId, v); }
  }

  lemma RecomputedConsistent(db: Db, venueId: Id)
    requires Ranges(db) && venueId in db.venues
    ensures var d := Recomputed(db, venueId);
            Consistent(d.venues[venueId], OfVenue(d.reviews, venueId)) && ExternalKept(db, d) && Ranges(d)
  {
    hide Consistent, BlendRating;
    BlendIsConsistent(db.venues[venueId], OfVenue(db.reviews, venueId));
  }

  ghost predicate HasReview(rs: seq<Review>, userId: Id, venueId: Id) {
    exists r :: r in rs && SameKey(r, venueId, userId)
  }

  /** Whether a request recomputes the rating of a venue. */
  ghost predicate Recomputes(db: Db, op: Op, v: Id) {
    && (op.Upsert? || op.Remove?) && op.slug in db.venueBySlug && db.venueBySlug[op.slug] == v && v in db.venues
    && (op.Upsert? || HasReview(db.reviews, op.userId, v))
  }

  /** What a request does to one venue: it becomes consistent, whatever its figures were,
      or neither they nor its rows change. */
  ghost predicate VenueSettled(db: Db, op: Op, v: Id)
    requires v in db.venues
  {
    var after := Step(db, op);
    v in after.venues &&
    if Recomputes(db, op, v) then Consistent(after.venues[v], OfVenue(after.reviews, v))
    else after.venues[v] == db.venues[v] && OfVenue(after.reviews, v) == OfVenue(db.reviews, v)
  }

  lemma UpsertStep(db: Db, op: Op)
    requires Ranges(db) && ValidOp(op) && op.Upsert?
    ensures Ranges(Step(db, op)) && ExternalKept(db, Step(db, op))
    ensures forall v :: v in db.venues ==> VenueSettled(db, op, v)
  {
    hide Consistent, Recomputed, UniqueKeys, HasReview;
    if op.slug in db.venueBySlug && db.venueBySlug[op.slug] in db.venues {
      var id := db.venueBySlug[op.slug];
      var r := Review(id, op.userId, op.tenths, op.body);
      var d := db.(reviews := UpsertRow(db.reviews, r));
      UpsertFacts(db.reviews, r);
      RecomputedConsistent(d, id);
      RecomputedElsewhere(d, id);
      forall v | v in db.venues && v != id ensures OfVenue(d.reviews, v) == OfVenue(db.reviews, v) {
        UpsertElsewhere(db.reviews, r, v);
      }
    }
  }

  lemma RecomputedElsewhere(db: Db, id: Id)
    requires id in db.venues
    ensures var d := Recomputed(db, id);
            d.reviews == db.reviews && forall v :: v in db.venues && v != id ==> d.venues[v] == db.venues[v]
  {
  }

  lemma RemoveStep(db: Db, op: Op)
    requires Ranges(db) && op.Remove?
    ensures Ranges(Step(db, op)) && ExternalKept(db, Step(db, op))
    ensures forall v :: v in db.venues ==> VenueSettled(db, op, v)
  {
    hide Consistent, Recomputed, UniqueKeys;
    if op.slug in db.venueBySlug && db.venueBySlug[op.slug] in db.venues {
      var id := db.venueBySlug[op.slug];
      var d := db.(reviews := RemoveRow(db.reviews, id, op.userId));
      RemoveFacts(db.reviews, id, op.userId);
      RecomputedConsistent(d, id);
      RecomputedElsewhere(d, id);
      forall v | v in db.venues && v != id ensures OfVenue(d.reviews, v) == OfVenue(db.reviews, v) {
        RemoveElsewhere(db.reviews, id, op.userId, v);
      }
    }
  }

  // Deleted accounts and refreshes --------------------------------------------------

  /** How far a venue's count is off, and whether its figures are known to be right. */
  datatype Track = Track(drift: int, exact: bool)

  ghost predicate Tracked(v: Venue, rs: seq<Review>, t: Track) {
    && v.reviewCount == |rs| + v.externalReviewCount + t.drift
    && (t.exact ==> t.drift == 0 && Consistent(v, rs))
  }

  ghost predicate Refreshes(db: Db, op: Op, v: Id) {
    op.Refresh? && op.venueId == v && v in db.venues
  }

  /** A deleted account leaves the count one too high; a refresh leaves it too low by the
      reviews of real accounts; recomputing puts it right. A refresh with none of those
      gives the rating the service would, if the provider's has two decimals. */
  ghost function TrackAfter(db: Db, t: Track, op: Op, v: Id): Track {
    if op.DeleteAccount? then (if HasReview(db.reviews, op.userId, v) then Track(t.drift + 1, false) else t)
    else if Refreshes(db, op, v) then
      var missed := |RealRows(db.reviews, v, op.synthetic)|;
      Track(-missed, missed == 0 && TwoDecimals(op.rating) && (op.reviews + |op.brought| > 0 || Stored(op.rating) == 0))
    else if Recomputes(db, op, v) then Track(0, true)
    else t
  }

  ghost function Tracks(db: Db, t: Track, ops: seq<Op>, v: Id): Track
    decreases |ops|
  {
    if ops == [] then t else Tracks(Step(db, ops[0]), TrackAfter(db, t, ops[0], v), ops[1..], v)
  }

  /** External fields move only where the provider is asked again. */
  ghost predicate ExternalKeptBut(a: Db, b: Db, op: Op) {
    a.venues.Keys == b.venues.Keys
    && forall v :: v in a.venues && !Refreshes(a, op, v) ==>
         && a.venues[v].externalRating == b.venues[v].externalRating
         && a.venues[v].externalReviewCount == b.venues[v].externalReviewCount
  }

  lemma {:induction false} UserGoneUnique(rs: seq<Review>, userId: Id)
    requires UniqueKeys(rs)
    ensures UniqueKeys(WithoutUser(rs, userId))
  {
    if rs != [] {
      assert forall x :: x in rs[1..] ==> !SameKey(rs[0], x.venueId, x.userId);
      UserGoneUnique(rs[1..], userId);
    }
  }

  lemma HasReviewHead(rs: seq<Review>, userId: Id, v: Id)
    requires rs != [] && UniqueKeys(rs)
    ensures HasReview(rs, userId, v) <==> SameKey(rs[0], v, userId) || HasReview(rs[1..], userId, v)
    ensures SameKey(rs[0], v, userId) ==> !HasReview(rs[1..], userId, v)
    ensures UniqueKeys(rs[1..])
  {
    assert forall x :: x in rs <==> x == rs[0] || x in rs[1..];
    assert forall x :: x in rs[1..] ==> !SameKey(rs[0], x.venueId, x.userId);
  }

  /** A user has at most one review at a venue, so that is what goes. */
  lemma {:induction false} UserGone(rs: seq<Review>, userId: Id, v: Id)
    requires UniqueKeys(rs)
    ensures |OfVenue(WithoutUser(rs, userId), v)| == |OfVenue(rs, v)| - if HasReview(rs, userId, v) then 1 else 0
    ensures !HasReview(rs, userId, v) ==> OfVenue(WithoutUser(rs, userId), v) == OfVenue(rs, v)
  {
    if rs != [] {
      hide UniqueKeys, HasReview;
      HasReviewHead(rs, userId, v);
      UserGone(rs[1..], userId, v);
    } else {
      assert !HasReview(rs, userId, v);
    }
  }

  lemma {:induction false} SyntheticGone(rs: seq<Review>, venueId: Id, synthetic: set<Id>)
    requires UniqueKeys(rs)
    ensures UniqueKeys(WithoutSynthetic(rs, venueId, synthetic))
    ensures OfVenue(WithoutSynthetic(rs, venueId, synthetic), venueId) == RealRows(rs, venueId, synthetic)
  {
    if rs != [] {
      assert forall x :: x in rs[1..] ==> !SameKey(rs[0], x.venueId, x.userId);
      SyntheticGone(rs[1..], venueId, synthetic);
    }
  }

  lemma {:induction false} SyntheticGoneElsewhere(rs: seq<Review>, venueId: Id, synthetic: set<Id>, v: Id)
    requires v != venueId
    ensures OfVenue(WithoutSynthetic(rs, venueId, synthetic), v) == OfVenue(rs, v)
  {
    if rs != [] { SyntheticGoneElsewhere(rs[1..], venueId, synthetic, v); }
  }

  lemma {:induction false} AllOfVenue(rs: seq<Review>, v: Id)
    ensures (forall r :: r in rs ==> r.venueId == v) ==> OfVenue(rs, v) == rs
    ensures (forall r :: r in rs ==> r.venueId != v) ==> OfVenue(rs, v) == []
  {
    if rs != [] { AllOfVenue(rs[1..], v); }
  }

  lemma UniqueTogether(rs: seq<Review>, brought: seq<Review>, venueId: Id, synthetic: set<Id>)
    requires UniqueKeys(rs) && UniqueKeys(brought)
    requires forall r :: r in rs ==> !(r.venueId == venueId && r.userId in synthetic)
    requires forall r :: r in brought ==> r.venueId == venueId && r.userId in synthetic
    ensures UniqueKeys(rs + brought)
  {
    var all := rs + brought;
    forall i, j | 0 <= i < j < |all| ensures !SameKey(all[i], all[j].venueId, all[j].userId) {
      if i < |rs| <= j { assert rs[i] in rs && brought[j - |rs|] in brought; }
    }
  }

  lemma {:induction false} OfVenueAppend(a: seq<Review>, b: seq<Review>, v: Id)
    ensures OfVenue(a + b, v) == OfVenue(a, v) + OfVenue(b, v)
  {
    if a == [] {
      assert a + b == b;
    } else {
      assert (a + b)[1..] == a[1..] + b;
      OfVenueAppend(a[1..], b, v);
    }
  }

  lemma RefreshRows(rs: seq<Review>, brought: seq<Review>, venueId: Id, synthetic: set<Id>)
    requires UniqueKeys(rs) && UniqueKeys(brought)
    requires forall r :: r in brought ==> r.venueId == venueId && r.userId in synthetic
    ensures var after := WithoutSynthetic(rs, venueId, synthetic) + brought;
            && UniqueKeys(after) && (forall r :: r in after ==> r in rs || r in brought)
            && OfVenue(after, venueId) == RealRows(rs, venueId, synthetic) + brought
            && forall v :: v != venueId ==> OfVenue(after, v) == OfVenue(rs, v)
  {
    hide UniqueKeys;
    var kept := WithoutSynthetic(rs, venueId, synthetic);
    SyntheticGone(rs, venueId, synthetic);
    UniqueTogether(kept, brought, venueId, synthetic);
    AllOfVenue(brought, venueId);
    OfVenueAppend(kept, brought, venueId);
    forall v | v != venueId ensures OfVenue(kept + brought, v) == OfVenue(rs, v) {
      SyntheticGoneElsewhere(rs, venueId, synthetic, v);
      AllOfVenue(brought, v);
      OfVenueAppend(kept, brought, v);
    }
  }

  /** The rows and figures a refresh leaves. */
  lemma RefreshFacts(db: Db, op: Op)
    requires Ranges(db) && ValidOp(op) && op.Refresh? && op.venueId in db.venues
    ensures var after := Step(db, op);
            && Ranges(after) && after.venues.Keys == db.venues.Keys
            && OfVenue(after.reviews, op.venueId) == RealRows(db.reviews, op.venueId, op.synthetic) + op.brought
            && after.venues[op.venueId].reviewCount == op.reviews + |op.brought|
            && after.venues[op.venueId].externalReviewCount == op.reviews
            && forall v :: v in db.venues && v != op.venueId ==>
                 after.venues[v] == db.venues[v] && OfVenue(after.reviews, v) == OfVenue(db.reviews, v)
  {
    hide ImportedAggregate, UniqueKeys, Stored, OfVenue, RealRows, WithoutSynthetic;
    RefreshRows(db.reviews, op.brought, op.venueId, op.synthetic);
    ImportedCount(op.rating, op.reviews, op.brought);
    StoredInRange(op.rating);
  }

  lemma ImportedCount(rating: real, reviews: nat, rs: seq<Review>)
    ensures ImportedAggregate(rating, reviews, rs).reviewCount == reviews + |rs|
  {
  }

  lemma StoredInRange(x: real)
    requires 0.0 <= x <= 5.0
    ensures 0 <= Stored(x) <= 500
  {
  }

  /** Without reviews of real accounts, and with two decimals, a refresh gives what the
      service would. */
  lemma RefreshedConsistent(db: Db, op: Op)
    requires Ranges(db) && ValidOp(op) && op.Refresh? && op.venueId in db.venues
    requires RealRows(db.reviews, op.venueId, op.synthetic) == [] && TwoDecimals(op.rating)
    requires op.reviews + |op.brought| > 0 || Stored(op.rating) == 0
    ensures var after := Step(db, op);
            Consistent(after.venues[op.venueId], OfVenue(after.reviews, op.venueId))
  {
    hide ImportedAggregate, UniqueKeys, Stored, Consistent, BlendRating, Average, RealRows, WithoutSynthetic;
    RefreshFacts(db, op);
    StoredInRange(op.rating);
    ImportAgrees(op.rating, op.reviews, op.brought);
    BlendIsConsistent(ImportedVenue(op.rating, op.reviews), op.brought);
    assert [] + op.brought == op.brought;
  }

  /** After a refresh the count is right exactly when no real account has reviewed the venue. */
  lemma RefreshCountIff(db: Db, op: Op)
    requires Ranges(db) && ValidOp(op) && op.Refresh? && op.venueId in db.venues
    ensures var after := Step(db, op);
            var (venue, rs) := (after.venues[op.venueId], OfVenue(after.reviews, op.venueId));
            venue.reviewCount == |rs| + venue.externalReviewCount <==>
            forall r :: r in db.reviews && r.venueId == op.venueId ==> r.userId in op.synthetic
  {
    hide Step, Ranges, ValidOp;
    RefreshFacts(db, op);
    var missed := RealRows(db.reviews, op.venueId, op.synthetic);
    assert missed != [] ==> missed[0] in missed;
  }

  lemma StepTracks(db: Db, t: Track, op: Op, v: Id)
    requires Ranges(db) && ValidOp(op) && v in db.venues && Tracked(db.venues[v], OfVenue(db.reviews, v), t)
    ensures var after := Step(db, op);
            && Ranges(after) && ExternalKeptBut(db, after, op) && v in after.venues
            && Tracked(after.venues[v], OfVenue(after.reviews, v), TrackAfter(db, t, op, v))
  {
    match op
    case Upsert(_, _, _, _) =>
      hide Step, Ranges, HasReview;
      UpsertStep(db, op);
      assert VenueSettled(db, op, v);
    case Remove(_, _) =>
      hide Step, Ranges, HasReview;
      RemoveStep(db, op);
      assert VenueSettled(db, op, v);
    case DeleteAccount(userId) =>
      hide HasReview, UniqueKeys, SameKey;
      UserGoneUnique(db.reviews, userId);
      UserGone(db.reviews, userId, v);
    case Refresh(_, _, _, _, _) => RefreshTracks(db, t, op, v);
  }

  lemma RefreshTracks(db: Db, t: Track, op: Op, v: Id)
    requires Ranges(db) && ValidOp(op) && op.Refresh?
    requires v in db.venues && Tracked(db.venues[v], OfVenue(db.reviews, v), t)
    ensures var after := Step(db, op);
            && Ranges(after) && ExternalKeptBut(db, after, op) && v in after.venues
            && Tracked(after.venues[v], OfVenue(after.reviews, v), TrackAfter(db, t, op, v))
  {
    hide Ranges, ValidOp, Consistent, Stored, TwoDecimals, OfVenue, RealRows, HasReview, Recomputes, WithoutSynthetic,
         ImportedAggregate;
    if op.venueId in db.venues {
      RefreshFacts(db, op);
      if op.venueId == v { RefreshedTracks(db, t, op); } else { OtherTracks(db, t, op, v); }
    } else {
      NotRefreshed(db, t, op, v);
    }
  }

  lemma NotRefreshed(db: Db, t: Track, op: Op, v: Id)
    requires op.Refresh? && op.venueId !in db.venues
    ensures Step(db, op) == db && TrackAfter(db, t, op, v) == t
  {
  }

  lemma OtherTracks(db: Db, t: Track, op: Op, v: Id)
    requires op.Refresh? && op.venueId != v
    ensures TrackAfter(db, t, op, v) == t
  {
  }

  lemma RefreshedTracks(db: Db, t: Track, op: Op)
    requires Ranges(db) && ValidOp(op) && op.Refresh? && op.venueId in db.venues
    ensures var after := Step(db, op);
            && op.venueId in after.venues
            && Tracked(after.venues[op.venueId], OfVenue(after.reviews, op.venueId), TrackAfter(db, t, op, op.venueId))
  {
    hide Step, Ranges, ValidOp, Consistent, Stored, TwoDecimals, OfVenue, RealRows, HasReview, Recomputes;
    RefreshFacts(db, op);
    if TrackAfter(db, t, op, op.venueId).exact { RefreshedConsistent(db, op); }
  }

  lemma {:induction false} RunTracks(db: Db, t: Track, ops: seq<Op>, v: Id)
    requires Ranges(db) && forall i :: 0 <= i < |ops| ==> ValidOp(ops[i])
    requires v in db.venues && Tracked(db.venues[v], OfVenue(db.reviews, v), t)
    ensures var after := Run(db, ops);
            && Ranges(after) && after.venues.Keys == db.venues.Keys
            && Tracked(after.venues[v], OfVenue(after.reviews, v), Tracks(db, t, ops, v))
    decreases |ops|
  {
    hide Step, Ranges, Tracked, TrackAfter, ValidOp;
    if ops != [] {
      StepTracks(db, t, ops[0], v);
      RunTracks(Step(db, ops[0]), TrackAfter(db, t, ops[0], v), ops[1..], v);
    }
  }

  ghost predicate NoRefresh(ops: seq<Op>, v: Id) {
    forall i :: 0 <= i < |ops| ==> !(ops[i].Refresh? && ops[i].venueId == v)
  }

  lemma {:induction false} UnrefreshedTracks(db: Db, t: Track, ops: seq<Op>, v: Id)
    requires Ranges(db) && v in db.venues && Tracked(db.venues[v], OfVenue(db.reviews, v), t)
    requires NoRefresh(ops, v) && forall i :: 0 <= i < |ops| ==> ValidOp(ops[i])
    requires t.drift >= 0 && (t.exact <==> t.drift == 0)
    ensures var (u, after) := (Tracks(db, t, ops, v), Run(db, ops));
            && u.drift >= 0 && (u.exact <==> u.drift == 0) && v in after.venues
            && after.venues[v].externalRating == db.venues[v].externalRating
            && after.venues[v].externalReviewCount == db.venues[v].externalReviewCount
    decreases |ops|
  {
    hide Step, Ranges, Tracked, ValidOp;
    if ops != [] {
      StepTracks(db, t, ops[0], v);
      assert !Refreshes(db, ops[0], v);
      UnrefreshedTracks(Step(db, ops[0]), TrackAfter(db, t, ops[0], v), ops[1..], v);
    }
  }

  /** Over every run, refreshes and deleted accounts included, a venue's count is off by
      exactly what its track says: too high by the reviews lost to deleted accounts, too
      low by those a refresh passed over, since it was last put right; and its figures are
      right when the track says so. */
  lemma RunKeeps(db: Db, ops: seq<Op>, v: Id)
    requires Ranges(db) && AllConsistent(db) && v in db.venues
    requires forall i :: 0 <= i < |ops| ==> ValidOp(ops[i])
    ensures var (after, t) := (Run(db, ops), Tracks(db, Track(0, true), ops, v));
            && Ranges(after) && after.venues.Keys == db.venues.Keys
            && var (venue, rs) := (after.venues[v], OfVenue(after.reviews, v));
               && venue.reviewCount == |rs| + venue.externalReviewCount + t.drift
               && (t.exact ==> Consistent(venue, rs))
  {
    hide Run, Ranges, Tracks;
    RunTracks(db, Track(0, true), ops, v);
  }

  /** While no refresh reaches the venue, its external fields never move, and its figures
      are right if and only if no review of a deleted account is missing. */
  lemma UnrefreshedKeepsIff(db: Db, ops: seq<Op>, v: Id)
    requires Ranges(db) && AllConsistent(db) && v in db.venues && NoRefresh(ops, v)
    requires forall i :: 0 <= i < |ops| ==> ValidOp(ops[i])
    ensures var (after, t) := (Run(db, ops), Tracks(db, Track(0, true), ops, v));
            && v in after.venues && t.drift >= 0
            && after.venues[v].externalRating == db.venues[v].externalRating
            && after.venues[v].externalReviewCount == db.venues[v].externalReviewCount
            && (Consistent(after.venues[v], OfVenue(after.reviews, v)) <==> t.drift == 0)
  {
    hide Run, Ranges, Tracks, NoRefresh;
    RunTracks(db, Track(0, true), ops, v);
    UnrefreshedTracks(db, Track(0, true), ops, v);
  }

  /** In one step: deleting an account leaves all ratings right exactly when the user has
      reviewed no venue. */
  lemma AccountGoneIff(db: Db, userId: Id)
    requires Ranges(db) && AllConsistent(db)
    ensures AllConsistent(Step(db, DeleteAccount(userId))) <==>
            forall v :: v in db.venues ==> !HasReview(db.reviews, userId, v)
  {
    hide Consistent, HasReview, Ranges;
    var after := Step(db, DeleteAccount(userId));
    forall v | v in db.venues
      ensures Consistent(after.venues[v], OfVenue(after.reviews, v)) <==> !HasReview(db.reviews, userId, v)
    {
      NothingLost(db.venues[v], OfVenue(db.reviews, v));
      StepTracks(db, Track(0, true), DeleteAccount(userId), v);
      CountTells(after.venues[v], OfVenue(after.reviews, v), TrackAfter(db, Track(0, true), DeleteAccount(userId), v));
    }
  }

  lemma NothingLost(v: Venue, rs: seq<Review>)
    requires Consistent(v, rs)
    ensures Tracked(v, rs, Track(0, true))
  {
  }

  lemma CountTells(v: Venue, rs: seq<Review>, t: Track)
    requires Tracked(v, rs, t) && (t.exact <==> t.drift == 0)
    ensures Consistent(v, rs) <==> t.exact
  {
  }

  // The importer's formula -----------------------------------------------------

  /** Storing a number in a numeric(3,2) column. */
  function Stored(x: real): int {
    Round(x * 100.0)
  }

  predicate TwoDecimals(rating: real) {
    Stored(rating) as real / 100.0 == rating
  }

  /** A venue fresh from the importer: the provider's figures, blended once with the
      review rows it brought, without reading anything back. */
  function ImportedAggregate(rating: real, reviews: nat, rs: seq<Review>): Aggregate {
    if rs == [] then Aggregate(Stored(rating), reviews)
    else
      var blended := Mean(Times(rating, reviews) + Times(Mean(Sum(rs), |rs|), |rs|), reviews + |rs|);
      Aggregate(Round(blended * 100.0), reviews + |rs|)
  }

  function ImportedVenue(rating: real, reviews: nat): Venue
    requires rating >= 0.0
  {
    Venue(Stored(rating), reviews, Stored(rating), reviews)
  }

  /** A provider rating with at most two decimals survives the column, and then the
      importer shows what the review service would compute, if there is anything to count. */
  lemma ImportAgrees(rating: real, reviews: nat, rs: seq<Review>)
    requires rating >= 0.0 && TwoDecimals(rating)
    ensures ImportedAggregate(rating, reviews, rs) == BlendRating(ImportedVenue(rating, reviews), Average(rs), |rs|)
            <==> reviews + |rs| > 0 || Stored(rating) == 0
  {
    hide Mean, Times, Sum, Average;
    AverageTimesCount(rs);
    assert ExternalRating(ImportedVenue(rating, reviews)) == rating;
    if rs != [] {
      MeanUndoesTimes(Sum(rs), |rs|);
    } else {
      NoRows();
      if reviews > 0 { MeanUndoesTimes(rating, reviews); }
    }
  }

  lemma StoredIsNear(x: real)
    requires x >= 0.0
    ensures Stored(x) >= 0 && Stored(x) as real / 100.0 - 0.005 <= x <= Stored(x) as real / 100.0 + 0.005
  {
  }

  lemma ProductSign(a: real, b: real)
    requires a >= 0.0 && b >= 0.0
    ensures a * b >= 0.0
  {
  }

  lemma ScaledBound(d: real, n: nat, k: nat)
    requires -0.005 <= d <= 0.005 && n <= k
    ensures -0.005 * k as real <= d * n as real <= 0.005 * k as real
  {
    var x := n as real;
    ProductSign(0.005 - d, x);
    ProductSign(d + 0.005, x);
    assert (0.005 - d) * x == 0.005 * x - d * x;
    assert (d + 0.005) * x == d * x + 0.005 * x;
    assert x <= k as real;
  }

  lemma MeanBound(x: real, y: real, k: nat)
    requires k > 0 && -0.005 * k as real <= x - y <= 0.005 * k as real
    ensures -0.005 <= Mean(x, k) - Mean(y, k) <= 0.005
  {
    var d, n := Mean(x, k) - Mean(y, k), k as real;
    assert Mean(x, k) * n == x && Mean(y, k) * n == y;
    assert d * n == x - y;
  }

  lemma MeanShift(x: real, y: real, total: real, n: nat, m: nat)
    requires m > 0 && y - 0.005 <= x <= y + 0.005
    ensures var (a, b) := (Mean(Times(x, n) + total, n + m), Mean(total + Times(y, n), m + n));
            b - 0.005 <= a <= b + 0.005
  {
    hide Mean;
    assert x * n as real - y * n as real == (x - y) * n as real;
    ScaledBound(x - y, n, n + m);
    MeanBound(Times(x, n) + total, total + Times(y, n), n + m);
  }

  lemma RoundNear(x: real, y: real)
    requires y - 0.5 <= x <= y + 0.5
    ensures -1 <= Round(x) - Round(y) <= 1
  {
  }

  /** Whatever the provider's rating, the importer and the review service are at most a
      hundredth apart when there is anything to count; with nothing to count, the importer
      keeps the provider's rating and the service shows zero. */
  lemma ImportClose(rating: real, reviews: nat, rs: seq<Review>)
    requires rating >= 0.0
    ensures var (a, b) := (ImportedAggregate(rating, reviews, rs),
                           BlendRating(ImportedVenue(rating, reviews), Average(rs), |rs|));
            && a.reviewCount == b.reviewCount
            && (if reviews + |rs| > 0 then -1 <= a.rating - b.rating <= 1
                else a.rating == Stored(rating) && b.rating == 0)
  {
    hide Mean, Times, Sum, Average, Round, Stored;
    StoredIsNear(rating);
    AverageTimesCount(rs);
    var v := ImportedVenue(rating, reviews);
    if rs != [] {
      MeanUndoesTimes(Sum(rs), |rs|);
      var a, b := Mean(Times(rating, reviews) + Sum(rs), reviews + |rs|),
                  Mean(Sum(rs) + Times(ExternalRating(v), reviews), |rs| + reviews);
      MeanShift(rating, ExternalRating(v), Sum(rs), reviews, |rs|);
      RoundNear(a * 100.0, b * 100.0);
    } else {
      NoRows();
      if reviews > 0 { MeanUndoesTimes(ExternalRating(v), reviews); }
      RoundWhole(Stored(rating));
      RoundWhole(0);
    }
  }

  lemma RoundWhole(k: int)
    ensures Round(k as real / 100.0 * 100.0) == k
  {
  }

  lemma NoRows()
    ensures Sum([]) == 0.0
  {
  }

  // Where two decimals are needed --------------------------------------------------

  /** Reviews of one venue as they can be stored. */
  ghost predicate Storable(rs: seq<Review>) {
    UniqueKeys(rs) && forall r :: r in rs ==> ValidRow(r)
  }

  predicate Agree(rating: real, reviews: nat, rs: seq<Review>)
    requires rating >= 0.0
  {
    ImportedAggregate(rating, reviews, rs) == BlendRating(ImportedVenue(rating, reviews), Average(rs), |rs|)
  }

  ghost predicate AlwaysAgree(rating: real)
    requires rating >= 0.0
  {
    forall reviews: nat, rs :: Storable(rs) && reviews + |rs| > 0 ==> Agree(rating, reviews, rs)
  }

  /** As many users give so many tenths each. */
  function Chorus(m: nat, tenths: nat): seq<Review> {
    seq(m, i requires 0 <= i < m => Review("v", seq(i, _ => 'u'), tenths, ""))
  }

  lemma ChorusStorable(m: nat, tenths: nat)
    requires 10 <= tenths <= 50
    ensures Storable(Chorus(m, tenths))
  {
    var rs := Chorus(m, tenths);
    forall i, j | 0 <= i < j < m ensures rs[i].userId != rs[j].userId {
      assert |rs[i].userId| == i && |rs[j].userId| == j;
    }
  }

  lemma {:induction false} EqualSum(rs: seq<Review>, tenths: nat)
    requires forall r :: r in rs ==> r.tenths == tenths
    ensures Sum(rs) == Times(tenths as real / 10.0, |rs|)
  {
    hide Times;
    TimesOnce(tenths as real / 10.0);
    if rs != [] {
      EqualSum(rs[1..], tenths);
      TimesAdds(tenths as real / 10.0, 1, |rs| - 1);
    }
  }

  lemma TimesOnce(x: real)
    ensures Times(x, 0) == 0.0 && Times(x, 1) == x
  {
  }

  lemma MeanIs(total: real, n: nat, c: real)
    requires n > 0
    ensures total == c * n as real ==> Mean(total, n) == c
    ensures total >= c * n as real ==> Mean(total, n) >= c
    ensures total < c * n as real ==> Mean(total, n) < c
  {
    var x := n as real;
    assert total / x * x == total;
    if total >= c * x && total / x < c { ProductLess(total / x, c, x); }
    if total < c * x && total / x >= c { ProductAtMost(c, total / x, x); }
  }

  lemma ProductLess(a: real, b: real, x: real)
    requires a < b && x > 0.0
    ensures a * x < b * x
  {
    assert (b - a) * x > 0.0;
  }

  lemma ProductAtMost(a: real, b: real, x: real)
    requires a <= b && x > 0.0
    ensures a * x <= b * x
  {
    ProductSign(b - a, x);
    assert (b - a) * x == b * x - a * x;
  }

  lemma {:induction false} CastProduct(a: int, n: nat)
    ensures (a * n) as real == a as real * n as real
  {
    if n > 0 {
      CastProduct(a, n - 1);
      assert a * n == a * (n - 1) + a;
      assert a as real * n as real == a as real * (n - 1) as real + a as real;
    }
  }

  /** The two formulas over rows that all say the same, with the totals in hundredths. */
  lemma ChorusBlends(rating: real, n: nat, m: nat, tenths: nat)
    requires rating >= 0.0 && m > 0
    ensures var (rs, total) := (Chorus(m, tenths), (10 * tenths * m + Stored(rating) * n) as real / 100.0);
            var shift := Times(rating - Stored(rating) as real / 100.0, n);
            && ImportedAggregate(rating, n, rs) == Aggregate(Round(Mean(total + shift, n + m) * 100.0), n + m)
            && BlendRating(ImportedVenue(rating, n), Average(rs), m) == Aggregate(Round(Mean(total, n + m) * 100.0), n + m)
  {
    hide Mean, Average, Round, Stored;
    var rs, a := Chorus(m, tenths), Stored(rating);
    EqualSum(rs, tenths);
    AverageTimesCount(rs);
    MeanUndoesTimes(Sum(rs), m);
    CastProduct(10 * tenths, m);
    CastProduct(a, n);
    assert Sum(rs) == (10 * tenths * m) as real / 100.0;
    assert Times(a as real / 100.0, n) == (a * n) as real / 100.0;
    assert Times(rating, n) == Times(a as real / 100.0, n) + Times(rating - a as real / 100.0, n);
  }

  lemma RoundIs(x: real, k: int)
    requires k as real - 0.5 <= x < k as real + 0.5
    ensures Round(x) == k
  {
  }

  /** When the column rounds up: put the service exactly on a half, which it rounds up and
      the importer, with a little less, does not. */
  lemma HalfTells(rating: real, n: nat, tenths: nat, k: int)
    requires 0.0 <= rating < Stored(rating) as real / 100.0 && n > 0
    requires 2 * (10 * tenths + Stored(rating) * n) == (2 * k + 1) * (n + 1)
    ensures !Agree(rating, n, Chorus(1, tenths))
  {
    hide Mean, Round, Stored;
    StoredIsNear(rating);
    ChorusBlends(rating, n, 1, tenths);
    var a, c := Stored(rating), (k as real + 0.5) / 100.0;
    var total, shift := (10 * tenths * 1 + a * n) as real / 100.0, Times(rating - a as real / 100.0, n);
    CastProduct(2 * k + 1, n + 1);
    assert total == c * (n + 1) as real;
    MeanIs(total, n + 1, c);
    ShiftIsSmall(rating - a as real / 100.0, n, 1);
    MeanIs(total + shift, n + 1, c);
    MeanBound(total + shift, total, n + 1);
    RoundIs(Mean(total, n + 1) * 100.0, k + 1);
    RoundIs(Mean(total + shift, n + 1) * 100.0, k);
  }

  lemma ShiftIsSmall(d: real, n: nat, m: nat)
    requires -0.005 <= d <= 0.005 && n > 0
    ensures -0.005 * (n + m) as real <= Times(d, n) <= 0.005 * (n + m) as real
    ensures d < 0.0 ==> Times(d, n) < 0.0
  {
    ScaledBound(d, n, n + m);
    if d < 0.0 { ProductLess(d, 0.0, n as real); }
  }

  lemma BelowHalfCounts(a: int, m: nat)
    requires 0 <= a < 500 && m > 0
    ensures var (n, p) := (2 * m * (500 - a) + 1 - m, m * (500 - a));
            n >= m && n + m == 2 * p + 1 && 500 * m + a * n == a * (n + m) + p
  {
    assert m * (500 - a - 1) >= 0;
  }

  lemma BelowHalfTotals(a: int, q: nat, p: nat)
    requires q == 2 * p + 1
    ensures var total := (a * q + p) as real / 100.0;
            && a as real / 100.0 * q as real <= total
            && total + 0.005 == (a as real + 0.5) / 100.0 * q as real
  {
    CastProduct(a, q);
    assert (a as real + 0.5) / 100.0 * q as real == (a as real * q as real + 0.5 * q as real) / 100.0;
    assert a as real / 100.0 * q as real == a as real * q as real / 100.0;
  }

  lemma ShiftIsEnough(d: real, n: nat, m: nat)
    requires d > 0.0 && n >= m && 200.0 * d * m as real >= 1.0
    ensures Times(d, n) >= 0.005
  {
    ProductAtMost(m as real, n as real, d);
    assert 200.0 * d * m as real == 200.0 * (m as real * d);
  }

  lemma BelowHalfAt(rating: real, m: nat, n: nat, p: nat)
    requires rating > Stored(rating) as real / 100.0 && Stored(rating) >= 0 && 0 < m <= n && n + m == 2 * p + 1
    requires 10 * 50 * m + Stored(rating) * n == Stored(rating) * (n + m) + p
    requires Times(rating - Stored(rating) as real / 100.0, n) >= 0.005
    ensures !Agree(rating, n, Chorus(m, 50))
  {
    hide Mean, Round, Stored, Times, Average, ImportedAggregate, BlendRating;
    var a := Stored(rating);
    BelowHalfTotals(a, n + m, p);
    ChorusBlends(rating, n, m, 50);
    BelowHalfRounds(a, (a * (n + m) + p) as real / 100.0, Times(rating - a as real / 100.0, n), n + m);
  }

  /** When it rounds down: put the service so little below a half that the importer, with
      a little more, is not below it. */
  lemma BelowHalfTells(rating: real, m: nat)
    requires rating > Stored(rating) as real / 100.0 && 0 <= Stored(rating) < 500 && m > 0
    requires 200.0 * (rating - Stored(rating) as real / 100.0) * m as real >= 1.0
    ensures var n := 2 * m * (500 - Stored(rating)) + 1 - m;
            n >= 0 && !Agree(rating, n, Chorus(m, 50))
  {
    hide Stored, Times, Agree;
    var a := Stored(rating);
    BelowHalfCounts(a, m);
    var n: nat, p := 2 * m * (500 - a) + 1 - m, m * (500 - a);
    ShiftIsEnough(rating - a as real / 100.0, n, m);
    BelowHalfAt(rating, m, n, p);
  }

  lemma BelowHalfRounds(a: int, total: real, shift: real, q: nat)
    requires q > 0 && shift >= 0.005
    requires a as real / 100.0 * q as real <= total && total + 0.005 == (a as real + 0.5) / 100.0 * q as real
    ensures Round(Mean(total, q) * 100.0) == a && Round(Mean(total + shift, q) * 100.0) >= a + 1
  {
    hide Mean, Round;
    MeanIs(total, q, (a as real + 0.5) / 100.0);
    MeanIs(total, q, a as real / 100.0);
    MeanIs(total + shift, q, (a as real + 0.5) / 100.0);
    RoundIs(Mean(total, q) * 100.0, a);
    RoundAtLeast(Mean(total + shift, q) * 100.0, a + 1);
  }

  lemma RoundAtLeast(x: real, k: int)
    requires x >= k as real - 0.5
    ensures Round(x) >= k
  {
  }

  /** The importer and the service agree on every venue with anything to count if and only
      if the provider's rating has two decimals. */
  lemma ImportAgreesIff(rating: real)
    requires 0.0 <= rating <= 5.0
    ensures AlwaysAgree(rating) <==> TwoDecimals(rating)
  {
    hide Stored, ImportedAggregate, BlendRating, Average, Storable;
    if TwoDecimals(rating) {
      forall reviews: nat, rs | Storable(rs) && reviews + |rs| > 0 ensures Agree(rating, reviews, rs) {
        ImportAgrees(rating, reviews, rs);
      }
    } else {
      StoredInRange(rating);
      StoredIsNear(rating);
      var n, rs := Disagreement(rating);
      assert !Agree(rating, n, rs);
    }
  }

  lemma Disagreement(rating: real) returns (n: nat, rs: seq<Review>)
    requires 0.0 <= rating <= 5.0 && !TwoDecimals(rating)
    ensures Storable(rs) && n + |rs| > 0 && !Agree(rating, n, rs)
  {
    hide Stored, Storable, Agree;
    StoredInRange(rating);
    if rating < Stored(rating) as real / 100.0 {
      n, rs := UpDisagreement(rating);
    } else {
      n, rs := DownDisagreement(rating);
    }
  }

  lemma UpDisagreement(rating: real) returns (n: nat, rs: seq<Review>)
    requires 0.0 <= rating < Stored(rating) as real / 100.0 && 0 <= Stored(rating) <= 500
    ensures Storable(rs) && n + |rs| > 0 && !Agree(rating, n, rs)
  {
    hide Stored, Storable, Agree;
    var a := Stored(rating);
    if a < 500 {
      n, rs := 999 - 2 * a, Chorus(1, 50);
      HalfTells(rating, n, 50, a);
      ChorusStorable(1, 50);
    } else {
      n, rs := 799, Chorus(1, 10);
      HalfTells(rating, n, 10, 499);
      ChorusStorable(1, 10);
    }
  }

  lemma DownDisagreement(rating: real) returns (n: nat, rs: seq<Review>)
    requires Stored(rating) as real / 100.0 < rating <= 5.0 && 0 <= Stored(rating) <= 500
    ensures Storable(rs) && n + |rs| > 0 && !Agree(rating, n, rs)
  {
    hide Stored, Storable, Agree;
    var d := rating - Stored(rating) as real / 100.0;
    var m := CopiesNeeded(d);
    BelowHalfTells(rating, m);
    n, rs := 2 * m * (500 - Stored(rating)) + 1 - m, Chorus(m, 50);
    ChorusStorable(m, 50);
  }

  lemma CopiesNeeded(d: real) returns (m: nat)
    requires d > 0.0
    ensures m > 0 && 200.0 * d * m as real >= 1.0
  {
    var x := 1.0 / (200.0 * d);
    assert x * (200.0 * d) == 1.0;
    assert x > 0.0;
    m := x.Floor + 1;
    EnoughCopies(d, m);
  }

  lemma EnoughCopies(d: real, m: nat)
    requires d > 0.0 && m as real >= 1.0 / (200.0 * d)
    ensures 200.0 * d * m as real >= 1.0
  {
    var x := 200.0 * d;
    ProductAtMost(1.0 / x, m as real, x);
    assert 1.0 / x * x == 1.0;
    assert m as real * x == x * m as real;
  }

  /** For instance 4.375, which the column rounds to 4.38: with 123 provider reviews and
      one five-star review the service shows a hundredth more. */
  lemma ImportDiffers()
    ensures Stored(4.375) == 438 && !Agree(4.375, 123, Chorus(1, 50))
  {
    assert Stored(4.375) == 438;
    HalfTells(4.375, 123, 50, 438);
  }

  // What each request does to the rows ----------------------------------------------

  ghost predicate RowAt(rs: seq<Review>, i: int, venueId: Id, userId: Id) {
    0 <= i < |rs| && SameKey(rs[i], venueId, userId)
  }

  /** A row leaves its place, and the others close up. */
  lemma {:induction false} RowTaken(rs: seq<Review>, venueId: Id, userId: Id, i: nat)
    requires UniqueKeys(rs) && RowAt(rs, i, venueId, userId)
    ensures RemoveRow(rs, venueId, userId) == rs[..i] + rs[i + 1..]
  {
    if i == 0 {
      NothingTaken(rs[1..], venueId, userId);
    } else {
      assert !SameKey(rs[0], rs[i].venueId, rs[i].userId);
      RowTaken(rs[1..], venueId, userId, i - 1);
      assert rs[..i] + rs[i + 1..] == [rs[0]] + (rs[1..][..i - 1] + rs[1..][i..]);
    }
  }

  lemma {:induction false} NothingTaken(rs: seq<Review>, venueId: Id, userId: Id)
    requires forall r :: r in rs ==> !SameKey(r, venueId, userId)
    ensures RemoveRow(rs, venueId, userId) == rs
  {
    if rs != [] { NothingTaken(rs[1..], venueId, userId); }
  }

  lemma OfVenueWithout(rs: seq<Review>, i: nat)
    requires i < |rs|
    ensures |OfVenue(rs[..i] + rs[i + 1..], rs[i].venueId)| == |OfVenue(rs, rs[i].venueId)| - 1
  {
    var v := rs[i].venueId;
    assert rs == rs[..i] + ([rs[i]] + rs[i + 1..]);
    OfVenueAppend(rs[..i], [rs[i]] + rs[i + 1..], v);
    OfVenueAppend([rs[i]], rs[i + 1..], v);
    OfVenueAppend(rs[..i], rs[i + 1..], v);
    assert OfVenue([rs[i]], v) == [rs[i]] by { AllOfVenue([rs[i]], v); }
  }

  /** Removing a review takes that row out, keeps the others in their order, and leaves the
      venue's count one less than its rows before and the external ones; without a review,
      and for an unknown venue, nothing happens. */
  lemma RemoveDoes(db: Db, slug: string, userId: Id)
    requires Ranges(db)
    ensures var after := Step(db, Remove(slug, userId));
            && (slug !in db.venueBySlug || db.venueBySlug[slug] !in db.venues ==> after == db)
            && (slug in db.venueBySlug && db.venueBySlug[slug] in db.venues ==>
                  var v := db.venueBySlug[slug];
                  && (forall r :: r in after.reviews ==> !SameKey(r, v, userId))
                  && ((forall i :: !RowAt(db.reviews, i, v, userId)) ==> after == db)
                  && forall i :: RowAt(db.reviews, i, v, userId) ==>
                       && after.reviews == db.reviews[..i] + db.reviews[i + 1..]
                       && v in after.venues
                       && after.venues[v].reviewCount ==
                          |OfVenue(db.reviews, v)| - 1 + db.venues[v].externalReviewCount)
  {
    hide Consistent, Average;
    if slug in db.venueBySlug && db.venueBySlug[slug] in db.venues {
      var v := db.venueBySlug[slug];
      if i :| RowAt(db.reviews, i, v, userId) {
        assert db.reviews[i] in db.reviews;
        forall j | RowAt(db.reviews, j, v, userId)
          ensures RemoveRow(db.reviews, v, userId) == db.reviews[..j] + db.reviews[j + 1..]
          ensures |OfVenue(RemoveRow(db.reviews, v, userId), v)| == |OfVenue(db.reviews, v)| - 1
        {
          RowTaken(db.reviews, v, userId, j);
          OfVenueWithout(db.reviews, j);
        }
      } else {
        forall r | r in db.reviews ensures !SameKey(r, v, userId) {
          var k :| 0 <= k < |db.reviews| && db.reviews[k] == r;
          assert !RowAt(db.reviews, k, v, userId);
        }
      }
    }
  }

  /** Writing a review stores the stars and the text under the venue and the user: over the
      row that is there, at its place, or at the end. */
  lemma UpsertDoes(db: Db, slug: string, userId: Id, tenths: nat, body: string)
    requires UniqueKeys(db.reviews)
    ensures var after := Step(db, Upsert(slug, userId, tenths, body));
            && (slug !in db.venueBySlug || db.venueBySlug[slug] !in db.venues ==> after == db)
            && (slug in db.venueBySlug && db.venueBySlug[slug] in db.venues ==>
                  var (v, row) := (db.venueBySlug[slug], Review(db.venueBySlug[slug], userId, tenths, body));
                  && row in after.reviews
                  && (forall i :: RowAt(db.reviews, i, v, userId) ==> after.reviews == db.reviews[i := row])
                  && ((forall i :: !RowAt(db.reviews, i, v, userId)) ==> after.reviews == db.reviews + [row]))
  {
    hide BlendRating, Average;
    if slug in db.venueBySlug && db.venueBySlug[slug] in db.venues {
      var v, row := db.venueBySlug[slug], Review(db.venueBySlug[slug], userId, tenths, body);
      UpsertFacts(db.reviews, row);
      forall i | RowAt(db.reviews, i, v, userId) ensures UpsertRow(db.reviews, row) == db.reviews[i := row] {
        UpsertInPlace(db.reviews, row, i);
      }
      if forall i :: !RowAt(db.reviews, i, v, userId) {
        forall i | 0 <= i < |db.reviews| ensures !SameKey(db.reviews[i], v, userId) {
          assert !RowAt(db.reviews, i, v, userId);
        }
        UpsertAppends(db.reviews, row);
      }
    }
  }

  /** A refresh takes out what synthetic accounts wrote about the venue, puts in what it
      brings, and records the provider's figures. */
  lemma RefreshDoes(db: Db, op: Op)
    requires Ranges(db) && ValidOp(op) && op.Refresh? && op.venueId in db.venues
    ensures var after := Step(db, op);
            && (forall r :: r in after.reviews <==>
                  r in op.brought || (r in db.reviews && !(r.venueId == op.venueId && r.userId in op.synthetic)))
            && op.venueId in after.venues && after.venues[op.venueId].externalReviewCount == op.reviews
            && op.rating - 0.005 <= after.venues[op.venueId].externalRating as real / 100.0 <= op.rating + 0.005
            && after.venues[op.venueId].reviewCount == op.reviews + |op.brought|
  {
    hide ImportedAggregate, UniqueKeys, Stored;
    ImportedCount(op.rating, op.reviews, op.brought);
    StoredIsNear(op.rating);
  }

  // The service ----------------------------------------------------------------

  class ReviewsService {
    var reviews: seq<Review>
    var venues: map<Id, Venue>
    var venueBySlug: map<string, Id>

    function Tables(): Db
      reads this
    {
      Db(reviews, venues, venueBySlug)
    }

    method SetRating(venueId: Id)
      requires venueId in venues
      modifies this`venues
      ensures Tables() == Recomputed(old(Tables()), venueId)
    {
      var mine := OfVenue(reviews, venueId);
      var v := venues[venueId];
      var a := BlendRating(v, Average(mine), |mine|);
      venues := venues[venueId := v.(rating := a.rating, reviewCount := a.reviewCount)];
    }

    method Upsert(venueSlug: string, userId: Id, tenths: nat, body: string) returns (found: bool)
      requires UniqueKeys(reviews)
      modifies this
      ensures found == (venueSlug in old(venueBySlug) && old(venueBySlug)[venueSlug] in old(venues))
      ensures Tables() == Step(old(Tables()), Op.Upsert(venueSlug, userId, tenths, body))
      ensures found ==> Review(venueBySlug[venueSlug], userId, tenths, body) in reviews
    {
      hide Recomputed;
      UpsertDoes(Tables(), venueSlug, userId, tenths, body);
      if venueSlug !in venueBySlug || venueBySlug[venueSlug] !in venues {
        return false;
      }
      var id := venueBySlug[venueSlug];
      var row := Review(id, userId, tenths, body);
      if i :| 0 <= i < |reviews| && SameKey(reviews[i], id, userId) {
        UpsertInPlace(reviews, row, i);
        reviews := reviews[i := row];
      } else {
        UpsertAppends(reviews, row);
        reviews := reviews + [row];
      }
      SetRating(id);
      found := true;
    }

    method Remove(venueSlug: string, userId: Id) returns (found: bool)
      modifies this
      ensures found == (venueSlug in old(venueBySlug) && old(venueBySlug)[venueSlug] in old(venues))
      ensures Tables() == Step(old(Tables()), Op.Remove(venueSlug, userId))
      ensures found ==> forall r :: r in reviews ==> !SameKey(r, venueBySlug[venueSlug], userId)
    {
      hide Recomputed;
      if venueSlug !in venueBySlug || venueBySlug[venueSlug] !in venues {
        return false;
      }
      var id := venueBySlug[venueSlug];
      found := true;
      if forall r :: r in reviews ==> !SameKey(r, id, userId) {
        return;
      }
      reviews := RemoveRow(reviews, id, userId);
      SetRating(id);
    }
  }

  lemma {:induction false} UpsertInPlace(rs: seq<Review>, r: Review, i: nat)
    requires UniqueKeys(rs) && i < |rs| && SameKey(rs[i], r.venueId, r.userId)
    ensures UpsertRow(rs, r) == rs[i := r]
  {
    if i == 0 {
      assert rs[0 := r] == [r] + rs[1..];
    } else {
      assert !SameKey(rs[0], rs[i].venueId, rs[i].userId);
      UpsertInPlace(rs[1..], r, i - 1);
      assert rs[i := r] == [rs[0]] + rs[1..][i - 1 := r];
    }
  }

  lemma {:induction false} UpsertAppends(rs: seq<Review>, r: Review)
    requires forall i :: 0 <= i < |rs| ==> !SameKey(rs[i], r.venueId, r.userId)
    ensures UpsertRow(rs, r) == rs + [r]
  {
    if rs != [] { UpsertAppends(rs[1..], r); }
  }
}
