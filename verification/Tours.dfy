/** Tours with their denormalised itinerary and provider (tour-management.service.ts),
    and the brands they copy (admin-brands.controller.ts). */
module Tours {
  import opened Prelude
  import opened Sequences

  datatype Provider = Provider(name: string, shortName: string, verified: bool, logoUrl: Option<string>)

  const SITE_PROVIDER := Provider("Hôm Nay Đi Đâu", "HNDD", true, None)

  datatype Brand = Brand(
    name: string, shortName: string, logoUrl: Option<string>,
    verified: bool, verifiedAt: Option<int>, deleted: bool)

  datatype Scope = IntraCity | InterProvince

  datatype StopDto = StopDto(cityId: Id, venueId: Option<Id>)

  datatype Stop = Stop(order: nat, cityId: Id, venueId: Option<Id>)

  datatype Tour = Tour(
    stops: seq<Stop>, cityId: Id, venueIds: seq<Id>, scope: Scope,
    brandId: Option<Id>, ownerId: Option<Id>, provider: Provider, deleted: bool)

  datatype Db = Db(
    cities: set<Id>,
    liveVenueCity: map<Id, Id>, // venues that are not soft-deleted, with their city
    brands: map<Id, Brand>,
    tours: map<Id, Tour>)

  datatype Error =
    | EmptyItinerary
    | InvalidCity
    | InvalidVenue(id: Id)
    | VenueElsewhere(id: Id)
    | BrandNotFound
    | TourNotFound
    | DuplicateKey

  datatype Itinerary = Itinerary(stops: seq<Stop>, primaryCityId: Id, venueIds: seq<Id>, scope: Scope)

  // Itineraries ---------------------------------------------------------------

  function CityIds(stops: seq<StopDto>): seq<Id> {
    seq(|stops|, i requires 0 <= i < |stops| => stops[i].cityId)
  }

  /** The venue ids present, in stop order. */
  function VenueIds(stops: seq<StopDto>): seq<Id> {
    if stops == [] then []
    else (if stops[0].venueId.Some? then [stops[0].venueId.value] else []) + VenueIds(stops[1..])
  }

  function NumberedStops(stops: seq<StopDto>): seq<Stop> {
    seq(|stops|, i requires 0 <= i < |stops| => Stop(i, stops[i].cityId, stops[i].venueId))
  }

  /** The venue ids of stored stops, in order. */
  function StopVenueIds(stops: seq<Stop>): seq<Id> {
    if stops == [] then []
    else (if stops[0].venueId.Some? then [stops[0].venueId.value] else []) + StopVenueIds(stops[1..])
  }

  predicate GoodStop(db: Db, s: StopDto) {
    s.venueId.Some? ==> s.venueId.value in db.liveVenueCity && db.liveVenueCity[s.venueId.value] == s.cityId
  }

  function StopError(db: Db, s: StopDto): Option<Error> {
    if s.venueId.None? then None
    else if s.venueId.value !in db.liveVenueCity then Some(InvalidVenue(s.venueId.value))
    else if db.liveVenueCity[s.venueId.value] != s.cityId then Some(VenueElsewhere(s.venueId.value))
    else None
  }

  function FirstError(db: Db, stops: seq<StopDto>): (e: Option<Error>)
    ensures e.None? <==> forall s :: s in stops ==> GoodStop(db, s)
  {
    if stops == [] then None
    else if StopError(db, stops[0]).Some? then assert stops[0] in stops; StopError(db, stops[0])
    else FirstError(db, stops[1..])
  }

  predicate KnownCities(db: Db, stops: seq<StopDto>) {
    forall s :: s in stops ==> s.cityId in db.cities
  }

  function Resolve(db: Db, stops: seq<StopDto>): Result<Itinerary, Error> {
    if !KnownCities(db, stops) then Err(InvalidCity)
    else if FirstError(db, stops).Some? then Err(FirstError(db, stops).value)
    else if stops == [] then Err(EmptyItinerary)
    else
      Ok(Itinerary(NumberedStops(stops), stops[0].cityId, FirstOccurrences(VenueIds(stops)),
                   if |FirstOccurrences(CityIds(stops))| > 1 then InterProvince else IntraCity))
  }

  ghost predicate SpansCities(stops: seq<Stop>) {
    exists i, j :: 0 <= i < j < |stops| && stops[i].cityId != stops[j].cityId
  }

  /** A tour's copied fields say what its ordered stops say. */
  ghost predicate ItineraryExact(stops: seq<Stop>, cityId: Id, venueIds: seq<Id>, scope: Scope) {
    && stops != []
    && (forall i :: 0 <= i < |stops| ==> stops[i].order == i)
    && cityId == stops[0].cityId
    && FirstAppearances(venueIds, StopVenueIds(stops))
    && (scope == InterProvince <==> SpansCities(stops))
  }

  lemma {:induction false} SameVenueIds(stops: seq<Stop>, dtos: seq<StopDto>)
    requires |stops| == |dtos| && forall i :: 0 <= i < |stops| ==> stops[i].venueId == dtos[i].venueId
    ensures StopVenueIds(stops) == VenueIds(dtos)
  {
    if stops != [] { SameVenueIds(stops[1..], dtos[1..]); }
  }

  lemma ManyCitiesIff(stops: seq<StopDto>)
    ensures |FirstOccurrences(CityIds(stops))| > 1 <==> SpansCities(NumberedStops(stops))
  {
    var ids, numbered := CityIds(stops), NumberedStops(stops);
    var once := FirstOccurrences(ids);
    FirstOccurrencesNoDup(ids);
    if |once| > 1 {
      FirstOccurrencesInOrder(ids, 0, 1);
      var i, j := FirstIndex(ids, once[0]), FirstIndex(ids, once[1]);
      assert numbered[i].cityId != numbered[j].cityId;
    } else {
      forall i, j | 0 <= i < j < |stops| ensures numbered[i].cityId == numbered[j].cityId {
        assert ids[i] in once && ids[j] in once;
      }
    }
  }

  lemma ResolveExact(db: Db, stops: seq<StopDto>)
    requires Resolve(db, stops).Ok?
    ensures var r := Resolve(db, stops).value;
            ItineraryExact(r.stops, r.primaryCityId, r.venueIds, r.scope)
  {
    hide FirstOccurrences, FirstAppearances, SpansCities, KnownCities, FirstError, CityIds;
    SameVenueIds(NumberedStops(stops), stops);
    FirstOccurrencesSpec(VenueIds(stops));
    ManyCitiesIff(stops);
  }

  /** An itinerary is accepted exactly when it has a stop, every city exists, and every
      venue is a live one in its stop's city. */
  lemma ResolveOkIff(db: Db, stops: seq<StopDto>)
    ensures Resolve(db, stops).Ok? <==>
            stops != [] && forall s :: s in stops ==> s.cityId in db.cities && GoodStop(db, s)
  {
  }

  // Providers -------------------------------------------------------------------

  function Stamp(b: Brand): Provider {
    Provider(b.name, b.shortName, b.verified, b.logoUrl)
  }

  /** Omitted and empty ids mean a tour of the site itself. */
  function ResolveBrand(db: Db, brandId: Option<Id>): Result<Option<Id>, Error> {
    if brandId.None? || brandId.value == "" then Ok(None)
    else if brandId.value in db.brands && !db.brands[brandId.value].deleted then Ok(brandId)
    else Err(BrandNotFound)
  }

  function BuildProvider(db: Db, brandId: Option<Id>): Provider
    requires brandId.Some? ==> brandId.value in db.brands
  {
    if brandId.None? then SITE_PROVIDER else Stamp(db.brands[brandId.value])
  }

  /** UPDATE tours SET provider WHERE brand_id: deleted tours included. */
  function Restamped(tours: map<Id, Tour>, brandId: Id, p: Provider): map<Id, Tour> {
    map t | t in tours :: if tours[t].brandId == Some(brandId) then tours[t].(provider := p) else tours[t]
  }

  datatype Outcome = Outcome(db: Db, error: Option<Error>)

  function CreateTour(db: Db, id: Id, stops: seq<StopDto>, brandId: Option<Id>): Outcome {
    match Resolve(db, stops)
    case Err(e) => Outcome(db, Some(e))
    case Ok(it) =>
      match ResolveBrand(db, brandId)
      case Err(e) => Outcome(db, Some(e))
      case Ok(b) =>
        if id in db.tours then Outcome(db, Some(DuplicateKey))
        else
          var t := Tour(it.stops, it.primaryCityId, it.venueIds, it.scope, b, None, BuildProvider(db, b), false);
          Outcome(db.(tours := db.tours[id := t]), None)
  }

  /** None leaves a field alone; Some(None) clears the brand. */
  function UpdateTour(db: Db, id: Id, brand: Option<Option<Id>>, stops: Option<seq<StopDto>>): Outcome {
    if id !in db.tours || db.tours[id].deleted then Outcome(db, Some(TourNotFound))
    else
      var b := if brand.Some? then ResolveBrand(db, brand.value) else Ok(None);
      if b.Err? then Outcome(db, Some(b.error))
      else
        var t := if brand.Some? then db.tours[id].(brandId := b.value, provider := BuildProvider(db, b.value))
                 else db.tours[id];
        if stops.None? then Outcome(db.(tours := db.tours[id := t]), None)
        else
          match Resolve(db, stops.value)
          case Err(e) => Outcome(db, Some(e))
          case Ok(it) =>
            Outcome(db.(tours := db.tours[id := t.(stops := it.stops, cityId := it.primaryCityId,
                                                   venueIds := it.venueIds, scope := it.scope)]), None)
  }

  datatype BrandPatch = BrandPatch(name: Option<string>, shortName: Option<string>, logoUrl: Option<string>)

  function NonEmpty(s: string): Option<string> {
    if s == "" then None else Some(s)
  }

  function Patched(b: Brand, p: BrandPatch): Brand {
    b.(name := p.name.GetOr(b.name), shortName := p.shortName.GetOr(b.shortName),
       logoUrl := if p.logoUrl.Some? then NonEmpty(p.logoUrl.value) else b.logoUrl)
  }

  predicate LiveBrand(db: Db, id: Id) {
    id in db.brands && !db.brands[id].deleted
  }

  function SaveBrand(db: Db, id: Id, b: Brand): Db {
    db.(brands := db.brands[id := b], tours := Restamped(db.tours, id, Stamp(b)))
  }

  datatype BrandSeed = BrandSeed(name: string, shortName: string, logoUrl: Option<string>, verified: bool, now: int)

  /** Found by name, so the name stays; the tick is only ever given. */
  function Reseeded(b: Brand, seed: BrandSeed): Brand {
    b.(shortName := seed.shortName, logoUrl := seed.logoUrl, verified := b.verified || seed.verified,
       verifiedAt := if seed.verified && !b.verified then Some(seed.now) else b.verifiedAt)
  }

  datatype Op =
    | TourCreate(id: Id, stops: seq<StopDto>, brandId: Option<Id>)
    | TourUpdate(id: Id, brand: Option<Option<Id>>, newStops: Option<seq<StopDto>>)
    | TourRemove(id: Id)
    | BrandCreate(id: Id, name: string, shortName: string, logoUrl: Option<string>)
    | BrandUpdate(id: Id, patch: BrandPatch)
    | BrandVerify(id: Id, now: int)
    | BrandUnverify(id: Id)
    | BrandRemove(id: Id)
    | OwnerStamp(ownerId: Id, provider: Provider) // the branding service, on tours of an owner
    | BrandSeeded(id: Id, seed: BrandSeed) // seed-tours.ts: saves the brand, stamps nothing
    | TourSynced(id: Id) // and then stamps the tours it knows by title
    | AccountDeleted(ownerId: Id) // users.service.ts: ON DELETE SET NULL
    | VenuesWiped // reset-for-import.ts: venue ids cleared, those of the stops by ON DELETE SET NULL
    | Catalogue(cities: set<Id>, liveVenueCity: map<Id, Id>) // cities and venues change

  predicate Syncs(db: Db, id: Id) {
    id in db.tours && !db.tours[id].deleted && db.tours[id].brandId.Some? && LiveBrand(db, db.tours[id].brandId.value)
  }

  function Disowned(tours: map<Id, Tour>, ownerId: Id): map<Id, Tour> {
    map t | t in tours :: if tours[t].ownerId == Some(ownerId) then tours[t].(ownerId := None) else tours[t]
  }

  function WithoutVenues(t: Tour): Tour {
    t.(stops := seq(|t.stops|, i requires 0 <= i < |t.stops| => t.stops[i].(venueId := None)), venueIds := [])
  }

  function Step(db: Db, op: Op): Outcome {
    match op
    case TourCreate(id, stops, brandId) => CreateTour(db, id, stops, brandId)
    case TourUpdate(id, brand, stops) => UpdateTour(db, id, brand, stops)
    case TourRemove(id) =>
      if id !in db.tours || db.tours[id].deleted then Outcome(db, Some(TourNotFound))
      else Outcome(db.(tours := db.tours[id := db.tours[id].(deleted := true)]), None)
    case BrandCreate(id, name, shortName, logoUrl) =>
      if id in db.brands then Outcome(db, Some(DuplicateKey))
      else
        var logo := if logoUrl.Some? then NonEmpty(logoUrl.value) else None;
        Outcome(db.(brands := db.brands[id := Brand(name, shortName, logo, false, None, false)]), None)
    case BrandUpdate(id, patch) =>
      if !LiveBrand(db, id) then Outcome(db, Some(BrandNotFound))
      else Outcome(SaveBrand(db, id, Patched(db.brands[id], patch)), None)
    case BrandVerify(id, now) =>
      if !LiveBrand(db, id) then Outcome(db, Some(BrandNotFound))
      else Outcome(SaveBrand(db, id, db.brands[id].(verified := true, verifiedAt := Some(now))), None)
    case BrandUnverify(id) =>
      if !LiveBrand(db, id) then Outcome(db, Some(BrandNotFound))
      else Outcome(SaveBrand(db, id, db.brands[id].(verified := false, verifiedAt := None)), None)
    case BrandRemove(id) =>
      if !LiveBrand(db, id) then Outcome(db, Some(BrandNotFound))
      else Outcome(db.(tours := Restamped(db.tours, id, SITE_PROVIDER),
                       brands := db.brands[id := db.brands[id].(deleted := true)]), None)
    case BrandSeeded(id, seed) =>
      if id !in db.brands
      then Outcome(db.(brands := db.brands[id := Brand(seed.name, seed.shortName, seed.logoUrl, seed.verified,
                                                       if seed.verified then Some(seed.now) else None, false)]), None)
      else if db.brands[id].deleted then Outcome(db, None)
      else Outcome(db.(brands := db.brands[id := Reseeded(db.brands[id], seed)]), None)
    case TourSynced(id) =>
      if Syncs(db, id)
      then Outcome(db.(tours := db.tours[id := db.tours[id].(provider := Stamp(db.brands[db.tours[id].brandId.value]))]), None)
      else Outcome(db, None)
    case OwnerStamp(ownerId, p) =>
      Outcome(db.(tours := map t | t in db.tours ::
                    if db.tours[t].ownerId == Some(ownerId) then db.tours[t].(provider := p) else db.tours[t]), None)
    case AccountDeleted(ownerId) => Outcome(db.(tours := Disowned(db.tours, ownerId)), None)
    case VenuesWiped =>
      Outcome(db.(liveVenueCity := map[], tours := map t | t in db.tours :: WithoutVenues(db.tours[t])), None)
    case Catalogue(cities, venues) => Outcome(db.(cities := cities, liveVenueCity := venues), None)
  }

  function Run(db: Db, ops: seq<Op>): Db
    decreases |ops|
  {
    if ops == [] then db else Run(Step(db, ops[0]).db, ops[1..])
  }

  /** What the card of a tour without an owner should show. */
  ghost function DueProvider(brands: map<Id, Brand>, brandId: Option<Id>): Provider {
    if brandId.Some? && brandId.value in brands && !brands[brandId.value].deleted
    then Stamp(brands[brandId.value]) else SITE_PROVIDER
  }

  predicate Owns(t: Tour, ownerId: Id) {
    t.ownerId == Some(ownerId)
  }

  /** Whether a request writes the provider of a tour without an owner. */
  predicate Restamps(db: Db, op: Op, t: Id) {
    match op
    case TourCreate(id, _, _) => t == id && Step(db, op).error.None?
    case TourUpdate(id, brand, _) => t == id && brand.Some? && Step(db, op).error.None?
    case BrandUpdate(id, _) => LiveBrand(db, id) && t in db.tours && db.tours[t].brandId == Some(id)
    case BrandVerify(id, _) => LiveBrand(db, id) && t in db.tours && db.tours[t].brandId == Some(id)
    case BrandUnverify(id) => LiveBrand(db, id) && t in db.tours && db.tours[t].brandId == Some(id)
    case BrandRemove(id) => LiveBrand(db, id) && t in db.tours && db.tours[t].brandId == Some(id)
    case TourSynced(id) => t == id && Syncs(db, id)
    case _ => false
  }

  predicate OfBrand(t: Tour, brandId: Id) {
    t.brandId == Some(brandId)
  }

  /** The tours without an owner that show something else than they should: an owner whose
      account was deleted, or a brand as it was before a seed run; until something writes
      their provider. */
  ghost function StaleAfter(db: Db, stale: set<Id>, op: Op): set<Id> {
    if op.BrandSeeded? && LiveBrand(db, op.id)
    then (set t | t in stale && !(t in db.tours && OfBrand(db.tours[t], op.id)))
         + set t | t in db.tours && OfBrand(db.tours[t], op.id) && db.tours[t].ownerId.None?
                   && db.tours[t].provider != Stamp(Reseeded(db.brands[op.id], op.seed))
    else
    if op.AccountDeleted?
    then stale + set t | t in db.tours && Owns(db.tours[t], op.ownerId)
                         && db.tours[t].provider != DueProvider(db.brands, db.tours[t].brandId)
    else set t | t in stale && !Restamps(db, op, t)
  }

  ghost function StaleIn(db: Db, stale: set<Id>, ops: seq<Op>): set<Id>
    decreases |ops|
  {
    if ops == [] then stale else StaleIn(Step(db, ops[0]).db, StaleAfter(db, stale, ops[0]), ops[1..])
  }

  ghost predicate TourOk(db: Db, t: Tour, isStale: bool) {
    && (t.brandId.Some? ==> t.brandId.value in db.brands)
    && (t.ownerId.None? ==> (t.provider == DueProvider(db.brands, t.brandId) <==> !isStale))
    && (isStale ==> t.ownerId.None?)
    && ItineraryExact(t.stops, t.cityId, t.venueIds, t.scope)
  }

  ghost predicate Inv(db: Db, stale: set<Id>) {
    stale <= db.tours.Keys && forall t :: t in db.tours ==> TourOk(db, db.tours[t], t in stale)
  }

  lemma TourCreateKeeps(db: Db, stale: set<Id>, op: Op)
    requires Inv(db, stale) && op.TourCreate?
    ensures Inv(Step(db, op).db, StaleAfter(db, stale, op))
  {
    hide ItineraryExact, Resolve;
    var after, left := Step(db, op).db, StaleAfter(db, stale, op);
    if Resolve(db, op.stops).Ok? { ResolveExact(db, op.stops); }
    forall t | t in after.tours ensures TourOk(after, after.tours[t], t in left) {
      assert t in db.tours ==> TourOk(db, db.tours[t], t in stale);
    }
  }

  lemma TourUpdateKeeps(db: Db, stale: set<Id>, op: Op)
    requires Inv(db, stale) && op.TourUpdate?
    ensures Inv(Step(db, op).db, StaleAfter(db, stale, op))
  {
    hide ItineraryExact, Resolve, DueProvider;
    var after, left := Step(db, op).db, StaleAfter(db, stale, op);
    if op.newStops.Some? && Resolve(db, op.newStops.value).Ok? { ResolveExact(db, op.newStops.value); }
    if op.brand.Some? { NewProviderDue(db, op.brand.value); }
    forall t | t in after.tours ensures TourOk(after, after.tours[t], t in left) {
      assert TourOk(db, db.tours[t], t in stale);
    }
  }

  lemma NewProviderDue(db: Db, brandId: Option<Id>)
    ensures var b := ResolveBrand(db, brandId);
            b.Ok? ==> (b.value.Some? ==> b.value.value in db.brands)
                      && BuildProvider(db, b.value) == DueProvider(db.brands, b.value)
  {
  }

  /** Saving a brand and restamping its tours go together, also for the last goodbye. */
  lemma RestampKeeps(db: Db, stale: set<Id>, after: Db, id: Id, b: Brand)
    requires Inv(db, stale) && id in db.brands && after.brands == db.brands[id := b]
    requires after.tours == Restamped(db.tours, id, if b.deleted then SITE_PROVIDER else Stamp(b))
    ensures Inv(after, set t | t in stale && !(t in db.tours && db.tours[t].brandId == Some(id)))
  {
    hide ItineraryExact;
    var left := set t | t in stale && !(t in db.tours && db.tours[t].brandId == Some(id));
    forall t | t in after.tours ensures TourOk(after, after.tours[t], t in left) {
      assert TourOk(db, db.tours[t], t in stale);
    }
  }

  lemma OtherOpsKeep(db: Db, stale: set<Id>, op: Op)
    requires Inv(db, stale) && (op.TourRemove? || op.BrandCreate? || op.OwnerStamp? || op.Catalogue?)
    ensures Inv(Step(db, op).db, StaleAfter(db, stale, op))
  {
    hide ItineraryExact, CreateTour, UpdateTour;
    var after := Step(db, op).db;
    assert StaleAfter(db, stale, op) == stale;
    forall t | t in after.tours ensures TourOk(after, after.tours[t], t in stale) {
      assert TourOk(db, db.tours[t], t in stale);
    }
  }

  lemma BrandSeededKeeps(db: Db, stale: set<Id>, id: Id, seed: BrandSeed)
    requires Inv(db, stale)
    ensures Inv(Step(db, BrandSeeded(id, seed)).db, StaleAfter(db, stale, BrandSeeded(id, seed)))
  {
    hide ItineraryExact;
    var op := BrandSeeded(id, seed);
    var after, left := Step(db, op).db, StaleAfter(db, stale, op);
    forall t | t in after.tours ensures TourOk(after, after.tours[t], t in left) {
      assert TourOk(db, db.tours[t], t in stale);
    }
  }

  lemma TourSyncedKeeps(db: Db, stale: set<Id>, id: Id)
    requires Inv(db, stale)
    ensures Inv(Step(db, TourSynced(id)).db, StaleAfter(db, stale, TourSynced(id)))
  {
    hide ItineraryExact;
    var op := TourSynced(id);
    var after, left := Step(db, op).db, StaleAfter(db, stale, op);
    forall t | t in after.tours ensures TourOk(after, after.tours[t], t in left) {
      assert TourOk(db, db.tours[t], t in stale);
    }
  }

  /** Seeding a brand again leaves every provider right exactly when each tour of the brand
      without an owner already shows it as seeded. */
  lemma BrandSeededKeepsIff(db: Db, id: Id, seed: BrandSeed)
    requires Inv(db, {}) && LiveBrand(db, id)
    ensures Inv(Step(db, BrandSeeded(id, seed)).db, {}) <==>
            forall t :: t in db.tours && OfBrand(db.tours[t], id) && db.tours[t].ownerId.None? ==>
              db.tours[t].provider == Stamp(Reseeded(db.brands[id], seed))
  {
    hide ItineraryExact;
    var after := Step(db, BrandSeeded(id, seed)).db;
    forall t | t in db.tours
      ensures TourOk(after, after.tours[t], false) <==>
              (OfBrand(db.tours[t], id) && db.tours[t].ownerId.None? ==>
                 db.tours[t].provider == Stamp(Reseeded(db.brands[id], seed)))
    {
      assert TourOk(db, db.tours[t], false);
    }
  }

  lemma AccountDeletedKeeps(db: Db, stale: set<Id>, ownerId: Id)
    requires Inv(db, stale)
    ensures Inv(Step(db, AccountDeleted(ownerId)).db, StaleAfter(db, stale, AccountDeleted(ownerId)))
  {
    hide ItineraryExact;
    var op := AccountDeleted(ownerId);
    var after, left := Step(db, op).db, StaleAfter(db, stale, op);
    forall t | t in after.tours ensures TourOk(after, after.tours[t], t in left) {
      assert TourOk(db, db.tours[t], t in stale);
    }
  }

  /** Deleting an account leaves every provider right exactly when each tour of the owner
      already shows what it should show without one. */
  lemma AccountDeletedKeepsIff(db: Db, ownerId: Id)
    requires Inv(db, {})
    ensures Inv(Step(db, AccountDeleted(ownerId)).db, {}) <==>
            forall t :: t in db.tours && Owns(db.tours[t], ownerId) ==>
              db.tours[t].provider == DueProvider(db.brands, db.tours[t].brandId)
  {
    hide ItineraryExact;
    var after := Step(db, AccountDeleted(ownerId)).db;
    forall t | t in db.tours
      ensures TourOk(after, after.tours[t], false) <==>
              !Owns(db.tours[t], ownerId) || db.tours[t].provider == DueProvider(db.brands, db.tours[t].brandId)
    {
      assert TourOk(db, db.tours[t], false);
    }
  }

  lemma {:induction false} NoStopVenues(stops: seq<Stop>)
    requires forall i :: 0 <= i < |stops| ==> stops[i].venueId.None?
    ensures StopVenueIds(stops) == []
  {
    if stops != [] { NoStopVenues(stops[1..]); }
  }

  /** The reset script clears stops and copies alike. */
  lemma WipedExact(t: Tour)
    requires ItineraryExact(t.stops, t.cityId, t.venueIds, t.scope)
    ensures var w := WithoutVenues(t); ItineraryExact(w.stops, w.cityId, w.venueIds, w.scope)
  {
    var w := WithoutVenues(t);
    NoStopVenues(w.stops);
    assert forall i :: 0 <= i < |w.stops| ==> w.stops[i].cityId == t.stops[i].cityId;
    assert SpansCities(w.stops) <==> SpansCities(t.stops) by {
      if SpansCities(t.stops) {
        var i, j :| 0 <= i < j < |t.stops| && t.stops[i].cityId != t.stops[j].cityId;
        assert w.stops[i].cityId != w.stops[j].cityId;
      }
    }
  }

  lemma VenuesWipedKeeps(db: Db, stale: set<Id>)
    requires Inv(db, stale)
    ensures Inv(Step(db, VenuesWiped).db, StaleAfter(db, stale, VenuesWiped))
  {
    hide ItineraryExact;
    var after := Step(db, VenuesWiped).db;
    assert StaleAfter(db, stale, VenuesWiped) == stale;
    forall t | t in after.tours ensures TourOk(after, after.tours[t], t in stale) {
      assert TourOk(db, db.tours[t], t in stale);
      WipedExact(db.tours[t]);
    }
  }

  lemma StepKeeps(db: Db, stale: set<Id>, op: Op)
    requires Inv(db, stale)
    ensures Inv(Step(db, op).db, StaleAfter(db, stale, op))
  {
    hide Inv, CreateTour, UpdateTour, Restamped, WithoutVenues;
    var after := Step(db, op).db;
    match op {
      case TourCreate(_, _, _) => TourCreateKeeps(db, stale, op);
      case TourUpdate(_, _, _) => TourUpdateKeeps(db, stale, op);
      case BrandUpdate(id, _) => BrandOpKeeps(db, stale, op, id);
      case BrandVerify(id, _) => BrandOpKeeps(db, stale, op, id);
      case BrandUnverify(id) => BrandOpKeeps(db, stale, op, id);
      case BrandRemove(id) => BrandOpKeeps(db, stale, op, id);
      case BrandSeeded(id, seed) => BrandSeededKeeps(db, stale, id, seed);
      case TourSynced(id) => TourSyncedKeeps(db, stale, id);
      case AccountDeleted(ownerId) => AccountDeletedKeeps(db, stale, ownerId);
      case VenuesWiped => VenuesWipedKeeps(db, stale);
      case _ => OtherOpsKeep(db, stale, op);
    }
  }

  lemma BrandOpKeeps(db: Db, stale: set<Id>, op: Op, id: Id)
    requires Inv(db, stale) && (op.BrandUpdate? || op.BrandVerify? || op.BrandUnverify? || op.BrandRemove?) && op.id == id
    ensures Inv(Step(db, op).db, StaleAfter(db, stale, op))
  {
    hide Inv, Restamped;
    var after := Step(db, op).db;
    if LiveBrand(db, id) {
      RestampKeeps(db, stale, after, id, after.brands[id]);
      assert StaleAfter(db, stale, op) == set t | t in stale && !(t in db.tours && db.tours[t].brandId == Some(id));
    } else {
      assert StaleAfter(db, stale, op) == stale;
    }
  }

  /** In every run: a tour without an owner shows the current face of its live brand, or
      the site's, if and only if it is not left over from a deleted account or a seeded
      brand; and every tour's copied itinerary fields match its stops. */
  lemma {:induction false} RunKeeps(db: Db, stale: set<Id>, ops: seq<Op>)
    requires Inv(db, stale)
    ensures Inv(Run(db, ops), StaleIn(db, stale, ops))
    decreases |ops|
  {
    hide Step, Inv, StaleAfter;
    if ops != [] {
      StepKeeps(db, stale, ops[0]);
      RunKeeps(Step(db, ops[0]).db, StaleAfter(db, stale, ops[0]), ops[1..]);
    }
  }

  /** Without either there are no such leftovers. */
  lemma {:induction false} NoneStale(db: Db, ops: seq<Op>)
    requires Inv(db, {}) && forall i :: 0 <= i < |ops| ==> !ops[i].AccountDeleted? && !ops[i].BrandSeeded?
    ensures StaleIn(db, {}, ops) == {} && Inv(Run(db, ops), {})
    decreases |ops|
  {
    hide Step, Inv, Restamps;
    if ops != [] {
      StepKeeps(db, {}, ops[0]);
      assert StaleAfter(db, {}, ops[0]) == {};
      NoneStale(Step(db, ops[0]).db, ops[1..]);
    }
  }

  // What each request does -------------------------------------------------------

  /** A stop of a known city, with a live venue of that city or none. */
  predicate StopAllowed(db: Db, s: StopDto) {
    s.cityId in db.cities
    && (s.venueId.Some? ==> s.venueId.value in db.liveVenueCity && db.liveVenueCity[s.venueId.value] == s.cityId)
  }

  predicate StopsAllowed(db: Db, stops: seq<StopDto>) {
    stops != [] && forall s :: s in stops ==> StopAllowed(db, s)
  }

  predicate BrandAllowed(db: Db, brandId: Option<Id>) {
    brandId.None? || brandId.value == "" || LiveBrand(db, brandId.value)
  }

  function BrandAsked(brandId: Option<Id>): Option<Id> {
    if brandId == Some("") then None else brandId
  }

  /** The stops of a tour are those asked for, numbered in order. */
  ghost predicate StopsAsAsked(t: Tour, stops: seq<StopDto>) {
    |t.stops| == |stops|
    && forall i :: 0 <= i < |stops| ==>
         t.stops[i].order == i && t.stops[i].cityId == stops[i].cityId && t.stops[i].venueId == stops[i].venueId
  }

  /** The provider of a tour is the site, or the brand asked for as it is now. */
  ghost predicate ProviderAsAsked(db: Db, t: Tour, brandId: Option<Id>) {
    && t.brandId == BrandAsked(brandId)
    && (t.brandId.None? ==> t.provider == Provider("Hôm Nay Đi Đâu", "HNDD", true, None))
    && (t.brandId.Some? ==>
          && t.brandId.value in db.brands
          && var b := db.brands[t.brandId.value];
             t.provider.name == b.name && t.provider.shortName == b.shortName && t.provider.verified == b.verified
             && t.provider.logoUrl == b.logoUrl)
  }

  lemma ResolveAllowed(db: Db, stops: seq<StopDto>)
    ensures Resolve(db, stops).Ok? <==> StopsAllowed(db, stops)
    ensures Resolve(db, stops).Ok? ==> Resolve(db, stops).value.stops == NumberedStops(stops)
  {
    ResolveOkIff(db, stops);
    assert forall s :: StopAllowed(db, s) <==> s.cityId in db.cities && GoodStop(db, s);
  }

  /** What is wrong with an itinerary that is refused: a city nobody knows; else the first
      stop whose venue is unknown, or lies elsewhere; else that it is empty. */
  lemma {:induction false} FirstErrorSpec(db: Db, stops: seq<StopDto>, i: nat)
    requires i < |stops| && stops[i].venueId.Some? && !GoodStop(db, stops[i])
    requires forall j :: 0 <= j < i ==> GoodStop(db, stops[j])
    ensures FirstError(db, stops) ==
            Some(if stops[i].venueId.value in db.liveVenueCity then VenueElsewhere(stops[i].venueId.value)
                 else InvalidVenue(stops[i].venueId.value))
  {
    if i > 0 { FirstErrorSpec(db, stops[1..], i - 1); }
  }

  lemma ResolveError(db: Db, stops: seq<StopDto>, i: nat)
    ensures (exists s :: s in stops && s.cityId !in db.cities) ==> Resolve(db, stops) == Err(InvalidCity)
    ensures stops == [] ==> Resolve(db, stops) == Err(EmptyItinerary)
    ensures i < |stops| && (forall s :: s in stops ==> s.cityId in db.cities)
            && (forall j :: 0 <= j < i ==> StopAllowed(db, stops[j])) && !StopAllowed(db, stops[i]) ==>
              stops[i].venueId.Some?
              && Resolve(db, stops) == Err(if stops[i].venueId.value in db.liveVenueCity
                                           then VenueElsewhere(stops[i].venueId.value)
                                           else InvalidVenue(stops[i].venueId.value))
  {
    if i < |stops| && (forall s :: s in stops ==> s.cityId in db.cities)
       && (forall j :: 0 <= j < i ==> StopAllowed(db, stops[j])) && !StopAllowed(db, stops[i])
    {
      assert stops[i] in stops;
      FirstErrorSpec(db, stops, i);
    }
  }

  /** Creating a tour. */
  lemma TourCreateDoes(db: Db, id: Id, stops: seq<StopDto>, brandId: Option<Id>)
    ensures var o := Step(db, TourCreate(id, stops, brandId));
            && (o.error.None? <==> StopsAllowed(db, stops) && BrandAllowed(db, brandId) && id !in db.tours)
            && (o.error.Some? ==> o.db == db)
            && (!StopsAllowed(db, stops) ==> Resolve(db, stops).Err? && o.error == Some(Resolve(db, stops).error))
            && (StopsAllowed(db, stops) && !BrandAllowed(db, brandId) ==> o.error == Some(BrandNotFound))
            && (o.error.None? ==>
                  && id in o.db.tours && o.db == db.(tours := db.tours[id := o.db.tours[id]])
                  && var t := o.db.tours[id];
                     && StopsAsAsked(t, stops) && ProviderAsAsked(db, t, brandId) && t.ownerId.None? && !t.deleted
                     && ItineraryExact(t.stops, t.cityId, t.venueIds, t.scope))
  {
    hide Resolve, ItineraryExact;
    ResolveAllowed(db, stops);
    if Resolve(db, stops).Ok? { ResolveExact(db, stops); }
  }

  /** Editing a tour: the brand and the stops sent replace the old ones, what is left out
      stays, and so do owner and every other tour. */
  lemma TourUpdateDoes(db: Db, id: Id, brand: Option<Option<Id>>, stops: Option<seq<StopDto>>)
    ensures var o := Step(db, TourUpdate(id, brand, stops));
            && (o.error.None? <==>
                  && id in db.tours && !db.tours[id].deleted
                  && (brand.Some? ==> BrandAllowed(db, brand.value)) && (stops.Some? ==> StopsAllowed(db, stops.value)))
            && (o.error.Some? ==> o.db == db)
            && (o.error.None? ==>
                  && id in db.tours && id in o.db.tours && o.db == db.(tours := db.tours[id := o.db.tours[id]])
                  && var (t, was) := (o.db.tours[id], db.tours[id]);
                     && t.ownerId == was.ownerId && t.deleted == was.deleted
                     && (brand.Some? ==> ProviderAsAsked(db, t, brand.value))
                     && (brand.None? ==> t.brandId == was.brandId && t.provider == was.provider)
                     && (stops.Some? ==> StopsAsAsked(t, stops.value) && ItineraryExact(t.stops, t.cityId, t.venueIds, t.scope))
                     && (stops.None? ==> (t.stops, t.cityId, t.venueIds, t.scope)
                                         == (was.stops, was.cityId, was.venueIds, was.scope)))
  {
    hide Resolve, ItineraryExact;
    if stops.Some? {
      ResolveAllowed(db, stops.value);
      if Resolve(db, stops.value).Ok? { ResolveExact(db, stops.value); }
    }
  }

  /** Removing a tour marks it and does nothing else. */
  lemma TourRemoveDoes(db: Db, id: Id)
    ensures var o := Step(db, TourRemove(id));
            if id in db.tours && !db.tours[id].deleted
            then o == Outcome(db.(tours := db.tours[id := db.tours[id].(deleted := true)]), None)
            else o == Outcome(db, Some(TourNotFound))
  {
  }

  /** The brand is now b; its tours, and no others, show the provider. */
  ghost predicate BrandNow(db: Db, after: Db, id: Id, b: Brand, p: Provider) {
    && after == db.(brands := db.brands[id := b], tours := after.tours)
    && after.tours.Keys == db.tours.Keys
    && forall t :: t in db.tours ==>
         after.tours[t] == if db.tours[t].brandId == Some(id) then db.tours[t].(provider := p) else db.tours[t]
  }

  /** Brands: editing changes what is sent, an empty logo clears it; verifying puts the tick
      on, unverifying takes it off, removing leaves the site's face; always on all tours of
      the brand. */
  lemma BrandDoes(db: Db, id: Id, patch: BrandPatch, now: int)
    ensures !LiveBrand(db, id) ==>
              forall op :: op in {BrandUpdate(id, patch), BrandVerify(id, now), BrandUnverify(id), BrandRemove(id)} ==>
                Step(db, op) == Outcome(db, Some(BrandNotFound))
    ensures LiveBrand(db, id) ==>
              var b := db.brands[id];
              var name, shortName := if patch.name.Some? then patch.name.value else b.name,
                                     if patch.shortName.Some? then patch.shortName.value else b.shortName;
              var logo := if patch.logoUrl.None? then b.logoUrl else if patch.logoUrl.value == "" then None else patch.logoUrl;
              && BrandNow(db, Step(db, BrandUpdate(id, patch)).db, id,
                          Brand(name, shortName, logo, b.verified, b.verifiedAt, false),
                          Provider(name, shortName, b.verified, logo))
              && BrandNow(db, Step(db, BrandVerify(id, now)).db, id,
                          Brand(b.name, b.shortName, b.logoUrl, true, Some(now), false),
                          Provider(b.name, b.shortName, true, b.logoUrl))
              && BrandNow(db, Step(db, BrandUnverify(id)).db, id,
                          Brand(b.name, b.shortName, b.logoUrl, false, None, false),
                          Provider(b.name, b.shortName, false, b.logoUrl))
              && BrandNow(db, Step(db, BrandRemove(id)).db, id, b.(deleted := true),
                          Provider("Hôm Nay Đi Đâu", "HNDD", true, None))
  {
  }

  /** A new brand starts without the tick. */
  lemma BrandCreateDoes(db: Db, id: Id, name: string, shortName: string, logoUrl: Option<string>)
    requires id !in db.brands
    ensures Step(db, BrandCreate(id, name, shortName, logoUrl)) ==
            Outcome(db.(brands := db.brands[id := Brand(name, shortName, if logoUrl == Some("") then None else logoUrl,
                                                        false, None, false)]), None)
  {
  }
}
