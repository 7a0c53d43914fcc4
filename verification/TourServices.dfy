/** The tour service and the brand controller as written, over shared tables. */
module TourServices {
  import opened Prelude
  import opened Sequences
  import opened Tours

  lemma StepKeepsAll(db: Db, op: Op)
    ensures KeepsProviders(db, Step(db, op).db, op)
  {
    hide Inv, Step, StaleAfter;
    forall stale | Inv(db, stale) ensures Inv(Step(db, op).db, StaleAfter(db, stale, op)) {
      StepKeeps(db, stale, op);
    }
  }

  /** Providers and itineraries are as right after a request as before it. */
  ghost predicate KeepsProviders(before: Db, after: Db, op: Op) {
    forall stale :: Inv(before, stale) ==> Inv(after, StaleAfter(before, stale, op))
  }

  function VerifyOp(id: Id, verifiedAt: Option<int>): Op {
    if verifiedAt.Some? then BrandVerify(id, verifiedAt.value) else BrandUnverify(id)
  }

  class Services {
    var cities: set<Id>
    var liveVenueCity: map<Id, Id>
    var brands: map<Id, Brand>
    var tours: map<Id, Tour>

    function Tables(): Db
      reads this
    {
      Db(cities, liveVenueCity, brands, tours)
    }

    /** Every distinct city is found when as many rows come back as were asked for. */
    method CitiesExist(stopDtos: seq<StopDto>, cityIds: seq<Id>) returns (all: bool)
      requires cityIds == FirstOccurrences(CityIds(stopDtos))
      ensures all == KnownCities(Tables(), stopDtos)
    {
      var found := set c | c in cityIds && c in cities;
      all := |found| == |cityIds|;
      FirstOccurrencesNoDup(CityIds(stopDtos));
      FoundAtMost(cityIds, cities);
      CityIdsMembers(stopDtos);
    }

    method CheckStops(stopDtos: seq<StopDto>) returns (error: Option<Error>)
      ensures error == FirstError(Tables(), stopDtos)
    {
      for i := 0 to |stopDtos|
        invariant FirstError(Tables(), stopDtos) == FirstError(Tables(), stopDtos[i..])
      {
        var s := stopDtos[i];
        assert stopDtos[i..][0] == s && stopDtos[i..][1..] == stopDtos[i + 1..];
        if s.venueId.None? {
          continue;
        }
        if s.venueId.value !in liveVenueCity {
          return Some(InvalidVenue(s.venueId.value));
        }
        if liveVenueCity[s.venueId.value] != s.cityId {
          return Some(VenueElsewhere(s.venueId.value));
        }
      }
      error := None;
    }

    method ResolveItinerary(stopDtos: seq<StopDto>) returns (r: Result<Itinerary, Error>)
      ensures r == Resolve(Tables(), stopDtos)
    {
      hide FirstOccurrences, KnownCities, FirstError;
      var cityIds := FirstOccurrences(CityIds(stopDtos));
      var all := CitiesExist(stopDtos, cityIds);
      if !all {
        return Err(InvalidCity);
      }
      var error := CheckStops(stopDtos);
      if error.Some? {
        return Err(error.value);
      }
      if stopDtos == [] {
        return Err(EmptyItinerary);
      }
      r := Ok(Itinerary(NumberedStops(stopDtos), stopDtos[0].cityId, FirstOccurrences(VenueIds(stopDtos)),
                        if |cityIds| > 1 then InterProvince else IntraCity));
    }

    method Create(id: Id, stops: seq<StopDto>, brandId: Option<Id>) returns (error: Option<Error>)
      modifies this`tours
      ensures Outcome(Tables(), error) == CreateTour(old(Tables()), id, stops, brandId)
      ensures KeepsProviders(old(Tables()), Tables(), TourCreate(id, stops, brandId))
    {
      hide Resolve, KeepsProviders;
      StepKeepsAll(Tables(), TourCreate(id, stops, brandId));
      var itinerary := ResolveItinerary(stops);
      if itinerary.Err? {
        return Some(itinerary.error);
      }
      var brand := ResolveBrand(Tables(), brandId);
      if brand.Err? {
        return Some(brand.error);
      }
      if id in tours {
        return Some(DuplicateKey);
      }
      var it := itinerary.value;
      tours := tours[id := Tour(it.stops, it.primaryCityId, it.venueIds, it.scope, brand.value, None,
                                BuildProvider(Tables(), brand.value), false)];
      error := None;
    }

    method Update(id: Id, brandId: Option<Option<Id>>, stops: Option<seq<StopDto>>) returns (error: Option<Error>)
      modifies this`tours
      ensures Outcome(Tables(), error) == UpdateTour(old(Tables()), id, brandId, stops)
      ensures KeepsProviders(old(Tables()), Tables(), TourUpdate(id, brandId, stops))
    {
      hide Resolve, KeepsProviders;
      StepKeepsAll(Tables(), TourUpdate(id, brandId, stops));
      if id !in tours || tours[id].deleted {
        return Some(TourNotFound);
      }
      var tour := tours[id];
      if brandId.Some? {
        var brand := ResolveBrand(Tables(), brandId.value);
        if brand.Err? {
          return Some(brand.error);
        }
        tour := tour.(brandId := brand.value, provider := BuildProvider(Tables(), brand.value));
      }
      if stops.Some? {
        var itinerary := ResolveItinerary(stops.value);
        if itinerary.Err? {
          return Some(itinerary.error);
        }
        var it := itinerary.value;
        tour := tour.(stops := it.stops, cityId := it.primaryCityId, venueIds := it.venueIds, scope := it.scope);
      }
      tours := tours[id := tour];
      error := None;
    }

    method SyncTourProviders(id: Id)
      requires id in brands
      modifies this`tours
      ensures tours == Restamped(old(tours), id, Stamp(brands[id]))
    {
      var b := brands[id];
      var p := Provider(b.name, b.shortName, b.verified, b.logoUrl);
      tours := map t | t in tours :: if tours[t].brandId == Some(id) then tours[t].(provider := p) else tours[t];
    }

    method UpdateBrand(id: Id, patch: BrandPatch) returns (error: Option<Error>)
      modifies this`brands, this`tours
      ensures Outcome(Tables(), error) == Step(old(Tables()), BrandUpdate(id, patch))
      ensures KeepsProviders(old(Tables()), Tables(), BrandUpdate(id, patch))
    {
      hide Restamped, KeepsProviders;
      StepKeepsAll(Tables(), BrandUpdate(id, patch));
      if id !in brands || brands[id].deleted {
        return Some(BrandNotFound);
      }
      var b := brands[id];
      if patch.name.Some? {
        b := b.(name := patch.name.value);
      }
      if patch.shortName.Some? {
        b := b.(shortName := patch.shortName.value);
      }
      if patch.logoUrl.Some? {
        b := b.(logoUrl := if patch.logoUrl.value == "" then None else patch.logoUrl);
      }
      brands := brands[id := b];
      SyncTourProviders(id);
      error := None;
    }

    /** verify and unverify. */
    method SetVerified(id: Id, verifiedAt: Option<int>) returns (error: Option<Error>)
      modifies this`brands, this`tours
      ensures Outcome(Tables(), error) == Step(old(Tables()), VerifyOp(id, verifiedAt))
      ensures KeepsProviders(old(Tables()), Tables(), VerifyOp(id, verifiedAt))
    {
      hide Restamped, KeepsProviders;
      StepKeepsAll(Tables(), VerifyOp(id, verifiedAt));
      if id !in brands || brands[id].deleted {
        return Some(BrandNotFound);
      }
      brands := brands[id := brands[id].(verified := verifiedAt.Some?, verifiedAt := verifiedAt)];
      SyncTourProviders(id);
      error := None;
    }

    method RemoveBrand(id: Id) returns (error: Option<Error>)
      modifies this`brands, this`tours
      ensures Outcome(Tables(), error) == Step(old(Tables()), BrandRemove(id))
      ensures KeepsProviders(old(Tables()), Tables(), BrandRemove(id))
    {
      hide KeepsProviders;
      StepKeepsAll(Tables(), BrandRemove(id));
      if id !in brands || brands[id].deleted {
        return Some(BrandNotFound);
      }
      tours := map t | t in tours ::
        if tours[t].brandId == Some(id) then tours[t].(provider := SITE_PROVIDER) else tours[t];
      brands := brands[id := brands[id].(deleted := true)];
      error := None;
    }
  }

  lemma CityIdsMembers(stops: seq<StopDto>)
    ensures forall s :: s in stops ==> s.cityId in CityIds(stops)
    ensures forall c :: c in CityIds(stops) ==> exists s :: s in stops && s.cityId == c
  {
    forall s | s in stops ensures s.cityId in CityIds(stops) {
      var i :| 0 <= i < |stops| && stops[i] == s;
      assert CityIds(stops)[i] == s.cityId;
    }
    forall c | c in CityIds(stops) ensures exists s :: s in stops && s.cityId == c {
      var i :| 0 <= i < |stops| && CityIds(stops)[i] == c;
      assert stops[i] in stops && stops[i].cityId == c;
    }
  }

  /** Counting the rows found tells whether all ids were. */
  lemma {:induction false} FoundAtMost(ids: seq<Id>, known: set<Id>)
    requires NoDup(ids)
    ensures var n := |set c | c in ids && c in known|;
            n <= |ids| && (n == |ids| <==> forall c :: c in ids ==> c in known)
  {
    if ids != [] {
      var t := ids[..|ids| - 1];
      var x := ids[|ids| - 1];
      assert ids == t + [x];
      FoundAtMost(t, known);
      var a, b := set c | c in t && c in known, set c | c in ids && c in known;
      assert x !in t;
      assert b == if x in known then a + {x} else a;
    }
  }
}
