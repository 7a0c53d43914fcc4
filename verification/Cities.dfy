/** The city list with published-venue counts (cities.service.ts) and the admin writes
    that must invalidate it (admin-venues.service.ts). Cities are named by their slug,
    which is unique and which no request changes. */
module Cities {
  import opened Prelude

  const CACHE_TTL_MS := 5 * 60 * 1000

  datatype City = City(name: string, details: string)

  datatype Venue = Venue(city: string, isPublished: bool, deleted: bool)

  datatype CityWithCount = CityWithCount(city: City, venueCount: nat)

  datatype Entry<T> = Entry(value: T, expiresAt: int)

  datatype Tables = Tables(cities: map<string, City>, venues: map<Id, Venue>)

  /** The two kinds of cache key: one for the list, one per slug. */
  datatype Cache = Cache(list: Option<Entry<map<string, CityWithCount>>>, bySlug: map<string, Entry<CityWithCount>>)

  predicate Counted(v: Venue, city: string) {
    v.city == city && v.isPublished && !v.deleted
  }

  function PublishedIn(venues: map<Id, Venue>, city: string): set<Id> {
    set id | id in venues && Counted(venues[id], city)
  }

  function Single(t: Tables, slug: string): CityWithCount
    requires slug in t.cities
  {
    CityWithCount(t.cities[slug], |PublishedIn(t.venues, slug)|)
  }

  function Listing(t: Tables): map<string, CityWithCount> {
    map slug | slug in t.cities :: Single(t, slug)
  }

  /** The number beside a city counts its published venues that are not deleted. */
  lemma CountsPublished(t: Tables, slug: string)
    requires slug in t.cities
    ensures Listing(t).Keys == t.cities.Keys && Listing(t)[slug] == Single(t, slug)
    ensures Single(t, slug).city == t.cities[slug]
    ensures Single(t, slug).venueCount ==
            |set id | id in t.venues && t.venues[id].city == slug && t.venues[id].isPublished && !t.venues[id].deleted|
  {
    assert PublishedIn(t.venues, slug) ==
           set id | id in t.venues && t.venues[id].city == slug && t.venues[id].isPublished && !t.venues[id].deleted;
  }

  /** Every entry, expired or not, is what recomputing it now would give. */
  ghost predicate Coherent(t: Tables, c: Cache) {
    && (c.list.Some? ==> c.list.value.value == Listing(t))
    && forall slug :: slug in c.bySlug ==> slug in t.cities && c.bySlug[slug].value == Single(t, slug)
  }

  /** A write to one venue concerns only the count of its city. */
  lemma VenueWritten(t: Tables, id: Id, v: Venue, slug: string)
    requires id in t.venues ==> t.venues[id].city == v.city
    requires slug != v.city
    ensures PublishedIn(t.venues[id := v], slug) == PublishedIn(t.venues, slug)
  {
  }

  /** A city without a group in the count query has no published venue. */
  lemma NoneCounted(venues: map<Id, Venue>, grouped: set<string>)
    requires forall v :: v in venues.Values && v.isPublished && !v.deleted ==> v.city in grouped
    ensures forall slug :: slug !in grouped ==> |PublishedIn(venues, slug)| == 0
  {
    forall slug | slug !in grouped ensures PublishedIn(venues, slug) == {} {
      forall id | id in venues ensures !Counted(venues[id], slug) {
        assert venues[id] in venues.Values;
      }
    }
  }

  function Dropped(c: Cache, slug: string): Cache {
    Cache(None, c.bySlug - {slug})
  }

  lemma DroppedCoherent(t: Tables, c: Cache, after: Tables, slug: string)
    requires Coherent(t, c)
    requires t.cities.Keys <= after.cities.Keys
    requires forall s :: s in t.cities && s != slug ==> Single(after, s) == Single(t, s)
    ensures Coherent(after, Dropped(c, slug))
  {
  }

  datatype Error = CityNotFound | VenueNotFound | DuplicateKey

  class CityServices {
    var cities: map<string, City>
    var venues: map<Id, Venue>
    var cacheList: Option<Entry<map<string, CityWithCount>>>
    var cacheBySlug: map<string, Entry<CityWithCount>>

    ghost function Now(): Tables
      reads this
    {
      Tables(cities, venues)
    }

    ghost function Cached(): Cache
      reads this
    {
      Cache(cacheList, cacheBySlug)
    }

    /** Coherence, with slugs that are not empty and venues that lie in known cities. */
    ghost predicate Valid()
      reads this
    {
      && Coherent(Now(), Cached())
      && "" !in cities
      && forall id :: id in venues ==> venues[id].city in cities
    }

    constructor (cities: map<string, City>)
      requires "" !in cities
      ensures Valid() && this.cities == cities && venues == map[]
    {
      this.cities, venues, cacheList, cacheBySlug := cities, map[], None, map[];
    }

    /** A reader always gets what a recomputation would give. */
    method FindAll(now: int) returns (r: map<string, CityWithCount>)
      requires Valid()
      modifies this`cacheList
      ensures Valid() && r == Listing(Now())
    {
      if cacheList.Some? && now < cacheList.value.expiresAt {
        return cacheList.value.value;
      }
      var counts := map v | v in venues.Values && v.isPublished && !v.deleted :: v.city := |PublishedIn(venues, v.city)|;
      NoneCounted(venues, counts.Keys);
      r := map slug | slug in cities :: CityWithCount(cities[slug], if slug in counts then counts[slug] else 0);
      cacheList := Some(Entry(r, now + CACHE_TTL_MS));
    }

    method FindBySlug(now: int, slug: string) returns (r: Result<CityWithCount, Error>)
      requires Valid()
      modifies this`cacheBySlug
      ensures Valid()
      ensures r == if slug in cities then Ok(Single(Now(), slug)) else Err(CityNotFound)
    {
      if slug in cacheBySlug && now < cacheBySlug[slug].expiresAt {
        return Ok(cacheBySlug[slug].value);
      }
      if slug !in cities {
        return Err(CityNotFound);
      }
      var enriched := Single(Tables(cities, venues), slug);
      cacheBySlug := cacheBySlug[slug := Entry(enriched, now + CACHE_TTL_MS)];
      r := Ok(enriched);
    }

    method InvalidateAll()
      modifies this`cacheList
      ensures cacheList == None
    {
      cacheList := None;
    }

    method InvalidateBySlug(slug: string)
      modifies this`cacheList, this`cacheBySlug
      ensures Cached() == Dropped(old(Cached()), slug)
    {
      cacheBySlug := cacheBySlug - {slug};
      cacheList := None;
    }

    method InvalidateForVenue(venue: Venue)
      modifies this`cacheList, this`cacheBySlug
      ensures venue.city != "" ==> Cached() == Dropped(old(Cached()), venue.city)
    {
      if venue.city != "" {
        InvalidateBySlug(venue.city);
        return;
      }
      InvalidateAll();
    }

    method UpdateCity(slug: string, city: City) returns (r: Result<City, Error>)
      requires Valid()
      modifies this
      ensures Valid() && venues == old(venues)
      ensures slug in old(cities) ==> r == Ok(city) && cities == old(cities)[slug := city]
      ensures slug !in old(cities) ==> r == Err(CityNotFound) && cities == old(cities)
    {
      if slug !in cities {
        return Err(CityNotFound);
      }
      ghost var before, cache := Now(), Cached();
      cities := cities[slug := city];
      DroppedCoherent(before, cache, Now(), slug);
      InvalidateBySlug(slug);
      r := Ok(city);
    }

    /** The write shared by creating, editing, publishing and deleting a venue. */
    method SaveVenue(id: Id, v: Venue)
      requires Valid() && v.city in cities
      requires id in venues ==> venues[id].city == v.city
      modifies this`venues, this`cacheList, this`cacheBySlug
      ensures Valid() && venues == old(venues)[id := v]
    {
      hide PublishedIn;
      ghost var before, cache := Now(), Cached();
      venues := venues[id := v];
      forall s | s in cities && s != v.city ensures Single(Now(), s) == Single(before, s) {
        VenueWritten(before, id, v, s);
      }
      DroppedCoherent(before, cache, Now(), v.city);
      InvalidateForVenue(v);
    }

    method CreateVenue(id: Id, city: string, isPublished: Option<bool>) returns (error: Option<Error>)
      requires Valid()
      modifies this`venues, this`cacheList, this`cacheBySlug
      ensures Valid()
      ensures error == (if city !in cities then Some(CityNotFound) else if id in old(venues) then Some(DuplicateKey) else None)
      ensures venues == if error.None? then old(venues)[id := Venue(city, isPublished.GetOr(true), false)] else old(venues)
    {
      if city !in cities {
        return Some(CityNotFound);
      }
      if id in venues {
        return Some(DuplicateKey);
      }
      SaveVenue(id, Venue(city, isPublished.GetOr(true), false));
      error := None;
    }

    /** updateVenue without a change of city, and setPublished. */
    method UpdateVenue(id: Id, isPublished: Option<bool>) returns (error: Option<Error>)
      requires Valid()
      modifies this`venues, this`cacheList, this`cacheBySlug
      ensures Valid()
      ensures error == if id in old(venues) && !old(venues)[id].deleted then None else Some(VenueNotFound)
      ensures venues == if error.None?
                        then old(venues)[id := old(venues)[id].(isPublished := isPublished.GetOr(old(venues)[id].isPublished))]
                        else old(venues)
    {
      if id !in venues || venues[id].deleted {
        return Some(VenueNotFound);
      }
      SaveVenue(id, venues[id].(isPublished := isPublished.GetOr(venues[id].isPublished)));
      error := None;
    }

    method DeleteVenue(id: Id) returns (error: Option<Error>)
      requires Valid()
      modifies this`venues, this`cacheList, this`cacheBySlug
      ensures Valid()
      ensures error == if id in old(venues) && !old(venues)[id].deleted then None else Some(VenueNotFound)
      ensures venues == if error.None? then old(venues)[id := old(venues)[id].(deleted := true)] else old(venues)
    {
      if id !in venues || venues[id].deleted {
        return Some(VenueNotFound);
      }
      SaveVenue(id, venues[id].(deleted := true));
      error := None;
    }
  }
}
