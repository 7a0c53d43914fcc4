/** src/modules/saved-venues/saved-venues.service.ts: the monthly shortlist. */
module SavedVenues {
  import opened Prelude
  import opened Calendar
  import opened VnTime

  predicate SameVnMonth(a: int, b: int) {
    VnCivil(a).year == VnCivil(b).year && VnCivil(a).month == VnCivil(b).month
  }

  lemma MonthChangesAtItsEnd(now: int, to: int)
    requires now <= to
    ensures SameVnMonth(now, to) <==> to < MonthEnd(now)
  {
    hide CivilFromDay, MonthEnd;
    var r := MonthEnd(now);
    MonthEndCivil(now);
    CivilOrder(VnDay(now), VnDay(to));
    CivilOrder(VnDay(to), VnDay(now));
    CivilOrder(VnDay(to), VnDay(r));
    CivilOrder(VnDay(r), VnDay(to));
  }

  /** The rows that are left when time has passed, with the job firing at every
      first-of-month midnight on the way. */
  function RowsLeft(addedAt: map<(Id, Id), int>, clock: int, until: int): map<(Id, Id), int> {
    if SameVnMonth(clock, until) then addedAt else map[]
  }

  /** The instant shown to the client is the one at which the list empties: a row on it
      now is still there at `to` exactly when `to` is before it. */
  lemma ToldResetIsWhenTheListEmpties(addedAt: map<(Id, Id), int>, row: (Id, Id), now: int, to: int)
    requires row in addedAt && now <= to && NextMonthlyResetAt(now).Some? && !RemappedYear(now)
    ensures row in RowsLeft(addedAt, now, to) <==> to < NextMonthlyResetAt(now).value
    ensures row in RowsLeft(addedAt, now, to) ==> RowsLeft(addedAt, now, to)[row] == addedAt[row]
  {
    hide NextMonthlyResetAt, MonthEnd, CivilFromDay, IsNextVnMonthStart;
    NextResetCorrect(now);
    MonthEndIsNext(now);
    NextMonthStartUnique(now, NextMonthlyResetAt(now).value, MonthEnd(now));
    MonthChangesAtItsEnd(now, to);
  }

  datatype Error = VenueNotFound

  /** The saved_venues table, unique per (user, venue), and the wall clock. */
  class SavedVenuesService {
    var addedAt: map<(Id, Id), int>
    var liveVenueBySlug: map<string, Id>
    var clock: int

    /** Every row was added in the Vietnam month that is running. */
    ghost predicate Valid()
      reads this
    {
      forall k :: k in addedAt ==> addedAt[k] <= clock && SameVnMonth(addedAt[k], clock)
    }

    constructor (venues: map<string, Id>, now: int)
      ensures Valid() && addedAt == map[] && liveVenueBySlug == venues && clock == now
    {
      addedAt, liveVenueBySlug, clock := map[], venues, now;
    }

    /** Saving twice keeps the first row and its date. */
    method Add(venueSlug: string, userId: Id) returns (r: Result<int, Error>)
      requires Valid()
      modifies this`addedAt
      ensures Valid()
      ensures venueSlug !in liveVenueBySlug ==> r == Err(VenueNotFound) && addedAt == old(addedAt)
      ensures venueSlug in liveVenueBySlug ==>
                var k := (userId, liveVenueBySlug[venueSlug]);
                var at := if k in old(addedAt) then old(addedAt)[k] else clock;
                r == Ok(at) && addedAt == old(addedAt)[k := at]
    {
      hide CivilFromDay;
      if venueSlug !in liveVenueBySlug {
        return Err(VenueNotFound);
      }
      var k := (userId, liveVenueBySlug[venueSlug]);
      if k in addedAt {
        return Ok(addedAt[k]);
      }
      addedAt := addedAt[k := clock];
      r := Ok(clock);
    }

    method Remove(venueSlug: string, userId: Id)
      requires Valid()
      modifies this`addedAt
      ensures Valid()
      ensures addedAt == if venueSlug in liveVenueBySlug
                         then old(addedAt) - {(userId, liveVenueBySlug[venueSlug])} else old(addedAt)
    {
      hide CivilFromDay;
      if venueSlug in liveVenueBySlug {
        addedAt := addedAt - {(userId, liveVenueBySlug[venueSlug])};
      }
    }

    /** users.service.ts: the rows of a deleted account cascade away. */
    method DeleteAccount(userId: Id)
      requires Valid()
      modifies this`addedAt
      ensures Valid() && addedAt == map k | k in old(addedAt) && k.0 != userId :: old(addedAt)[k]
    {
      hide CivilFromDay;
      addedAt := map k | k in addedAt && k.0 != userId :: addedAt[k];
    }

    method MonthlyReset()
      modifies this`addedAt
      ensures addedAt == map[]
    {
      addedAt := map[];
    }

    /** Time passes and the cron job fires at every first-of-month midnight on the
        way. The outcome: the list is emptied exactly when a new month has begun. */
    method AdvanceTo(until: int)
      requires Valid() && clock <= until
      modifies this`addedAt, this`clock
      ensures Valid() && clock == until
      ensures addedAt == RowsLeft(old(addedAt), old(clock), until)
    {
      hide CivilFromDay, MonthEnd;
      MonthChangesAtItsEnd(clock, clock);
      while MonthEnd(clock) <= until
        invariant old(clock) <= clock <= until
        invariant Valid()
        invariant addedAt == RowsLeft(old(addedAt), old(clock), clock)
        decreases until - clock
      {
        var next := MonthEnd(clock);
        MonthEndIsNext(clock);
        MonthChangesAtItsEnd(clock, next);
        MonthChangesAtItsEnd(old(clock), clock);
        MonthChangesAtItsEnd(old(clock), next);
        clock := next;
        MonthlyReset();
      }
      MonthChangesAtItsEnd(clock, until);
      clock := until;
    }
  }
}
