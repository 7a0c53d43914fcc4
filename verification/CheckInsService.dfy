/** The services as written: one method per request, the tables as fields, each
    proved against its step of the check-in machine. */
module CheckInsService {
  import opened Prelude
  import opened Sequences
  import opened Text
  import opened VnTime
  import opened CheckIns

  lemma VotesAreUnits(db: Db, clock: int)
    requires Inv(db, clock)
    ensures forall k :: k in db.votes ==> db.votes[k] == 1 || db.votes[k] == -1
  {
  }

  lemma OwnerCounted(db: Db, clock: int, id: Id)
    requires Inv(db, clock) && id in db.checkIns
    ensures db.checkIns[id].userId in db.checkInCount
  {
  }

  class Services {
    var checkIns: map<Id, CheckIn>
    var checkInCount: map<Id, int>
    var venueBySlug: map<string, Id>
    var upvotes: map<Id, int>
    var votes: map<(Id, Id), int>
    var journey: set<(Id, Id)>

    function Tables(): Db
      reads this
    {
      Db(checkIns, checkInCount, venueBySlug, upvotes, votes, journey)
    }

    /** The row to insert; a memory given right away starts the lock. */
    static method BuildRow(userId: Id, venueId: Option<Id>, place: Option<Place>, dto: Memory, now: Instant)
      returns (row: CheckIn)
      ensures row == NewRow(userId, venueId, place, dto, now)
    {
      var hasMemory :=
        (dto.comment.Some? && Trim(dto.comment.value) != "") || (dto.photos.Some? && |dto.photos.value| > 0);
      row := CheckIn(
        userId, venueId, place, dto.comment,
        if dto.photos.Some? then dto.photos.value else [],
        if dto.friends.Some? then dto.friends.value else [],
        if dto.isPublic.Some? then dto.isPublic.value else true,
        if hasMemory then Some(now) else None, now, None);
    }

    method SaveNew(id: Id, row: CheckIn) returns (error: Option<Error>)
      modifies this`checkIns, this`checkInCount
      ensures Outcome(Tables(), error) == Insert(old(Tables()), id, row)
    {
      if id in checkIns || row.userId !in checkInCount {
        return Some(ConstraintViolation);
      }
      checkIns := checkIns[id := row];
      checkInCount := checkInCount[row.userId := checkInCount[row.userId] + 1];
      error := None;
    }

    method Create(now: Instant, venueSlug: string, userId: Id, id: Id, dto: Memory) returns (error: Option<Error>)
      requires Inv(Tables(), now)
      modifies this
      ensures Outcome(Tables(), error) == CheckIns.Create(old(Tables()), now, venueSlug, userId, id, dto)
      ensures Inv(Tables(), now)
    {
      hide Inv, IsSameVnDay, NewRow, BasesKept;
      CreateKeeps(Tables(), now, venueSlug, userId, id, dto);
      if venueSlug !in venueBySlug {
        return Some(VenueNotFound);
      }
      var venueId := venueBySlug[venueSlug];
      if LiveAt(checkIns, userId, venueId) != {} {
        ghost var known := Latest(checkIns, userId, venueId);
        assert known.Some?;
        var last :| IsLatest(checkIns, userId, venueId, last);
        LatestUnique(Tables(), now, userId, venueId, last);
        if IsSameVnDay(checkIns[last].createdAt, now) == Some(true) {
          return Some(AlreadyCheckedInToday);
        }
      }
      var created := BuildRow(userId, Some(venueId), None, dto, now);
      error := SaveNew(id, created);
      if error.None? && (userId, venueId) !in journey {
        journey := journey + {(userId, venueId)};
      }
    }

    method CreateCustom(now: Instant, userId: Id, id: Id, place: Place, dto: Memory) returns (error: Option<Error>)
      modifies this`checkIns, this`checkInCount
      ensures Outcome(Tables(), error) == CheckIns.CreateCustom(old(Tables()), now, userId, id, place, dto)
    {
      var created := BuildRow(userId, None, Some(place), dto, now);
      error := SaveNew(id, created);
    }

    static method Dropped(photos: seq<string>, next: seq<string>) returns (dropped: seq<string>)
      ensures dropped == Filter(photos, u => u !in next)
    {
      dropped := [];
      for i := 0 to |photos|
        invariant dropped == Filter(photos[..i], u => u !in next)
      {
        FilterAppend(photos[..i], [photos[i]], u => u !in next);
        assert photos[..i + 1] == photos[..i] + [photos[i]];
        if photos[i] !in next {
          dropped := dropped + [photos[i]];
        }
      }
      assert photos[..|photos|] == photos;
    }

    /** Also returns the photos the patch dropped, in order: the files to unlink. */
    method UpdateMemory(now: int, id: Id, userId: Id, patch: Memory)
      returns (error: Option<Error>, droppedPhotos: seq<string>)
      modifies this`checkIns
      ensures Outcome(Tables(), error) == CheckIns.UpdateMemory(old(Tables()), now, id, userId, patch)
      ensures droppedPhotos ==
              if error.None? && patch.photos.Some?
              then Filter(old(checkIns)[id].photos, u => u !in patch.photos.value) else []
    {
      droppedPhotos := [];
      if id !in checkIns || !Live(checkIns[id]) {
        return Some(CheckInNotFound), [];
      }
      var ci := checkIns[id];
      if ci.userId != userId {
        return Some(NotYours), [];
      }
      var isPrivacyOnly :=
        patch.isPublic.Some? && patch.comment.None? && patch.photos.None? && patch.friends.None?;
      if ci.memoryCreatedAt.Some? {
        if !isPrivacyOnly && now - ci.memoryCreatedAt.value > MEMORY_LOCK_MS {
          return Some(Locked), [];
        }
      } else if !isPrivacyOnly {
        ci := ci.(memoryCreatedAt := Some(now));
      }
      if patch.comment.Some? {
        ci := ci.(comment := patch.comment);
      }
      if patch.photos.Some? {
        droppedPhotos := Dropped(ci.photos, patch.photos.value);
        FilterAgrees(ci.photos, u => u !in patch.photos.value, u => u !in patch.photos.value);
        ci := ci.(photos := patch.photos.value);
      }
      if patch.friends.Some? {
        ci := ci.(friends := patch.friends.value);
      }
      if patch.isPublic.Some? {
        ci := ci.(isPublic := patch.isPublic.value);
      }
      assert ci == Patched(checkIns[id], now, patch);
      checkIns := checkIns[id := ci];
      error := None;
    }

    method UpdateLatestMemory(now: int, venueSlug: string, userId: Id, patch: Memory)
      returns (error: Option<Error>, droppedPhotos: seq<string>)
      requires Inv(Tables(), now)
      modifies this`checkIns
      ensures Outcome(Tables(), error) == CheckIns.UpdateLatestMemory(old(Tables()), now, venueSlug, userId, patch)
      ensures error.None? && patch.photos.Some? ==>
                && venueSlug in venueBySlug
                && var latest := Latest(old(checkIns), userId, venueBySlug[venueSlug]);
                   latest.Some? && droppedPhotos == Filter(old(checkIns)[latest.value].photos, u => u !in patch.photos.value)
      ensures error.Some? || patch.photos.None? ==> droppedPhotos == []
    {
      if venueSlug !in venueBySlug {
        return Some(VenueNotFound), [];
      }
      var venueId := venueBySlug[venueSlug];
      ghost var known := Latest(checkIns, userId, venueId);
      if LiveAt(checkIns, userId, venueId) == {} {
        return Some(CheckInNotFound), [];
      }
      var latest :| IsLatest(checkIns, userId, venueId, latest);
      LatestUnique(Tables(), now, userId, venueId, latest);
      error, droppedPhotos := UpdateMemory(now, latest, userId, patch);
    }

    method DropLingeringVote(userId: Id, venueId: Id)
      modifies this`votes, this`upvotes
      ensures Tables() == DropVote(old(Tables()), userId, venueId)
    {
      var remaining := |LiveAt(checkIns, userId, venueId)|;
      if remaining == 0 && (userId, venueId) in votes {
        if votes[(userId, venueId)] == 1 && venueId in upvotes {
          upvotes := upvotes[venueId := upvotes[venueId] - 1];
        }
        votes := votes - {(userId, venueId)};
      }
    }

    method Remove(now: int, id: Id, userId: Id) returns (error: Option<Error>)
      requires Inv(Tables(), now)
      modifies this
      ensures Outcome(Tables(), error) == CheckIns.Remove(old(Tables()), now, id, userId)
      ensures Inv(Tables(), now)
    {
      hide Inv, LiveAt, DropVote, BasesKept;
      RemoveKeeps(Tables(), now, id, userId);
      if id in checkIns { OwnerCounted(Tables(), now, id); }
      error := None;
      if id !in checkIns || !Live(checkIns[id]) {
        return;
      }
      var ci := checkIns[id];
      if ci.userId != userId {
        return Some(NotYours);
      }
      if ci.memoryCreatedAt.Some? && now - ci.memoryCreatedAt.value > MEMORY_LOCK_MS {
        return Some(Locked);
      }
      checkIns := checkIns[id := ci.(deletedAt := Some(now))];
      checkInCount := checkInCount[userId := checkInCount[userId] - 1];
      if ci.venueId.Some? {
        var venueId := ci.venueId.value;
        DropLingeringVote(userId, ci.venueId.value);
      }
    }

    method RemoveLatest(now: int, venueSlug: string, userId: Id) returns (error: Option<Error>)
      requires Inv(Tables(), now)
      modifies this
      ensures Outcome(Tables(), error) == CheckIns.RemoveLatest(old(Tables()), now, venueSlug, userId)
      ensures Inv(Tables(), now)
    {
      hide Inv;
      if venueSlug !in venueBySlug {
        return Some(VenueNotFound);
      }
      var venueId := venueBySlug[venueSlug];
      ghost var known := Latest(checkIns, userId, venueId);
      if LiveAt(checkIns, userId, venueId) == {} {
        return None;
      }
      var latest :| IsLatest(checkIns, userId, venueId, latest);
      LatestUnique(Tables(), now, userId, venueId, latest);
      error := Remove(now, latest, userId);
    }

    /** Insert, toggle off or flip; how far the upvotes move and what vote stands. */
    method WriteVote(k: (Id, Id), value: int) returns (upvoteDelta: int, final: int)
      requires value == 1 || value == -1
      requires k in votes ==> votes[k] == 1 || votes[k] == -1
      modifies this`votes
      ensures var before := if k in old(votes) then old(votes)[k] else 0;
              && votes == (if before == value then old(votes) - {k} else old(votes)[k := value])
              && upvoteDelta == (if before == 1 then -1 else if value == 1 then 1 else 0)
              && final == (if before == value then 0 else value)
    {
      upvoteDelta, final := 0, value;
      if k !in votes {
        votes := votes[k := value];
        if value == 1 {
          upvoteDelta := 1;
        }
      } else if votes[k] == value {
        if votes[k] == 1 {
          upvoteDelta := -1;
        }
        votes := votes - {k};
        final := 0;
      } else {
        votes := votes[k := value];
        upvoteDelta := if value == 1 then 1 else -1;
      }
    }

    /** value is 1 or -1; the returned number is the vote that stands afterwards. */
    method Cast(now: Instant, venueSlug: string, userId: Id, value: int) returns (error: Option<Error>, final: int)
      requires value == 1 || value == -1
      requires Inv(Tables(), now)
      modifies this`votes, this`upvotes
      ensures Outcome(Tables(), error) == CheckIns.Cast(old(Tables()), venueSlug, userId, value == 1)
      ensures error.None? ==>
                && venueSlug in old(venueBySlug)
                && var (venue, was) := (old(venueBySlug)[venueSlug], old(VoteOf(Tables(), userId, venueBySlug[venueSlug])));
                   && final == (if was == value then 0 else value) && VoteOf(Tables(), userId, venue) == final
                   && OtherVotesKept(old(Tables()), Tables(), userId, venue)
                   && UpvotesFollow(old(Tables()), Tables(), userId, venue)
      ensures Inv(Tables(), now)
    {
      hide Inv, LiveAt, BasesKept, OtherVotesKept, UpvotesFollow;
      CastKeeps(Tables(), now, venueSlug, userId, value == 1);
      CastDoes(Tables(), now, venueSlug, userId, value == 1);
      VotesAreUnits(Tables(), now);
      if venueSlug !in venueBySlug {
        return Some(VenueNotFound), 0;
      }
      var k := (userId, venueBySlug[venueSlug]);
      if LiveAt(checkIns, userId, k.1) == {} {
        return Some(CheckInRequired), 0;
      }
      var upvoteDelta;
      upvoteDelta, final := WriteVote(k, value);
      if upvoteDelta != 0 && k.1 in upvotes {
        upvotes := upvotes[k.1 := upvotes[k.1] + upvoteDelta];
      }
      error := None;
    }
  }
}
