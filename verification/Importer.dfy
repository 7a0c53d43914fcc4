/** src/database/piso-import.ts: importing one category, resumable after a kill at any
    moment. */
module Importer {
  import opened Prelude
  import opened Sequences
  import opened Reviews

  /** A provider review with the account it is filed under. */
  datatype ProviderReview = ProviderReview(author: string, uid: Id, rating: Option<real>, text: string)

  /** What happens when a candidate is looked at: no detail page, too few pictures to
      try, too few uploaded, an exception, or material for a row. */
  datatype Detail =
    | NoPlace
    | FewMedia
    | FewImages
    | Breaks
    | Place(reviewList: seq<ProviderReview>, transactionFails: bool)

  datatype Candidate = Candidate(dataId: Id, slug: string, rating: real, reviews: nat, detail: Detail)

  datatype VenueRow = VenueRow(id: Id, slug: string, externalId: Option<Id>, deleted: bool, aggregate: Aggregate)

  datatype Mark = Saved | Skipped | SkippedNoImages | SkippedTooFewImages | Failed

  /** All that survives a kill: the tables and the progress files, one per (city, category). */
  datatype Disk = Disk(venues: seq<VenueRow>, reviews: seq<Review>, progress: map<string, map<string, Mark>>)

  datatype Flags = Flags(count: nat, minRating: real, minReviews: nat, maxReviews: nat)

  // Collecting and filtering ------------------------------------------------------

  ghost predicate DistinctDataIds(cs: seq<Candidate>) {
    forall i, j :: 0 <= i < j < |cs| ==> cs[i].dataId != cs[j].dataId
  }

  predicate HasDataId(cs: seq<Candidate>, dataId: Id) {
    exists c :: c in cs && c.dataId == dataId
  }

  /** All results of the keyword searches, one after the other. */
  function Flat(results: seq<seq<Candidate>>): seq<Candidate> {
    if results == [] then [] else Flat(results[..|results| - 1]) + results[|results| - 1]
  }

  /** The first acceptable result of each provider id. */
  function FirstPerId(cs: seq<Candidate>, acceptable: Candidate -> bool): seq<Candidate> {
    if cs == [] then []
    else
      var r, c := FirstPerId(cs[..|cs| - 1], acceptable), cs[|cs| - 1];
      if !acceptable(c) || HasDataId(r, c.dataId) then r else r + [c]
  }

  ghost predicate IsFirstOfItsId(cs: seq<Candidate>, acceptable: Candidate -> bool, c: Candidate) {
    exists k :: 0 <= k < |cs| && cs[k] == c && acceptable(c)
                && forall j :: 0 <= j < k && acceptable(cs[j]) ==> cs[j].dataId != c.dataId
  }

  lemma FirstOfItsIdLonger(t: seq<Candidate>, last: Candidate, acceptable: Candidate -> bool, c: Candidate)
    ensures IsFirstOfItsId(t, acceptable, c) ==> IsFirstOfItsId(t + [last], acceptable, c)
    ensures acceptable(last) && (forall x :: x in t && acceptable(x) ==> x.dataId != last.dataId) ==>
              IsFirstOfItsId(t + [last], acceptable, last)
  {
    if IsFirstOfItsId(t, acceptable, c) {
      var k :| 0 <= k < |t| && t[k] == c && acceptable(c)
               && forall j :: 0 <= j < k && acceptable(t[j]) ==> t[j].dataId != c.dataId;
      assert (t + [last])[k] == c;
    }
    assert (t + [last])[|t|] == last;
  }

  lemma {:induction false} FirstPerIdSpec(cs: seq<Candidate>, acceptable: Candidate -> bool)
    ensures DistinctDataIds(FirstPerId(cs, acceptable))
    ensures forall c :: c in cs && acceptable(c) ==> HasDataId(FirstPerId(cs, acceptable), c.dataId)
    ensures forall c :: c in FirstPerId(cs, acceptable) ==> IsFirstOfItsId(cs, acceptable, c)
  {
    if cs != [] {
      hide IsFirstOfItsId, DistinctDataIds;
      var t, last := cs[..|cs| - 1], cs[|cs| - 1];
      var before, r := FirstPerId(t, acceptable), FirstPerId(cs, acceptable);
      FirstPerIdSpec(t, acceptable);
      assert cs == t + [last];
      forall c | c in r ensures IsFirstOfItsId(cs, acceptable, c) {
        FirstOfItsIdLonger(t, last, acceptable, c);
      }
      if r == before + [last] { NewIdDistinct(before, last); }
      forall c | c in cs && acceptable(c) ensures HasDataId(r, c.dataId) {
        if c in t {
          var x :| x in before && x.dataId == c.dataId;
          assert x in r;
        } else if r == before + [last] {
          assert r[|before|] in r;
        }
      }
    } else {
      NoneDistinct();
    }
  }

  lemma NewIdDistinct(before: seq<Candidate>, last: Candidate)
    requires DistinctDataIds(before) && !HasDataId(before, last.dataId)
    ensures DistinctDataIds(before + [last])
  {
    assert forall i :: 0 <= i < |before| ==> before[i] in before;
  }

  /** Phase 1: over all keyword searches, the first acceptable result per provider id. */
  method Collect(results: seq<seq<Candidate>>, acceptable: Candidate -> bool) returns (cs: seq<Candidate>)
    ensures cs == FirstPerId(Flat(results), acceptable)
    ensures DistinctDataIds(cs)
    ensures forall c :: c in cs ==> IsFirstOfItsId(Flat(results), acceptable, c)
    ensures forall c :: c in Flat(results) && acceptable(c) ==> HasDataId(cs, c.dataId)
  {
    hide HasDataId, IsFirstOfItsId, DistinctDataIds, FirstPerId, Flat;
    cs := [];
    NothingCollected(acceptable);
    for i := 0 to |results|
      invariant cs == FirstPerId(Flat(results[..i]), acceptable)
    {
      ghost var done := Flat(results[..i]);
      assert done + results[i][..0] == done;
      for j := 0 to |results[i]|
        invariant cs == FirstPerId(done + results[i][..j], acceptable)
      {
        var r := results[i][j];
        FirstPerIdSnoc(done + results[i][..j], r, acceptable);
        assert done + results[i][..j + 1] == done + results[i][..j] + [r];
        if !acceptable(r) {
          continue;
        }
        if !HasDataId(cs, r.dataId) {
          cs := cs + [r];
        }
      }
      assert results[i][..|results[i]|] == results[i];
      FlatSnoc(results, i);
    }
    assert results[..|results|] == results;
    FirstPerIdSpec(Flat(results), acceptable);
  }

  lemma NothingCollected(acceptable: Candidate -> bool)
    ensures Flat([]) == [] && FirstPerId([], acceptable) == []
  {
  }

  lemma FirstPerIdSnoc(cs: seq<Candidate>, c: Candidate, acceptable: Candidate -> bool)
    ensures var r := FirstPerId(cs, acceptable);
            FirstPerId(cs + [c], acceptable) == if !acceptable(c) || HasDataId(r, c.dataId) then r else r + [c]
  {
    assert (cs + [c])[..|cs|] == cs;
  }

  lemma FlatSnoc(results: seq<seq<Candidate>>, i: nat)
    requires i < |results|
    ensures Flat(results[..i + 1]) == Flat(results[..i]) + results[i]
  {
    assert results[..i + 1][..i] == results[..i];
  }

  function ExternalIds(venues: seq<VenueRow>): set<Id> {
    set v | v in venues && v.externalId.Some? :: v.externalId.value
  }

  function Slugs(venues: seq<VenueRow>): set<string> {
    set v | v in venues :: v.slug
  }

  /** Phase 2: good enough, and not in the table yet, soft-deleted rows included. */
  function GoodAndNew(flags: Flags, venues: seq<VenueRow>): Candidate -> bool {
    (c: Candidate) => c.rating > flags.minRating && c.reviews > flags.minReviews && c.dataId !in ExternalIds(venues)
  }

  function Passing(flags: Flags, venues: seq<VenueRow>, cs: seq<Candidate>): seq<Candidate> {
    Filter(cs, GoodAndNew(flags, venues))
  }

  // The transaction ---------------------------------------------------------------

  /** One review per author, the list cut off once it is long enough. */
  function Picked(list: seq<ProviderReview>, max: nat): seq<ProviderReview> {
    if list == [] then []
    else
      var p, r := Picked(list[..|list| - 1], max), list[|list| - 1];
      if (|p| >= max && p != []) || (exists q :: q in p && q.author == r.author) then p else p + [r]
  }

  /** Rounded to whole stars and kept within one to five, five when missing. */
  function Stars(rating: Option<real>): nat {
    var n := Round(rating.GetOr(5.0));
    if n < 1 then 1 else if n > 5 then 5 else n
  }

  predicate HasReviewBy(rows: seq<Review>, uid: Id) {
    exists r :: r in rows && r.userId == uid
  }

  /** The review rows of a new venue: one per account. */
  function ReviewRows(venueId: Id, picked: seq<ProviderReview>): seq<Review> {
    if picked == [] then []
    else
      var rows, r := ReviewRows(venueId, picked[..|picked| - 1]), picked[|picked| - 1];
      if HasReviewBy(rows, r.uid) then rows
      else rows + [Review(venueId, r.uid, 10 * Stars(r.rating), Slice(r.text, 0, 4000))]
  }

  function Longest(venues: seq<VenueRow>): (n: nat)
    ensures forall v :: v in venues ==> |v.id| <= n
  {
    if venues == [] then 0
    else
      var n, v := Longest(venues[..|venues| - 1]), venues[|venues| - 1];
      if |v.id| > n then |v.id| else n
  }

  /** A generated key: one that no row has. */
  function NextId(d: Disk): (id: Id)
    ensures forall v :: v in d.venues ==> v.id != id
  {
    seq(Longest(d.venues) + 1, _ => '0')
  }

  function NewRows(flags: Flags, d: Disk, c: Candidate): seq<Review>
    requires c.detail.Place?
  {
    ReviewRows(NextId(d), Picked(c.detail.reviewList, flags.maxReviews))
  }

  /** The transaction as a whole: the venue, its reviews and the blended rating. */
  function Commit(flags: Flags, d: Disk, c: Candidate): Disk
    requires c.detail.Place?
  {
    var rows := NewRows(flags, d, c);
    var v := VenueRow(NextId(d), c.slug, Some(c.dataId), false, ImportedAggregate(c.rating, c.reviews, rows));
    d.(venues := d.venues + [v], reviews := d.reviews + rows)
  }

  // The resumable loop --------------------------------------------------------------

  function Marks(d: Disk, file: string): map<string, Mark> {
    if file in d.progress then d.progress[file] else map[]
  }

  function Marked(d: Disk, file: string, slug: string, m: Mark): Disk {
    d.(progress := d.progress[file := Marks(d, file)[slug := m]])
  }

  /** Where a run stands: the disk, how many more writes it lives to make, and what it
      has inserted. A process killed has no writes left. */
  datatype Progress = Progress(disk: Disk, writesLeft: nat, killed: bool, imported: nat, inserted: seq<Candidate>)

  function Note(p: Progress, file: string, slug: string, m: Mark): Progress {
    if p.writesLeft == 0 then p.(killed := true)
    else p.(disk := Marked(p.disk, file, slug, m), writesLeft := p.writesLeft - 1)
  }

  /** One candidate. The commit and the mark after it are two separate writes. */
  function One(flags: Flags, file: string, p: Progress, c: Candidate): Progress {
    var marks := Marks(p.disk, file);
    if c.slug in marks && (marks[c.slug] == Saved || marks[c.slug] == Skipped) then p
    else if c.slug in Slugs(p.disk.venues) then Note(p, file, c.slug, Skipped)
    else
      match c.detail
      case NoPlace => Note(p, file, c.slug, Skipped)
      case FewMedia => Note(p, file, c.slug, SkippedNoImages)
      case FewImages => Note(p, file, c.slug, SkippedTooFewImages)
      case Breaks => Note(p, file, c.slug, Failed)
      case Place(_, fails) =>
        if fails then Note(p, file, c.slug, Failed)
        else if p.writesLeft == 0 then p.(killed := true)
        else
          var q := p.(disk := Commit(flags, p.disk, c), writesLeft := p.writesLeft - 1, inserted := p.inserted + [c]);
          var r := Note(q, file, c.slug, Saved);
          if r.killed then r else r.(imported := r.imported + 1)
  }

  function Loop(flags: Flags, file: string, p: Progress, cs: seq<Candidate>): Progress
    decreases |cs|
  {
    if cs == [] || p.killed || p.imported >= flags.count then p
    else Loop(flags, file, One(flags, file, p, cs[0]), cs[1..])
  }

  /** An applying run on one category: what the searches collected, the order the score
      puts it in, and after how many writes the process is killed. */
  datatype ApplyRun = ApplyRun(file: string, flags: Flags, collected: seq<Candidate>, order: seq<Candidate>, writes: nat)

  ghost predicate Possible(d: Disk, run: ApplyRun) {
    && DistinctDataIds(run.collected)
    && multiset(run.order) == multiset(Passing(run.flags, d.venues, run.collected))
  }

  function Start(d: Disk, writes: nat): Progress {
    Progress(d, writes, false, 0, [])
  }

  function AfterRun(d: Disk, run: ApplyRun): Progress {
    Loop(run.flags, run.file, Start(d, run.writes), run.order)
  }

  function AfterRuns(d: Disk, runs: seq<ApplyRun>): Disk
    decreases |runs|
  {
    if runs == [] then d else AfterRuns(AfterRun(d, runs[0]).disk, runs[1..])
  }

  ghost predicate AllPossible(d: Disk, runs: seq<ApplyRun>)
    decreases |runs|
  {
    runs == [] || (Possible(d, runs[0]) && AllPossible(AfterRun(d, runs[0]).disk, runs[1..]))
  }

  // What holds at every kill -----------------------------------------------------------

  ghost predicate VenuesUnique(venues: seq<VenueRow>) {
    forall i, j :: 0 <= i < j < |venues| ==>
      && venues[i].id != venues[j].id
      && venues[i].slug != venues[j].slug
      && (venues[i].externalId.Some? ==> venues[i].externalId != venues[j].externalId)
  }

  ghost predicate ReviewsFiled(d: Disk) {
    && UniqueKeys(d.reviews)
    && forall r :: r in d.reviews ==> exists i :: 0 <= i < |d.venues| && d.venues[i].id == r.venueId
  }

  ghost predicate Inv(d: Disk) {
    VenuesUnique(d.venues) && ReviewsFiled(d)
  }

  /** The tables a run leaves behind are made of whole transactions only. */
  ghost function CommitAll(flags: Flags, d: Disk, cs: seq<Candidate>): Disk
    requires forall c :: c in cs ==> c.detail.Place?
    decreases |cs|
  {
    if cs == [] then d else Commit(flags, CommitAll(flags, d, cs[..|cs| - 1]), cs[|cs| - 1])
  }

  ghost predicate SameTables(a: Disk, b: Disk) {
    a.venues == b.venues && a.reviews == b.reviews
  }

  lemma {:induction false} ReviewRowsFacts(venueId: Id, picked: seq<ProviderReview>)
    ensures var rows := ReviewRows(venueId, picked);
            && (forall r :: r in rows ==> r.venueId == venueId && 10 <= r.tenths <= 50)
            && UniqueKeys(rows)
            && forall p :: p in picked ==> HasReviewBy(rows, p.uid)
  {
    if picked != [] {
      var t, p := picked[..|picked| - 1], picked[|picked| - 1];
      var before, rows := ReviewRows(venueId, t), ReviewRows(venueId, picked);
      ReviewRowsFacts(venueId, t);
      if !HasReviewBy(before, p.uid) {
        assert rows[|rows| - 1].userId == p.uid;
        forall i, j | 0 <= i < j < |rows| ensures !SameKey(rows[i], rows[j].venueId, rows[j].userId) {
          assert j == |before| ==> before[i] in before;
        }
      }
      forall q | q in picked ensures HasReviewBy(rows, q.uid) {
        if q in t {
          var r :| r in before && r.userId == q.uid;
          assert r in rows;
        }
      }
    }
  }

  lemma CommitKeeps(flags: Flags, d: Disk, c: Candidate)
    requires Inv(d) && c.detail.Place? && c.slug !in Slugs(d.venues) && c.dataId !in ExternalIds(d.venues)
    ensures Inv(Commit(flags, d, c))
  {
    hide ReviewRows, Picked, NextId, ImportedAggregate;
    var after, rows := Commit(flags, d, c), NewRows(flags, d, c);
    ReviewRowsFacts(NextId(d), Picked(c.detail.reviewList, flags.maxReviews));
    forall i, j | 0 <= i < j < |after.venues|
      ensures after.venues[i].id != after.venues[j].id && after.venues[i].slug != after.venues[j].slug
              && (after.venues[i].externalId.Some? ==> after.venues[i].externalId != after.venues[j].externalId)
    {
      assert after.venues[i] in d.venues;
    }
    forall r | r in after.reviews ensures exists i :: 0 <= i < |after.venues| && after.venues[i].id == r.venueId {
      if r in d.reviews {
        var i :| 0 <= i < |d.venues| && d.venues[i].id == r.venueId;
        assert after.venues[i].id == r.venueId;
      } else {
        assert r in rows && after.venues[|d.venues|].id == r.venueId;
      }
    }
    forall i, j | 0 <= i < j < |after.reviews|
      ensures !SameKey(after.reviews[i], after.reviews[j].venueId, after.reviews[j].userId)
    {
      if i < |d.reviews| <= j {
        assert d.reviews[i] in d.reviews && rows[j - |d.reviews|] in rows;
        var k :| 0 <= k < |d.venues| && d.venues[k].id == d.reviews[i].venueId;
        assert d.venues[k] in d.venues;
      }
    }
  }

  /** What one candidate can do: nothing to the tables, or one whole commit of a
      candidate whose slug was free. */
  lemma OneEffect(flags: Flags, file: string, p: Progress, c: Candidate)
    requires !p.killed
    ensures var q := One(flags, file, p, c);
            || (SameTables(q.disk, p.disk) && q.inserted == p.inserted && q.imported == p.imported)
            || (&& c.detail.Place? && c.slug !in Slugs(p.disk.venues)
                && SameTables(q.disk, Commit(flags, p.disk, c)) && q.inserted == p.inserted + [c]
                && q.imported == p.imported + (if q.killed then 0 else 1))
  {
    hide Picked, ReviewRows, NextId, ImportedAggregate;
  }

  ghost predicate Ahead(venues: seq<VenueRow>, cs: seq<Candidate>) {
    DistinctDataIds(cs) && forall c :: c in cs ==> c.dataId !in ExternalIds(venues)
  }

  lemma AheadAfter(flags: Flags, before: Disk, after: Disk, c: Candidate, rest: seq<Candidate>)
    requires Ahead(before.venues, [c] + rest)
    requires SameTables(after, before) || (c.detail.Place? && SameTables(after, Commit(flags, before, c)))
    ensures Ahead(after.venues, rest)
  {
    hide Picked, ReviewRows, NextId, ImportedAggregate;
    var cs := [c] + rest;
    forall i, j | 0 <= i < j < |rest| ensures rest[i].dataId != rest[j].dataId {
      assert cs[i + 1] == rest[i] && cs[j + 1] == rest[j];
    }
    forall r | r in rest ensures r.dataId !in ExternalIds(after.venues) {
      assert r in cs;
      var i :| 0 <= i < |rest| && rest[i] == r;
      assert cs[0] == c && cs[i + 1] == r;
    }
  }

  ghost predicate LoopOk(flags: Flags, start: Disk, p: Progress) {
    && Inv(p.disk)
    && (forall c :: c in p.inserted ==> c.detail.Place?)
    && SameTables(p.disk, CommitAll(flags, start, p.inserted))
    && |p.inserted| == p.imported + (if |p.inserted| > p.imported then 1 else 0)
    && (!p.killed ==> |p.inserted| == p.imported)
    && |p.inserted| <= flags.count
  }

  lemma OneKeeps(flags: Flags, file: string, start: Disk, p: Progress, c: Candidate, rest: seq<Candidate>)
    requires !p.killed && p.imported < flags.count && LoopOk(flags, start, p) && Ahead(p.disk.venues, [c] + rest)
    ensures LoopOk(flags, start, One(flags, file, p, c)) && Ahead(One(flags, file, p, c).disk.venues, rest)
  {
    hide One, Inv, Ahead;
    var q := One(flags, file, p, c);
    OneEffect(flags, file, p, c);
    AheadAfter(flags, p.disk, q.disk, c, rest);
    if q.inserted == p.inserted {
      SameTablesInv(p.disk, q.disk);
    } else {
      assert c.dataId !in ExternalIds(p.disk.venues) by { AheadFirst(p.disk.venues, c, rest); }
      CommitKeeps(flags, p.disk, c);
      SameTablesInv(Commit(flags, p.disk, c), q.disk);
      assert q.inserted[..|q.inserted| - 1] == p.inserted;
      CommitReadsTables(flags, p.disk, CommitAll(flags, start, p.inserted), c);
    }
  }

  lemma AheadFirst(venues: seq<VenueRow>, c: Candidate, rest: seq<Candidate>)
    requires Ahead(venues, [c] + rest)
    ensures c.dataId !in ExternalIds(venues)
  {
    assert c in [c] + rest;
  }

  lemma SameTablesInv(a: Disk, b: Disk)
    requires Inv(a) && SameTables(b, a)
    ensures Inv(b)
  {
  }

  lemma CommitReadsTables(flags: Flags, a: Disk, b: Disk, c: Candidate)
    requires SameTables(a, b) && c.detail.Place?
    ensures SameTables(Commit(flags, a, c), Commit(flags, b, c))
  {
  }

  lemma {:induction false} LoopKeeps(flags: Flags, file: string, start: Disk, p: Progress, cs: seq<Candidate>)
    requires LoopOk(flags, start, p) && Ahead(p.disk.venues, cs)
    ensures LoopOk(flags, start, Loop(flags, file, p, cs))
    decreases |cs|
  {
    hide One, LoopOk, Ahead;
    if cs != [] && !p.killed && p.imported < flags.count {
      assert cs == [cs[0]] + cs[1..];
      OneKeeps(flags, file, start, p, cs[0], cs[1..]);
      LoopKeeps(flags, file, start, One(flags, file, p, cs[0]), cs[1..]);
    }
  }

  lemma NoneDistinct()
    ensures DistinctDataIds([])
  {
  }

  lemma DistinctWithout(cs: seq<Candidate>, k: nat)
    requires DistinctDataIds(cs) && k < |cs|
    ensures var rest := cs[..k] + cs[k + 1..];
            DistinctDataIds(rest) && forall c :: c in rest ==> c.dataId != cs[k].dataId
  {
    var rest := cs[..k] + cs[k + 1..];
    forall i | 0 <= i < |rest| ensures rest[i] == cs[if i < k then i else i + 1] {
    }
  }

  lemma DistinctWith(cs: seq<Candidate>, c: Candidate)
    requires DistinctDataIds(cs) && forall x :: x in cs ==> x.dataId != c.dataId
    ensures DistinctDataIds(cs + [c])
  {
    var all := cs + [c];
    forall i, j | 0 <= i < j < |all| ensures all[i].dataId != all[j].dataId {
      assert cs[i] in cs;
    }
  }

  lemma {:induction false} PermutedDistinct(a: seq<Candidate>, b: seq<Candidate>)
    requires multiset(a) == multiset(b) && DistinctDataIds(b)
    ensures DistinctDataIds(a)
  {
    hide DistinctDataIds;
    NoneDistinct();
    if a != [] {
      var k, front, rest := PermutationPartner(a, b);
      DistinctWithout(b, k);
      PermutedDistinct(front, rest);
      DistinctWith(front, a[|a| - 1]);
      assert a == front + [a[|a| - 1]];
    }
  }

  lemma {:induction false} FilterDistinct(cs: seq<Candidate>, p: Candidate -> bool)
    requires DistinctDataIds(cs)
    ensures DistinctDataIds(Filter(cs, p))
  {
    if cs != [] {
      var t := cs[1..];
      FilterDistinct(t, p);
      assert forall c :: c in t ==> c.dataId != cs[0].dataId;
    }
  }

  lemma PassingAhead(d: Disk, run: ApplyRun)
    requires Possible(d, run)
    ensures Ahead(d.venues, run.order)
  {
    var passing := Passing(run.flags, d.venues, run.collected);
    FilterDistinct(run.collected, GoodAndNew(run.flags, d.venues));
    PermutedDistinct(run.order, passing);
    forall c | c in run.order ensures c.dataId !in ExternalIds(d.venues) {
      assert c in multiset(passing);
      assert c in passing && GoodAndNew(run.flags, d.venues)(c);
    }
  }

  /** A run killed anywhere leaves the tables sound and made of whole imports, at most
      `count` of them: a venue is there with all its reviews, or not at all. */
  lemma RunIsWhole(d: Disk, run: ApplyRun)
    requires Inv(d) && Possible(d, run)
    ensures var end := AfterRun(d, run);
            && Inv(end.disk)
            && |end.inserted| <= run.flags.count
            && (forall c :: c in end.inserted ==> c.detail.Place?)
            && SameTables(end.disk, CommitAll(run.flags, d, end.inserted))
  {
    hide Loop, Inv;
    PassingAhead(d, run);
    LoopKeeps(run.flags, run.file, d, Start(d, run.writes), run.order);
  }

  /** After any sequence of runs, each killed anywhere, no slug and no provider id is
      there twice, soft-deleted venues included, and no account reviews a venue twice. */
  lemma {:induction false} ImportedAtMostOnce(d: Disk, runs: seq<ApplyRun>)
    requires Inv(d) && AllPossible(d, runs)
    ensures Inv(AfterRuns(d, runs))
    decreases |runs|
  {
    hide Inv, AfterRun, Possible;
    if runs != [] {
      RunIsWhole(d, runs[0]);
      ImportedAtMostOnce(AfterRun(d, runs[0]).disk, runs[1..]);
    }
  }

  // Resuming ------------------------------------------------------------------------

  /** A mark `saved` is never written before its venue is there. */
  ghost predicate MarksTruthful(d: Disk) {
    forall file, slug :: file in d.progress && slug in d.progress[file] && d.progress[file][slug] == Saved ==>
      slug in Slugs(d.venues)
  }

  lemma CommitAddsSlug(flags: Flags, d: Disk, c: Candidate)
    requires c.detail.Place?
    ensures Slugs(Commit(flags, d, c).venues) == Slugs(d.venues) + {c.slug}
  {
    hide ReviewRows, Picked, NextId, ImportedAggregate;
    var after := Commit(flags, d, c).venues;
    assert after[|d.venues|] in after;
    assert forall v :: v in d.venues ==> v in after;
  }

  lemma OneTruthful(flags: Flags, file: string, p: Progress, c: Candidate)
    requires MarksTruthful(p.disk)
    ensures MarksTruthful(One(flags, file, p, c).disk)
  {
    hide Commit, Slugs;
    if c.detail.Place? { CommitAddsSlug(flags, p.disk, c); CommitKeepsProgress(flags, p.disk, c); }
  }

  lemma CommitKeepsProgress(flags: Flags, d: Disk, c: Candidate)
    requires c.detail.Place?
    ensures Commit(flags, d, c).progress == d.progress
  {
  }

  lemma {:induction false} LoopTruthful(flags: Flags, file: string, p: Progress, cs: seq<Candidate>)
    requires MarksTruthful(p.disk)
    ensures MarksTruthful(Loop(flags, file, p, cs).disk)
    decreases |cs|
  {
    hide One, MarksTruthful;
    if cs != [] && !p.killed && p.imported < flags.count {
      OneTruthful(flags, file, p, cs[0]);
      LoopTruthful(flags, file, One(flags, file, p, cs[0]), cs[1..]);
    }
  }

  lemma {:induction false} RunsTruthful(d: Disk, runs: seq<ApplyRun>)
    requires MarksTruthful(d)
    ensures MarksTruthful(AfterRuns(d, runs))
    decreases |runs|
  {
    hide Loop, MarksTruthful;
    if runs != [] {
      LoopTruthful(runs[0].flags, runs[0].file, Start(d, runs[0].writes), runs[0].order);
      RunsTruthful(AfterRun(d, runs[0]).disk, runs[1..]);
    }
  }

  function MarkOf(d: Disk, file: string, slug: string): Option<Mark> {
    if file in d.progress && slug in d.progress[file] then Some(d.progress[file][slug]) else None
  }

  /** The marks that make a run pass over a slug. */
  predicate Final(m: Option<Mark>) {
    m == Some(Saved) || m == Some(Skipped)
  }

  /** The mark a candidate gets that is looked at: skipped for good only when its slug is in
      the table or the provider has no page for it, failed exactly on an exception or a
      failing transaction. */
  function DueMark(there: bool, detail: Detail): Mark {
    if there then Skipped
    else
      match detail
      case NoPlace => Skipped
      case FewMedia => SkippedNoImages
      case FewImages => SkippedTooFewImages
      case Breaks => Failed
      case Place(_, transactionFails) => if transactionFails then Failed else Saved
  }

  /** One turn: a slug marked saved or skipped is passed over; any other gets the mark due,
      and only that, unless the process dies first; and its row, if it is one to import. */
  lemma TurnDoes(flags: Flags, file: string, p: Progress, c: Candidate)
    requires !p.killed
    ensures var (q, was, there) := (One(flags, file, p, c), MarkOf(p.disk, file, c.slug), c.slug in Slugs(p.disk.venues));
            && (Final(was) ==> q == p)
            && (!Final(was) ==> MarkOf(q.disk, file, c.slug) == if q.killed then was else Some(DueMark(there, c.detail)))
            && (forall f, s :: f != file || s != c.slug ==> MarkOf(q.disk, f, s) == MarkOf(p.disk, f, s))
            && (!Final(was) && !q.killed && DueMark(there, c.detail) == Saved ==>
                  c.slug in Slugs(q.disk.venues) && q.imported == p.imported + 1 && q.inserted == p.inserted + [c])
            && (Final(was) || there || DueMark(there, c.detail) != Saved ==> q.disk.venues == p.disk.venues
                                                                             && q.disk.reviews == p.disk.reviews
                                                                             && q.imported == p.imported)
            && (p.writesLeft >= 2 ==> !q.killed && q.writesLeft + 2 >= p.writesLeft)
            && Slugs(p.disk.venues) <= Slugs(q.disk.venues)
  {
    hide Commit, Slugs;
    if c.detail.Place? { CommitAddsSlug(flags, p.disk, c); CommitKeepsProgress(flags, p.disk, c); }
  }

  // Coming back for what failed -------------------------------------------------------

  /** The slug is in the table, or a run on the file would still look at it. */
  ghost predicate OpenOrThere(d: Disk, file: string, slug: string) {
    slug in Slugs(d.venues) || !Final(MarkOf(d, file, slug))
  }

  /** No candidate of the slug turned out to have no page. */
  ghost predicate HasPages(cs: seq<Candidate>, slug: string) {
    forall c :: c in cs && c.slug == slug ==> !c.detail.NoPlace?
  }

  lemma TurnKeepsOpen(flags: Flags, file: string, p: Progress, c: Candidate, f: string, slug: string)
    requires !p.killed && OpenOrThere(p.disk, f, slug) && (file == f ==> HasPages([c], slug))
    ensures OpenOrThere(One(flags, file, p, c).disk, f, slug)
  {
    hide One, Slugs;
    TurnDoes(flags, file, p, c);
    assert c in [c];
  }

  lemma {:induction false} LoopKeepsOpen(flags: Flags, file: string, p: Progress, cs: seq<Candidate>, f: string, slug: string)
    requires OpenOrThere(p.disk, f, slug) && (file == f ==> HasPages(cs, slug))
    ensures OpenOrThere(Loop(flags, file, p, cs).disk, f, slug)
    decreases |cs|
  {
    hide One, OpenOrThere;
    if cs != [] && !p.killed && p.imported < flags.count {
      assert forall c :: c in [cs[0]] || c in cs[1..] ==> c in cs;
      TurnKeepsOpen(flags, file, p, cs[0], f, slug);
      LoopKeepsOpen(flags, file, One(flags, file, p, cs[0]), cs[1..], f, slug);
    }
  }

  lemma {:induction false} RunsKeepOpen(d: Disk, runs: seq<ApplyRun>, f: string, slug: string)
    requires OpenOrThere(d, f, slug)
    requires forall run :: run in runs && run.file == f ==> HasPages(run.order, slug)
    ensures OpenOrThere(AfterRuns(d, runs), f, slug)
    decreases |runs|
  {
    hide Loop, OpenOrThere, HasPages;
    if runs != [] {
      LoopKeepsOpen(runs[0].flags, runs[0].file, Start(d, runs[0].writes), runs[0].order, f, slug);
      RunsKeepOpen(AfterRun(d, runs[0]).disk, runs[1..], f, slug);
    }
  }

  lemma {:induction false} LoopKeepsSlugs(flags: Flags, file: string, p: Progress, cs: seq<Candidate>)
    ensures Slugs(p.disk.venues) <= Slugs(Loop(flags, file, p, cs).disk.venues)
    decreases |cs|
  {
    hide One, Slugs;
    if cs != [] && !p.killed && p.imported < flags.count {
      TurnDoes(flags, file, p, cs[0]);
      LoopKeepsSlugs(flags, file, One(flags, file, p, cs[0]), cs[1..]);
    }
  }

  lemma {:induction false} LoopLives(flags: Flags, file: string, p: Progress, cs: seq<Candidate>)
    requires !p.killed && p.writesLeft >= 2 * |cs|
    ensures !Loop(flags, file, p, cs).killed
    decreases |cs|
  {
    hide One, Slugs;
    if cs != [] && p.imported < flags.count {
      TurnDoes(flags, file, p, cs[0]);
      LoopLives(flags, file, One(flags, file, p, cs[0]), cs[1..]);
    }
  }

  lemma {:induction false} LoopImports(flags: Flags, file: string, p: Progress, cs: seq<Candidate>, i: nat)
    requires !p.killed && p.writesLeft >= 2 * |cs| && i < |cs|
    requires cs[i].detail.Place? && !cs[i].detail.transactionFails
    requires OpenOrThere(p.disk, file, cs[i].slug) && HasPages(cs[..i], cs[i].slug)
    ensures var end := Loop(flags, file, p, cs);
            end.imported >= flags.count || cs[i].slug in Slugs(end.disk.venues)
    decreases |cs|
  {
    if p.imported < flags.count {
      hide One, Slugs, HasPages;
      var q := One(flags, file, p, cs[0]);
      TurnDoes(flags, file, p, cs[0]);
      if i == 0 {
        LoopKeepsSlugs(flags, file, q, cs[1..]);
      } else {
        PagesOfPart(cs, i, cs[i].slug);
        TurnKeepsOpen(flags, file, p, cs[0], file, cs[i].slug);
        LoopImports(flags, file, q, cs[1..], i - 1);
      }
    }
  }

  lemma PagesOfPart(cs: seq<Candidate>, i: nat, slug: string)
    requires 0 < i <= |cs| && HasPages(cs[..i], slug)
    ensures HasPages([cs[0]], slug) && HasPages(cs[1..][..i - 1], slug)
  {
    assert cs[0] in cs[..i];
    forall c | c in cs[1..][..i - 1] ensures c in cs[..i] {
      var k :| 0 <= k < i - 1 && cs[1..][k] == c;
      assert cs[..i][k + 1] == c;
    }
  }

  /** What failed, or had too few pictures, is tried again. Take a slug that no run on the
      file has yet marked saved or skipped, whatever became of its candidates in earlier,
      possibly killed runs short of having no page at all; a later run that is left alone
      and meets a candidate with material for a row puts it into the table, unless it has
      imported `count` venues or finds an earlier candidate of the slug without a page. */
  lemma RetriedUntilImported(d: Disk, runs: seq<ApplyRun>, last: ApplyRun, i: nat)
    requires i < |last.order| && last.order[i].detail.Place? && !last.order[i].detail.transactionFails
    requires !Final(MarkOf(d, last.file, last.order[i].slug))
    requires forall run :: run in runs && run.file == last.file ==> HasPages(run.order, last.order[i].slug)
    requires HasPages(last.order[..i], last.order[i].slug)
    requires last.writes >= 2 * |last.order|
    ensures var end := AfterRun(AfterRuns(d, runs), last);
            !end.killed && (end.imported >= last.flags.count || last.order[i].slug in Slugs(end.disk.venues))
  {
    hide Loop, HasPages, Slugs;
    var before := AfterRuns(d, runs);
    RunsKeepOpen(d, runs, last.file, last.order[i].slug);
    LoopLives(last.flags, last.file, Start(before, last.writes), last.order);
    LoopImports(last.flags, last.file, Start(before, last.writes), last.order, i);
  }

  /** Whatever runs were killed before, a run that is left alone imports `count` venues, or
      has every candidate with material in the table whose slug was not marked skipped
      before and no earlier candidate of which has no page. */
  lemma ResumedRunFinishes(d: Disk, runs: seq<ApplyRun>, last: ApplyRun, i: nat)
    requires MarksTruthful(d) && last.writes >= 2 * |last.order|
    requires i < |last.order| && last.order[i].detail.Place? && !last.order[i].detail.transactionFails
    ensures var (before, slug) := (AfterRuns(d, runs), last.order[i].slug);
            var end := AfterRun(before, last);
            && !end.killed
            && (|| end.imported >= last.flags.count
                || slug in Slugs(end.disk.venues)
                || MarkOf(before, last.file, slug) == Some(Skipped)
                || exists j :: 0 <= j < i && last.order[j].slug == slug && last.order[j].detail.NoPlace?)
  {
    hide Loop, HasPages, Slugs;
    var before, slug := AfterRuns(d, runs), last.order[i].slug;
    RunsTruthful(d, runs);
    LoopLives(last.flags, last.file, Start(before, last.writes), last.order);
    if MarkOf(before, last.file, slug) != Some(Skipped)
       && forall j :: 0 <= j < i ==> !(last.order[j].slug == slug && last.order[j].detail.NoPlace?)
    {
      PagesUpTo(last.order, i, slug);
      LoopImports(last.flags, last.file, Start(before, last.writes), last.order, i);
    }
  }

  lemma PagesUpTo(cs: seq<Candidate>, i: nat, slug: string)
    requires i <= |cs| && forall j :: 0 <= j < i ==> !(cs[j].slug == slug && cs[j].detail.NoPlace?)
    ensures HasPages(cs[..i], slug)
  {
    forall c | c in cs[..i] && c.slug == slug ensures !c.detail.NoPlace? {
      var k :| 0 <= k < i && cs[..i][k] == c;
    }
  }

  // What is imported --------------------------------------------------------------------

  predicate FirstOfAuthor(list: seq<ProviderReview>, r: ProviderReview) {
    exists k :: 0 <= k < |list| && list[k] == r && forall j :: 0 <= j < k ==> list[j].author != r.author
  }

  lemma FirstOfAuthorLonger(t: seq<ProviderReview>, r: ProviderReview, q: ProviderReview)
    ensures FirstOfAuthor(t, q) ==> FirstOfAuthor(t + [r], q)
    ensures (forall x :: x in t ==> x.author != r.author) ==> FirstOfAuthor(t + [r], r)
  {
    if FirstOfAuthor(t, q) {
      var k :| 0 <= k < |t| && t[k] == q && forall j :: 0 <= j < k ==> t[j].author != q.author;
      assert (t + [r])[k] == q;
    }
    assert (t + [r])[|t|] == r;
  }

  lemma {:induction false} PickedFirst(list: seq<ProviderReview>, max: nat)
    ensures forall r :: r in Picked(list, max) ==> FirstOfAuthor(list, r)
    ensures |Picked(list, max)| < (if max == 0 then 1 else max) ==>
              forall r :: r in list ==> exists q :: q in Picked(list, max) && q.author == r.author
  {
    hide FirstOfAuthor;
    if list != [] {
      var t, r := list[..|list| - 1], list[|list| - 1];
      PickedFirst(t, max);
      var before, p := Picked(t, max), Picked(list, max);
      assert list == t + [r];
      forall q | q in p ensures FirstOfAuthor(list, q) {
        FirstOfAuthorLonger(t, r, q);
      }
      if p == before + [r] { assert p[|before|] in p; }
    }
  }

  /** The reviews taken from a place: the first of each author, as many as allowed but one
      at least, and all authors if there are fewer. */
  lemma {:induction false} PickedSpec(list: seq<ProviderReview>, max: nat)
    ensures var (p, most) := (Picked(list, max), if max == 0 then 1 else max);
            && |p| <= most
            && (forall i, j :: 0 <= i < j < |p| ==> p[i].author != p[j].author)
            && (forall r :: r in p ==> FirstOfAuthor(list, r))
            && (|p| < most ==> forall r :: r in list ==> exists q :: q in p && q.author == r.author)
  {
    hide FirstOfAuthor;
    PickedFirst(list, max);
    if list != [] {
      PickedSpec(list[..|list| - 1], max);
      var before := Picked(list[..|list| - 1], max);
      assert forall i :: 0 <= i < |before| ==> before[i] in before;
    }
  }

  lemma StarsSpec(rating: Option<real>)
    ensures rating.None? ==> Stars(rating) == 5
    ensures rating.Some? && 1.0 <= rating.value <= 5.0 ==>
              rating.value - 0.5 <= Stars(rating) as real <= rating.value + 0.5
    ensures rating.Some? && rating.value < 1.0 ==> Stars(rating) == 1
    ensures rating.Some? && rating.value > 5.0 ==> Stars(rating) == 5
  {
  }

  /** The row of a provider review: filed under its account, in whole stars, its text cut
      at four thousand characters. */
  predicate RowOf(r: Review, venueId: Id, q: ProviderReview) {
    && r.venueId == venueId && r.userId == q.uid && r.tenths == 10 * Stars(q.rating)
    && r.body == if |q.text| <= 4000 then q.text else q.text[..4000]
  }

  ghost predicate FirstOfAccount(picked: seq<ProviderReview>, r: Review, venueId: Id) {
    exists k :: 0 <= k < |picked| && RowOf(r, venueId, picked[k]) && forall j :: 0 <= j < k ==> picked[j].uid != r.userId
  }

  lemma FirstOfAccountLonger(t: seq<ProviderReview>, p: ProviderReview, r: Review, venueId: Id)
    ensures FirstOfAccount(t, r, venueId) ==> FirstOfAccount(t + [p], r, venueId)
    ensures RowOf(r, venueId, p) && (forall x :: x in t ==> x.uid != r.userId) ==> FirstOfAccount(t + [p], r, venueId)
  {
    hide RowOf;
    if FirstOfAccount(t, r, venueId) {
      var k :| 0 <= k < |t| && RowOf(r, venueId, t[k]) && forall j :: 0 <= j < k ==> t[j].uid != r.userId;
      assert (t + [p])[k] == t[k];
    }
    assert (t + [p])[|t|] == p;
  }

  lemma NewRowOf(venueId: Id, t: seq<ProviderReview>, p: ProviderReview)
    ensures var (before, rows) := (ReviewRows(venueId, t), ReviewRows(venueId, t + [p]));
            forall r :: r in rows ==> r in before || (RowOf(r, venueId, p) && !HasReviewBy(before, p.uid) && r.userId == p.uid)
  {
    hide Stars;
    assert (t + [p])[..|t|] == t;
  }

  /** The rows of a new venue: for each account, what its first review says. */
  lemma {:induction false} ReviewRowsSpec(venueId: Id, picked: seq<ProviderReview>)
    ensures forall r :: r in ReviewRows(venueId, picked) ==> FirstOfAccount(picked, r, venueId)
  {
    if picked != [] {
      hide RowOf, FirstOfAccount, ReviewRows, HasReviewBy;
      var t, p := picked[..|picked| - 1], picked[|picked| - 1];
      assert picked == t + [p];
      ReviewRowsSpec(venueId, t);
      ReviewRowsFacts(venueId, t);
      NewRowOf(venueId, t, p);
      forall r | r in ReviewRows(venueId, picked) ensures FirstOfAccount(picked, r, venueId) {
        FirstOfAccountLonger(t, p, r, venueId);
      }
    }
  }

  /** The venue of a candidate as it should be stored, with exactly its reviews. */
  ghost predicate HasImport(flags: Flags, d: Disk, c: Candidate)
    requires c.detail.Place?
  {
    exists v :: v in d.venues && ImportOf(flags, d, c, v)
  }

  ghost predicate ImportOf(flags: Flags, d: Disk, c: Candidate, v: VenueRow)
    requires c.detail.Place?
  {
    var rows := ReviewRows(v.id, Picked(c.detail.reviewList, flags.maxReviews));
    && v.slug == c.slug && v.externalId == Some(c.dataId) && !v.deleted
    && OfVenue(d.reviews, v.id) == rows && v.aggregate == ImportedAggregate(c.rating, c.reviews, rows)
  }

  lemma CommitHas(flags: Flags, d: Disk, c: Candidate)
    requires Inv(d) && c.detail.Place?
    ensures HasImport(flags, Commit(flags, d, c), c)
    ensures forall x: Candidate :: x.detail.Place? && HasImport(flags, d, x) ==> HasImport(flags, Commit(flags, d, c), x)
  {
    hide ReviewRows, Picked, NextId, ImportedAggregate, OfVenue;
    var after, rows := Commit(flags, d, c), NewRows(flags, d, c);
    ReviewRowsFacts(NextId(d), Picked(c.detail.reviewList, flags.maxReviews));
    NoReviewsYet(d, NextId(d));
    AllOfVenue(d.reviews, NextId(d));
    AllOfVenue(rows, NextId(d));
    OfVenueAppend(d.reviews, rows, NextId(d));
    var v := after.venues[|d.venues|];
    assert [] + rows == rows;
    assert v in after.venues && ImportOf(flags, after, c, v);
    forall x: Candidate | x.detail.Place? && HasImport(flags, d, x) ensures HasImport(flags, after, x) {
      var w :| w in d.venues && ImportOf(flags, d, x, w);
      assert w.id != NextId(d);
      AllOfVenue(rows, w.id);
      OfVenueAppend(d.reviews, rows, w.id);
      assert OfVenue(d.reviews, w.id) + [] == OfVenue(d.reviews, w.id);
      assert w in after.venues && ImportOf(flags, after, x, w);
    }
  }

  lemma NoReviewsYet(d: Disk, id: Id)
    requires ReviewsFiled(d) && forall v :: v in d.venues ==> v.id != id
    ensures forall r :: r in d.reviews ==> r.venueId != id
  {
  }

  lemma SameTablesHas(flags: Flags, a: Disk, b: Disk)
    requires SameTables(a, b)
    ensures forall x: Candidate :: x.detail.Place? && HasImport(flags, a, x) ==> HasImport(flags, b, x)
  {
    forall x: Candidate | x.detail.Place? && HasImport(flags, a, x) ensures HasImport(flags, b, x) {
      var w :| w in a.venues && ImportOf(flags, a, x, w);
      assert w in b.venues && ImportOf(flags, b, x, w);
    }
  }

  ghost predicate ImportsThere(flags: Flags, p: Progress, all: seq<Candidate>) {
    forall c :: c in p.inserted ==> c in all && c.detail.Place? && HasImport(flags, p.disk, c)
  }

  lemma OneImports(flags: Flags, file: string, p: Progress, c: Candidate, all: seq<Candidate>)
    requires !p.killed && Inv(p.disk) && ImportsThere(flags, p, all) && c in all
    ensures ImportsThere(flags, One(flags, file, p, c), all)
  {
    hide One, Inv, HasImport, Commit;
    var q := One(flags, file, p, c);
    OneEffect(flags, file, p, c);
    if q.inserted == p.inserted {
      SameTablesHas(flags, p.disk, q.disk);
    } else {
      CommitHas(flags, p.disk, c);
      SameTablesHas(flags, Commit(flags, p.disk, c), q.disk);
    }
  }

  lemma {:induction false} LoopImportsThere(flags: Flags, file: string, start: Disk, p: Progress, cs: seq<Candidate>, all: seq<Candidate>)
    requires LoopOk(flags, start, p) && Ahead(p.disk.venues, cs) && ImportsThere(flags, p, all)
    requires forall c :: c in cs ==> c in all
    ensures ImportsThere(flags, Loop(flags, file, p, cs), all)
    decreases |cs|
  {
    hide One, LoopOk, Ahead, ImportsThere;
    if cs != [] && !p.killed && p.imported < flags.count {
      assert cs == [cs[0]] + cs[1..];
      OneKeeps(flags, file, start, p, cs[0], cs[1..]);
      LoopSound(flags, start, p);
      OneImports(flags, file, p, cs[0], all);
      LoopImportsThere(flags, file, start, One(flags, file, p, cs[0]), cs[1..], all);
    }
  }

  lemma LoopSound(flags: Flags, start: Disk, p: Progress)
    requires LoopOk(flags, start, p)
    ensures Inv(p.disk)
  {
  }

  /** What a run inserts, wherever it is killed: only candidates it collected that are above
      both thresholds and not in the table under their provider id; and each of them is
      there, under its slug and provider id, with exactly its reviews and its blend. */
  lemma RunImportsAsCollected(d: Disk, run: ApplyRun)
    requires Inv(d) && Possible(d, run)
    ensures var end := AfterRun(d, run);
            forall c :: c in end.inserted ==>
              && c in run.collected && c.rating > run.flags.minRating && c.reviews > run.flags.minReviews
              && (forall v :: v in d.venues ==> v.externalId != Some(c.dataId))
              && c.detail.Place? && HasImport(run.flags, end.disk, c)
  {
    hide Loop, Inv, HasImport;
    var start := Start(d, run.writes);
    PassingAhead(d, run);
    assert LoopOk(run.flags, d, start);
    LoopImportsThere(run.flags, run.file, d, start, run.order, run.order);
    var end := AfterRun(d, run);
    forall c | c in end.inserted
      ensures c in run.collected && c.rating > run.flags.minRating && c.reviews > run.flags.minReviews
      ensures forall v :: v in d.venues ==> v.externalId != Some(c.dataId)
    {
      assert c in multiset(run.order);
      assert c in Passing(run.flags, d.venues, run.collected);
      assert c.dataId !in ExternalIds(d.venues);
    }
  }

  /** reset-for-import.ts empties the tables; the progress files stay behind. */
  function Reset(d: Disk): Disk {
    Disk([], [], d.progress)
  }

  /** So the marks stay truthful exactly when none of them says `saved`. */
  lemma ResetTruthfulIff(d: Disk)
    ensures Inv(Reset(d))
    ensures MarksTruthful(Reset(d)) <==>
            forall file, slug :: file in d.progress && slug in d.progress[file] ==> d.progress[file][slug] != Saved
  {
    var r := Reset(d);
    forall slug ensures slug !in Slugs(r.venues) {}
    if MarksTruthful(r) {
      forall file, slug | file in d.progress && slug in d.progress[file] ensures d.progress[file][slug] != Saved {
        assert r.progress[file][slug] == Saved ==> slug in Slugs(r.venues);
      }
    }
  }

  /** And a run of that category passes over such a slug, however good the candidate. */
  lemma {:induction false} SavedMarkBlocks(flags: Flags, file: string, p: Progress, cs: seq<Candidate>, slug: string)
    requires slug in Marks(p.disk, file) && Marks(p.disk, file)[slug] == Saved && slug !in Slugs(p.disk.venues)
    ensures slug !in Slugs(Loop(flags, file, p, cs).disk.venues)
    decreases |cs|
  {
    hide Commit, Slugs;
    if cs != [] && !p.killed && p.imported < flags.count {
      var c := cs[0];
      if c.detail.Place? { CommitAddsSlug(flags, p.disk, c); CommitKeepsProgress(flags, p.disk, c); }
      SavedMarkBlocks(flags, file, One(flags, file, p, c), cs[1..], slug);
    }
  }

  /** The figures a new venue is stored with are those the review service would compute
      from its rows, the rating to within a hundredth, and exactly when the provider's
      has two decimals. */
  lemma CommittedRatingAgrees(flags: Flags, d: Disk, c: Candidate)
    requires c.detail.Place? && c.rating >= 0.0 && c.reviews > 0
    ensures var (after, rows) := (Commit(flags, d, c), NewRows(flags, d, c));
            var (stored, due) := (after.venues[|d.venues|].aggregate,
                                  BlendRating(ImportedVenue(c.rating, c.reviews), Average(rows), |rows|));
            && stored.reviewCount == due.reviewCount
            && -1 <= stored.rating - due.rating <= 1
            && (TwoDecimals(c.rating) ==> stored == due)
  {
    hide BlendRating, ImportedAggregate, Average, ReviewRows, Picked;
    ImportClose(c.rating, c.reviews, NewRows(flags, d, c));
    if TwoDecimals(c.rating) { ImportAgrees(c.rating, c.reviews, NewRows(flags, d, c)); }
  }

  // The program -------------------------------------------------------------------------

  lemma {:induction false} SumAppend(rs: seq<Review>, r: Review)
    ensures Sum(rs + [r]) == Sum(rs) + r.tenths as real / 10.0
  {
    if rs == [] {
      assert [] + [r] == [r];
    } else {
      assert (rs + [r])[1..] == rs[1..] + [r];
      SumAppend(rs[1..], r);
    }
  }

  class Program {
    var venues: seq<VenueRow>
    var reviews: seq<Review>
    var progress: map<string, map<string, Mark>>

    function Abstract(): Disk
      reads this
    {
      Disk(venues, reviews, progress)
    }

    static method PickReviews(sorted: seq<ProviderReview>, max: nat) returns (picked: seq<ProviderReview>)
      ensures picked == Picked(sorted, max)
    {
      picked := [];
      assert sorted[..|sorted|] == sorted;
      for i := 0 to |sorted|
        invariant picked == Picked(sorted[..i], max) && (|picked| < max || picked == [])
      {
        var r := sorted[i];
        assert sorted[..i + 1][..i] == sorted[..i];
        if exists q :: q in picked && q.author == r.author {
          continue;
        }
        picked := picked + [r];
        if |picked| >= max {
          FullStaysFull(sorted, max, i + 1, |sorted|);
          break;
        }
      }
    }

    /** The review rows of the transaction, with their sum and number. */
    static method MakeReviews(venueId: Id, picked: seq<ProviderReview>)
      returns (rows: seq<Review>, sum: real, inserted: nat)
      ensures rows == ReviewRows(venueId, picked) && sum == Sum(rows) && inserted == |rows|
    {
      hide Stars, Sum;
      rows, sum, inserted := [], 0.0, 0;
      NoRows();
      for i := 0 to |picked|
        invariant rows == ReviewRows(venueId, picked[..i])
        invariant sum == Sum(rows) && inserted == |rows|
      {
        var r := picked[i];
        assert picked[..i + 1][..i] == picked[..i];
        if HasReviewBy(rows, r.uid) {
          continue;
        }
        var rating := Stars(r.rating);
        var row := Review(venueId, r.uid, 10 * rating, Slice(r.text, 0, 4000));
        SumAppend(rows, row);
        rows := rows + [row];
        sum := sum + rating as real;
        inserted := inserted + 1;
      }
      assert picked[..|picked|] == picked;
    }

    /** The body of the transaction. */
    method InsertVenue(c: Candidate, picked: seq<ProviderReview>)
      modifies this`venues, this`reviews
      ensures var (d, rows) := (old(Abstract()), ReviewRows(NextId(old(Abstract())), picked));
              && venues == d.venues + [VenueRow(NextId(d), c.slug, Some(c.dataId), false,
                                                ImportedAggregate(c.rating, c.reviews, rows))]
              && reviews == d.reviews + rows
    {
      hide NextId, ReviewRows, Sum, Mean, Times, Round;
      var venueId := NextId(Abstract());
      var v := VenueRow(venueId, c.slug, Some(c.dataId), false, Aggregate(Stored(c.rating), c.reviews));
      var rows, sum, inserted := MakeReviews(venueId, picked);
      if inserted > 0 {
        var blended := Mean(Times(c.rating, c.reviews) + Times(Mean(sum, inserted), inserted), c.reviews + inserted);
        v := v.(aggregate := Aggregate(Round(blended * 100.0), c.reviews + inserted));
      }
      venues := venues + [v];
      reviews := reviews + rows;
    }

    /** saveProgress, if the process lives to write; false when it is killed instead. */
    method SaveProgress(file: string, slug: string, m: Mark, writesLeft: nat) returns (alive: bool, left: nat)
      modifies this`progress
      ensures alive == (writesLeft > 0)
      ensures alive ==> left == writesLeft - 1 && Abstract() == Marked(old(Abstract()), file, slug, m)
      ensures !alive ==> left == 0 && progress == old(progress)
    {
      if writesLeft == 0 {
        return false, 0;
      }
      var marks := if file in progress then progress[file] else map[];
      progress := progress[file := marks[slug := m]];
      alive, left := true, writesLeft - 1;
    }

    /** One turn of the loop of phase 3. */
    method ImportOne(flags: Flags, file: string, c: Candidate, writesLeft: nat, imported: nat, ghost p: Progress)
      returns (alive: bool, left: nat, total: nat, ghost q: Progress)
      requires !p.killed && p.disk == Abstract() && p.writesLeft == writesLeft && p.imported == imported
      modifies this
      ensures q == One(flags, file, p, c)
      ensures q.disk == Abstract() && q.writesLeft == left && q.imported == total && alive == !q.killed
    {
      hide ReviewRows, Picked, NextId, ImportedAggregate;
      q := One(flags, file, p, c);
      total, left, alive := imported, writesLeft, true;
      var marks := if file in progress then progress[file] else map[];
      if c.slug in marks && (marks[c.slug] == Saved || marks[c.slug] == Skipped) {
        return;
      }
      if exists v :: v in venues && v.slug == c.slug {
        alive, left := SaveProgress(file, c.slug, Skipped, left);
        return;
      }
      assert c.slug !in Slugs(venues);
      match c.detail {
        case NoPlace =>
          alive, left := SaveProgress(file, c.slug, Skipped, left);
        case FewMedia =>
          alive, left := SaveProgress(file, c.slug, SkippedNoImages, left);
        case FewImages =>
          alive, left := SaveProgress(file, c.slug, SkippedTooFewImages, left);
        case Breaks =>
          alive, left := SaveProgress(file, c.slug, Failed, left);
        case Place(reviewList, transactionFails) =>
          var picked := PickReviews(reviewList, flags.maxReviews);
          if transactionFails {
            alive, left := SaveProgress(file, c.slug, Failed, left);
            return;
          }
          if left == 0 {
            alive := false;
            return;
          }
          InsertVenue(c, picked);
          left := left - 1;
          alive, left := SaveProgress(file, c.slug, Saved, left);
          if alive {
            total := imported + 1;
          }
      }
    }

    method ImportCategory(run: ApplyRun) returns (imported: nat)
      modifies this
      ensures Abstract() == AfterRun(old(Abstract()), run).disk
      ensures imported == AfterRun(old(Abstract()), run).imported
    {
      hide One;
      imported := 0;
      var left, alive := run.writes, true;
      ghost var p := Start(Abstract(), run.writes);
      var i := 0;
      while i < |run.order| && alive && imported < run.flags.count
        invariant 0 <= i <= |run.order|
        invariant p.disk == Abstract() && p.writesLeft == left && p.imported == imported && alive == !p.killed
        invariant AfterRun(old(Abstract()), run) == Loop(run.flags, run.file, p, run.order[i..])
      {
        assert run.order[i..][0] == run.order[i] && run.order[i..][1..] == run.order[i + 1..];
        alive, left, imported, p := ImportOne(run.flags, run.file, run.order[i], left, imported, p);
        i := i + 1;
      }
    }
  }

  lemma {:induction false} FullStaysFull(list: seq<ProviderReview>, max: nat, i: nat, k: nat)
    requires i <= k <= |list| && |Picked(list[..i], max)| >= max && Picked(list[..i], max) != []
    ensures Picked(list[..k], max) == Picked(list[..i], max)
    decreases k - i
  {
    if i < k {
      FullStaysFull(list, max, i, k - 1);
      assert list[..k][..k - 1] == list[..k - 1];
    }
  }
}
