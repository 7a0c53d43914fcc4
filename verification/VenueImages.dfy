/** Image ingestion status of a venue: the admin side (admin-venues.service.ts) and
    the background worker (uploads/venue-image-rehost.queue.ts). */
module VenueImages {
  import opened Prelude
  import opened Sequences
  import opened Text

  datatype Status = Status(pending: seq<string>, failed: seq<string>)

  datatype Venue = Venue(images: seq<string>, status: Option<Status>)

  /** What became of a download: a new address of our own, or nothing. */
  datatype Outcome = Rehosted(newUrl: string) | GaveUp

  function Pending(v: Venue): seq<string> {
    if v.status.Some? then v.status.value.pending else []
  }

  function Failed(v: Venue): seq<string> {
    if v.status.Some? then v.status.value.failed else []
  }

  function StatusOf(pending: seq<string>, failed: seq<string>): Option<Status> {
    if pending == [] && failed == [] then None else Some(Status(pending, failed))
  }

  /** The addresses kept: trimmed, blanks dropped. */
  function Cleaned(urls: seq<string>): seq<string> {
    if urls == [] then []
    else
      var last := Trim(urls[|urls| - 1]);
      Cleaned(urls[..|urls| - 1]) + if last == "" then [] else [last]
  }

  function External(own: string -> bool, images: seq<string>): seq<string> {
    Filter(images, u => !own(u))
  }

  method ClassifyImages(own: string -> bool, urls: seq<string>) returns (cleaned: seq<string>, external: seq<string>)
    ensures cleaned == Cleaned(urls) && external == External(own, cleaned)
  {
    hide Trim;
    cleaned, external := [], [];
    for i := 0 to |urls|
      invariant cleaned == Cleaned(urls[..i]) && external == External(own, cleaned)
    {
      var url := Trim(urls[i]);
      assert urls[..i + 1][..i] == urls[..i];
      if url == "" {
        continue;
      }
      FilterAppend(cleaned, [url], u => !own(u));
      cleaned := cleaned + [url];
      if !own(url) {
        external := external + [url];
      }
    }
    assert urls[..|urls|] == urls;
  }

  function Created(own: string -> bool, urls: seq<string>): Venue {
    var images := Cleaned(urls);
    Venue(images, StatusOf(External(own, images), []))
  }

  function Updated(own: string -> bool, v: Venue, urls: seq<string>): Venue {
    var images := Cleaned(urls);
    var stillPending := Filter(Pending(v), u => u in images);
    var stillFailed := Filter(Failed(v), u => u in images);
    var added := Filter(External(own, images), u => u !in stillPending && u !in stillFailed);
    Venue(images, StatusOf(stillPending + added, stillFailed))
  }

  function Retried(v: Venue): Venue {
    if Failed(v) == [] then v
    else v.(status := Some(Status(Pending(v) + Filter(Failed(v), u => u !in Pending(v)), [])))
  }

  /** Only the first occurrence of the address is swapped. */
  function Swapped(images: seq<string>, url: string, newUrl: string): seq<string> {
    if url in images && newUrl != url then images[FirstIndex(images, url) := newUrl] else images
  }

  /** The worker's report, applied to the row as it is by then. */
  function Finished(v: Venue, url: string, outcome: Outcome): Venue {
    var pending := Filter(Pending(v), u => u != url);
    match outcome
    case GaveUp =>
      Venue(v.images, StatusOf(pending, if url in Failed(v) then Failed(v) else Failed(v) + [url]))
    case Rehosted(newUrl) =>
      Venue(Swapped(v.images, url, newUrl), StatusOf(pending, Failed(v)))
  }

  /** Pending and failed split the external addresses of the gallery between them, and
      the status is absent exactly when there are none. */
  ghost predicate StatusExact(own: string -> bool, v: Venue) {
    && (v.status.Some? ==> v.status.value.pending != [] || v.status.value.failed != [])
    && (forall u :: u in Pending(v) ==> u !in Failed(v))
    && (forall u :: u in Pending(v) || u in Failed(v) <==> u in v.images && !own(u))
  }

  lemma CreatedExact(own: string -> bool, urls: seq<string>)
    ensures StatusExact(own, Created(own, urls))
  {
  }

  lemma UpdatedExact(own: string -> bool, v: Venue, urls: seq<string>)
    requires StatusExact(own, v)
    ensures StatusExact(own, Updated(own, v, urls))
  {
    hide Cleaned;
  }

  lemma RetriedExact(own: string -> bool, v: Venue)
    requires StatusExact(own, v)
    ensures StatusExact(own, Retried(v))
  {
  }

  /** Exactly when a report keeps the status right: a failure must concern an external
      address still in the gallery; a success, if its address is external and still
      there, must take away the only copy of an address not written off before. */
  ghost predicate SafeReport(own: string -> bool, v: Venue, url: string, outcome: Outcome) {
    match outcome
    case GaveUp => url in v.images && !own(url)
    case Rehosted(_) => url in v.images && !own(url) ==>
      (url in Failed(v) <==> multiset(v.images)[url] != 1)
  }

  lemma SwapRemoves(images: seq<string>, url: string, newUrl: string)
    requires url in images && newUrl != url
    ensures forall u :: u != url && u != newUrl ==> (u in Swapped(images, url, newUrl) <==> u in images)
    ensures newUrl in Swapped(images, url, newUrl)
    ensures url in Swapped(images, url, newUrl) <==> multiset(images)[url] != 1
  {
    var i := FirstIndex(images, url);
    var after := images[i := newUrl];
    assert images == images[..i] + [url] + images[i + 1..];
    assert after == images[..i] + [newUrl] + images[i + 1..];
    assert multiset(after)[url] == multiset(images)[url] - 1;
    forall u | u != url && u != newUrl ensures u in after <==> u in images {
      assert multiset(after)[u] == multiset(images)[u];
      assert u in multiset(after) <==> u in multiset(images);
    }
    assert url in after <==> url in multiset(after);
  }

  lemma FinishPending(v: Venue, url: string, outcome: Outcome)
    ensures forall u :: u in Pending(Finished(v, url, outcome)) <==> u in Pending(v) && u != url
    ensures forall u :: u in Failed(Finished(v, url, outcome)) <==> u in Failed(v) || (outcome.GaveUp? && u == url)
    ensures var after := Finished(v, url, outcome);
            after.status.Some? ==> after.status.value.pending != [] || after.status.value.failed != []
    ensures Finished(v, url, outcome).images ==
            if outcome.GaveUp? then v.images else Swapped(v.images, url, outcome.newUrl)
  {
    assert outcome.GaveUp? && url !in Failed(v) ==> (Failed(v) + [url])[|Failed(v)|] == url;
  }

  lemma GaveUpExactIff(own: string -> bool, v: Venue, url: string)
    requires StatusExact(own, v)
    ensures StatusExact(own, Finished(v, url, GaveUp)) <==> SafeReport(own, v, url, GaveUp)
  {
    hide Finished, Pending, Failed;
    FinishPending(v, url, GaveUp);
    var after := Finished(v, url, GaveUp);
    assert url in Failed(after);
    assert forall u :: u != url ==> (u in Pending(after) <==> u in Pending(v)) && (u in Failed(after) <==> u in Failed(v));
  }

  lemma RehostedExactIff(own: string -> bool, v: Venue, url: string, newUrl: string)
    requires StatusExact(own, v) && own(newUrl)
    ensures StatusExact(own, Finished(v, url, Rehosted(newUrl))) <==> SafeReport(own, v, url, Rehosted(newUrl))
  {
    hide Finished, Pending, Failed, Swapped;
    FinishPending(v, url, Rehosted(newUrl));
    var after := Finished(v, url, Rehosted(newUrl));
    if url in v.images && newUrl != url { SwapRemoves(v.images, url, newUrl); } else { NothingSwapped(v.images, url, newUrl); }
    forall u | u != url
      ensures (u in Pending(after) || u in Failed(after) <==> u in after.images && !own(u))
    {
    }
    assert url in Pending(after) || url in Failed(after) <==> url in Failed(v);
    assert StatusExact(own, after) <==> (url in Failed(v) <==> url in after.images && !own(url));
  }

  lemma NothingSwapped(images: seq<string>, url: string, newUrl: string)
    requires url !in images || newUrl == url
    ensures Swapped(images, url, newUrl) == images
  {
  }

  lemma FinishExactIff(own: string -> bool, v: Venue, url: string, outcome: Outcome)
    requires StatusExact(own, v) && (outcome.Rehosted? ==> own(outcome.newUrl))
    ensures StatusExact(own, Finished(v, url, outcome)) <==> SafeReport(own, v, url, outcome)
  {
    hide StatusExact, Finished, SafeReport;
    match outcome
    case GaveUp => GaveUpExactIff(own, v, url);
    case Rehosted(newUrl) => RehostedExactIff(own, v, url, newUrl);
  }

  // What each request does ---------------------------------------------------------

  /** The addresses kept are the trimmed ones that are not empty, each as often as listed
      and in that order. */
  lemma {:induction false} CleanedSpec(urls: seq<string>)
    ensures Cleaned(urls) == Filter(seq(|urls|, i requires 0 <= i < |urls| => Trim(urls[i])), u => u != "")
  {
    hide Trim;
    if urls != [] {
      var t, last := urls[..|urls| - 1], Trim(urls[|urls| - 1]);
      CleanedSpec(t);
      var a, b := seq(|t|, i requires 0 <= i < |t| => Trim(t[i])), seq(|urls|, i requires 0 <= i < |urls| => Trim(urls[i]));
      assert b == a + [last];
      FilterAppend(a, [last], u => u != "");
      FilterAgrees(a, u => u != "", u => u != "");
    }
  }

  /** A new venue waits for all its external addresses, as often as they are listed. */
  lemma CreatedDoes(own: string -> bool, urls: seq<string>)
    ensures var v := Created(own, urls);
            && v.images == Cleaned(urls) && Failed(v) == [] && Pending(v) == Filter(Cleaned(urls), u => !own(u))
  {
    FilterAgrees(Cleaned(urls), u => !own(u), u => !own(u));
  }

  /** New images: what was waiting or had failed and is still listed stays so, in its order;
      external addresses that are new wait behind. */
  lemma UpdatedDoes(own: string -> bool, v: Venue, urls: seq<string>)
    ensures var (after, images) := (Updated(own, v, urls), Cleaned(urls));
            && after.images == images
            && Failed(after) == Filter(Failed(v), u => u in images)
            && Filter(Pending(v), u => u in images) <= Pending(after)
            && forall u :: u in Pending(after) <==>
                 u in images && (u in Pending(v) || (!own(u) && u !in Failed(v)))
  {
    hide Cleaned;
    FilterAgrees(Failed(v), u => u in Cleaned(urls), u => u in Cleaned(urls));
    PendingOfUpdate(own, v, urls);
  }

  lemma PendingOfUpdate(own: string -> bool, v: Venue, urls: seq<string>)
    ensures var (after, images) := (Updated(own, v, urls), Cleaned(urls));
            && Filter(Pending(v), u => u in images) <= Pending(after)
            && forall u :: u in Pending(after) <==>
                 u in images && (u in Pending(v) || (!own(u) && u !in Failed(v)))
  {
    hide Cleaned;
    var images := Cleaned(urls);
    var still := Filter(Pending(v), u => u in images);
    assert still <= Pending(Updated(own, v, urls));
  }

  /** Retrying empties the failed list: what had failed waits again behind what was waiting,
      in its order and not twice, and the gallery stays. */
  lemma RetriedDoes(v: Venue)
    ensures var (after, tail) := (Retried(v), Pending(Retried(v))[|Pending(v)|..]);
            && after.images == v.images && Failed(after) == []
            && Pending(v) <= Pending(after)
            && (forall u :: u in Pending(after) <==> u in Pending(v) || u in Failed(v))
            && (forall u :: u in tail <==> u in Failed(v) && u !in Pending(v))
            && (NoDup(Failed(v)) ==> NoDup(tail))
            && (NoDup(Failed(v)) ==>
                  forall i, j :: 0 <= i < j < |tail| ==> FirstIndex(Failed(v), tail[i]) < FirstIndex(Failed(v), tail[j]))
  {
    var p := (u: string) => u !in Pending(v);
    if Failed(v) != [] {
      FilterAgrees(Failed(v), p, u => u !in Pending(v));
      assert Pending(Retried(v)) == Pending(v) + Filter(Failed(v), p);
      var tail := Pending(Retried(v))[|Pending(v)|..];
      assert tail == Filter(Failed(v), p);
      if NoDup(Failed(v)) {
        FilterNoDup(Failed(v), p);
        forall i, j | 0 <= i < j < |tail| ensures FirstIndex(Failed(v), tail[i]) < FirstIndex(Failed(v), tail[j]) {
          FilterInOrder(Failed(v), p, i, j);
        }
      }
    }
  }

  /** A report takes the address out of what waits; a failure lists it as failed, once, at
      the end; a success puts the new address in the first place of the old one. */
  lemma FinishedDoes(v: Venue, url: string, outcome: Outcome)
    ensures var after := Finished(v, url, outcome);
            && Pending(after) == Filter(Pending(v), u => u != url)
            && Failed(after) == (if outcome.GaveUp? && url !in Failed(v) then Failed(v) + [url] else Failed(v))
            && |after.images| == |v.images|
            && forall i :: 0 <= i < |v.images| ==>
                 after.images[i] == if outcome.Rehosted? && v.images[i] == url && url !in v.images[..i] then outcome.newUrl
                                    else v.images[i]
  {
    FilterAgrees(Pending(v), u => u != url, u => u != url);
    if outcome.Rehosted? && url in v.images {
      var k := FirstIndex(v.images, url);
      assert forall i :: k < i < |v.images| ==> v.images[k] in v.images[..i];
      assert forall i :: 0 <= i < k ==> v.images[i] in v.images[..k];
    }
  }

  // Runs ---------------------------------------------------------------------

  /** The row with the address its one worker is downloading. */
  datatype State = State(venue: Venue, inFlight: Option<string>)

  datatype Op =
    | Update(urls: seq<string>)
    | Retry
    | Begin // the worker takes the first pending address
    | Report(outcome: Outcome)
    | Lost // the process restarts, or the worker finds the venue deleted: no report comes
    | Refresh(images: seq<string>) // piso-verify.ts: new pictures, the status left as it is

  function Step(own: string -> bool, s: State, op: Op): State {
    match op
    case Update(urls) => s.(venue := Updated(own, s.venue, urls))
    case Retry => s.(venue := Retried(s.venue))
    case Begin =>
      if s.inFlight.None? && Pending(s.venue) != [] then s.(inFlight := Some(Pending(s.venue)[0]))
      else s
    case Report(outcome) =>
      if s.inFlight.None? then s else State(Finished(s.venue, s.inFlight.value, outcome), None)
    case Lost => s.(inFlight := None)
    case Refresh(images) => s.(venue := s.venue.(images := images))
  }

  function Run(own: string -> bool, s: State, ops: seq<Op>): State
    decreases |ops|
  {
    if ops == [] then s else Run(own, Step(own, s, ops[0]), ops[1..])
  }

  /** After a retry the idle worker has something to do. */
  lemma RetryStarts(own: string -> bool, s: State)
    requires s.inFlight.None? && Failed(s.venue) != []
    ensures var after := Run(own, s, [Retry, Begin]);
            after.inFlight.Some? && (after.inFlight.value in Pending(s.venue) || after.inFlight.value in Failed(s.venue))
  {
    hide Retried;
    RetriedDoes(s.venue);
    var next := Step(own, s, Retry);
    assert Failed(s.venue)[0] in Pending(next.venue);
    assert [Retry, Begin][1..] == [Begin] && [Begin][1..] == [];
    assert Run(own, s, [Retry, Begin]) == Run(own, next, [Begin]) == Run(own, Step(own, next, Begin), []);
  }

  ghost predicate ExternalsOnce(own: string -> bool, images: seq<string>) {
    forall u :: u in images && !own(u) ==> multiset(images)[u] == 1
  }

  /** Administrators list no external address twice, uploads are our own, no failure comes
      in for an address that has left the gallery since, and no venue is refreshed while
      anything is pending or failed. */
  ghost predicate Careful(own: string -> bool, s: State, ops: seq<Op>)
    decreases |ops|
  {
    ops == [] || (
      && (ops[0].Update? ==> ExternalsOnce(own, Cleaned(ops[0].urls)))
      && (ops[0].Report? && ops[0].outcome.Rehosted? ==> own(ops[0].outcome.newUrl))
      && (ops[0].Report? && ops[0].outcome.GaveUp? && s.inFlight.Some? ==> s.inFlight.value in s.venue.images)
      && (ops[0].Refresh? ==> s.venue.status.None? && forall u :: u in ops[0].images ==> own(u))
      && Careful(own, Step(own, s, ops[0]), ops[1..]))
  }

  ghost predicate Inv(own: string -> bool, s: State) {
    && StatusExact(own, s.venue)
    && ExternalsOnce(own, s.venue.images)
    && (s.inFlight.Some? ==> s.inFlight.value !in Failed(s.venue) && !own(s.inFlight.value))
  }

  lemma SwapKeepsOnce(own: string -> bool, images: seq<string>, url: string, newUrl: string)
    requires ExternalsOnce(own, images) && own(newUrl) && !own(url)
    ensures ExternalsOnce(own, Swapped(images, url, newUrl))
  {
    if url in images {
      var i := FirstIndex(images, url);
      assert images == images[..i] + [url] + images[i + 1..];
      assert images[i := newUrl] == images[..i] + [newUrl] + images[i + 1..];
      assert forall u :: u != newUrl && u != url ==> multiset(images[i := newUrl])[u] == multiset(images)[u];
      SwapRemoves(images, url, newUrl);
      assert forall u :: u in images <==> u in multiset(images);
    }
  }

  /** Uploaded pictures have addresses of our own. */
  ghost predicate OwnUploads(own: string -> bool, op: Op) {
    && (op.Report? && op.outcome.Rehosted? ==> own(op.outcome.newUrl))
    && (op.Refresh? ==> forall u :: u in op.images ==> own(u))
  }

  /** What keeps the status right: a report that is safe for the row as it is when it comes
      in, and a refresh only where nothing is pending or failed. */
  ghost predicate Safe(own: string -> bool, s: State, op: Op) {
    match op
    case Report(outcome) => s.inFlight.Some? ==> SafeReport(own, s.venue, s.inFlight.value, outcome)
    case Refresh(_) => s.venue.status.None?
    case _ => true
  }

  ghost predicate AllSafe(own: string -> bool, s: State, ops: seq<Op>)
    decreases |ops|
  {
    ops == [] || (Safe(own, s, ops[0]) && AllSafe(own, Step(own, s, ops[0]), ops[1..]))
  }

  ghost predicate ExactThroughout(own: string -> bool, s: State, ops: seq<Op>)
    decreases |ops|
  {
    StatusExact(own, s.venue) && (ops == [] || ExactThroughout(own, Step(own, s, ops[0]), ops[1..]))
  }

  lemma RefreshExactIff(own: string -> bool, v: Venue, images: seq<string>)
    requires StatusExact(own, v) && forall u :: u in images ==> own(u)
    ensures StatusExact(own, v.(images := images)) <==> v.status.None?
  {
    if v.status.Some? {
      var u := if v.status.value.pending != [] then v.status.value.pending[0] else v.status.value.failed[0];
      assert u in Pending(v) || u in Failed(v);
    }
  }

  lemma StepExactIff(own: string -> bool, s: State, op: Op)
    requires StatusExact(own, s.venue) && OwnUploads(own, op)
    ensures StatusExact(own, Step(own, s, op).venue) <==> Safe(own, s, op)
  {
    hide StatusExact, SafeReport, Finished, Updated, Retried;
    match op
    case Update(urls) => UpdatedExact(own, s.venue, urls);
    case Retry => RetriedExact(own, s.venue);
    case Begin =>
    case Report(outcome) =>
      if s.inFlight.Some? { FinishExactIff(own, s.venue, s.inFlight.value, outcome); }
    case Lost =>
    case Refresh(images) => RefreshExactIff(own, s.venue, images);
  }

  /** Through any interleaving of requests, refreshes and the worker, downloads lost
      included, the status is exact all along if and only if every step is safe. */
  lemma {:induction false} RunExactIff(own: string -> bool, s: State, ops: seq<Op>)
    requires StatusExact(own, s.venue) && forall i :: 0 <= i < |ops| ==> OwnUploads(own, ops[i])
    ensures ExactThroughout(own, s, ops) <==> AllSafe(own, s, ops)
    decreases |ops|
  {
    hide StatusExact, Safe, Step, OwnUploads;
    if ops != [] {
      var next := Step(own, s, ops[0]);
      StepExactIff(own, s, ops[0]);
      if StatusExact(own, next.venue) { RunExactIff(own, next, ops[1..]); } else { NotExact(own, next, ops[1..]); }
    }
  }

  lemma NotExact(own: string -> bool, s: State, ops: seq<Op>)
    requires !StatusExact(own, s.venue)
    ensures !ExactThroughout(own, s, ops)
  {
  }

  /** Which an administrator can see to: a venue born through createVenue and handled
      carefully only ever meets safe steps. */
  lemma {:induction false} CarefulRunsAreSafe(own: string -> bool, s: State, ops: seq<Op>)
    requires Inv(own, s) && Careful(own, s, ops)
    ensures AllSafe(own, s, ops) && ExactThroughout(own, s, ops)
    decreases |ops|
  {
    hide Inv, Step, Safe;
    if ops != [] {
      assert [ops[0]] + ops[1..] == ops;
      StepExact(own, s, ops[0], ops[1..]);
      CarefulRunsAreSafe(own, Step(own, s, ops[0]), ops[1..]);
    }
    InvExact(own, s);
  }

  lemma InvExact(own: string -> bool, s: State)
    requires Inv(own, s)
    ensures StatusExact(own, s.venue)
  {
  }

  lemma StepExact(own: string -> bool, s: State, op: Op, rest: seq<Op>)
    requires Inv(own, s) && Careful(own, s, [op] + rest)
    ensures Inv(own, Step(own, s, op)) && Careful(own, Step(own, s, op), rest)
    ensures Safe(own, s, op)
  {
    hide Cleaned;
    assert ([op] + rest)[0] == op && ([op] + rest)[1..] == rest;
    match op
    case Update(urls) => UpdatedExact(own, s.venue, urls);
    case Retry => RetriedExact(own, s.venue);
    case Begin =>
    case Report(outcome) =>
      if s.inFlight.Some? {
        var url := s.inFlight.value;
        FinishExactIff(own, s.venue, url, outcome);
        if outcome.Rehosted? { SwapKeepsOnce(own, s.venue.images, url, outcome.newUrl); }
      }
    case Lost =>
    case Refresh(images) => RefreshExactIff(own, s.venue, images);
  }

  lemma BornInv(own: string -> bool, urls: seq<string>)
    requires ExternalsOnce(own, Cleaned(urls))
    ensures Inv(own, State(Created(own, urls), None))
  {
    CreatedExact(own, urls);
  }

  /** Listing one external address twice loses track of the second copy: the worker
      swaps the first and clears the address from the queue. */
  lemma TwiceListedIsForgotten(own: string -> bool, x: string, y: string)
    requires !own(x) && own(y) && x != ""
    requires Trim(x) == x
    ensures var s := Run(own, State(Created(own, [x, x]), None), [Begin, Report(Rehosted(y))]);
            s.venue == Venue([y, x], None) && !StatusExact(own, s.venue)
  {
    hide Trim;
    var urls := [x, x];
    assert urls[..1] == [x];
    assert Cleaned([x]) == [x] by { assert [x][..0] == []; }
    assert Cleaned(urls) == [x, x];
    ExternalPair(own, x);
    var s0 := State(Created(own, urls), None);
    assert s0.venue == Venue([x, x], Some(Status([x, x], [])));
    var s1 := Step(own, s0, Begin);
    assert s1 == State(s0.venue, Some(x));
    var s2 := Step(own, s1, Report(Rehosted(y)));
    assert Swapped([x, x], x, y) == [y, x];
    assert Filter([x, x], u => u != x) == [];
    assert s2 == State(Venue([y, x], None), None);
    var ops := [Begin, Report(Rehosted(y))];
    assert ops[1..] == [Report(Rehosted(y))] && ops[1..][1..] == [];
    assert Run(own, s0, ops) == Run(own, s1, ops[1..]) == Run(own, s2, []);
    assert x in s2.venue.images;
  }

  lemma ExternalPair(own: string -> bool, x: string)
    requires !own(x)
    ensures External(own, [x, x]) == [x, x]
  {
    assert [x, x][1..] == [x] && [x][1..] == [];
    assert Filter([x], u => !own(u)) == [x] + Filter([], u => !own(u));
  }

  /** A failure reported after the address was taken out of the gallery leaves it in the
      failed list. */
  lemma LateFailureLingers(own: string -> bool, x: string)
    requires !own(x) && x != "" && Trim(x) == x
    ensures var s := Run(own, State(Created(own, [x]), None), [Begin, Update([]), Report(GaveUp)]);
            s.venue == Venue([], Some(Status([], [x]))) && !StatusExact(own, s.venue)
  {
    hide Trim;
    assert Cleaned([x]) == [x] by { assert [x][..0] == []; }
    assert External(own, [x]) == [x] by { assert [x][1..] == []; }
    var s0 := State(Created(own, [x]), None);
    assert s0.venue == Venue([x], Some(Status([x], [])));
    var s1 := Step(own, s0, Begin);
    assert s1 == State(s0.venue, Some(x));
    var s2 := Step(own, s1, Update([]));
    assert s2 == State(Venue([], None), Some(x)) by {
      assert Filter([x], u => u in Cleaned([])) == [];
      assert Pending(s0.venue) == [x] && Failed(s0.venue) == [];
    }
    var s3 := Step(own, s2, Report(GaveUp));
    assert s3 == State(Venue([], Some(Status([], [x]))), None) by {
      assert Pending(s2.venue) == [] && Failed(s2.venue) == [] && [] + [x] == [x];
    }
    var ops := [Begin, Update([]), Report(GaveUp)];
    assert ops[1..] == [Update([]), Report(GaveUp)] && ops[1..][1..] == [Report(GaveUp)] && ops[1..][1..][1..] == [];
    assert Run(own, s0, ops) == Run(own, s1, ops[1..]) == Run(own, s2, ops[1..][1..]) == Run(own, s3, []);
    assert x in Failed(s3.venue) && x !in s3.venue.images;
  }

  class VenueRow {
    var images: seq<string>
    var status: Option<Status>

    function Abstract(): Venue
      reads this
    {
      Venue(images, status)
    }

    constructor CreateVenue(own: string -> bool, urls: seq<string>)
      ensures Abstract() == Created(own, urls) && StatusExact(own, Abstract())
    {
      var cleaned, external := ClassifyImages(own, urls);
      images := cleaned;
      status := if |external| > 0 then Some(Status(external, [])) else None;
    }

    /** updateVenue with an image list; whether the worker must be woken. */
    method UpdateImages(own: string -> bool, urls: seq<string>) returns (enqueue: bool)
      modifies this
      ensures Abstract() == Updated(own, old(Abstract()), urls)
      ensures enqueue == (External(own, images) != [])
      ensures old(StatusExact(own, Abstract())) ==> StatusExact(own, Abstract())
    {
      hide StatusExact;
      if StatusExact(own, Abstract()) { UpdatedExact(own, Abstract(), urls); }
      var cleaned, external := ClassifyImages(own, urls);
      var before := Abstract();
      var stillPending := Filter(Pending(before), u => u in cleaned);
      var stillFailed := Filter(Failed(before), u => u in cleaned);
      var added := Filter(external, u => u !in stillPending && u !in stillFailed);
      FilterAgrees(Pending(before), u => u in cleaned, u => u in Cleaned(urls));
      FilterAgrees(Failed(before), u => u in cleaned, u => u in Cleaned(urls));
      var pending := stillPending + added;
      images := cleaned;
      status := if pending == [] && stillFailed == [] then None else Some(Status(pending, stillFailed));
      enqueue := |external| > 0;
      ghost var p, f := stillPending, stillFailed;
      FilterAgrees(external, u => u !in stillPending && u !in stillFailed, u => u !in p && u !in f);
    }

    method RetryFailedImages(ghost own: string -> bool)
      modifies this`status
      ensures Abstract() == Retried(old(Abstract()))
      ensures Failed(Abstract()) == []
      ensures forall u :: u in Pending(Abstract()) <==> u in Pending(old(Abstract())) || u in Failed(old(Abstract()))
      ensures old(StatusExact(own, Abstract())) ==> StatusExact(own, Abstract())
    {
      hide StatusExact;
      if StatusExact(own, Abstract()) { RetriedExact(own, Abstract()); }
      var before := Abstract();
      var failed := Failed(before);
      if |failed| == 0 {
        return;
      }
      FilterAgrees(failed, u => u !in Pending(before), u => u !in Pending(before));
      status := Some(Status(Pending(before) + Filter(failed, u => u !in Pending(before)), []));
    }

    /** The worker's `advance`. */
    method Advance(ghost own: string -> bool, url: string, outcome: Outcome)
      requires outcome.Rehosted? ==> own(outcome.newUrl)
      modifies this
      ensures Abstract() == Finished(old(Abstract()), url, outcome)
      ensures old(StatusExact(own, Abstract())) ==>
                (StatusExact(own, Abstract()) <==> SafeReport(own, old(Abstract()), url, outcome))
    {
      hide StatusExact, SafeReport;
      if StatusExact(own, Abstract()) { FinishExactIff(own, Abstract(), url, outcome); }
      var before := Abstract();
      var pending := Filter(Pending(before), u => u != url);
      var failed := Failed(before);
      FilterAgrees(Pending(before), u => u != url, u => u != url);
      match outcome {
        case GaveUp =>
          if url !in failed {
            failed := failed + [url];
          }
        case Rehosted(newUrl) =>
          if newUrl != url && url in images {
            var idx := FirstIndex(images, url);
            images := images[..idx] + [newUrl] + images[idx + 1..];
            assert images == before.images[idx := newUrl];
          }
      }
      status := if pending == [] && failed == [] then None else Some(Status(pending, failed));
    }
  }
}
