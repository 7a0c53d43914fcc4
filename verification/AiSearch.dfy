/** src/modules/ai-search: the ranked result list, its cache and its pages. */
module AiSearch {
  import opened Prelude
  import opened Sequences
  import opened Text

  const DEFAULT_RESULT_COUNT := 12
  const MAX_RESULT_COUNT := 30
  const RERANK_WINDOW := 30

  datatype Venue = Venue(id: Id, isPublished: bool, deleted: bool, content: string)

  datatype Intent = Intent(
    kind: string,
    citySlugs: seq<string>,
    categories: seq<string>,
    vibeTags: seq<string>,
    audience: Option<string>,
    timeOfDay: Option<string>,
    cuisine: Option<string>,
    nearLandmark: Option<string>,
    wardQuery: Option<string>,
    priceMax: Option<int>,
    priceMin: Option<int>,
    ratingMin: Option<real>,
    durationDays: Option<int>,
    resultCount: Option<int>)

  // The reranker ---------------------------------------------------------

  /** What the model sends back: nothing usable, or a pick list (None when `top` is
      not an array) and an opening text. The picks may be any strings. */
  datatype Reply = NoReply | Reply(top: Option<seq<Id>>, intro: Option<string>)

  datatype Ranking = Ranking(ids: seq<Id>, intro: string)

  /** Picks that were offered, each once, in pick order. */
  function Accepted(picks: seq<Id>, offered: seq<Id>): seq<Id> {
    Filter(FirstOccurrences(picks), id => id in offered)
  }

  /** Null when the list is short, the reply unusable, no pick survives or the intro is blank. */
  function Rerank(candidates: seq<Id>, reply: Reply): Option<Ranking> {
    if |candidates| <= 2 || reply.NoReply? || reply.top.None? then None
    else
      var ids := Accepted(reply.top.value, Slice(candidates, 0, RERANK_WINDOW));
      var intro := Slice(Trim(reply.intro.GetOr("")), 0, 600);
      if ids == [] || intro == "" then None else Some(Ranking(ids, intro))
  }

  function Tail(candidates: seq<Id>, ranked: seq<Id>): seq<Id> {
    Filter(candidates, id => id !in ranked)
  }

  /** The whole list before the cap. */
  function Ordered(candidates: seq<Id>, reply: Reply): seq<Id> {
    match Rerank(Slice(candidates, 0, RERANK_WINDOW), reply)
    case Some(r) => r.ids + Tail(candidates, r.ids)
    case None => candidates
  }

  lemma SliceSubset<T>(s: seq<T>, n: nat)
    ensures forall x :: x in Slice(s, 0, n) ==> x in s
    ensures NoDup(s) ==> NoDup(Slice(s, 0, n))
  {
  }

  lemma AcceptedFacts(picks: seq<Id>, offered: seq<Id>)
    ensures NoDup(Accepted(picks, offered))
    ensures forall id :: id in Accepted(picks, offered) <==> id in picks && id in offered
  {
    FirstOccurrencesNoDup(picks);
    FilterNoDup(FirstOccurrences(picks), id => id in offered);
  }

  /** Whatever the model answers, no candidate is lost, invented or repeated, and the
      accepted picks come before all others. */
  lemma OrderedIsPermutation(candidates: seq<Id>, reply: Reply)
    requires NoDup(candidates)
    ensures NoDup(Ordered(candidates, reply))
    ensures multiset(Ordered(candidates, reply)) == multiset(candidates)
    ensures var ranking := Rerank(Slice(candidates, 0, RERANK_WINDOW), reply);
            ranking.Some? ==>
              && reply.Reply? && reply.top.Some? && ranking.value.ids <= Ordered(candidates, reply)
              && forall id :: id in ranking.value.ids <==>
                   id in reply.top.value && id in Slice(candidates, 0, RERANK_WINDOW)
  {
    var window := Slice(candidates, 0, RERANK_WINDOW);
    match Rerank(window, reply)
    case None =>
    case Some(r) =>
      assert Slice(window, 0, RERANK_WINDOW) == window;
      AcceptedFacts(reply.top.value, window);
      SliceSubset(candidates, RERANK_WINDOW);
      FilterNoDup(candidates, id => id !in r.ids);
      NoDupAppend(r.ids, Tail(candidates, r.ids));
      SameElemsSameMultiset(Ordered(candidates, reply), candidates);
  }

  /** The accepted picks stand in the order the model first named them. */
  lemma PicksInOrder(picks: seq<Id>, offered: seq<Id>, i: nat, j: nat)
    requires i < j < |Accepted(picks, offered)|
    ensures var ids := Accepted(picks, offered);
            ids[i] in picks && ids[j] in picks && FirstIndex(picks, ids[i]) < FirstIndex(picks, ids[j])
  {
    var ids, once := Accepted(picks, offered), FirstOccurrences(picks);
    FirstOccurrencesNoDup(picks);
    FilterInOrder(once, id => id in offered, i, j);
    FirstOccurrencesInOrder(picks, FirstIndex(once, ids[i]), FirstIndex(once, ids[j]));
  }

  /** The rest keep the filter order. */
  lemma TailInOrder(candidates: seq<Id>, ranked: seq<Id>, i: nat, j: nat)
    requires NoDup(candidates) && i < j < |Tail(candidates, ranked)|
    ensures var tail := Tail(candidates, ranked);
            tail[i] in candidates && tail[j] in candidates
            && FirstIndex(candidates, tail[i]) < FirstIndex(candidates, tail[j])
  {
    FilterInOrder(candidates, id => id !in ranked, i, j);
  }

  /** An explicit count caps the list, at most four first pages deep. */
  function Cap(ids: seq<Id>, resultCount: Option<int>): seq<Id> {
    if resultCount.Some? && resultCount.value > 0
    then Slice(ids, 0, if resultCount.value < MAX_RESULT_COUNT * 4 then resultCount.value else MAX_RESULT_COUNT * 4)
    else ids
  }

  function ClampResultCount(requested: Option<int>): (k: nat)
    ensures 1 <= k <= MAX_RESULT_COUNT
  {
    if requested.None? || requested.value <= 0 then DEFAULT_RESULT_COUNT
    else if requested.value < MAX_RESULT_COUNT then requested.value else MAX_RESULT_COUNT
  }

  // Pages ------------------------------------------------------------------

  predicate Visible(venues: map<Id, Venue>, id: Id) {
    id in venues && venues[id].isPublished && !venues[id].deleted
  }

  /** hydrateByIds: the current rows of the ids that are published, in the order asked. */
  function Hydrate(venues: map<Id, Venue>, ids: seq<Id>): (rows: seq<Venue>)
    ensures |rows| <= |ids|
  {
    if ids == [] then []
    else (if Visible(venues, ids[0]) then [venues[ids[0]]] else []) + Hydrate(venues, ids[1..])
  }

  lemma {:induction false} HydrateAppend(venues: map<Id, Venue>, a: seq<Id>, b: seq<Id>)
    ensures Hydrate(venues, a + b) == Hydrate(venues, a) + Hydrate(venues, b)
  {
    if a == [] {
      assert a + b == b;
    } else {
      assert (a + b)[1..] == a[1..] + b;
      HydrateAppend(venues, a[1..], b);
    }
  }

  /** Hydration is exactly the published part of the list, nothing lost or repeated. */
  lemma {:induction false} HydrateIsPublishedPart(venues: map<Id, Venue>, ids: seq<Id>)
    requires forall id :: id in venues ==> venues[id].id == id
    ensures |Hydrate(venues, ids)| == |Filter(ids, id => Visible(venues, id))|
    ensures forall i :: 0 <= i < |Hydrate(venues, ids)| ==>
              Hydrate(venues, ids)[i].id == Filter(ids, id => Visible(venues, id))[i]
  {
    if ids != [] { HydrateIsPublishedPart(venues, ids[1..]); }
  }

  function ClampLimit(limit: int): (l: nat)
    ensures 1 <= l <= 24
  {
    if limit < 1 then 1 else if limit > 24 then 24 else limit
  }

  function MorePage(venues: map<Id, Venue>, ids: seq<Id>, offset: int, limit: int): seq<Venue> {
    var o := if offset < 0 then 0 else offset;
    Hydrate(venues, Slice(ids, o, o + ClampLimit(limit)))
  }

  /** What a client sees that asks for page after page, moving on by each limit. */
  function Pages(venues: map<Id, Venue>, ids: seq<Id>, offset: nat, limits: seq<int>): seq<Venue>
    decreases |limits|
  {
    if limits == [] then []
    else MorePage(venues, ids, offset, limits[0]) + Pages(venues, ids, offset + ClampLimit(limits[0]), limits[1..])
  }

  function Reach(offset: nat, limits: seq<int>): nat
    decreases |limits|
  {
    if limits == [] then offset else Reach(offset + ClampLimit(limits[0]), limits[1..])
  }

  lemma SliceSplit<T>(s: seq<T>, a: nat, b: nat)
    requires a <= b
    ensures Slice(s, 0, a) + Slice(s, a, b) == Slice(s, 0, b)
  {
  }

  lemma SliceAll<T>(s: seq<T>, n: nat)
    ensures n >= |s| ==> Slice(s, 0, n) == s
  {
  }

  /** The first page and the pages after it add up to the published part of the list
      up to where the client got. */
  lemma {:induction false} PagesAddUp(venues: map<Id, Venue>, ids: seq<Id>, first: nat, limits: seq<int>)
    ensures Hydrate(venues, Slice(ids, 0, first)) + Pages(venues, ids, first, limits)
            == Hydrate(venues, Slice(ids, 0, Reach(first, limits)))
    decreases |limits|
  {
    hide Hydrate, Slice, ClampLimit;
    if limits == [] {
      assert Hydrate(venues, Slice(ids, 0, first)) + [] == Hydrate(venues, Slice(ids, 0, first));
    } else {
      var next := first + ClampLimit(limits[0]);
      SliceSplit(ids, first, next);
      HydrateAppend(venues, Slice(ids, 0, first), Slice(ids, first, next));
      PagesAddUp(venues, ids, next, limits[1..]);
      var h, m := Hydrate(venues, Slice(ids, 0, first)), MorePage(venues, ids, first, limits[0]);
      assert h + (m + Pages(venues, ids, next, limits[1..])) == (h + m) + Pages(venues, ids, next, limits[1..]);
    }
  }

  // Cache and requests -------------------------------------------------------

  datatype Payload = Payload(intent: Intent, venueIds: seq<Id>, intro: Option<string>, usedReranker: bool)

  datatype Row = Row(payload: Payload, createdAt: int, hitCount: nat, lastAccessedAt: int)

  /** Normalising and hashing a query is left abstract; so is the lifetime setting. */
  datatype Config = Config(key: string -> string, ttlSeconds: int)

  predicate FreshAt(cfg: Config, row: Row, now: int) {
    now - row.createdAt <= cfg.ttlSeconds * 1000
  }

  function CacheGet(cfg: Config, rows: map<string, Row>, now: int, query: string): Option<Payload> {
    var k := cfg.key(query);
    if k in rows && FreshAt(cfg, rows[k], now) then Some(rows[k].payload) else None
  }

  /** A hit bumps the counters of its row. */
  function CacheTouch(cfg: Config, rows: map<string, Row>, now: int, query: string): map<string, Row> {
    var k := cfg.key(query);
    if k in rows && FreshAt(cfg, rows[k], now)
    then rows[k := rows[k].(hitCount := rows[k].hitCount + 1, lastAccessedAt := now)] else rows
  }

  function CacheSet(cfg: Config, rows: map<string, Row>, now: int, query: string, p: Payload): map<string, Row> {
    var k := cfg.key(query);
    rows[k := Row(p, now, if k in rows then rows[k].hitCount else 0, now)]
  }

  datatype Source = FromCache | Fresh | Fallback

  datatype Response = Response(
    query: string,
    intent: Option<Intent>,
    venues: seq<Venue>,
    intro: Option<string>,
    source: Source,
    redirectTo: Option<string>,
    searchId: Option<string>,
    totalMatched: Option<nat>)

  /** A search with everything its collaborators answer on the way. */
  datatype Request = Request(
    rawQuery: string,
    currentCitySlug: Option<string>,
    parsed: Option<Intent>,
    knownCities: set<string>,
    candidates: seq<Id>, // filter retrieval for the scoped intent
    reply: Reply,
    keywordHits: seq<Venue>,
    cacheWriteFails: bool)

  function CacheQuery(rawQuery: string, city: Option<string>): string {
    if city.Some? && city.value != "" then "[city:" + city.value + "] " + Trim(rawQuery) else Trim(rawQuery)
  }

  function Scoped(intent: Intent, req: Request): Intent {
    var city := req.currentCitySlug;
    var a := if intent.citySlugs == [] && city.Some? && city.value != "" && city.value in req.knownCities
             then intent.(citySlugs := [city.value]) else intent;
    if a.citySlugs == [] && a.categories != [] then a.(citySlugs := ["ho-chi-minh"]) else a
  }

  /** The city page that serves a plain "city and perhaps one category" query better. */
  function ShortcutUrl(i: Intent): Option<string> {
    if i.kind == "specific_venue" || |i.citySlugs| != 1 || |i.categories| > 1 || i.vibeTags != []
       || i.audience.Some? || i.timeOfDay.Some? || i.cuisine.Some? || i.nearLandmark.Some? || i.wardQuery.Some?
       || i.priceMax.Some? || i.priceMin.Some? || i.ratingMin.Some?
       || (i.durationDays.Some? && i.durationDays.value > 0)
    then None
    else Some("/c/" + i.citySlugs[0] + if |i.categories| == 1 then "?category=" + i.categories[0] else "")
  }

  function FallbackResponse(req: Request, intent: Option<Intent>): Response {
    Response(Trim(req.rawQuery), intent, req.keywordHits, None, Fallback, None, None, None)
  }

  function PageResponse(cfg: Config, venues: map<Id, Venue>, req: Request, p: Payload, source: Source): Response {
    var first := Slice(p.venueIds, 0, ClampResultCount(p.intent.resultCount));
    Response(Trim(req.rawQuery), Some(p.intent), Hydrate(venues, first), p.intro, source, None,
             Some(cfg.key(CacheQuery(req.rawQuery, req.currentCitySlug))), Some(|p.venueIds|))
  }

  function FreshPayload(intent: Intent, req: Request): Payload {
    var ranking := Rerank(Slice(req.candidates, 0, RERANK_WINDOW), req.reply);
    Payload(intent, Cap(Ordered(req.candidates, req.reply), intent.resultCount),
            if ranking.Some? then Some(ranking.value.intro) else None, ranking.Some?)
  }

  datatype Answer = Answer(response: Response, rows: map<string, Row>)

  function Search(cfg: Config, venues: map<Id, Venue>, rows: map<string, Row>, now: int, req: Request): Answer {
    var query, cacheQuery := Trim(req.rawQuery), CacheQuery(req.rawQuery, req.currentCitySlug);
    if query == "" then Answer(Response("", None, [], None, Fresh, None, None, None), rows)
    else
      match CacheGet(cfg, rows, now, cacheQuery)
      case Some(p) =>
        Answer(PageResponse(cfg, venues, req, p, FromCache), CacheTouch(cfg, rows, now, cacheQuery))
      case None =>
        if req.parsed.None? then Answer(FallbackResponse(req, None), rows)
        else
          var intent := Scoped(req.parsed.value, req);
          var shortcut := ShortcutUrl(intent);
          if shortcut.Some? then Answer(Response(query, Some(intent), [], None, Fresh, shortcut, None, None), rows)
          else if req.candidates == [] then Answer(FallbackResponse(req, Some(intent)), rows)
          else
            var p := FreshPayload(intent, req);
            Answer(PageResponse(cfg, venues, req, p, Fresh),
                   if req.cacheWriteFails then rows else CacheSet(cfg, rows, now, cacheQuery, p))
  }

  datatype MoreAnswer = MoreAnswer(venues: seq<Venue>, totalMatched: nat)

  function More(cfg: Config, venues: map<Id, Venue>, rows: map<string, Row>, now: int,
                rawQuery: string, city: Option<string>, offset: int, limit: int): MoreAnswer
  {
    if Trim(rawQuery) == "" then MoreAnswer([], 0)
    else
      match CacheGet(cfg, rows, now, CacheQuery(rawQuery, city))
      case None => MoreAnswer([], 0)
      case Some(p) => MoreAnswer(MorePage(venues, p.venueIds, offset, limit), |p.venueIds|)
  }

  // Whole runs -------------------------------------------------------------

  /** Any traffic: searches and page requests, over a catalogue that may change meanwhile. */
  datatype Event =
    | DoSearch(at: int, venues: map<Id, Venue>, req: Request)
    | DoMore(at: int, rawQuery: string, city: Option<string>)

  function Step(cfg: Config, rows: map<string, Row>, e: Event): map<string, Row> {
    match e
    case DoSearch(at, venues, req) => Search(cfg, venues, rows, at, req).rows
    case DoMore(at, rawQuery, city) =>
      if Trim(rawQuery) == "" then rows else CacheTouch(cfg, rows, at, CacheQuery(rawQuery, city))
  }

  function Run(cfg: Config, rows: map<string, Row>, es: seq<Event>): map<string, Row>
    decreases |es|
  {
    if es == [] then rows else Run(cfg, Step(cfg, rows, es[0]), es[1..])
  }

  /** While an entry lives, no traffic replaces it: every request for its key is a hit. */
  lemma {:induction false} EntryStays(cfg: Config, rows: map<string, Row>, es: seq<Event>, k: string)
    requires k in rows && forall i :: 0 <= i < |es| ==> FreshAt(cfg, rows[k], es[i].at)
    ensures var after := Run(cfg, rows, es);
            k in after && after[k].payload == rows[k].payload && after[k].createdAt == rows[k].createdAt
    decreases |es|
  {
    hide Trim, ShortcutUrl, Scoped, FreshPayload, PageResponse, CacheQuery;
    if es != [] {
      var next := Step(cfg, rows, es[0]);
      assert FreshAt(cfg, rows[k], es[0].at);
      assert k in next && next[k].payload == rows[k].payload && next[k].createdAt == rows[k].createdAt;
      EntryStays(cfg, next, es[1..], k);
    }
  }

  lemma FreshAnswerFills(cfg: Config, venues: map<Id, Venue>, rows: map<string, Row>, t: int, req: Request)
    requires Search(cfg, venues, rows, t, req).response.source == Fresh
    requires Search(cfg, venues, rows, t, req).response.searchId.Some?
    ensures req.parsed.Some?
    ensures var (k, p) := (cfg.key(CacheQuery(req.rawQuery, req.currentCitySlug)),
                           FreshPayload(Scoped(req.parsed.value, req), req));
            var a := Search(cfg, venues, rows, t, req);
            && a.response == PageResponse(cfg, venues, req, p, Fresh)
            && (!req.cacheWriteFails ==> k in a.rows && a.rows[k].payload == p && a.rows[k].createdAt == t)
  {
    hide Trim, ShortcutUrl, FreshPayload, CacheQuery, Scoped, Hydrate;
  }

  lemma HitAnswer(cfg: Config, venues: map<Id, Venue>, rows: map<string, Row>, now: int, req: Request)
    requires Trim(req.rawQuery) != ""
    requires CacheGet(cfg, rows, now, CacheQuery(req.rawQuery, req.currentCitySlug)).Some?
    ensures Search(cfg, venues, rows, now, req).response
            == PageResponse(cfg, venues, req,
                            CacheGet(cfg, rows, now, CacheQuery(req.rawQuery, req.currentCitySlug)).value, FromCache)
  {
    hide Trim, ShortcutUrl, FreshPayload, CacheQuery, Scoped, Hydrate;
  }

  /** A cached answer is the fresh one again: for any traffic in between, within the
      lifetime and over an unchanged catalogue, the same query (up to its key) gets
      the same venues, intent, intro, total and search id. */
  lemma CacheHitRepeatsFresh(cfg: Config, venues: map<Id, Venue>, rows: map<string, Row>, t: int, req: Request,
                             es: seq<Event>, later: int, again: Request)
    requires Search(cfg, venues, rows, t, req).response.source == Fresh
    requires Search(cfg, venues, rows, t, req).response.searchId.Some? && !req.cacheWriteFails
    requires forall i :: 0 <= i < |es| ==> es[i].at - t <= cfg.ttlSeconds * 1000
    requires later - t <= cfg.ttlSeconds * 1000 && Trim(again.rawQuery) != ""
    requires cfg.key(CacheQuery(again.rawQuery, again.currentCitySlug))
             == cfg.key(CacheQuery(req.rawQuery, req.currentCitySlug))
    ensures var filled := Search(cfg, venues, rows, t, req);
            var hit := Search(cfg, venues, Run(cfg, filled.rows, es), later, again).response;
            hit == filled.response.(source := FromCache, query := Trim(again.rawQuery))
  {
    hide Search, Trim, Scoped, FreshPayload, CacheQuery, Hydrate, Run;
    FreshAnswerFills(cfg, venues, rows, t, req);
    var filled := Search(cfg, venues, rows, t, req).rows;
    EntryStays(cfg, filled, es, cfg.key(CacheQuery(req.rawQuery, req.currentCitySlug)));
    HitAnswer(cfg, venues, Run(cfg, filled, es), later, again);
  }

  /** Page requests read the list that the search put there, after any traffic. */
  lemma MoreReadsTheList(cfg: Config, venues: map<Id, Venue>, rows: map<string, Row>, t: int, req: Request,
                         es: seq<Event>, now: map<Id, Venue>, later: int,
                         rawQuery: string, city: Option<string>, offset: int, limit: int)
    requires Search(cfg, venues, rows, t, req).response.source == Fresh
    requires Search(cfg, venues, rows, t, req).response.searchId.Some? && !req.cacheWriteFails
    requires forall i :: 0 <= i < |es| ==> es[i].at - t <= cfg.ttlSeconds * 1000
    requires later - t <= cfg.ttlSeconds * 1000 && Trim(rawQuery) != ""
    requires cfg.key(CacheQuery(rawQuery, city)) == cfg.key(CacheQuery(req.rawQuery, req.currentCitySlug))
    ensures req.parsed.Some?
    ensures var ids := FreshPayload(Scoped(req.parsed.value, req), req).venueIds;
            More(cfg, now, Run(cfg, Search(cfg, venues, rows, t, req).rows, es), later, rawQuery, city, offset, limit)
            == MoreAnswer(MorePage(now, ids, offset, limit), |ids|)
  {
    hide Search, Trim, Scoped, FreshPayload, CacheQuery, Hydrate, Run;
    FreshAnswerFills(cfg, venues, rows, t, req);
    EntryStays(cfg, Search(cfg, venues, rows, t, req).rows, es, cfg.key(CacheQuery(req.rawQuery, req.currentCitySlug)));
  }

  // Browsing ---------------------------------------------------------------

  /** One page request of a browsing client, the traffic before it, and the catalogue by then. */
  datatype Ask = Ask(before: seq<Event>, at: int, venues: map<Id, Venue>, limit: int)

  function Limits(asks: seq<Ask>): seq<int> {
    if asks == [] then [] else [asks[0].limit] + Limits(asks[1..])
  }

  /** What the client is sent that asks for page after page, moving on by each limit,
      while others use the cache. */
  function Browse(cfg: Config, rows: map<string, Row>, rawQuery: string, city: Option<string>,
                  offset: nat, asks: seq<Ask>): seq<Venue>
    decreases |asks|
  {
    if asks == [] then []
    else
      var ask, mid := asks[0], Run(cfg, rows, asks[0].before);
      More(cfg, ask.venues, mid, ask.at, rawQuery, city, offset, ask.limit).venues
      + Browse(cfg, Step(cfg, mid, DoMore(ask.at, rawQuery, city)), rawQuery, city,
               offset + ClampLimit(ask.limit), asks[1..])
  }

  /** The pages of one list, each over the catalogue of its time. */
  function PagesOver(ids: seq<Id>, offset: nat, asks: seq<Ask>): seq<Venue>
    decreases |asks|
  {
    if asks == [] then []
    else MorePage(asks[0].venues, ids, offset, asks[0].limit)
         + PagesOver(ids, offset + ClampLimit(asks[0].limit), asks[1..])
  }

  /** All of it happens while the entry lives. */
  ghost predicate AllWithin(cfg: Config, row: Row, es: seq<Event>) {
    forall i :: 0 <= i < |es| ==> FreshAt(cfg, row, es[i].at)
  }

  ghost predicate Within(cfg: Config, row: Row, asks: seq<Ask>) {
    forall i :: 0 <= i < |asks| ==> FreshAt(cfg, row, asks[i].at) && AllWithin(cfg, row, asks[i].before)
  }

  lemma AskReadsThePage(cfg: Config, rows: map<string, Row>, rawQuery: string, city: Option<string>, offset: nat, ask: Ask)
    requires Trim(rawQuery) != "" && cfg.key(CacheQuery(rawQuery, city)) in rows
    requires var row := rows[cfg.key(CacheQuery(rawQuery, city))];
             FreshAt(cfg, row, ask.at) && AllWithin(cfg, row, ask.before)
    ensures var (k, mid) := (cfg.key(CacheQuery(rawQuery, city)), Run(cfg, rows, ask.before));
            var next := Step(cfg, mid, DoMore(ask.at, rawQuery, city));
            && More(cfg, ask.venues, mid, ask.at, rawQuery, city, offset, ask.limit).venues
               == MorePage(ask.venues, rows[k].payload.venueIds, offset, ask.limit)
            && k in next && next[k].payload == rows[k].payload && next[k].createdAt == rows[k].createdAt
  {
    hide Trim, CacheQuery, Search, Run, MorePage;
    EntryStays(cfg, rows, ask.before, cfg.key(CacheQuery(rawQuery, city)));
  }

  lemma WithinSame(cfg: Config, row: Row, later: Row, asks: seq<Ask>)
    requires Within(cfg, row, asks) && later.createdAt == row.createdAt
    ensures Within(cfg, later, asks)
    ensures asks != [] ==> Within(cfg, later, asks[1..]) && FreshAt(cfg, row, asks[0].at) && AllWithin(cfg, row, asks[0].before)
  {
  }

  /** Through the cache the client sees consecutive pages of the one list. */
  lemma {:induction false} BrowseIsPages(cfg: Config, rows: map<string, Row>,
                                         rawQuery: string, city: Option<string>, offset: nat, asks: seq<Ask>)
    requires Trim(rawQuery) != "" && cfg.key(CacheQuery(rawQuery, city)) in rows
    requires Within(cfg, rows[cfg.key(CacheQuery(rawQuery, city))], asks)
    ensures Browse(cfg, rows, rawQuery, city, offset, asks)
            == PagesOver(rows[cfg.key(CacheQuery(rawQuery, city))].payload.venueIds, offset, asks)
    decreases |asks|
  {
    hide Trim, CacheQuery, ClampLimit, Step, Run, More, MorePage, Within;
    if asks != [] {
      var k := cfg.key(CacheQuery(rawQuery, city));
      WithinSame(cfg, rows[k], rows[k], asks);
      AskReadsThePage(cfg, rows, rawQuery, city, offset, asks[0]);
      var next := Step(cfg, Run(cfg, rows, asks[0].before), DoMore(asks[0].at, rawQuery, city));
      WithinSame(cfg, rows[k], next[k], asks);
      BrowseIsPages(cfg, next, rawQuery, city, offset + ClampLimit(asks[0].limit), asks[1..]);
    }
  }

  ghost predicate OneCatalogue(venues: map<Id, Venue>, asks: seq<Ask>) {
    forall i :: 0 <= i < |asks| ==> asks[i].venues == venues
  }

  lemma {:induction false} OneCataloguePages(venues: map<Id, Venue>, ids: seq<Id>, offset: nat, asks: seq<Ask>)
    requires OneCatalogue(venues, asks)
    ensures PagesOver(ids, offset, asks) == Pages(venues, ids, offset, Limits(asks))
    decreases |asks|
  {
    hide MorePage, ClampLimit;
    if asks != [] { OneCataloguePages(venues, ids, offset + ClampLimit(asks[0].limit), asks[1..]); }
  }

  // A catalogue that changes meanwhile --------------------------------------

  /** How often a client was sent a venue. */
  function Times(rows: seq<Venue>, id: Id): nat {
    if rows == [] then 0 else (if rows[0].id == id then 1 else 0) + Times(rows[1..], id)
  }

  lemma {:induction false} TimesAppend(a: seq<Venue>, b: seq<Venue>, id: Id)
    ensures Times(a + b, id) == Times(a, id) + Times(b, id)
  {
    if a == [] {
      assert a + b == b;
    } else {
      assert (a + b)[1..] == a[1..] + b;
      TimesAppend(a[1..], b, id);
    }
  }

  ghost predicate IdsMatch(venues: map<Id, Venue>) {
    forall id :: id in venues ==> venues[id].id == id
  }

  lemma {:induction false} HydratedTimes(venues: map<Id, Venue>, ids: seq<Id>, id: Id)
    requires NoDup(ids) && IdsMatch(venues)
    ensures Times(Hydrate(venues, ids), id) == if id in ids && Visible(venues, id) then 1 else 0
  {
    if ids != [] {
      assert forall x :: x in ids[1..] ==> x != ids[0];
      HydratedTimes(venues, ids[1..], id);
      TimesAppend(if Visible(venues, ids[0]) then [venues[ids[0]]] else [], Hydrate(venues, ids[1..]), id);
    }
  }

  lemma SliceNoDup<T>(s: seq<T>, a: nat, b: nat)
    requires NoDup(s)
    ensures NoDup(Slice(s, a, b))
  {
  }

  lemma SlicesApart<T>(s: seq<T>, a: nat, b: nat, c: nat, x: T)
    requires NoDup(s) && a <= b <= c
    ensures x in Slice(s, a, c) <==> x in Slice(s, a, b) || x in Slice(s, b, c)
    ensures !(x in Slice(s, a, b) && x in Slice(s, b, c))
  {
    assert Slice(s, a, b) + Slice(s, b, c) == Slice(s, a, c);
  }

  lemma {:induction false} ReachGrows(offset: nat, limits: seq<int>)
    ensures Reach(offset, limits) >= offset
    decreases |limits|
  {
    if limits != [] { ReachGrows(offset + ClampLimit(limits[0]), limits[1..]); }
  }

  ghost predicate VisibleThroughout(asks: seq<Ask>, id: Id) {
    forall i :: 0 <= i < |asks| ==> Visible(asks[i].venues, id)
  }

  ghost predicate AllIdsMatch(asks: seq<Ask>) {
    forall i :: 0 <= i < |asks| ==> IdsMatch(asks[i].venues)
  }

  lemma {:induction false} PagedTimes(ids: seq<Id>, offset: nat, asks: seq<Ask>, id: Id)
    requires NoDup(ids) && AllIdsMatch(asks)
    ensures var listed := id in Slice(ids, offset, Reach(offset, Limits(asks)));
            && Times(PagesOver(ids, offset, asks), id) <= (if listed then 1 else 0)
            && (VisibleThroughout(asks, id) && listed ==> Times(PagesOver(ids, offset, asks), id) == 1)
    decreases |asks|
  {
    hide Hydrate, Slice, ClampLimit, NoDup, Visible;
    if asks == [] {
      assert id !in Slice(ids, offset, offset) by { EmptySlice(ids, offset); }
    } else {
      var next, reach := offset + ClampLimit(asks[0].limit), Reach(offset, Limits(asks));
      ReachGrows(next, Limits(asks[1..]));
      assert Limits(asks)[1..] == Limits(asks[1..]);
      SlicesApart(ids, offset, next, reach, id);
      SliceNoDup(ids, offset, next);
      assert IdsMatch(asks[0].venues);
      HydratedTimes(asks[0].venues, Slice(ids, offset, next), id);
      TimesAppend(MorePage(asks[0].venues, ids, offset, asks[0].limit), PagesOver(ids, next, asks[1..]), id);
      PagedTimes(ids, next, asks[1..], id);
      assert VisibleThroughout(asks, id) ==> Visible(asks[0].venues, id) && VisibleThroughout(asks[1..], id);
    }
  }

  lemma EmptySlice(ids: seq<Id>, offset: nat)
    ensures Slice(ids, offset, offset) == []
  {
  }

  /** A search that names its result list leaves it in the cache, and shows its head. */
  lemma SearchLeavesList(cfg: Config, venues: map<Id, Venue>, rows: map<string, Row>, t: int, req: Request)
    requires var r := Search(cfg, venues, rows, t, req).response;
             r.searchId.Some? && (r.source == Fresh ==> !req.cacheWriteFails)
    ensures var (k, a) := (cfg.key(CacheQuery(req.rawQuery, req.currentCitySlug)), Search(cfg, venues, rows, t, req));
            && Trim(req.rawQuery) != "" && a.response.searchId == Some(k) && k in a.rows
            && var p := a.rows[k].payload;
               a.response.totalMatched == Some(|p.venueIds|) && a.response.intro == p.intro
               && a.response.venues == Hydrate(venues, Slice(p.venueIds, 0, ClampResultCount(p.intent.resultCount)))
  {
    hide Trim, ShortcutUrl, FreshPayload, CacheQuery, Scoped, Hydrate, Slice, ClampResultCount;
  }

  /** No list in the cache names a venue twice. */
  ghost predicate ListsOnce(rows: map<string, Row>) {
    forall k :: k in rows ==> NoDup(rows[k].payload.venueIds)
  }

  lemma FreshListOnce(intent: Intent, req: Request)
    requires NoDup(req.candidates)
    ensures NoDup(FreshPayload(intent, req).venueIds)
  {
    hide Ordered, Rerank;
    OrderedIsPermutation(req.candidates, req.reply);
  }

  lemma SearchListsOnce(cfg: Config, venues: map<Id, Venue>, rows: map<string, Row>, t: int, req: Request)
    requires ListsOnce(rows) && NoDup(req.candidates)
    ensures ListsOnce(Search(cfg, venues, rows, t, req).rows)
  {
    hide Trim, ShortcutUrl, FreshPayload, CacheQuery, Scoped, PageResponse, NoDup;
    if req.parsed.Some? { FreshListOnce(Scoped(req.parsed.value, req), req); }
  }

  /** As long as every search is offered each candidate once, so it stays. */
  lemma {:induction false} RunListsOnce(cfg: Config, rows: map<string, Row>, es: seq<Event>)
    requires ListsOnce(rows) && forall i :: 0 <= i < |es| && es[i].DoSearch? ==> NoDup(es[i].req.candidates)
    ensures ListsOnce(Run(cfg, rows, es))
    decreases |es|
  {
    hide Search, Trim, NoDup, CacheQuery;
    if es != [] {
      match es[0] {
        case DoSearch(at, venues, req) => SearchListsOnce(cfg, venues, rows, at, req);
        case DoMore(_, _, _) =>
      }
      RunListsOnce(cfg, Step(cfg, rows, es[0]), es[1..]);
    }
  }

  lemma HydrateOnce(venues: map<Id, Venue>, ids: seq<Id>)
    requires NoDup(ids) && forall id :: id in venues ==> venues[id].id == id
    ensures NoDup(Hydrate(venues, ids))
  {
    hide Hydrate;
    HydrateIsPublishedPart(venues, ids);
    FilterNoDup(ids, id => Visible(venues, id));
    var rows := Hydrate(venues, ids);
    forall i, j | 0 <= i < j < |rows| ensures rows[i] != rows[j] {
      assert rows[i].id != rows[j].id;
    }
  }

  /** A search, answered fresh or from the cache, and the page requests after it, with
      any traffic in between and all within the lifetime: what the client is sent is the
      published part of the list up to where it got; at the end, of the whole list, with
      no venue twice. */
  lemma BrowsingSeesTheWholeList(cfg: Config, venues: map<Id, Venue>, rows: map<string, Row>, t: int, req: Request,
                                 asks: seq<Ask>)
    requires var r := Search(cfg, venues, rows, t, req).response;
             r.searchId.Some? && (r.source == Fresh ==> !req.cacheWriteFails)
    requires var (k, after) := (cfg.key(CacheQuery(req.rawQuery, req.currentCitySlug)), Search(cfg, venues, rows, t, req).rows);
             k in after ==> Within(cfg, after[k], asks)
    requires OneCatalogue(venues, asks)
    ensures var (k, a) := (cfg.key(CacheQuery(req.rawQuery, req.currentCitySlug)), Search(cfg, venues, rows, t, req));
            && k in a.rows
            && var (p, ids) := (a.rows[k].payload, a.rows[k].payload.venueIds);
               var first := ClampResultCount(p.intent.resultCount);
               var reach := Reach(first, Limits(asks));
               var seen := a.response.venues
                           + Browse(cfg, a.rows, req.rawQuery, req.currentCitySlug, first, asks);
               && seen == Hydrate(venues, Slice(ids, 0, reach))
               && (reach >= |ids| ==> seen == Hydrate(venues, ids))
               && (ListsOnce(rows) && NoDup(req.candidates) && (forall id :: id in venues ==> venues[id].id == id)
                   ==> NoDup(seen))
  {
    hide Trim, CacheQuery, Hydrate, Search, Browse, Slice, ClampResultCount, NoDup, Pages, PagesOver, OneCatalogue, Within, Reach;
    SearchLeavesList(cfg, venues, rows, t, req);
    var k, after := cfg.key(CacheQuery(req.rawQuery, req.currentCitySlug)), Search(cfg, venues, rows, t, req).rows;
    var p, ids := after[k].payload, after[k].payload.venueIds;
    var first := ClampResultCount(p.intent.resultCount);
    BrowseIsPages(cfg, after, req.rawQuery, req.currentCitySlug, first, asks);
    OneCataloguePages(venues, ids, first, asks);
    PagesAddUp(venues, ids, first, Limits(asks));
    SliceAll(ids, Reach(first, Limits(asks)));
    if ListsOnce(rows) && NoDup(req.candidates) && forall id :: id in venues ==> venues[id].id == id {
      SearchListsOnce(cfg, venues, rows, t, req);
      SliceSubset(ids, Reach(first, Limits(asks)));
      HydrateOnce(venues, Slice(ids, 0, Reach(first, Limits(asks))));
    }
  }

  /** Whatever happens to the catalogue between the pages, no venue is sent twice and only
      listed ones are; and one that is visible throughout is sent once when the client gets
      to the end. */
  lemma BrowsingSendsOnce(cfg: Config, venues: map<Id, Venue>, rows: map<string, Row>, t: int, req: Request,
                          asks: seq<Ask>, id: Id)
    requires var r := Search(cfg, venues, rows, t, req).response;
             r.searchId.Some? && (r.source == Fresh ==> !req.cacheWriteFails)
    requires var (k, after) := (cfg.key(CacheQuery(req.rawQuery, req.currentCitySlug)), Search(cfg, venues, rows, t, req).rows);
             k in after ==> Within(cfg, after[k], asks)
    requires ListsOnce(rows) && NoDup(req.candidates) && IdsMatch(venues) && AllIdsMatch(asks)
    ensures var (k, a) := (cfg.key(CacheQuery(req.rawQuery, req.currentCitySlug)), Search(cfg, venues, rows, t, req));
            && k in a.rows
            && var (p, ids) := (a.rows[k].payload, a.rows[k].payload.venueIds);
               var first := ClampResultCount(p.intent.resultCount);
               var sent := a.response.venues
                           + Browse(cfg, a.rows, req.rawQuery, req.currentCitySlug, first, asks);
               && Times(sent, id) <= (if id in ids then 1 else 0)
               && (id in ids && Reach(first, Limits(asks)) >= |ids| && Visible(venues, id) && VisibleThroughout(asks, id)
                   ==> Times(sent, id) == 1)
  {
    hide Trim, CacheQuery, Hydrate, Search, Browse, Slice, ClampResultCount, NoDup, PagesOver, Within, Visible, Times;
    SearchLeavesList(cfg, venues, rows, t, req);
    SearchListsOnce(cfg, venues, rows, t, req);
    var k, after := cfg.key(CacheQuery(req.rawQuery, req.currentCitySlug)), Search(cfg, venues, rows, t, req).rows;
    var p, ids := after[k].payload, after[k].payload.venueIds;
    var first := ClampResultCount(p.intent.resultCount);
    var reach := Reach(first, Limits(asks));
    BrowseIsPages(cfg, after, req.rawQuery, req.currentCitySlug, first, asks);
    ReachGrows(first, Limits(asks));
    SlicesApart(ids, 0, first, reach, id);
    SliceSubset(ids, first);
    SliceSubset(ids, reach);
    SliceAll(ids, reach);
    HydratedTimes(venues, Slice(ids, 0, first), id);
    PagedTimes(ids, first, asks, id);
    TimesAppend(Hydrate(venues, Slice(ids, 0, first)), PagesOver(ids, first, asks), id);
  }

  // What a search answers and stores --------------------------------------------

  /** The reranker has something to say: three candidates or more, a usable reply with an
      opening text that is not blank, and a pick among the first thirty. */
  ghost predicate Usable(candidates: seq<Id>, reply: Reply) {
    && |candidates| >= 3 && reply.Reply? && reply.top.Some?
    && reply.intro.Some? && Trim(reply.intro.value) != ""
    && exists i :: 0 <= i < |candidates| && i < 30 && candidates[i] in reply.top.value
  }

  /** The ids of s stand as they do in t. */
  ghost predicate InOrderOf(s: seq<Id>, t: seq<Id>) {
    forall i, j :: 0 <= i < j < |s| ==> s[i] in t && s[j] in t && FirstIndex(t, s[i]) < FirstIndex(t, s[j])
  }

  /** Exactly the picks among the first thirty candidates. */
  ghost predicate OfferedPicks(ids: seq<Id>, candidates: seq<Id>, top: seq<Id>) {
    forall id :: id in ids <==> id in top && exists i :: 0 <= i < |candidates| && i < 30 && candidates[i] == id
  }

  /** The list splits after n ids: before, the offered picks in the order first named;
      after, all other candidates in filter order. */
  ghost predicate RankedAt(full: seq<Id>, n: nat, candidates: seq<Id>, top: seq<Id>)
    requires n <= |full|
  {
    OfferedPicks(full[..n], candidates, top) && InOrderOf(full[..n], top) && InOrderOf(full[n..], candidates)
  }

  ghost predicate Ranked(full: seq<Id>, candidates: seq<Id>, top: seq<Id>) {
    exists n :: 0 <= n <= |full| && RankedAt(full, n, candidates, top)
  }

  lemma WindowFacts(candidates: seq<Id>)
    ensures var w := Slice(candidates, 0, RERANK_WINDOW);
            && Slice(w, 0, RERANK_WINDOW) == w && (|w| <= 2 <==> |candidates| <= 2)
            && forall id :: id in w <==> exists i :: 0 <= i < |candidates| && i < 30 && candidates[i] == id
  {
    var w := Slice(candidates, 0, RERANK_WINDOW);
    assert forall i :: 0 <= i < |w| ==> w[i] == candidates[i];
  }

  lemma BlankIntro(text: string)
    ensures Slice(Trim(text), 0, 600) == "" <==> Trim(text) == ""
  {
  }

  lemma UsableIff(candidates: seq<Id>, reply: Reply)
    ensures Rerank(Slice(candidates, 0, RERANK_WINDOW), reply).Some? <==> Usable(candidates, reply)
    ensures Usable(candidates, reply) ==>
              var r := Rerank(Slice(candidates, 0, RERANK_WINDOW), reply).value;
              && r.ids == Accepted(reply.top.value, Slice(candidates, 0, RERANK_WINDOW))
              && r.intro == Slice(Trim(reply.intro.value), 0, 600)
  {
    hide Accepted, Slice, Trim;
    var w := Slice(candidates, 0, RERANK_WINDOW);
    WindowFacts(candidates);
    if reply.Reply? && reply.top.Some? {
      AcceptedFacts(reply.top.value, w);
      BlankIntro(reply.intro.GetOr(""));
      assert Trim("") == "" by { assert IsBlank(""); }
      var ids := Accepted(reply.top.value, w);
      if ids != [] { assert ids[0] in ids; }
      if Usable(candidates, reply) {
        var i :| 0 <= i < |candidates| && i < 30 && candidates[i] in reply.top.value;
        assert candidates[i] in w;
      }
    }
  }

  /** The whole order, told without the functions that make it. */
  lemma OrderedIsRanked(candidates: seq<Id>, reply: Reply)
    requires NoDup(candidates)
    ensures multiset(Ordered(candidates, reply)) == multiset(candidates)
    ensures if Usable(candidates, reply) then Ranked(Ordered(candidates, reply), candidates, reply.top.value)
            else Ordered(candidates, reply) == candidates
  {
    hide Accepted, Tail, Slice, Rerank, RankedAt, NoDup;
    OrderedIsPermutation(candidates, reply);
    UsableIff(candidates, reply);
    if Usable(candidates, reply) {
      var ids := Accepted(reply.top.value, Slice(candidates, 0, RERANK_WINDOW));
      assert Ordered(candidates, reply) == ids + Tail(candidates, ids);
      PicksThenTail(candidates, reply.top.value);
      assert RankedAt(Ordered(candidates, reply), |ids|, candidates, reply.top.value);
    }
  }

  lemma PicksThenTail(candidates: seq<Id>, top: seq<Id>)
    requires NoDup(candidates)
    ensures var ids := Accepted(top, Slice(candidates, 0, RERANK_WINDOW));
            RankedAt(ids + Tail(candidates, ids), |ids|, candidates, top)
  {
    hide Accepted, Tail, Slice, NoDup, OfferedPicks, InOrderOf;
    var w := Slice(candidates, 0, RERANK_WINDOW);
    var ids := Accepted(top, w);
    var tail := Tail(candidates, ids);
    assert (ids + tail)[..|ids|] == ids && (ids + tail)[|ids|..] == tail;
    PicksOffered(candidates, top);
    PicksOrdered(top, w);
    TailOrdered(candidates, ids);
  }

  lemma PicksOffered(candidates: seq<Id>, top: seq<Id>)
    ensures OfferedPicks(Accepted(top, Slice(candidates, 0, RERANK_WINDOW)), candidates, top)
  {
    hide Accepted, Slice;
    var w := Slice(candidates, 0, RERANK_WINDOW);
    WindowFacts(candidates);
    AcceptedFacts(top, w);
  }

  lemma PicksOrdered(top: seq<Id>, offered: seq<Id>)
    ensures InOrderOf(Accepted(top, offered), top)
  {
    var ids := Accepted(top, offered);
    forall i, j | 0 <= i < j < |ids| ensures ids[i] in top && ids[j] in top && FirstIndex(top, ids[i]) < FirstIndex(top, ids[j]) {
      PicksInOrder(top, offered, i, j);
    }
  }

  lemma TailOrdered(candidates: seq<Id>, ids: seq<Id>)
    requires NoDup(candidates)
    ensures InOrderOf(Tail(candidates, ids), candidates)
  {
    hide NoDup;
    var tail := Tail(candidates, ids);
    forall i, j | 0 <= i < j < |tail|
      ensures tail[i] in candidates && tail[j] in candidates && FirstIndex(candidates, tail[i]) < FirstIndex(candidates, tail[j])
    {
      TailInOrder(candidates, ids, i, j);
    }
  }

  /** How many ids of n a search keeps: all, or as many as asked for, a hundred and twenty
      at most. */
  function Kept(n: nat, resultCount: Option<int>): (k: nat)
    ensures k <= n
  {
    if resultCount.None? || resultCount.value <= 0 then n
    else
      var most := if resultCount.value < 120 then resultCount.value else 120;
      if most < n then most else n
  }

  /** And how many of those it shows at once. */
  function Shown(n: nat, resultCount: Option<int>): (k: nat)
    ensures k <= n
  {
    var page := if resultCount.None? || resultCount.value <= 0 then 12 else if resultCount.value < 30 then resultCount.value else 30;
    if page < n then page else n
  }

  lemma CapKeeps(ids: seq<Id>, resultCount: Option<int>)
    ensures Cap(ids, resultCount) == ids[..Kept(|ids|, resultCount)]
    ensures Slice(ids, 0, ClampResultCount(resultCount)) == ids[..Shown(|ids|, resultCount)]
  {
  }

  /** A fresh answer with a result list: the list is the head of a permutation of the
      candidates, as long as asked for, in the reranker's order when that has something to
      say and in filter order otherwise; it is what the cache gets, and the answer shows
      its head. The list is returned. */
  lemma FreshSearchDoes(cfg: Config, venues: map<Id, Venue>, rows: map<string, Row>, now: int, req: Request)
    returns (full: seq<Id>)
    requires NoDup(req.candidates)
    requires var r := Search(cfg, venues, rows, now, req).response; r.source == Fresh && r.searchId.Some?
    ensures multiset(full) == multiset(req.candidates)
    ensures if Usable(req.candidates, req.reply) then Ranked(full, req.candidates, req.reply.top.value)
            else full == req.candidates
    ensures var (a, k) := (Search(cfg, venues, rows, now, req), cfg.key(CacheQuery(req.rawQuery, req.currentCitySlug)));
            && a.response.intent.Some?
            && var (intent, ids) := (a.response.intent.value, full[..Kept(|full|, a.response.intent.value.resultCount)]);
               && a.response.searchId == Some(k) && a.response.totalMatched == Some(|ids|)
               && a.response.venues == Hydrate(venues, ids[..Shown(|ids|, intent.resultCount)])
               && a.response.intro ==
                  (if Usable(req.candidates, req.reply) then Some(Slice(Trim(req.reply.intro.value), 0, 600)) else None)
               && a.rows == (if req.cacheWriteFails then rows
                             else rows[k := Row(Payload(intent, ids, a.response.intro, Usable(req.candidates, req.reply)), now,
                                                if k in rows then rows[k].hitCount else 0, now)])
  {
    hide Trim, ShortcutUrl, CacheQuery, Scoped, Hydrate, Ordered, Rerank, NoDup, Usable, Ranked, Slice, Cap, ClampResultCount;
    FreshAnswerFills(cfg, venues, rows, now, req);
    full := Ordered(req.candidates, req.reply);
    OrderedIsRanked(req.candidates, req.reply);
    UsableIff(req.candidates, req.reply);
    var intent := Scoped(req.parsed.value, req);
    CapKeeps(full, intent.resultCount);
    CapKeeps(Cap(full, intent.resultCount), intent.resultCount);
  }

  /** The other answers to a query that is not in the cache: the keyword hits when it is not
      understood or finds nothing, the city page when that serves it better; and nothing at
      all for a blank query. None of them is cached. */
  lemma OtherAnswers(cfg: Config, venues: map<Id, Venue>, rows: map<string, Row>, now: int, req: Request)
    ensures var (a, query) := (Search(cfg, venues, rows, now, req), Trim(req.rawQuery));
            && (query == "" ==> a == Answer(Response("", None, [], None, Fresh, None, None, None), rows))
            && (query != "" && CacheGet(cfg, rows, now, CacheQuery(req.rawQuery, req.currentCitySlug)).None? ==>
                  && (req.parsed.None? ==> a == Answer(Response(query, None, req.keywordHits, None, Fallback, None, None, None), rows))
                  && (req.parsed.Some? ==>
                        var intent := Scoped(req.parsed.value, req);
                        && (ShortcutUrl(intent).Some? ==>
                              a == Answer(Response(query, Some(intent), [], None, Fresh, ShortcutUrl(intent), None, None), rows))
                        && (ShortcutUrl(intent).None? && req.candidates == [] ==>
                              a == Answer(Response(query, Some(intent), req.keywordHits, None, Fallback, None, None, None), rows))
                        && (ShortcutUrl(intent).None? && req.candidates != [] ==>
                              a.response.source == Fresh && a.response.searchId.Some?)))
  {
    hide Trim, ShortcutUrl, CacheQuery, Scoped, Hydrate, FreshPayload, ClampResultCount;
  }

  /** The cities a search is scoped to: those the query names, else the caller's if it is
      known, else the default when a category is named. Nothing else of the parsed intent
      changes. */
  lemma ScopeDoes(cfg: Config, venues: map<Id, Venue>, rows: map<string, Row>, now: int, req: Request)
    requires Trim(req.rawQuery) != "" && req.parsed.Some? && req.candidates != []
    requires CacheGet(cfg, rows, now, CacheQuery(req.rawQuery, req.currentCitySlug)).None?
    ensures var intent := Search(cfg, venues, rows, now, req).response.intent;
            intent == Some(req.parsed.value.(citySlugs :=
              if req.parsed.value.citySlugs != [] then req.parsed.value.citySlugs
              else if req.currentCitySlug.Some? && req.currentCitySlug.value != "" && req.currentCitySlug.value in req.knownCities
              then [req.currentCitySlug.value]
              else if req.parsed.value.categories != [] then ["ho-chi-minh"] else []))
  {
    hide Trim, ShortcutUrl, CacheQuery, Hydrate, FreshPayload;
    CapIntent(Scoped(req.parsed.value, req), req);
  }

  lemma CapIntent(intent: Intent, req: Request)
    ensures FreshPayload(intent, req).intent == intent
  {
  }

  /** A query that names one city and at most one category, and nothing else, is sent to
      the city's page; any other is not. */
  lemma RedirectIff(i: Intent)
    ensures ShortcutUrl(i).Some? <==>
            && i.kind != "specific_venue" && |i.citySlugs| == 1 && |i.categories| <= 1 && i.vibeTags == []
            && i.audience == None && i.timeOfDay == None && i.cuisine == None && i.nearLandmark == None && i.wardQuery == None
            && i.priceMax == None && i.priceMin == None && i.ratingMin == None
            && (i.durationDays == None || i.durationDays.value <= 0)
    ensures ShortcutUrl(i).Some? ==>
              ShortcutUrl(i).value == "/c/" + i.citySlugs[0] + (if i.categories == [] then "" else "?category=" + i.categories[0])
  {
  }

  /** Exactly while its entry is not older than the lifetime a query is answered from the
      cache, and page requests find something; after that they find nothing. */
  lemma HitIff(cfg: Config, venues: map<Id, Venue>, rows: map<string, Row>, now: int, req: Request, offset: int, limit: int)
    requires Trim(req.rawQuery) != ""
    ensures var k := cfg.key(CacheQuery(req.rawQuery, req.currentCitySlug));
            var (a, more) := (Search(cfg, venues, rows, now, req),
                              More(cfg, venues, rows, now, req.rawQuery, req.currentCitySlug, offset, limit));
            if k in rows && now - rows[k].createdAt <= cfg.ttlSeconds * 1000
            then a.response.source == FromCache && a.response.intent == Some(rows[k].payload.intent)
                 && more.totalMatched == |rows[k].payload.venueIds|
                 && a.rows == rows[k := rows[k].(hitCount := rows[k].hitCount + 1, lastAccessedAt := now)]
            else a.response.source != FromCache && more == MoreAnswer([], 0)
  {
    hide Trim, ShortcutUrl, CacheQuery, Scoped, Hydrate, FreshPayload, ClampResultCount;
  }

  /** Page requests take one to twenty-four ids from where they are told, from the start
      when that is before it. */
  lemma PageDoes(venues: map<Id, Venue>, ids: seq<Id>, offset: int, limit: int)
    ensures var from := if offset < 0 then 0 else offset;
            var size := if limit < 1 then 1 else if limit > 24 then 24 else limit;
            MorePage(venues, ids, offset, limit) ==
            if from >= |ids| then [] else if from + size <= |ids| then Hydrate(venues, ids[from..from + size])
            else Hydrate(venues, ids[from..])
  {
    var from := if offset < 0 then 0 else offset;
    assert from < |ids| ==> ids[from..] == ids[from..|ids|];
  }

  /** Hydration gives nothing unpublished or deleted. */
  lemma {:induction false} HydrateOnlyPublished(venues: map<Id, Venue>, ids: seq<Id>)
    ensures forall v :: v in Hydrate(venues, ids) ==>
              v.isPublished && !v.deleted && exists id :: id in ids && id in venues && venues[id] == v
    ensures forall id :: id in ids && id in venues && venues[id].isPublished && !venues[id].deleted ==>
              venues[id] in Hydrate(venues, ids)
  {
    if ids != [] {
      HydrateOnlyPublished(venues, ids[1..]);
      forall v | v in Hydrate(venues, ids)
        ensures v.isPublished && !v.deleted && exists id :: id in ids && id in venues && venues[id] == v
      {
        if v in Hydrate(venues, ids[1..]) {
          var id :| id in ids[1..] && id in venues && venues[id] == v;
          assert id in ids;
        } else {
          assert v == venues[ids[0]] && ids[0] in ids;
        }
      }
    }
  }

  /** Searches from two cities never share an entry by their text, nor do two different
      queries from one city; slugs hold no closing bracket. */
  lemma CityQueriesDiffer(a: string, b: string, p: string, q: string)
    requires a != "" && b != "" && ']' !in a && ']' !in b
    ensures CacheQuery(p, Some(a)) == CacheQuery(q, Some(b)) <==> a == b && Trim(p) == Trim(q)
  {
    hide Trim;
    var x, y := CacheQuery(p, Some(a)), CacheQuery(q, Some(b));
    if x == y {
      assert x[6 + |a|] == ']' && y[6 + |b|] == ']';
      assert forall i :: 0 <= i < |a| ==> x[6 + i] == a[i];
      assert forall i :: 0 <= i < |b| ==> y[6 + i] == b[i];
      assert |a| == |b|;
      assert a == x[6..6 + |a|] == y[6..6 + |b|] == b;
      assert Trim(p) == x[8 + |a|..] == y[8 + |b|..] == Trim(q);
    }
  }

  /** A query without a city that looks like one with does share its entry. */
  lemma PlainQueryCollides()
    ensures CacheQuery("[city:hue] cafe", None) == CacheQuery("cafe", Some("hue"))
  {
    TrimKeeps("[city:hue] cafe");
    TrimKeeps("cafe");
  }

  /** A city that is left out or empty leaves the query as it is. */
  lemma PlainQuery(p: string)
    ensures CacheQuery(p, None) == CacheQuery(p, Some("")) == Trim(p)
  {
  }
}
