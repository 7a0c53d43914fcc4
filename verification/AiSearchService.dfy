/** The search service as written, its cache table a field, proved against the
    value-level search. */
module AiSearchService {
  import opened Prelude
  import opened Sequences
  import opened Text
  import opened AiSearch

  class SearchService {
    const cfg: Config
    var rows: map<string, Row>

    constructor (cfg: Config)
      ensures this.cfg == cfg && rows == map[]
    {
      this.cfg := cfg;
      rows := map[];
    }

    /** Read-through: a miss and an expired row both give nothing; a hit is counted. */
    method Get(now: int, query: string) returns (p: Option<Payload>)
      modifies this`rows
      ensures p == CacheGet(cfg, old(rows), now, query)
      ensures rows == CacheTouch(cfg, old(rows), now, query)
    {
      var hash := cfg.key(query);
      if hash !in rows {
        return None;
      }
      var row := rows[hash];
      var ageMs := now - row.createdAt;
      if ageMs > cfg.ttlSeconds * 1000 {
        return None;
      }
      rows := rows[hash := row.(hitCount := row.hitCount + 1, lastAccessedAt := now)];
      p := Some(row.payload);
    }

    /** Upsert by key: the lifetime restarts, the hit counter of an old row stays. */
    method Set(now: int, query: string, p: Payload)
      modifies this`rows
      ensures rows == CacheSet(cfg, old(rows), now, query, p)
    {
      var hash := cfg.key(query);
      if hash in rows {
        var existing := rows[hash];
        rows := rows[hash := existing.(payload := p, createdAt := now, lastAccessedAt := now)];
      } else {
        rows := rows[hash := Row(p, now, 0, now)];
      }
    }

    static method AcceptPicks(picks: seq<Id>, offered: seq<Id>) returns (ordered: seq<Id>)
      ensures ordered == Accepted(picks, offered)
    {
      ordered := [];
      for i := 0 to |picks|
        invariant ordered == Accepted(picks[..i], offered)
      {
        var pick := picks[i];
        assert picks[..i + 1][..i] == picks[..i] && picks[..i + 1][i] == pick;
        FilterAppend(FirstOccurrences(picks[..i]), [pick], id => id in offered);
        if pick !in offered {
          continue;
        }
        if pick in ordered {
          continue;
        }
        ordered := ordered + [pick];
      }
      assert picks[..|picks|] == picks;
    }

    /** The reranker, once the model has answered. */
    static method RerankVenues(candidates: seq<Id>, reply: Reply) returns (r: Option<Ranking>)
      ensures r == Rerank(candidates, reply)
    {
      hide Trim;
      if |candidates| <= 2 || reply.NoReply? || reply.top.None? || reply.top.value == [] {
        return None;
      }
      var trimmed := if |candidates| > 30 then candidates[..30] else candidates;
      assert trimmed == Slice(candidates, 0, RERANK_WINDOW);
      var orderedVenueIds := AcceptPicks(reply.top.value, trimmed);
      if orderedVenueIds == [] {
        return None;
      }
      var intro := Trim(if reply.intro.Some? then reply.intro.value else "");
      ghost var full := intro;
      intro := if |intro| > 600 then intro[..600] else intro;
      assert intro == Slice(full, 0, 600);
      if intro == "" {
        return None;
      }
      r := Some(Ranking(orderedVenueIds, intro));
    }

    method RankAll(candidates: seq<Id>, reply: Reply)
      returns (orderedIds: seq<Id>, intro: Option<string>, usedReranker: bool)
      ensures orderedIds == Ordered(candidates, reply)
      ensures var ranking := Rerank(Slice(candidates, 0, RERANK_WINDOW), reply);
              usedReranker == ranking.Some? && intro == (if ranking.Some? then Some(ranking.value.intro) else None)
    {
      var rerankWindow := Slice(candidates, 0, RERANK_WINDOW);
      intro := None;
      usedReranker := false;
      var rerankResult := RerankVenues(rerankWindow, reply);
      match rerankResult {
        case Some(r) =>
          var tail := Filter(candidates, id => id !in r.ids);
          FilterAgrees(candidates, id => id !in r.ids, id => id !in r.ids);
          orderedIds := r.ids + tail;
          intro := Some(r.intro);
          usedReranker := true;
        case None =>
          orderedIds := candidates;
      }
    }

    /** The caller's city when the query names none, and a default for bare categories. */
    static method ScopeIntent(req: Request) returns (intent: Intent)
      requires req.parsed.Some?
      ensures intent == Scoped(req.parsed.value, req)
    {
      intent := req.parsed.value;
      var city := req.currentCitySlug;
      if intent.citySlugs == [] && city.Some? && city.value != "" {
        if city.value in req.knownCities {
          intent := intent.(citySlugs := [city.value]);
        }
      }
      if intent.citySlugs == [] && intent.categories != [] {
        intent := intent.(citySlugs := ["ho-chi-minh"]);
      }
    }

    method Search(now: int, venues: map<Id, Venue>, req: Request) returns (r: Response)
      modifies this`rows
      ensures Answer(r, rows) == AiSearch.Search(cfg, venues, old(rows), now, req)
      ensures old(ListsOnce(rows)) && NoDup(req.candidates) ==> ListsOnce(rows)
    {
      hide Trim, ShortcutUrl, Hydrate, Ordered, Rerank, Scoped, CacheQuery, ClampResultCount, ListsOnce, NoDup;
      if ListsOnce(rows) && NoDup(req.candidates) { SearchListsOnce(cfg, venues, rows, now, req); }
      var query := Trim(req.rawQuery);
      if query == "" {
        return Response("", None, [], None, Fresh, None, None, None);
      }
      var cacheQuery := CacheQuery(req.rawQuery, req.currentCitySlug);
      var cached := Get(now, cacheQuery);
      if cached.Some? {
        var p := cached.value;
        var topK := ClampResultCount(p.intent.resultCount);
        var firstPage := Hydrate(venues, Slice(p.venueIds, 0, topK));
        return Response(query, Some(p.intent), firstPage, p.intro, FromCache, None, Some(cfg.key(cacheQuery)),
                        Some(|p.venueIds|));
      }
      if req.parsed.None? {
        return FallbackResponse(req, None);
      }
      var intent := ScopeIntent(req);
      var shortcut := ShortcutUrl(intent);
      if shortcut.Some? {
        return Response(query, Some(intent), [], None, Fresh, shortcut, None, None);
      }
      if req.candidates == [] {
        return FallbackResponse(req, Some(intent));
      }
      var orderedIds, intro, usedReranker := RankAll(req.candidates, req.reply);
      if intent.resultCount.Some? && intent.resultCount.value > 0 {
        var cap := intent.resultCount.value;
        orderedIds := Slice(orderedIds, 0, if cap < 120 then cap else 120);
      }
      var payload := Payload(intent, orderedIds, intro, usedReranker);
      if !req.cacheWriteFails {
        Set(now, cacheQuery, payload);
      }
      var topK := ClampResultCount(intent.resultCount);
      var firstPage := Hydrate(venues, Slice(orderedIds, 0, topK));
      r := Response(query, Some(intent), firstPage, intro, Fresh, None, Some(cfg.key(cacheQuery)), Some(|orderedIds|));
    }

    method More(now: int, venues: map<Id, Venue>, rawQuery: string, city: Option<string>, offset: int, limit: int)
      returns (page: seq<Venue>, totalMatched: nat)
      modifies this`rows
      ensures MoreAnswer(page, totalMatched) == AiSearch.More(cfg, venues, old(rows), now, rawQuery, city, offset, limit)
      ensures rows == Step(cfg, old(rows), DoMore(now, rawQuery, city))
      ensures old(ListsOnce(rows)) ==> ListsOnce(rows)
    {
      hide Trim, Hydrate, CacheQuery;
      if Trim(rawQuery) == "" {
        return [], 0;
      }
      var cached := Get(now, CacheQuery(rawQuery, city));
      if cached.None? {
        return [], 0;
      }
      var l := if limit < 1 then 1 else if limit > 24 then 24 else limit;
      var o := if offset < 0 then 0 else offset;
      page := Hydrate(venues, Slice(cached.value.venueIds, o, o + l));
      totalMatched := |cached.value.venueIds|;
    }
  }
}
