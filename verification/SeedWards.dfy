/** src/database/seed-wards.ts: the wards table is brought in line with the seed files. */
module SeedWards {
  import opened Prelude

  datatype WardSeed = WardSeed(
    name: string, kind: string,
    oldDistrict: Option<seq<string>>, oldWards: Option<seq<string>>, user: Option<seq<string>>)

  datatype Fields = Fields(kind: string, oldDistrict: seq<string>, oldWards: seq<string>, user: seq<string>)

  datatype Ward = Ward(id: nat, fields: Fields)

  /** The table under its unique key (city, name). */
  type Table = map<(Id, string), Ward>

  datatype Error = UnknownCity(slug: string) | DuplicateName(name: string)

  function SeedFields(w: WardSeed): Fields {
    Fields(w.kind, w.oldDistrict.GetOr([]), w.oldWards.GetOr([]), w.user.GetOr([]))
  }

  function SeedNames(seed: seq<WardSeed>): set<string> {
    set w | w in seed :: w.name
  }

  function CityNames(t: Table, city: Id): set<string> {
    set k | k in t && k.0 == city :: k.1
  }

  ghost predicate DistinctNames(seed: seq<WardSeed>) {
    forall i, j :: 0 <= i < j < |seed| ==> seed[i].name != seed[j].name
  }

  /** Ids are unique and below the next one to hand out. */
  ghost predicate IdsOk(t: Table, nextId: nat) {
    && (forall k :: k in t ==> t[k].id < nextId)
    && forall k, l :: k in t && l in t && k != l ==> t[k].id != t[l].id
  }

  /** The rows of the city are the seed, name by name. */
  ghost predicate Matches(t: Table, city: Id, seed: seq<WardSeed>) {
    && CityNames(t, city) == SeedNames(seed)
    && forall w :: w in seed ==> (city, w.name) in t && t[(city, w.name)].fields == SeedFields(w)
  }

  ghost predicate OthersKept(a: Table, b: Table, touched: set<Id>) {
    forall k: (Id, string) :: k.0 !in touched ==> (k in a <==> k in b) && (k in a ==> b[k] == a[k])
  }

  ghost predicate SurvivorsKeepIds(a: Table, b: Table, city: Id) {
    forall k :: k in a && k in b && k.0 == city ==> b[k].id == a[k].id
  }

  datatype Counts = Counts(inserted: nat, updated: nat, deleted: nat)

  ghost function NewOnes(want: set<string>, had: set<string>): nat {
    |want - had|
  }

  ghost function Common(want: set<string>, had: set<string>): nat {
    |want * had|
  }

  /** What reconciling a city of the table with a seed has to do. */
  ghost function Needed(a: Table, city: Id, seed: seq<WardSeed>): Counts {
    var had, want := CityNames(a, city), SeedNames(seed);
    Counts(NewOnes(want, had), Common(want, had), NewOnes(had, want))
  }

  /** What one run over one city amounts to. */
  ghost predicate Reconciled(a: Table, b: Table, city: Id, seed: seq<WardSeed>, c: Counts) {
    && Matches(b, city, seed)
    && OthersKept(a, b, {city})
    && SurvivorsKeepIds(a, b, city)
    && c == Needed(a, city, seed)
  }

  /** A row as the file lists it; lists left out are empty. */
  ghost predicate AsListed(f: Fields, w: WardSeed) {
    && f.kind == w.kind
    && f.oldDistrict == (if w.oldDistrict.Some? then w.oldDistrict.value else [])
    && f.oldWards == (if w.oldWards.Some? then w.oldWards.value else [])
    && f.user == (if w.user.Some? then w.user.value else [])
  }

  lemma MatchesAsListed(t: Table, city: Id, seed: seq<WardSeed>)
    requires Matches(t, city, seed)
    ensures forall w :: w in seed ==> (city, w.name) in t && AsListed(t[(city, w.name)].fields, w)
  {
  }

  /** Two tables that match the same seed, the later with the ids of the earlier, hold the
      same rows of the city. */
  lemma MatchingTwice(b: Table, c: Table, city: Id, seed: seq<WardSeed>)
    requires Matches(b, city, seed) && Matches(c, city, seed) && SurvivorsKeepIds(b, c, city)
    ensures forall k: (Id, string) :: k.0 == city ==> (k in b <==> k in c) && (k in b ==> c[k] == b[k])
    ensures Needed(b, city, seed) == Counts(0, |SeedNames(seed)|, 0)
  {
    assert SeedNames(seed) * CityNames(b, city) == SeedNames(seed);
    forall k: (Id, string) | k.0 == city ensures (k in b <==> k in c) && (k in b ==> c[k] == b[k]) {
      assert k in b <==> k.1 in CityNames(b, city);
      assert k in c <==> k.1 in CityNames(c, city);
      if k in b {
        assert k.1 in SeedNames(seed);
        var w :| w in seed && w.name == k.1;
        assert b[k].fields == SeedFields(w) == c[k].fields;
      }
    }
  }

  /** A second run straight after inserts and deletes nothing and changes no row. */
  lemma SecondRunIsIdle(a: Table, b: Table, c: Table, city: Id, seed: seq<WardSeed>, first: Counts, second: Counts)
    requires Reconciled(a, b, city, seed, first) && Reconciled(b, c, city, seed, second)
    ensures c == b && second == Counts(0, |SeedNames(seed)|, 0)
  {
    hide Matches, Needed;
    MatchingTwice(b, c, city, seed);
    SameEverywhere(b, c, {city});
  }

  lemma SameEverywhere(b: Table, c: Table, touched: set<Id>)
    requires OthersKept(b, c, touched)
    requires forall k :: k in b || k in c ==> k.0 in touched ==> k in b && k in c && c[k] == b[k]
    ensures c == b
  {
    forall k ensures k in b <==> k in c {
      assert k.0 !in touched ==> (k in b <==> k in c);
    }
    forall k | k in b ensures c[k] == b[k] {
    }
  }

  // All cities -----------------------------------------------------------------

  /** What the whole script amounts to, with one file per city: every listed city is as
      its file says, survivors under their old ids, and unlisted cities are left alone. */
  ghost predicate Seeded(a: Table, b: Table, cityIdBySlug: map<string, Id>, seeds: seq<(string, seq<WardSeed>)>) {
    && OthersKept(a, b, Touched(cityIdBySlug, seeds))
    && forall s :: s in seeds ==>
         && s.0 in cityIdBySlug
         && Matches(b, cityIdBySlug[s.0], s.1)
         && SurvivorsKeepIds(a, b, cityIdBySlug[s.0])
  }

  function Plus(c: Counts, d: Counts): Counts {
    Counts(c.inserted + d.inserted, c.updated + d.updated, c.deleted + d.deleted)
  }

  /** The sum of what each city needs, judged by the table before the script. */
  ghost function Totals(a: Table, cityIdBySlug: map<string, Id>, seeds: seq<(string, seq<WardSeed>)>): Counts
    requires forall s :: s in seeds ==> s.0 in cityIdBySlug
  {
    if seeds == [] then Counts(0, 0, 0)
    else
      var s := seeds[|seeds| - 1];
      Plus(Totals(a, cityIdBySlug, seeds[..|seeds| - 1]), Needed(a, cityIdBySlug[s.0], s.1))
  }

  ghost predicate OneEach(cityIdBySlug: map<string, Id>) {
    forall a, b :: a in cityIdBySlug && b in cityIdBySlug && a != b ==> cityIdBySlug[a] != cityIdBySlug[b]
  }

  lemma EarlierCity(a: Table, t: Table, b: Table, city: Id, seed: seq<WardSeed>, other: Id)
    requires Matches(t, other, seed) && SurvivorsKeepIds(a, t, other) && OthersKept(t, b, {city}) && other != city
    ensures Matches(b, other, seed) && SurvivorsKeepIds(a, b, other)
  {
    MatchesElsewhere(t, b, {city}, other, seed);
  }

  lemma NewCity(a: Table, t: Table, b: Table, touched: set<Id>, city: Id, seed: seq<WardSeed>, c: Counts)
    requires OthersKept(a, t, touched) && city !in touched && Reconciled(t, b, city, seed, c)
    ensures Matches(b, city, seed) && SurvivorsKeepIds(a, b, city) && c == Needed(a, city, seed)
    ensures OthersKept(a, b, touched + {city}) && OthersKept(t, b, {city})
  {
    hide Matches;
    UntouchedNames(a, t, touched, city);
  }

  /** Reconciling one city more. */
  lemma SeededStep(a: Table, t: Table, b: Table, cityIdBySlug: map<string, Id>, done: seq<(string, seq<WardSeed>)>,
                   s: (string, seq<WardSeed>), c: Counts)
    requires Seeded(a, t, cityIdBySlug, done) && OneEach(cityIdBySlug) && s.0 in cityIdBySlug
    requires forall d :: d in done ==> d.0 != s.0
    requires Reconciled(t, b, cityIdBySlug[s.0], s.1, c)
    ensures Seeded(a, b, cityIdBySlug, done + [s]) && c == Needed(a, cityIdBySlug[s.0], s.1)
  {
    hide Matches, SurvivorsKeepIds, OthersKept, Reconciled, Needed;
    var city, touched := cityIdBySlug[s.0], Touched(cityIdBySlug, done);
    assert city !in touched;
    assert Touched(cityIdBySlug, done + [s]) == touched + {city};
    NewCity(a, t, b, touched, city, s.1, c);
    forall d | d in done + [s]
      ensures d.0 in cityIdBySlug && Matches(b, cityIdBySlug[d.0], d.1) && SurvivorsKeepIds(a, b, cityIdBySlug[d.0])
    {
      if d in done {
        EarlierCity(a, t, b, city, d.1, cityIdBySlug[d.0]);
      } else {
        assert d == s;
      }
    }
  }

  lemma UntouchedNames(a: Table, b: Table, touched: set<Id>, city: Id)
    requires OthersKept(a, b, touched) && city !in touched
    ensures CityNames(a, city) == CityNames(b, city)
  {
    assert forall n :: n in CityNames(a, city) <==> (city, n) in a;
    assert forall n :: n in CityNames(b, city) <==> (city, n) in b;
  }

  lemma {:induction false} NothingNeeded(b: Table, cityIdBySlug: map<string, Id>, seeds: seq<(string, seq<WardSeed>)>)
    requires forall s :: s in seeds ==> s.0 in cityIdBySlug && Matches(b, cityIdBySlug[s.0], s.1)
    ensures Totals(b, cityIdBySlug, seeds).inserted == 0 && Totals(b, cityIdBySlug, seeds).deleted == 0
  {
    hide Matches, Needed;
    if seeds != [] {
      var s := seeds[|seeds| - 1];
      assert s in seeds;
      MatchingTwice(b, b, cityIdBySlug[s.0], s.1);
      NothingNeeded(b, cityIdBySlug, seeds[..|seeds| - 1]);
    }
  }

  /** The whole script run a second time inserts and deletes nothing and changes no row. */
  lemma SecondSeedingIsIdle(a: Table, b: Table, c: Table, cityIdBySlug: map<string, Id>, seeds: seq<(string, seq<WardSeed>)>)
    requires Seeded(a, b, cityIdBySlug, seeds) && Seeded(b, c, cityIdBySlug, seeds)
    ensures c == b
    ensures Totals(b, cityIdBySlug, seeds).inserted == 0 && Totals(b, cityIdBySlug, seeds).deleted == 0
  {
    hide Matches, SurvivorsKeepIds, Needed, OthersKept, Totals;
    NothingNeeded(b, cityIdBySlug, seeds);
    var touched := Touched(cityIdBySlug, seeds);
    forall k: (Id, string) | k.0 in touched && (k in b || k in c) ensures k in b && k in c && c[k] == b[k] {
      var s :| s in seeds && s.0 in cityIdBySlug && cityIdBySlug[s.0] == k.0;
      MatchingTwice(b, c, k.0, s.1);
    }
    SameEverywhere(b, c, touched);
  }

  /** The state of the loop over the seed after its first i entries. */
  ghost predicate Halfway(a: Table, t: Table, city: Id, seed: seq<WardSeed>, i: nat, left: map<string, Ward>)
    requires i <= |seed|
  {
    && CityNames(t, city) == CityNames(a, city) + SeedNames(seed[..i])
    && OthersKept(a, t, {city})
    && SurvivorsKeepIds(a, t, city)
    && left.Keys == CityNames(a, city) - SeedNames(seed[..i])
    && (forall n :: n in left ==> (city, n) in a && (city, n) in t && left[n] == a[(city, n)] && t[(city, n)] == left[n])
    && forall j :: 0 <= j < i ==> (city, seed[j].name) in t && t[(city, seed[j].name)].fields == SeedFields(seed[j])
  }

  lemma SeedNamesGrow(seed: seq<WardSeed>, i: nat)
    requires i < |seed| && DistinctNames(seed)
    ensures SeedNames(seed[..i + 1]) == SeedNames(seed[..i]) + {seed[i].name}
    ensures seed[i].name !in SeedNames(seed[..i])
  {
    assert seed[..i + 1] == seed[..i] + [seed[i]];
  }

  lemma RowWritten(a: Table, t: Table, city: Id, seed: seq<WardSeed>, i: nat, left: map<string, Ward>, row: Ward)
    requires i < |seed| && DistinctNames(seed) && Halfway(a, t, city, seed, i, left)
    requires row.fields == SeedFields(seed[i])
    requires seed[i].name in left ==> row.id == left[seed[i].name].id
    ensures Halfway(a, t[(city, seed[i].name) := row], city, seed, i + 1, left - {seed[i].name})
    ensures seed[i].name in left <==> seed[i].name in CityNames(a, city)
  {
    var n, after, rest := seed[i].name, t[(city, seed[i].name) := row], left - {seed[i].name};
    SeedNamesGrow(seed, i);
    assert CityNames(after, city) == CityNames(t, city) + {n};
    assert (city, n) in a <==> n in CityNames(a, city);
    assert OthersKept(a, after, {city});
    forall j | 0 <= j < i + 1
      ensures (city, seed[j].name) in after && after[(city, seed[j].name)].fields == SeedFields(seed[j])
    {
      assert j < i ==> seed[j].name != n;
    }
  }

  class WardSeeder {
    var wards: Table
    var nextId: nat

    ghost predicate Valid()
      reads this
    {
      IdsOk(wards, nextId)
    }

    static method RejectDuplicates(seed: seq<WardSeed>) returns (error: Option<Error>)
      ensures error.None? <==> DistinctNames(seed)
      ensures error.Some? ==> exists i, j :: 0 <= i < j < |seed| && seed[i].name == seed[j].name
                                             && error == Some(DuplicateName(seed[j].name))
    {
      var seenNames: set<string> := {};
      for i := 0 to |seed|
        invariant seenNames == SeedNames(seed[..i])
        invariant DistinctNames(seed[..i])
      {
        assert seed[..i + 1] == seed[..i] + [seed[i]];
        if seed[i].name in seenNames {
          assert !DistinctNames(seed) by {
            var w :| w in seed[..i] && w.name == seed[i].name;
          }
          assert exists k :: 0 <= k < i && seed[k].name == seed[i].name by {
            var w :| w in seed[..i] && w.name == seed[i].name;
            var k :| 0 <= k < i && seed[..i][k] == w;
          }
          return Some(DuplicateName(seed[i].name));
        }
        seenNames := seenNames + {seed[i].name};
      }
      assert seed[..|seed|] == seed;
      error := None;
    }

    /** One entry: the row it names is rewritten under its old id, or created. */
    method WriteWard(city: Id, wSeed: WardSeed, left: map<string, Ward>) returns (found: bool)
      requires Valid()
      requires wSeed.name in left ==> (city, wSeed.name) in wards && wards[(city, wSeed.name)] == left[wSeed.name]
      modifies this
      ensures Valid() && found == (wSeed.name in left)
      ensures exists row: Ward ::
                && wards == old(wards)[(city, wSeed.name) := row]
                && row.fields == SeedFields(wSeed)
                && (wSeed.name in left ==> row.id == left[wSeed.name].id)
    {
      hide IdsOk;
      ghost var k := (city, wSeed.name);
      if wSeed.name in left {
        var row := left[wSeed.name].(fields := SeedFields(wSeed));
        IdsAfterWrite(wards, nextId, k, row);
        wards := wards[(city, wSeed.name) := row];
        found := true;
      } else {
        var row := Ward(nextId, SeedFields(wSeed));
        IdsAfterWrite(wards, nextId, k, row);
        wards := wards[(city, wSeed.name) := row];
        nextId := nextId + 1;
        found := false;
      }
    }

    /** Update or insert every ward of the seed; what is left over is stale. */
    method WriteSeed(city: Id, seed: seq<WardSeed>, existing: map<string, Ward>)
      returns (stale: map<string, Ward>, inserted: nat, updated: nat)
      requires Valid() && DistinctNames(seed)
      requires existing == map n | n in CityNames(wards, city) :: wards[(city, n)]
      modifies this
      ensures Valid() && Halfway(old(wards), wards, city, seed, |seed|, stale)
      ensures inserted == NewOnes(SeedNames(seed), CityNames(old(wards), city))
      ensures updated == Common(SeedNames(seed), CityNames(old(wards), city))
    {
      hide IdsOk, Halfway, SeedNames, DistinctNames, SeedFields, NewOnes, Common;
      NothingDone(wards, city, seed, existing);
      hide CityNames;
      inserted, updated := 0, 0;
      stale := existing;
      ghost var had := CityNames(wards, city);
      NoNames(seed, had);
      for i := 0 to |seed|
        invariant Valid() && Halfway(old(wards), wards, city, seed, i, stale)
        invariant inserted == NewOnes(SeedNames(seed[..i]), had) && updated == Common(SeedNames(seed[..i]), had)
      {
        ghost var before := wards;
        SeedNamesGrow(seed, i);
        CountStep(SeedNames(seed[..i]), had, seed[i].name);
        if seed[i].name in stale {
          LeftIsThere(old(wards), wards, city, seed, i, stale, seed[i].name);
        }
        var found := WriteWard(city, seed[i], stale);
        ghost var row: Ward :|
          wards == before[(city, seed[i].name) := row] && row.fields == SeedFields(seed[i])
          && (seed[i].name in stale ==> row.id == stale[seed[i].name].id);
        RowWritten(old(wards), before, city, seed, i, stale, row);
        if found {
          updated := updated + 1;
        } else {
          inserted := inserted + 1;
        }
        stale := stale - {seed[i].name};
      }
      assert seed[..|seed|] == seed;
    }

    method DeleteStale(city: Id, stale: map<string, Ward>) returns (deleted: nat)
      requires Valid()
      modifies this`wards
      ensures Valid() && deleted == |stale.Keys|
      ensures wards == old(wards) - Keys(city, stale.Keys)
    {
      hide IdsOk;
      deleted := 0;
      var rest := stale.Keys;
      while rest != {}
        invariant Valid() && rest <= stale.Keys && deleted + |rest| == |stale.Keys|
        invariant wards == old(wards) - Keys(city, stale.Keys - rest)
        decreases |rest|
      {
        var n :| n in rest;
        assert stale.Keys - (rest - {n}) == stale.Keys - rest + {n};
        assert Keys(city, stale.Keys - rest + {n}) == Keys(city, stale.Keys - rest) + {(city, n)};
        IdsAfterDelete(wards, nextId, (city, n));
        wards := wards - {(city, n)};
        rest := rest - {n};
        deleted := deleted + 1;
      }
    }

    method ReconcileCity(city: Id, seed: seq<WardSeed>) returns (r: Result<Counts, Error>)
      requires Valid()
      modifies this
      ensures Valid()
      ensures r.Err? ==> wards == old(wards)
      ensures r.Ok? <==> DistinctNames(seed)
      ensures r.Ok? ==> Reconciled(old(wards), wards, city, seed, r.value)
      ensures r.Ok? ==> forall w :: w in seed ==> (city, w.name) in wards && AsListed(wards[(city, w.name)].fields, w)
    {
      var error := RejectDuplicates(seed);
      if error.Some? {
        return Err(error.value);
      }
      var existing := map n | n in CityNames(wards, city) :: wards[(city, n)];
      var stale, inserted, updated := WriteSeed(city, seed, existing);
      assert seed[..|seed|] == seed;
      ghost var mid := wards;
      var deleted := DeleteStale(city, stale);
      StaleGone(old(wards), mid, wards, city, seed, stale);
      MatchesAsListed(wards, city, seed);
      r := Ok(Counts(inserted, updated, deleted));
    }

    /** The whole script: the cities in file order, stopping at the first bad file. */
    method SeedAll(cityIdBySlug: map<string, Id>, seeds: seq<(string, seq<WardSeed>)>)
      returns (r: Result<Counts, Error>)
      requires Valid() && OneEach(cityIdBySlug)
      modifies this
      ensures Valid() && OthersKept(old(wards), wards, Touched(cityIdBySlug, seeds))
      ensures r.Ok? <==> forall i :: 0 <= i < |seeds| ==> seeds[i].0 in cityIdBySlug && DistinctNames(seeds[i].1)
      ensures r.Ok? && OneFilePerCity(seeds) ==>
                Seeded(old(wards), wards, cityIdBySlug, seeds) && r.value == Totals(old(wards), cityIdBySlug, seeds)
    {
      hide Reconciled, DistinctNames, OthersKept, IdsOk, Seeded, Needed, Totals;
      var totals := Counts(0, 0, 0);
      SameTable(wards, Touched(cityIdBySlug, seeds));
      NothingSeeded(wards, cityIdBySlug);
      for k := 0 to |seeds|
        invariant Valid() && OthersKept(old(wards), wards, Touched(cityIdBySlug, seeds))
        invariant forall i :: 0 <= i < k ==> seeds[i].0 in cityIdBySlug && DistinctNames(seeds[i].1)
        invariant OneFilePerCity(seeds) ==>
                    && Seeded(old(wards), wards, cityIdBySlug, seeds[..k])
                    && totals == Totals(old(wards), cityIdBySlug, seeds[..k])
      {
        var (slug, seed) := seeds[k];
        if slug !in cityIdBySlug {
          return Err(UnknownCity(slug));
        }
        var city := cityIdBySlug[slug];
        ghost var before := wards;
        var one := ReconcileCity(city, seed);
        if one.Err? {
          return one;
        }
        Others(before, wards, city, seed, one.value);
        StillOthers(old(wards), before, wards, Touched(cityIdBySlug, seeds), city);
        if OneFilePerCity(seeds) {
          SeededStep(old(wards), before, wards, cityIdBySlug, seeds[..k], seeds[k], one.value);
          TotalsStep(old(wards), cityIdBySlug, seeds[..k], seeds[k]);
          assert seeds[..k + 1] == seeds[..k] + [seeds[k]];
        }
        totals := Counts(totals.inserted + one.value.inserted, totals.updated + one.value.updated,
                         totals.deleted + one.value.deleted);
      }
      assert seeds[..|seeds|] == seeds;
      r := Ok(totals);
    }
  }

  lemma NothingSeeded(t: Table, cityIdBySlug: map<string, Id>)
    ensures Seeded(t, t, cityIdBySlug, []) && Totals(t, cityIdBySlug, []) == Counts(0, 0, 0)
  {
  }

  lemma TotalsStep(a: Table, cityIdBySlug: map<string, Id>, done: seq<(string, seq<WardSeed>)>, s: (string, seq<WardSeed>))
    requires s.0 in cityIdBySlug && forall d :: d in done ==> d.0 in cityIdBySlug
    ensures Totals(a, cityIdBySlug, done + [s]) ==
            Plus(Totals(a, cityIdBySlug, done), Needed(a, cityIdBySlug[s.0], s.1))
  {
    assert (done + [s])[..|done|] == done;
  }

  ghost predicate OneFilePerCity(seeds: seq<(string, seq<WardSeed>)>) {
    forall i, j :: 0 <= i < j < |seeds| ==> seeds[i].0 != seeds[j].0
  }

  function Touched(cityIdBySlug: map<string, Id>, seeds: seq<(string, seq<WardSeed>)>): set<Id> {
    set s | s in seeds && s.0 in cityIdBySlug :: cityIdBySlug[s.0]
  }

  function Keys(city: Id, names: set<string>): set<(Id, string)> {
    set n | n in names :: (city, n)
  }

  lemma SameTable(t: Table, touched: set<Id>)
    ensures OthersKept(t, t, touched)
  {
  }

  lemma StillOthers(a: Table, b: Table, c: Table, touched: set<Id>, city: Id)
    requires OthersKept(a, b, touched) && OthersKept(b, c, {city}) && city in touched
    ensures OthersKept(a, c, touched)
  {
  }

  lemma NothingDone(t: Table, city: Id, seed: seq<WardSeed>, existing: map<string, Ward>)
    requires existing == map n | n in CityNames(t, city) :: t[(city, n)]
    ensures Halfway(t, t, city, seed, 0, existing)
  {
  }

  lemma NoNames(seed: seq<WardSeed>, had: set<string>)
    ensures NewOnes(SeedNames(seed[..0]), had) == 0 && Common(SeedNames(seed[..0]), had) == 0
  {
    assert SeedNames(seed[..0]) == {};
  }

  lemma LeftIsThere(a: Table, t: Table, city: Id, seed: seq<WardSeed>, i: nat, left: map<string, Ward>, n: string)
    requires i <= |seed| && Halfway(a, t, city, seed, i, left) && n in left
    ensures (city, n) in t && t[(city, n)] == left[n]
  {
  }

  lemma IdsAfterWrite(t: Table, nextId: nat, k: (Id, string), row: Ward)
    requires IdsOk(t, nextId)
    ensures k in t && row.id == t[k].id ==> IdsOk(t[k := row], nextId)
    ensures row.id == nextId ==> IdsOk(t[k := row], nextId + 1)
  {
  }

  lemma IdsAfterDelete(t: Table, nextId: nat, k: (Id, string))
    requires IdsOk(t, nextId)
    ensures IdsOk(t - {k}, nextId)
  {
  }

  lemma CountStep(done: set<string>, had: set<string>, n: string)
    requires n !in done
    ensures NewOnes(done + {n}, had) == NewOnes(done, had) + if n in had then 0 else 1
    ensures Common(done + {n}, had) == Common(done, had) + if n in had then 1 else 0
  {
    if n in had {
      assert (done + {n}) - had == done - had;
      assert (done + {n}) * had == done * had + {n};
    } else {
      assert (done + {n}) - had == done - had + {n};
      assert (done + {n}) * had == done * had;
    }
  }

  lemma Others(a: Table, b: Table, city: Id, seed: seq<WardSeed>, c: Counts)
    requires Reconciled(a, b, city, seed, c)
    ensures OthersKept(a, b, {city}) && Matches(b, city, seed)
  {
  }

  lemma MatchesElsewhere(a: Table, b: Table, touched: set<Id>, city: Id, seed: seq<WardSeed>)
    requires OthersKept(a, b, touched) && city !in touched && Matches(a, city, seed)
    ensures Matches(b, city, seed)
  {
    assert forall n :: n in CityNames(a, city) <==> (city, n) in a;
    assert forall n :: n in CityNames(b, city) <==> (city, n) in b;
  }

  /** Deleting what the seed loop left over finishes the job. */
  lemma StaleGone(a: Table, t: Table, b: Table, city: Id, seed: seq<WardSeed>, stale: map<string, Ward>)
    requires Halfway(a, t, city, seed, |seed|, stale)
    requires b == t - Keys(city, stale.Keys)
    ensures Matches(b, city, seed) && OthersKept(a, b, {city}) && SurvivorsKeepIds(a, b, city)
    ensures stale.Keys == CityNames(a, city) - SeedNames(seed)
  {
    assert seed[..|seed|] == seed;
    assert forall n :: n in CityNames(t, city) <==> (city, n) in t;
    assert forall n :: n in CityNames(b, city) <==> (city, n) in b;
    forall n ensures n in CityNames(b, city) <==> n in SeedNames(seed) {
      assert (city, n) in b <==> (city, n) in t && n !in stale;
    }
    forall w | w in seed ensures (city, w.name) in b && b[(city, w.name)].fields == SeedFields(w) {
      var j :| 0 <= j < |seed| && seed[j] == w;
      assert w.name in SeedNames(seed);
    }
  }
}
