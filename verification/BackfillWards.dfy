/** src/database/backfill-venue-wards.ts: canonical wards for all published venues, by
    text first and by the nearest text-resolved neighbour after that. */
module BackfillWards {
  import opened Prelude
  import opened Sequences

  /** A venue as queried: what the resolvers read, and the three columns written. */
  datatype Venue = Venue(
    id: Id, city: string, district: Option<string>, address: Option<string>, lat: real, lng: real,
    ward: Option<string>, wardType: Option<string>, how: Option<string>)

  datatype Decision = Decision(ward: string, wardType: string, how: string)

  datatype Anchor = Anchor(ward: string, wardType: string, lat: real, lng: real)

  /** The text resolver and the distance in kilometres, as deterministic functions. */
  datatype Resolvers = Resolvers(
    text: (Option<string>, Option<string>, string) -> Option<Decision>,
    distanceKm: (real, real, real, real) -> real)

  const MAX_KM := 15.0

  function ByText(rs: Resolvers, v: Venue): Option<Decision> {
    rs.text(v.district, v.address, v.city)
  }

  predicate HasCoordinates(v: Venue) {
    v.lat != 0.0 || v.lng != 0.0
  }

  /** A text-resolved venue with coordinates anchors its own city. */
  function AnchorOf(rs: Resolvers, v: Venue, city: string): seq<Anchor> {
    var d := ByText(rs, v);
    if v.city == city && d.Some? && HasCoordinates(v) then [Anchor(d.value.ward, d.value.wardType, v.lat, v.lng)] else []
  }

  /** The anchors of a city, in row order. */
  function Anchors(rs: Resolvers, rows: seq<Venue>, city: string): seq<Anchor> {
    if rows == [] then []
    else Anchors(rs, rows[..|rows| - 1], city) + AnchorOf(rs, rows[|rows| - 1], city)
  }

  function Away(rs: Resolvers, lat: real, lng: real, a: Anchor): real {
    rs.distanceKm(lat, lng, a.lat, a.lng)
  }

  /** The fold over the anchors: a later one wins only when it is strictly nearer. */
  function Nearest(rs: Resolvers, lat: real, lng: real, anchors: seq<Anchor>): (best: Option<Anchor>)
    ensures best.None? <==> anchors == []
  {
    if anchors == [] then None
    else
      var best, a := Nearest(rs, lat, lng, anchors[..|anchors| - 1]), anchors[|anchors| - 1];
      if best.None? || Away(rs, lat, lng, a) < Away(rs, lat, lng, best.value) then Some(a) else best
  }

  function ByAnchor(rs: Resolvers, lat: real, lng: real, anchors: seq<Anchor>): Option<Decision> {
    var best := Nearest(rs, lat, lng, anchors);
    if (lat == 0.0 && lng == 0.0) || best.None? || Away(rs, lat, lng, best.value) > MAX_KM then None
    else Some(Decision(best.value.ward, best.value.wardType, "geo"))
  }

  /** The whole of passes one and two. */
  function Decide(rs: Resolvers, rows: seq<Venue>, v: Venue): Option<Decision> {
    if ByText(rs, v).Some? then ByText(rs, v) else ByAnchor(rs, v.lat, v.lng, Anchors(rs, rows, v.city))
  }

  function Decisions(rs: Resolvers, rows: seq<Venue>): (ds: seq<Option<Decision>>)
    ensures |ds| == |rows|
  {
    seq(|rows|, i requires 0 <= i < |rows| => Decide(rs, rows, rows[i]))
  }

  function Applied(v: Venue, d: Option<Decision>): Venue {
    match d
    case Some(x) => v.(ward := Some(x.ward), wardType := Some(x.wardType), how := Some(x.how))
    case None => if v.ward.Some? then v.(ward := None, wardType := None, how := None) else v
  }

  function After(rs: Resolvers, rows: seq<Venue>): (r: seq<Venue>)
    ensures |r| == |rows|
  {
    seq(|rows|, i requires 0 <= i < |rows| => Applied(rows[i], Decide(rs, rows, rows[i])))
  }

  datatype Stat = Stat(resolved: nat, total: nat, geo: nat)

  datatype Report = Report(resolved: nat, unresolved: nat, changed: nat, same: nat, perCity: map<string, Stat>)

  function StatOf(perCity: map<string, Stat>, city: string): Stat {
    if city in perCity then perCity[city] else Stat(0, 0, 0)
  }

  function Counted(s: Stat, d: Option<Decision>): Stat {
    Stat(s.resolved + if d.Some? then 1 else 0, s.total + 1, s.geo + if d.Some? && d.value.how == "geo" then 1 else 0)
  }

  /** One row of the report; an unresolved row that was empty is counted as neither
      changed nor unchanged. */
  function Noted(r: Report, v: Venue, d: Option<Decision>): Report {
    var flips := Applied(v, d) != v;
    Report(r.resolved + if d.Some? then 1 else 0,
           r.unresolved + if d.None? then 1 else 0,
           r.changed + if flips then 1 else 0,
           r.same + if d.Some? && !flips then 1 else 0,
           r.perCity[v.city := Counted(StatOf(r.perCity, v.city), d)])
  }

  function Tally(rows: seq<Venue>, ds: seq<Option<Decision>>): Report
    requires |rows| == |ds|
  {
    if rows == [] then Report(0, 0, 0, 0, map[])
    else Noted(Tally(rows[..|rows| - 1], ds[..|ds| - 1]), rows[|rows| - 1], ds[|ds| - 1])
  }

  // What the report says -------------------------------------------------------

  /** Adding up one column of the per-city table. */
  ghost function SumStats(m: map<string, Stat>, column: Stat -> nat): nat
    decreases |m|
  {
    if m == map[] then 0 else var k :| k in m; column(m[k]) + SumStats(m - {k}, column)
  }

  lemma {:induction false} SumWithout(m: map<string, Stat>, column: Stat -> nat, k: string)
    requires k in m
    ensures SumStats(m, column) == column(m[k]) + SumStats(m - {k}, column)
    decreases |m|
  {
    var p :| p in m && SumStats(m, column) == column(m[p]) + SumStats(m - {p}, column);
    if p != k {
      SumWithout(m - {p}, column, k);
      SumWithout(m - {k}, column, p);
      assert m - {p} - {k} == m - {k} - {p};
    }
  }

  lemma SumUpdate(m: map<string, Stat>, column: Stat -> nat, k: string, s: Stat)
    ensures SumStats(m[k := s], column) == SumStats(m, column) - (if k in m then column(m[k]) else 0) + column(s)
  {
    SumWithout(m[k := s], column, k);
    assert m[k := s] - {k} == m - {k};
    if k in m { SumWithout(m, column, k); } else { assert m - {k} == m; }
  }

  /** Resolved and unresolved make up all rows, and the cities make up the totals. */
  lemma {:induction false} TallyAddsUp(rows: seq<Venue>, ds: seq<Option<Decision>>)
    requires |rows| == |ds|
    ensures var r := Tally(rows, ds);
            && r.resolved + r.unresolved == |rows|
            && SumStats(r.perCity, (s: Stat) => s.total) == |rows|
            && SumStats(r.perCity, (s: Stat) => s.resolved) == r.resolved
  {
    if rows != [] {
      var n := |rows| - 1;
      var r := Tally(rows[..n], ds[..n]);
      TallyAddsUp(rows[..n], ds[..n]);
      var total: Stat -> nat, resolved: Stat -> nat := (s: Stat) => s.total, (s: Stat) => s.resolved;
      var s := Counted(StatOf(r.perCity, rows[n].city), ds[n]);
      SumUpdate(r.perCity, total, rows[n].city, s);
      SumUpdate(r.perCity, resolved, rows[n].city, s);
    }
  }

  /** No row is reported changed exactly when writing the decisions writes nothing new. */
  lemma {:induction false} NothingChangedIff(rows: seq<Venue>, ds: seq<Option<Decision>>)
    requires |rows| == |ds|
    ensures Tally(rows, ds).changed == 0 <==> forall i :: 0 <= i < |rows| ==> Applied(rows[i], ds[i]) == rows[i]
  {
    if rows != [] {
      var n := |rows| - 1;
      NothingChangedIff(rows[..n], ds[..n]);
      assert forall i :: 0 <= i < n ==> rows[..n][i] == rows[i] && ds[..n][i] == ds[i];
    }
  }

  /** The anchors of a city are the text-resolved venues of that city with coordinates. */
  lemma {:induction false} AnchorsIff(rs: Resolvers, rows: seq<Venue>, city: string, a: Anchor)
    ensures a in Anchors(rs, rows, city) <==>
            exists k :: 0 <= k < |rows| && IsAnchor(rs, rows[k], city, a)
  {
    if rows != [] {
      var n := |rows| - 1;
      AnchorsIff(rs, rows[..n], city, a);
      assert forall k :: 0 <= k < n ==> rows[..n][k] == rows[k];
    }
  }

  predicate IsAnchor(rs: Resolvers, v: Venue, city: string, a: Anchor) {
    var d := rs.text(v.district, v.address, v.city);
    && v.city == city && d.Some? && (v.lat != 0.0 || v.lng != 0.0)
    && a == Anchor(d.value.ward, d.value.wardType, v.lat, v.lng)
  }

  /** What an applying run leaves in a row: what text says; else, with coordinates, the ward
      of a nearest anchor of its city within fifteen kilometres; else nothing. */
  lemma RowAfter(rs: Resolvers, rows: seq<Venue>, i: nat)
    requires i < |rows|
    ensures var (v, w) := (rows[i], After(rs, rows)[i]);
            var (d, anchors) := (rs.text(v.district, v.address, v.city), Anchors(rs, rows, v.city));
            && SameInputs(v, w)
            && (d.Some? ==> (w.ward, w.wardType, w.how) == (Some(d.value.ward), Some(d.value.wardType), Some(d.value.how)))
            && (d.None? && (v.lat != 0.0 || v.lng != 0.0) && anchors != [] ==>
                  exists a :: IsNearest(rs, v.lat, v.lng, anchors, a)
                    && if rs.distanceKm(v.lat, v.lng, a.lat, a.lng) <= 15.0
                       then (w.ward, w.wardType, w.how) == (Some(a.ward), Some(a.wardType), Some("geo")) else w.ward == None)
            && (d.None? && ((v.lat == 0.0 && v.lng == 0.0) || anchors == []) ==> w.ward == None)
            && (w.ward == None && v.ward != None ==> w.wardType == None && w.how == None)
  {
    hide Anchors, Nearest, IsNearest;
    var v := rows[i];
    if Anchors(rs, rows, v.city) != [] {
      NearestIsFirst(rs, v.lat, v.lng, Anchors(rs, rows, v.city));
    }
  }

  /** The rows of a kind. */
  ghost function Among(rows: seq<Venue>, ds: seq<Option<Decision>>, p: (Venue, Option<Decision>) -> bool): set<nat>
    requires |rows| == |ds|
  {
    set i: nat | i < |rows| && p(rows[i], ds[i])
  }

  lemma AmongSnoc(rows: seq<Venue>, ds: seq<Option<Decision>>, p: (Venue, Option<Decision>) -> bool)
    requires |rows| == |ds| > 0
    ensures var n := |rows| - 1;
            |Among(rows, ds, p)| == |Among(rows[..n], ds[..n], p)| + if p(rows[n], ds[n]) then 1 else 0
  {
    var n := |rows| - 1;
    var before := Among(rows[..n], ds[..n], p);
    assert Among(rows, ds, p) == if p(rows[n], ds[n]) then before + {n} else before;
  }

  predicate Resolved(v: Venue, d: Option<Decision>) {
    d.Some?
  }

  predicate Unresolved(v: Venue, d: Option<Decision>) {
    d.None?
  }

  /** The stored columns are not those decided. */
  predicate Differs(v: Venue, d: Option<Decision>) {
    if d.Some? then (v.ward, v.wardType, v.how) != (Some(d.value.ward), Some(d.value.wardType), Some(d.value.how))
    else v.ward.Some?
  }

  predicate ResolvedAlready(v: Venue, d: Option<Decision>) {
    d.Some? && !Differs(v, d)
  }

  lemma DiffersIff(v: Venue, d: Option<Decision>)
    ensures Differs(v, d) <==> Applied(v, d) != v
  {
  }

  /** The four totals count what they say: resolved rows, the others, rows whose columns
      differ from the decision, and resolved rows whose columns do not. */
  lemma {:induction false} TallyCounts(rows: seq<Venue>, ds: seq<Option<Decision>>)
    requires |rows| == |ds|
    ensures var r := Tally(rows, ds);
            && r.resolved == |Among(rows, ds, Resolved)| && r.unresolved == |Among(rows, ds, Unresolved)|
            && r.changed == |Among(rows, ds, Differs)| && r.same == |Among(rows, ds, ResolvedAlready)|
  {
    hide Applied, Differs;
    if rows != [] {
      var n := |rows| - 1;
      TallyCounts(rows[..n], ds[..n]);
      DiffersIff(rows[n], ds[n]);
      AmongSnoc(rows, ds, Resolved);
      AmongSnoc(rows, ds, Unresolved);
      AmongSnoc(rows, ds, Differs);
      AmongSnoc(rows, ds, ResolvedAlready);
    }
  }

  /** And so do the columns of each city. */
  lemma {:induction false} CityCounts(rows: seq<Venue>, ds: seq<Option<Decision>>, city: string)
    requires |rows| == |ds|
    ensures var (s, inCity) := (StatOf(Tally(rows, ds).perCity, city), (v: Venue, d: Option<Decision>) => v.city == city);
            && s.total == |Among(rows, ds, inCity)|
            && s.resolved == |Among(rows, ds, InCity(city, false))| && s.geo == |Among(rows, ds, InCity(city, true))|
  {
    hide Applied;
    if rows != [] {
      var n := |rows| - 1;
      CityCounts(rows[..n], ds[..n], city);
      AmongSnoc(rows, ds, (v: Venue, d: Option<Decision>) => v.city == city);
      AmongSnoc(rows, ds, InCity(city, false));
      AmongSnoc(rows, ds, InCity(city, true));
    }
  }

  /** Resolved rows of a city, all or those placed by a neighbour. */
  function InCity(city: string, byNeighbour: bool): (Venue, Option<Decision>) -> bool {
    (v: Venue, d: Option<Decision>) => v.city == city && d.Some? && (byNeighbour ==> d.value.how == "geo")
  }

  // Running it again -------------------------------------------------------------

  /** The resolvers read nothing that is written. */
  ghost predicate SameInputs(v: Venue, w: Venue) {
    w == v.(ward := w.ward, wardType := w.wardType, how := w.how)
  }

  lemma {:induction false} AnchorsSame(rs: Resolvers, a: seq<Venue>, b: seq<Venue>, city: string)
    requires |a| == |b| && forall i :: 0 <= i < |a| ==> SameInputs(a[i], b[i])
    ensures Anchors(rs, a, city) == Anchors(rs, b, city)
  {
    if a != [] {
      AnchorsSame(rs, a[..|a| - 1], b[..|b| - 1], city);
      assert SameInputs(a[|a| - 1], b[|b| - 1]);
    }
  }

  /** A second run over the rows in the same order changes none of them. */
  lemma SecondRunChangesNothing(rs: Resolvers, rows: seq<Venue>)
    ensures After(rs, After(rs, rows)) == After(rs, rows)
    ensures Tally(After(rs, rows), Decisions(rs, After(rs, rows))).changed == 0
  {
    var next := After(rs, rows);
    forall i | 0 <= i < |rows| ensures Applied(next[i], Decide(rs, next, next[i])) == next[i] {
      assert SameInputs(rows[i], next[i]);
      AnchorsSame(rs, rows, next, rows[i].city);
    }
    NothingChangedIff(next, Decisions(rs, next));
  }

  // In any order ------------------------------------------------------------------

  /** An anchor that no other is nearer than. */
  ghost predicate IsNearest(rs: Resolvers, lat: real, lng: real, anchors: seq<Anchor>, a: Anchor) {
    a in anchors && forall x :: x in anchors ==> Away(rs, lat, lng, a) <= Away(rs, lat, lng, x)
  }

  /** What the fold finds: of the nearest anchors, the first. */
  lemma {:induction false} NearestIsFirst(rs: Resolvers, lat: real, lng: real, anchors: seq<Anchor>)
    requires anchors != []
    ensures var best := Nearest(rs, lat, lng, anchors).value;
            && IsNearest(rs, lat, lng, anchors, best)
            && forall x :: IsNearest(rs, lat, lng, anchors, x) ==>
                 FirstIndex(anchors, best) <= FirstIndex(anchors, x)
  {
    var t, a := anchors[..|anchors| - 1], anchors[|anchors| - 1];
    assert anchors == t + [a];
    if t != [] {
      NearestIsFirst(rs, lat, lng, t);
      var best := Nearest(rs, lat, lng, anchors).value;
      forall x | IsNearest(rs, lat, lng, anchors, x) ensures FirstIndex(anchors, best) <= FirstIndex(anchors, x) {
        if best in t { FirstIndexPrefix(t, anchors, best); }
        if x in t { FirstIndexPrefix(t, anchors, x); }
      }
    }
  }

  /** A nearest anchor is found when it stands first. */
  lemma {:induction false} NearestAtFront(rs: Resolvers, lat: real, lng: real, a: Anchor, rest: seq<Anchor>)
    requires IsNearest(rs, lat, lng, [a] + rest, a)
    ensures Nearest(rs, lat, lng, [a] + rest) == Some(a)
  {
    NearestIsFirst(rs, lat, lng, [a] + rest);
    assert FirstIndex([a] + rest, a) == 0;
  }

  /** The anchors of the city decide on one ward: those nearest, if within reach, name
      the same. */
  ghost predicate TiesAgree(rs: Resolvers, anchors: seq<Anchor>, lat: real, lng: real) {
    forall a, b ::
      (IsNearest(rs, lat, lng, anchors, a) && IsNearest(rs, lat, lng, anchors, b) && Away(rs, lat, lng, a) <= MAX_KM)
      ==> a.ward == b.ward && a.wardType == b.wardType
  }

  /** The condition on the rows before the first run: so it is for every venue that
      text leaves open and that has coordinates. */
  ghost predicate AllTiesAgree(rs: Resolvers, rows: seq<Venue>) {
    forall v :: v in rows && ByText(rs, v).None? && HasCoordinates(v) ==>
      TiesAgree(rs, Anchors(rs, rows, v.city), v.lat, v.lng)
  }

  /** Then the order of the anchors does not matter. */
  lemma OrderFree(rs: Resolvers, lat: real, lng: real, a: seq<Anchor>, b: seq<Anchor>)
    requires multiset(a) == multiset(b)
    requires lat != 0.0 || lng != 0.0 ==> TiesAgree(rs, a, lat, lng)
    ensures ByAnchor(rs, lat, lng, a) == ByAnchor(rs, lat, lng, b)
  {
    hide Nearest;
    assert forall x :: x in a <==> x in multiset(a);
    assert forall x :: x in b <==> x in multiset(b);
    if a != [] && b != [] {
      NearestIsFirst(rs, lat, lng, a);
      NearestIsFirst(rs, lat, lng, b);
      var x, y := Nearest(rs, lat, lng, a).value, Nearest(rs, lat, lng, b).value;
      assert IsNearest(rs, lat, lng, a, y);
    }
  }

  lemma AnchorsSnoc(rs: Resolvers, rows: seq<Venue>, v: Venue, city: string)
    ensures Anchors(rs, rows + [v], city) == Anchors(rs, rows, city) + AnchorOf(rs, v, city)
  {
    assert (rows + [v])[..|rows|] == rows;
  }

  lemma {:induction false} AnchorsWithout(rs: Resolvers, rows: seq<Venue>, i: nat, city: string)
    requires i < |rows|
    ensures multiset(Anchors(rs, rows, city)) ==
            multiset(Anchors(rs, rows[..i] + rows[i + 1..], city)) + multiset(AnchorOf(rs, rows[i], city))
  {
    hide AnchorOf, Anchors;
    var n := |rows| - 1;
    var t := rows[..n];
    assert rows == t + [rows[n]];
    AnchorsSnoc(rs, t, rows[n], city);
    if i == n {
      assert rows[..i] + rows[i + 1..] == t;
    } else {
      AnchorsWithout(rs, t, i, city);
      assert t[..i] == rows[..i];
      assert rows[..i] + rows[i + 1..] == (t[..i] + t[i + 1..]) + [rows[n]];
      AnchorsSnoc(rs, t[..i] + t[i + 1..], rows[n], city);
    }
  }

  lemma {:induction false} AnchorsOfPermutation(rs: Resolvers, a: seq<Venue>, b: seq<Venue>, city: string)
    requires multiset(a) == multiset(b)
    ensures multiset(Anchors(rs, a, city)) == multiset(Anchors(rs, b, city))
  {
    if a == [] {
      assert b == [] by { assert |multiset(b)| == 0; }
    } else {
      hide AnchorOf, Anchors;
      var n := |a| - 1;
      assert a == a[..n] + [a[n]];
      var i, front, rest := PermutationPartner(a, b);
      AnchorsOfPermutation(rs, front, rest, city);
      AnchorsWithout(rs, b, i, city);
      AnchorsSnoc(rs, a[..n], a[n], city);
    }
  }

  /** The query names no order, so the second run may meet the rows differently. */
  ghost predicate IdleInEveryOrder(rs: Resolvers, rows: seq<Venue>) {
    forall shuffled: seq<Venue> :: multiset(shuffled) == multiset(rows) ==>
      Tally(shuffled, Decisions(rs, shuffled)).changed == 0
  }

  lemma AnchorsOfCopy(rs: Resolvers, rows: seq<Venue>)
    ensures forall city :: Anchors(rs, After(rs, rows), city) == Anchors(rs, rows, city)
    ensures forall i :: 0 <= i < |rows| ==> SameInputs(rows[i], After(rs, rows)[i])
  {
    hide Anchors, Decide;
    forall i | 0 <= i < |rows| ensures SameInputs(rows[i], After(rs, rows)[i]) {}
    forall city ensures Anchors(rs, After(rs, rows), city) == Anchors(rs, rows, city) {
      AnchorsSame(rs, rows, After(rs, rows), city);
    }
  }

  lemma AgreeingTiesAreIdle(rs: Resolvers, rows: seq<Venue>, shuffled: seq<Venue>)
    requires AllTiesAgree(rs, rows) && multiset(shuffled) == multiset(After(rs, rows))
    ensures Tally(shuffled, Decisions(rs, shuffled)).changed == 0
  {
    hide ByAnchor, Anchors, TiesAgree;
    var next := After(rs, rows);
    SecondRunChangesNothing(rs, rows);
    AnchorsOfCopy(rs, rows);
    forall i | 0 <= i < |shuffled| ensures Applied(shuffled[i], Decide(rs, shuffled, shuffled[i])) == shuffled[i] {
      var v := shuffled[i];
      assert v in multiset(next);
      var j :| 0 <= j < |next| && next[j] == v;
      assert SameInputs(rows[j], v) && rows[j] in rows;
      assert After(rs, next)[j] == Applied(v, Decide(rs, next, v));
      AnchorsOfPermutation(rs, next, shuffled, v.city);
      if ByText(rs, v).None? {
        OrderFree(rs, v.lat, v.lng, Anchors(rs, next, v.city), Anchors(rs, shuffled, v.city));
      }
    }
    NothingChangedIff(shuffled, Decisions(rs, shuffled));
  }

  /** A row behind each anchor. */
  lemma {:induction false} AnchorHasRow(rs: Resolvers, rows: seq<Venue>, city: string, a: Anchor) returns (k: nat)
    requires a in Anchors(rs, rows, city)
    ensures k < |rows| && AnchorOf(rs, rows[k], city) == [a]
  {
    var n := |rows| - 1;
    if a in Anchors(rs, rows[..n], city) { k := AnchorHasRow(rs, rows[..n], city, a); } else { k := n; }
  }

  lemma {:induction false} AnchorsCons(rs: Resolvers, v: Venue, rows: seq<Venue>, city: string)
    ensures Anchors(rs, [v] + rows, city) == AnchorOf(rs, v, city) + Anchors(rs, rows, city)
  {
    if rows == [] {
      assert [v] + rows == [v] && [v][..0] == [];
    } else {
      var n := |rows| - 1;
      AnchorsCons(rs, v, rows[..n], city);
      assert ([v] + rows)[..n + 1] == [v] + rows[..n];
    }
  }

  lemma NearestInAnyOrder(rs: Resolvers, lat: real, lng: real, a: seq<Anchor>, b: seq<Anchor>, x: Anchor)
    requires multiset(a) == multiset(b) && IsNearest(rs, lat, lng, a, x)
    ensures IsNearest(rs, lat, lng, b, x)
  {
    assert forall y :: y in a <==> y in multiset(a);
    assert forall y :: y in b <==> y in multiset(b);
  }

  /** The rows with the one behind a nearest anchor moved to the front, where the fold
      finds it. */
  lemma MovedToFront(rs: Resolvers, rows: seq<Venue>, city: string, lat: real, lng: real, x: Anchor)
    returns (shuffled: seq<Venue>)
    requires IsNearest(rs, lat, lng, Anchors(rs, rows, city), x)
    ensures multiset(shuffled) == multiset(rows)
    ensures Nearest(rs, lat, lng, Anchors(rs, shuffled, city)) == Some(x)
  {
    hide Nearest, Anchors, AnchorOf;
    var k := AnchorHasRow(rs, rows, city, x);
    var rest := rows[..k] + rows[k + 1..];
    shuffled := [rows[k]] + rest;
    MultisetWithout(rows, k);
    AnchorsCons(rs, rows[k], rest, city);
    AnchorsOfPermutation(rs, rows, shuffled, city);
    NearestInAnyOrder(rs, lat, lng, Anchors(rs, rows, city), Anchors(rs, shuffled, city), x);
    NearestAtFront(rs, lat, lng, x, Anchors(rs, rest, city));
  }

  /** Two nearest anchors that disagree: put the one not taken first, and a row flips. */
  lemma DisagreeingTieFlips(rs: Resolvers, rows: seq<Venue>, i: nat, x: Anchor) returns (shuffled: seq<Venue>)
    requires i < |rows| && ByText(rs, rows[i]).None? && HasCoordinates(rows[i])
    requires var v, anchors := rows[i], Anchors(rs, rows, rows[i].city);
             IsNearest(rs, v.lat, v.lng, anchors, x) && Away(rs, v.lat, v.lng, x) <= MAX_KM
             && var taken := Nearest(rs, v.lat, v.lng, anchors).value;
                taken.ward != x.ward || taken.wardType != x.wardType
    ensures multiset(shuffled) == multiset(After(rs, rows))
    ensures Tally(shuffled, Decisions(rs, shuffled)).changed != 0
  {
    hide Nearest, Anchors, Decisions, AnchorOf, After, Tally;
    var next, v := After(rs, rows), rows[i];
    AnchorsOfCopy(rs, rows);
    var w := next[i];
    assert SameInputs(v, w);
    TakenIsWritten(rs, rows, i, x);
    shuffled := MovedToFront(rs, next, v.city, v.lat, v.lng, x);
    assert w in multiset(shuffled) by { assert w in next; }
    var j :| 0 <= j < |shuffled| && shuffled[j] == w;
    DecisionAt(rs, shuffled, j);
    NothingChangedIff(shuffled, Decisions(rs, shuffled));
  }

  lemma DecisionAt(rs: Resolvers, rows: seq<Venue>, j: nat)
    requires j < |rows|
    ensures Decisions(rs, rows)[j] == Decide(rs, rows, rows[j])
  {
  }

  lemma TakenIsWritten(rs: Resolvers, rows: seq<Venue>, i: nat, x: Anchor)
    requires i < |rows| && ByText(rs, rows[i]).None? && HasCoordinates(rows[i])
    requires var v, anchors := rows[i], Anchors(rs, rows, rows[i].city);
             IsNearest(rs, v.lat, v.lng, anchors, x) && Away(rs, v.lat, v.lng, x) <= MAX_KM
    ensures var taken := Nearest(rs, rows[i].lat, rows[i].lng, Anchors(rs, rows, rows[i].city)).value;
            After(rs, rows)[i].ward == Some(taken.ward) && After(rs, rows)[i].wardType == Some(taken.wardType)
  {
    hide Nearest, Anchors;
    NearestIsFirst(rs, rows[i].lat, rows[i].lng, Anchors(rs, rows, rows[i].city));
  }

  /** Exactly when a second run is idle whatever order the rows come in: no venue has
      two nearest anchors, within reach, of different wards. */
  lemma SecondRunIdleIff(rs: Resolvers, rows: seq<Venue>)
    ensures IdleInEveryOrder(rs, After(rs, rows)) <==> AllTiesAgree(rs, rows)
  {
    hide After, Tally, Decisions, Anchors, Nearest, ByText, IsNearest;
    if AllTiesAgree(rs, rows) {
      forall shuffled: seq<Venue> | multiset(shuffled) == multiset(After(rs, rows))
        ensures Tally(shuffled, Decisions(rs, shuffled)).changed == 0
      {
        AgreeingTiesAreIdle(rs, rows, shuffled);
      }
    } else {
      var v :| v in rows && ByText(rs, v).None? && HasCoordinates(v)
               && !TiesAgree(rs, Anchors(rs, rows, v.city), v.lat, v.lng);
      var i :| 0 <= i < |rows| && rows[i] == v;
      var anchors := Anchors(rs, rows, v.city);
      var x := OtherThanTaken(rs, anchors, v.lat, v.lng);
      var shuffled := DisagreeingTieFlips(rs, rows, i, x);
    }
  }

  lemma OtherThanTaken(rs: Resolvers, anchors: seq<Anchor>, lat: real, lng: real) returns (x: Anchor)
    requires !TiesAgree(rs, anchors, lat, lng)
    ensures anchors != [] && IsNearest(rs, lat, lng, anchors, x) && Away(rs, lat, lng, x) <= MAX_KM
    ensures var taken := Nearest(rs, lat, lng, anchors).value; taken.ward != x.ward || taken.wardType != x.wardType
  {
    var a, b :| IsNearest(rs, lat, lng, anchors, a) && IsNearest(rs, lat, lng, anchors, b)
                && Away(rs, lat, lng, a) <= MAX_KM && !(a.ward == b.ward && a.wardType == b.wardType);
    var taken := Nearest(rs, lat, lng, anchors).value;
    x := if taken.ward != a.ward || taken.wardType != a.wardType then a else b;
  }

  function DistrictIsWard(district: Option<string>, address: Option<string>, city: string): Option<Decision> {
    if district.Some? then Some(Decision(district.value, "phuong", "exact")) else None
  }

  /** Such an input: two venues at one address in different wards, and one beside them
      that text cannot place. With any distance that is zero between equal points, the
      row flips when the next run meets the two in the other order. */
  lemma CoincidentAnchorsFlip(distanceKm: (real, real, real, real) -> real)
    requires distanceKm(1.0, 1.0, 1.0, 1.0) == 0.0
    ensures var rs := Resolvers(DistrictIsWard, distanceKm);
            var p := Venue("p", "c", Some("P"), None, 1.0, 1.0, None, None, None);
            var q := Venue("q", "c", Some("Q"), None, 1.0, 1.0, None, None, None);
            var v := Venue("v", "c", None, None, 1.0, 1.0, None, None, None);
            After(rs, [p, q, v])[2].ward == Some("P") && After(rs, [q, p, v])[2].ward == Some("Q")
            && !IdleInEveryOrder(rs, After(rs, [p, q, v]))
  {
    var rs := Resolvers(DistrictIsWard, distanceKm);
    var p := Venue("p", "c", Some("P"), None, 1.0, 1.0, None, None, None);
    var q := Venue("q", "c", Some("Q"), None, 1.0, 1.0, None, None, None);
    var v := Venue("v", "c", None, None, 1.0, 1.0, None, None, None);
    ThreeAnchors(rs, p, q, v);
    ThreeAnchors(rs, q, p, v);
    var a, b := Anchor("P", "phuong", 1.0, 1.0), Anchor("Q", "phuong", 1.0, 1.0);
    assert AnchorOf(rs, p, "c") == [a] && AnchorOf(rs, q, "c") == [b] && AnchorOf(rs, v, "c") == [];
    assert Anchors(rs, [p, q, v], "c") == [a] + [b] && Anchors(rs, [q, p, v], "c") == [b] + [a];
    assert IsNearest(rs, 1.0, 1.0, [a] + [b], a) && IsNearest(rs, 1.0, 1.0, [b] + [a], b);
    NearestAtFront(rs, 1.0, 1.0, a, [b]);
    NearestAtFront(rs, 1.0, 1.0, b, [a]);
    assert IsNearest(rs, 1.0, 1.0, [a] + [b], b);
    assert v in [p, q, v] && !TiesAgree(rs, Anchors(rs, [p, q, v], "c"), v.lat, v.lng);
    SecondRunIdleIff(rs, [p, q, v]);
  }

  lemma ThreeAnchors(rs: Resolvers, p: Venue, q: Venue, v: Venue)
    ensures Anchors(rs, [p, q, v], "c") == AnchorOf(rs, p, "c") + AnchorOf(rs, q, "c") + AnchorOf(rs, v, "c")
  {
    AnchorsSnoc(rs, [], p, "c");
    AnchorsSnoc(rs, [p], q, "c");
    AnchorsSnoc(rs, [p, q], v, "c");
    assert [] + [p] == [p] && [p] + [q] == [p, q] && [p, q] + [v] == [p, q, v];
  }

  // The script ---------------------------------------------------------------------

  ghost predicate DistinctIds(rows: seq<Venue>) {
    forall i, j :: 0 <= i < j < |rows| ==> rows[i].id != rows[j].id
  }

  /** The table built so far holds the anchors of every city. */
  ghost predicate AnchorTable(rs: Resolvers, rows: seq<Venue>, table: map<string, seq<Anchor>>) {
    forall c :: Anchors(rs, rows, c) == if c in table then table[c] else []
  }

  lemma AnchorTableStep(rs: Resolvers, rows: seq<Venue>, v: Venue, table: map<string, seq<Anchor>>)
    requires AnchorTable(rs, rows, table)
    ensures AnchorOf(rs, v, v.city) == [] ==> AnchorTable(rs, rows + [v], table)
    ensures AnchorOf(rs, v, v.city) != [] ==>
              AnchorTable(rs, rows + [v], table[v.city := Anchors(rs, rows, v.city) + AnchorOf(rs, v, v.city)])
  {
    hide Anchors;
    forall c ensures Anchors(rs, rows + [v], c) == Anchors(rs, rows, c) + if c == v.city then AnchorOf(rs, v, c) else [] {
      AnchorsSnoc(rs, rows, v, c);
    }
  }

  lemma NoAnchors(rs: Resolvers)
    ensures AnchorTable(rs, [], map[])
  {
  }

  lemma AnchorTableAt(rs: Resolvers, rows: seq<Venue>, table: map<string, seq<Anchor>>, c: string)
    requires AnchorTable(rs, rows, table)
    ensures Anchors(rs, rows, c) == if c in table then table[c] else []
  {
  }

  class Backfill {
    /** The published venues, in the order the query returns them. */
    var venues: seq<Venue>

    /** Pass 1: text decisions, and the anchors they give, city by city. */
    method TextPass(rs: Resolvers)
      returns (staged: map<Id, Option<Decision>>, anchorsByCity: map<string, seq<Anchor>>)
      requires DistinctIds(venues)
      ensures forall i :: 0 <= i < |venues| ==> venues[i].id in staged && staged[venues[i].id] == ByText(rs, venues[i])
      ensures AnchorTable(rs, venues, anchorsByCity)
    {
      hide AnchorTable, Anchors;
      staged, anchorsByCity := map[], map[];
      NoAnchors(rs);
      for i := 0 to |venues|
        invariant forall j :: 0 <= j < i ==> venues[j].id in staged && staged[venues[j].id] == ByText(rs, venues[j])
        invariant AnchorTable(rs, venues[..i], anchorsByCity)
      {
        var v := venues[i];
        var r := rs.text(v.district, v.address, v.city);
        assert venues[..i + 1] == venues[..i] + [v];
        AnchorTableStep(rs, venues[..i], v, anchorsByCity);
        AnchorTableAt(rs, venues[..i], anchorsByCity, v.city);
        staged := staged[v.id := r];
        if r.Some? && (v.lat != 0.0 || v.lng != 0.0) {
          var list := if v.city in anchorsByCity then anchorsByCity[v.city] else [];
          list := list + [Anchor(r.value.ward, r.value.wardType, v.lat, v.lng)];
          anchorsByCity := anchorsByCity[v.city := list];
        }
      }
      assert venues[..|venues|] == venues;
    }

    static method ResolveByNearestAnchor(rs: Resolvers, lat: real, lng: real, anchors: seq<Anchor>)
      returns (r: Option<Decision>)
      ensures r == ByAnchor(rs, lat, lng, anchors)
    {
      if |anchors| == 0 || (lat == 0.0 && lng == 0.0) {
        return None;
      }
      var best: Option<Anchor>, bestDist := None, 0.0; // no anchor yet: infinitely far
      for i := 0 to |anchors|
        invariant best == Nearest(rs, lat, lng, anchors[..i])
        invariant best.Some? ==> bestDist == Away(rs, lat, lng, best.value)
      {
        assert anchors[..i + 1][..i] == anchors[..i];
        var d := rs.distanceKm(lat, lng, anchors[i].lat, anchors[i].lng);
        if best.None? || d < bestDist {
          best, bestDist := Some(anchors[i]), d;
        }
      }
      assert anchors[..|anchors|] == anchors;
      if best.None? || bestDist > MAX_KM {
        return None;
      }
      r := Some(Decision(best.value.ward, best.value.wardType, "geo"));
    }

    /** Pass 2: the nearest anchor for what text missed. */
    method GeoPass(rs: Resolvers, byText: map<Id, Option<Decision>>, anchorsByCity: map<string, seq<Anchor>>)
      returns (staged: map<Id, Option<Decision>>)
      requires DistinctIds(venues)
      requires forall i :: 0 <= i < |venues| ==> venues[i].id in byText && byText[venues[i].id] == ByText(rs, venues[i])
      requires AnchorTable(rs, venues, anchorsByCity)
      ensures forall i :: 0 <= i < |venues| ==>
                venues[i].id in staged && staged[venues[i].id] == Decide(rs, venues, venues[i])
    {
      hide Anchors;
      staged := byText;
      for i := 0 to |venues|
        invariant forall j :: 0 <= j < |venues| ==> venues[j].id in staged
        invariant forall j :: 0 <= j < i ==> staged[venues[j].id] == Decide(rs, venues, venues[j])
        invariant forall j :: i <= j < |venues| ==> staged[venues[j].id] == ByText(rs, venues[j])
      {
        var v := venues[i];
        if staged[v.id].Some? {
          continue;
        }
        var anchors := if v.city in anchorsByCity then anchorsByCity[v.city] else [];
        var r := ResolveByNearestAnchor(rs, v.lat, v.lng, anchors);
        if r.Some? {
          staged := staged[v.id := r];
        }
      }
    }

    /** Counting one row, and whether its stored columns differ from the decision. */
    static method CountRow(r: Report, v: Venue, decision: Option<Decision>) returns (next: Report, flips: bool)
      ensures next == Noted(r, v, decision) && flips == (Applied(v, decision) != v)
    {
      next := r;
      var stat := if v.city in r.perCity then r.perCity[v.city] else Stat(0, 0, 0);
      stat := stat.(total := stat.total + 1);
      if decision.Some? {
        var d := decision.value;
        next := next.(resolved := next.resolved + 1);
        stat := stat.(resolved := stat.resolved + 1);
        if d.how == "geo" {
          stat := stat.(geo := stat.geo + 1);
        }
        flips := v.ward != Some(d.ward) || v.wardType != Some(d.wardType) || v.how != Some(d.how);
        if flips {
          next := next.(changed := next.changed + 1);
        } else {
          next := next.(same := next.same + 1);
        }
      } else {
        next := next.(unresolved := next.unresolved + 1);
        flips := v.ward.Some?;
        if flips {
          next := next.(changed := next.changed + 1);
        }
      }
      next := next.(perCity := next.perCity[v.city := stat]);
    }

    /** Pass 3: count, and with `apply` write. */
    method WritePass(staged: map<Id, Option<Decision>>, ghost ds: seq<Option<Decision>>, apply: bool) returns (r: Report)
      requires |ds| == |venues|
      requires forall i :: 0 <= i < |venues| ==> venues[i].id in staged && staged[venues[i].id] == ds[i]
      modifies this
      ensures r == Tally(old(venues), ds)
      ensures |venues| == |old(venues)|
      ensures forall i :: 0 <= i < |venues| ==>
                venues[i] == if apply then Applied(old(venues)[i], ds[i]) else old(venues)[i]
    {
      hide Noted;
      var rows := venues;
      r := Report(0, 0, 0, 0, map[]);
      for i := 0 to |rows|
        invariant |venues| == |rows| && r == Tally(rows[..i], ds[..i])
        invariant forall j :: 0 <= j < |rows| ==> venues[j] == if apply && j < i then Applied(rows[j], ds[j]) else rows[j]
      {
        var v := rows[i];
        var decision := staged[v.id];
        assert rows[..i + 1][..i] == rows[..i] && ds[..i + 1][..i] == ds[..i];
        var flips;
        r, flips := CountRow(r, v, decision);
        if flips && apply {
          if decision.Some? {
            var d := decision.value;
            venues := venues[i := v.(ward := Some(d.ward), wardType := Some(d.wardType), how := Some(d.how))];
          } else {
            venues := venues[i := v.(ward := None, wardType := None, how := None)];
          }
        }
      }
      assert rows[..|rows|] == rows && ds[..|rows|] == ds;
    }

    /** The three passes refine the one-line decision; a dry run reports what an
        applying run would. */
    method Run(rs: Resolvers, apply: bool) returns (r: Report)
      requires DistinctIds(venues)
      modifies this
      ensures r == Tally(old(venues), Decisions(rs, old(venues)))
      ensures venues == if apply then After(rs, old(venues)) else old(venues)
    {
      hide Anchors, Tally, Applied;
      var byText, anchorsByCity := TextPass(rs);
      var staged := GeoPass(rs, byText, anchorsByCity);
      r := WritePass(staged, Decisions(rs, venues), apply);
    }
  }
}
