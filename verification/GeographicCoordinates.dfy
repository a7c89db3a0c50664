/** Geographic coordinates: longitudes that differ by whole turns are the same, latitudes end at the poles. */
module GeographicCoordinates {
  import opened Options
  import opened JsonDocument
  import opened JsonPatch
  import opened ListDiff

  datatype Coordinate = Coordinate(longitude: real, latitude: real)

  // ---------- Longitudes ----------

  predicate InRange(lon: real) {
    -180.0 < lon <= 180.0
  }

  function Turned(lon: real, turns: int): real {
    lon + 360.0 * turns as real
  }

  /** The number of turns that brings a longitude into the range. */
  function TurnsFor(lon: real): int {
    ((180.0 - lon) / 360.0).Floor
  }

  function Rationalised(lon: real): (r: real)
    ensures InRange(r)
  {
    Turned(lon, TurnsFor(lon))
  }

  lemma OneInRange(lon: real, m: int, n: int)
    requires InRange(Turned(lon, m)) && InRange(Turned(lon, n))
    ensures m == n
  {
    assert -360.0 < 360.0 * (m - n) as real < 360.0;
  }

  /** Whole turns are added, or taken away, one by one. */
  method RationaliseLongitude(lon: real) returns (r: real)
    ensures r == Rationalised(lon)
  {
    r := lon;
    ghost var turns := 0;
    while r <= -180.0
      invariant r == Turned(lon, turns)
      decreases -180.0 - r
    {
      r, turns := r + 360.0, turns + 1;
    }
    while r > 180.0
      invariant r == Turned(lon, turns) && r > -180.0
      decreases r
    {
      r, turns := r - 360.0, turns - 1;
    }
    OneInRange(lon, turns, TurnsFor(lon));
  }

  /** Two longitudes are taken for the same exactly when they differ by whole turns. */
  lemma SameLongitude(a: real, b: real)
    ensures Rationalised(a) == Rationalised(b) <==> exists turns: int :: b == Turned(a, turns)
  {
    if Rationalised(a) == Rationalised(b) {
      assert b == Turned(a, TurnsFor(a) - TurnsFor(b));
    }
    if turns: int :| b == Turned(a, turns) {
      assert Turned(a, turns + TurnsFor(b)) == Rationalised(b);
      OneInRange(a, turns + TurnsFor(b), TurnsFor(a));
    }
  }

  function Trimmed(lat: real): real {
    if lat < -90.0 then -90.0 else if lat > 90.0 then 90.0 else lat
  }

  function Distance(a: real, b: real): real {
    if a < b then b - a else a - b
  }

  /** The latitude that is kept is the nearest one there is. */
  lemma TrimmedIsNearest(lat: real, other: real)
    requires -90.0 <= other <= 90.0
    ensures -90.0 <= Trimmed(lat) <= 90.0 && Distance(lat, Trimmed(lat)) <= Distance(lat, other)
    ensures Distance(lat, other) == Distance(lat, Trimmed(lat)) ==> other == Trimmed(lat)
  {
  }

  predicate SameCoordinate(a: Coordinate, b: Coordinate) {
    Rationalised(a.longitude) == Rationalised(b.longitude) && Trimmed(a.latitude) == Trimmed(b.latitude)
  }

  /** What setting or copying a coordinate leaves in it. */
  function Normal(c: Coordinate): Coordinate {
    Coordinate(Rationalised(c.longitude), Trimmed(c.latitude))
  }

  /** A normal coordinate is the only one of its kind, and every coordinate has one. */
  lemma NormalRepresents(a: Coordinate, b: Coordinate)
    ensures SameCoordinate(a, Normal(a)) && Normal(Normal(a)) == Normal(a)
    ensures SameCoordinate(a, b) <==> Normal(a) == Normal(b)
  {
    assert Turned(Rationalised(a.longitude), 0) == Rationalised(a.longitude);
    OneInRange(Rationalised(a.longitude), 0, TurnsFor(Rationalised(a.longitude)));
  }

  // ---------- Lists of coordinates ----------

  function CoordinateDoc(c: Coordinate): Json {
    Object(map["lon" := Number(c.longitude), "lat" := Number(c.latitude)])
  }

  lemma CoordinateDocInjective(a: Coordinate, b: Coordinate)
    requires CoordinateDoc(a) == CoordinateDoc(b)
    ensures a == b
  {
    var x, y := CoordinateDoc(a).members, CoordinateDoc(b).members;
    assert x["lon"] == y["lon"] && x["lat"] == y["lat"];
  }

  /** Longitude and latitude are where they are looked for. */
  lemma CoordinateReads(c: Coordinate)
    ensures Member(CoordinateDoc(c).members, "lon") == Some(Number(c.longitude))
    ensures Member(CoordinateDoc(c).members, "lat") == Some(Number(c.latitude))
  {
  }

  function CoordinatesDiff(a: seq<Coordinate>, b: seq<Coordinate>): seq<Patch> {
    PlainDiff(a, b, SameCoordinate, CoordinateDoc, AtDash)
  }

  /**
   The list diff is exact if and only if no coordinate is replaced by another form of the same one; lists whose
   coordinates are normal, as setting and copying leave them, always meet this.
   */
  lemma CoordinatesDiffApplies(a: seq<Coordinate>, b: seq<Coordinate>)
    ensures ApplyAllToSlot(ListSlot(a, CoordinateDoc), CoordinatesDiff(a, b)) == Some(ListSlot(b, CoordinateDoc)) <==>
            forall i :: 0 <= i < |a| && i < |b| && SameCoordinate(a[i], b[i]) ==> a[i] == b[i]
    ensures (forall i :: 0 <= i < |a| ==> a[i] == Normal(a[i])) && (forall i :: 0 <= i < |b| ==> b[i] == Normal(b[i])) ==>
              forall i :: 0 <= i < |a| && i < |b| && SameCoordinate(a[i], b[i]) ==> a[i] == b[i]
  {
    PlainDiffApplies(a, b, SameCoordinate, CoordinateDoc, AtDash);
    forall i | 0 <= i < |a| && i < |b|
      ensures CoordinateDoc(a[i]) == CoordinateDoc(b[i]) ==> a[i] == b[i]
      ensures SameCoordinate(a[i], b[i]) <==> Normal(a[i]) == Normal(b[i])
    {
      NormalRepresents(a[i], b[i]);
      if CoordinateDoc(a[i]) == CoordinateDoc(b[i]) {
        CoordinateDocInjective(a[i], b[i]);
      }
    }
  }
}
