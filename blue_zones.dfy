/** `add_blue_zones` (find_parking_meters.py): the accessible-curb ("blue zone") rows
    whose decoded shape starts inside the Battery boundary become map polygons, a
    box at that first point named after the address, cross street and street side;
    `zone_count` counts them. The shape is decoded with `wkt_to_kml` in dry mode, so
    decoding adds nothing to the document. */
module BlueZones {
  import opened Common
  import opened Text
  import opened Wkt
  import opened MeterDefs
  import opened ParkingMeters

  /** The cells of an Accessible_Curb__Blue_Zone_.tsv row that the loop reads. */
  datatype BlueZoneRow = BlueZoneRow(
    shape: string, stside: string, address: string, crossst: string, sitedetail: string, spaceleng: string)

  /** A polygon added for a blue zone. */
  datatype Zone<F> = Zone(name: string, ring: seq<(F, F)>, style: StyleSpec)

  /** What one row does: nothing, adds a zone, or raises. */
  datatype Outcome<F> = Skipped | Added(zone: Zone<F>) | Raised(error: Error)

  /** The polygon name: address and cross street, site detail, the normalised street
      side and the length of the space. */
  function ZoneName(z: BlueZoneRow, side: string): string
  {
    z.address + " & " + z.crossst + ", " + z.sitedetail + " " +
    "on the " + side + " side of the street.\n" +
    "Length: " + z.spaceleng
  }

  /** One pass of the loop body. An empty shape is skipped before decoding; a shape
      that does not decode raises (AttributeError or ValueError), one with no
      coordinates raises IndexError on `coords[0]`; a first point outside the
      boundary is skipped; an unknown street side raises KeyError. */
  function Visit<F>(g: Geo<F>, z: BlueZoneRow): Outcome<F>
  {
    if z.shape == "" then Skipped
    else
      match Decode(z.shape, g.parseFloat)
      case Failure(e) => Raised(e)
      case Success(geo) =>
        if geo.coords == [] then Raised(IndexError)
        else if !g.inBattery(geo.coords[0]) then Skipped
        else if Lower(z.stside) !in StreetSide then Raised(KeyError)
        else
          var p := geo.coords[0];
          Added(Zone(ZoneName(z, StreetSide[Lower(z.stside)]),
                     MakeMeter(g, p.0, p.1, g.blueWidth, g.blueLength), BlueZoneStyle))
  }

  /** The first point of a decoded shape, when it decodes and has one. */
  function FirstPoint<F>(g: Geo<F>, z: BlueZoneRow): Option<(F, F)>
  {
    match Decode(z.shape, g.parseFloat)
    case Failure(_) => None
    case Success(geo) => if geo.coords == [] then None else Some(geo.coords[0])
  }

  /** A row adds a zone exactly when its shape is non-empty and decodes to at least
      one point, that first point lies inside the Battery boundary, and its
      lower-cased street side is a key of the side table. The zone is the closed
      blue-zone box anchored at that point, in the blue-zone style, and its name
      carries the normalised side. */
  lemma VisitAdds<F>(g: Geo<F>, z: BlueZoneRow)
    ensures Visit(g, z).Added? <==>
      z.shape != "" && FirstPoint(g, z).Some? && g.inBattery(FirstPoint(g, z).value) && Lower(z.stside) in StreetSide
    ensures Visit(g, z).Added? ==>
      var zone, p := Visit(g, z).zone, FirstPoint(g, z).value;
      && |zone.ring| == 5 && zone.ring[0] == p && zone.ring[4] == p
      && zone.style == BlueZoneStyle
      && zone.name == ZoneName(z, StreetSide[Lower(z.stside)])
  {
  }

  /** Rows that are skipped: an empty shape, whatever the rest of the row holds, and a
      shape whose first point is outside the boundary, whatever its street side. */
  lemma VisitSkips<F>(g: Geo<F>, z: BlueZoneRow)
    ensures z.shape == "" ==> Visit(g, z) == Skipped
    ensures z.shape != "" && FirstPoint(g, z).Some? && !g.inBattery(FirstPoint(g, z).value) ==> Visit(g, z) == Skipped
  {
  }

  /** Rows that raise: a non-empty shape that does not decode raises what the decoder
      raises, one with no points raises IndexError, and a zone inside the boundary on
      a side the table does not know (such as "nw") raises KeyError. */
  lemma VisitRaises<F>(g: Geo<F>, z: BlueZoneRow)
    ensures z.shape != "" && Decode(z.shape, g.parseFloat).Failure? ==>
      Visit(g, z) == Raised(Decode(z.shape, g.parseFloat).error)
    ensures z.shape != "" && Decode(z.shape, g.parseFloat).Success? && Decode(z.shape, g.parseFloat).value.coords == [] ==>
      Visit(g, z) == Raised(IndexError)
    ensures z.shape != "" && FirstPoint(g, z).Some? && g.inBattery(FirstPoint(g, z).value) && Lower(z.stside) == "nw" ==>
      Visit(g, z) == Raised(KeyError)
  {
    MissingSides();
  }

  /** A side is looked up after lower-casing, so "NE" and "ne" name the same side. */
  lemma SideIgnoresCase<F>(g: Geo<F>, z: BlueZoneRow, w: BlueZoneRow)
    requires z == w.(stside := z.stside) && Lower(z.stside) == Lower(w.stside)
    ensures Visit(g, z) == Visit(g, w)
  {
  }

  function AddedSel<F>(g: Geo<F>): BlueZoneRow -> bool
  {
    z => Visit(g, z).Added?
  }

  /** No row raises. */
  predicate NoZoneErrors<F>(g: Geo<F>, rows: seq<BlueZoneRow>)
  {
    forall i :: 0 <= i < |rows| ==> !Visit(g, rows[i]).Raised?
  }

  /** A row that does not raise keeps a run free of errors. */
  lemma NoZoneErrorsStep<F>(g: Geo<F>, rows: seq<BlueZoneRow>, i: nat)
    requires i < |rows| && NoZoneErrors(g, rows[..i]) && !Visit(g, rows[i]).Raised?
    ensures NoZoneErrors(g, rows[..i + 1])
  {
    var next := rows[..i + 1];
    forall j | 0 <= j < |next| ensures !Visit(g, next[j]).Raised? {
      assert next[j] == rows[j];
      if j < i {
        assert rows[..i][j] == rows[j];
      }
    }
  }

  /** `e` is what the first raising row raises. */
  predicate FirstZoneErrorIs<F>(g: Geo<F>, rows: seq<BlueZoneRow>, e: Error)
  {
    exists i :: 0 <= i < |rows| && Visit(g, rows[i]) == Raised(e) && NoZoneErrors(g, rows[..i])
  }

  /** `zones` are the zones of `added`, in order. */
  ghost predicate ZonesOf<F>(g: Geo<F>, added: seq<BlueZoneRow>, zones: seq<Zone<F>>)
  {
    |zones| == |added| && forall k :: 0 <= k < |zones| ==> Visit(g, added[k]) == Added(zones[k])
  }

  /** The result of a run that does not raise: the counter and the added polygons. */
  datatype ZoneRun<F> = ZoneRun(zoneCount: nat, zones: seq<Zone<F>>)

  /** What the loop holds after the rows `done`: none raised, the polygons are the
      zones of the rows that add one, and the counter counts them. */
  ghost predicate RunOf<F>(g: Geo<F>, done: seq<BlueZoneRow>, run: ZoneRun<F>)
  {
    && NoZoneErrors(g, done)
    && ZonesOf(g, Filter(done, AddedSel(g)), run.zones)
    && run.zoneCount == |run.zones|
  }

  /** One more row in the loop keeps the counter and the polygons in step with the rows
      read so far. */
  lemma ZoneStep<F>(g: Geo<F>, rows: seq<BlueZoneRow>, i: nat, zones: seq<Zone<F>>)
    requires i < |rows| && ZonesOf(g, Filter(rows[..i], AddedSel(g)), zones)
    ensures Visit(g, rows[i]).Added? ==> ZonesOf(g, Filter(rows[..i + 1], AddedSel(g)), zones + [Visit(g, rows[i]).zone])
    ensures !Visit(g, rows[i]).Added? ==> ZonesOf(g, Filter(rows[..i + 1], AddedSel(g)), zones)
  {
    var done, z := rows[..i], rows[i];
    assert rows[..i + 1] == done + [z];
    FilterAppend(done, z, AddedSel(g));
    var added := Filter(done, AddedSel(g));
    assert forall k :: 0 <= k < |added| ==> (added + [z])[k] == added[k];
  }

  /** A raising row after rows that raise nothing is the first error of the run. */
  lemma FirstZoneError<F>(g: Geo<F>, rows: seq<BlueZoneRow>, i: nat, e: Error)
    requires i < |rows| && NoZoneErrors(g, rows[..i]) && Visit(g, rows[i]) == Raised(e)
    ensures FirstZoneErrorIs(g, rows, e) && !NoZoneErrors(g, rows)
  {
  }

  /** One pass of the loop body: the row raises, or the run takes in its zone, if any. */
  method VisitRow<F>(g: Geo<F>, rows: seq<BlueZoneRow>, i: nat, run: ZoneRun<F>) returns (r: Result<ZoneRun<F>>)
    requires i < |rows| && RunOf(g, rows[..i], run)
    ensures r.Success? <==> !Visit(g, rows[i]).Raised?
    ensures r.Failure? ==> Visit(g, rows[i]) == Raised(r.error)
    ensures r.Success? ==> RunOf(g, rows[..i + 1], r.value)
  {
    var o := Visit(g, rows[i]);
    ZoneStep(g, rows, i, run.zones);
    match o
    case Raised(e) =>
      return Failure(e);
    case Skipped =>
      NoZoneErrorsStep(g, rows, i);
      return Success(run);
    case Added(zone) =>
      NoZoneErrorsStep(g, rows, i);
      return Success(ZoneRun(run.zoneCount + 1, run.zones + [zone]));
  }

  /** The `add_blue_zones` loop: it stops at the first row that raises; otherwise
      `zone_count` is the number of polygons added, and those are the zones of the
      rows that add one, in row order. */
  method AddBlueZones<F>(g: Geo<F>, rows: seq<BlueZoneRow>) returns (r: Result<ZoneRun<F>>)
    ensures r.Success? <==> NoZoneErrors(g, rows)
    ensures r.Failure? ==> FirstZoneErrorIs(g, rows, r.error)
    ensures r.Success? ==> r.value.zoneCount == |r.value.zones| == Count(rows, AddedSel(g))
    ensures r.Success? ==> ZonesOf(g, Filter(rows, AddedSel(g)), r.value.zones)
  {
    var run := ZoneRun(0, []);
    for i := 0 to |rows|
      invariant RunOf(g, rows[..i], run)
    {
      var step := VisitRow(g, rows, i, run);
      if step.Failure? {
        FirstZoneError(g, rows, i, step.error);
        return Failure(step.error);
      }
      run := step.value;
    }
    assert rows[..|rows|] == rows;
    FilterCount(rows, AddedSel(g));
    return Success(run);
  }

  /** Every added polygon is anchored at a point inside the Battery boundary. */
  lemma ZonesInsideBattery<F>(g: Geo<F>, added: seq<BlueZoneRow>, zones: seq<Zone<F>>)
    requires ZonesOf(g, added, zones)
    ensures forall k :: 0 <= k < |zones| ==> |zones[k].ring| == 5 && g.inBattery(zones[k].ring[0])
  {
    forall k | 0 <= k < |zones| ensures |zones[k].ring| == 5 && g.inBattery(zones[k].ring[0]) {
      VisitAdds(g, added[k]);
    }
  }
}
