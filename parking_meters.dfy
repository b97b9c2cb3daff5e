/** `add_meters` and `make_meter` (find_parking_meters.py): every parking-meter row is
    sent to exactly one of three branches (on Battery Street inside the Battery
    boundary, inside the Financial District, or outside), counted there, and tallied
    by cap colour; meters on Battery Street also split into east (even street number)
    and west (odd) tallies and become map placemarks. Then the share of each
    Financial District cap colour that lies on Battery Street is reported.

    The number type `F`, the parsers, the two boundary containment tests and the
    rotation are parameters bundled in `Geo`. */
module ParkingMeters {
  import opened Common
  import opened MeterDefs

  /** The parameters the scripts get from libraries: `Decimal()`, `float()` and
      `int()` on a cell, `contains` of the Battery and Financial District
      boundaries, coordinate subtraction, `rotate2d` by the grid angle about a centre,
      and the box sizes of meters and blue zones. */
  datatype Geo<!F> = Geo(
    parseDec: string -> Option<F>,
    parseFloat: string -> Option<F>,
    parseInt: string -> Option<int>,
    inBattery: ((F, F)) -> bool,
    inFidi: ((F, F)) -> bool,
    sub: (F, F) -> F,
    rotate: ((F, F), (F, F)) -> (F, F),
    meterSize: F,
    blueWidth: F,
    blueLength: F)

  // ---------------------------------------------------------------------------
  // make_meter

  /** The box around a point: the point, three corners rotated about it by the grid
      angle, and the point again, closing the ring. */
  function MakeMeter<F>(g: Geo<F>, x: F, y: F, width: F, length: F): (ring: seq<(F, F)>)
    ensures |ring| == 5
    ensures ring[0] == (x, y) && ring[4] == (x, y)
    ensures ring[1] == g.rotate((g.sub(x, width), y), (x, y))
    ensures ring[2] == g.rotate((g.sub(x, width), g.sub(y, length)), (x, y))
    ensures ring[3] == g.rotate((x, g.sub(y, length)), (x, y))
  {
    var c := (x, y);
    [c, g.rotate((g.sub(x, width), y), c), g.rotate((g.sub(x, width), g.sub(y, length)), c),
     g.rotate((x, g.sub(y, length)), c), c]
  }

  // ---------------------------------------------------------------------------
  // Rows and branches

  /** The cells of a Parking_Meters.tsv row that `add_meters` reads. */
  datatype MeterRow = MeterRow(
    longitude: string, latitude: string, streetName: string, streetNum: string,
    capColor: string, postId: string, spaceId: string, district: string)

  datatype Branch = Battery | Fidi | Outside

  /** The meter's location as parsed by `Decimal()`, longitude first. */
  function Location<F>(g: Geo<F>, m: MeterRow): Option<(F, F)>
  {
    match (g.parseDec(m.longitude), g.parseDec(m.latitude))
    case (Some(x), Some(y)) => Some((x, y))
    case _ => None
  }

  /** The branch a row takes: Battery needs the Battery boundary to contain the
      point and the street to be "BATTERY ST"; only otherwise is the Financial
      District tested. None when the location does not parse. */
  function Classify<F>(g: Geo<F>, m: MeterRow): (b: Option<Branch>)
    ensures b.None? <==> Location(g, m).None?
  {
    match Location(g, m)
    case None => None
    case Some(p) =>
      if g.inBattery(p) && m.streetName == "BATTERY ST" then Some(Battery)
      else if g.inFidi(p) then Some(Fidi)
      else Some(Outside)
  }

  /** Whether the street number reads as even: `n / 2 == int(n / 2)`. */
  predicate IsEven(n: int)
  {
    n % 2 == 0
  }

  /** The exception a row raises, if any, in the order the loop meets them:
      InvalidOperation from `Decimal()`, then in the Battery branch ValueError from
      `int()` on the street number and KeyError from `meter_desc` on an unknown cap
      colour. */
  function RowError<F>(g: Geo<F>, m: MeterRow): Option<Error>
  {
    match Classify(g, m)
    case None => Some(InvalidOperation)
    case Some(b) =>
      if b != Battery then None
      else if g.parseInt(m.streetNum).None? then Some(ValueError)
      else if m.capColor !in OldMeterDesc then Some(KeyError)
      else None
  }

  function BatterySel<F>(g: Geo<F>): MeterRow -> bool
  {
    m => Classify(g, m) == Some(Battery)
  }

  function FidiSel<F>(g: Geo<F>): MeterRow -> bool
  {
    m => Classify(g, m) == Some(Fidi)
  }

  function OutsideSel<F>(g: Geo<F>): MeterRow -> bool
  {
    m => Classify(g, m) == Some(Outside)
  }

  /** Battery rows with an even street number. */
  function EastSel<F>(g: Geo<F>): MeterRow -> bool
  {
    m => Classify(g, m) == Some(Battery) && g.parseInt(m.streetNum).Some? && IsEven(g.parseInt(m.streetNum).value)
  }

  /** Battery rows with an odd street number. */
  function WestSel<F>(g: Geo<F>): MeterRow -> bool
  {
    m => Classify(g, m) == Some(Battery) && g.parseInt(m.streetNum).Some? && !IsEven(g.parseInt(m.streetNum).value)
  }

  function CapOf(m: MeterRow): string
  {
    m.capColor
  }

  /** A polygon added to the KML document. */
  datatype Placemark<F> = Placemark(name: string, ring: seq<(F, F)>, style: StyleSpec, altitudeOffset: int)

  /** The placemark name of a Battery meter: street number and name, post and space
      ids, the description of its cap colour and its supervisor district. */
  function MeterName(m: MeterRow, desc: string): string
  {
    m.streetNum + " " + m.streetName + "\n" +
    "Post ID: " + m.postId + ", Space ID: " + m.spaceId + "\n" +
    "[Type: " + desc + "]\n" +
    "(District " + m.district + ", SFPD Central)"
  }

  /** The placemark of a Battery meter: its box, the style of its cap colour, drawn
      10 above the ground. None for a row that the loop does not reach this far with. */
  function MeterPlacemark<F>(g: Geo<F>, m: MeterRow): Option<Placemark<F>>
  {
    match Location(g, m)
    case None => None
    case Some(p) =>
      if m.capColor in OldMeterDesc && m.capColor in OldMeterColors then
        Some(Placemark(MeterName(m, OldMeterDesc[m.capColor]), MakeMeter(g, p.0, p.1, g.meterSize, g.meterSize),
                       OldMeterColors[m.capColor], 10))
      else None
  }

  /** The counters, tallies and placemarks `add_meters` builds. */
  datatype MeterTally<F> = MeterTally(
    insideBattery: nat, insideFidi: nat, outside: nat,
    fidi: map<string, nat>, east: map<string, nat>, west: map<string, nat>,
    placemarks: seq<Placemark<F>>)

  /** No row raises. */
  predicate NoErrors<F>(g: Geo<F>, rows: seq<MeterRow>)
  {
    forall i :: 0 <= i < |rows| ==> RowError(g, rows[i]).None?
  }

  /** A row that raises nothing keeps a run free of errors. */
  lemma NoErrorsStep<F>(g: Geo<F>, rows: seq<MeterRow>, i: nat)
    requires i < |rows| && NoErrors(g, rows[..i]) && RowError(g, rows[i]).None?
    ensures NoErrors(g, rows[..i + 1])
  {
    var next := rows[..i + 1];
    forall j | 0 <= j < |next| ensures RowError(g, next[j]).None? {
      assert next[j] == rows[j];
      if j < i {
        assert rows[..i][j] == rows[j];
      }
    }
  }

  /** A raising row after rows that raise nothing is the first error of the run. */
  lemma FirstError<F>(g: Geo<F>, rows: seq<MeterRow>, i: nat, e: Error)
    requires i < |rows| && NoErrors(g, rows[..i]) && RowError(g, rows[i]) == Some(e)
    ensures FirstErrorIs(g, rows, e) && !NoErrors(g, rows)
  {
  }

  /** `e` is the exception of the first row that raises. */
  predicate FirstErrorIs<F>(g: Geo<F>, rows: seq<MeterRow>, e: Error)
  {
    exists i :: 0 <= i < |rows| && RowError(g, rows[i]) == Some(e) && NoErrors(g, rows[..i])
  }

  /** The placemarks are those of the Battery rows, in order. */
  ghost predicate PlacemarksOf<F>(g: Geo<F>, battery: seq<MeterRow>, marks: seq<Placemark<F>>)
  {
    |marks| == |battery| && forall k :: 0 <= k < |marks| ==> MeterPlacemark(g, battery[k]) == Some(marks[k])
  }

  /** Reference definition of what `add_meters` computes over `rows`: each counter
      counts the rows of its branch, each tally counts its rows by cap colour. */
  ghost predicate TallyOf<F>(g: Geo<F>, rows: seq<MeterRow>, t: MeterTally<F>)
  {
    && t.insideBattery == Count(rows, BatterySel(g))
    && t.insideFidi == Count(rows, FidiSel(g))
    && t.outside == Count(rows, OutsideSel(g))
    && t.fidi == Tally(rows, FidiSel(g), CapOf)
    && t.east == Tally(rows, EastSel(g), CapOf)
    && t.west == Tally(rows, WestSel(g), CapOf)
    && PlacemarksOf(g, Filter(rows, BatterySel(g)), t.placemarks)
  }

  /** The tally after the rows before `i` and row `i` is the tally after the rows up to `i`. */
  lemma TallyOfNext<F>(g: Geo<F>, rows: seq<MeterRow>, i: nat, t: MeterTally<F>)
    requires i < |rows| && TallyOf(g, rows[..i] + [rows[i]], t)
    ensures TallyOf(g, rows[..i + 1], t)
  {
    assert rows[..i + 1] == rows[..i] + [rows[i]];
  }

  /** All the sequence facts about one more row. */
  lemma StepFacts<F>(g: Geo<F>, rows: seq<MeterRow>, m: MeterRow)
    ensures Count(rows + [m], BatterySel(g)) == Count(rows, BatterySel(g)) + (if BatterySel(g)(m) then 1 else 0)
    ensures Count(rows + [m], FidiSel(g)) == Count(rows, FidiSel(g)) + (if FidiSel(g)(m) then 1 else 0)
    ensures Count(rows + [m], OutsideSel(g)) == Count(rows, OutsideSel(g)) + (if OutsideSel(g)(m) then 1 else 0)
    ensures Tally(rows + [m], FidiSel(g), CapOf) ==
      if FidiSel(g)(m) then Bump(Tally(rows, FidiSel(g), CapOf), m.capColor) else Tally(rows, FidiSel(g), CapOf)
    ensures Tally(rows + [m], EastSel(g), CapOf) ==
      if EastSel(g)(m) then Bump(Tally(rows, EastSel(g), CapOf), m.capColor) else Tally(rows, EastSel(g), CapOf)
    ensures Tally(rows + [m], WestSel(g), CapOf) ==
      if WestSel(g)(m) then Bump(Tally(rows, WestSel(g), CapOf), m.capColor) else Tally(rows, WestSel(g), CapOf)
    ensures Filter(rows + [m], BatterySel(g)) == Filter(rows, BatterySel(g)) + (if BatterySel(g)(m) then [m] else [])
  {
    CountAppend(rows, m, BatterySel(g));
    CountAppend(rows, m, FidiSel(g));
    CountAppend(rows, m, OutsideSel(g));
    TallyAppend(rows, m, FidiSel(g), CapOf);
    TallyAppend(rows, m, EastSel(g), CapOf);
    TallyAppend(rows, m, WestSel(g), CapOf);
    FilterAppend(rows, m, BatterySel(g));
  }

  /** A Battery row bumps the Battery counter, the east or west tally by parity, and
      adds its placemark. */
  lemma BatteryStep<F>(g: Geo<F>, done: seq<MeterRow>, m: MeterRow, t: MeterTally<F>, mark: Placemark<F>)
    requires TallyOf(g, done, t)
    requires Classify(g, m) == Some(Battery) && g.parseInt(m.streetNum).Some?
    requires MeterPlacemark(g, m) == Some(mark)
    ensures var even := IsEven(g.parseInt(m.streetNum).value);
      TallyOf(g, done + [m], t.(insideBattery := t.insideBattery + 1,
                                east := if even then Bump(t.east, m.capColor) else t.east,
                                west := if even then t.west else Bump(t.west, m.capColor),
                                placemarks := t.placemarks + [mark]))
  {
    StepFacts(g, done, m);
    var battery := Filter(done, BatterySel(g));
    assert forall k :: 0 <= k < |battery| ==> (battery + [m])[k] == battery[k];
  }

  /** A Financial District row bumps its counter and its tally. */
  lemma FidiStep<F>(g: Geo<F>, done: seq<MeterRow>, m: MeterRow, t: MeterTally<F>)
    requires TallyOf(g, done, t)
    requires Classify(g, m) == Some(Fidi)
    ensures TallyOf(g, done + [m], t.(insideFidi := t.insideFidi + 1, fidi := Bump(t.fidi, m.capColor)))
  {
    StepFacts(g, done, m);
  }

  /** Any other row only bumps the outside counter. */
  lemma OutsideStep<F>(g: Geo<F>, done: seq<MeterRow>, m: MeterRow, t: MeterTally<F>)
    requires TallyOf(g, done, t)
    requires Classify(g, m) == Some(Outside)
    ensures TallyOf(g, done + [m], t.(outside := t.outside + 1))
  {
    StepFacts(g, done, m);
  }

  /** One pass of the `add_meters` loop body: parse the location, take the branch,
      bump its counter and tally, and for a Battery meter make its placemark. */
  method MeterStep<F>(g: Geo<F>, done: seq<MeterRow>, m: MeterRow, t: MeterTally<F>) returns (r: Result<MeterTally<F>>)
    requires TallyOf(g, done, t)
    ensures r.Success? <==> RowError(g, m).None?
    ensures r.Failure? ==> RowError(g, m) == Some(r.error)
    ensures r.Success? ==> TallyOf(g, done + [m], r.value)
  {
    var lon := g.parseDec(m.longitude);
    var lat := g.parseDec(m.latitude);
    if lon.None? || lat.None? {
      return Failure(InvalidOperation);
    }
    var p := (lon.value, lat.value);
    assert Location(g, m) == Some(p);
    if g.inBattery(p) && m.streetName == "BATTERY ST" {
      assert Classify(g, m) == Some(Battery);
      var streetNum := g.parseInt(m.streetNum);
      if streetNum.None? {
        return Failure(ValueError);
      }
      var east, west := t.east, t.west;
      if IsEven(streetNum.value) {
        east := Bump(east, m.capColor);
      } else {
        west := Bump(west, m.capColor);
      }
      if m.capColor !in OldMeterDesc {
        return Failure(KeyError);
      }
      OldColorHasStyle(m.capColor);
      var mark := Placemark(MeterName(m, OldMeterDesc[m.capColor]), MakeMeter(g, p.0, p.1, g.meterSize, g.meterSize),
                            OldMeterColors[m.capColor], 10);
      BatteryStep(g, done, m, t, mark);
      r := Success(t.(insideBattery := t.insideBattery + 1, east := east, west := west,
                      placemarks := t.placemarks + [mark]));
    } else if g.inFidi(p) {
      assert Classify(g, m) == Some(Fidi) && RowError(g, m).None?;
      FidiStep(g, done, m, t);
      r := Success(t.(insideFidi := t.insideFidi + 1, fidi := Bump(t.fidi, m.capColor)));
    } else {
      assert Classify(g, m) == Some(Outside) && RowError(g, m).None?;
      OutsideStep(g, done, m, t);
      r := Success(t.(outside := t.outside + 1));
    }
  }

  /** The `add_meters` loop, without its printing: it stops at the first row that
      raises, and otherwise returns the counters, tallies and placemarks. */
  method AddMeters<F>(g: Geo<F>, rows: seq<MeterRow>) returns (r: Result<MeterTally<F>>)
    ensures r.Success? <==> NoErrors(g, rows)
    ensures r.Failure? ==> FirstErrorIs(g, rows, r.error)
    ensures r.Success? ==> TallyOf(g, rows, r.value)
  {
    var t := MeterTally(0, 0, 0, map[], map[], map[], []);
    assert TallyOf(g, rows[..0], t);
    for i := 0 to |rows|
      invariant NoErrors(g, rows[..i])
      invariant TallyOf(g, rows[..i], t)
    {
      var step := MeterStep(g, rows[..i], rows[i], t);
      if step.Failure? {
        FirstError(g, rows, i, step.error);
        return Failure(step.error);
      }
      NoErrorsStep(g, rows, i);
      TallyOfNext(g, rows, i, step.value);
      t := step.value;
    }
    assert rows[..|rows|] == rows;
    return Success(t);
  }

  // ---------------------------------------------------------------------------
  // What the counters promise

  /** A row on Battery Street inside the Battery boundary is never counted for the
      Financial District, even when that boundary contains it too; and a Financial
      District row is one that failed the Battery test. */
  lemma BatteryBeforeFidi<F>(g: Geo<F>, m: MeterRow)
    requires Location(g, m).Some?
    ensures BatterySel(g)(m) <==> g.inBattery(Location(g, m).value) && m.streetName == "BATTERY ST"
    ensures FidiSel(g)(m) <==>
      !(g.inBattery(Location(g, m).value) && m.streetName == "BATTERY ST") && g.inFidi(Location(g, m).value)
    ensures !(BatterySel(g)(m) && FidiSel(g)(m))
  {
  }

  /** Every row that parses takes exactly one branch, so the three counters add up to
      the number of rows read. */
  lemma {:induction false} CountersPartition<F>(g: Geo<F>, rows: seq<MeterRow>, t: MeterTally<F>)
    requires NoErrors(g, rows) && TallyOf(g, rows, t)
    ensures t.insideBattery + t.insideFidi + t.outside == |rows|
  {
    forall i | 0 <= i < |rows|
      ensures (if BatterySel(g)(rows[i]) then 1 else 0) + (if FidiSel(g)(rows[i]) then 1 else 0) +
              (if OutsideSel(g)(rows[i]) then 1 else 0) == 1
    {
      assert RowError(g, rows[i]).None?;
    }
    CountPartition3(rows, BatterySel(g), FidiSel(g), OutsideSel(g));
  }

  /** East and west together hold every Battery meter: their tallies add up to the
      Battery counter. */
  lemma {:induction false} EastWestCoverBattery<F>(g: Geo<F>, rows: seq<MeterRow>, t: MeterTally<F>)
    requires NoErrors(g, rows) && TallyOf(g, rows, t)
    ensures MapSum(t.east) + MapSum(t.west) == t.insideBattery
  {
    forall i | 0 <= i < |rows|
      ensures (BatterySel(g)(rows[i]) <==> (EastSel(g)(rows[i]) || WestSel(g)(rows[i]))) &&
              !(EastSel(g)(rows[i]) && WestSel(g)(rows[i]))
    {
      assert RowError(g, rows[i]).None?;
    }
    CountSplit(rows, BatterySel(g), EastSel(g), WestSel(g));
    TallySum(rows, EastSel(g), CapOf);
    TallySum(rows, WestSel(g), CapOf);
  }

  /** The Financial District tally adds up to its counter, and each of its cap colours
      was seen at least once. */
  lemma FidiTallyCounts<F>(g: Geo<F>, rows: seq<MeterRow>, t: MeterTally<F>)
    requires TallyOf(g, rows, t)
    ensures MapSum(t.fidi) == t.insideFidi
    ensures forall k :: k in t.fidi ==> t.fidi[k] >= 1
  {
    TallySum(rows, FidiSel(g), CapOf);
    TallyPositive(rows, FidiSel(g), CapOf);
  }

  /** There is one placemark per Battery meter. */
  lemma PlacemarkPerBatteryMeter<F>(g: Geo<F>, rows: seq<MeterRow>, t: MeterTally<F>)
    requires TallyOf(g, rows, t)
    ensures |t.placemarks| == t.insideBattery
  {
    FilterCount(rows, BatterySel(g));
  }

  // ---------------------------------------------------------------------------
  // The share report

  /** A defaultdict(int) read: 0 for a missing key. */
  function Get0(m: map<string, nat>, k: string): (v: nat)
    ensures k in m ==> v == m[k]
    ensures k !in m ==> v == 0
  {
    if k in m then m[k] else 0
  }

  /** One printed row of the share report: the cap colour, its Financial District
      count, the Battery count compared with it, and the percentage (before
      rounding to two places). */
  datatype ShareLine = ShareLine(cap: string, fidiCount: nat, batteryCount: nat, percent: real)

  /** `part / whole * 100` on reals. */
  function Percent(part: nat, whole: nat): real
    requires whole >= 1
  {
    (part as real) / (whole as real) * 100.0
  }

  /** The percentage is non-negative, undoes to the part, and grows with the part. */
  lemma PercentFacts(part: nat, part2: nat, whole: nat)
    requires whole >= 1
    ensures Percent(part, whole) >= 0.0
    ensures Percent(part, whole) * (whole as real) == (part as real) * 100.0
    ensures part <= part2 ==> Percent(part, whole) <= Percent(part2, whole)
  {
    var w := whole as real;
    assert (part as real) / w * w == part as real;
    if part <= part2 {
      assert (part as real) / w <= (part2 as real) / w;
    }
  }

  /** The share lines for the Financial District colours, against `battery` counts. */
  function Shares(fidi: map<string, nat>, battery: map<string, nat>): (r: map<string, ShareLine>)
    requires forall k :: k in fidi ==> fidi[k] >= 1
    ensures r.Keys == fidi.Keys
    ensures forall k :: k in r ==> r[k].cap == k && r[k].fidiCount == fidi[k] && r[k].batteryCount == Get0(battery, k)
    ensures forall k :: k in r ==> r[k].percent == Percent(Get0(battery, k), fidi[k])
  {
    map k | k in fidi :: ShareLine(k, fidi[k], Get0(battery, k), Percent(Get0(battery, k), fidi[k]))
  }

  /** East and west added per colour: `mtypes_battery_west[k] + mtypes_battery_east[k]`. */
  function BothSides(fidi: map<string, nat>, east: map<string, nat>, west: map<string, nat>): (r: map<string, nat>)
    ensures r.Keys == fidi.Keys
    ensures forall k :: k in r ==> r[k] == Get0(west, k) + Get0(east, k)
  {
    map k | k in fidi :: Get0(west, k) + Get0(east, k)
  }

  /** The two reports of `add_meters`: all Battery meters, and the east side only,
      each as a share of the Financial District count, for the Financial District
      colours only. */
  function ShareReports<F>(t: MeterTally<F>): (r: (map<string, ShareLine>, map<string, ShareLine>))
    requires forall k :: k in t.fidi ==> t.fidi[k] >= 1
    ensures r.0.Keys == t.fidi.Keys && r.1.Keys == t.fidi.Keys
    ensures forall k :: k in t.fidi ==>
      && r.0[k].fidiCount == t.fidi[k] && r.1[k].fidiCount == t.fidi[k]
      && r.0[k].batteryCount == Get0(t.west, k) + Get0(t.east, k) && r.1[k].batteryCount == Get0(t.east, k)
      && r.0[k].percent == Percent(r.0[k].batteryCount, t.fidi[k])
      && r.1[k].percent == Percent(r.1[k].batteryCount, t.fidi[k])
  {
    (Shares(t.fidi, BothSides(t.fidi, t.east, t.west)), Shares(t.fidi, t.east))
  }

  /** The east-only share is never negative and never exceeds the share of both sides. */
  lemma ShareReportsBounds<F>(t: MeterTally<F>, k: string)
    requires forall k :: k in t.fidi ==> t.fidi[k] >= 1
    requires k in t.fidi
    ensures var r := ShareReports(t); 0.0 <= r.1[k].percent <= r.0[k].percent
  {
    var r := ShareReports(t);
    var both, east, n := Get0(t.west, k) + Get0(t.east, k), Get0(t.east, k), t.fidi[k];
    assert r.0[k].batteryCount == both && r.0[k].percent == Percent(both, n);
    assert r.1[k].batteryCount == east && r.1[k].percent == Percent(east, n);
    PercentFacts(east, both, n);
  }

  /** After a run that does not raise, the share report never divides by zero. */
  lemma ShareReportDefined<F>(g: Geo<F>, rows: seq<MeterRow>, t: MeterTally<F>)
    requires TallyOf(g, rows, t)
    ensures forall k :: k in t.fidi ==> t.fidi[k] >= 1
  {
    FidiTallyCounts(g, rows, t);
  }
}
