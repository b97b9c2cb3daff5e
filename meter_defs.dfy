/** The constant category tables of defs/meters.py, and the older copies of them
    that find_parking_meters.py defines for itself: street-side normalisation of blue
    zones, parking-meter cap colours with their map styles and descriptions, and
    meter types. The map styles are kept as the four parameters handed to
    `make_stylemap`; the style objects themselves are not modelled. */
module MeterDefs {

  /** The `{"ncol", "nwidth", "hcol", "hwidth"}` dictionary given to `make_stylemap`:
      normal and highlighted colour (KML aabbggrr hex) and line width. */
  datatype StyleSpec = StyleSpec(ncol: string, nwidth: nat, hcol: string, hwidth: nat)

  /** `blue_zone_street_side` (defs/meters.py:16-30; find_parking_meters.py:134-148
      holds the same table): the lower-cased STSIDE value of a blue zone to a side
      name. */
  const StreetSide: map<string, string> := map[
    "w" := "west",
    "west" := "west",
    "e" := "east",
    "east" := "east",
    "n" := "north",
    "north" := "north",
    "ne" := "northeast",
    "s" := "south",
    "se" := "southeast",
    "sw" := "southwest",
    "south" := "south",
    "unknown" := "<unknown>",
    "" := "<unknown>"
  ]

  /** `blue_zone_color`. */
  const BlueZoneStyle: StyleSpec := StyleSpec("50FF7800", 4, "50FF7800", 16)

  /** `meter_colors` of defs/meters.py. */
  const MeterColors: map<string, StyleSpec> := map[
    "Yellow" := StyleSpec("5013F0FF", 4, "5000FFFF", 16),
    "Black" := StyleSpec("50000000", 4, "50585858", 16),
    "Grey" := StyleSpec("508C8C8C", 4, "50D0D0D0", 16),
    "-" := StyleSpec("501478FF", 4, "501478FF", 16),
    "Red" := StyleSpec("501400F0", 4, "501437FD", 16),
    "Green" := StyleSpec("5014F028", 4, "5014F0A9", 16),
    "Blue" := StyleSpec("50F03714", 4, "50F09A14", 16)
  ]

  /** `meter_desc` of defs/meters.py. */
  const MeterDesc: map<string, string> := map[
    "Yellow" := "Contractors Only",
    "Black" := "Motorcycle",
    "Grey" := "Residential",
    "-" := "Eliminated",
    "Red" := "Contractors Trucks Only",
    "Green" := "15-30 Min Limit",
    "Blue" := "Accessible Parking"
  ]

  /** `meter_types` (the same in both files). */
  const MeterTypes: map<string, string> := map[
    "-" := "UNKNOWN",
    "MS" := "MOTORCYCLE",
    "SS" := "NORMAL"
  ]

  /** `meter_colors` of find_parking_meters.py: the same styles without "Blue". */
  const OldMeterColors: map<string, StyleSpec> := map[
    "Yellow" := StyleSpec("5013F0FF", 4, "5000FFFF", 16),
    "Black" := StyleSpec("50000000", 4, "50585858", 16),
    "Grey" := StyleSpec("508C8C8C", 4, "50D0D0D0", 16),
    "-" := StyleSpec("501478FF", 4, "501478FF", 16),
    "Red" := StyleSpec("501400F0", 4, "501437FD", 16),
    "Green" := StyleSpec("5014F028", 4, "5014F0A9", 16)
  ]

  /** `meter_desc` of find_parking_meters.py, with its older wording. */
  const OldMeterDesc: map<string, string> := map[
    "Yellow" := "Commercial Only",
    "Black" := "Motorcycle",
    "Grey" := "Residential",
    "-" := "Eliminated",
    "Red" := "Commercial Trucks Only",
    "Green" := "15-30 Min Limit"
  ]

  /** Every cap colour with a style has a description and the other way round, in
      both versions of the tables. */
  lemma ColorsAndDescriptionsAgree()
    ensures MeterColors.Keys == MeterDesc.Keys == {"Yellow", "Black", "Grey", "-", "Red", "Green", "Blue"}
    ensures OldMeterColors.Keys == OldMeterDesc.Keys == {"Yellow", "Black", "Grey", "-", "Red", "Green"}
  {
  }

  /** A cap colour the older description table knows has an older style too. */
  lemma OldColorHasStyle(c: string)
    requires c in OldMeterDesc
    ensures c in OldMeterColors
  {
    ColorsAndDescriptionsAgree();
  }

  /** The newer tables extend the older ones: the same styles for the old colours,
      and one more colour, "Blue". */
  lemma NewTablesExtendOld()
    ensures forall c :: c in OldMeterColors ==> c in MeterColors && MeterColors[c] == OldMeterColors[c]
    ensures MeterColors.Keys - OldMeterColors.Keys == {"Blue"}
  {
    ColorsAndDescriptionsAgree();
    assert "Blue" !in OldMeterColors.Keys;
  }

  /** Every meter style draws 4 wide and highlights 16 wide. */
  lemma StyleWidths()
    ensures forall c :: c in MeterColors ==> MeterColors[c].nwidth == 4 && MeterColors[c].hwidth == 16
    ensures BlueZoneStyle.nwidth == 4 && BlueZoneStyle.hwidth == 16
  {
  }

  /** The full side names map to themselves. */
  lemma FullSidesFixed()
    ensures forall s :: s in {"west", "east", "north", "south"} ==> s in StreetSide && StreetSide[s] == s
  {
  }

  /** An empty side and "unknown" both normalise to "<unknown>". */
  lemma UnknownSides()
    ensures "" in StreetSide && StreetSide[""] == "<unknown>"
    ensures "unknown" in StreetSide && StreetSide["unknown"] == "<unknown>"
  {
  }

  /** The abbreviations map to the full direction names. */
  lemma Abbreviations()
    ensures StreetSide.Keys == {"w", "west", "e", "east", "n", "north", "ne", "s", "se", "sw", "south", "unknown", ""}
    ensures StreetSide["w"] == "west" && StreetSide["e"] == "east"
    ensures StreetSide["n"] == "north" && StreetSide["s"] == "south"
    ensures StreetSide["ne"] == "northeast" && StreetSide["se"] == "southeast" && StreetSide["sw"] == "southwest"
  {
  }

  /** "nw" has no entry, so a zone on a north-west side raises KeyError; nor do the
      compound names, so normalising twice fails for them. */
  lemma MissingSides()
    ensures "nw" !in StreetSide
    ensures "northeast" !in StreetSide && "southeast" !in StreetSide && "southwest" !in StreetSide
  {
  }

  lemma MeterTypeKeys()
    ensures MeterTypes.Keys == {"-", "MS", "SS"}
  {
  }
}
