# gta_battery_parking, modelled in Dafny

The repository is a set of scripts that check which San Francisco parking assets
lie inside hand-drawn boundaries around Battery Street and the downtown Financial
District (FiDi). The assets are parking meters, accessible-curb ("blue") zones and
registered business locations. The scripts also draw the results as KML map
overlays. This project models the scripts' own logic:

- **Text decoders.** `wkt_to_kml` decodes a simplified WKT string into a type tag
  and coordinate pairs (module `Wkt`). `split_lines` and `create_lines` in
  random_test.py cut LINESTRING text into KML lines (module `RandomTest`).
- **Header and boundary extraction in `load_tsv`.** This covers the file-suffix
  dispatch, the loop that skips a byte-order mark, and the header-only copy in
  find_parking_meters.py (module `TsvHeader`). It also covers the ring slicing of
  `load_boundary_file` (module `BoundaryRing`).
- **Classify-and-tally loops.**
  - `add_meters` gives each meter exactly one of three branches, tallies cap
    colours, and reports FiDi shares (module `ParkingMeters`).
  - `add_blue_zones` adds the blue zones that start inside the Battery boundary
    (module `BlueZones`).
  - The business scan of business_scan.py is module `BusinessScan`.
- **Reporting and lookup helpers.**
  - `print_cap_dict` returns the lines it would print (module `CapReport`).
  - `DictObj` attribute lookup is module `DictObject`.
  - The constant tables of defs/meters.py and their older copies in
    find_parking_meters.py are module `MeterDefs`.

Shared pieces live in `Common` and `Text`:
- `Common` holds `Option`, `Result` with the Python exception names, counting,
  filtering and `defaultdict(int)` tallies.
- `Text` holds ASCII `lower()`, `endswith`, substring tests, `split`/`join` on
  one character, and decimal `str()` of a natural number.

Library-supplied parts are parameters, never implementations:
- The float or Decimal number type is a type parameter `F`.
- `float()`, `Decimal()` and `int()` are fallible parsers.
- Shapely's `contains` is a predicate.
- `rotate2d` is a function.
- In `ParkingMeters` these are bundled in the datatype `Geo`, and in
  `BusinessScan` in `Scan`.

In `add_meters` the FiDi test is an `elif` after the Battery test, so each meter
takes exactly one branch (`ParkingMeters.BatteryBeforeFidi`).

The loops that update counters in place are methods with loop invariants:
`TsvHeader.HeaderFields`, `CapReport.PrintEntries` (which `CapReport.PrintCapDict`
runs after sorting), `ParkingMeters.AddMeters`, `BlueZones.AddBlueZones`,
`BusinessScan.BusinessScan` and `RandomTest.CreateLines`. Each method's `ensures` ties its result to a reference
definition (a function or predicate of the rows read). The lemmas beside it
prove what the source promises about that definition.

## Model

| member | source | states |
|---|---|---|
| TsvHeader.OpenModeOf | utils.py:29-34 | gzip exactly when the lower-cased name ends in ".tsv.gz"; plain exactly when it ends in ".tsv"; any other name raises |
| TsvHeader.GzipIsNotPlain | utils.py:29-31 | no name ends in both ".tsv.gz" and ".tsv", so testing gzip first is never shadowed |
| TsvHeader.OpenModeIgnoresCase | utils.py:29-31 | a name and its lower-cased form open the same way |
| TsvHeader.BomLen | utils.py:37-39 | the skipped prefix is the longest run of characters with code at least 128 |
| TsvHeader.HeaderSpec | utils.py:36-40 | definition: the reference header parse, the line after its non-ASCII prefix split on tabs, IndexError when nothing is left to index; `HeaderFailsIff` and `HeaderFieldsFromSuffix` prove its properties |
| TsvHeader.HeaderFields | utils.py:36-40 | the loop computes the reference header parse: IndexError when every character is non-ASCII, otherwise the tab pieces of the rest of the line |
| TsvHeader.HeaderFailsIff | utils.py:37-39 | the header parse raises IndexError exactly when no character of the line is below 128, the empty line included |
| TsvHeader.HeaderFieldsFromSuffix | utils.py:40 | the fields hold no tab, and joined with tabs they give back exactly the line after the skipped prefix |
| TsvHeader.HeaderKeepsNewline | utils.py:36-40 | a line ending in a newline leaves that newline at the end of the last field |
| TsvHeader.DropFirstFields | find_parking_meters.py:74-75 | the copy's header always has at least one field |
| TsvHeader.DropFirstFieldsJoin | find_parking_meters.py:74-75 | the copy's fields joined with tabs are the line without its first character, whatever that character is |
| TsvHeader.CopiesAgreeOnSingleMark | find_parking_meters.py:74-75 | the two `load_tsv` copies give the same fields when the line starts with exactly one non-ASCII character |
| TsvHeader.CopiesDifferWithoutMark | find_parking_meters.py:74-75 | on a line without a mark, utils.py keeps the whole line while the copy loses the first character |
| BoundaryRing.JsonText | utils.py:53 | definition: the text from the first '{' on, `text[text.find("{"):]`; `JsonTextStart` proves its cases |
| BoundaryRing.Find | utils.py:53 | `find` returns the index of the first '{', or -1 exactly when there is none |
| BoundaryRing.SliceStart | utils.py:55 | definition: the start of a Python slice, a negative index counting from the end and clamped to the list; `ShellLength` proves the length it leaves |
| BoundaryRing.JsonTextStart | utils.py:53 | the JSON text is the suffix starting at the first '{'; without a '{' it is the last character alone |
| BoundaryRing.CutPoints | utils.py:55 | each point is cut to its first two components, in order; IndexError exactly when some point is too short |
| BoundaryRing.Shell | utils.py:55 | definition: the outer ring from the slice start, each point cut to its first two components, IndexError without a ring or for a short point; `ShellContents`, `ShellLength` and `ShellOfPairs` prove its properties |
| BoundaryRing.ShellContents | utils.py:55 | the shell is the outer ring from the slice start, each point cut to (p[0], p[1]), in order; it fails only for a short point after the slice start |
| BoundaryRing.ShellLength | utils.py:55 | with pruncate >= 0 the shell has max(0, n - pruncate) points |
| BoundaryRing.ShellOfPairs | utils.py:55 | round trip: reading back a ring of pairs with pruncate 0 gives the ring |
| BoundaryRing.ShellIgnoresExtraComponents | utils.py:55 | components after the second do not change the shell |
| Wkt.MatchShape | utils.py:86 | a match has a non-empty word tag and a body that holds no ')' and does not start with '(' |
| Wkt.MatchShapeLayout | utils.py:86 | a matched text is laid out as the tag, a space, one or more '(', the body and a ')' |
| Wkt.MatchShapeOf | utils.py:86 | every text of the form `tag (body)...` matches, with that tag and body |
| Wkt.MatchShapeFails | utils.py:86 | a text that does not start with a word character, or has no ')', does not match |
| Wkt.Tokens | utils.py:87 | definition: the maximal runs of characters other than space and comma, left to right; `TokensWellFormed`, `TokensWord` and `TokensEncode` prove its properties |
| Wkt.TokensWellFormed | utils.py:87 | every token is non-empty and holds no space or comma |
| Wkt.TokensSkip | utils.py:87 | leading spaces and commas produce no token |
| Wkt.TokensWord | utils.py:87 | a separator-free word followed by a separator or the end is exactly one token |
| Wkt.TokensEncode | utils.py:87 | the tokens of "x1 y1, x2 y2, ..." are x1, y1, x2, y2, ... in order |
| Wkt.ParseAll | utils.py:88 | succeeds exactly when every token parses; then it gives each token's number in order; otherwise ValueError |
| Wkt.Pairs | utils.py:89 | element i is (token 2i, token 2i+1), there are floor(n/2) of them, and an odd last token is dropped |
| Wkt.PairsFlatten | utils.py:89 | pairing the flattened pairs gives them back |
| Wkt.Decode | utils.py:82-96 | the empty input gives the empty tag and no coordinates; a non-empty text that does not match raises AttributeError |
| Wkt.DecodeMatched | utils.py:86-89 | a matching text fails (ValueError) exactly when some body token is not a number; otherwise it keeps the tag and pairs the parsed tokens in order |
| Wkt.DecodeOfMatch | utils.py:86-96 | once matched and parsed, the result is the tag with the paired numbers |
| Wkt.MatchEncode | utils.py:86 | the text written from a tag and coordinate tokens matches, with that tag and the coordinate text as body |
| Wkt.DecodeEncode | utils.py:82-96 | round trip: decoding `TAG (x1 y1, ...)` gives the tag and the parsed pairs |
| CapReport.LabelOf | utils.py:103 | definition: the label of a key, itself under an empty substitution, otherwise its substitution or KeyError; `IdentityLabels` and `CapReportFails` prove its cases |
| CapReport.Labelled | utils.py:103 | every key is labelled in dictionary order; KeyError exactly when a given substitution misses some key |
| CapReport.SortRows | utils.py:103 | the sort is a permutation of the rows |
| CapReport.SortRowsSorted | utils.py:103 | the sorted rows are in ascending string order of label and are a permutation of the input |
| CapReport.PrintEntries | utils.py:103-106 | the loop prints an entry for each sorted row whose key is not skipped, in order, and its total is the sum of their counts |
| CapReport.CapReportSpec | utils.py:99-107 | definition: the reference report, heading, entries of the sorted rows not skipped, and the total; `CapReportTotal`, `CapReportFails` and `CapReportOrdered` prove its properties |
| CapReport.PrintCapDict | utils.py:99-107 | the reference report: the heading if a label is given, then the entries of the sorted keys not skipped, then the total of their counts; KeyError when a substitution misses a key |
| CapReport.SumRowsPerm | utils.py:102-106 | the running total does not depend on the order of the keys |
| CapReport.CapReportTotal | utils.py:102-107 | the last line is the total of the counts of the keys not skipped; with nothing skipped, the total of all counts |
| CapReport.CapReportFails | utils.py:103-105 | the report raises KeyError exactly when a substitution is given that misses a key |
| CapReport.CapReportOrdered | utils.py:100-107 | the report is the heading if any, then entry lines in ascending order of label, then one Total line |
| CapReport.CapReportKeysOnce | utils.py:103-105 | each key of the dictionary appears in exactly one sorted row, and no other key appears |
| CapReport.IdentityLabels | utils.py:103-105 | without a substitution every key is shown as itself |
| DictObject.NewAsWritten | utils.py:111-112 | definition: the constructor as written, TypeError without a dictionary; `NewDefaultRaises` and `NewAgrees` prove its behaviour |
| DictObject.NewDefaultRaises | utils.py:111-112 | `DictObj()` with the default argument raises TypeError |
| DictObject.New | utils.py:111-112 | definition, corrected: an empty object without an argument, otherwise one holding the dictionary; `GetAttrOfNew` and `NewAgrees` prove its behaviour |
| DictObject.NewAgrees | utils.py:111-112 | the corrected constructor agrees with the written one wherever the written one returns |
| DictObject.GetAttr | utils.py:114-116 | definition: attribute access, the stored value for a present key and None otherwise; `GetAttrOfNew` proves what it reads from a built object |
| DictObject.GetAttrOfNew | utils.py:110-116 | attributes of an object built from a dictionary read that dictionary; every attribute of the empty object is None |
| MeterDefs.StreetSide | defs/meters.py:16-30 | definition: `blue_zone_street_side`, the same table as find_parking_meters.py:134-148, from lower-cased STSIDE value to side name; `FullSidesFixed`, `UnknownSides`, `Abbreviations` and `MissingSides` prove its contents |
| MeterDefs.BlueZoneStyle | defs/meters.py:14 | definition: `blue_zone_color`, the same style as find_parking_meters.py:131; `StyleWidths` proves its widths |
| MeterDefs.MeterColors | defs/meters.py:32-40 | definition: `meter_colors`, cap colour to map style; `ColorsAndDescriptionsAgree` proves its keys and `StyleWidths` its widths |
| MeterDefs.MeterDesc | defs/meters.py:42-50 | definition: `meter_desc`, cap colour to description; `ColorsAndDescriptionsAgree` proves it has the same keys as `meter_colors` |
| MeterDefs.MeterTypes | defs/meters.py:52-56 | definition: `meter_types`, the same table as find_parking_meters.py:188-192; `MeterTypeKeys` proves its keys |
| MeterDefs.OldMeterColors | find_parking_meters.py:172-179 | definition: the older `meter_colors` that `add_meters` uses; `NewTablesExtendOld` proves it is the newer table without "Blue" |
| MeterDefs.OldMeterDesc | find_parking_meters.py:180-187 | definition: the older `meter_desc` that `add_meters` uses; `ColorsAndDescriptionsAgree` proves it has the same six keys as the older `meter_colors` |
| MeterDefs.ColorsAndDescriptionsAgree | defs/meters.py:32-50 | `meter_colors` and `meter_desc` have the same seven keys; the older copies share six |
| MeterDefs.NewTablesExtendOld | find_parking_meters.py:172-179 | the older colour table is the newer one without "Blue", with the same styles for the shared keys |
| MeterDefs.StyleWidths | defs/meters.py:14-40 | every meter style and the blue-zone style draw 4 wide and highlight 16 wide |
| MeterDefs.FullSidesFixed | defs/meters.py:16-30 | west, east, north and south map to themselves |
| MeterDefs.UnknownSides | defs/meters.py:28-29 | "" and "unknown" both map to "<unknown>" |
| MeterDefs.Abbreviations | defs/meters.py:16-30 | the exact key set; w, e, n and s map to the full names, and ne, se and sw to the compound names |
| MeterDefs.MissingSides | defs/meters.py:16-30 | "nw" is not a key, and neither are the compound names |
| MeterDefs.MeterTypeKeys | defs/meters.py:52-56 | `meter_types` has exactly the keys "-", "MS" and "SS" |
| ParkingMeters.MakeMeter | find_parking_meters.py:100-108 | five points, the first and last being (x, y), so the ring is closed; the middle three are the box corners rotated about (x, y) |
| ParkingMeters.Location | find_parking_meters.py:206 | definition: the point parsed by `Decimal()`, longitude first, None when either coordinate does not parse; `Classify` proves it decides whether a branch exists |
| ParkingMeters.IsEven | find_parking_meters.py:209 | definition: the parity test that picks the east or the west tally; `BatteryStep` proves which tally a row bumps |
| ParkingMeters.RowError | find_parking_meters.py:206-221 | definition: the exception a row raises, in source order: InvalidOperation from `Decimal()`, then in the Battery branch ValueError from `int()` and KeyError from `meter_desc`; `MeterStep` and `AddMeters` prove the loop stops at the first one |
| ParkingMeters.MeterName | find_parking_meters.py:214-218 | definition: the placemark name, street number and name, post and space ids, type description and district |
| ParkingMeters.MeterPlacemark | find_parking_meters.py:214-221 | definition: the Battery meter's placemark, its box, the style of its cap colour and altitude 10; `BatteryStep` and `PlacemarkPerBatteryMeter` prove one is appended per Battery meter |
| ParkingMeters.Classify | find_parking_meters.py:206-226 | there is no branch exactly when the location does not parse |
| ParkingMeters.BatteryBeforeFidi | find_parking_meters.py:207-222 | Battery needs containment and "BATTERY ST"; FiDi needs failing that test and FiDi containment; no row takes both |
| ParkingMeters.BatteryStep | find_parking_meters.py:207-221 | a Battery row bumps the Battery counter and the east (even) or west (odd) tally, and appends its placemark |
| ParkingMeters.FidiStep | find_parking_meters.py:222-224 | a FiDi row bumps the FiDi counter and the FiDi tally of its cap colour |
| ParkingMeters.OutsideStep | find_parking_meters.py:225-226 | any other row bumps only the outside counter |
| ParkingMeters.MeterStep | find_parking_meters.py:206-226 | one loop pass succeeds exactly when the row raises nothing, reports the row's exception otherwise, and keeps the tally invariant |
| ParkingMeters.AddMeters | find_parking_meters.py:195-226 | the loop stops at the first row that raises, with its exception; otherwise every counter counts its branch's rows, every tally counts them by cap colour, and the placemarks are those of the Battery rows in order |
| ParkingMeters.CountersPartition | find_parking_meters.py:205-226 | the three counters add up to the number of rows read |
| ParkingMeters.EastWestCoverBattery | find_parking_meters.py:208-213 | the east and west tallies add up to `inside_battery_count` |
| ParkingMeters.FidiTallyCounts | find_parking_meters.py:222-224 | the FiDi tally adds up to `inside_fidi_cbd_count`, and each of its keys has count at least 1 |
| ParkingMeters.PlacemarkPerBatteryMeter | find_parking_meters.py:213-221 | one placemark per Battery meter |
| ParkingMeters.Get0 | find_parking_meters.py:234 | definition: a defaultdict read, the stored count or 0 for a missing key; `ShareReportsBounds` uses it |
| ParkingMeters.Shares | find_parking_meters.py:233-239 | definition: one share line per FiDi colour with its FiDi count, its Battery count (0 when missing) and their percentage; `ShareReports`, `ShareReportsBounds` and `ShareReportDefined` prove its properties |
| ParkingMeters.Percent | find_parking_meters.py:235 | definition: `part / whole * 100` on reals; `PercentFacts` proves its sign, its inverse and its monotonicity |
| ParkingMeters.PercentFacts | find_parking_meters.py:235 | a share is non-negative, times its denominator gives back 100 times the part, and grows with the part |
| ParkingMeters.BothSides | find_parking_meters.py:234 | definition: per FiDi colour, the west count plus the east count; `ShareReportsBounds` proves the east-only share is at most the both-sides share |
| ParkingMeters.ShareReports | find_parking_meters.py:232-239 | both reports cover exactly the FiDi colours with their FiDi counts; the first counts west plus east, the second east only, each as a percentage of the FiDi count |
| ParkingMeters.ShareReportsBounds | find_parking_meters.py:233-239 | when every FiDi count is at least 1, as after a run, the east-only share of a colour is between 0 and its both-sides share |
| ParkingMeters.ShareReportDefined | find_parking_meters.py:233-239 | after a run, every FiDi count used as a denominator is at least 1 |
| BlueZones.Visit | find_parking_meters.py:154-169 | definition: the outcome of one loop pass, skip, add a zone, or raise; `VisitAdds`, `VisitSkips` and `VisitRaises` prove its cases |
| BlueZones.ZoneName | find_parking_meters.py:164-166 | definition: the polygon name, address and cross street, site detail, side and length |
| BlueZones.VisitAdds | find_parking_meters.py:153-169 | a row adds a zone exactly when its shape is non-empty, decodes to a first point inside the Battery boundary, and has a known side; the zone is the closed blue-zone box at that point with the blue-zone style |
| BlueZones.VisitSkips | find_parking_meters.py:154-160 | an empty shape, or a first point outside the boundary, is skipped |
| BlueZones.VisitRaises | find_parking_meters.py:157-161 | a bad shape raises the decoder's error; no points raises IndexError; an "nw" side inside the boundary raises KeyError |
| BlueZones.SideIgnoresCase | find_parking_meters.py:161 | rows whose sides differ only in case have the same outcome |
| BlueZones.ZoneStep | find_parking_meters.py:163-169 | one more row keeps the polygons equal to the zones of the adding rows so far |
| BlueZones.VisitRow | find_parking_meters.py:154-169 | one loop pass succeeds exactly when the row does not raise, reports its exception otherwise, and keeps the run invariant (no errors so far, polygons are the zones of the adding rows, the counter counts them) |
| BlueZones.AddBlueZones | find_parking_meters.py:151-169 | the loop stops at the first row that raises; otherwise `zone_count` is the number of polygons added, and those are the zones of the adding rows in order |
| BlueZones.ZonesInsideBattery | find_parking_meters.py:158-167 | every added polygon has five points and is anchored inside the Battery boundary |
| BusinessScan.Raises | business_scan.py:28-29 | definition: the decoding of the record's location raises; `RaisedNeverCollected` proves such a record is never collected |
| BusinessScan.NoCoords | business_scan.py:28-36 | definition: the location decodes with no coordinates; `EmptyLocationByAddress` proves how such a record is counted |
| BusinessScan.Collected | business_scan.py:28-41 | definition: a decoded record whose lower-cased address holds "battery" or whose first point is inside; `BusinessScan` and `ScanCounts` prove the collected list is these records |
| BusinessScan.ScanStep | business_scan.py:27-42 | one record moves `in_battery`, `x` and `e` by exactly its own contribution |
| BusinessScan.ScanRecord | business_scan.py:27-42 | one loop pass keeps `in_battery`, `c`, `x` and `e` equal to their reference values over the records read so far |
| BusinessScan.BusinessScan | business_scan.py:22-42 | `in_battery` is the collected records in order and `c` its length; `x` counts records that do not raise; `e` counts records that raise plus records without coordinates |
| BusinessScan.ScanCounts | business_scan.py:26-42 | `x` plus the raising records is the number of records; `c` <= `x`; `e` <= the number of records; every collected record was read and qualifies |
| BusinessScan.RaisedNeverCollected | business_scan.py:28-42 | a record whose location raises is never collected, even with "battery" in its address |
| BusinessScan.EmptyLocationByAddress | business_scan.py:28-36 | an empty location counts toward `e`, raises nothing, and is collected exactly when the lower-cased address holds "battery" |
| BusinessScan.OnlyFirstPointMatters | business_scan.py:31-33 | records with the same address and the same first point are collected alike, whatever their other points |
| RandomTest.SplitLines | random_test.py:11-12 | definition: the bodies after each "LINESTRING(", each up to the next ')' or the end, left to right; `BodiesOpen`, `SplitForm` and `SplitForms` prove its properties |
| RandomTest.BodiesOpen | random_test.py:11-12 | no returned body holds a ')' |
| RandomTest.NoMarkerNoLines | random_test.py:12 | text without "LINESTRING(" (for instance one written "LINESTRING (") gives no bodies |
| RandomTest.SkipClose | random_test.py:12 | a ')' in front of the text changes nothing |
| RandomTest.SplitForm | random_test.py:12 | a form followed by any text gives its body first, then the bodies of the rest |
| RandomTest.SplitForms | random_test.py:11-12 | round trip: concatenated forms give back their bodies in order |
| RandomTest.LineOf | random_test.py:24-33 | definition: the line for the body at an index, named "Line " and the index, its token pairs, width 4 when coloured; `LineNamesDistinct`, `LineCoords` and `StyledIffColors` prove its properties |
| RandomTest.CreateLines | random_test.py:21-35 | succeeds exactly when every token of every body parses as a float (else ValueError); then one line per body, in order |
| RandomTest.LineNamesDistinct | random_test.py:28 | lines at different indexes have different names |
| RandomTest.LineCoords | random_test.py:24-26 | the coordinates are the body's token strings paired (token 2i, token 2i+1), in order, with an odd last token dropped |
| RandomTest.LineOfEncoded | random_test.py:24-26 | round trip: a body written from token pairs gives those pairs |
| RandomTest.StyledIffColors | random_test.py:31-33 | a line is styled (width 4) exactly when colours are asked for |

## Left out

- Floating point. `Decimal()`, `float()` and `int()` are abstract parsers, and the
  number type is a parameter. `rotate2d`, the grid angle and the box sizes are
  abstract too. So are `polygon_area`, `distance_mi` and the unit conversions,
  which are floating-point work over pyproj and geopy.
- Point-in-polygon and `Polygon` construction (shapely) are abstract predicates.
  The model does not check that the shell built by `load_boundary_file` is a valid
  polygon.
- I/O is not modelled: opening files and gzip, `csv.DictReader` row reading,
  `json.loads`, argparse, stdout and `sys.stdout.write`. Rows enter as typed
  records whose cells are all present strings; cells that csv gives as None are
  not modelled. The JSON decode of the boundary file is given as its decoded
  coordinate lists.
- No KML output is modelled: `make_stylemap`, the `doc.newpolygon` and
  `newlinestring` calls, and `random_color`. Placemarks, zones and lines are
  returned as values. The styles are the four-field dictionaries handed to
  `make_stylemap`.
- The non-dry `wkt_to_kml` call in business_scan.py adds a line to the document
  and draws a random colour. That side effect is left out.
- The progress prints of business_scan.py (every 1000 records, and the exception
  text) are left out. So are the east-tally prints of `add_meters`.
- defs/boundaries.py and `main_sanity_check` are not part of this model. They
  only load files and plot.
- Text.Lower: `str.lower()` on ASCII letters only; other letters are not modelled.
- Wkt.Decode: empty input gives the coordinates `[]` where utils.py:84 returns the
  string `""`. Callers only test it for emptiness (business_scan.py:29) or skip
  empty shapes first (find_parking_meters.py:154).
- Wkt.IsWordChar: the regex class `\w` on ASCII only; Python also counts other
  Unicode letters and digits.
- ParkingMeters.IsEven: the source tests `street_num / 2 == int(street_num / 2)` in
  floating point, which is wrong for odd numbers above 2^53, and raises
  OverflowError when `street_num / 2` does not fit in a float. The model is exact
  parity and never raises there.
- ParkingMeters.Shares: the percentage is exact. It is not rounded to two places,
  and not printed.
- ParkingMeters.ShareReports: the order of a defaultdict's keys is not modelled, so
  the report is a map from cap colour to its line.
- CapReport.PrintCapDict: when a key substitution misses a key, the result is
  KeyError alone. The heading line already printed before `sorted` raises is not
  part of the result.
- CapReport.SortRowsSorted: states sortedness and permutation, not the stability
  of Python's `sorted` for keys that share a label.
- DictObject.GetAttr: the names of `dict`'s own methods (such as `keys`) are found
  as attributes before `__getattr__` runs. The model does not cover them.
- BoundaryRing.Shell: `pruncate` is an unbounded integer. A point is a list of
  numbers, and any non-list JSON shape is not modelled.
- TsvHeader.HeaderFields: `readline()` is given as the first line's text. An empty
  file gives the empty line.

## Findings

| source | as written | input that shows it | evidently intended | confidence | as-written member | corrected member |
|---|---|---|---|---|---|---|
| utils.py:111-112 | `DictObj(d=None)` passes `d` to `dict.__init__`, and `dict(None)` raises TypeError, so the default argument always raises | `DictObj()` | no argument gives an empty `DictObj` | not executed | DictObject.NewDefaultRaises | DictObject.New |
