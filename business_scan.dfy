/** `main` of business_scan.py: a scan of the registered business locations that
    collects every record whose street address mentions "battery" or whose
    location's first point lies inside a boundary polygon, and counts collected
    records (`c`), records processed without an exception (`x`) and records with
    no usable location (`e`). The containment test and `float()` are parameters. */
module BusinessScan {
  import opened Common
  import opened Text
  import opened Wkt

  /** The two cells of a business record that the loop reads. */
  datatype Business = Business(location: string, address: string)

  /** The outside world the loop consults: the number parser the decoder uses and the
      boundary's `contains`. */
  datatype Scan<!F> = Scan(parseFloat: string -> Option<F>, inside: ((F, F)) -> bool)

  /** The decoding of the record's location raises. */
  predicate Raises<F>(s: Scan<F>, b: Business)
  {
    Decode(b.location, s.parseFloat).Failure?
  }

  /** The location decodes but gives no coordinates (an empty location among them). */
  predicate NoCoords<F>(s: Scan<F>, b: Business)
  {
    Decode(b.location, s.parseFloat).Success? && Decode(b.location, s.parseFloat).value.coords == []
  }

  /** A record that gets past the decoder is collected when its lower-cased address
      holds "battery", or when it has coordinates and the first pair is inside. */
  predicate Collected<F>(s: Scan<F>, b: Business)
  {
    match Decode(b.location, s.parseFloat)
    case Failure(_) => false
    case Success(geo) =>
      HasSubstring(Lower(b.address), "battery") || (geo.coords != [] && s.inside(geo.coords[0]))
  }

  function RaisesSel<F>(s: Scan<F>): Business -> bool
  {
    b => Raises(s, b)
  }

  function NoCoordsSel<F>(s: Scan<F>): Business -> bool
  {
    b => NoCoords(s, b)
  }

  function CollectedSel<F>(s: Scan<F>): Business -> bool
  {
    b => Collected(s, b)
  }

  function DecodesSel<F>(s: Scan<F>): Business -> bool
  {
    b => !Raises(s, b)
  }

  /** The counters and the list of the loop. */
  datatype ScanResult = ScanResult(c: nat, x: nat, e: nat, inBattery: seq<Business>)

  /** What the loop has computed after `rows`: `in_battery` is the collected records in
      order and `c` its length; `x` counts the records that did not raise; `e` counts
      those that raised and those that decoded to no coordinates. */
  predicate ScanOf<F>(s: Scan<F>, rows: seq<Business>, t: ScanResult)
  {
    && t.inBattery == Filter(rows, CollectedSel(s))
    && t.c == |t.inBattery|
    && t.x == Count(rows, DecodesSel(s))
    && t.e == Count(rows, RaisesSel(s)) + Count(rows, NoCoordsSel(s))
  }

  /** One record more. */
  lemma ScanStep<F>(s: Scan<F>, done: seq<Business>, b: Business)
    ensures Filter(done + [b], CollectedSel(s)) == Filter(done, CollectedSel(s)) + (if Collected(s, b) then [b] else [])
    ensures Count(done + [b], DecodesSel(s)) == Count(done, DecodesSel(s)) + (if Raises(s, b) then 0 else 1)
    ensures Count(done + [b], RaisesSel(s)) == Count(done, RaisesSel(s)) + (if Raises(s, b) then 1 else 0)
    ensures Count(done + [b], NoCoordsSel(s)) == Count(done, NoCoordsSel(s)) + (if NoCoords(s, b) then 1 else 0)
  {
    FilterAppend(done, b, CollectedSel(s));
    CountAppend(done, b, DecodesSel(s));
    CountAppend(done, b, RaisesSel(s));
    CountAppend(done, b, NoCoordsSel(s));
  }

  /** One pass of the scan loop: a record whose decoding raises bumps `e` and the
      loop goes on; otherwise an empty coordinate list bumps `e`, a collected record
      is appended and counted, and `x` is bumped. */
  method ScanRecord<F>(s: Scan<F>, rows: seq<Business>, i: nat, t: ScanResult) returns (r: ScanResult)
    requires i < |rows| && ScanOf(s, rows[..i], t)
    ensures ScanOf(s, rows[..i + 1], r)
  {
    var b := rows[i];
    assert rows[..i + 1] == rows[..i] + [b];
    ScanStep(s, rows[..i], b);
    var c, x, e, inBattery := t.c, t.x, t.e, t.inBattery;
    var pt := Decode(b.location, s.parseFloat);
    if pt.Failure? {
      assert Raises(s, b) && !NoCoords(s, b) && !Collected(s, b);
      e := e + 1;
    } else {
      var coords := pt.value.coords;
      assert !Raises(s, b) && (NoCoords(s, b) <==> coords == []);
      assert Collected(s, b) <==> HasSubstring(Lower(b.address), "battery") || (coords != [] && s.inside(coords[0]));
      if coords == [] {
        e := e + 1;
      }
      if HasSubstring(Lower(b.address), "battery") || (coords != [] && s.inside(coords[0])) {
        inBattery := inBattery + [b];
        c := c + 1;
      }
      x := x + 1;
    }
    return ScanResult(c, x, e, inBattery);
  }

  /** The scan loop, without its printing, over every record in order. */
  method BusinessScan<F>(s: Scan<F>, rows: seq<Business>) returns (r: ScanResult)
    ensures ScanOf(s, rows, r)
  {
    r := ScanResult(0, 0, 0, []);
    for i := 0 to |rows|
      invariant ScanOf(s, rows[..i], r)
    {
      r := ScanRecord(s, rows, i, r);
    }
    assert rows[..|rows|] == rows;
  }

  /** The counters after a scan: every record either raises or is counted by `x`, a
      collected record is one of those, and `e` counts each record at most once. */
  lemma {:induction false} ScanCounts<F>(s: Scan<F>, rows: seq<Business>, t: ScanResult)
    requires ScanOf(s, rows, t)
    ensures t.x + Count(rows, RaisesSel(s)) == |rows|
    ensures t.c <= t.x
    ensures t.e <= |rows|
    ensures forall b :: b in t.inBattery ==> b in rows && Collected(s, b)
  {
    CountComplement(rows, DecodesSel(s), RaisesSel(s));
    forall i | 0 <= i < |rows|
      ensures (DecodesSel(s)(rows[i]) <==> (CollectedSel(s)(rows[i]) || UncollectedSel(s)(rows[i]))) &&
              !(CollectedSel(s)(rows[i]) && UncollectedSel(s)(rows[i]))
    {
    }
    CountSplit(rows, DecodesSel(s), CollectedSel(s), UncollectedSel(s));
    CountMono(rows, NoCoordsSel(s), DecodesSel(s));
    FilterCount(rows, CollectedSel(s));
  }

  /** Records that get past the decoder and are not collected. */
  function UncollectedSel<F>(s: Scan<F>): Business -> bool
  {
    b => !Raises(s, b) && !Collected(s, b)
  }

  /** A record whose location does not decode is never collected, even when its
      address mentions "battery". */
  lemma RaisedNeverCollected<F>(s: Scan<F>, b: Business)
    requires Raises(s, b)
    ensures !Collected(s, b)
  {
  }

  /** An empty location bumps `e` and still lets the address collect the record; the
      address test ignores case. */
  lemma EmptyLocationByAddress<F>(s: Scan<F>, b: Business)
    requires b.location == ""
    ensures NoCoords(s, b) && !Raises(s, b)
    ensures Collected(s, b) <==> HasSubstring(Lower(b.address), "battery")
  {
  }

  /** Only the first coordinate pair is tested: two records with the same address
      whose locations decode to point lists with the same first point are collected
      alike. */
  lemma OnlyFirstPointMatters<F>(s: Scan<F>, b: Business, b2: Business)
    requires b.address == b2.address
    requires Decode(b.location, s.parseFloat).Success? && Decode(b2.location, s.parseFloat).Success?
    requires var p, q := Decode(b.location, s.parseFloat).value.coords, Decode(b2.location, s.parseFloat).value.coords;
      p != [] && q != [] && p[0] == q[0]
    ensures Collected(s, b) <==> Collected(s, b2)
  {
  }
}
