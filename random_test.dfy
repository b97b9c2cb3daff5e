/** random_test.py: a converter of WKT LINESTRING text to KML lines. `split_lines`
    finds the bodies of the `LINESTRING(` forms, and `create_lines` makes one line per
    body, named by its index, whose coordinates are the body's token strings taken
    in pairs. The parsed numbers are not used, but a token that is not a number
    makes the conversion raise. */
module RandomTest {
  import opened Common
  import opened Text
  import opened Wkt

  /** The literal that opens a body; there is no space before the parenthesis. */
  const Marker: string := "LINESTRING("

  /** `re.findall(r"LINESTRING\(([^)]*)", wkt)`: scanning left to right, at each
      occurrence of the marker the body runs to the next ')' or to the end, and the
      search goes on from there. */
  function SplitLines(s: string): seq<string>
    decreases |s|
  {
    if |s| < |Marker| then []
    else if s[..|Marker|] == Marker then
      var rest := s[|Marker|..];
      var n := CloseIndex(rest);
      [rest[..n]] + SplitLines(rest[n..])
    else SplitLines(s[1..])
  }

  /** No body holds a ')'. */
  lemma {:induction false} BodiesOpen(s: string)
    ensures forall i, j :: 0 <= i < |SplitLines(s)| && 0 <= j < |SplitLines(s)[i]| ==> SplitLines(s)[i][j] != ')'
    decreases |s|
  {
    if |s| >= |Marker| {
      if s[..|Marker|] == Marker {
        var rest := s[|Marker|..];
        var n := CloseIndex(rest);
        BodiesOpen(rest[n..]);
        assert SplitLines(s) == [rest[..n]] + SplitLines(rest[n..]);
      } else {
        BodiesOpen(s[1..]);
      }
    }
  }

  /** Text without the marker (such as one spelled "LINESTRING (" with a space) gives
      no bodies. */
  lemma {:induction false} NoMarkerNoLines(s: string)
    requires forall i :: !OccursAt(s, Marker, i)
    ensures SplitLines(s) == []
    decreases |s|
  {
    if |s| >= |Marker| {
      assert !OccursAt(s, Marker, 0);
      forall i ensures !OccursAt(s[1..], Marker, i) {
        if OccursAt(s[1..], Marker, i) {
          assert s[1..][i..i + |Marker|] == s[i + 1..i + 1 + |Marker|];
          assert OccursAt(s, Marker, i + 1);
        }
      }
      NoMarkerNoLines(s[1..]);
    }
  }

  /** The LINESTRING form of one body. */
  function Form(body: string): string
  {
    Marker + body + ")"
  }

  /** Text that starts with ')' is scanned from the next character. */
  lemma SkipClose(rest: string)
    ensures SplitLines(")" + rest) == SplitLines(rest)
  {
    var s := ")" + rest;
    assert s[1..] == rest;
    if |s| >= |Marker| {
      assert s[0] != Marker[0];
      assert s[..|Marker|] != Marker;
    }
  }

  /** One form in front of any text gives its body first. */
  lemma SplitForm(body: string, rest: string)
    requires forall j :: 0 <= j < |body| ==> body[j] != ')'
    ensures SplitLines(Form(body) + rest) == [body] + SplitLines(rest)
  {
    var s := Form(body) + rest;
    assert s[..|Marker|] == Marker;
    var tail := s[|Marker|..];
    assert tail == body + (")" + rest);
    assert tail[|body|] == ')';
    assert CloseIndex(tail) == |body|;
    assert tail[..|body|] == body;
    assert tail[|body|..] == ")" + rest;
    SkipClose(rest);
  }

  /** All the forms, one after the other. */
  function Forms(bodies: seq<string>): string
  {
    if bodies == [] then "" else Form(bodies[0]) + Forms(bodies[1..])
  }

  /** Round trip: the bodies of concatenated forms are the bodies, in order. */
  lemma {:induction false} SplitForms(bodies: seq<string>)
    requires forall i, j :: 0 <= i < |bodies| && 0 <= j < |bodies[i]| ==> bodies[i][j] != ')'
    ensures SplitLines(Forms(bodies)) == bodies
  {
    if bodies != [] {
      SplitForm(bodies[0], Forms(bodies[1..]));
      SplitForms(bodies[1..]);
    }
  }

  /** A KML line: its name, its coordinates as token strings, and the line width set
      when colours are asked for (None when the line keeps the default style). */
  datatype LineString = LineString(name: string, coords: seq<(string, string)>, width: Option<nat>)

  /** The line made for the body at index `idx`. */
  function LineOf(body: string, idx: nat, colors: bool): LineString
  {
    LineString("Line " + NatToString(idx), Pairs(Tokens(body)), if colors then Some(4) else None)
  }

  /** Every token of the body parses as a float. */
  predicate BodyParses<F>(body: string, parseFloat: string -> Option<F>)
  {
    ParseAll(Tokens(body), parseFloat).Success?
  }

  /** The `create_lines` loop: one line per body in order; the first body with a token
      that is not a number raises ValueError. */
  method CreateLines<F>(lines: seq<string>, colors: bool, parseFloat: string -> Option<F>)
    returns (r: Result<seq<LineString>>)
    ensures r.Success? <==> forall i :: 0 <= i < |lines| ==> BodyParses(lines[i], parseFloat)
    ensures r.Failure? ==> r.error == ValueError
    ensures r.Success? ==> |r.value| == |lines| && forall i :: 0 <= i < |lines| ==> r.value[i] == LineOf(lines[i], i, colors)
  {
    var kml: seq<LineString> := [];
    for idx := 0 to |lines|
      invariant forall i :: 0 <= i < idx ==> BodyParses(lines[i], parseFloat)
      invariant |kml| == idx && forall i :: 0 <= i < idx ==> kml[i] == LineOf(lines[i], i, colors)
    {
      var l := lines[idx];
      var splitted := Tokens(l);
      var spl := ParseAll(splitted, parseFloat);
      if spl.Failure? {
        return Failure(spl.error);
      }
      var coords := Pairs(splitted);
      var width: Option<nat> := None;
      if colors {
        width := Some(4);
      }
      kml := kml + [LineString("Line " + NatToString(idx), coords, width)];
    }
    return Success(kml);
  }

  /** The line names are all different: distinct indexes have distinct decimal forms. */
  lemma LineNamesDistinct(i: nat, j: nat, colors: bool, b: string, c: string)
    requires i != j
    ensures LineOf(b, i, colors).name != LineOf(c, j, colors).name
  {
    var si, sj := NatToString(i), NatToString(j);
    NatToStringValue(i);
    NatToStringValue(j);
    assert ("Line " + si)[5..] == si && ("Line " + sj)[5..] == sj;
  }

  /** The coordinates of a line are the body's token strings in pairs, in order, an
      odd last token dropped. */
  lemma LineCoords(body: string, idx: nat, colors: bool)
    ensures var toks := Tokens(body);
      |LineOf(body, idx, colors).coords| == |toks| / 2 &&
      forall k :: 0 <= k < |toks| / 2 ==> LineOf(body, idx, colors).coords[k] == (toks[2 * k], toks[2 * k + 1])
  {
  }

  /** Round trip: the body written from token pairs gives back the pairs. */
  lemma LineOfEncoded(ps: seq<(string, string)>, idx: nat, colors: bool)
    requires forall i :: 0 <= i < |ps| ==> IsToken(ps[i].0) && IsToken(ps[i].1)
    ensures LineOf(EncodeCoords(ps), idx, colors).coords == ps
  {
    TokensEncode(ps);
    PairsFlatten(ps);
  }

  /** A line is styled exactly when colours are asked for. */
  lemma StyledIffColors(body: string, idx: nat, colors: bool)
    ensures LineOf(body, idx, colors).width.Some? <==> colors
    ensures colors ==> LineOf(body, idx, colors).width == Some(4)
  {
  }
}
