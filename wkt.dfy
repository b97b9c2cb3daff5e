/** The simplified WKT decoder `wkt_to_kml` (utils.py, with an identical copy in
    find_parking_meters.py): the type tag before " (", the body up to the first ')',
    the body cut into tokens on spaces and commas, every token parsed as a float,
    the numbers paired up. The float type is a parameter `F` and Python's `float()`
    is the parameter `parseNum`, which fails on a malformed token. */
module Wkt {
  import opened Common

  /** The decoded `{"type": ..., "coords": ...}` dictionary. */
  datatype Geometry<F> = Geometry(tag: string, coords: seq<(F, F)>)

  /** What `re.match(r"(\w+) \(+([^)]*)\)+", wkt)` captures: group 1 and group 2. */
  datatype ShapeMatch = ShapeMatch(tag: string, body: string)

  /** Characters of the regex class `\w` (ASCII letters, digits and underscore). */
  predicate IsWordChar(c: char)
  {
    ('a' <= c <= 'z') || ('A' <= c <= 'Z') || ('0' <= c <= '9') || c == '_'
  }

  /** Characters excluded by the token class `[^ ,]`. */
  predicate IsSeparator(c: char)
  {
    c == ' ' || c == ','
  }

  /** Length of the longest prefix of `s` made of word characters. */
  function WordLen(s: string): (n: nat)
    ensures n <= |s|
    ensures forall i :: 0 <= i < n ==> IsWordChar(s[i])
    ensures n < |s| ==> !IsWordChar(s[n])
  {
    if s == [] || !IsWordChar(s[0]) then 0 else 1 + WordLen(s[1..])
  }

  /** Length of the longest prefix of `s` made of '(' characters. */
  function OpenLen(s: string): (n: nat)
    ensures n <= |s|
    ensures forall i :: 0 <= i < n ==> s[i] == '('
    ensures n < |s| ==> s[n] != '('
  {
    if s == [] || s[0] != '(' then 0 else 1 + OpenLen(s[1..])
  }

  /** Index of the first ')' in `s`, or |s| when there is none. */
  function CloseIndex(s: string): (n: nat)
    ensures n <= |s|
    ensures forall i :: 0 <= i < n ==> s[i] != ')'
    ensures n < |s| ==> s[n] == ')'
  {
    if s == [] || s[0] == ')' then 0 else 1 + CloseIndex(s[1..])
  }

  /** Length of the longest prefix of `s` without separators. */
  function TokenLen(s: string): (n: nat)
    ensures n <= |s|
    ensures forall i :: 0 <= i < n ==> !IsSeparator(s[i])
    ensures n < |s| ==> IsSeparator(s[n])
  {
    if s == [] || IsSeparator(s[0]) then 0 else 1 + TokenLen(s[1..])
  }

  /** The anchored match of `(\w+) \(+([^)]*)\)+`. `\w+` can only stop at the end of
      the word run (the next character must be a space), and the body runs from the
      end of the '(' run to the first ')', which must exist. */
  function MatchShape(s: string): (r: Option<ShapeMatch>)
    ensures r.Some? ==>
      && |r.value.tag| > 0
      && (forall i :: 0 <= i < |r.value.tag| ==> IsWordChar(r.value.tag[i]))
      && (forall i :: 0 <= i < |r.value.body| ==> r.value.body[i] != ')')
      && (|r.value.body| > 0 ==> r.value.body[0] != '(')
  {
    var w := WordLen(s);
    if w == 0 || w == |s| || s[w] != ' ' then None
    else
      var k := OpenLen(s[w + 1..]);
      var n := w + 1 + k;
      if k == 0 then None
      else
        var b := CloseIndex(s[n..]);
        if n + b == |s| then None
        else Some(ShapeMatch(s[..w], s[n..n + b]))
  }

  /** `s` starts with `tag`, a space, `k` '(' characters, `body` and a ')'. */
  predicate ShapeAt(s: string, tag: string, k: nat, body: string)
  {
    var n := |tag| + 1 + k;
    && n + |body| < |s|
    && (forall i :: 0 <= i < |tag| ==> s[i] == tag[i])
    && s[|tag|] == ' '
    && (forall i :: |tag| + 1 <= i < n ==> s[i] == '(')
    && (forall i :: 0 <= i < |body| ==> s[n + i] == body[i])
    && s[n + |body|] == ')'
  }

  /** A match lays the text out as tag, space, a run of '(' of length at least one,
      body and ')'. */
  lemma MatchShapeLayout(s: string)
    requires MatchShape(s).Some?
    ensures exists k :: k >= 1 && ShapeAt(s, MatchShape(s).value.tag, k, MatchShape(s).value.body)
  {
    var w := WordLen(s);
    var k := OpenLen(s[w + 1..]);
    var n := w + 1 + k;
    var b := CloseIndex(s[n..]);
    assert w != 0 && w != |s| && s[w] == ' ' && k != 0 && n + b != |s|;
    var tag, body := s[..w], s[n..n + b];
    assert MatchShape(s).value == ShapeMatch(tag, body);
    assert n + b < |s|;
    assert forall i :: 0 <= i < w ==> s[i] == tag[i];
    forall i | w + 1 <= i < n ensures s[i] == '(' {
      assert s[i] == s[w + 1..][i - w - 1];
    }
    assert forall i :: 0 <= i < b ==> s[n + i] == body[i];
    assert s[n + b] == ')' by {
      assert s[n + b] == s[n..][b];
    }
    assert ShapeAt(s, tag, k, body);
  }

  /** The word run of a word followed by a non-word character is that word. */
  lemma WordLenOf(tag: string, x: string)
    requires forall i :: 0 <= i < |tag| ==> IsWordChar(tag[i])
    requires |x| > 0 && !IsWordChar(x[0])
    ensures WordLen(tag + x) == |tag|
  {
    var s := tag + x;
    assert s[|tag|] == x[0];
    assert forall i :: 0 <= i < |tag| ==> s[i] == tag[i];
  }

  /** The first ')' after a body without one is the one that follows it. */
  lemma CloseIndexOf(body: string, x: string)
    requires forall i :: 0 <= i < |body| ==> body[i] != ')'
    requires |x| > 0 && x[0] == ')'
    ensures CloseIndex(body + x) == |body|
  {
    var s := body + x;
    assert s[|body|] == x[0];
    assert forall i :: 0 <= i < |body| ==> s[i] == body[i];
  }

  /** In a text of the documented shape, the word run is the tag and a space follows. */
  lemma TagPart(tag: string, body: string, rest: string)
    requires forall i :: 0 <= i < |tag| ==> IsWordChar(tag[i])
    ensures var s, w := tag + " (" + body + ")" + rest, |tag|;
      WordLen(s) == w && s[w] == ' ' && s[..w] == tag
  {
    var x := " (" + body + ")" + rest;
    assert tag + " (" + body + ")" + rest == tag + x;
    WordLenOf(tag, x);
  }

  /** In a text of the documented shape, one '(' follows the space. */
  lemma OpenPart(tag: string, body: string, rest: string)
    requires |body| > 0 ==> body[0] != '('
    ensures var s, w := tag + " (" + body + ")" + rest, |tag|;
      OpenLen(s[w + 1..]) == 1
  {
    var s, w := tag + " (" + body + ")" + rest, |tag|;
    var r := s[w + 1..];
    assert r == "(" + body + ")" + rest;
    assert r[0] == '(';
    if |body| > 0 { assert r[1] == body[0]; } else { assert r[1] == ')'; }
  }

  /** In a text of the documented shape, the body runs from after the '(' to the
      first ')'. */
  lemma BodyPart(tag: string, body: string, rest: string)
    requires forall i :: 0 <= i < |body| ==> body[i] != ')'
    ensures var s, w := tag + " (" + body + ")" + rest, |tag|;
      CloseIndex(s[w + 2..]) == |body| && w + 2 + |body| < |s| && s[w + 2..w + 2 + |body|] == body
  {
    var s, w := tag + " (" + body + ")" + rest, |tag|;
    var after := s[w + 2..];
    assert after == body + (")" + rest);
    CloseIndexOf(body, ")" + rest);
    assert s[w + 2..w + 2 + |body|] == after[..|body|];
  }

  /** The text matches whenever it has the documented shape. */
  lemma MatchShapeOf(tag: string, body: string, rest: string)
    requires |tag| > 0 && forall i :: 0 <= i < |tag| ==> IsWordChar(tag[i])
    requires forall i :: 0 <= i < |body| ==> body[i] != ')'
    requires |body| > 0 ==> body[0] != '('
    ensures MatchShape(tag + " (" + body + ")" + rest) == Some(ShapeMatch(tag, body))
  {
    TagPart(tag, body, rest);
    OpenPart(tag, body, rest);
    BodyPart(tag, body, rest);
  }

  /** Without a word character first, or without a ')' anywhere, nothing matches. */
  lemma MatchShapeFails(s: string)
    requires (|s| > 0 ==> !IsWordChar(s[0])) || forall i :: 0 <= i < |s| ==> s[i] != ')'
    ensures MatchShape(s).None?
  {
    var w := WordLen(s);
    if w > 0 && w < |s| && s[w] == ' ' {
      var k := OpenLen(s[w + 1..]);
      var n := w + 1 + k;
      if k > 0 {
        assert forall i :: 0 <= i < |s[n..]| ==> s[n..][i] == s[n + i];
      }
    }
  }

  // ---------------------------------------------------------------------------
  // re.findall(r"[^ ,]+", body)

  /** The maximal runs of non-separator characters, left to right. */
  function Tokens(s: string): seq<string>
    decreases |s|
  {
    if s == [] then []
    else if IsSeparator(s[0]) then Tokens(s[1..])
    else
      var n := TokenLen(s);
      [s[..n]] + Tokens(s[n..])
  }

  /** Every token is non-empty and separator-free. */
  lemma {:induction false} TokensWellFormed(s: string)
    ensures forall i :: 0 <= i < |Tokens(s)| ==> |Tokens(s)[i]| > 0
    ensures forall i, j :: 0 <= i < |Tokens(s)| && 0 <= j < |Tokens(s)[i]| ==> !IsSeparator(Tokens(s)[i][j])
    decreases |s|
  {
    if s != [] {
      if IsSeparator(s[0]) {
        TokensWellFormed(s[1..]);
      } else {
        var n := TokenLen(s);
        TokensWellFormed(s[n..]);
        assert Tokens(s) == [s[..n]] + Tokens(s[n..]);
      }
    }
  }

  /** Leading separators produce no token. */
  lemma {:induction false} TokensSkip(g: string, s: string)
    requires forall i :: 0 <= i < |g| ==> IsSeparator(g[i])
    ensures Tokens(g + s) == Tokens(s)
    decreases |g|
  {
    if g != [] {
      assert IsSeparator(g[0]);
      assert (g + s)[0] == g[0];
      assert (g + s)[1..] == g[1..] + s;
      TokensSkip(g[1..], s);
    } else {
      assert g + s == s;
    }
  }

  /** A separator-free word followed by a separator (or by nothing) is one token. */
  lemma TokensWord(t: string, s: string)
    requires |t| > 0 && forall i :: 0 <= i < |t| ==> !IsSeparator(t[i])
    requires s == [] || IsSeparator(s[0])
    ensures Tokens(t + s) == [t] + Tokens(s)
  {
    var u := t + s;
    assert forall i :: 0 <= i < |t| ==> u[i] == t[i];
    var n := TokenLen(u);
    if |t| < |u| { assert u[|t|] == s[0]; }
    assert n == |t|;
    assert u[..n] == t && u[n..] == s;
  }

  /** A token string: non-empty, with no separator and no ')'. */
  predicate IsToken(t: string)
  {
    |t| > 0 && forall i :: 0 <= i < |t| ==> !IsSeparator(t[i]) && t[i] != ')'
  }

  /** The body text `"x1 y1, x2 y2, ..."` for coordinate token pairs. */
  function EncodeCoords(ps: seq<(string, string)>): string
  {
    if ps == [] then ""
    else if |ps| == 1 then ps[0].0 + " " + ps[0].1
    else ps[0].0 + " " + ps[0].1 + ", " + EncodeCoords(ps[1..])
  }

  /** The tokens of the pairs, in order. */
  function Flatten<T>(ps: seq<(T, T)>): (r: seq<T>)
    ensures |r| == 2 * |ps|
    ensures forall i :: 0 <= i < |ps| ==> r[2 * i] == ps[i].0 && r[2 * i + 1] == ps[i].1
  {
    if ps == [] then [] else [ps[0].0, ps[0].1] + Flatten(ps[1..])
  }

  /** Two tokens separated by a space, followed by a separator or nothing. */
  lemma TokensPair(x: string, y: string, tail: string)
    requires IsToken(x) && IsToken(y)
    requires tail == [] || IsSeparator(tail[0])
    ensures Tokens(x + " " + y + tail) == [x, y] + Tokens(tail)
  {
    var u := y + tail;
    var v := " " + u;
    var w := x + " " + y + tail;
    assert w == x + v;
    TokensWord(y, tail);
    TokensSkip(" ", u);
    assert v[0] == ' ';
    TokensWord(x, v);
  }

  lemma {:induction false} TokensEncode(ps: seq<(string, string)>)
    requires forall i :: 0 <= i < |ps| ==> IsToken(ps[i].0) && IsToken(ps[i].1)
    ensures Tokens(EncodeCoords(ps)) == Flatten(ps)
  {
    if ps != [] {
      var x, y := ps[0].0, ps[0].1;
      assert IsToken(x) && IsToken(y);
      assert Flatten(ps) == [x, y] + Flatten(ps[1..]);
      if |ps| == 1 {
        TokensPair(x, y, "");
        assert x + " " + y + "" == EncodeCoords(ps);
      } else {
        var rest := EncodeCoords(ps[1..]);
        TokensEncode(ps[1..]);
        TokensSkip(", ", rest);
        TokensPair(x, y, ", " + rest);
        assert x + " " + y + (", " + rest) == EncodeCoords(ps);
      }
    }
  }

  // ---------------------------------------------------------------------------
  // [float(i) for i in splitted] and zip(spl[::2], spl[1::2])

  /** Every token parsed, or ValueError at the first one that does not parse. */
  function ParseAll<F>(toks: seq<string>, parseNum: string -> Option<F>): (r: Result<seq<F>>)
    ensures r.Success? <==> forall i :: 0 <= i < |toks| ==> parseNum(toks[i]).Some?
    ensures r.Failure? ==> r.error == ValueError
    ensures r.Success? ==>
      |r.value| == |toks| && forall i :: 0 <= i < |toks| ==> parseNum(toks[i]) == Some(r.value[i])
  {
    if toks == [] then Success([])
    else
      match parseNum(toks[0])
      case None => Failure(ValueError)
      case Some(v) =>
        match ParseAll(toks[1..], parseNum)
        case Failure(e) => Failure(e)
        case Success(vs) =>
          assert forall i :: 1 <= i < |toks| ==> toks[i] == toks[1..][i - 1];
          Success([v] + vs)
  }

  /** `zip(s[::2], s[1::2])`: element i is (s[2i], s[2i+1]); an odd last element is dropped. */
  function Pairs<T>(s: seq<T>): (r: seq<(T, T)>)
    ensures |r| == |s| / 2
    ensures forall i :: 0 <= i < |r| ==> r[i] == (s[2 * i], s[2 * i + 1])
  {
    if |s| < 2 then [] else [(s[0], s[1])] + Pairs(s[2..])
  }

  /** Pairing undoes flattening. */
  lemma PairsFlatten<T>(ps: seq<(T, T)>)
    ensures Pairs(Flatten(ps)) == ps
  {
  }

  // ---------------------------------------------------------------------------
  // wkt_to_kml

  /** `wkt_to_kml(wkt, doc, dry)` without the KML line it adds to `doc` when not dry.
      Empty input gives the empty tag and no coordinates without looking further;
      input that does not match raises AttributeError (`parts` is None); a token
      that is not a number raises ValueError. */
  function Decode<F>(wkt: string, parseNum: string -> Option<F>): (r: Result<Geometry<F>>)
    ensures wkt == "" ==> r == Success(Geometry("", []))
    ensures wkt != "" && MatchShape(wkt).None? ==> r == Failure(AttributeError)
  {
    if wkt == "" then Success(Geometry("", []))
    else
      match MatchShape(wkt)
      case None => Failure(AttributeError)
      case Some(m) =>
        var toks := Tokens(m.body);
        match ParseAll(toks, parseNum)
        case Failure(e) => Failure(e)
        case Success(nums) => Success(Geometry(m.tag, Pairs(nums)))
  }

  /** What a matching text decodes to: it fails exactly when a token of the body is
      not a number, and otherwise keeps the tag and pairs the parsed tokens in order,
      dropping an odd last token. */
  lemma DecodeMatched<F>(wkt: string, parseNum: string -> Option<F>)
    requires wkt != "" && MatchShape(wkt).Some?
    ensures var r := Decode(wkt, parseNum);
      var m := MatchShape(wkt).value;
      var toks := Tokens(m.body);
      && (r.Success? <==> forall i :: 0 <= i < |toks| ==> parseNum(toks[i]).Some?)
      && (r.Failure? ==> r.error == ValueError)
      && (r.Success? ==>
            && r.value.tag == m.tag
            && |r.value.coords| == |toks| / 2
            && forall i :: 0 <= i < |r.value.coords| ==>
                 parseNum(toks[2 * i]) == Some(r.value.coords[i].0) &&
                 parseNum(toks[2 * i + 1]) == Some(r.value.coords[i].1))
  {
  }

  /** Once the shape matches, decoding is parsing and pairing the body's tokens. */
  lemma DecodeOfMatch<F>(wkt: string, m: ShapeMatch, nums: seq<F>, parseNum: string -> Option<F>)
    requires wkt != "" && MatchShape(wkt) == Some(m)
    requires ParseAll(Tokens(m.body), parseNum) == Success(nums)
    ensures Decode(wkt, parseNum) == Success(Geometry(m.tag, Pairs(nums)))
  {
  }

  /** The coordinate token pairs, each token parsed. */
  function ParsePairs<F>(ps: seq<(string, string)>, parseNum: string -> Option<F>): (r: seq<(F, F)>)
    requires forall i :: 0 <= i < |ps| ==> parseNum(ps[i].0).Some? && parseNum(ps[i].1).Some?
    ensures |r| == |ps|
    ensures forall i :: 0 <= i < |ps| ==> r[i] == (parseNum(ps[i].0).value, parseNum(ps[i].1).value)
  {
    seq(|ps|, i requires 0 <= i < |ps| => (parseNum(ps[i].0).value, parseNum(ps[i].1).value))
  }

  /** The text `TAG (x1 y1, x2 y2, ...)` of a geometry given as coordinate tokens. */
  function Encode(tag: string, ps: seq<(string, string)>): string
  {
    tag + " (" + EncodeCoords(ps) + ")"
  }

  /** The text of a tag and coordinate tokens matches the shape pattern with that tag
      and the coordinate text as body. */
  lemma MatchEncode(tag: string, ps: seq<(string, string)>)
    requires |tag| > 0 && forall i :: 0 <= i < |tag| ==> IsWordChar(tag[i])
    requires forall i :: 0 <= i < |ps| ==> IsToken(ps[i].0) && IsToken(ps[i].1)
    requires |ps| > 0 ==> |ps[0].0| > 0 && ps[0].0[0] != '('
    ensures Encode(tag, ps) != ""
    ensures MatchShape(Encode(tag, ps)) == Some(ShapeMatch(tag, EncodeCoords(ps)))
  {
    var body := EncodeCoords(ps);
    assert Encode(tag, ps) == tag + " (" + body + ")" + "";
    EncodeCoordsShape(ps);
    MatchShapeOf(tag, body, "");
  }

  /** Every flattened token parses when every token of every pair does. */
  lemma {:induction false} FlattenParses<F>(ps: seq<(string, string)>, parseNum: string -> Option<F>)
    requires forall i :: 0 <= i < |ps| ==> parseNum(ps[i].0).Some? && parseNum(ps[i].1).Some?
    ensures forall j :: 0 <= j < |Flatten(ps)| ==> parseNum(Flatten(ps)[j]).Some?
  {
    if ps != [] {
      var t := Flatten(ps[1..]);
      assert forall i :: 0 <= i < |ps| - 1 ==> ps[1..][i] == ps[i + 1];
      FlattenParses(ps[1..], parseNum);
      assert Flatten(ps) == [ps[0].0, ps[0].1] + t;
      assert forall j :: 2 <= j < |Flatten(ps)| ==> Flatten(ps)[j] == t[j - 2];
    }
  }

  /** Parsing the flattened tokens and pairing the numbers gives the parsed pairs. */
  lemma ParseFlatten<F>(ps: seq<(string, string)>, parseNum: string -> Option<F>)
    requires forall i :: 0 <= i < |ps| ==> parseNum(ps[i].0).Some? && parseNum(ps[i].1).Some?
    ensures ParseAll(Flatten(ps), parseNum).Success?
    ensures Pairs(ParseAll(Flatten(ps), parseNum).value) == ParsePairs(ps, parseNum)
  {
    var toks := Flatten(ps);
    assert forall i :: 0 <= i < |ps| ==> toks[2 * i] == ps[i].0 && toks[2 * i + 1] == ps[i].1;
    FlattenParses(ps, parseNum);
    var nums := ParseAll(toks, parseNum).value;
    var want := ParsePairs(ps, parseNum);
    forall i | 0 <= i < |ps| ensures Pairs(nums)[i] == want[i] {
      assert parseNum(toks[2 * i]) == Some(nums[2 * i]);
      assert parseNum(toks[2 * i + 1]) == Some(nums[2 * i + 1]);
    }
  }

  /** Round trip: decoding the text of a tag and coordinate tokens gives back the tag
      and, pair by pair, the parsed coordinates. */
  lemma DecodeEncode<F>(tag: string, ps: seq<(string, string)>, parseNum: string -> Option<F>)
    requires |tag| > 0 && forall i :: 0 <= i < |tag| ==> IsWordChar(tag[i])
    requires forall i :: 0 <= i < |ps| ==> IsToken(ps[i].0) && IsToken(ps[i].1)
    requires |ps| > 0 ==> |ps[0].0| > 0 && ps[0].0[0] != '('
    requires forall i :: 0 <= i < |ps| ==> parseNum(ps[i].0).Some? && parseNum(ps[i].1).Some?
    ensures Decode(Encode(tag, ps), parseNum) == Success(Geometry(tag, ParsePairs(ps, parseNum)))
  {
    var want := ParsePairs(ps, parseNum);
    MatchEncode(tag, ps);
    TokensEncode(ps);
    ParseFlatten(ps, parseNum);
    var nums := ParseAll(Flatten(ps), parseNum).value;
    DecodeOfMatch(Encode(tag, ps), ShapeMatch(tag, EncodeCoords(ps)), nums, parseNum);
  }

  /** The coordinate text has no ')' and starts with the first token. */
  lemma {:induction false} EncodeCoordsShape(ps: seq<(string, string)>)
    requires forall i :: 0 <= i < |ps| ==> IsToken(ps[i].0) && IsToken(ps[i].1)
    ensures var e := EncodeCoords(ps); forall i :: 0 <= i < |e| ==> e[i] != ')'
    ensures |ps| > 0 ==> |ps[0].0| > 0 && |EncodeCoords(ps)| > 0 && EncodeCoords(ps)[0] == ps[0].0[0]
  {
    if ps != [] {
      assert IsToken(ps[0].0) && IsToken(ps[0].1);
      if |ps| > 1 { EncodeCoordsShape(ps[1..]); }
    }
  }
}
