/** `load_boundary_file` (utils.py, with the same logic in find_parking_meters.py)
    takes the outer ring of a GeoJSON polygon, drops its first `pruncate` points and
    keeps the first two components of each remaining point. Reading the file and
    decoding the JSON are not part of this model; the decoded coordinate lists are
    the input, with the number type a parameter `F`. */
module BoundaryRing {
  import opened Common

  /** `s.find(c)`: the index of the first `c`, or -1 when there is none. */
  function Find(s: string, c: char): (r: int)
    ensures -1 <= r < |s|
    ensures r >= 0 ==> s[r] == c && forall i :: 0 <= i < r ==> s[i] != c
    ensures r == -1 <==> forall i :: 0 <= i < |s| ==> s[i] != c
  {
    if s == [] then -1
    else if s[0] == c then 0
    else
      var r := Find(s[1..], c);
      assert forall i :: 1 <= i < |s| ==> s[i] == s[1..][i - 1];
      if r == -1 then -1 else r + 1
  }

  /** Where a Python slice `s[k:]` of a list of length `n` starts: a negative `k`
      counts from the end, and both ends are clamped to the list. */
  function SliceStart(n: nat, k: int): (start: nat)
    ensures start <= n
    ensures k >= 0 ==> start == if k <= n then k else n
    ensures k < 0 ==> start == if n + k >= 0 then n + k else 0
  {
    if k >= 0 then (if k <= n then k else n) else (if n + k >= 0 then n + k else 0)
  }

  /** `s[k:]` with Python's slice rules. */
  function Slice<T>(s: seq<T>, k: int): seq<T>
  {
    s[SliceStart(|s|, k)..]
  }

  /** The text handed to the JSON decoder: `text[text.find("{"):]`. When there is no
      '{', find gives -1 and the slice is the last character alone. */
  function JsonText(text: string): string
  {
    Slice(text, Find(text, '{'))
  }

  /** The JSON text starts at the first '{': nothing before it is dropped that is a
      '{', and it starts with '{' whenever the file holds one. */
  lemma JsonTextStart(text: string)
    ensures (exists i :: 0 <= i < |text| && text[i] == '{') ==>
      |JsonText(text)| > 0 && JsonText(text)[0] == '{' &&
      JsonText(text) == text[|text| - |JsonText(text)|..] &&
      forall i :: 0 <= i < |text| - |JsonText(text)| ==> text[i] != '{'
    ensures (forall i :: 0 <= i < |text| ==> text[i] != '{') ==>
      JsonText(text) == if text == [] then [] else [text[|text| - 1]]
  {
    var k := Find(text, '{');
    if k == -1 {
      if text != [] { assert text[|text| - 1..] == [text[|text| - 1]]; }
    } else {
      assert SliceStart(|text|, k) == k;
      var j := text[k..];
      assert JsonText(text) == j;
      assert |text| - |j| == k;
      assert j[0] == '{';
    }
  }

  /** `[(p[0], p[1]) for p in pts]`: IndexError as soon as a point has fewer than two
      components. */
  function CutPoints<F>(pts: seq<seq<F>>): (r: Result<seq<(F, F)>>)
    ensures r.Success? <==> forall i :: 0 <= i < |pts| ==> |pts[i]| >= 2
    ensures r.Failure? ==> r.error == IndexError
    ensures r.Success? ==> |r.value| == |pts|
    ensures r.Success? ==> forall i :: 0 <= i < |pts| ==> r.value[i] == (pts[i][0], pts[i][1])
  {
    if pts == [] then Success([])
    else if |pts[0]| < 2 then Failure(IndexError)
    else
      var rest := CutPoints(pts[1..]);
      assert forall i :: 1 <= i < |pts| ==> pts[i] == pts[1..][i - 1];
      if rest.Failure? then rest else Success([(pts[0][0], pts[0][1])] + rest.value)
  }

  /** The shell of the boundary polygon: `[(p[0], p[1]) for p in coordinates[0][pruncate:]]`.
      A polygon without rings raises IndexError. */
  function Shell<F>(coordinates: seq<seq<seq<F>>>, pruncate: int): Result<seq<(F, F)>>
  {
    if coordinates == [] then Failure(IndexError)
    else CutPoints(Slice(coordinates[0], pruncate))
  }

  /** The shell is the outer ring after its first `pruncate` points, in order, each
      cut to two components; it fails exactly when there is no ring or a kept point is
      too short, so points in the dropped prefix are never looked at. */
  lemma ShellContents<F>(coordinates: seq<seq<seq<F>>>, pruncate: int)
    requires coordinates != []
    ensures var ring, start := coordinates[0], SliceStart(|coordinates[0]|, pruncate);
      var r := Shell(coordinates, pruncate);
      && (r.Success? <==> forall i :: start <= i < |ring| ==> |ring[i]| >= 2)
      && (r.Success? ==> |r.value| == |ring| - start)
      && (r.Success? ==>
            forall i :: 0 <= i < |r.value| ==> r.value[i] == (ring[start + i][0], ring[start + i][1]))
  {
    var ring, start := coordinates[0], SliceStart(|coordinates[0]|, pruncate);
    var kept := ring[start..];
    assert forall i :: 0 <= i < |kept| ==> kept[i] == ring[start + i];
    assert forall i :: start <= i < |ring| ==> ring[i] == kept[i - start];
  }

  /** With a non-negative `pruncate` the shell has max(0, n - pruncate) points. */
  lemma ShellLength<F>(coordinates: seq<seq<seq<F>>>, pruncate: int)
    requires coordinates != [] && pruncate >= 0
    requires Shell(coordinates, pruncate).Success?
    ensures var n := |coordinates[0]|;
      |Shell(coordinates, pruncate).value| == if n - pruncate >= 0 then n - pruncate else 0
  {
  }

  /** A point written as the list [x, y]. */
  function Widen<F>(p: (F, F)): (r: seq<F>)
    ensures |r| == 2 && r[0] == p.0 && r[1] == p.1
  {
    [p.0, p.1]
  }

  /** A ring of pairs written as lists. */
  function WidenAll<F>(ps: seq<(F, F)>): (r: seq<seq<F>>)
    ensures |r| == |ps| && forall i :: 0 <= i < |ps| ==> r[i] == Widen(ps[i])
  {
    seq(|ps|, i requires 0 <= i < |ps| => Widen(ps[i]))
  }

  /** Round trip: a ring of two-component points read back with pruncate 0 is the ring. */
  lemma ShellOfPairs<F>(ps: seq<(F, F)>)
    ensures Shell([WidenAll(ps)], 0) == Success(ps)
  {
    var ring := WidenAll(ps);
    assert Slice(ring, 0) == ring;
    var r := CutPoints(ring);
    assert r.Success?;
    assert |r.value| == |ps|;
    assert forall i :: 0 <= i < |ps| ==> r.value[i] == ps[i];
    assert r.value == ps;
    assert [ring][0] == ring;
  }

  /** Each point of `ring` with the components of `extra` appended. */
  function Extend<F>(ring: seq<seq<F>>, extra: seq<seq<F>>): (r: seq<seq<F>>)
    requires |extra| == |ring|
    ensures |r| == |ring| && forall i :: 0 <= i < |ring| ==> r[i] == ring[i] + extra[i]
  {
    seq(|ring|, i requires 0 <= i < |ring| => ring[i] + extra[i])
  }

  /** Components beyond the second are ignored. */
  lemma ShellIgnoresExtraComponents<F>(ring: seq<seq<F>>, extra: seq<seq<F>>, pruncate: int)
    requires |extra| == |ring|
    requires forall i :: 0 <= i < |ring| ==> |ring[i]| >= 2
    ensures Shell([ring], pruncate) == Shell([Extend(ring, extra)], pruncate)
  {
    var longer := Extend(ring, extra);
    ShellContents([ring], pruncate);
    ShellContents([longer], pruncate);
    var a, b := Shell([ring], pruncate), Shell([longer], pruncate);
    var start := SliceStart(|ring|, pruncate);
    assert forall i :: 0 <= i < |ring| ==> |longer[i]| >= 2 && longer[i][0] == ring[i][0] && longer[i][1] == ring[i][1];
    assert a.Success? && b.Success?;
    assert |a.value| == |b.value|;
    forall i | 0 <= i < |a.value| ensures a.value[i] == b.value[i] {
      assert longer[start + i][0] == ring[start + i][0];
      assert longer[start + i][1] == ring[start + i][1];
    }
    assert a.value == b.value;
  }
}
